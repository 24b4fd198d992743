/** The entity builder behind `Room.load` and `Item.load`
    (`_get_from_data` in adventurelib_rich.py): it finds an entity's section
    in the loaded data, works out the constructor arguments, and checks the
    remaining keys before they become attributes. Reading the data file is
    not part of this model; its parsed contents are a parameter. */
module Builder {
  import opened Results
  import opened Values
  import Text

  /** The two entity classes with a `load` method. */
  datatype Kind = RoomKind | ItemKind

  function ClassName(k: Kind): string {
    match k
    case RoomKind => "Room"
    case ItemKind => "Item"
  }

  /** One entity's section: keys and values in file order. */
  type Table = seq<(string, Value)>

  /** Parsed data: class name, then entity name, then the entity's section. */
  type Data = map<string, map<string, Table>>

  /** The `AdventureDataError`s the builder raises, plus the two Python
      errors its constructor step can raise on badly typed values. */
  datatype DataError =
    | NotLoaded
    | SectionMissing(cls: string)
    | UnknownName(cls: string, name: string)
    | MissingDescription(name: string)
    | DescriptionNotText(name: string)   // `description.strip()` fails
    | AliasesNotList(name: string)       // `[name] + aliases` fails
    | Conflict(name: string, key: string)

  /** What the builder produces: the constructor arguments and the
      attributes set on the new entity afterwards. */
  datatype Entity = Entity(args: seq<Value>, attributes: Table)

  /** `if not adventure_data`: nothing loaded, or an empty document. */
  predicate Loaded(data: Option<Data>) {
    data.Some? && |data.value| > 0
  }

  /** `obj_data.get(key)`. */
  function Get(t: Table, key: string): (r: Option<Value>)
    ensures r.None? <==> forall i :: 0 <= i < |t| ==> t[i].0 != key
    ensures r.Some? ==> (key, r.value) in t
  {
    if |t| == 0 then None
    else if t[0].0 == key then Some(t[0].1)
    else Get(t[1..], key)
  }

  /** The section lookup as written: a `KeyError` whose key equals the
      class name is reported as a missing class section, which also catches
      an entity that is merely named like its class. */
  function LookupAsWritten(data: Option<Data>, kind: Kind, name: string): (r: Result<Table, DataError>)
    ensures !Loaded(data) ==> r == Err(NotLoaded)
    ensures Loaded(data) && ClassName(kind) !in data.value ==> r == Err(SectionMissing(ClassName(kind)))
    ensures (Loaded(data) && name == ClassName(kind) && ClassName(kind) in data.value
             && name !in data.value[ClassName(kind)]) ==> r == Err(SectionMissing(ClassName(kind)))
    ensures (Loaded(data) && name != ClassName(kind) && ClassName(kind) in data.value
             && name !in data.value[ClassName(kind)]) ==> r == Err(UnknownName(ClassName(kind), name))
    ensures r.Ok? <==> Loaded(data) && ClassName(kind) in data.value && name in data.value[ClassName(kind)]
    ensures r.Ok? ==> r.value == data.value[ClassName(kind)][name]
  {
    if !Loaded(data) then Err(NotLoaded)
    else
      var cls := ClassName(kind);
      if cls !in data.value then Err(SectionMissing(cls))
      else if name !in data.value[cls] then
        if name == cls then Err(SectionMissing(cls)) else Err(UnknownName(cls, name))
      else Ok(data.value[cls][name])
  }

  /** A room named "Room" missing from a data file that has a Room section
      is reported as a missing section. */
  lemma RoomNamedRoomMisreported()
    ensures var data := Some(map["Room" := map["Valley" := [("description", Str("A valley."))]]]);
      && "Room" in data.value
      && LookupAsWritten(data, RoomKind, "Room") == Err(SectionMissing("Room"))
      && Lookup(data, RoomKind, "Room") == Err(UnknownName("Room", "Room"))
  {
  }

  /** The section lookup, reporting a missing section only when the class
      has none and a missing entity otherwise. */
  function Lookup(data: Option<Data>, kind: Kind, name: string): (r: Result<Table, DataError>)
    ensures !Loaded(data) <==> r == Err(NotLoaded)
    ensures r == Err(SectionMissing(ClassName(kind))) <==> Loaded(data) && ClassName(kind) !in data.value
    ensures r == Err(UnknownName(ClassName(kind), name)) <==>
      Loaded(data) && ClassName(kind) in data.value && name !in data.value[ClassName(kind)]
    ensures r.Ok? <==> Loaded(data) && ClassName(kind) in data.value && name in data.value[ClassName(kind)]
    ensures r.Ok? ==> r.value == data.value[ClassName(kind)][name]
  {
    if !Loaded(data) then Err(NotLoaded)
    else
      var cls := ClassName(kind);
      if cls !in data.value then Err(SectionMissing(cls))
      else if name !in data.value[cls] then Err(UnknownName(cls, name))
      else Ok(data.value[cls][name])
  }

  /** Attributes every constructed entity has besides its class's own:
      `Room.__init__` sets `description`, `Item.__init__` sets `name` and
      `aliases`. */
  function InstanceAttributes(kind: Kind): set<string> {
    match kind
    case RoomKind => {"description"}
    case ItemKind => {"name", "aliases"}
  }

  /** Keys that may overwrite an existing attribute. */
  function Whitelist(kind: Kind): set<string> {
    match kind
    case RoomKind => {"label"}
    case ItemKind => {}
  }

  /** Keys already used as constructor arguments. */
  function Consumed(kind: Kind, t: Table): set<string> {
    match kind
    case RoomKind => {"description"}
    case ItemKind => if Get(t, "aliases").Some? && Truthy(Get(t, "aliases").value) then {"aliases"} else {}
  }

  /** A key that would overwrite an attribute the entity already has. */
  predicate Conflicts(key: string, consumed: set<string>, allowed: set<string>, existing: set<string>) {
    key !in consumed && key !in allowed && key in existing
  }

  /** Key `i` is the first of the section that conflicts. */
  predicate FirstConflict(t: Table, i: int, consumed: set<string>, allowed: set<string>, existing: set<string>) {
    && 0 <= i < |t|
    && Conflicts(t[i].0, consumed, allowed, existing)
    && forall j :: 0 <= j < i ==> !Conflicts(t[j].0, consumed, allowed, existing)
  }

  /** The `for key, value in obj_data.items()` loop: skip consumed keys,
      refuse the first conflicting one, keep the rest. */
  function Attributes(t: Table, consumed: set<string>, allowed: set<string>, existing: set<string>,
                      name: string): (r: Result<Table, DataError>)
    ensures r.Ok? <==> forall i :: 0 <= i < |t| ==> !Conflicts(t[i].0, consumed, allowed, existing)
    ensures r.Ok? ==> forall p :: p in r.value <==> p in t && p.0 !in consumed
    ensures r.Err? ==> exists i :: FirstConflict(t, i, consumed, allowed, existing) && r.error == Conflict(name, t[i].0)
  {
    if |t| == 0 then Ok([])
    else
      var key := t[0].0;
      if key in consumed then
        Attributes(t[1..], consumed, allowed, existing, name)
      else if Conflicts(key, consumed, allowed, existing) then
        Err(Conflict(name, key))
      else
        match Attributes(t[1..], consumed, allowed, existing, name)
        case Ok(rest) => Ok([t[0]] + rest)
        case Err(e) =>
          var i :| FirstConflict(t[1..], i, consumed, allowed, existing) && e == Conflict(name, t[1..][i].0);
          assert FirstConflict(t, i + 1, consumed, allowed, existing) by {
            forall j | 0 < j < i + 1
              ensures !Conflicts(t[j].0, consumed, allowed, existing)
            {
              assert t[j] == t[1..][j - 1];
            }
          }
          Err(e)
  }

  /** The lower-cased names, as constructor arguments. */
  function LowerAll(names: seq<string>): (r: seq<Value>)
    ensures |r| == |names|
    ensures forall i :: 0 <= i < |names| ==> r[i] == Str(Text.Lower(names[i]))
  {
    seq(|names|, i requires 0 <= i < |names| => Str(Text.Lower(names[i])))
  }

  /** The constructor accepts what the section supplies: a room needs a
      textual `description`; an item's `aliases`, when truthy, must be a
      list of names. */
  predicate Constructible(kind: Kind, t: Table) {
    match kind
    case RoomKind => Get(t, "description").Some? && Get(t, "description").value.Str?
    case ItemKind =>
      Get(t, "aliases").Some? && Truthy(Get(t, "aliases").value) ==> Get(t, "aliases").value.StrList?
  }

  /** No key of the section would overwrite an attribute of the new entity. */
  predicate NoConflict(kind: Kind, t: Table, classAttributes: set<string>) {
    forall i :: 0 <= i < |t| ==>
      !Conflicts(t[i].0, Consumed(kind, t), Whitelist(kind), classAttributes + InstanceAttributes(kind))
  }

  /** `_get_from_data(name, cls)`. `classAttributes` are the attributes the
      entity class defines (its methods, the declared directions and any
      class-level defaults such as `label` or `items`). */
  function Build(data: Option<Data>, kind: Kind, name: string, classAttributes: set<string>)
    : (r: Result<Entity, DataError>)
    ensures Lookup(data, kind, name).Err? ==> r == Err(Lookup(data, kind, name).error)
    ensures r.Ok? <==>
      && Lookup(data, kind, name).Ok?
      && Constructible(kind, Lookup(data, kind, name).value)
      && NoConflict(kind, Lookup(data, kind, name).value, classAttributes)
    ensures Lookup(data, kind, name).Ok? && kind == RoomKind ==>
      var t := Lookup(data, kind, name).value;
      && (Get(t, "description").None? ==> r == Err(MissingDescription(name)))
      && (Get(t, "description").Some? && !Get(t, "description").value.Str? ==>
            r == Err(DescriptionNotText(name)))
    ensures Lookup(data, kind, name).Ok? && kind == ItemKind ==>
      var a := Get(Lookup(data, kind, name).value, "aliases");
      a.Some? && Truthy(a.value) && !a.value.StrList? ==> r == Err(AliasesNotList(name))
    ensures Lookup(data, kind, name).Ok? && Constructible(kind, Lookup(data, kind, name).value) &&
            !NoConflict(kind, Lookup(data, kind, name).value, classAttributes) ==>
      var t := Lookup(data, kind, name).value;
      && r.Err?
      && exists i :: FirstConflict(t, i, Consumed(kind, t), Whitelist(kind), classAttributes + InstanceAttributes(kind))
                     && r.error == Conflict(name, t[i].0)
    ensures r.Ok? ==>
      var t := Lookup(data, kind, name).value;
      && (forall p :: p in r.value.attributes <==> p in t && p.0 !in Consumed(kind, t))
      && (kind == RoomKind ==> r.value.args == [Get(t, "description").value])
      && (kind == ItemKind ==> |r.value.args| >= 1 && r.value.args[0] == Str(name))
      && (kind == ItemKind && "aliases" in Consumed(kind, t) ==>
            r.value.args[1..] == LowerAll([name] + Get(t, "aliases").value.items))
      && (kind == ItemKind && "aliases" !in Consumed(kind, t) ==> |r.value.args| == 1)
  {
    var t :- Lookup(data, kind, name);
    var existing := classAttributes + InstanceAttributes(kind);
    match kind {
      case RoomKind =>
        match Get(t, "description") {
          case None => Err(MissingDescription(name))
          case Some(description) =>
            if !description.Str? then
              Err(DescriptionNotText(name))
            else
              var attributes :- Attributes(t, Consumed(kind, t), Whitelist(kind), existing, name);
              Ok(Entity([description], attributes))
        }
      case ItemKind =>
        var aliases := Get(t, "aliases");
        if aliases.Some? && Truthy(aliases.value) then
          if !aliases.value.StrList? then
            Err(AliasesNotList(name))
          else
            var attributes :- Attributes(t, Consumed(kind, t), Whitelist(kind), existing, name);
            Ok(Entity([Str(name)] + LowerAll([name] + aliases.value.items), attributes))
        else
          var attributes :- Attributes(t, Consumed(kind, t), Whitelist(kind), existing, name);
          Ok(Entity([Str(name)], attributes))
    }
  }

  /** The lookup as written and the corrected one disagree exactly on an
      entity named like its class that is missing from an existing section. */
  lemma LookupsDiffer(data: Option<Data>, kind: Kind, name: string)
    ensures LookupAsWritten(data, kind, name) != Lookup(data, kind, name) <==>
      && Loaded(data)
      && name == ClassName(kind)
      && ClassName(kind) in data.value
      && name !in data.value[ClassName(kind)]
  {
  }

  /** An item section whose `aliases` is present but empty keeps the key,
      which then collides with the item's own `aliases` attribute. */
  lemma EmptyAliasesConflict(data: Option<Data>, name: string, classAttributes: set<string>)
    requires Lookup(data, ItemKind, name).Ok?
    requires Get(Lookup(data, ItemKind, name).value, "aliases") == Some(StrList([]))
    ensures Build(data, ItemKind, name, classAttributes).Err?
    ensures Build(data, ItemKind, name, classAttributes).error.Conflict?
  {
  }
}
