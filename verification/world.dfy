/** The location graph (`Room` in adventurelib.py): a table of declared
    directions, each paired with its reverse, and one exit map per room.
    Rooms are ids in a map so that the two writes of an exit assignment are
    explicit. */
module World {
  import opened Results
  import Text
  import Order

  type RoomId = nat

  /** A room's description and its exits that are not `None`. */
  datatype Room = Room(description: string, exits: map<string, RoomId>)

  /** `Room._directions` and every room created so far. */
  datatype World = World(directions: map<string, string>, rooms: map<RoomId, Room>)

  /** The exceptions the graph operations raise. */
  datatype DirectionError =
    | NotLowercase(name: string)         // InvalidCommand from add_direction
    | AlreadyDeclared(name: string)      // KeyError from add_direction
    | UnknownDirection(name: string)     // KeyError from exit
    | UndeclaredDirection(name: string)  // the error raised by __setattr__

  /** Every direction's reverse is declared and leads back. */
  predicate Symmetric(dirs: map<string, string>) {
    forall d :: d in dirs ==> dirs[d] in dirs && dirs[dirs[d]] == d
  }

  /** The direction table is symmetric, and every exit uses a declared
      direction and leads to a room that exists. */
  predicate Valid(w: World) {
    && Symmetric(w.directions)
    && forall a :: a in w.rooms ==>
         forall d :: d in w.rooms[a].exits ==> d in w.directions && w.rooms[a].exits[d] in w.rooms
  }

  /** The world once adventurelib is imported: north/south and east/west. */
  function Initial(): (w: World)
    ensures Valid(w)
  {
    World(map["north" := "south", "south" := "north", "east" := "west", "west" := "east"], map[])
  }

  /** The check `add_direction` makes of one name, in its order. */
  function CheckNew(dirs: map<string, string>, d: string): Option<DirectionError> {
    if !Text.IsLower(d) then Some(NotLowercase(d))
    else if d in dirs then Some(AlreadyDeclared(d))
    else None
  }

  /** `Room.add_direction(forward, reverse)`: both names are checked before
      anything changes; then each becomes the other's reverse. Exits in the
      new directions default to `None` in every room. */
  function AddDirection(w: World, forward: string, reverse: string): (r: Result<World, DirectionError>)
    ensures r.Ok? <==>
      && Text.IsLower(forward) && forward !in w.directions
      && Text.IsLower(reverse) && reverse !in w.directions
    ensures r.Err? ==>
      r.error == (if CheckNew(w.directions, forward).Some? then CheckNew(w.directions, forward).value
                  else CheckNew(w.directions, reverse).value)
    ensures r.Ok? ==>
      && r.value.directions.Keys == w.directions.Keys + {forward, reverse}
      && r.value.directions[forward] == reverse
      && r.value.directions[reverse] == forward
      && (forall d :: d in w.directions ==> r.value.directions[d] == w.directions[d])
      && r.value.rooms == w.rooms
    ensures r.Ok? && Valid(w) ==> Valid(r.value)
  {
    match CheckNew(w.directions, forward)
    case Some(e) => Err(e)
    case None =>
      match CheckNew(w.directions, reverse)
      case Some(e) => Err(e)
      case None =>
        Ok(w.(directions := w.directions[forward := reverse][reverse := forward]))
  }

  /** `Room(description)`: a new room with the stripped description and no
      exits. */
  function NewRoom(w: World, id: RoomId, description: string): (r: World)
    requires id !in w.rooms
    ensures r.rooms.Keys == w.rooms.Keys + {id}
    ensures Text.IsTrimOf(r.rooms[id].description, description, Text.IsSpace)
    ensures r.rooms[id].exits == map[]
    ensures forall a :: a in w.rooms ==> r.rooms[a] == w.rooms[a]
    ensures r.directions == w.directions
    ensures Valid(w) ==> Valid(r)
  {
    w.(rooms := w.rooms[id := Room(Text.Strip(description), map[])])
  }

  /** `room.exit(direction)`: an undeclared direction raises; otherwise the
      neighbour, or `None`. */
  function Exit(w: World, a: RoomId, d: string): (r: Result<Option<RoomId>, DirectionError>)
    requires a in w.rooms
    ensures r.Err? <==> d !in w.directions
    ensures r.Err? ==> r.error == UnknownDirection(d)
    ensures r.Ok? ==> (r.value.Some? <==> d in w.rooms[a].exits)
    ensures r.Ok? && r.value.Some? ==> r.value.value == w.rooms[a].exits[d]
  {
    if d !in w.directions then Err(UnknownDirection(d))
    else if d in w.rooms[a].exits then Ok(Some(w.rooms[a].exits[d]))
    else Ok(None)
  }

  /** `room.exits()`: the declared directions that lead somewhere, sorted. */
  function Exits(w: World, a: RoomId): (r: seq<string>)
    requires a in w.rooms
    ensures Order.StrictlyAscending(r)
    ensures forall d :: d in r <==> d in w.directions && d in w.rooms[a].exits
  {
    Order.SortedOf(set d | d in w.directions && d in w.rooms[a].exits)
  }

  /** A direction is listed by `exits()` exactly when `exit()` finds a room
      that way. */
  lemma ExitsAgreeWithExit(w: World, a: RoomId, d: string)
    requires a in w.rooms
    ensures d in Exits(w, a) <==> Exit(w, a, d).Ok? && Exit(w, a, d).value.Some?
  {
  }

  /** Every exit other than the `written` (room, direction) pairs is the
      same in both worlds. */
  ghost predicate SameExitsExcept(w: World, w': World, written: set<(RoomId, string)>) {
    forall c, e :: c in w.rooms && c in w'.rooms && (c, e) !in written ==>
      && (e in w.rooms[c].exits <==> e in w'.rooms[c].exits)
      && (e in w.rooms[c].exits ==> w.rooms[c].exits[e] == w'.rooms[c].exits[e])
  }

  /** `a.<d> = b` for a room `b` (`Room.__setattr__`): an undeclared
      direction raises and changes nothing; otherwise `a` leads to `b` in
      `d`, and then `b` leads back to `a` in the reverse direction. */
  function Link(w: World, a: RoomId, d: string, b: RoomId): (r: Result<World, DirectionError>)
    requires a in w.rooms && b in w.rooms
    ensures r.Err? <==> d !in w.directions
    ensures r.Err? ==> r.error == UndeclaredDirection(d)
    ensures r.Ok? ==>
      && r.value.directions == w.directions
      && r.value.rooms.Keys == w.rooms.Keys
    ensures r.Ok? ==> Exit(r.value, a, d) == Ok(Some(b))
    ensures r.Ok? ==>
      && w.directions[d] in r.value.rooms[b].exits
      && r.value.rooms[b].exits[w.directions[d]] == a
    ensures r.Ok? && Symmetric(w.directions) ==> Exit(r.value, b, w.directions[d]) == Ok(Some(a))
    ensures r.Ok? ==>
      && (forall c :: c in w.rooms && c != a && c != b ==> r.value.rooms[c] == w.rooms[c])
      && SameExitsExcept(w, r.value, {(a, d), (b, w.directions[d])})
      && (forall c :: c in w.rooms ==> r.value.rooms[c].description == w.rooms[c].description)
    ensures r.Ok? && Valid(w) ==> Valid(r.value)
  {
    if d !in w.directions then
      Err(UndeclaredDirection(d))
    else
      var reverse := w.directions[d];
      var w1 := w.(rooms := w.rooms[a := w.rooms[a].(exits := w.rooms[a].exits[d := b])]);
      Ok(w1.(rooms := w1.rooms[b := w1.rooms[b].(exits := w1.rooms[b].exits[reverse := a])]))
  }

  /** `a.<d> = None`: the exit is cleared; no reverse link is touched, and
      the name need not be a declared direction. */
  function Unlink(w: World, a: RoomId, d: string): (r: World)
    requires a in w.rooms
    ensures r.directions == w.directions
    ensures r.rooms.Keys == w.rooms.Keys
    ensures d in w.directions ==> Exit(r, a, d) == Ok(None)
    ensures forall c :: c in w.rooms && c != a ==> r.rooms[c] == w.rooms[c]
    ensures SameExitsExcept(w, r, {(a, d)})
    ensures Valid(w) ==> Valid(r)
  {
    w.(rooms := w.rooms[a := w.rooms[a].(exits := w.rooms[a].exits - {d})])
  }

  /** Declaring a direction pair and then linking two rooms in the forward
      direction makes the second room lead back in the reverse one. */
  lemma DeclareThenLink(w: World, forward: string, reverse: string, a: RoomId, b: RoomId)
    requires a in w.rooms && b in w.rooms
    requires AddDirection(w, forward, reverse).Ok?
    ensures var w1 := AddDirection(w, forward, reverse).value;
      && Link(w1, a, forward, b).Ok?
      && Exit(Link(w1, a, forward, b).value, b, reverse) == Ok(Some(a))
      && Exit(Link(w1, a, forward, b).value, a, forward) == Ok(Some(b))
  {
  }
}
