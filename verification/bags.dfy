/** Items and the Bag container (adventurelib.py): a set of items with
    membership and removal by alias. The members of a Bag are kept in the
    order the set iterates over them, which Python leaves unspecified;
    identity is the item's `id`. */
module Bags {
  import opened Results

  type ItemId = nat

  /** An item: its identity, its display name and the names it answers to. */
  datatype Item = Item(id: ItemId, name: string, aliases: seq<string>)

  /** `Item(name, *aliases)`: the name is also the first alias. */
  function NewItem(id: ItemId, name: string, more: seq<string>): (r: Item)
    ensures r.id == id && r.name == name
    ensures |r.aliases| == |more| + 1 && r.aliases[0] == name && r.aliases[1..] == more
    ensures forall a :: a in r.aliases <==> a == name || a in more
  {
    Item(id, name, [name] + more)
  }

  /** The members of a Bag in iteration order. */
  type Bag = seq<Item>

  /** No identity occurs twice: a Bag is a set. */
  predicate Distinct(b: Bag) {
    forall i, j :: 0 <= i < j < |b| ==> b[i].id != b[j].id
  }

  function Ids(b: Bag): set<ItemId> {
    set i | 0 <= i < |b| :: b[i].id
  }

  /** Some member answers to `name`. */
  predicate Answers(b: Bag, name: string) {
    exists i :: 0 <= i < |b| && name in b[i].aliases
  }

  /** `Bag._find(name)`: the position of the first member, in iteration
      order, that answers to `name`. */
  function Find(b: Bag, name: string): (r: Option<nat>)
    ensures r.None? <==> !Answers(b, name)
    ensures r.Some? ==>
      && r.value < |b|
      && name in b[r.value].aliases
      && forall j :: 0 <= j < r.value ==> name !in b[j].aliases
  {
    if |b| == 0 then None
    else if name in b[0].aliases then Some(0)
    else
      match Find(b[1..], name)
      case None => None
      case Some(k) => Some(k + 1)
  }

  /** `name in bag` for a string. */
  function HasName(b: Bag, name: string): (r: bool)
    ensures r <==> Answers(b, name)
  {
    Find(b, name).Some?
  }

  /** The Bag without the member at position `i`. */
  function RemoveAt(b: Bag, i: nat): (r: Bag)
    requires i < |b|
    requires Distinct(b)
    ensures |r| == |b| - 1
    ensures Distinct(r)
    ensures Ids(r) == Ids(b) - {b[i].id}
    ensures forall x :: x in r ==> x in b
  {
    var r := b[..i] + b[i + 1..];
    assert forall k :: 0 <= k < |r| ==> r[k] == (if k < i then b[k] else b[k + 1]);
    assert Ids(r) == Ids(b) - {b[i].id} by {
      forall x | x in Ids(b) - {b[i].id}
        ensures x in Ids(r)
      {
        var k :| 0 <= k < |b| && b[k].id == x;
        assert k != i;
        if k < i {
          assert r[k].id == x;
        } else {
          assert r[k - 1].id == x;
        }
      }
    }
    r
  }

  /** `bag.take(name)`: remove and return the first member that answers
      to `name`, or return `None` and leave the Bag as it is. */
  function Take(b: Bag, name: string): (r: (Option<Item>, Bag))
    requires Distinct(b)
    ensures r.0.None? <==> !Answers(b, name)
    ensures r.0.None? ==> r.1 == b
    ensures r.0.Some? ==>
      && r.0.value in b
      && name in r.0.value.aliases
      && Ids(r.1) == Ids(b) - {r.0.value.id}
      && |r.1| == |b| - 1
      && forall x :: x in r.1 ==> x in b
    ensures Distinct(r.1)
  {
    match Find(b, name)
    case None => (None, b)
    case Some(i) => (Some(b[i]), RemoveAt(b, i))
  }

  /** `bag.add(item)`: a member already present by identity is kept. */
  function Add(b: Bag, it: Item): (r: Bag)
    ensures Ids(r) == Ids(b) + {it.id}
    ensures Distinct(b) ==> Distinct(r)
    ensures forall x :: x in b ==> x in r
    ensures it.id !in Ids(b) ==> it in r
  {
    if it.id in Ids(b) then b
    else
      var r := b + [it];
      assert r[|b|].id == it.id;
      assert forall k :: 0 <= k < |b| ==> r[k] == b[k];
      r
  }

  /** A new item put in a Bag is found there by its name and each alias. */
  lemma NewItemAnswers(b: Bag, id: ItemId, name: string, more: seq<string>, alias: string)
    requires id !in Ids(b)
    requires alias == name || alias in more
    ensures HasName(Add(b, NewItem(id, name, more)), alias)
  {
    var r := Add(b, NewItem(id, name, more));
    assert r[|r| - 1] == NewItem(id, name, more);
  }

  /** Once the only member answering to `name` is taken, the Bag no longer
      answers to it. */
  lemma TakeOnlyHolder(b: Bag, name: string)
    requires Distinct(b)
    requires Answers(b, name)
    requires forall i, j :: 0 <= i < |b| && 0 <= j < |b| && name in b[i].aliases && name in b[j].aliases ==> i == j
    ensures !HasName(Take(b, name).1, name)
  {
  }

  /** The two kinds of query `in` accepts. */
  datatype Query = ByName(name: string) | ByItem(item: Item)

  /** The error `set.__contains__(v)` raises when called without the set. */
  datatype BagError = UnboundContains

  /** `Bag.__contains__` as written: a string is looked up by alias; any
      other value goes to `set.__contains__(v)`, which is handed the item in
      place of the set and raises. */
  function ContainsAsWritten(b: Bag, q: Query): (r: Result<bool, BagError>)
    ensures q.ByName? ==> r == Ok(HasName(b, q.name))
    ensures q.ByItem? ==> r == Err(UnboundContains)
  {
    match q
    case ByName(s) => Ok(HasName(b, s))
    case ByItem(_) => Err(UnboundContains)
  }

  /** `Bag.__contains__` as its docstring describes it: a string by alias,
      an item by identity. */
  function Contains(b: Bag, q: Query): (r: bool)
    ensures q.ByName? ==> (r <==> exists i :: 0 <= i < |b| && q.name in b[i].aliases)
    ensures q.ByItem? ==> (r <==> exists i :: 0 <= i < |b| && b[i].id == q.item.id)
  {
    match q
    case ByName(s) => HasName(b, s)
    case ByItem(it) => it.id in Ids(b)
  }

  /** An item asked about by identity: the code as written raises, while
      the item is a member. */
  lemma MemberByIdentityRaises()
    ensures var mallet := NewItem(0, "rusty mallet", ["mallet"]);
      && ContainsAsWritten([mallet], ByItem(mallet)).Err?
      && Contains([mallet], ByItem(mallet))
  {
    var mallet := NewItem(0, "rusty mallet", ["mallet"]);
    assert [mallet][0].id == mallet.id;
  }

  /** After `take`, the taken item is no longer a member by identity, and
      the string query agrees with the corrected membership test. */
  lemma TakeRemovesIdentity(b: Bag, name: string)
    requires Distinct(b)
    requires Take(b, name).0.Some?
    ensures !Contains(Take(b, name).1, ByItem(Take(b, name).0.value))
    ensures Contains(b, ByItem(Take(b, name).0.value))
  {
  }
}
