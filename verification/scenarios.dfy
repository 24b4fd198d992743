/** Concrete scenarios from the demo game. */
module Scenarios {
  import opened Results
  import opened Values
  import Text
  import opened Grammar
  import opened Dispatcher
  import World
  import Bags

  lemma LookAroundStripped()
    ensures Text.Strip("look around") == "look around"
  {
    var s := "look around";
    assert Text.LeadingCount(s, Text.IsSpace) == 0;
    assert s[0..] == s;
    assert Text.TrailingStart(s, Text.IsSpace) == |s|;
  }

  lemma LookAroundLowered()
    ensures Text.Lower("look around") == "look around"
  {
  }

  lemma LookAroundSplit()
    ensures Text.Split("look around") == ["look", "around"]
  {
    assert Text.IsWord("look") && Text.IsWord("around");
    assert Text.JoinSpaced(["look", "around"]) == "look around";
    Text.SplitJoinRoundTrip(["look", "around"]);
  }

  /** A bare `look` command does not answer `look around`: the pattern and
      the input must have the same length. */
  lemma LookDoesNotMatchLookAround()
    ensures Dispatch([Command([Literal("look")], "look", map[], {})], "look around")
      == NotUnderstood("look around")
  {
    LookAroundStripped();
    LookAroundLowered();
    LookAroundSplit();
    assert Words("look around") == ["look", "around"];
    assert !Text.IsSpace("look around"[0]);
  }

  /** `take ITEM` and `take rusty mallet`: a three-word line only lines up
      with the three-word pattern, whichever is registered first; a
      two-word line goes to the placeholder with the word captured. */
  lemma TakeRegistrationOrder()
    ensures var specific := Command([Literal("take"), Literal("rusty"), Literal("mallet")], "take_mallet", map[], {});
      var general := Command([Literal("take"), Placeholder("item")], "take", map[], {"item"});
      && FirstMatch([specific, general], ["take", "rusty", "mallet"], 0) == Some((0, map[]))
      && FirstMatch([general, specific], ["take", "rusty", "mallet"], 0) == Some((1, map[]))
      && FirstMatch([general, specific], ["take", "mallet"], 0) == Some((0, map["item" := Str("mallet")]))
  {
  }

  /** A line of blanks calls nothing and is not reported as misunderstood. */
  lemma BlankLineIgnored(reg: Registry)
    ensures Dispatch(reg, " \t ") == Ignored
  {
  }

  /** The Dark Room (0) and the Valley (1), not yet connected. */
  function TwoRooms(): (w: World.World)
    ensures w.directions == World.Initial().directions
    ensures w.rooms.Keys == {0, 1}
    ensures w.rooms[0].exits == map[] && w.rooms[1].exits == map[]
  {
    World.World(World.Initial().directions,
                map[0 := World.Room("Dark Room", map[]), 1 := World.Room("Valley", map[])])
  }

  /** Linking the Valley north of the Dark Room makes it lead back south,
      and the Dark Room lists exactly `north` among its exits. */
  lemma NorthAndBack()
    ensures World.Link(TwoRooms(), 0, "north", 1).Ok?
    ensures World.Exit(World.Link(TwoRooms(), 0, "north", 1).value, 1, "south") == Ok(Some(0))
    ensures World.Exits(World.Link(TwoRooms(), 0, "north", 1).value, 0) == ["north"]
  {
    var w0 := TwoRooms();
    assert "north" in w0.directions && w0.directions["north"] == "south";
    var w1 := World.Link(w0, 0, "north", 1).value;
    assert w1.rooms[0].exits == map["north" := 1];
    var r := World.Exits(w1, 0);
    assert "north" in r;
    assert forall d :: d in r ==> d == "north";
    assert |r| == 1;
  }

  /** Taking the mallet by one of its names empties a Bag that held only it. */
  lemma TakeMallet()
    ensures var mallet := Bags.NewItem(0, "rusty mallet", ["mallet"]);
      Bags.Take([mallet], "mallet") == (Some(mallet), [])
  {
  }
}
