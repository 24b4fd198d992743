/** The dispatch decision inside `start` (adventurelib.py): strip, lower-case
    and split one input line, then walk the registry in order and pick the
    first command whose pattern lines up with the words. Reading input and
    printing are not part of this model. */
module Dispatcher {
  import opened Results
  import opened Values
  import Text
  import opened Grammar

  /** What one input line leads to: nothing (a blank line), a handler call
      with its keyword arguments, or `no_command_matches(command)`. */
  datatype Outcome =
    | Ignored
    | Invoked(index: nat, handler: string, args: map<string, Value>)
    | NotUnderstood(command: string)

  /** `tuple(cmd.lower().split())` for `cmd = line.strip()`. */
  function Words(line: string): (ws: seq<string>)
    ensures forall i :: 0 <= i < |ws| ==> Text.IsWord(ws[i])
    ensures ws == [] <==> forall k :: 0 <= k < |line| ==> Text.IsSpace(line[k])
  {
    var cmd := Text.Strip(line);
    Text.StripBlank(line);
    Text.LowerBlank(cmd);
    Text.SplitEmpty(Text.Lower(cmd));
    Text.Split(Text.Lower(cmd))
  }

  /** A pattern lines up with the words: the same number of them, and each
      literal equal to the word at its position. */
  predicate Aligns(pattern: seq<Token>, words: seq<string>) {
    && |pattern| == |words|
    && forall i :: 0 <= i < |pattern| && pattern[i].Literal? ==> pattern[i].word == words[i]
  }

  /** The word bound to placeholder `k`, scanning from the end: the last
      position that names `k` decides. */
  function LastCapture(pattern: seq<Token>, words: seq<string>, k: string): (r: Option<string>)
    requires |pattern| == |words|
    ensures r.None? <==> Placeholder(k) !in pattern
    decreases |pattern|
  {
    if |pattern| == 0 then None
    else if pattern[|pattern| - 1] == Placeholder(k) then Some(words[|words| - 1])
    else
      assert pattern == pattern[..|pattern| - 1] + [pattern[|pattern| - 1]];
      LastCapture(pattern[..|pattern| - 1], words[..|words| - 1], k)
  }

  /** The value keyword `k` receives: its last capture, else the fixed
      keyword argument. */
  function Bound(kwargs: map<string, Value>, pattern: seq<Token>, words: seq<string>, k: string): Value
    requires |pattern| == |words|
    requires k in kwargs || Placeholder(k) in pattern
  {
    match LastCapture(pattern, words, k)
    case Some(w) => Str(w)
    case None => kwargs[k]
  }

  /** Prepending a position to the pattern only matters when no later
      position captures `k`. */
  lemma {:induction false} LastCaptureCons(t: Token, x: string, pattern: seq<Token>, words: seq<string>, k: string)
    requires |pattern| == |words|
    ensures LastCapture([t] + pattern, [x] + words, k) ==
      (if LastCapture(pattern, words, k).Some? then LastCapture(pattern, words, k)
       else if t == Placeholder(k) then Some(x) else None)
    decreases |pattern|
  {
    var p := [t] + pattern;
    var w := [x] + words;
    if |pattern| > 0 {
      if pattern[|pattern| - 1] != Placeholder(k) {
        assert p[..|p| - 1] == [t] + pattern[..|pattern| - 1];
        assert w[..|w| - 1] == [x] + words[..|words| - 1];
        LastCaptureCons(t, x, pattern[..|pattern| - 1], words[..|words| - 1], k);
      }
    } else {
      assert p[..|p| - 1] == [];
    }
  }

  /** The keyword arguments after one more position of the loop:
      a placeholder stores its word, a literal changes nothing. */
  function Step(args: map<string, Value>, t: Token, x: string): map<string, Value> {
    if t.Placeholder? then args[t.name := Str(x)] else args
  }

  /** What the loop builds from `Step` at the first position over the
      remaining positions is what the binding rule gives over all of them. */
  lemma CaptureStep(args: map<string, Value>, pattern: seq<Token>, words: seq<string>,
                    m: map<string, Value>)
    requires 0 < |pattern| == |words|
    requires m.Keys == Step(args, pattern[0], words[0]).Keys + NameSet(pattern[1..])
    requires forall k :: k in m ==> m[k] == Bound(Step(args, pattern[0], words[0]), pattern[1..], words[1..], k)
    ensures m.Keys == args.Keys + NameSet(pattern)
    ensures forall k :: k in m ==> m[k] == Bound(args, pattern, words, k)
  {
    var t, x, ps, xs := pattern[0], words[0], pattern[1..], words[1..];
    assert pattern == [t] + ps;
    assert words == [x] + xs;
    forall k | k in m
      ensures m[k] == Bound(args, pattern, words, k)
    {
      LastCaptureCons(t, x, ps, xs, k);
    }
  }

  /** `CaptureStep` at position `i` of the pattern and the words. */
  lemma PairStep(pattern: seq<Token>, words: seq<string>, i: nat, args: map<string, Value>,
                 m: map<string, Value>)
    requires i < |pattern| == |words|
    requires m.Keys == Step(args, pattern[i], words[i]).Keys + NameSet(pattern[i + 1..])
    requires forall k :: k in m ==> m[k] == Bound(Step(args, pattern[i], words[i]), pattern[i + 1..], words[i + 1..], k)
    ensures m.Keys == args.Keys + NameSet(pattern[i..])
    ensures forall k :: k in m ==> m[k] == Bound(args, pattern[i..], words[i..], k)
  {
    var ps, xs := pattern[i..], words[i..];
    assert ps[0] == pattern[i] && ps[1..] == pattern[i + 1..];
    assert xs[0] == words[i] && xs[1..] == words[i + 1..];
    CaptureStep(args, ps, xs, m);
  }

  /** The inner `for cword, word in zip_longest(match, ws)` loop from
      position `i` on, with `args` the keyword arguments built so far: a
      missing word, a missing token or a literal that differs breaks off; a
      placeholder stores the word under its name; running out of both
      completes the match. */
  function Pair(pattern: seq<Token>, words: seq<string>, i: nat, args: map<string, Value>)
    : (r: Option<map<string, Value>>)
    requires i <= |pattern| && i <= |words|
    ensures r.Some? <==>
      && |pattern| == |words|
      && forall j :: i <= j < |pattern| && pattern[j].Literal? ==> pattern[j].word == words[j]
    ensures r.Some? ==> r.value.Keys == args.Keys + NameSet(pattern[i..])
    ensures r.Some? && |pattern| == |words| ==>
      forall k :: k in r.value ==> r.value[k] == Bound(args, pattern[i..], words[i..], k)
    decreases |words| - i
  {
    if i == |words| then
      if i == |pattern| then Some(args) else None
    else if i == |pattern| then
      None
    else
      var t := pattern[i];
      if t.Literal? && t.word != words[i] then
        None
      else
        var r := Pair(pattern, words, i + 1, Step(args, t, words[i]));
        if r.Some? then
          PairStep(pattern, words, i, args, r.value);
          r
        else
          r
  }

  /** Entry `c` lines up with the words and `args` are its fixed keyword
      arguments overlaid with the captured words. */
  predicate Chosen(c: Command, words: seq<string>, args: map<string, Value>) {
    && Aligns(c.pattern, words)
    && args.Keys == c.kwargs.Keys + NameSet(c.pattern)
    && forall k :: k in args ==> args[k] == Bound(c.kwargs, c.pattern, words, k)
  }

  /** Running the inner loop from the first position on an entry's fixed
      arguments completes exactly when the entry lines up, with the
      arguments `Chosen` describes. */
  lemma PairFromStart(c: Command, words: seq<string>)
    ensures Pair(c.pattern, words, 0, c.kwargs).Some? <==> Aligns(c.pattern, words)
    ensures Pair(c.pattern, words, 0, c.kwargs).Some? ==>
      Chosen(c, words, Pair(c.pattern, words, 0, c.kwargs).value)
  {
    assert c.pattern[0..] == c.pattern && words[0..] == words;
  }

  /** The outer `for match, func, kwargs in commands` loop from entry `from`
      on; each attempt starts from a copy of the entry's fixed arguments. */
  function FirstMatch(reg: Registry, words: seq<string>, from: nat): (r: Option<(nat, map<string, Value>)>)
    requires from <= |reg|
    ensures r.None? <==> forall j :: from <= j < |reg| ==> !Aligns(reg[j].pattern, words)
    ensures r.Some? ==>
      && from <= r.value.0 < |reg|
      && Chosen(reg[r.value.0], words, r.value.1)
      && forall j :: from <= j < r.value.0 ==> !Aligns(reg[j].pattern, words)
    decreases |reg| - from
  {
    if from == |reg| then None
    else
      var c := reg[from];
      PairFromStart(c, words);
      match Pair(c.pattern, words, 0, c.kwargs)
      case Some(args) => Some((from, args))
      case None => FirstMatch(reg, words, from + 1)
  }

  /** One turn of the loop in `start`, without its input and output. */
  function Dispatch(reg: Registry, line: string): (o: Outcome)
    ensures o.Ignored? <==> forall k :: 0 <= k < |line| ==> Text.IsSpace(line[k])
    ensures o.NotUnderstood? <==>
      !o.Ignored? && forall j :: 0 <= j < |reg| ==> !Aligns(reg[j].pattern, Words(line))
    ensures o.NotUnderstood? ==> o.command == Text.Strip(line)
    ensures o.Invoked? ==>
      && o.index < |reg|
      && o.handler == reg[o.index].handler
      && Aligns(reg[o.index].pattern, Words(line))
      && forall j :: 0 <= j < o.index ==> !Aligns(reg[j].pattern, Words(line))
    ensures o.Invoked? ==>
      && o.args.Keys == reg[o.index].kwargs.Keys + NameSet(reg[o.index].pattern)
      && forall k :: k in o.args ==> o.args[k] == Bound(reg[o.index].kwargs, reg[o.index].pattern, Words(line), k)
  {
    var cmd := Text.Strip(line);
    if cmd == [] then Ignored
    else
      match FirstMatch(reg, Words(line), 0)
      case Some((i, args)) => Invoked(i, reg[i].handler, args)
      case None => NotUnderstood(cmd)
  }

  /** In a registry built by `Register`, a registered handler is always
      called with exactly the parameters it declares; the built-in `quit`
      is called with none. */
  lemma DispatchPassesDeclaredParams(reg: Registry, line: string)
    requires WellFormed(reg)
    ensures Dispatch(reg, line).Invoked? && Dispatch(reg, line).index >= 1 ==>
      Dispatch(reg, line).args.Keys == reg[Dispatch(reg, line).index].params
    ensures Dispatch(reg, line).Invoked? && Dispatch(reg, line).index == 0 ==>
      Dispatch(reg, line).handler == "sys.exit" && Dispatch(reg, line).args == map[]
  {
    var o := Dispatch(reg, line);
    if o.Invoked? {
      var c := reg[o.index];
      assert o.args.Keys == c.kwargs.Keys + NameSet(c.pattern);
      if o.index == 0 {
        assert NameSet(Quit().pattern) == {};
      } else {
        assert Consistent(c);
      }
    }
  }

  /** Appending entries never changes the outcome of a line that some
      entry `j` already lines up with. */
  lemma {:induction false} FirstMatchStable(reg: Registry, more: Registry, words: seq<string>,
                                            from: nat, j: nat)
    requires from <= j < |reg|
    requires Aligns(reg[j].pattern, words)
    ensures FirstMatch(reg + more, words, from) == FirstMatch(reg, words, from)
    decreases |reg| - from
  {
    var c := reg[from];
    assert (reg + more)[from] == c;
    PairFromStart(c, words);
    var p := Pair(c.pattern, words, 0, c.kwargs);
    if p.None? {
      assert FirstMatch(reg, words, from) == FirstMatch(reg, words, from + 1);
      assert FirstMatch(reg + more, words, from) == FirstMatch(reg + more, words, from + 1);
      FirstMatchStable(reg, more, words, from + 1, j);
    } else {
      assert FirstMatch(reg, words, from) == Some((from, p.value));
      assert FirstMatch(reg + more, words, from) == Some((from, p.value));
    }
  }

  /** Registering a command leaves every line an earlier command handles
      handled as before, and makes the new command answer the lines only it
      lines up with. */
  lemma RegisterThenDispatch(reg: Registry, command: string, handler: string, params: set<string>,
                             kwargs: map<string, Value>, line: string)
    requires Register(reg, command, handler, params, kwargs).Ok?
    ensures var reg' := Register(reg, command, handler, params, kwargs).value;
      Dispatch(reg, line).Invoked? ==> Dispatch(reg', line) == Dispatch(reg, line)
    ensures var reg' := Register(reg, command, handler, params, kwargs).value;
      Dispatch(reg, line).NotUnderstood? && Aligns(reg'[|reg|].pattern, Words(line)) ==>
        Dispatch(reg', line).Invoked? && Dispatch(reg', line).index == |reg| &&
        Dispatch(reg', line).handler == handler
  {
    var reg' := Register(reg, command, handler, params, kwargs).value;
    assert reg' == reg + [reg'[|reg|]];
    if Dispatch(reg, line).Invoked? {
      FirstMatchStable(reg, [reg'[|reg|]], Words(line), 0, Dispatch(reg, line).index);
    }
  }
}
