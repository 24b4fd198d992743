/** The command-grammar compiler (`_register` in adventurelib.py): a
    declaration string becomes a sequence of literal and placeholder tokens,
    checked against the handler's parameter names and appended to the
    ordered command registry. */
module Grammar {
  import opened Results
  import opened Values
  import Text

  /** A word of a command pattern. A `Placeholder` captures one input word
      under `name`, the lower-cased form of the capitals it was declared as. */
  datatype Token = Literal(word: string) | Placeholder(name: string)

  /** The `InvalidCommand` exceptions `_register` raises. */
  datatype GrammarError =
    | NotLetters(word: string)
    | MixedCase(word: string)
    | WrongSignature(handler: string, expected: set<string>)

  /** A registered command: its pattern, the handler it calls, the fixed
      keyword arguments given to `@when`, and the parameter names the
      handler declares (what `inspect.signature` reports). */
  datatype Command = Command(
    pattern: seq<Token>,
    handler: string,
    kwargs: map<string, Value>,
    params: set<string>)

  /** The module-level `commands` list; order decides which command wins. */
  type Registry = seq<Command>

  /** The built-in `quit`, calling `sys.exit`, whose one parameter
      `status` is optional. */
  function Quit(): Command {
    Command([Literal("quit")], "sys.exit", map[], {"status"})
  }

  /** The registry before any `@when`. */
  function Builtins(): Registry {
    [Quit()]
  }

  /** A declaration word `_register` accepts. */
  predicate ValidWord(w: string) {
    Text.AllLowerLetters(w) || Text.AllUpperLetters(w)
  }

  /** Token `t` is what declaration word `w` stands for. */
  predicate Denotes(t: Token, w: string) {
    match t
    case Literal(x) => x == w && Text.AllLowerLetters(w)
    case Placeholder(n) => Text.AllUpperLetters(w) && n == Text.Lower(w)
  }

  /** The exception `_register` raises for a word it rejects. */
  function WordError(w: string): GrammarError {
    if Text.IsAlpha(w) then MixedCase(w) else NotLetters(w)
  }

  /** Classify one declaration word: letters are required, then capitals
      make a placeholder and lower case a literal; a mix is refused. */
  function Classify(w: string): (r: Result<Token, GrammarError>)
    ensures r.Ok? <==> ValidWord(w)
    ensures r.Ok? ==> Denotes(r.value, w)
    ensures r.Ok? && r.value.Placeholder? ==> Text.AllLowerLetters(r.value.name)
    ensures r.Err? ==> r.error == WordError(w)
  {
    if !Text.IsAlpha(w) then
      Err(NotLetters(w))
    else if Text.IsUpper(w) then
      Text.AlphaCase(w);
      Text.LowerUpperRoundTrip(w);
      Ok(Placeholder(Text.Lower(w)))
    else if Text.IsLower(w) then
      Text.AlphaCase(w);
      Ok(Literal(w))
    else
      Text.AlphaCase(w);
      Err(MixedCase(w))
  }

  /** Compile the words of a declaration, stopping at the first bad word. */
  function Compile(words: seq<string>): (r: Result<seq<Token>, GrammarError>)
    ensures r.Ok? <==> forall i :: 0 <= i < |words| ==> ValidWord(words[i])
    ensures r.Ok? ==> |r.value| == |words|
    ensures r.Ok? ==> forall i :: 0 <= i < |words| ==> Denotes(r.value[i], words[i])
    ensures r.Err? ==> exists i :: 0 <= i < |words| && FirstBadWord(words, i) && r.error == WordError(words[i])
  {
    if |words| == 0 then Ok([])
    else
      var t :- Classify(words[0]);
      match Compile(words[1..])
      case Err(e) =>
        var i :| 0 <= i < |words[1..]| && FirstBadWord(words[1..], i) && e == WordError(words[1..][i]);
        assert FirstBadWord(words, i + 1);
        Err(e)
      case Ok(ts) =>
        assert forall i :: 1 <= i < |words| ==> words[i] == words[1..][i - 1];
        Ok([t] + ts)
  }

  /** Word `i` is the first declaration word `_register` rejects. */
  predicate FirstBadWord(words: seq<string>, i: int)
    requires 0 <= i < |words|
  {
    !ValidWord(words[i]) && forall j :: 0 <= j < i ==> ValidWord(words[j])
  }

  /** How a token prints in the help listing (`Placeholder.__str__`
      upper-cases the name; a literal prints as itself). */
  function Render(t: Token): string {
    match t
    case Literal(w) => w
    case Placeholder(n) => Text.Upper(n)
  }

  function RenderAll(ts: seq<Token>): (ws: seq<string>)
    ensures |ws| == |ts|
    ensures forall i :: 0 <= i < |ts| ==> ws[i] == Render(ts[i])
  {
    seq(|ts|, i requires 0 <= i < |ts| => Render(ts[i]))
  }

  /** A token some declaration word can produce. */
  predicate Compilable(t: Token) {
    match t
    case Literal(w) => Text.AllLowerLetters(w)
    case Placeholder(n) => Text.AllLowerLetters(n)
  }

  /** Printing a compiled pattern gives back the declaration's words. */
  lemma RenderCompiled(words: seq<string>)
    requires Compile(words).Ok?
    ensures RenderAll(Compile(words).value) == words
  {
    var ts := Compile(words).value;
    forall i | 0 <= i < |words|
      ensures Render(ts[i]) == words[i]
    {
      if ts[i].Placeholder? {
        Text.LowerUpperRoundTrip(words[i]);
      }
    }
  }

  /** A compilable token prints as a word that classifies back to it. */
  lemma ClassifyRendered(t: Token)
    requires Compilable(t)
    ensures Classify(Render(t)) == Ok(t)
  {
    if t.Placeholder? {
      Text.UpperLowerRoundTrip(t.name);
      Text.AlphaCase(Text.Upper(t.name));
    } else {
      Text.AlphaCase(t.word);
    }
  }

  /** Compiling a printed pattern of compilable tokens gives the pattern back. */
  lemma {:induction false} CompileRendered(ts: seq<Token>)
    requires forall i :: 0 <= i < |ts| ==> Compilable(ts[i])
    ensures Compile(RenderAll(ts)) == Ok(ts)
  {
    if |ts| > 0 {
      var words := RenderAll(ts);
      assert words[1..] == RenderAll(ts[1..]);
      CompileRendered(ts[1..]);
      ClassifyRendered(ts[0]);
      assert words[0] == Render(ts[0]);
      assert Compile(words) == Ok([ts[0]] + ts[1..]);
      assert [ts[0]] + ts[1..] == ts;
    }
  }

  /** The placeholder names of a pattern, in order (`argnames`). */
  function PlaceholderNames(ts: seq<Token>): (names: seq<string>)
    ensures forall n :: n in names <==> Placeholder(n) in ts
  {
    if |ts| == 0 then []
    else
      (if ts[0].Placeholder? then [ts[0].name] else []) + PlaceholderNames(ts[1..])
  }

  /** `set(argnames)`. */
  function NameSet(ts: seq<Token>): (s: set<string>)
    ensures forall n :: n in s <==> Placeholder(n) in ts
  {
    set n | n in PlaceholderNames(ts)
  }

  /** The handler's parameters are exactly the placeholder names together
      with the fixed keyword names. */
  predicate Consistent(c: Command) {
    c.params == NameSet(c.pattern) + c.kwargs.Keys
  }

  /** The registry starts with the built-in entry, and every entry after
      it went through `_register`'s signature check. */
  predicate WellFormed(reg: Registry) {
    && |reg| >= 1
    && reg[0] == Quit()
    && forall i :: 1 <= i < |reg| ==> Consistent(reg[i])
  }

  /** `_register(command, func, kwargs)`: compile the declaration, compare
      the handler's parameters with the placeholders and keyword names,
      and append the command. A failure leaves the caller's registry as it
      was, since no registry is returned. */
  function Register(reg: Registry, command: string, handler: string, params: set<string>,
                    kwargs: map<string, Value>): (r: Result<Registry, GrammarError>)
    ensures r.Ok? <==>
      && Compile(Text.Split(command)).Ok?
      && params == NameSet(Compile(Text.Split(command)).value) + kwargs.Keys
    ensures Compile(Text.Split(command)).Err? ==> r == Err(Compile(Text.Split(command)).error)
    ensures r.Err? && Compile(Text.Split(command)).Ok? ==>
      r.error == WrongSignature(handler, NameSet(Compile(Text.Split(command)).value) + kwargs.Keys)
    ensures r.Ok? ==>
      && |r.value| == |reg| + 1
      && r.value[..|reg|] == reg
      && r.value[|reg|] == Command(Compile(Text.Split(command)).value, handler, kwargs, params)
    ensures r.Ok? ==> Consistent(r.value[|reg|])
    ensures r.Ok? && WellFormed(reg) ==> WellFormed(r.value)
  {
    var tokens :- Compile(Text.Split(command));
    var expected := NameSet(tokens) + kwargs.Keys;
    if params != expected then
      Err(WrongSignature(handler, expected))
    else
      Ok(reg + [Command(tokens, handler, kwargs, params)])
  }

  /** The built-in entry starts a well-formed registry without passing the
      signature check: `sys.exit` declares `status`, which `quit` never
      supplies. */
  lemma QuitSkipsSignatureCheck()
    ensures WellFormed(Builtins())
    ensures !Consistent(Quit())
  {
    assert NameSet(Quit().pattern) == {};
  }
}
