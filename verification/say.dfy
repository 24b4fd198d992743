/** The de-dent step of `say` (adventurelib_rich.py): every line of the
    message loses the spaces and tabs at its start and end. Rendering the
    result is not part of this model. */
module Say {
  import Text

  /** The characters `[ \t]` in the substitution pattern. */
  predicate IsBlank(c: char) {
    c == ' ' || c == '\t'
  }

  /** Where the first line of `s` ends: the first newline, or the end. */
  function LineEnd(s: string): (n: nat)
    ensures n <= |s|
    ensures forall k :: 0 <= k < n ==> s[k] != '\n'
    ensures n < |s| ==> s[n] == '\n'
  {
    if |s| == 0 || s[0] == '\n' then 0 else 1 + LineEnd(s[1..])
  }

  /** A newline-free line followed by a newline ends at its own length. */
  lemma {:induction false} LineEndPrefix(w: string, t: string)
    requires forall k :: 0 <= k < |w| ==> w[k] != '\n'
    requires |t| > 0 && t[0] == '\n'
    ensures LineEnd(w + t) == |w|
  {
    if |w| > 0 {
      assert (w + t)[1..] == w[1..] + t;
      LineEndPrefix(w[1..], t);
    }
  }

  /** The lines of a message: the text between newlines (`str.split('\n')`),
      so a message always has at least one line. */
  function Lines(s: string): (ls: seq<string>)
    ensures |ls| >= 1
    ensures forall i :: 0 <= i < |ls| ==> '\n' !in ls[i]
    decreases |s|
  {
    var n := LineEnd(s);
    if n == |s| then
      assert forall k :: 0 <= k < |s| ==> s[k] != '\n';
      [s]
    else
      assert forall k :: 0 <= k < n ==> s[..n][k] != '\n';
      [s[..n]] + Lines(s[n + 1..])
  }

  /** Lines joined by newlines (`'\n'.join`). */
  function Unlines(ls: seq<string>): string
    requires |ls| >= 1
  {
    if |ls| == 1 then ls[0] else ls[0] + "\n" + Unlines(ls[1..])
  }

  /** Joining a line onto at least one more puts one newline between. */
  lemma UnlinesCons(a: string, rest: seq<string>)
    requires |rest| >= 1
    ensures Unlines([a] + rest) == a + "\n" + Unlines(rest)
  {
    assert ([a] + rest)[0] == a && ([a] + rest)[1..] == rest;
  }

  /** A message is the text before a newline, the newline and the rest. */
  lemma CutAt(s: string, n: nat)
    requires n < |s| && s[n] == '\n'
    ensures s == s[..n] + "\n" + s[n + 1..]
  {
    assert s == s[..n] + s[n..];
    assert s[n..] == [s[n]] + s[n + 1..];
  }

  /** Cutting a message into lines and joining them gives the message back. */
  lemma {:induction false} UnlinesLines(s: string)
    ensures Unlines(Lines(s)) == s
    decreases |s|
  {
    var n := LineEnd(s);
    if n < |s| {
      var head, tail := s[..n], s[n + 1..];
      assert Lines(s) == [head] + Lines(tail);
      UnlinesLines(tail);
      UnlinesCons(head, Lines(tail));
      CutAt(s, n);
    } else {
      assert Lines(s) == [s];
    }
  }

  /** Joining newline-free lines and cutting the result gives the lines back. */
  lemma {:induction false} LinesUnlines(ls: seq<string>)
    requires |ls| >= 1
    requires forall i :: 0 <= i < |ls| ==> '\n' !in ls[i]
    ensures Lines(Unlines(ls)) == ls
    decreases |ls|
  {
    var s := Unlines(ls);
    var w := ls[0];
    assert forall k :: 0 <= k < |w| ==> w[k] != '\n';
    if |ls| == 1 {
      assert s == w;
      assert LineEnd(s) == |s|;
    } else {
      var rest := Unlines(ls[1..]);
      UnlinesCons(w, ls[1..]);
      assert [w] + ls[1..] == ls;
      assert s == w + ("\n" + rest);
      LineEndPrefix(w, "\n" + rest);
      assert s[..|w|] == w;
      assert s[|w| + 1..] == rest;
      assert Lines(s) == [w] + Lines(rest);
      LinesUnlines(ls[1..]);
    }
  }

  /** One line with its leading and trailing spaces and tabs removed. */
  function DedentLine(line: string): string {
    Text.Trim(line, IsBlank)
  }

  /** Trimming a line does not bring in a newline. */
  lemma DedentLineKeepsLine(line: string)
    requires '\n' !in line
    ensures '\n' !in DedentLine(line)
  {
    var r := DedentLine(line);
    var lo, hi :| Text.TrimBounds(r, line, IsBlank, lo, hi);
    assert forall k :: 0 <= k < |r| ==> r[k] == line[lo + k];
  }

  /** The `re.sub(r"^[ \t]*(.*?)[ \t]*$", r"\1", msg, flags=re.M)` step:
      the message keeps its number of lines, and each line is the original
      line trimmed of spaces and tabs at both ends and nowhere else. */
  function Dedent(msg: string): (r: string)
    ensures |Lines(r)| == |Lines(msg)|
    ensures forall i :: 0 <= i < |Lines(msg)| ==> Text.IsTrimOf(Lines(r)[i], Lines(msg)[i], IsBlank)
  {
    var ls := Lines(msg);
    var out := seq(|ls|, i requires 0 <= i < |ls| => DedentLine(ls[i]));
    forall i | 0 <= i < |out|
      ensures '\n' !in out[i]
    {
      DedentLineKeepsLine(ls[i]);
    }
    LinesUnlines(out);
    Unlines(out)
  }

  /** De-denting twice is the same as de-denting once. */
  lemma DedentIdempotent(msg: string)
    ensures Dedent(Dedent(msg)) == Dedent(msg)
  {
    var r := Dedent(msg);
    var ls := Lines(r);
    forall i | 0 <= i < |ls|
      ensures DedentLine(ls[i]) == ls[i]
    {
      assert Text.IsTrimOf(ls[i], Lines(msg)[i], IsBlank);
      Text.TrimFixed(ls[i], IsBlank);
    }
    var out := seq(|ls|, i requires 0 <= i < |ls| => DedentLine(ls[i]));
    assert out == ls;
    assert Dedent(r) == Unlines(out);
    UnlinesLines(r);
  }
}
