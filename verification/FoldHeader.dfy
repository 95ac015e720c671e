/** Folding of header lines at 78 octets, and unfolding by section 2.2.3 of RFC 5322.
    A string stands for its octets. */
module FoldHeader {
  import opened Common

  const LIMIT: nat := 78

  predicate Blank(c: char) {
    c == ' ' || c == '\t'
  }

  predicate OneLine(s: string) {
    '\r' !in s && '\n' !in s
  }

  // A CRLF just before white space is taken out.
  function Unfold(s: string): string {
    if |s| >= 3 && s[0] == '\r' && s[1] == '\n' && Blank(s[2]) then Unfold(s[2..])
    else if s == "" then ""
    else [s[0]] + Unfold(s[1..])
  }

  function Lines(s: string): (r: seq<string>)
    ensures r != []
  {
    if s == "" then [""]
    else if |s| >= 2 && s[0] == '\r' && s[1] == '\n' then [""] + Lines(s[2..])
    else
      var rest := Lines(s[1..]);
      [[s[0]] + rest[0]] + rest[1..]
  }

  // White space that a line begins with.
  function Lead(s: string): (n: nat)
    ensures n <= |s| && (n < |s| ==> !Blank(s[n])) && forall j :: 0 <= j < n ==> Blank(s[j])
  {
    if s == "" || !Blank(s[0]) then 0 else 1 + Lead(s[1..])
  }

  // The last white space before n, or -1.
  function LastBlank(s: string, n: nat): (i: int)
    requires n <= |s|
    ensures -1 <= i < n && (i >= 0 ==> Blank(s[i]))
    ensures forall j :: i < j < n ==> !Blank(s[j])
  {
    if n == 0 then -1 else if Blank(s[n - 1]) then n - 1 else LastBlank(s, n - 1)
  }

  // The first white space from k on, or -1.
  function FirstBlank(s: string, k: nat): (i: int)
    requires k <= |s|
    ensures i == -1 || (k <= i < |s| && Blank(s[i]))
    ensures forall j :: k <= j < (if i < 0 then |s| else i) ==> !Blank(s[j])
    decreases |s| - k
  {
    if k == |s| then -1 else if Blank(s[k]) then k else FirstBlank(s, k + 1)
  }

  ghost predicate SomeText(s: string, n: nat)
    requires n <= |s|
  {
    exists j :: 0 <= j < n && !Blank(s[j])
  }

  ghost predicate NoBlank(s: string, from: nat, to: nat)
    requires to <= |s|
  {
    forall j :: from <= j < to ==> s[j] != ' ' && s[j] != '\t'
  }

  /** The first n octets of what is left, as a line: it says something, it is at most
      78 long unless it cannot be broken earlier, and, if it is not the last, the
      rest did not fit and no later break keeps the line below 78. */
  ghost predicate LineFolded(left: string, n: nat, earliest: nat, last: bool)
    requires n <= |left|
  {
    && SomeText(left, n)
    && (n <= 78 || NoBlank(left, earliest, n))
    && (last || (|left| > 78 && earliest <= n && NoBlank(left, n + 1, 78)))
  }

  // A continuation can be broken again past its first visible octet.
  function Earliest(line: string): nat {
    Lead(line) + 1
  }

  /** The lines are the text cut at white space, which begins the next line. */
  ghost predicate Folded(left: string, earliest: nat, lines: seq<string>)
    decreases |lines|
  {
    if lines == [] then false
    else if |lines| == 1 then lines[0] == left && LineFolded(left, |left|, earliest, true)
    else
      var n := |lines[0]|;
      && n < |left| && lines[0] == left[..n] && Blank(left[n])
      && LineFolded(left, n, earliest, false)
      && Folded(left[n..], Earliest(left[n..]), lines[1..])
  }

  // What each round of the loop starts from.
  ghost predicate Foldable(line: string, minimum: nat) {
    && minimum <= |line| && SomeText(line, minimum)
    && (minimum < |line| ==> !Blank(line[|line| - 1]))
  }

  function BreakAt(line: string, minimum: nat): int
    requires minimum <= |line| && LIMIT < |line|
  {
    var i := LastBlank(line, LIMIT);
    if i < minimum then FirstBlank(line, minimum) else i
  }

  lemma RestFoldable(line: string, minimum: nat)
    requires Foldable(line, minimum) && LIMIT < |line| && BreakAt(line, minimum) >= 0
    ensures
      var i := BreakAt(line, minimum);
      0 < i < |line| && Blank(line[i]) && Foldable(line[i..], Earliest(line[i..]))
          && LineFolded(line, i, minimum, false)
  {
    var i := BreakAt(line, minimum);
    var rest := line[i..];
    assert rest[|rest| - 1] == line[|line| - 1];
    assert !Blank(rest[Lead(rest)]);
  }

  ghost function Split(line: string, minimum: nat): seq<string>
    requires Foldable(line, minimum)
    decreases |line|
  {
    if |line| <= LIMIT || BreakAt(line, minimum) < 0 then [line]
    else
      RestFoldable(line, minimum);
      var rest := line[BreakAt(line, minimum)..];
      [line[..BreakAt(line, minimum)]] + Split(rest, Earliest(rest))
  }

  lemma {:induction false} SplitFolds(line: string, minimum: nat)
    requires Foldable(line, minimum)
    ensures Split(line, minimum) != [] && Folded(line, minimum, Split(line, minimum))
    decreases |line|
  {
    if |line| > LIMIT && BreakAt(line, minimum) >= 0 {
      RestFoldable(line, minimum);
      var rest := line[BreakAt(line, minimum)..];
      SplitFolds(rest, Earliest(rest));
    }
  }

  function Joined(lines: seq<string>): string {
    if lines == [] then "" else if |lines| == 1 then lines[0] else lines[0] + "\r\n" + Joined(lines[1..])
  }

  lemma {:induction false} UnfoldPast(p: string, rest: string)
    requires OneLine(p) && rest != "" && Blank(rest[0])
    ensures Unfold(p + "\r\n" + rest) == p + Unfold(rest)
    decreases |p|
  {
    var s := p + "\r\n" + rest;
    if p == "" {
      assert s[2..] == rest;
    } else {
      UnfoldPast(p[1..], rest);
      assert s[1..] == p[1..] + "\r\n" + rest;
      assert s[0] == p[0] && p[0] in p;
    }
  }

  lemma {:induction false} LinesPast(p: string, rest: string)
    requires OneLine(p)
    ensures Lines(p + "\r\n" + rest) == [p] + Lines(rest)
    decreases |p|
  {
    var s := p + "\r\n" + rest;
    if p == "" {
      assert s[2..] == rest;
    } else {
      LinesPast(p[1..], rest);
      assert s[1..] == p[1..] + "\r\n" + rest;
      assert s[0] == p[0] && p[0] in p;
      assert p == [p[0]] + p[1..];
    }
  }

  lemma {:induction false} OneLineAlone(p: string)
    requires OneLine(p)
    ensures Unfold(p) == p && Lines(p) == [p]
  {
    if p != "" {
      assert p[0] in p;
      OneLineAlone(p[1..]);
      assert p == [p[0]] + p[1..];
    }
  }

  /** Folded lines, joined, unfold to the text they were cut from and are its lines. */
  lemma {:induction false} JoinedUnfolds(left: string, earliest: nat, lines: seq<string>)
    requires OneLine(left) && left != "" && Folded(left, earliest, lines)
    ensures Unfold(Joined(lines)) == left && Lines(Joined(lines)) == lines
    ensures Joined(lines) != "" && Joined(lines)[0] == left[0]
    decreases |lines|
  {
    if |lines| == 1 {
      hide LineFolded, Unfold, Lines;
      OneLineAlone(left);
    } else {
      hide LineFolded, Unfold, Lines, Earliest;
      var n := |lines[0]|;
      JoinedUnfolds(left[n..], Earliest(left[n..]), lines[1..]);
      UnfoldPast(lines[0], Joined(lines[1..]));
      LinesPast(lines[0], Joined(lines[1..]));
      assert left == lines[0] + left[n..];
      assert n > 0 by {
        NotEmpty(left, n, earliest);
      }
    }
  }

  lemma NotEmpty(left: string, n: nat, earliest: nat)
    requires n <= |left| && LineFolded(left, n, earliest, false)
    ensures n > 0
  {
  }

  /** No line is only white space, and a line over 78 octets has no white space from the
      first place it could have been broken. */
  lemma {:induction false} EveryLine(left: string, earliest: nat, lines: seq<string>, k: nat)
    requires Folded(left, earliest, lines) && k < |lines|
    ensures SomeText(lines[k], |lines[k]|)
    ensures |lines[k]| <= 78 || NoBlank(lines[k], if k == 0 then earliest else Earliest(lines[k]), |lines[k]|)
    ensures k > 0 ==> lines[k] != "" && Blank(lines[k][0])
    decreases |lines|
  {
    var n := |lines[0]|;
    if k > 0 {
      var rest := left[n..];
      EveryLine(rest, Earliest(rest), lines[1..], k - 1);
      if k == 1 {
        var j :| 0 <= j < |lines[1]| && !Blank(lines[1][j]);
        assert forall i :: 0 <= i < |lines[1]| ==> lines[1][i] == rest[i];
        assert Lead(rest) <= j;
        assert Lead(lines[1]) == Lead(rest);
      }
    } else {
      var j :| 0 <= j < n && !Blank(left[j]);
      assert lines[0][j] == left[j];
      assert forall i :: 0 <= i < n ==> lines[0][i] == left[i];
    }
  }

  lemma JoinedNext(line: string, rest: seq<string>)
    requires rest != []
    ensures Joined([line] + rest) == line + "\r\n" + Joined(rest)
  {
    assert ([line] + rest)[1..] == rest;
  }

  // What is written and what is left fold to the same text as the whole header.
  ghost predicate Progress(b: string, line: string, minimum: nat, whole: string, name: nat) {
    && Foldable(whole, name) && Foldable(line, minimum)
    && b + Joined(Split(line, minimum)) == Joined(Split(whole, name))
  }

  lemma ProgressStart(key: string, value: string)
    requires OneLine(key) && OneLine(value) && (value != "" ==> !Blank(value[|value| - 1]))
    ensures var whole := key + ": " + value; OneLine(whole) && Progress("", whole, |key| + 2, whole, |key| + 2)
  {
    var whole := key + ": " + value;
    assert !Blank(whole[|key|]);
    assert "" + Joined(Split(whole, |key| + 2)) == Joined(Split(whole, |key| + 2));
  }

  lemma SplitNext(line: string, minimum: nat)
    requires Foldable(line, minimum) && LIMIT < |line| && BreakAt(line, minimum) >= 0
    ensures
      var i := BreakAt(line, minimum);
      && 0 < i < |line| && Earliest(line[i..]) <= |line[i..]| && Foldable(line[i..], Earliest(line[i..]))
      && var rest := Split(line[i..], Earliest(line[i..]));
      && rest != [] && Split(line, minimum) == [line[..i]] + rest
  {
    RestFoldable(line, minimum);
    var i := BreakAt(line, minimum);
    SplitFolds(line[i..], Earliest(line[i..]));
  }

  lemma ProgressNext(b: string, line: string, minimum: nat, whole: string, name: nat)
    requires Progress(b, line, minimum, whole, name)
    requires minimum <= |line| && LIMIT < |line| && BreakAt(line, minimum) >= 0
    ensures
      var i := BreakAt(line, minimum);
      && 0 < i < |line| && Earliest(line[i..]) <= |line[i..]|
      && Progress(b + line[..i] + "\r\n", line[i..], Earliest(line[i..]), whole, name)
  {
    hide Split, Foldable, Earliest, BreakAt, Joined;
    SplitNext(line, minimum);
    var i := BreakAt(line, minimum);
    var rest := Split(line[i..], Earliest(line[i..]));
    JoinedNext(line[..i], rest);
    assert b + line[..i] + "\r\n" + Joined(rest) == b + (line[..i] + "\r\n" + Joined(rest));
  }

  lemma ProgressEnd(b: string, line: string, minimum: nat, whole: string, name: nat)
    requires Progress(b, line, minimum, whole, name) && OneLine(whole) && whole != ""
    requires |line| > LIMIT ==> minimum <= |line| && BreakAt(line, minimum) < 0
    ensures Unfold(b + line) == whole && Folded(whole, name, Lines(b + line))
  {
    assert Joined(Split(line, minimum)) == line;
    SplitFolds(whole, name);
    JoinedUnfolds(whole, name, Split(whole, name));
  }

  /** Folding ends with every slice in bounds; the text unfolds to the header line,
      and its lines are that line folded. */
  method FoldHeaderLine(key: string, value: string) returns (text: string)
    requires OneLine(key) && OneLine(value) && (value != "" ==> !Blank(value[|value| - 1]))
    ensures Unfold(text) == key + ": " + value
    ensures Folded(key + ": " + value, |key| + 2, Lines(text))
  {
    var line := key + ": " + value;
    var minimum: nat := |key| + 2;
    var b := "";
    ghost var whole, name: nat := line, minimum;
    ProgressStart(key, value);
    hide Progress, Lead, Unfold, Lines, Folded, OneLine;
    while |line| > LIMIT
      invariant minimum <= |line| && Progress(b, line, minimum, whole, name)
      decreases |line|
    {
      var i := LastBlank(line, LIMIT);
      if i < minimum {
        i := FirstBlank(line, minimum);
        if i < 0 {
          break;
        }
      }
      ProgressNext(b, line, minimum, whole, name);
      b := b + line[..i];
      b := b + "\r\n";
      line := line[i..];
      minimum := Lead(line) + 1;
    }
    ProgressEnd(b, line, minimum, whole, name);
    b := b + line;
    return b;
  }
}
