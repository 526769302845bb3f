/** Python `str` operations the setup and start-up scripts rely on. A Python
    string is a sequence of code points, which is Dafny's `string`. */
module PyText {
  import opened Options
  import opened Seqs

  /** The characters of a string literal, taken as a value; the fixed texts
      of the scripts are written through it. */
  function Chars(s: string): (r: string)
    ensures |r| == |s|
    ensures forall i :: 0 <= i < |s| ==> r[i] == s[i]
  {
    seq(|s|, i requires 0 <= i < |s| => s[i])
  }

  /** `s.startswith(p)`. */
  predicate StartsWith(s: string, p: string) {
    |p| <= |s| && s[..|p|] == p
  }

  /** A concatenation starts with its left part, and with whatever that
      left part starts with. */
  lemma StartsWithConcat(a: string, b: string, c: string)
    requires StartsWith(a, c)
    ensures StartsWith(a + b, c)
  {
    assert (a + b)[..|c|] == a[..|c|];
  }

  /** `c.isspace()`: the characters Python 3 treats as whitespace. */
  predicate IsSpace(c: char) {
    || c == ' '
    || ('\t' <= c <= '\r')
    || ('\U{1C}' <= c <= '\U{1F}')
    || c == '\U{85}' || c == '\U{A0}' || c == '\U{1680}'
    || ('\U{2000}' <= c <= '\U{200A}')
    || c == '\U{2028}' || c == '\U{2029}' || c == '\U{202F}' || c == '\U{205F}' || c == '\U{3000}'
  }

  /** `s.rstrip()`: the longest prefix of `s` that does not end in whitespace
      and after which only whitespace follows. */
  function RStrip(s: string): string {
    if |s| == 0 then s
    else if IsSpace(s[|s| - 1]) then RStrip(s[..|s| - 1])
    else s
  }

  /** What `rstrip` keeps is a prefix that is empty or ends in a non-space,
      and everything it drops is whitespace. */
  lemma {:induction false} RStripShape(s: string)
    ensures var r := RStrip(s);
      && |r| <= |s| && r == s[..|r|]
      && (|r| == 0 || !IsSpace(r[|r| - 1]))
      && forall i :: |r| <= i < |s| ==> IsSpace(s[i])
    decreases |s|
  {
    if |s| > 0 && IsSpace(s[|s| - 1]) {
      var t := s[..|s| - 1];
      RStripShape(t);
      var r := RStrip(t);
      assert s[..|r|] == t[..|r|];
      forall i | |r| <= i < |s|
        ensures IsSpace(s[i])
      {
        if i < |t| {
          assert s[i] == t[i];
        }
      }
    }
  }

  /** `s.lstrip()`: the longest suffix of `s` that does not start with whitespace
      and before which only whitespace stands. */
  function LStrip(s: string): string {
    if |s| == 0 then s
    else if IsSpace(s[0]) then LStrip(s[1..])
    else s
  }

  /** What `lstrip` keeps is a suffix that is empty or starts with a
      non-space, and everything it drops is whitespace. */
  lemma {:induction false} LStripShape(s: string)
    ensures var r := LStrip(s);
      && |r| <= |s| && r == s[|s| - |r|..]
      && (|r| == 0 || !IsSpace(r[0]))
      && forall i :: 0 <= i < |s| - |r| ==> IsSpace(s[i])
    decreases |s|
  {
    if |s| > 0 && IsSpace(s[0]) {
      var t := s[1..];
      LStripShape(t);
      var r := LStrip(t);
      assert s[|s| - |r|..] == t[|t| - |r|..];
      forall i | 0 <= i < |s| - |r|
        ensures IsSpace(s[i])
      {
        if i > 0 {
          assert s[i] == t[i - 1];
        }
      }
    }
  }

  /** `s.strip()`. */
  function Strip(s: string): string {
    LStrip(RStrip(s))
  }

  /** A string that ends in a non-space keeps its right end under `rstrip`;
      appending to it only strips what is appended. */
  lemma {:induction false} RStripAppend(a: string, b: string)
    requires |a| > 0 && !IsSpace(a[|a| - 1])
    ensures RStrip(a + b) == a + RStrip(b) || (RStrip(b) == [] && RStrip(a + b) == a)
    decreases |b|
  {
    if |b| == 0 {
      assert a + b == a;
    } else if IsSpace(b[|b| - 1]) {
      assert (a + b)[..|a + b| - 1] == a + b[..|b| - 1];
      RStripAppend(a, b[..|b| - 1]);
    } else {
      assert (a + b)[|a + b| - 1] == b[|b| - 1];
    }
  }

  /** `s.split(c, 1)[1]`: the text after the first `c`, or None where Python
      raises IndexError because `c` does not occur. */
  function AfterFirst(s: string, c: char): (r: Option<string>)
    ensures r.Some? <==> c in s
    ensures r.Some? ==> exists k :: 0 <= k < |s| && s[k] == c && c !in s[..k] && r.value == s[k + 1..]
  {
    var k := IndexOf(s, c);
    if k == |s| then None
    else
      assert c !in s[..k];
      Some(s[k + 1..])
  }

  /** `c.lower()` restricted to what matters for the yes/no prompts: ASCII
      capitals become small letters, every other character is kept. */
  function LowerChar(c: char): (r: char)
    ensures 'A' <= c <= 'Z' ==> 'a' <= r <= 'z' && r as int - c as int == 32
    ensures !('A' <= c <= 'Z') ==> r == c
  {
    if 'A' <= c <= 'Z' then (c as int + 32) as char else c
  }

  /** `s.lower()`, character by character. */
  function Lower(s: string): (r: string)
    ensures |r| == |s|
    ensures forall i :: 0 <= i < |s| ==> r[i] == LowerChar(s[i])
  {
    seq(|s|, i requires 0 <= i < |s| => LowerChar(s[i]))
  }

  /** `c.upper()` on ASCII small letters, the inverse direction of LowerChar. */
  function UpperChar(c: char): (r: char)
    ensures 'a' <= c <= 'z' ==> 'A' <= r <= 'Z' && c as int - r as int == 32
    ensures !('a' <= c <= 'z') ==> r == c
  {
    if 'a' <= c <= 'z' then (c as int - 32) as char else c
  }

  function Upper(s: string): (r: string)
    ensures |r| == |s|
    ensures forall i :: 0 <= i < |s| ==> r[i] == UpperChar(s[i])
  {
    seq(|s|, i requires 0 <= i < |s| => UpperChar(s[i]))
  }

  /** A well-formed sequence of text-file lines, as Python's line iteration and
      `readlines()` produce them: every line is non-empty, a newline occurs only
      as a line's last character, and every line but the last ends in one. */
  predicate LineSeq(ls: seq<string>) {
    && (forall k :: 0 <= k < |ls| ==> |ls[k]| > 0)
    && (forall k, i :: 0 <= k < |ls| && 0 <= i < |ls[k]| - 1 ==> ls[k][i] != '\n')
    && (forall k :: 0 <= k < |ls| - 1 ==> ls[k][|ls[k]| - 1] == '\n')
  }

  /** The lines of a text, split at `\n` only, each keeping its terminating
      newline. */
  function Lines(s: string): (r: seq<string>)
    decreases |s|
  {
    if |s| == 0 then []
    else
      var k := IndexOf(s, '\n');
      if k == |s| then [s] else [s[..k + 1]] + Lines(s[k + 1..])
  }

  /** One step of reading: the first line, newline included, then the lines
      of what follows it. */
  lemma LinesUnfold(s: string)
    requires '\n' in s
    ensures Lines(s) == [s[..IndexOf(s, '\n') + 1]] + Lines(s[IndexOf(s, '\n') + 1..])
  {
  }

  /** What reading yields is a well-formed line sequence. */
  lemma {:induction false} LinesWellFormed(s: string)
    ensures LineSeq(Lines(s))
    decreases |s|
  {
    if |s| > 0 {
      var k := IndexOf(s, '\n');
      if k < |s| {
        var rest := s[k + 1..];
        LinesWellFormed(rest);
        LineSeqCons(s[..k + 1], Lines(rest));
      }
    }
  }

  /** A line with a single, final newline can go in front of any well-formed
      line sequence. */
  lemma LineSeqCons(a: string, ls: seq<string>)
    requires |a| > 0 && a[|a| - 1] == '\n'
    requires forall j :: 0 <= j < |a| - 1 ==> a[j] != '\n'
    requires LineSeq(ls)
    ensures LineSeq([a] + ls)
  {
    var r := [a] + ls;
    forall m, i | 0 <= m < |r| && 0 <= i < |r[m]| - 1
      ensures r[m][i] != '\n'
    {
      if m > 0 {
        assert r[m] == ls[m - 1];
      }
    }
    forall m | 0 <= m < |r| - 1
      ensures r[m][|r[m]| - 1] == '\n'
    {
      if m > 0 {
        assert r[m] == ls[m - 1];
      }
    }
  }

  /** Writing the lines back one after the other restores the text. */
  lemma {:induction false} FlattenLines(s: string)
    ensures Flatten(Lines(s)) == s
    decreases |s|
  {
    if '\n' in s {
      IndexOfFound(s, '\n');
      var rest := s[IndexOf(s, '\n') + 1..];
      FlattenLines(rest);
      FlattenLinesStep(s, rest);
    } else {
      SingleLine(s);
    }
  }

  /** A text with a newline is its first line followed by the rest. */
  lemma FlattenLinesStep(s: string, rest: string)
    requires '\n' in s && IndexOf(s, '\n') < |s| && rest == s[IndexOf(s, '\n') + 1..]
    requires Flatten(Lines(rest)) == rest
    ensures Flatten(Lines(s)) == s
  {
    var a := s[..IndexOf(s, '\n') + 1];
    LinesUnfold(s);
    FlattenCons(a, Lines(rest));
    TakeDrop(s, IndexOf(s, '\n') + 1);
  }

  /** A text without newline is read as itself, or as nothing when empty. */
  lemma SingleLine(s: string)
    requires '\n' !in s
    ensures Lines(s) == if s == [] then [] else [s]
    ensures Flatten(Lines(s)) == s
  {
    if |s| > 0 {
      assert IndexOf(s, '\n') == |s|;
    }
  }

  /** Reading `a + rest`, where `a` is one complete line, yields `a` first. */
  lemma LinesCons(a: string, rest: string)
    requires |a| > 0
    requires forall j :: 0 <= j < |a| - 1 ==> a[j] != '\n'
    requires a[|a| - 1] == '\n' || rest == []
    ensures Lines(a + rest) == [a] + Lines(rest)
  {
    var s := a + rest;
    forall j | 0 <= j < |a| - 1
      ensures s[j] != '\n'
    {
      assert s[j] == a[j];
    }
    if a[|a| - 1] == '\n' {
      assert s[|a| - 1] == '\n';
      assert IndexOf(s, '\n') == |a| - 1;
      assert s[..|a|] == a;
      assert s[|a|..] == rest;
    } else {
      assert s == a;
      assert IndexOf(s, '\n') == |a|;
    }
  }

  /** A well-formed line sequence is exactly what reading its concatenation
      gives back. */
  lemma {:induction false} LinesFlatten(ls: seq<string>)
    requires LineSeq(ls)
    ensures Lines(Flatten(ls)) == ls
    decreases |ls|
  {
    if |ls| > 0 {
      assert LineSeq(ls[1..]) by {
        forall k, i | 0 <= k < |ls[1..]| && 0 <= i < |ls[1..][k]| - 1
          ensures ls[1..][k][i] != '\n'
        {
          assert ls[1..][k] == ls[k + 1];
        }
      }
      LinesFlatten(ls[1..]);
      assert forall j :: 0 <= j < |ls[0]| - 1 ==> ls[0][j] != '\n';
      if |ls| == 1 {
        assert Flatten(ls[1..]) == [];
      }
      LinesCons(ls[0], Flatten(ls[1..]));
      ConsDrop(ls);
    }
  }

  /** One line read from a file, newline included. */
  predicate IsCompleteLine(l: string) {
    |l| > 0 && l[|l| - 1] == '\n' && '\n' !in l[..|l| - 1]
  }

  /** Reading a text that starts with complete lines yields those lines first. */
  lemma {:induction false} LinesAfter(ls: seq<string>, rest: string)
    requires forall k :: 0 <= k < |ls| ==> IsCompleteLine(ls[k])
    ensures Lines(Flatten(ls) + rest) == ls + Lines(rest)
    decreases |ls|
  {
    if |ls| > 0 {
      var a := ls[0];
      var tail := ls[1..];
      assert forall k :: 0 <= k < |tail| ==> IsCompleteLine(tail[k]);
      var after := Flatten(tail) + rest;
      calc {
        Lines(Flatten(ls) + rest);
        { FlattenFront(ls, rest); }
        Lines(a + after);
        { CompleteLineCons(a, after); }
        [a] + Lines(after);
        { LinesAfter(tail, rest); }
        [a] + (tail + Lines(rest));
        { assert ls == [a] + tail; }
        ls + Lines(rest);
      }
    } else {
      assert Flatten(ls) + rest == rest;
    }
  }

  lemma FlattenFront(ls: seq<string>, rest: string)
    requires |ls| > 0
    ensures Flatten(ls) + rest == ls[0] + (Flatten(ls[1..]) + rest)
  {
  }

  /** Reading a complete line followed by anything yields that line first. */
  lemma CompleteLineCons(a: string, rest: string)
    requires IsCompleteLine(a)
    ensures Lines(a + rest) == [a] + Lines(rest)
  {
    forall j | 0 <= j < |a| - 1
      ensures a[j] != '\n'
    {
      assert a[j] == a[..|a| - 1][j];
    }
    LinesCons(a, rest);
  }
}
