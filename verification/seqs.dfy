/** Generic sequence operations shared by the Python and the JavaScript side:
    concatenation, joining with a separator, splitting at a separator, filtering. */
module Seqs {

  /** Concatenation of all parts (`''.join(parts)`, `parts.join('')`). */
  function Flatten<T>(parts: seq<seq<T>>): (r: seq<T>)
    ensures |parts| == 0 ==> r == []
  {
    if |parts| == 0 then [] else parts[0] + Flatten(parts[1..])
  }

  /** Flattening a part in front puts its elements in front. */
  lemma FlattenCons<T>(a: seq<T>, more: seq<seq<T>>)
    ensures Flatten([a] + more) == a + Flatten(more)
  {
    assert ([a] + more)[1..] == more;
  }

  /** The parts with `sep` between neighbours (`sep.join(parts)`, `parts.join(sep)`). */
  function Join<T>(parts: seq<seq<T>>, sep: seq<T>): seq<T>
  {
    if |parts| == 0 then []
    else if |parts| == 1 then parts[0]
    else parts[0] + sep + Join(parts[1..], sep)
  }

  /** Index of the first `x` in `s`, or `|s|` when there is none. */
  function IndexOf<T(==)>(s: seq<T>, x: T): (k: nat)
    ensures k <= |s|
    ensures k < |s| ==> s[k] == x
    ensures forall j :: 0 <= j < k ==> s[j] != x
  {
    if |s| == 0 then 0
    else if s[0] == x then 0
    else 1 + IndexOf(s[1..], x)
  }

  /** An element that occurs is found. */
  lemma IndexOfFound<T>(s: seq<T>, x: T)
    requires x in s
    ensures IndexOf(s, x) < |s|
  {
  }

  /** The pieces between occurrences of `x` (JavaScript `s.split(x)` for a
      one-unit separator): never empty. */
  function SplitOn<T(==)>(s: seq<T>, x: T): (r: seq<seq<T>>)
    ensures |r| >= 1
    decreases |s|
  {
    var k := IndexOf(s, x);
    if k == |s| then [s] else [s[..k]] + SplitOn(s[k + 1..], x)
  }

  /** No piece of the split contains `x`. */
  lemma {:induction false} SplitOnPieces<T>(s: seq<T>, x: T)
    ensures forall k :: 0 <= k < |SplitOn(s, x)| ==> x !in SplitOn(s, x)[k]
    decreases |s|
  {
    var k := IndexOf(s, x);
    if k < |s| {
      SplitOnPieces(s[k + 1..], x);
      SplitOnUnfold(s, x);
      assert x !in s[..k];
    }
  }

  /** Joining the pieces back with `x` restores the input. */
  lemma {:induction false} JoinSplitOn<T>(s: seq<T>, x: T)
    ensures Join(SplitOn(s, x), [x]) == s
    decreases |s|
  {
    var k := IndexOf(s, x);
    if k < |s| {
      var rest := s[k + 1..];
      JoinSplitOn(rest, x);
      SplitOnUnfold(s, x);
      JoinCons(s[..k], SplitOn(rest, x), [x]);
      Reassemble(s, k);
    }
  }

  /** One step of the split: the piece before the first `x`, then the split
      of what follows it. */
  lemma SplitOnUnfold<T>(s: seq<T>, x: T)
    requires x in s
    ensures SplitOn(s, x) == [s[..IndexOf(s, x)]] + SplitOn(s[IndexOf(s, x) + 1..], x)
  {
  }

  /** A sequence is its first `n` elements followed by the others. */
  lemma TakeDrop<T>(s: seq<T>, n: nat)
    requires n <= |s|
    ensures s[..n] + s[n..] == s
  {
  }

  /** A non-empty sequence is its first element followed by the others. */
  lemma ConsDrop<T>(s: seq<T>)
    requires |s| > 0
    ensures [s[0]] + s[1..] == s
  {
  }

  /** A sequence is its part before `k`, its element at `k` and the rest. */
  lemma Reassemble<T>(s: seq<T>, k: nat)
    requires k < |s|
    ensures s == s[..k] + [s[k]] + s[k + 1..]
  {
  }

  /** Joining a first part in front of at least one more. */
  lemma JoinCons<T>(a: seq<T>, more: seq<seq<T>>, sep: seq<T>)
    requires |more| >= 1
    ensures Join([a] + more, sep) == a + sep + Join(more, sep)
  {
    assert ([a] + more)[1..] == more;
  }

  /** The only way to cut `s` into pieces free of `x` that join back to `s`
      is `SplitOn`. */
  lemma {:induction false} SplitOnJoin<T>(parts: seq<seq<T>>, x: T)
    requires |parts| >= 1
    requires forall k :: 0 <= k < |parts| ==> x !in parts[k]
    ensures SplitOn(Join(parts, [x]), x) == parts
    decreases |parts|
  {
    var a := parts[0];
    if |parts| == 1 {
      assert IndexOf(a, x) == |a|;
    } else {
      var tail := Join(parts[1..], [x]);
      assert Join(parts, [x]) == a + [x] + tail;
      SplitOnJoin(parts[1..], x);
      SplitOnCons(a, x, tail);
      assert parts == [a] + parts[1..];
    }
  }

  /** Splitting a piece free of `x`, then `x`, then more. */
  lemma SplitOnCons<T>(a: seq<T>, x: T, tail: seq<T>)
    requires x !in a
    ensures SplitOn(a + [x] + tail, x) == [a] + SplitOn(tail, x)
  {
    var s := a + ([x] + tail);
    assert a + [x] + tail == s;
    IndexOfPrefix(a, x, [x] + tail);
    assert s[..|a|] == a;
    assert s[|a| + 1..] == tail;
  }

  /** `x` absent from `a` means the first `x` in `a + b` lies in `b`. */
  lemma IndexOfPrefix<T>(a: seq<T>, x: T, b: seq<T>)
    requires x !in a
    requires |b| >= 1 && b[0] == x
    ensures IndexOf(a + b, x) == |a|
  {
    assert (a + b)[|a|] == x;
    forall j | 0 <= j < |a|
      ensures (a + b)[j] != x
    {
      assert (a + b)[j] == a[j];
    }
  }

  /** The elements of `s` that satisfy `keep`, in order. */
  function Filter<T>(s: seq<T>, keep: T -> bool): (r: seq<T>)
    ensures |r| <= |s|
    ensures forall k :: 0 <= k < |r| ==> keep(r[k])
  {
    if |s| == 0 then [] else (if keep(s[0]) then [s[0]] else []) + Filter(s[1..], keep)
  }

  /** Filtering a sequence with a given first element. */
  lemma FilterCons<T>(a: T, s: seq<T>, keep: T -> bool)
    ensures Filter([a] + s, keep) == (if keep(a) then [a] else []) + Filter(s, keep)
  {
    assert ([a] + s)[1..] == s;
  }

  /** Filtering distributes over concatenation. */
  lemma {:induction false} FilterConcat<T>(a: seq<T>, b: seq<T>, keep: T -> bool)
    ensures Filter(a + b, keep) == Filter(a, keep) + Filter(b, keep)
    decreases |a|
  {
    if |a| > 0 {
      assert (a + b)[1..] == a[1..] + b;
      FilterConcat(a[1..], b, keep);
    } else {
      assert a + b == b;
    }
  }

  /** Parts that filter alike, concatenated, filter alike. */
  lemma {:induction false} FilterFlattenPointwise<T>(ps: seq<seq<T>>, qs: seq<seq<T>>, keep: T -> bool)
    requires |ps| == |qs|
    requires forall k :: 0 <= k < |ps| ==> Filter(ps[k], keep) == Filter(qs[k], keep)
    ensures Filter(Flatten(ps), keep) == Filter(Flatten(qs), keep)
    decreases |ps|
  {
    if |ps| > 0 {
      FilterFlattenPointwise(ps[1..], qs[1..], keep);
      FilterConcat(ps[0], Flatten(ps[1..]), keep);
      FilterConcat(qs[0], Flatten(qs[1..]), keep);
    }
  }

  /** Lengthening every part by `d` lengthens the concatenation by `d` per part. */
  lemma {:induction false} FlattenLengthShift<T>(ps: seq<seq<T>>, qs: seq<seq<T>>, d: nat)
    requires |ps| == |qs|
    requires forall k :: 0 <= k < |ps| ==> |qs[k]| == |ps[k]| + d
    ensures |Flatten(qs)| == |Flatten(ps)| + d * |ps|
    decreases |ps|
  {
    if |ps| > 0 {
      FlattenLengthShift(ps[1..], qs[1..], d);
      assert d * |ps| == d + d * |ps[1..]|;
    }
  }
}
