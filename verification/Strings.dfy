/**
 * Splitting and joining text at a separator, as the address parser and its printer use them.
 */
module Strings {

  function Find(s: string, c: char): (i: nat)
    ensures i <= |s| && (i < |s| ==> s[i] == c) && forall j :: 0 <= j < i ==> s[j] != c
  {
    if s == "" || s[0] == c then 0 else 1 + Find(s[1..], c)
  }

  function Split(s: string, c: char): (pieces: seq<string>)
    ensures pieces != []
    decreases |s|
  {
    var i := Find(s, c);
    if i == |s| then [s] else [s[..i]] + Split(s[i + 1..], c)
  }

  function Join(pieces: seq<string>, c: char): string {
    if pieces == [] then "" else if |pieces| == 1 then pieces[0] else pieces[0] + [c] + Join(pieces[1..], c)
  }

  predicate Without(s: string, c: char) {
    forall i :: 0 <= i < |s| ==> s[i] != c
  }

  lemma FindAt(s: string, c: char, i: nat)
    requires i <= |s| && Without(s[..i], c) && (i < |s| ==> s[i] == c)
    ensures Find(s, c) == i
  {
    assert forall j :: 0 <= j < i ==> s[..i][j] == s[j];
  }

  lemma {:induction false} JoinSplit(s: string, c: char)
    ensures Join(Split(s, c), c) == s && forall p <- Split(s, c) :: Without(p, c)
    decreases |s|
  {
    var i := Find(s, c);
    if i < |s| {
      JoinSplit(s[i + 1..], c);
      assert s == s[..i] + [c] + s[i + 1..];
    }
  }

  lemma {:induction false} SplitJoin(pieces: seq<string>, c: char)
    requires pieces != [] && forall p <- pieces :: Without(p, c)
    ensures Split(Join(pieces, c), c) == pieces
  {
    var first := pieces[0];
    var s := Join(pieces, c);
    assert Without(first, c);
    assert s[..|first|] == first;
    FindAt(s, c, |first|);
    if |pieces| > 1 {
      SplitJoin(pieces[1..], c);
      assert s[|first| + 1..] == Join(pieces[1..], c);
    }
  }

  lemma {:induction false} JoinConcat(xs: seq<string>, ys: seq<string>, c: char)
    requires xs != [] && ys != []
    ensures Join(xs + ys, c) == Join(xs, c) + [c] + Join(ys, c)
  {
    if |xs| == 1 {
      assert (xs + ys)[1..] == ys;
    } else {
      JoinConcat(xs[1..], ys, c);
      assert (xs + ys)[1..] == xs[1..] + ys;
    }
  }

  /** Splitting is determined by what it splits at: a separator in the middle splits both sides. */
  lemma SplitConcat(a: string, b: string, c: char)
    ensures Split(a + [c] + b, c) == Split(a, c) + Split(b, c)
  {
    var xs, ys := Split(a, c), Split(b, c);
    JoinSplit(a, c);
    JoinSplit(b, c);
    JoinConcat(xs, ys, c);
    forall p <- xs + ys ensures Without(p, c) {
    }
    SplitJoin(xs + ys, c);
  }

  // ----- case -----

  function LowerChar(c: char): char {
    if 'A' <= c <= 'Z' then c + ' ' else c
  }

  function Lower(s: string): (r: string)
    ensures |r| == |s| && forall i :: 0 <= i < |s| ==> r[i] == LowerChar(s[i])
  {
    seq(|s|, i requires 0 <= i < |s| => LowerChar(s[i]))
  }

  lemma LowerConcat(a: string, b: string)
    ensures Lower(a + b) == Lower(a) + Lower(b)
  {
  }

  function LowerAll(pieces: seq<string>): (r: seq<string>)
    ensures |r| == |pieces| && forall i :: 0 <= i < |pieces| ==> r[i] == Lower(pieces[i])
  {
    seq(|pieces|, i requires 0 <= i < |pieces| => Lower(pieces[i]))
  }

  lemma {:induction false} LowerJoin(pieces: seq<string>, c: char)
    requires LowerChar(c) == c
    ensures Lower(Join(pieces, c)) == Join(LowerAll(pieces), c)
  {
    if |pieces| > 1 {
      LowerJoin(pieces[1..], c);
      assert LowerAll(pieces)[1..] == LowerAll(pieces[1..]);
      LowerConcat(pieces[0] + [c], Join(pieces[1..], c));
      LowerConcat(pieces[0], [c]);
      assert Lower([c]) == [c];
    }
  }
}
