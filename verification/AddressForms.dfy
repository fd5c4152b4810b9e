/**
 * The expansion accepts exactly the textual forms of an address, and gives each its meaning.
 */
module AddressForms {
  import opened Prelude
  import opened Strings
  import opened SafeFetch

  // ----- texts made of pieces -----

  predicate NoDoubles(s: string) {
    forall j :: 0 <= j && j + 1 < |s| ==> !(s[j] == ':' && s[j + 1] == ':')
  }

  predicate Solid(ps: seq<string>) {
    forall i :: 0 <= i < |ps| ==> ps[i] != "" && Without(ps[i], ':')
  }

  lemma GroupsAreSolid(ps: seq<string>)
    requires AllGroups(ps)
    ensures Solid(ps) && forall i :: 0 <= i < |ps| ==> Without(ps[i], '.') && Without(ps[i], '%')
  {
    assert Digit(':').None? && Digit('.').None? && Digit('%').None?;
  }

  lemma {:induction false} JoinIsSolid(ps: seq<string>)
    requires Solid(ps) && ps != []
    ensures var s := Join(ps, ':'); s != "" && NoDoubles(s) && s[0] != ':' && s[|s| - 1] != ':'
  {
    var s := Join(ps, ':');
    assert Without(ps[0], ':');
    if |ps| > 1 {
      JoinIsSolid(ps[1..]);
      var rest := Join(ps[1..], ':');
      assert s == ps[0] + [':'] + rest;
    }
  }

  lemma DoubleAt(v: string, i: nat)
    requires i <= |v| && (i < |v| ==> i + 1 < |v| && v[i] == ':' && v[i + 1] == ':')
    requires forall j :: 0 <= j < i && j + 1 < |v| ==> !(v[j] == ':' && v[j + 1] == ':')
    ensures FirstDouble(v) == i
  {
  }

  lemma PiecesOfJoin(ps: seq<string>)
    requires Solid(ps)
    ensures Pieces(Join(ps, ':')) == ps && FirstDouble(Join(ps, ':')) == |Join(ps, ':')|
  {
    if ps != [] {
      JoinIsSolid(ps);
      assert forall p <- ps :: Without(p, ':');
      SplitJoin(ps, ':');
    }
    DoubleAt(Join(ps, ':'), |Join(ps, ':')|);
  }

  lemma DoubleBetween(h: string, t: string)
    requires NoDoubles(h) && (h != "" ==> h[|h| - 1] != ':')
    ensures var v := h + "::" + t;
            FirstDouble(v) == |h| < |v| && v[..|h|] == h && v[|h| + 2..] == t
  {
    DoubleAt(h + "::" + t, |h|);
  }

  lemma GroupTextsBetween(h: string, t: string)
    requires NoDoubles(h) && (h != "" ==> h[|h| - 1] != ':') && FirstDouble(t) == |t|
    ensures GroupTexts(h + "::" + t) == Fill(Pieces(h), Pieces(t))
  {
    var v := h + "::" + t;
    DoubleBetween(h, t);
    var i := FirstDouble(v);
    hide Pieces, NoDoubles, FirstDouble, Fill;
    assert v[..i] == h && v[i + 2..] == t;
  }

  lemma GroupTextsWithout(h: string)
    requires FirstDouble(h) == |h|
    ensures GroupTexts(h) == Some(Pieces(h))
  {
    hide Pieces, FirstDouble;
  }

  lemma JoinIsRead(ps: seq<string>)
    requires Solid(ps)
    ensures var h := Join(ps, ':');
            NoDoubles(h) && (h != "" ==> h[|h| - 1] != ':') && FirstDouble(h) == |h| && Pieces(h) == ps
  {
    PiecesOfJoin(ps);
    if ps != [] {
      JoinIsSolid(ps);
    }
  }

  /** Reading back what was printed gives the same pieces, with the zeros filled in. */
  lemma GroupTextsOfBody(head: seq<string>, tail: Option<seq<string>>)
    requires Solid(head) && (tail.Some? ==> Solid(tail.value))
    ensures GroupTexts(Body(head, tail)) == if tail.None? then Some(head) else Fill(head, tail.value)
  {
    hide GroupTexts, Join, Pieces, Fill, Solid, NoDoubles, FirstDouble;
    JoinIsRead(head);
    var h := Join(head, ':');
    if tail.None? {
      assert Body(head, tail) == h;
      GroupTextsWithout(h);
    } else {
      JoinIsRead(tail.value);
      var t := Join(tail.value, ':');
      assert Body(head, tail) == h + "::" + t;
      GroupTextsBetween(h, t);
    }
  }

  lemma ZerosAreGroups(n: nat)
    ensures AllGroups(Zeros(n)) && Values(Zeros(n)) == ZeroGroups(n)
  {
    assert GroupValue("0") == 0;
  }

  lemma AllGroupsConcat(a: seq<string>, b: seq<string>)
    ensures AllGroups(a + b) <==> AllGroups(a) && AllGroups(b)
    ensures AllGroups(a + b) ==> Values(a + b) == Values(a) + Values(b)
  {
    if AllGroups(a + b) {
      assert forall i :: 0 <= i < |a| ==> a[i] == (a + b)[i];
      assert forall i :: 0 <= i < |b| ==> b[i] == (a + b)[|a| + i];
    }
  }

  lemma ExpandOf(v: string, groups: seq<string>)
    requires GroupTexts(v) == Some(groups) && |groups| == 8 && AllGroups(groups)
    ensures ExpandGroups(v) == Some(Values(groups))
  {
  }

  lemma ExpandGroupsOfBody(head: seq<string>, tail: Option<seq<string>>)
    requires AllGroups(head) && (tail.Some? ==> AllGroups(tail.value))
    requires if tail.None? then |head| == 8 else |head| + |tail.value| <= 7
    ensures ExpandGroups(Body(head, tail))
         == Some(if tail.None? then Values(head)
                 else Values(head) + ZeroGroups(8 - |head| - |tail.value|) + Values(tail.value))
  {
    hide Body, GroupTexts, ExpandGroups, Values, ZeroGroups, AllGroups, Solid;
    GroupsAreSolid(head);
    if tail.None? {
      GroupTextsOfBody(head, tail);
      ExpandOf(Body(head, tail), head);
    } else {
      GroupsAreSolid(tail.value);
      GroupTextsOfBody(head, tail);
      var n := 8 - |head| - |tail.value|;
      ZerosAreGroups(n);
      AllGroupsConcat(head, Zeros(n));
      AllGroupsConcat(head + Zeros(n), tail.value);
      assert Fill(head, tail.value) == Some(head + Zeros(n) + tail.value);
      ExpandOf(Body(head, tail), head + Zeros(n) + tail.value);
    }
  }

  // ----- the dotted quad -----

  lemma LastPieceIs(front: string, t: string)
    requires Without(t, ':') && front != "" && front[|front| - 1] == ':'
    ensures LastPieceAt(front + t) == |front|
  {
    var v := front + t;
    assert v[|front| - 1] == ':';
    assert forall j :: |front| <= j < |v| ==> v[j] == t[j - |front|];
  }

  lemma NoDotNoQuad(t: string)
    requires Without(t, '.')
    ensures !IsQuad(t)
  {
    assert t[..|t|] == t;
    FindAt(t, '.', |t|);
  }

  lemma DecimalText(p: string)
    requires IsDecimal(p)
    ensures Without(p, ':') && Without(p, '%') && Lower(p) == p
  {
  }

  /** A dotted quad has none of the characters that matter elsewhere, and no case. */
  lemma QuadText(q: string)
    requires IsQuad(q)
    ensures Without(q, ':') && Without(q, '%') && Lower(q) == q
  {
    var o := Split(q, '.');
    JoinSplit(q, '.');
    forall i | 0 <= i < |o| ensures Without(o[i], ':') && Without(o[i], '%') && Lower(o[i]) == o[i] {
      DecimalText(o[i]);
    }
    hide Split, IsDecimal, Without, Join;
    JoinWithout(o, '.', ':');
    JoinWithout(o, '.', '%');
    LowerJoin(o, '.');
    assert LowerAll(o) == o;
  }

  lemma {:induction false} JoinWithout(ps: seq<string>, sep: char, c: char)
    requires sep != c && forall i :: 0 <= i < |ps| ==> Without(ps[i], c)
    ensures Without(Join(ps, sep), c)
  {
    if |ps| > 1 {
      JoinWithout(ps[1..], sep, c);
    }
  }

  lemma BodyWithout(head: seq<string>, tail: Option<seq<string>>, c: char)
    requires c != ':' && (forall i :: 0 <= i < |head| ==> Without(head[i], c))
    requires tail.Some? ==> forall i :: 0 <= i < |tail.value| ==> Without(tail.value[i], c)
    ensures Without(Body(head, tail), c)
  {
    JoinWithout(head, ':', c);
    if tail.Some? {
      JoinWithout(tail.value, ':', c);
    }
  }

  lemma FoldWithoutQuad(v: string)
    requires Without(v, '.')
    ensures Fold(v) == Some(v)
  {
    NoDotNoQuad(v[LastPieceAt(v)..]);
  }

  function QuadTexts(q: string): (r: seq<string>)
    requires IsQuad(q)
    ensures |r| == 2
  {
    [Hex(Octet(q, 0) * 256 + Octet(q, 1)), Hex(Octet(q, 2) * 256 + Octet(q, 3))]
  }

  /** What stands before the last piece of a body. */
  function Front(head: seq<string>, tail: Option<seq<string>>): string {
    if tail.None? then (if head == [] then "" else Join(head, ':') + ":")
    else Join(head, ':') + "::" + (if tail.value == [] then "" else Join(tail.value, ':') + ":")
  }

  function Extend(head: seq<string>, tail: Option<seq<string>>, more: seq<string>): string {
    if tail.None? then Body(head + more, None) else Body(head, Some(tail.value + more))
  }

  lemma ExtendIsFront(head: seq<string>, tail: Option<seq<string>>, more: seq<string>)
    requires more != []
    ensures Extend(head, tail, more) == Front(head, tail) + Join(more, ':')
  {
    var last := if tail.None? then head else tail.value;
    if last == [] {
      assert last + more == more;
    } else {
      JoinConcat(last, more, ':');
    }
  }

  lemma FoldOfFront(front: string, q: string)
    requires QuadOk(q) && front != "" && LastPieceAt(front + q) == |front|
    ensures Fold(front + q) == Some(front + (QuadTexts(q)[0] + ":" + QuadTexts(q)[1]))
  {
    var v := front + q;
    assert v[..|front|] == front && v[|front|..] == q;
    hide IsQuad, Octet, Hex;
    var a, b := QuadTexts(q)[0], QuadTexts(q)[1];
    assert front + a + ":" + b == front + (a + ":" + b);
  }

  lemma FrontEndsInColon(head: seq<string>, tail: Option<seq<string>>)
    requires tail.None? ==> head != []
    ensures var front := Front(head, tail); front != "" && front[|front| - 1] == ':'
  {
    hide Join;
  }

  lemma FoldOfQuad(head: seq<string>, tail: Option<seq<string>>, q: string)
    requires QuadOk(q) && (tail.None? ==> head != [])
    ensures Fold(Extend(head, tail, [q])) == Some(Extend(head, tail, QuadTexts(q)))
  {
    var front, h := Front(head, tail), QuadTexts(q);
    ExtendIsFront(head, tail, [q]);
    ExtendIsFront(head, tail, h);
    QuadText(q);
    FrontEndsInColon(head, tail);
    assert Join([q], ':') == q && Join(h, ':') == h[0] + ":" + h[1];
    hide Front, Extend, Join, QuadTexts, QuadOk, Fold, Without;
    LastPieceIs(front, q);
    FoldOfFront(front, q);
  }

  // ----- every form expands to its meaning -----

  lemma LowerBody(head: seq<string>, tail: Option<seq<string>>)
    ensures Lower(Body(head, tail)) == Body(LowerAll(head), if tail.Some? then Some(LowerAll(tail.value)) else None)
  {
    LowerJoin(head, ':');
    if tail.Some? {
      LowerJoin(tail.value, ':');
      LowerConcat(Join(head, ':'), "::" + Join(tail.value, ':'));
      LowerConcat("::", Join(tail.value, ':'));
      assert Lower("::") == "::";
    }
  }

  lemma LowerAllQuads(ps: seq<string>, quad: Option<string>)
    requires quad.Some? ==> IsQuad(quad.value)
    ensures LowerAll(ps + Quads(quad)) == LowerAll(ps) + Quads(quad)
  {
    if quad.Some? {
      QuadText(quad.value);
    }
  }

  /** The body of a form in lower case. */
  function LowerText(f: Form): string {
    Extend(LowerAll(f.head), LowerTail(f.tail), Quads(f.quad))
  }

  lemma LowerPrint(f: Form)
    requires f.quad.Some? ==> IsQuad(f.quad.value)
    ensures Lower(Print(f)) == LowerText(f) + (if f.zone.Some? then "%" + Lower(f.zone.value) else "")
  {
    var zone := if f.zone.Some? then "%" + f.zone.value else "";
    var body := Extend(f.head, f.tail, Quads(f.quad));
    assert Print(f) == body + zone;
    LowerConcat(body, zone);
    if f.zone.Some? {
      LowerConcat("%", f.zone.value);
      assert Lower("%") == "%";
    }
    if f.tail.None? {
      LowerBody(f.head + Quads(f.quad), None);
      LowerAllQuads(f.head, f.quad);
    } else {
      LowerBody(f.head, Some(f.tail.value + Quads(f.quad)));
      LowerAllQuads(f.tail.value, f.quad);
    }
    hide Body, Join, LowerAll, Lower;
  }

  lemma ExtendWithout(head: seq<string>, tail: Option<seq<string>>, quad: Option<string>, c: char)
    requires AllGroups(head) && (tail.Some? ==> AllGroups(tail.value)) && (quad.Some? ==> IsQuad(quad.value))
    requires c == '%' || (c == '.' && quad.None?)
    ensures Without(Extend(head, tail, Quads(quad)), c)
  {
    GroupsAreSolid(head);
    if tail.Some? {
      GroupsAreSolid(tail.value);
    }
    if quad.Some? {
      QuadText(quad.value);
    }
    if tail.None? {
      BodyWithout(head + Quads(quad), None, c);
    } else {
      BodyWithout(head, Some(tail.value + Quads(quad)), c);
    }
  }

  lemma CutAtZone(body: string, zone: Option<string>)
    requires Without(body, '%')
    ensures var v := body + (if zone.Some? then "%" + zone.value else ""); v[..Find(v, '%')] == body
  {
    var v := body + (if zone.Some? then "%" + zone.value else "");
    assert v[..|body|] == body;
    FindAt(v, '%', |body|);
  }

  function More(quad: Option<string>): seq<string>
    requires quad.Some? ==> IsQuad(quad.value)
  {
    if quad.Some? then QuadTexts(quad.value) else []
  }

  lemma FoldExtended(head: seq<string>, tail: Option<seq<string>>, quad: Option<string>)
    requires AllGroups(head) && (tail.Some? ==> AllGroups(tail.value)) && (quad.Some? ==> QuadOk(quad.value))
    requires tail.None? ==> head != []
    ensures Fold(Extend(head, tail, Quads(quad))) == Some(Extend(head, tail, More(quad)))
  {
    hide Fold, Extend, AllGroups, QuadTexts;
    if quad.Some? {
      FoldOfQuad(head, tail, quad.value);
    } else {
      ExtendWithout(head, tail, None, '.');
      FoldWithoutQuad(Extend(head, tail, []));
    }
  }

  /** The groups of a text without quad: what stands before the gap, zeros, what stands after it. */
  function Spread(head: seq<nat>, tail: Option<seq<nat>>, more: seq<nat>): seq<nat>
    requires tail.Some? ==> |head| + |tail.value| + |more| <= 8
  {
    if tail.None? then head + more
    else head + ZeroGroups(8 - |head| - (|tail.value| + |more|)) + (tail.value + more)
  }

  function ValuesOf(tail: Option<seq<string>>): (r: Option<seq<nat>>)
    requires tail.Some? ==> AllGroups(tail.value)
  {
    if tail.Some? then Some(Values(tail.value)) else None
  }

  lemma ExpandMore(head: seq<string>, tail: Option<seq<string>>, more: seq<string>)
    requires AllGroups(head) && (tail.Some? ==> AllGroups(tail.value)) && AllGroups(more)
    requires if tail.None? then |head| + |more| == 8 else |head| + |tail.value| + |more| <= 7
    ensures ExpandGroups(Extend(head, tail, more)) == Some(Spread(Values(head), ValuesOf(tail), Values(more)))
  {
    hide ExpandGroups, Body, AllGroups;
    if tail.None? {
      AllGroupsConcat(head, more);
      ExpandGroupsOfBody(head + more, None);
    } else {
      AllGroupsConcat(tail.value, more);
      ExpandGroupsOfBody(head, Some(tail.value + more));
    }
    hide Values, ZeroGroups;
  }

  lemma QuadTextsAreGroups(q: string)
    requires QuadOk(q)
    ensures AllGroups(QuadTexts(q)) && Values(QuadTexts(q)) == QuadGroups(Some(q))
  {
    var hi, lo := Octet(q, 0) * 256 + Octet(q, 1), Octet(q, 2) * 256 + Octet(q, 3);
    assert hi < 65536 && lo < 65536;
    HexOfWord(hi);
    HexOfWord(lo);
  }

  function LowerTail(tail: Option<seq<string>>): Option<seq<string>> {
    if tail.Some? then Some(LowerAll(tail.value)) else None
  }

  lemma MeaningIsSpread(f: Form)
    requires ValidForm(f)
    ensures Meaning(f) == Spread(Values(LowerAll(f.head)), ValuesOf(LowerTail(f.tail)), QuadGroups(f.quad))
  {
    hide Values, LowerAll, ZeroGroups, QuadGroups, AllGroups, QuadOk;
  }

  /** A lower-case text of groups, perhaps with a quad and a zone, expands to its groups. */
  lemma ExpandText(head: seq<string>, tail: Option<seq<string>>, quad: Option<string>, zone: Option<string>)
    requires AllGroups(head) && (tail.Some? ==> AllGroups(tail.value)) && (quad.Some? ==> QuadOk(quad.value))
    requires var n := if quad.Some? then 2 else 0; if tail.None? then |head| + n == 8
        else |head| + |tail.value| + n <= 7
    ensures ExpandLower(Extend(head, tail, Quads(quad)) + (if zone.Some? then "%" + zone.value else ""))
         == Some(Spread(Values(head), ValuesOf(tail), QuadGroups(quad)))
  {
    var body := Extend(head, tail, Quads(quad));
    ExtendWithout(head, tail, quad, '%');
    CutAtZone(body, zone);
    FoldExtended(head, tail, quad);
    if quad.Some? {
      QuadTextsAreGroups(quad.value);
    }
    assert AllGroups(More(quad)) && Values(More(quad)) == QuadGroups(quad);
    hide Extend, Fold, ExpandGroups, Values, AllGroups, QuadOk, Find, More, Without, Spread, ValuesOf, QuadGroups,
        Quads;
    ExpandMore(head, tail, More(quad));
  }

  /** Every textual form, in any case and with any zone, expands to exactly the groups it means. */
  lemma FormsExpand(f: Form)
    requires ValidForm(f)
    ensures ExpandIPv6(Print(f)) == Some(Meaning(f))
  {
    LowerPrint(f);
    MeaningIsSpread(f);
    hide Print, ExpandLower, Meaning, Extend, Values, Lower, QuadGroups, AllGroups, QuadOk, Spread, ValuesOf;
    ExpandText(LowerAll(f.head), LowerTail(f.tail), f.quad, if f.zone.Some? then Some(Lower(f.zone.value)) else None);
  }

  // ----- and nothing else expands -----

  lemma JoinOfPieces(s: string)
    ensures Join(Pieces(s), ':') == s
  {
    if s != "" {
      JoinSplit(s, ':');
    }
  }

  lemma CutDouble(w: string, i: nat)
    requires i + 1 < |w| && w[i] == ':' && w[i + 1] == ':'
    ensures w == w[..i] + "::" + w[i + 2..]
  {
  }

  lemma PartsOfGap(w: string) returns (h: string, t: string)
    requires FirstDouble(w) < |w| && GroupTexts(w).Some?
    ensures w == h + "::" + t && GroupTexts(w) == Fill(Pieces(h), Pieces(t))
  {
    hide Pieces, FirstDouble, Fill;
    var i := FirstDouble(w);
    CutDouble(w, i);
    h, t := w[..i], w[i + 2..];
  }

  lemma PartsWithoutGap(w: string)
    requires FirstDouble(w) == |w|
    ensures GroupTexts(w) == Some(Pieces(w)) && w == Join(Pieces(w), ':')
  {
    GroupTextsWithout(w);
    JoinOfPieces(w);
  }

  lemma FilledGroups(head: seq<string>, tail: seq<string>, groups: seq<string>)
    requires Fill(head, tail) == Some(groups) && AllGroups(groups)
    ensures AllGroups(head) && AllGroups(tail) && |head| + |tail| <= 7
  {
    hide AllGroups;
    var zeros := Zeros(8 - |head| - |tail|);
    assert groups == head + zeros + tail;
    AllGroupsConcat(head + zeros, tail);
    AllGroupsConcat(head, zeros);
  }

  lemma ExpandedGroups(w: string) returns (groups: seq<string>)
    requires ExpandGroups(w).Some?
    ensures GroupTexts(w) == Some(groups) && AllGroups(groups) && |groups| == 8
  {
    groups := GroupTexts(w).value;
    hide GroupTexts, AllGroups;
  }

  /** A text that expands is groups, with at most one gap. */
  lemma BodyOfExpanded(w: string) returns (head: seq<string>, tail: Option<seq<string>>)
    requires ExpandGroups(w).Some?
    ensures w == Body(head, tail) && AllGroups(head) && (tail.Some? ==> AllGroups(tail.value))
    ensures if tail.None? then |head| == 8 else |head| + |tail.value| <= 7
  {
    hide *;
    var groups := ExpandedGroups(w);
    if FirstDouble(w) == |w| {
      PartsWithoutGap(w);
      head, tail := groups, None;
      BodyOfParts(groups, None);
    } else {
      var h, t := PartsOfGap(w);
      FilledGroups(Pieces(h), Pieces(t), groups);
      JoinOfPieces(h);
      JoinOfPieces(t);
      head, tail := Pieces(h), Some(Pieces(t));
      BodyOfParts(head, tail);
    }
  }

  lemma BodyOfParts(head: seq<string>, tail: Option<seq<string>>)
    ensures Body(head, tail) == if tail.None? then Join(head, ':') else Join(head, ':') + "::" + Join(tail.value, ':')
  {
    hide Join;
  }

  lemma SplitPair(a: string, b: string)
    requires Without(a, ':') && Without(b, ':')
    ensures Split(a + ":" + b, ':') == [a, b]
  {
    assert Join([a, b], ':') == a + ":" + b;
    SplitJoin([a, b], ':');
  }

  lemma PiecesOfPair(m: string, pair: string, a: string, b: string) returns (before: seq<string>)
    requires Split(pair, ':') == [a, b] && pair != "" && (m != "" ==> m[|m| - 1] == ':')
    ensures Pieces(m + pair) == before + [a, b] && m == if before == [] then "" else Join(before, ':') + ":"
  {
    if m == "" {
      before := [];
      assert m + pair == pair;
      hide Split;
    } else {
      var r := m[..|m| - 1];
      assert m == r + ":" && m + pair == r + [':'] + pair;
      SplitConcat(r, pair, ':');
      before := Split(r, ':');
      JoinSplit(r, ':');
      hide Split, Join;
    }
  }

  lemma LastTwo(pieces: seq<string>, m: string, a: string, b: string) returns (before: seq<string>)
    requires Solid(pieces) && Join(pieces, ':') == m + (a + ":" + b) && Without(a, ':') && Without(b, ':')
    requires m != "" ==> m[|m| - 1] == ':'
    ensures pieces == before + [a, b] && m == if before == [] then "" else Join(before, ':') + ":"
  {
    SplitPair(a, b);
    PiecesOfJoin(pieces);
    hide Solid, Join, Split, Pieces, Without;
    before := PiecesOfPair(m, a + ":" + b, a, b);
  }

  /** The gap of a text with two groups at the end lies before them. */
  lemma GapIsInFront(pre: string, rest: string, front: string, a: string, b: string)
    requires pre + rest == front + (a + ":" + b) && |pre| >= 2 && pre[|pre| - 1] == ':' && pre[|pre| - 2] == ':'
    requires a != "" && Without(a, ':') && Without(b, ':')
    ensures |pre| <= |front| && front[..|pre|] == pre && rest == front[|pre|..] + (a + ":" + b)
  {
    var w, pair := pre + rest, a + ":" + b;
    assert w[|pre| - 1] == ':' && w[|pre| - 2] == ':';
    assert forall k :: 0 <= k < |pair| ==> w[|front| + k] == pair[k];
    assert forall k :: 0 <= k < |pair| && k != |a| ==> pair[k] != ':';
    assert |pre| <= |front|;
    hide *;
    SplitAtShorter(pre, rest, front, pair);
  }

  lemma SplitAtShorter(a: string, b: string, c: string, d: string)
    requires a + b == c + d && |a| <= |c|
    ensures c[..|a|] == a && b == c[|a|..] + d
  {
    assert (a + b)[..|a|] == a && (a + b)[|a|..] == b;
    assert (c + d)[..|a|] == c[..|a|] && (c + d)[|a|..] == c[|a|..] + d;
  }

  lemma GroupPairIsSolid(a: string, b: string)
    requires IsGroup(a) && IsGroup(b)
    ensures a != "" && Without(a, ':') && Without(b, ':') && AllGroups([a, b])
  {
    GroupsAreSolid([a, b]);
    assert Without([a, b][0], ':') && Without([a, b][1], ':');
  }

  /** Undoing the fold: a text ending in two groups is an extension by them. */
  lemma UnfoldGroups(head: seq<string>, tail: Option<seq<string>>, front: string, a: string, b: string)
    returns (head': seq<string>, tail': Option<seq<string>>)
    requires AllGroups(head) && (tail.Some? ==> AllGroups(tail.value)) && IsGroup(a) && IsGroup(b)
    requires Body(head, tail) == front + (a + ":" + b) && front != "" && front[|front| - 1] == ':'
    ensures tail'.None? <==> tail.None?
    ensures front == Front(head', tail')
    ensures if tail.None? then head == head' + [a, b] else head' == head && tail.value == tail'.value + [a, b]
  {
    hide AllGroups, Solid, Join, IsGroup, Without;
    GroupPairIsSolid(a, b);
    GroupsAreSolid(head);
    if tail.None? {
      assert Body(head, tail) == Join(head, ':');
      head' := LastTwo(head, front, a, b);
      tail' := None;
    } else {
      GroupsAreSolid(tail.value);
      var pre, rest := Join(head, ':') + "::", Join(tail.value, ':');
      assert Body(head, tail) == pre + rest;
      GapIsInFront(pre, rest, front, a, b);
      var m := front[|pre|..];
      var before := LastTwo(tail.value, m, a, b);
      head', tail' := head, Some(before);
      assert front == pre + m;
    }
  }

  predicate Sized(head: seq<string>, tail: Option<seq<string>>, quad: Option<string>) {
    var n := if quad.Some? then 2 else 0;
    if tail.None? then |head| + n == 8 else |head| + |tail.value| + n <= 7
  }

  lemma TextWithQuad(body: string, front: string, q: string) returns (head: seq<string>, tail: Option<seq<string>>)
    requires body == front + q && QuadOk(q) && front != "" && front[|front| - 1] == ':'
    requires ExpandGroups(front + (QuadTexts(q)[0] + ":" + QuadTexts(q)[1])).Some?
    ensures AllGroups(head) && (tail.Some? ==> AllGroups(tail.value)) && Sized(head, tail, Some(q))
    ensures body == Extend(head, tail, Quads(Some(q)))
  {
    var a, b := QuadTexts(q)[0], QuadTexts(q)[1];
    QuadPair(q);
    hide QuadTexts, QuadOk, ExpandGroups, Body, AllGroups, Extend, Front, IsQuad, IsGroup;
    var h, t := BodyOfExpanded(front + (a + ":" + b));
    head, tail := UnfoldGroups(h, t, front, a, b);
    ExtendIsFront(head, tail, [q]);
    assert Join([q], ':') == q;
    hide Join;
    AllGroupsConcat(if tail.None? then head else tail.value, [a, b]);
  }

  /** A text that folds and expands is the print of some lower-case form. */
  lemma TextOfExpanded(body: string) returns (head: seq<string>, tail: Option<seq<string>>, quad: Option<string>)
    requires Fold(body).Some? && ExpandGroups(Fold(body).value).Some?
    ensures AllGroups(head) && (tail.Some? ==> AllGroups(tail.value)) && (quad.Some? ==> QuadOk(quad.value))
    ensures Sized(head, tail, quad) && body == Extend(head, tail, Quads(quad))
  {
    var i := LastPieceAt(body);
    if i == 0 || !IsQuad(body[i..]) {
      assert Fold(body) == Some(body);
      hide *;
      head, tail := BodyOfExpanded(body);
      quad := None;
      ExtendByNothing(head, tail);
      QuadsOf(None);
      SizedOf(head, tail);
    } else {
      hide *;
      var front, q := body[..i], body[i..];
      FoldSplits(body, front, q, QuadTexts(q)[0], QuadTexts(q)[1]);
      assert body == front + q;
      head, tail := TextWithQuad(body, front, q);
      quad := Some(q);
    }
  }

  lemma QuadsOf(quad: Option<string>)
    ensures Quads(quad) == if quad.Some? then [quad.value] else []
  {
  }

  lemma SizedOf(head: seq<string>, tail: Option<seq<string>>)
    requires if tail.None? then |head| == 8 else |head| + |tail.value| <= 7
    ensures Sized(head, tail, None)
  {
  }

  lemma QuadPair(q: string)
    requires QuadOk(q)
    ensures IsGroup(QuadTexts(q)[0]) && IsGroup(QuadTexts(q)[1])
  {
    QuadTextsAreGroups(q);
    hide Hex, Octet;
  }

  lemma ExtendByNothing(head: seq<string>, tail: Option<seq<string>>)
    ensures Extend(head, tail, []) == Body(head, tail)
  {
    assert head + [] == head;
    if tail.Some? {
      assert tail.value + [] == tail.value;
    }
  }

  lemma FoldSplits(body: string, front: string, q: string, a: string, b: string)
    requires var i := LastPieceAt(body); i > 0 && front == body[..i] && q == body[i..] && IsQuad(q) && Fold(body).Some?
    requires a == QuadTexts(q)[0] && b == QuadTexts(q)[1]
    ensures QuadOk(q) && Fold(body).value == front + (a + ":" + b) && front != "" && front[|front| - 1] == ':'
  {
    hide IsQuad, Octet, Hex;
    assert front + a + ":" + b == front + (a + ":" + b);
  }

  /** The text is a form of the address, up to the case of its letters. */
  ghost predicate IsTextOf(s: string, g: seq<nat>) {
    exists f: Form :: ValidForm(f) && Lower(Print(f)) == Lower(s) && Meaning(f) == g
  }

  /** The expansion accepts exactly the textual forms, each as the address it stands for. */
  lemma ExpandIsExact(s: string, g: seq<nat>)
    ensures ExpandIPv6(s) == Some(g) <==> IsTextOf(s, g)
  {
    if ExpandIPv6(s) == Some(g) {
      FormOfExpanded(s, g);
    }
    forall f: Form | ValidForm(f) && Lower(Print(f)) == Lower(s) && Meaning(f) == g ensures ExpandIPv6(s) == Some(g) {
      FormsExpand(f);
    }
    hide ValidForm, ExpandLower, Print, Meaning;
  }

  lemma CutText(v: string, i: nat)
    requires i <= |v| && (i < |v| ==> v[i] == '%')
    ensures v == v[..i] + (if i < |v| then "%" + v[i + 1..] else "")
  {
  }

  lemma PartsOfText(v: string) returns (body: string, zone: Option<string>)
    requires ExpandLower(v).Some?
    ensures Fold(body).Some? && ExpandGroups(Fold(body).value).Some?
    ensures v == body + (if zone.Some? then "%" + zone.value else "")
  {
    hide Fold, ExpandGroups, Find;
    var i := Find(v, '%');
    CutText(v, i);
    body, zone := v[..i], if i < |v| then Some(v[i + 1..]) else None;
  }

  lemma FormOfExpanded(s: string, g: seq<nat>)
    requires ExpandIPv6(s) == Some(g)
    ensures IsTextOf(s, g)
  {
    var v := Lower(s);
    hide Fold, ExpandLower, Print, Meaning, Lower, ExpandGroups, AllGroups, QuadOk, Extend, Quads, ValidForm;
    var body, zone := PartsOfText(v);
    var head, tail, quad := TextOfExpanded(body);
    var f := Form(head, tail, quad, zone);
    LowerFormPrints(f, s);
    FormsExpand(f);
  }

  /** A form already in lower case prints as itself. */
  lemma LowerFormPrints(f: Form, s: string)
    requires AllGroups(f.head) && (f.tail.Some? ==> AllGroups(f.tail.value)) && (f.quad.Some? ==> QuadOk(f.quad.value))
    requires Sized(f.head, f.tail, f.quad)
    requires Lower(s) == Extend(f.head, f.tail, Quads(f.quad)) + (if f.zone.Some? then "%" + f.zone.value else "")
    ensures ValidForm(f) && Lower(Print(f)) == Lower(s)
  {
    LowerGroups(f.head);
    if f.tail.Some? {
      LowerGroups(f.tail.value);
    }
    assert Print(f) == Lower(s);
    LowerTwice(s);
  }

  lemma LowerTwice(s: string)
    ensures Lower(Lower(s)) == Lower(s)
  {
  }

  lemma LowerGroups(ps: seq<string>)
    requires AllGroups(ps)
    ensures LowerAll(ps) == ps
  {
    forall i | 0 <= i < |ps| ensures Lower(ps[i]) == ps[i] {
      assert forall j :: 0 <= j < |ps[i]| ==> Digit(ps[i][j]).Some?;
    }
  }
}
