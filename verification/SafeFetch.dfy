/**
 * Expanding IPv6 literals to eight 16-bit groups, and the textual forms of section 2.2 of RFC 4291
 * the expansion is measured against.
 */
module SafeFetch {
  import opened Prelude
  import opened Strings

  // ----- hexadecimal groups -----

  function Digit(c: char): Option<nat> {
    if '0' <= c <= '9' then Some((c - '0') as nat)
    else if 'a' <= c <= 'f' then Some((c - 'a') as nat + 10)
    else None
  }

  /** One to four lower-case hexadecimal digits. */
  predicate IsGroup(s: string) {
    1 <= |s| <= 4 && forall i :: 0 <= i < |s| ==> Digit(s[i]).Some?
  }

  function GroupValue(s: string): nat
    requires forall i :: 0 <= i < |s| ==> Digit(s[i]).Some?
  {
    if s == "" then 0 else GroupValue(s[..|s| - 1]) * 16 + Digit(s[|s| - 1]).value
  }

  function HexDigit(d: nat): (c: char)
    requires d < 16
    ensures Digit(c) == Some(d)
  {
    if d < 10 then '0' + d as char else 'a' + (d - 10) as char
  }

  const DIGITS := "0123456789abcdef"

  lemma DigitIsExact(c: char, d: nat)
    ensures Digit(c) == Some(d) <==> d < 16 && DIGITS[d] == c
  {
  }

  /** The value of the character `k` places from the end; nothing beyond the text. */
  function Place(s: string, k: nat): nat
    requires forall i :: 0 <= i < |s| ==> Digit(s[i]).Some?
  {
    if k < |s| then Digit(s[|s| - 1 - k]).value else 0
  }

  /** A group is read in base sixteen, the last character counting ones. */
  lemma {:induction false} GroupIsPositional(s: string)
    requires IsGroup(s)
    ensures GroupValue(s) == Place(s, 3) * 4096 + Place(s, 2) * 256 + Place(s, 1) * 16 + Place(s, 0)
  {
    var front := s[..|s| - 1];
    if |s| > 1 {
      GroupIsPositional(front);
      hide Digit;
      assert forall k: nat :: Place(front, k) == Place(s, k + 1);
    }
  }

  /** Lower-case hexadecimal without leading zeros. */
  function Hex(n: nat): (s: string)
    ensures s != "" && forall i :: 0 <= i < |s| ==> Digit(s[i]).Some?
    ensures GroupValue(s) == n
  {
    if n < 16 then [HexDigit(n)]
    else
      var front := Hex(n / 16);
      assert (front + [HexDigit(n % 16)])[..|front|] == front;
      front + [HexDigit(n % 16)]
  }

  lemma HexOfWord(n: nat)
    requires n < 65536
    ensures IsGroup(Hex(n))
  {
    if n >= 16 {
      HexOfThreeDigits(n / 16);
    }
  }

  lemma HexOfThreeDigits(n: nat)
    requires n < 4096
    ensures |Hex(n)| <= 3
  {
    if n >= 16 {
      assert n / 16 < 256;
      assert |Hex(n / 16)| <= 2 by {
        if n / 16 >= 16 {
          assert n / 16 / 16 < 16;
        }
      }
    }
  }

  // ----- dotted quads -----

  predicate IsDecimal(s: string) {
    1 <= |s| <= 3 && forall i :: 0 <= i < |s| ==> '0' <= s[i] <= '9'
  }

  function DecimalValue(s: string): nat
    requires forall i :: 0 <= i < |s| ==> '0' <= s[i] <= '9'
  {
    if s == "" then 0 else DecimalValue(s[..|s| - 1]) * 10 + (s[|s| - 1] - '0') as nat
  }

  /** An octet is read in base ten. */
  lemma {:induction false} OctetIsPositional(s: string)
    requires IsDecimal(s)
    ensures DecimalValue(s) == Place(s, 2) * 100 + Place(s, 1) * 10 + Place(s, 0)
  {
    var front := s[..|s| - 1];
    if |s| > 1 {
      OctetIsPositional(front);
      assert forall k: nat :: Place(front, k) == Place(s, k + 1);
    }
  }

  function Figure(d: nat): (c: char)
    requires d < 10
    ensures '0' <= c <= '9' && (c - '0') as nat == d
  {
    '0' + d as char
  }

  /** The decimal figures of a number, without leading zeros. */
  function Figures(n: nat): string {
    if n < 10 then [Figure(n)] else Figures(n / 10) + [Figure(n % 10)]
  }

  lemma FigureRead(s: string, d: nat)
    requires (s == "" || IsDecimal(s)) && |s| < 3 && d < 10
    ensures IsDecimal(s + [Figure(d)]) && DecimalValue(s + [Figure(d)]) == DecimalValue(s) * 10 + d
  {
    assert (s + [Figure(d)])[..|s|] == s;
  }

  /** The octets that can be read are the numbers below a thousand, each from its figures at least. */
  lemma OctetsAreFigures(s: string, n: nat)
    ensures IsDecimal(s) ==> DecimalValue(s) < 1000
    ensures n < 1000 ==> IsDecimal(Figures(n)) && DecimalValue(Figures(n)) == n
  {
    if IsDecimal(s) {
      OctetIsPositional(s);
    }
    if n < 1000 {
      FiguresAreRead(n, 3);
    }
  }

  lemma {:induction false} FiguresAreRead(n: nat, k: nat)
    requires 1 <= k <= 3 && n < (if k == 1 then 10 else if k == 2 then 100 else 1000)
    ensures |Figures(n)| <= k && IsDecimal(Figures(n)) && DecimalValue(Figures(n)) == n
  {
    hide IsDecimal, Figure;
    if n < 10 {
      FigureRead("", n);
      assert "" + [Figure(n)] == [Figure(n)];
    } else {
      FiguresAreRead(n / 10, k - 1);
      FigureRead(Figures(n / 10), n % 10);
    }
  }

  /** Four runs of one to three digits between dots. */
  predicate IsQuad(s: string) {
    var o := Split(s, '.');
    |o| == 4 && forall i :: 0 <= i < 4 ==> IsDecimal(o[i])
  }

  function Octet(s: string, i: nat): nat
    requires IsQuad(s) && i < 4
  {
    DecimalValue(Split(s, '.')[i])
  }

  // ----- the expansion -----

  /** Where the text after the last colon begins; the start when there is none. */
  function LastPieceAt(v: string): (i: nat)
    ensures i <= |v| && (i > 0 ==> v[i - 1] == ':') && forall j :: i <= j < |v| ==> v[j] != ':'
  {
    if v == "" then 0 else if v[|v| - 1] == ':' then |v| else LastPieceAt(v[..|v| - 1])
  }

  /** Fold an embedded dotted quad at the end into two groups; nothing when an octet is too large. */
  function Fold(v: string): Option<string> {
    var i := LastPieceAt(v);
    if i == 0 || !IsQuad(v[i..]) then Some(v)
    else if exists k: nat | k < 4 :: Octet(v[i..], k) > 255 then None
    else
      var quad := v[i..];
      Some(v[..i] + Hex(Octet(quad, 0) * 256 + Octet(quad, 1)) + ":" + Hex(Octet(quad, 2) * 256 + Octet(quad, 3)))
  }

  /** The first "::", or the length of the text. */
  function FirstDouble(v: string): (i: nat)
    ensures i <= |v| && (i < |v| ==> i + 1 < |v| && v[i] == ':' && v[i + 1] == ':')
    ensures forall j :: 0 <= j < i && j + 1 < |v| ==> !(v[j] == ':' && v[j + 1] == ':')
  {
    if |v| < 2 then |v|
    else if v[0] == ':' && v[1] == ':' then 0
    else 1 + FirstDouble(v[1..])
  }

  function Pieces(s: string): seq<string> {
    if s == "" then [] else Split(s, ':')
  }

  function Zeros(n: nat): seq<string> {
    seq(n, _ => "0")
  }

  /** Head and tail around a gap, with the zero groups missing from eight between them. */
  function Fill(head: seq<string>, tail: seq<string>): Option<seq<string>> {
    if 8 - |head| - |tail| < 1 then None else Some(head + Zeros(8 - |head| - |tail|) + tail)
  }

  /** The groups as text: a single "::" stands for the missing zero groups. */
  function GroupTexts(v: string): Option<seq<string>> {
    var i := FirstDouble(v);
    if i == |v| then Some(Pieces(v))
    else if FirstDouble(v[i + 2..]) < |v[i + 2..]| then None
    else Fill(Pieces(v[..i]), Pieces(v[i + 2..]))
  }

  predicate AllGroups(ps: seq<string>) {
    forall i :: 0 <= i < |ps| ==> IsGroup(ps[i])
  }

  function Values(groups: seq<string>): (r: seq<nat>)
    requires AllGroups(groups)
    ensures |r| == |groups| && forall i :: 0 <= i < |groups| ==> r[i] == GroupValue(groups[i])
  {
    seq(|groups|, i requires 0 <= i < |groups| => GroupValue(groups[i]))
  }

  function ExpandGroups(v: string): Option<seq<nat>> {
    var groups := GroupTexts(v);
    if groups.None? || |groups.value| != 8 || !AllGroups(groups.value) then None
    else Some(Values(groups.value))
  }

  function ExpandLower(v: string): Option<seq<nat>> {
    var folded := Fold(v[..Find(v, '%')]);
    if folded.None? then None else ExpandGroups(folded.value)
  }

  function ExpandIPv6(input: string): Option<seq<nat>> {
    ExpandLower(Lower(input))
  }

  // ----- the textual forms -----

  /**
   * An address as written: the pieces before "::" and after it (no "::" when `tail` is absent), the
   * last four bytes possibly as a dotted quad, and a zone.
   */
  datatype Form = Form(head: seq<string>, tail: Option<seq<string>>, quad: Option<string>, zone: Option<string>)

  predicate QuadOk(q: string) {
    IsQuad(q) && forall i: nat | i < 4 :: Octet(q, i) <= 255
  }

  /** Eight groups in full, or at least one zero group left to "::". */
  predicate ValidForm(f: Form) {
    && AllGroups(LowerAll(f.head)) && (f.tail.Some? ==> AllGroups(LowerAll(f.tail.value)))
    && (f.quad.Some? ==> QuadOk(f.quad.value))
    && var written := |f.head| + (if f.tail.Some? then |f.tail.value| else 0) + (if f.quad.Some? then 2 else 0);
       if f.tail.None? then written == 8 else written <= 7
  }

  function QuadGroups(q: Option<string>): seq<nat>
    requires q.Some? ==> IsQuad(q.value)
  {
    if q.None? then []
    else [Octet(q.value, 0) * 256 + Octet(q.value, 1), Octet(q.value, 2) * 256 + Octet(q.value, 3)]
  }

  function ZeroGroups(n: nat): seq<nat> {
    seq(n, _ => 0)
  }

  /** The eight groups a form means. */
  function Meaning(f: Form): (g: seq<nat>)
    requires ValidForm(f)
    ensures |g| == 8
  {
    var head, quad := Values(LowerAll(f.head)), QuadGroups(f.quad);
    if f.tail.None? then head + quad
    else
      var tail := Values(LowerAll(f.tail.value)) + quad;
      head + ZeroGroups(8 - |head| - |tail|) + tail
  }

  function Quads(q: Option<string>): seq<string> {
    if q.Some? then [q.value] else []
  }

  function Body(head: seq<string>, tail: Option<seq<string>>): string {
    Join(head, ':') + (if tail.Some? then "::" + Join(tail.value, ':') else "")
  }

  function Print(f: Form): string {
    (if f.tail.None? then Body(f.head + Quads(f.quad), None)
     else Body(f.head, Some(f.tail.value + Quads(f.quad))))
    + (if f.zone.Some? then "%" + f.zone.value else "")
  }
}
