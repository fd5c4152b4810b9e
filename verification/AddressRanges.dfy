/**
 * Which addresses an outgoing fetch may not reach, as the code decides it and as lists of prefixes.
 */
module AddressRanges {
  import opened Prelude
  import Strings
  import opened SafeFetch
  import opened AddressForms

  predicate IsOctets(o: seq<nat>) {
    |o| == 4 && forall i :: 0 <= i < 4 ==> o[i] <= 255
  }

  /** The decision on four octets. */
  predicate BlockedOctets(o: seq<nat>)
    requires IsOctets(o)
  {
    var a, b, c := o[0], o[1], o[2];
    || a == 0 || a == 127 || a == 10
    || (a == 100 && 64 <= b <= 127)
    || (a == 169 && b == 254)
    || (a == 172 && 16 <= b <= 31)
    || (a == 192 && b == 0 && (c == 0 || c == 2))
    || (a == 192 && b == 168)
    || (a == 198 && (b == 18 || b == 19))
    || (a == 198 && b == 51 && c == 100)
    || (a == 203 && b == 0 && c == 113)
    || a >= 224
  }

  /** A prefix: the leading `bits` bits of an address cut into digits of `width` bits. */
  datatype Prefix = Prefix(base: seq<nat>, bits: nat)

  function Pow2(n: nat): (r: nat)
    ensures r > 0
  {
    if n == 0 then 1 else 2 * Pow2(n - 1)
  }

  /** The address agrees with the base on the first `bits` bits. */
  predicate Matches(digits: seq<nat>, p: Prefix, width: nat)
    requires 0 < width && |digits| == |p.base| && p.bits < width * |digits|
  {
    var whole, rest := p.bits / width, p.bits % width;
    && (forall i :: 0 <= i < whole ==> digits[i] == p.base[i])
    && digits[whole] / Pow2(width - rest) == p.base[whole] / Pow2(width - rest)
  }

  const V4_COUNT := 13

  /** The refused IPv4 prefixes. */
  function V4Prefix(k: nat): (p: Prefix)
    requires k < V4_COUNT
    ensures |p.base| == 4 && p.bits < 32
  {
    match k
    case 0 => Prefix([0, 0, 0, 0], 8)
    case 1 => Prefix([127, 0, 0, 0], 8)
    case 2 => Prefix([10, 0, 0, 0], 8)
    case 3 => Prefix([100, 64, 0, 0], 10)
    case 4 => Prefix([169, 254, 0, 0], 16)
    case 5 => Prefix([172, 16, 0, 0], 12)
    case 6 => Prefix([192, 0, 0, 0], 24)
    case 7 => Prefix([192, 0, 2, 0], 24)
    case 8 => Prefix([192, 168, 0, 0], 16)
    case 9 => Prefix([198, 18, 0, 0], 15)
    case 10 => Prefix([198, 51, 100, 0], 24)
    case 11 => Prefix([203, 0, 113, 0], 24)
    case _ => Prefix([224, 0, 0, 0], 3)
  }

  lemma Powers()
    ensures Pow2(1) == 2 && Pow2(4) == 16 && Pow2(5) == 32 && Pow2(6) == 64 && Pow2(8) == 256
    ensures Pow2(9) == 512 && Pow2(16) == 65536
  {
    assert Pow2(2) == 4 && Pow2(3) == 8 && Pow2(7) == 128;
    assert Pow2(10) == 1024 && Pow2(11) == 2048 && Pow2(12) == 4096 && Pow2(13) == 8192 && Pow2(14) == 16384
        && Pow2(15) == 32768;
  }

  lemma MatchesWhole(o: seq<nat>, p: Prefix, n: nat)
    requires IsOctets(o) && IsOctets(p.base) && 1 <= n <= 3 && p.bits == 8 * n
    ensures Matches(o, p, 8) <==> o[0] == p.base[0] && (n > 1 ==> o[1] == p.base[1]) && (n > 2 ==> o[2] == p.base[2])
  {
    Powers();
  }

  lemma MatchesOctets(o: seq<nat>)
    requires IsOctets(o)
    ensures Matches(o, V4Prefix(0), 8) <==> o[0] == 0
    ensures Matches(o, V4Prefix(1), 8) <==> o[0] == 127
    ensures Matches(o, V4Prefix(2), 8) <==> o[0] == 10
    ensures Matches(o, V4Prefix(4), 8) <==> o[0] == 169 && o[1] == 254
    ensures Matches(o, V4Prefix(6), 8) <==> o[0] == 192 && o[1] == 0 && o[2] == 0
    ensures Matches(o, V4Prefix(7), 8) <==> o[0] == 192 && o[1] == 0 && o[2] == 2
    ensures Matches(o, V4Prefix(8), 8) <==> o[0] == 192 && o[1] == 168
    ensures Matches(o, V4Prefix(10), 8) <==> o[0] == 198 && o[1] == 51 && o[2] == 100
    ensures Matches(o, V4Prefix(11), 8) <==> o[0] == 203 && o[1] == 0 && o[2] == 113
  {
    hide Matches;
    MatchesWhole(o, V4Prefix(0), 1);
    MatchesWhole(o, V4Prefix(1), 1);
    MatchesWhole(o, V4Prefix(2), 1);
    MatchesWhole(o, V4Prefix(4), 2);
    MatchesWhole(o, V4Prefix(6), 3);
    MatchesWhole(o, V4Prefix(7), 3);
    MatchesWhole(o, V4Prefix(8), 2);
    MatchesWhole(o, V4Prefix(10), 3);
    MatchesWhole(o, V4Prefix(11), 3);
  }

  lemma MatchesBits(o: seq<nat>)
    requires IsOctets(o)
    ensures Matches(o, V4Prefix(3), 8) <==> o[0] == 100 && 64 <= o[1] <= 127
    ensures Matches(o, V4Prefix(5), 8) <==> o[0] == 172 && 16 <= o[1] <= 31
  {
    Powers();
  }

  lemma MatchesHighBits(o: seq<nat>)
    requires IsOctets(o)
    ensures Matches(o, V4Prefix(9), 8) <==> o[0] == 198 && 18 <= o[1] <= 19
    ensures Matches(o, V4Prefix(12), 8) <==> o[0] >= 224
  {
    Powers();
  }

  /** An IPv4 address is refused exactly when one of the listed prefixes contains it. */
  lemma BlockedV4IsPrefixes(o: seq<nat>)
    requires IsOctets(o)
    ensures BlockedOctets(o) <==> exists k: nat :: k < V4_COUNT && Matches(o, V4Prefix(k), 8)
  {
    MatchesOctets(o);
    MatchesBits(o);
    MatchesHighBits(o);
    hide Matches, V4Prefix;
  }

  // ----- IPv6 -----

  predicate IsGroups(g: seq<nat>) {
    |g| == 8 && forall i :: 0 <= i < 8 ==> g[i] <= 65535
  }

  /** The octets of the last two groups. */
  function LowOctets(g: seq<nat>): (o: seq<nat>)
    requires IsGroups(g)
    ensures IsOctets(o)
  {
    [g[6] / 256, g[6] % 256, g[7] / 256, g[7] % 256]
  }

  /** `x` with all but its top bits cleared, as masking does. */
  function Masked(x: nat, unit: nat): nat
    requires unit > 0
  {
    x - x % unit
  }

  predicate HoldsIPv4(g: seq<nat>)
    requires |g| == 8
  {
    g[0] == 0 && g[1] == 0 && g[2] == 0 && g[3] == 0 && g[4] == 0 && (g[5] == 0xffff || g[5] == 0)
  }

  predicate IsUnspecifiedOrLoopback(g: seq<nat>)
    requires |g| == 8
  {
    g[5] == 0 && g[6] == 0 && (g[7] == 0 || g[7] == 1)
  }

  predicate AllZero(g: seq<nat>, n: nat)
    requires n <= |g|
  {
    forall i :: 0 <= i < n ==> g[i] == 0
  }

  predicate InSpecialRange(g: seq<nat>)
    requires |g| == 8
  {
    || Masked(g[0], 0x200) == 0xfc00
    || Masked(g[0], 0x40) == 0xfe80
    || Masked(g[0], 0x100) == 0xff00
    || (g[0] == 0x0064 && g[1] == 0xff9b)
  }

  /** The decision on eight groups. */
  predicate BlockedGroups(g: seq<nat>)
    requires IsGroups(g)
  {
    if HoldsIPv4(g) && !IsUnspecifiedOrLoopback(g) then BlockedOctets(LowOctets(g))
    else AllZero(g, 8) || (AllZero(g, 7) && g[7] == 1) || InSpecialRange(g)
  }

  /** A literal is refused when it does not parse, or when its address is. */
  predicate BlockedIPv6(s: string) {
    var g := ExpandIPv6(s);
    if g.None? then true
    else
      ExpandedAreGroups(s);
      BlockedGroups(g.value)
  }

  /** Unique-local, link-local, multicast, and everything under 64:ff9b as the code tests it. */
  const V6_PREFIXES: seq<Prefix> := [
    Prefix([0xfc00, 0, 0, 0, 0, 0, 0, 0], 7), Prefix([0xfe80, 0, 0, 0, 0, 0, 0, 0], 10),
    Prefix([0xff00, 0, 0, 0, 0, 0, 0, 0], 8), Prefix([0x0064, 0xff9b, 0, 0, 0, 0, 0, 0], 32)]

  /** The addresses that carry an IPv4 address in their last 32 bits. */
  const V4_HOLDERS: seq<Prefix> := [Prefix([0, 0, 0, 0, 0, 0xffff, 0, 0], 96), Prefix([0, 0, 0, 0, 0, 0, 0, 0], 96)]

  lemma MatchesV6(g: seq<nat>)
    requires IsGroups(g)
    ensures var ps := V6_PREFIXES;
            && (Matches(g, ps[0], 16) <==> Masked(g[0], 0x200) == 0xfc00)
            && (Matches(g, ps[1], 16) <==> Masked(g[0], 0x40) == 0xfe80)
            && (Matches(g, ps[2], 16) <==> Masked(g[0], 0x100) == 0xff00)
            && (Matches(g, ps[3], 16) <==> g[0] == 0x64 && g[1] == 0xff9b)
  {
    Powers();
  }

  /** The low octets of an address below 256, and that such addresses are refused. */
  lemma SmallIPv4IsRefused(g: seq<nat>)
    requires IsGroups(g) && g[6] < 256
    ensures BlockedOctets(LowOctets(g))
  {
    assert LowOctets(g)[0] == 0;
  }

  lemma VerdictOfHolder(g: seq<nat>)
    requires IsGroups(g) && HoldsIPv4(g)
    ensures BlockedGroups(g) <==> BlockedOctets(LowOctets(g))
  {
    if IsUnspecifiedOrLoopback(g) {
      SmallIPv4IsRefused(g);
      assert AllZero(g, 7);
    }
    hide BlockedOctets, LowOctets, InSpecialRange;
  }

  lemma ZerosHoldIPv4(g: seq<nat>)
    requires |g| == 8 && AllZero(g, 7)
    ensures HoldsIPv4(g)
  {
    assert g[0] == g[1] == g[2] == g[3] == g[4] == g[5] == 0;
  }

  lemma VerdictOfOthers(g: seq<nat>)
    requires IsGroups(g) && !HoldsIPv4(g)
    ensures BlockedGroups(g) <==> InSpecialRange(g)
  {
    assert AllZero(g, 8) ==> AllZero(g, 7);
    if AllZero(g, 7) {
      ZerosHoldIPv4(g);
    }
    hide BlockedOctets, LowOctets, InSpecialRange;
  }

  lemma MatchesHolder(g: seq<nat>)
    requires IsGroups(g)
    ensures var ps := V4_HOLDERS;
            && (Matches(g, ps[0], 16)
                <==> g[0] == 0 && g[1] == 0 && g[2] == 0 && g[3] == 0 && g[4] == 0 && g[5] == 0xffff)
            && (Matches(g, ps[1], 16) <==> g[0] == 0 && g[1] == 0 && g[2] == 0 && g[3] == 0 && g[4] == 0 && g[5] == 0)
  {
    Powers();
  }

  /**
   * An IPv6 address is refused exactly when it carries a refused IPv4 address, or lies in one of
   * the listed prefixes; the unspecified and loopback addresses need no rule of their own.
   */
  lemma BlockedV6IsPrefixes(g: seq<nat>)
    requires IsGroups(g)
    ensures BlockedGroups(g)
       <==> (exists k :: 0 <= k < |V6_PREFIXES| && Matches(g, V6_PREFIXES[k], 16))
            || ((exists k :: 0 <= k < |V4_HOLDERS| && Matches(g, V4_HOLDERS[k], 16)) && BlockedOctets(LowOctets(g)))
  {
    MatchesV6(g);
    MatchesHolder(g);
    assert (exists k :: 0 <= k < 4 && Matches(g, V6_PREFIXES[k], 16)) <==> InSpecialRange(g);
    assert (exists k :: 0 <= k < 2 && Matches(g, V4_HOLDERS[k], 16)) <==> HoldsIPv4(g);
    hide Matches, BlockedGroups, BlockedOctets, LowOctets;
    if HoldsIPv4(g) {
      VerdictOfHolder(g);
      assert !InSpecialRange(g);
    } else {
      VerdictOfOthers(g);
    }
  }

  lemma ExpandedAreGroups(s: string)
    requires ExpandIPv6(s).Some?
    ensures IsGroups(ExpandIPv6(s).value)
  {
    var g := ExpandIPv6(s).value;
    assert IsTextOf(s, g) by {
      ExpandIsExact(s, g);
    }
    var f: Form :| ValidForm(f) && Meaning(f) == g;
    MeaningIsGroups(f);
  }

  lemma {:induction false} ValueBound(s: string)
    requires forall i :: 0 <= i < |s| ==> Digit(s[i]).Some?
    ensures |s| <= 4 ==> GroupValue(s) <= 65535
    ensures |s| <= 3 ==> GroupValue(s) <= 4095
    ensures |s| <= 2 ==> GroupValue(s) <= 255
    ensures |s| <= 1 ==> GroupValue(s) <= 15
  {
    if s != "" {
      ValueBound(s[..|s| - 1]);
    }
  }

  lemma ValuesAreGroups(ps: seq<string>)
    requires AllGroups(ps)
    ensures forall i :: 0 <= i < |ps| ==> Values(ps)[i] <= 65535
  {
    forall i | 0 <= i < |ps| ensures GroupValue(ps[i]) <= 65535 {
      ValueBound(ps[i]);
    }
  }

  lemma MeaningIsGroups(f: Form)
    requires ValidForm(f)
    ensures IsGroups(Meaning(f))
  {
    ValuesAreGroups(Strings.LowerAll(f.head));
    if f.tail.Some? {
      ValuesAreGroups(Strings.LowerAll(f.tail.value));
    }
    assert forall i :: 0 <= i < |QuadGroups(f.quad)| ==> QuadGroups(f.quad)[i] <= 65535;
    hide Values, QuadGroups, AllGroups, QuadOk;
  }

  /**
   * However an address that carries IPv4 is written, mapped or compatible, in hexadecimal or with
   * a dotted quad, it gets the verdict of the IPv4 address it carries.
   */
  lemma CarriedIPv4DecidesVerdict(s: string, g: seq<nat>, o: seq<nat>)
    requires IsTextOf(s, g) && IsOctets(o) && |g| == 8 && HoldsIPv4(g)
    requires g[6] == o[0] * 256 + o[1] && g[7] == o[2] * 256 + o[3]
    ensures BlockedIPv6(s) <==> BlockedOctets(o)
  {
    LowOctetsOf(g, o);
    ExpandIsExact(s, g);
    hide ExpandIPv6, IsTextOf, BlockedOctets, BlockedGroups, LowOctets;
    VerdictOfHolder(g);
  }

  lemma LowOctetsOf(g: seq<nat>, o: seq<nat>)
    requires IsOctets(o) && |g| == 8 && g[6] == o[0] * 256 + o[1] && g[7] == o[2] * 256 + o[3]
    requires HoldsIPv4(g)
    ensures IsGroups(g) && LowOctets(g) == o
  {
  }

  /** What is not the text of any address is refused. */
  lemma MalformedFailsClosed(s: string)
    requires forall g :: !IsTextOf(s, g)
    ensures BlockedIPv6(s)
  {
    if ExpandIPv6(s).Some? {
      ExpandIsExact(s, ExpandIPv6(s).value);
    }
    hide ExpandIPv6, IsTextOf;
  }
}
