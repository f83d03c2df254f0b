/** Parsing of IP address literals and the blocked ranges of the staleness auditor. */
module Address {
  import opened Base
  import opened Bits
  import opened Strings

  type Byte = n: nat | n < 256
  type Group = n: nat | n < 0x1_0000

  // ---------------------------------------------------------------------------
  // IPv4
  // ---------------------------------------------------------------------------

  predicate IsDigit(c: char) {
    '0' <= c <= '9'
  }

  function DigitValue(c: char): nat
    requires IsDigit(c)
  {
    c as int - '0' as int
  }

  predicate AllDigits(t: string) {
    t == [] || (IsDigit(t[|t| - 1]) && AllDigits(t[..|t| - 1]))
  }

  function Decimal(t: string): nat
    requires AllDigits(t)
  {
    if t == [] then 0 else 10 * Decimal(t[..|t| - 1]) + DigitValue(t[|t| - 1])
  }

  /** A part of one to three digits with a value up to 255. */
  function Octet(part: string): Option<Byte> {
    if 1 <= |part| <= 3 && AllDigits(part) && Decimal(part) <= 255 then Some(Decimal(part)) else None
  }

  /** The digits of a part of up to three characters, by their places. */
  function PlaceValue(part: string): nat
    requires forall i | 0 <= i < |part| :: IsDigit(part[i])
  {
    if |part| == 1 then DigitValue(part[0])
    else if |part| == 2 then 10 * DigitValue(part[0]) + DigitValue(part[1])
    else if |part| == 3 then 100 * DigitValue(part[0]) + 10 * DigitValue(part[1]) + DigitValue(part[2])
    else 0
  }

  lemma {:induction false} AllDigitsAre(t: string)
    ensures AllDigits(t) <==> forall i | 0 <= i < |t| :: IsDigit(t[i])
  {
    if t != [] {
      AllDigitsAre(t[..|t| - 1]);
    }
  }

  /** A part is an octet exactly when it is one to three digits, leading zeros allowed, that amount to at most 255. */
  lemma OctetExactly(part: string)
    ensures Octet(part).Some? <==>
              1 <= |part| <= 3 && (forall i | 0 <= i < |part| :: IsDigit(part[i])) && PlaceValue(part) <= 255
    ensures Octet(part).Some? ==> Octet(part).value == PlaceValue(part)
  {
    AllDigitsAre(part);
    if 1 <= |part| <= 3 && AllDigits(part) {
      DecimalIsPlaceValue(part);
    }
  }

  lemma DecimalIsPlaceValue(part: string)
    requires 1 <= |part| <= 3 && AllDigits(part) && forall i | 0 <= i < |part| :: IsDigit(part[i])
    ensures Decimal(part) == PlaceValue(part)
  {
    assert Decimal(part[..1]) == DigitValue(part[0]) by {
      assert part[..1][..0] == [];
    }
    if |part| == 1 {
      assert part[..1] == part;
    } else {
      assert Decimal(part[..2]) == 10 * DigitValue(part[0]) + DigitValue(part[1]) by {
        assert part[..2][..1] == part[..1];
      }
      if |part| == 2 {
        assert part[..2] == part;
      }
    }
  }

  function Quad(a: Byte, b: Byte, c: Byte, d: Byte): nat {
    ((a * 256 + b) * 256 + c) * 256 + d
  }

  function Ipv4ToInt(ip: string): Option<nat> {
    var parts := Split(ip, '.');
    if |parts| != 4 then None
    else
      match (Octet(parts[0]), Octet(parts[1]), Octet(parts[2]), Octet(parts[3]))
      case (Some(a), Some(b), Some(c), Some(d)) => Some(Quad(a, b, c, d))
      case _ => None
  }

  predicate OctetsTo(parts: seq<string>, i: nat)
    requires i <= |parts|
  {
    forall j | 0 <= j < i :: Octet(parts[j]).Some?
  }

  /** The number the first `i` parts amount to. */
  function Folded(parts: seq<string>, i: nat): nat
    requires i <= |parts| && OctetsTo(parts, i)
  {
    if i == 0 then 0 else Folded(parts, i - 1) * 256 + Octet(parts[i - 1]).value
  }

  lemma FoldedIsQuad(parts: seq<string>)
    requires |parts| == 4 && OctetsTo(parts, 4)
    ensures Folded(parts, 4)
         == Quad(Octet(parts[0]).value, Octet(parts[1]).value, Octet(parts[2]).value, Octet(parts[3]).value)
  {
    assert Folded(parts, 1) == Octet(parts[0]).value;
    assert Folded(parts, 2) == Octet(parts[0]).value * 256 + Octet(parts[1]).value;
    assert Folded(parts, 3) == Folded(parts, 2) * 256 + Octet(parts[2]).value;
  }

  /** `ipv4ToInt`, part by part. */
  method ParseIpv4(ip: string) returns (r: Option<nat>)
    ensures r == Ipv4ToInt(ip)
    ensures r.Some? ==> r.value < TWO_TO_32
  {
    var parts := Split(ip, '.');
    if |parts| != 4 {
      return None;
    }
    var n: nat := 0;
    var i := 0;
    while i < 4
      invariant 0 <= i <= 4 && OctetsTo(parts, i)
      invariant n == Folded(parts, i)
    {
      var v := Octet(parts[i]);
      if v.None? {
        return None;
      }
      n := n * 256 + v.value;
      i := i + 1;
    }
    FoldedIsQuad(parts);
    return Some(ToUint32(n));
  }

  function DigitChar(d: nat): char
    requires d < 10
  {
    "0123456789"[d]
  }

  /** An octet in decimal, without leading zeros. */
  function OctetText(n: Byte): string {
    if n < 10 then [DigitChar(n)]
    else if n < 100 then [DigitChar(n / 10), DigitChar(n % 10)]
    else [DigitChar(n / 100), DigitChar(n / 10 % 10), DigitChar(n % 10)]
  }

  function Dotted(a: Byte, b: Byte, c: Byte, d: Byte): string {
    OctetText(a) + "." + OctetText(b) + "." + OctetText(c) + "." + OctetText(d)
  }

  lemma DottedJoins(a: Byte, b: Byte, c: Byte, d: Byte)
    ensures Dotted(a, b, c, d) == Join([OctetText(a), OctetText(b), OctetText(c), OctetText(d)], '.')
  {
    var p, q, r, s := OctetText(a), OctetText(b), OctetText(c), OctetText(d);
    assert [p, q, r, s][1..] == [q, r, s] && [q, r, s][1..] == [r, s] && [r, s][1..] == [s];
    assert Join([r, s], '.') == r + ['.'] + s;
    assert Join([q, r, s], '.') == q + ['.'] + (r + ['.'] + s);
  }

  lemma DigitReads(d: nat)
    requires d < 10
    ensures IsDigit(DigitChar(d)) && DigitValue(DigitChar(d)) == d
  {
  }

  lemma DecimalAppend(t: string, d: nat)
    requires d < 10 && AllDigits(t)
    ensures AllDigits(t + [DigitChar(d)]) && Decimal(t + [DigitChar(d)]) == 10 * Decimal(t) + d
  {
    DigitReads(d);
    assert (t + [DigitChar(d)])[..|t|] == t;
  }

  lemma OneDigit(a: nat)
    requires a < 10
    ensures AllDigits([DigitChar(a)]) && Decimal([DigitChar(a)]) == a
  {
    DecimalAppend([], a);
    assert [] + [DigitChar(a)] == [DigitChar(a)];
  }

  lemma TwoDigits(a: nat, b: nat)
    requires a < 10 && b < 10
    ensures AllDigits([DigitChar(a), DigitChar(b)]) && Decimal([DigitChar(a), DigitChar(b)]) == 10 * a + b
  {
    OneDigit(a);
    DecimalAppend([DigitChar(a)], b);
    assert [DigitChar(a)] + [DigitChar(b)] == [DigitChar(a), DigitChar(b)];
  }

  lemma ThreeDigits(a: nat, b: nat, c: nat)
    requires a < 10 && b < 10 && c < 10
    ensures AllDigits([DigitChar(a), DigitChar(b), DigitChar(c)])
    ensures Decimal([DigitChar(a), DigitChar(b), DigitChar(c)]) == 100 * a + 10 * b + c
  {
    TwoDigits(a, b);
    DecimalAppend([DigitChar(a), DigitChar(b)], c);
    assert [DigitChar(a), DigitChar(b)] + [DigitChar(c)] == [DigitChar(a), DigitChar(b), DigitChar(c)];
  }

  lemma HasDigits(n: nat)
    ensures n == 10 * (n / 10) + n % 10 && n == 100 * (n / 100) + 10 * (n / 10 % 10) + n % 10
  {
  }

  lemma OctetReads(n: Byte)
    ensures Octet(OctetText(n)) == Some(n)
  {
    HasDigits(n);
    if n < 10 {
      OneDigit(n);
    } else if n < 100 {
      TwoDigits(n / 10, n % 10);
    } else {
      ThreeDigits(n / 100, n / 10 % 10, n % 10);
    }
  }

  lemma OctetTextHas(n: Byte, x: char)
    requires !IsDigit(x)
    ensures x !in OctetText(n)
  {
    DigitReads(n % 10);
    DigitReads(n / 10 % 10);
    DigitReads(if n >= 100 then n / 100 else 0);
  }

  lemma DottedHas(a: Byte, b: Byte, c: Byte, d: Byte, x: char)
    requires !IsDigit(x)
    ensures x in Dotted(a, b, c, d) <==> x == '.'
  {
    OctetTextHas(a, x);
    OctetTextHas(b, x);
    OctetTextHas(c, x);
    OctetTextHas(d, x);
  }

  /** Parsing a dotted quad gives back its four numbers. */
  lemma Ipv4RoundTrip(a: Byte, b: Byte, c: Byte, d: Byte)
    ensures Ipv4ToInt(Dotted(a, b, c, d)) == Some(Quad(a, b, c, d))
  {
    OctetReads(a);
    OctetReads(b);
    OctetReads(c);
    OctetReads(d);
    OctetTextHas(a, '.');
    OctetTextHas(b, '.');
    OctetTextHas(c, '.');
    OctetTextHas(d, '.');
    DottedJoins(a, b, c, d);
    SplitJoin([OctetText(a), OctetText(b), OctetText(c), OctetText(d)], '.');
  }

  /** Nothing else parses: whatever is accepted is four octets joined by dots. */
  lemma Ipv4OnlyQuads(ip: string)
    requires Ipv4ToInt(ip).Some?
    ensures exists p, q, r, s ::
              && ip == Join([p, q, r, s], '.')
              && Octet(p).Some? && Octet(q).Some? && Octet(r).Some? && Octet(s).Some?
              && Ipv4ToInt(ip).value == Quad(Octet(p).value, Octet(q).value, Octet(r).value, Octet(s).value)
  {
    var parts := Split(ip, '.');
    JoinSplit(ip, '.');
    assert parts == [parts[0], parts[1], parts[2], parts[3]];
  }

  // ---------------------------------------------------------------------------
  // Blocked IPv4 ranges
  // ---------------------------------------------------------------------------

  /** `inRange`: both numbers agree on the top `bits` bits. */
  predicate InRange(n: nat, base: string, bits: nat)
    requires bits <= 32
  {
    var b := Ipv4ToInt(base);
    if b.None? then false
    else
      var mask := if bits == 0 then 0 else ShiftLeft32(0xFFFF_FFFF, 32 - bits);
      And(n, mask) == And(b.value, mask)
  }

  predicate IsBlockedIpv4(ip: string) {
    match Ipv4ToInt(ip)
    case None => true
    case Some(n) =>
      || InRange(n, "0.0.0.0", 8)
      || InRange(n, "10.0.0.0", 8)
      || InRange(n, "100.64.0.0", 10)
      || InRange(n, "127.0.0.0", 8)
      || InRange(n, "169.254.0.0", 16)
      || InRange(n, "172.16.0.0", 12)
      || InRange(n, "192.168.0.0", 16)
      || InRange(n, "224.0.0.0", 4)
      || InRange(n, "240.0.0.0", 4)
  }

  lemma LowWord(m: nat, r: nat)
    requires r < TWO_TO_32
    ensures ToUint32(TWO_TO_32 * m + r) == r
  {
  }

  lemma MaskOf(bits: nat)
    requires 1 <= bits <= 32
    ensures ShiftLeft32(0xFFFF_FFFF, 32 - bits) == TWO_TO_32 - Pow2(32 - bits)
  {
    WordSize();
    PowAdds(bits, 32 - bits);
    MulMono(Pow2(32 - bits), 1, Pow2(bits));
    LowWord(Pow2(32 - bits) - 1, TWO_TO_32 - Pow2(32 - bits));
  }

  lemma AndMask32(n: nat, k: nat)
    requires k <= 32 && n < TWO_TO_32
    ensures Pow2(k) <= TWO_TO_32 && And(n, TWO_TO_32 - Pow2(k)) == n / Pow2(k) * Pow2(k)
  {
    WordSize();
    AndMask(n, 32, k);
  }

  /** A mask test is a test for a numeric interval that starts at the base address. */
  lemma MaskIsInterval(n: nat, base: string, q: nat, bits: nat, p: nat)
    requires 1 <= bits <= 32 && n < TWO_TO_32 && q < TWO_TO_32
    requires Ipv4ToInt(base) == Some(q) && p == Pow2(32 - bits) && q % p == 0
    ensures InRange(n, base, bits) <==> q <= n < q + p
  {
    MaskOf(bits);
    AndMask32(n, 32 - bits);
    AndMask32(q, 32 - bits);
    SameBlock(n, q, p);
  }

  lemma SameBlock(n: nat, q: nat, p: nat)
    requires p > 0 && q % p == 0
    ensures n / p * p == q / p * p <==> q <= n < q + p
  {
    if q <= n < q + p {
      QuotientUnique(n, p, q / p, n - q);
    }
  }

  /** The addresses the auditor must never reach, as numbers. */
  predicate IsForbidden(n: nat) {
    || n <= 0x00FF_FFFF
    || 0x0A00_0000 <= n <= 0x0AFF_FFFF
    || 0x6440_0000 <= n <= 0x647F_FFFF
    || 0x7F00_0000 <= n <= 0x7FFF_FFFF
    || 0xA9FE_0000 <= n <= 0xA9FE_FFFF
    || 0xAC10_0000 <= n <= 0xAC1F_FFFF
    || 0xC0A8_0000 <= n <= 0xC0A8_FFFF
    || 0xE000_0000 <= n
  }

  lemma PowersHere()
    ensures Pow2(24) == 0x100_0000 && Pow2(22) == 0x40_0000 && Pow2(16) == 0x1_0000
    ensures Pow2(20) == 0x10_0000 && Pow2(28) == 0x1000_0000
  {
    assert Pow2(8) == 256 && Pow2(4) == 16 && Pow2(2) == 4;
    PowAdds(8, 8);
    PowAdds(16, 8);
    PowAdds(16, 4);
    PowAdds(20, 2);
    PowAdds(20, 8);
  }

  /** The base of a range, read as a number. */
  lemma BaseReads(base: string, a: Byte, b: Byte)
    requires base == Dotted(a, b, 0, 0)
    ensures Ipv4ToInt(base) == Some(Quad(a, b, 0, 0))
  {
    Ipv4RoundTrip(a, b, 0, 0);
  }

  lemma LowestBlock(n: nat, base: string, bits: nat, p: nat)
    requires 1 <= bits <= 32 && n < TWO_TO_32 && Ipv4ToInt(base) == Some(0) && p == Pow2(32 - bits)
    ensures InRange(n, base, bits) <==> n < p
  {
    MaskIsInterval(n, base, 0, bits, p);
  }

  lemma ThisNetworkBase()
    ensures Ipv4ToInt("0.0.0.0") == Some(0)
  {
    assert "0.0.0.0" == Dotted(0, 0, 0, 0);
    BaseReads("0.0.0.0", 0, 0);
  }

  lemma ThisNetwork(n: nat)
    requires n < TWO_TO_32
    ensures InRange(n, "0.0.0.0", 8) <==> n <= 0x00FF_FFFF
  {
    PowersHere();
    ThisNetworkBase();
    LowestBlock(n, "0.0.0.0", 8, 0x100_0000);
  }

  lemma TenSlash8Base()
    ensures Ipv4ToInt("10.0.0.0") == Some(0x0A00_0000)
  {
    assert "10.0.0.0" == Dotted(10, 0, 0, 0);
    BaseReads("10.0.0.0", 10, 0);
  }

  lemma TenSlash8(n: nat)
    requires n < TWO_TO_32
    ensures InRange(n, "10.0.0.0", 8) <==> 0x0A00_0000 <= n <= 0x0AFF_FFFF
  {
    PowersHere();
    TenSlash8Base();
    MaskIsInterval(n, "10.0.0.0", 0x0A00_0000, 8, 0x100_0000);
  }

  lemma CarrierNatBase()
    ensures Ipv4ToInt("100.64.0.0") == Some(0x6440_0000)
  {
    assert "100.64.0.0" == Dotted(100, 64, 0, 0);
    BaseReads("100.64.0.0", 100, 64);
  }

  lemma CarrierNat(n: nat)
    requires n < TWO_TO_32
    ensures InRange(n, "100.64.0.0", 10) <==> 0x6440_0000 <= n <= 0x647F_FFFF
  {
    PowersHere();
    CarrierNatBase();
    MaskIsInterval(n, "100.64.0.0", 0x6440_0000, 10, 0x40_0000);
  }

  lemma LoopbackBase()
    ensures Ipv4ToInt("127.0.0.0") == Some(0x7F00_0000)
  {
    assert "127.0.0.0" == Dotted(127, 0, 0, 0);
    BaseReads("127.0.0.0", 127, 0);
  }

  lemma Loopback(n: nat)
    requires n < TWO_TO_32
    ensures InRange(n, "127.0.0.0", 8) <==> 0x7F00_0000 <= n <= 0x7FFF_FFFF
  {
    PowersHere();
    LoopbackBase();
    MaskIsInterval(n, "127.0.0.0", 0x7F00_0000, 8, 0x100_0000);
  }

  lemma LinkLocalBase()
    ensures Ipv4ToInt("169.254.0.0") == Some(0xA9FE_0000)
  {
    assert "169.254.0.0" == Dotted(169, 254, 0, 0);
    BaseReads("169.254.0.0", 169, 254);
  }

  lemma LinkLocal(n: nat)
    requires n < TWO_TO_32
    ensures InRange(n, "169.254.0.0", 16) <==> 0xA9FE_0000 <= n <= 0xA9FE_FFFF
  {
    PowersHere();
    LinkLocalBase();
    MaskIsInterval(n, "169.254.0.0", 0xA9FE_0000, 16, 0x1_0000);
  }

  lemma Private172Base()
    ensures Ipv4ToInt("172.16.0.0") == Some(0xAC10_0000)
  {
    assert "172.16.0.0" == Dotted(172, 16, 0, 0);
    BaseReads("172.16.0.0", 172, 16);
  }

  lemma Private172(n: nat)
    requires n < TWO_TO_32
    ensures InRange(n, "172.16.0.0", 12) <==> 0xAC10_0000 <= n <= 0xAC1F_FFFF
  {
    PowersHere();
    Private172Base();
    MaskIsInterval(n, "172.16.0.0", 0xAC10_0000, 12, 0x10_0000);
  }

  lemma Private192Base()
    ensures Ipv4ToInt("192.168.0.0") == Some(0xC0A8_0000)
  {
    assert "192.168.0.0" == Dotted(192, 168, 0, 0);
    BaseReads("192.168.0.0", 192, 168);
  }

  lemma Private192(n: nat)
    requires n < TWO_TO_32
    ensures InRange(n, "192.168.0.0", 16) <==> 0xC0A8_0000 <= n <= 0xC0A8_FFFF
  {
    PowersHere();
    Private192Base();
    MaskIsInterval(n, "192.168.0.0", 0xC0A8_0000, 16, 0x1_0000);
  }

  lemma MulticastBase()
    ensures Ipv4ToInt("224.0.0.0") == Some(0xE000_0000)
  {
    assert "224.0.0.0" == Dotted(224, 0, 0, 0);
    BaseReads("224.0.0.0", 224, 0);
  }

  lemma Multicast(n: nat)
    requires n < TWO_TO_32
    ensures InRange(n, "224.0.0.0", 4) <==> 0xE000_0000 <= n <= 0xEFFF_FFFF
  {
    PowersHere();
    MulticastBase();
    MaskIsInterval(n, "224.0.0.0", 0xE000_0000, 4, 0x1000_0000);
  }

  lemma ReservedBase()
    ensures Ipv4ToInt("240.0.0.0") == Some(0xF000_0000)
  {
    assert "240.0.0.0" == Dotted(240, 0, 0, 0);
    BaseReads("240.0.0.0", 240, 0);
  }

  lemma Reserved(n: nat)
    requires n < TWO_TO_32
    ensures InRange(n, "240.0.0.0", 4) <==> 0xF000_0000 <= n <= 0xFFFF_FFFF
  {
    PowersHere();
    ReservedBase();
    MaskIsInterval(n, "240.0.0.0", 0xF000_0000, 4, 0x1000_0000);
  }

  lemma Ipv4Bound(ip: string)
    requires Ipv4ToInt(ip).Some?
    ensures Ipv4ToInt(ip).value < TWO_TO_32
  {
  }

  /** The nine mask tests together are the documented intervals; what does not parse is blocked. */
  lemma BlockedIpv4Is(ip: string)
    ensures IsBlockedIpv4(ip) <==> Ipv4ToInt(ip).None? || IsForbidden(Ipv4ToInt(ip).value)
  {
    if Ipv4ToInt(ip).Some? {
      Ipv4Bound(ip);
      var n := Ipv4ToInt(ip).value;
      ThisNetwork(n);
      TenSlash8(n);
      CarrierNat(n);
      Loopback(n);
      LinkLocal(n);
      Private172(n);
      Private192(n);
      Multicast(n);
      Reserved(n);
    }
  }
}
