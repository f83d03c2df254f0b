/** The PAT secret encoder (17 random bytes to 27 base-32 characters) and the token parser. */
module TokenCodec {
  import opened Base
  import opened Bits

  type Byte = n: nat | n < 256

  const TOKEN_NAMESPACE := "sam_pat_"
  const SECRET_LENGTH := 27
  const PREFIX_LENGTH := 12
  const CROCKFORD_ALPHABET := "0123456789ABCDEFGHJKMNPQRSTVWXYZ"
  const RANDOM_BYTES := 17

  // ---------------------------------------------------------------------------
  // 32-bit buffer operations
  // ---------------------------------------------------------------------------

  /** `(buffer << 8) | byte`: the low eight bits of the shifted value are zero, so "or" adds. */
  function ShiftIn(buffer: int, byte: Byte): int {
    ToInt32(buffer * 256) + byte
  }

  /** `(buffer >>> bits) & 0x1f`. */
  function FiveBits(buffer: int, bits: nat): (d: nat)
    ensures d < 32
  {
    ToUint32(buffer) / Pow2(bits) % 32
  }

  // ---------------------------------------------------------------------------
  // The encoder
  // ---------------------------------------------------------------------------

  /** The bytes read as one big-endian number. */
  function Number(bytes: seq<Byte>): nat {
    if bytes == [] then 0 else 256 * Number(bytes[..|bytes| - 1]) + bytes[|bytes| - 1]
  }

  /** Base-32 digit `i` of the top 135 of the 136 input bits, most significant first. */
  function DigitAt(bytes: seq<Byte>, i: nat): (d: nat)
    requires |bytes| == RANDOM_BYTES && i < SECRET_LENGTH
    ensures d < 32
  {
    Number(bytes) / Pow2(131 - 5 * i) % 32
  }

  function Secret(bytes: seq<Byte>): string
    requires |bytes| == RANDOM_BYTES
  {
    seq(SECRET_LENGTH, i requires 0 <= i < SECRET_LENGTH => CROCKFORD_ALPHABET[DigitAt(bytes, i)])
  }

  /** The characters emitted after `k` bytes are the leading digits of what was read. */
  ghost predicate Emitted(bytes: seq<Byte>, k: nat, bits: nat, out: string)
    requires k <= |bytes|
  {
    && 5 * |out| + bits == 8 * k
    && forall j | 0 <= j < |out| ::
         out[j] == CROCKFORD_ALPHABET[Number(bytes[..k]) / Pow2(8 * k - 5 * (j + 1)) % 32]
  }

  method GenerateSecret(bytes: seq<Byte>) returns (out: string)
    requires |bytes| == RANDOM_BYTES
    ensures out == Secret(bytes)
  {
    var bits, buffer := 0, 0;
    out := "";
    var k := 0;
    while k < |bytes|
      invariant 0 <= k <= |bytes|
      invariant 0 <= bits && |out| <= SECRET_LENGTH
      invariant Emitted(bytes, k, bits, out)
      invariant k < |bytes| ==> bits < 5
      invariant k == |bytes| ==> |out| == SECRET_LENGTH
      invariant ToUint32(buffer) == Number(bytes[..k]) % TWO_TO_32
    {
      ReadByte(bytes, k, buffer, bits, out);
      buffer := ShiftIn(buffer, bytes[k]);
      bits := bits + 8;
      k := k + 1;
      while bits >= 5 && |out| < SECRET_LENGTH
        invariant 0 <= bits <= 12 && |out| <= SECRET_LENGTH
        invariant Emitted(bytes, k, bits, out)
      {
        Emit(bytes, k, buffer, bits, out);
        bits := bits - 5;
        var index := FiveBits(buffer, bits);
        out := out + [CROCKFORD_ALPHABET[index]];
      }
      if |out| == SECRET_LENGTH {
        break;
      }
    }
    AllEmitted(bytes, bits, out);
  }

  /** The character taken from the buffer is the next digit of the number read. */
  lemma Emit(bytes: seq<Byte>, k: nat, buffer: int, bits: nat, out: string)
    requires k <= |bytes| && 5 <= bits <= 12 && Emitted(bytes, k, bits, out)
    requires ToUint32(buffer) == Number(bytes[..k]) % TWO_TO_32
    ensures Emitted(bytes, k, bits - 5, out + [CROCKFORD_ALPHABET[FiveBits(buffer, bits - 5)]])
  {
    WindowIsExact(Number(bytes[..k]), bits - 5);
  }

  lemma AllEmitted(bytes: seq<Byte>, bits: nat, out: string)
    requires |bytes| == RANDOM_BYTES && |out| == SECRET_LENGTH && Emitted(bytes, RANDOM_BYTES, bits, out)
    ensures out == Secret(bytes)
  {
    assert bytes[..RANDOM_BYTES] == bytes;
  }

  /** Reading a byte shifts the number read by eight bits, with 32-bit wrap-around in the buffer. */
  lemma ReadByte(bytes: seq<Byte>, k: nat, buffer: int, bits: nat, out: string)
    requires k < |bytes| && Emitted(bytes, k, bits, out)
    requires ToUint32(buffer) == Number(bytes[..k]) % TWO_TO_32
    ensures Emitted(bytes, k + 1, bits + 8, out)
    ensures ToUint32(ShiftIn(buffer, bytes[k])) == Number(bytes[..k + 1]) % TWO_TO_32
  {
    var n := Number(bytes[..k]);
    assert bytes[..k + 1][..k] == bytes[..k];
    assert Number(bytes[..k + 1]) == 256 * n + bytes[k];
    forall j | 0 <= j < |out|
      ensures out[j] == CROCKFORD_ALPHABET[Number(bytes[..k + 1]) / Pow2(8 * (k + 1) - 5 * (j + 1)) % 32]
    {
      ShiftByte(n, bytes[k], 8 * k - 5 * (j + 1));
      assert 8 * (k + 1) - 5 * (j + 1) == 8 * k - 5 * (j + 1) + 8;
    }
    BufferWraps(buffer, n, bytes[k]);
  }

  lemma BufferWraps(buffer: int, n: nat, b: Byte)
    requires ToUint32(buffer) == n % TWO_TO_32
    ensures ToUint32(ShiftIn(buffer, b)) == (256 * n + b) % TWO_TO_32
  {
    var m := buffer / TWO_TO_32 - n / TWO_TO_32;
    assert buffer == n + TWO_TO_32 * m;
    SameWord(buffer * 256 + b, 256 * n + b, 256 * m);
    var y := buffer * 256;
    var lost := if ToUint32(y) >= 0x8000_0000 then y / TWO_TO_32 + 1 else y / TWO_TO_32;
    SameWord(ToInt32(y) + b, y + b, -lost);
  }

  lemma SameWord(x: int, y: int, m: int)
    requires x == y + TWO_TO_32 * m
    ensures ToUint32(x) == ToUint32(y)
  {
  }

  lemma ShiftByte(n: nat, b: Byte, e: nat)
    ensures (256 * n + b) / Pow2(e + 8) == n / Pow2(e)
  {
    SmallPowers();
    DropByte(n, b);
    DivTwice(256 * n + b, 8, e);
  }

  lemma DropByte(n: nat, b: Byte)
    ensures (256 * n + b) / 256 == n
  {
  }

  /** Only the low 12 bits of the buffer are looked at, so wrapping at 32 bits loses nothing. */
  lemma WindowIsExact(n: nat, bits: nat)
    requires bits <= 7
    ensures n % TWO_TO_32 / Pow2(bits) % 32 == n / Pow2(bits) % 32
  {
    PowAdds(bits, 32 - bits);
    PowAdds(5, 27 - bits);
    FiveBitsWide();
    WordSize();
    HighPart(n, Pow2(bits), Pow2(27 - bits), n / TWO_TO_32, n % TWO_TO_32);
  }

  lemma HighPart(n: nat, d: nat, w: nat, q: nat, r: nat)
    requires d > 0 && n == (d * (32 * w)) * q + r
    ensures n / d % 32 == r / d % 32
  {
    Associate(d, 32 * w, q);
    Associate(32, w, q);
    AddMultiple(r, d, 32 * (w * q));
    AddMultiple32(r / d, w * q);
  }

  lemma AddMultiple32(r: nat, m: nat)
    ensures (32 * m + r) % 32 == r % 32
  {
  }

  // ---------------------------------------------------------------------------
  // Collisions
  // ---------------------------------------------------------------------------

  /** Two byte strings that differ at most in the last bit of the last byte. */
  predicate SameButLastBit(a: seq<Byte>, b: seq<Byte>)
    requires |a| == RANDOM_BYTES && |b| == RANDOM_BYTES
  {
    a[..16] == b[..16] && a[16] / 2 == b[16] / 2
  }

  /** The encoder drops the last random bit and nothing else. */
  lemma SecretCollision(a: seq<Byte>, b: seq<Byte>)
    requires |a| == RANDOM_BYTES && |b| == RANDOM_BYTES
    ensures Secret(a) == Secret(b) <==> SameButLastBit(a, b)
  {
    HalfNumber(a);
    HalfNumber(b);
    if SameButLastBit(a, b) {
      SameHalfSameSecret(a, b);
    }
    if Secret(a) == Secret(b) {
      SameSecretSameHalf(a, b);
      NumberInjective(a[..16], b[..16]);
    }
  }

  lemma SameHalfSameSecret(a: seq<Byte>, b: seq<Byte>)
    requires |a| == RANDOM_BYTES && |b| == RANDOM_BYTES && Number(a) / 2 == Number(b) / 2
    ensures Secret(a) == Secret(b)
  {
    forall i | 0 <= i < SECRET_LENGTH ensures DigitAt(a, i) == DigitAt(b, i) {
      DigitOfHalf(a, i);
      DigitOfHalf(b, i);
    }
  }

  lemma SameSecretSameHalf(a: seq<Byte>, b: seq<Byte>)
    requires |a| == RANDOM_BYTES && |b| == RANDOM_BYTES && Secret(a) == Secret(b)
    ensures Number(a) / 2 == Number(b) / 2
  {
    forall i | 0 <= i < SECRET_LENGTH ensures Number(a) / 2 / Pow2(5 * i) % 32 == Number(b) / 2 / Pow2(5 * i) % 32 {
      DigitOfHalf(a, 26 - i);
      DigitOfHalf(b, 26 - i);
      SameDigit(a, b, 26 - i);
    }
    HalfBound(a);
    HalfBound(b);
    DigitsDetermine(Number(a) / 2, Number(b) / 2, SECRET_LENGTH);
  }

  lemma SameDigit(a: seq<Byte>, b: seq<Byte>, i: nat)
    requires |a| == RANDOM_BYTES && |b| == RANDOM_BYTES && Secret(a) == Secret(b) && i < SECRET_LENGTH
    ensures DigitAt(a, i) == DigitAt(b, i)
  {
    assert Secret(a)[i] == Secret(b)[i];
    AlphabetInjective(DigitAt(a, i), DigitAt(b, i));
  }

  lemma HalfBound(a: seq<Byte>)
    requires |a| == RANDOM_BYTES
    ensures Number(a) / 2 < Pow2(5 * SECRET_LENGTH)
  {
    NumberBound(a);
    PowAdds(1, 135);
    SmallPowers();
  }

  lemma AlphabetAscends(d: nat)
    requires d < 31
    ensures CROCKFORD_ALPHABET[d] < CROCKFORD_ALPHABET[d + 1]
  {
  }

  lemma {:induction false} AlphabetOrder(d: nat, e: nat)
    requires d < e < 32
    ensures CROCKFORD_ALPHABET[d] < CROCKFORD_ALPHABET[e]
    decreases e
  {
    AlphabetAscends(e - 1);
    if d < e - 1 {
      AlphabetOrder(d, e - 1);
    }
  }

  lemma AlphabetInjective(d: nat, e: nat)
    requires d < 32 && e < 32 && CROCKFORD_ALPHABET[d] == CROCKFORD_ALPHABET[e]
    ensures d == e
  {
    if d < e {
      AlphabetOrder(d, e);
    } else if e < d {
      AlphabetOrder(e, d);
    }
  }

  lemma HalfNumber(a: seq<Byte>)
    requires |a| == RANDOM_BYTES
    ensures Number(a) / 2 == 128 * Number(a[..16]) + a[16] / 2
  {
  }

  lemma DigitOfHalf(a: seq<Byte>, i: nat)
    requires |a| == RANDOM_BYTES && i < SECRET_LENGTH
    ensures DigitAt(a, i) == Number(a) / 2 / Pow2(5 * (26 - i)) % 32
  {
    DivTwice(Number(a), 1, 5 * (26 - i));
    assert Pow2(1) == 2;
  }

  lemma {:induction false} NumberBound(a: seq<Byte>)
    ensures Number(a) < Pow2(8 * |a|)
  {
    if a != [] {
      NumberBound(a[..|a| - 1]);
      PowAdds(8, 8 * (|a| - 1));
      assert Pow2(8) == 256;
    }
  }

  lemma {:induction false} NumberInjective(a: seq<Byte>, b: seq<Byte>)
    requires |a| == |b| && Number(a) == Number(b)
    ensures a == b
  {
    if a != [] {
      NumberInjective(a[..|a| - 1], b[..|b| - 1]);
      assert a == a[..|a| - 1] + [a[|a| - 1]] && b == b[..|b| - 1] + [b[|b| - 1]];
    }
  }

  /** Agreement on all digits passes on to what is left without the lowest. */
  lemma HigherDigits(m: nat, n: nat, len: nat)
    requires len > 0 && forall i | 0 <= i < len :: m / Pow2(5 * i) % 32 == n / Pow2(5 * i) % 32
    ensures m % 32 == n % 32
    ensures forall i | 0 <= i < len - 1 :: m / 32 / Pow2(5 * i) % 32 == n / 32 / Pow2(5 * i) % 32
  {
    assert m / Pow2(5 * 0) % 32 == n / Pow2(5 * 0) % 32;
    assert Pow2(0) == 1;
    FiveBitsWide();
    forall i | 0 <= i < len - 1 ensures m / 32 / Pow2(5 * i) % 32 == n / 32 / Pow2(5 * i) % 32 {
      DivTwice(m, 5, 5 * i);
      DivTwice(n, 5, 5 * i);
      assert m / Pow2(5 * (i + 1)) % 32 == n / Pow2(5 * (i + 1)) % 32;
    }
  }

  lemma FiveBitsWide()
    ensures Pow2(5) == 32
  {
    SmallPowers();
    PowAdds(1, 4);
  }

  lemma {:induction false} DigitsDetermine(m: nat, n: nat, len: nat)
    requires m < Pow2(5 * len) && n < Pow2(5 * len)
    requires forall i | 0 <= i < len :: m / Pow2(5 * i) % 32 == n / Pow2(5 * i) % 32
    ensures m == n
  {
    if len > 0 {
      HigherDigits(m, n, len);
      FiveBitsWide();
      PowAdds(5, 5 * (len - 1));
      DigitsDetermine(m / 32, n / 32, len - 1);
    }
  }

  // ---------------------------------------------------------------------------
  // The parser
  // ---------------------------------------------------------------------------

  datatype Parsed = Parsed(secret: string, prefix: string)

  predicate InAlphabet(c: char) {
    c in CROCKFORD_ALPHABET
  }

  predicate AllInAlphabet(s: string) {
    forall i | 0 <= i < |s| :: InAlphabet(s[i])
  }

  /** What a raw token stands for, if it is well formed. */
  function TokenParts(raw: string): Option<Parsed> {
    if TOKEN_NAMESPACE <= raw && |raw| == |TOKEN_NAMESPACE| + SECRET_LENGTH
       && AllInAlphabet(raw[|TOKEN_NAMESPACE|..])
    then Some(Parsed(raw[|TOKEN_NAMESPACE|..], raw[|TOKEN_NAMESPACE|..|TOKEN_NAMESPACE| + PREFIX_LENGTH]))
    else None
  }

  lemma PrefixOf(raw: string)
    requires |raw| >= |TOKEN_NAMESPACE| + PREFIX_LENGTH
    ensures raw[|TOKEN_NAMESPACE|..][..PREFIX_LENGTH] == raw[|TOKEN_NAMESPACE|..|TOKEN_NAMESPACE| + PREFIX_LENGTH]
  {
  }

  method ParseToken(raw: string) returns (r: Option<Parsed>)
    ensures r == TokenParts(raw)
  {
    if !(TOKEN_NAMESPACE <= raw) {
      return None;
    }
    var secret := raw[|TOKEN_NAMESPACE|..];
    if |secret| != SECRET_LENGTH {
      return None;
    }
    var i := 0;
    while i < |secret|
      invariant 0 <= i <= |secret|
      invariant forall j | 0 <= j < i :: InAlphabet(secret[j])
    {
      if !InAlphabet(secret[i]) {
        return None;
      }
      i := i + 1;
    }
    PrefixOf(raw);
    return Some(Parsed(secret, secret[..PREFIX_LENGTH]));
  }

  /** A minted token parses back to its secret and prefix, and no other token parses to that secret. */
  lemma ParseRecovers(bytes: seq<Byte>, raw: string)
    requires |bytes| == RANDOM_BYTES
    ensures TokenParts(raw) == Some(Parsed(Secret(bytes), Secret(bytes)[..PREFIX_LENGTH]))
       <==> raw == TOKEN_NAMESPACE + Secret(bytes)
  {
    var s := Secret(bytes);
    forall i | 0 <= i < SECRET_LENGTH ensures InAlphabet(s[i]) {
      assert s[i] == CROCKFORD_ALPHABET[DigitAt(bytes, i)];
    }
    if raw == TOKEN_NAMESPACE + s {
      assert raw[|TOKEN_NAMESPACE|..] == s;
      assert raw[|TOKEN_NAMESPACE|..|TOKEN_NAMESPACE| + PREFIX_LENGTH] == s[..PREFIX_LENGTH];
    }
    if TOKEN_NAMESPACE <= raw {
      assert raw == raw[..|TOKEN_NAMESPACE|] + raw[|TOKEN_NAMESPACE|..];
    }
  }
}
