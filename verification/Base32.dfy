/**
 The authenticator secret (server/src/iologindata.cpp): decodeSecret reads base32 text through a
 32-bit buffer that wraps. It is proved against bit strings, and against the unpadded encoding
 of section 6 of RFC 4648.
 */
module Base32 {
  import opened Basics

  type Bit = b: int | 0 <= b < 2

  const TWO_32: nat := 0x1_0000_0000

  function Pow2(n: nat): (r: nat)
    ensures r >= 1
  {
    if n == 0 then 1 else 2 * Pow2(n - 1)
  }

  /** The lowest `k` bits of a number, highest first. */
  function Bits(v: nat, k: nat): (r: seq<Bit>)
    ensures |r| == k
  {
    if k == 0 then [] else Bits(v / 2, k - 1) + [v % 2]
  }

  lemma {:induction false} BitsJoin(a: nat, b: nat, j: nat, k: nat)
    requires b < Pow2(k)
    ensures Bits(a * Pow2(k) + b, j + k) == Bits(a, j) + Bits(b, k)
    decreases k
  {
    if k == 0 {
      assert a * Pow2(0) + b == a;
    } else {
      var p := Pow2(k - 1);
      assert a * (2 * p) == 2 * (a * p);
      assert (2 * (a * p) + b) / 2 == a * p + b / 2 && (2 * (a * p) + b) % 2 == b % 2;
      BitsJoin(a, b / 2, j, k - 1);
    }
  }

  function Mod(v: nat, p: nat): nat
    requires p > 0
  {
    v % p
  }

  lemma Split(v: nat, p: nat) returns (q: nat)
    requires p > 0
    ensures v == p * q + Mod(v, p) && Mod(v, p) < p
  {
    q := v / p;
  }

  /** The lowest `n` bits of a number, as a number. */
  function Cut(v: nat, n: nat): nat
  {
    Mod(v, Pow2(n))
  }

  lemma {:induction false} BitsCut(v: nat, n: nat, k: nat)
    requires k <= n
    ensures Bits(Cut(v, n), k) == Bits(v, k)
  {
    hide Mod;
    if k > 0 {
      HalfOfRest(v, Pow2(n - 1), Pow2(n));
      BitsCut(v / 2, n - 1, k - 1);
    }
  }

  lemma HalfOfRest(v: nat, p: nat, w: nat)
    requires p > 0 && w == 2 * p
    ensures Mod(v, w) / 2 == Mod(v / 2, p) && Mod(v, w) % 2 == v % 2
  {
    hide Mod;
    var q := Split(v, w);
    Doubled(p, q, w);
    Evenly(v, p * q, Mod(v, w));
    Remainder(v / 2, p, q, Mod(v, w) / 2);
  }

  lemma Doubled(p: nat, q: nat, w: nat)
    requires w == 2 * p
    ensures w * q == 2 * (p * q) && p * q >= 0
  {
  }

  lemma Evenly(v: nat, t: nat, r: nat)
    requires v == 2 * t + r
    ensures v / 2 == t + r / 2 && v % 2 == r % 2
  {
  }

  lemma Remainder(v: nat, p: nat, q: nat, r: nat)
    requires p > 0 && v == p * q + r && r < p
    ensures Mod(v, p) == r
  {
    hide Mod;
    var q' := Split(v, p);
    Distribute(p, q, q');
    Distribute(p, q', q);
    if q > q' {
      AtLeast(p, q - q');
    } else if q' > q {
      AtLeast(p, q' - q);
    }
  }

  lemma Distribute(p: nat, a: nat, b: nat)
    ensures p * (a - b) == p * a - p * b
  {
  }

  lemma AtLeast(p: nat, d: nat)
    requires d >= 1
    ensures p * d >= p
  {
  }

  lemma {:induction false} BitsUnique(a: nat, b: nat, k: nat)
    requires a < Pow2(k) && b < Pow2(k) && Bits(a, k) == Bits(b, k)
    ensures a == b
    decreases k
  {
    if k > 0 {
      assert Bits(a, k)[k - 1] == a % 2 && Bits(b, k)[k - 1] == b % 2;
      assert Bits(a, k)[..k - 1] == Bits(a / 2, k - 1) && Bits(b, k)[..k - 1] == Bits(b / 2, k - 1);
      BitsUnique(a / 2, b / 2, k - 1);
    }
  }

  predicate InAlphabet(ch: char)
  {
    'A' <= ch <= 'Z' || '2' <= ch <= '7'
  }

  /** The five-bit value of a character, as the source computes it. */
  function Digit(ch: char): (v: nat)
    requires InAlphabet(ch)
    ensures v < 32
  {
    if 'A' <= ch <= 'Z' then (ch as int) % 32 - 1 else ch as int - 24
  }

  /** Section 6 of RFC 4648: A to Z stand for 0 to 25 and 2 to 7 for 26 to 31. */
  function Symbol(v: nat): (ch: char)
    requires v < 32
    ensures InAlphabet(ch)
  {
    if v < 26 then (v + 65) as char else (v + 24) as char
  }

  lemma DigitOfSymbol(v: nat)
    requires v < 32
    ensures Digit(Symbol(v)) == v
  {
  }

  predicate Clean(secret: string)
  {
    forall ch <- secret :: InAlphabet(ch)
  }

  /** The bit string a secret spells, five bits a character. */
  function SecretBits(secret: string): (r: seq<Bit>)
    requires Clean(secret)
    ensures |r| == 5 * |secret|
  {
    if secret == [] then [] else SecretBits(secret[..|secret| - 1]) + Bits(Digit(secret[|secret| - 1]), 5)
  }

  function BytesBits(key: seq<Byte>): (r: seq<Bit>)
    ensures |r| == 8 * |key|
  {
    if key == [] then [] else BytesBits(key[..|key| - 1]) + Bits(key[|key| - 1], 8)
  }

  /** The buffer after one more digit; the shift drops what leaves the 32 bits. */
  function Shifted(buffer: nat, v: nat): nat
  {
    buffer * 32 % TWO_32 + v
  }

  lemma ShiftedBits(buffer: nat, v: nat, left: nat)
    requires v < 32 && left < 8
    ensures Bits(Shifted(buffer, v), left + 5) == Bits(buffer, left) + Bits(v, 5)
  {
    assert Pow2(5) == 32 && Pow2(32) == TWO_32 by {
      Powers();
    }
    WrapShift(buffer);
    var low := buffer % 0x800_0000;
    assert Shifted(buffer, v) == low * Pow2(5) + v;
    BitsJoin(low, v, left, 5);
    assert 0x800_0000 == Pow2(27) by {
      Powers();
    }
    BitsCut(buffer, 27, left);
  }

  lemma Powers()
    ensures Pow2(3) == 8 && Pow2(5) == 32 && Pow2(8) == 256 && Pow2(27) == 0x800_0000 && Pow2(32) == TWO_32
  {
    assert Pow2(8) == 256;
    assert Pow2(16) == 0x1_0000 by {
      assert Pow2(12) == 0x1000;
    }
    assert Pow2(24) == 0x100_0000 by {
      assert Pow2(20) == 0x10_0000;
    }
    assert Pow2(27) == 0x800_0000;
    assert Pow2(32) == TWO_32 by {
      assert Pow2(29) == 0x2000_0000;
    }
  }

  lemma WrapShift(buffer: nat)
    ensures buffer * 32 % TWO_32 == buffer % 0x800_0000 * 32
  {
  }

  lemma Divided(a: nat, p: nat)
    requires p > 0
    ensures a == a / p * p + a % p && 0 <= a / p && 0 <= a % p < p
  {
  }

  lemma TakeByte(buffer: nat, left: nat)
    requires left < 8
    ensures Bits(buffer, left + 8) == Bits(buffer / Pow2(left) % 256, 8) + Bits(buffer, left)
  {
    Powers();
    var p := Pow2(left);
    var high := buffer / p;
    Divided(buffer, p);
    BitsJoin(high, buffer % p, 8, left);
    BitsCut(high, 8, 8);
    BitsCut(buffer, left, left);
    assert 8 + left == left + 8;
  }

  /** What decoding means: the whole bytes at the front of the secret's bits. */
  ghost predicate Decodes(secret: string, key: seq<Byte>)
  {
    if !Clean(secret) then key == []
    else |key| == 5 * |secret| / 8 && BytesBits(key) == SecretBits(secret)[..8 * |key|]
  }

  lemma NoBits()
    ensures BytesBits([]) == [] && Bits(0, 0) == [] && SecretBits([]) == []
  {
  }

  lemma KeyAppend(key: seq<Byte>, byte: Byte)
    ensures BytesBits(key + [byte]) == BytesBits(key) + Bits(byte, 8)
  {
    hide Bits;
    assert (key + [byte])[..|key|] == key;
  }

  /** decodeSecret: the bytes spelled by a clean secret, and nothing for any other. */
  method DecodeSecret(secret: string) returns (key: seq<Byte>)
    ensures Decodes(secret, key)
  {
    hide Bits, Shifted, Pow2, SecretBits, BytesBits, Digit, InAlphabet;
    NoBits();
    key := [];
    var buffer: nat, left: nat, k: nat := 0, 0, 0;
    while k < |secret|
      invariant k <= |secret| && Clean(secret[..k]) && left < 8
      invariant BytesBits(key) + Bits(buffer, left) == SecretBits(secret[..k])
    {
      var ch := secret[k];
      assert ch in secret;
      if !InAlphabet(ch) {
        return [];
      }
      assert secret[..k + 1] == secret[..k] + [ch];
      SecretAppend(secret[..k], ch);
      Assoc(BytesBits(key), Bits(buffer, left), Bits(Digit(ch), 5));
      ShiftedBits(buffer, Digit(ch), left);
      buffer := Shifted(buffer, Digit(ch));
      left := left + 5;
      if left >= 8 {
        left := left - 8;
        TakeByte(buffer, left);
        var byte: Byte := buffer / Pow2(left) % 256;
        KeyAppend(key, byte);
        Assoc(BytesBits(key), Bits(byte, 8), Bits(buffer, left));
        key := key + [byte];
      }
      k := k + 1;
    }
    assert secret[..k] == secret;
  }

  // ----- The encoding of section 6 of RFC 4648, without padding characters -----

  /** Where the last group of five starts. */
  function LastGroup(length: nat): (n: nat)
    requires length > 0
    ensures n < length <= n + 5 && (n + 4) / 5 + 1 == (length + 4) / 5 && (n + 4) / 5 * 5 == n
  {
    5 * ((length - 1) / 5)
  }

  /** The characters of a bit string, the last group filled up with zeros. */
  function Encode(bits: seq<Bit>): (r: string)
    ensures Clean(r) && |r| == (|bits| + 4) / 5
  {
    if bits == [] then []
    else
      var n := LastGroup(|bits|);
      Encode(bits[..n]) + [Symbol(Value(Filled(bits[n..])))]
  }

  function Filled(group: seq<Bit>): (r: seq<Bit>)
    requires |group| <= 5
    ensures |r| == 5 && r[..|group|] == group && forall k | |group| <= k < 5 :: r[k] == 0
  {
    group + [0, 0, 0, 0, 0][|group|..]
  }

  function Value(group: seq<Bit>): (v: nat)
    ensures v < Pow2(|group|)
  {
    if group == [] then 0 else 2 * Value(group[..|group| - 1]) + group[|group| - 1]
  }

  lemma {:induction false} ValueBits(group: seq<Bit>)
    ensures Bits(Value(group), |group|) == group
    decreases |group|
  {
    if group != [] {
      ValueBits(group[..|group| - 1]);
    }
  }

  lemma SecretAppend(front: string, ch: char)
    requires Clean(front) && InAlphabet(ch)
    ensures Clean(front + [ch]) && SecretBits(front + [ch]) == SecretBits(front) + Bits(Digit(ch), 5)
  {
    hide Bits, Digit;
    assert (front + [ch])[..|front|] == front;
  }

  lemma {:induction false} EncodedBits(bits: seq<Bit>)
    ensures bits <= SecretBits(Encode(bits)) && |SecretBits(Encode(bits))| < |bits| + 5
    ensures forall k | |bits| <= k < |SecretBits(Encode(bits))| :: SecretBits(Encode(bits))[k] == 0
    decreases |bits|
  {
    hide Bits, Pow2, Value, Digit, Symbol, SecretBits, LastGroup;
    if bits != [] {
      Powers();
      var n := LastGroup(|bits|);
      var front, group := Encode(bits[..n]), Filled(bits[n..]);
      EncodedBits(bits[..n]);
      assert SecretBits(front) == bits[..n];
      ValueBits(group);
      DigitOfSymbol(Value(group));
      SecretAppend(front, Symbol(Value(group)));
      assert bits == bits[..n] + bits[n..];
      assert SecretBits(Encode(bits)) == bits[..n] + group;
    }
  }

  lemma SameHalves(a: seq<Bit>, c: seq<Bit>, b: seq<Bit>, d: seq<Bit>)
    requires |a| == |b| && a + c == b + d
    ensures a == b && c == d
  {
    assert a == (a + c)[..|a|] && b == (b + d)[..|b|];
    assert c == (a + c)[|a|..] && d == (b + d)[|b|..];
  }

  lemma {:induction false} BytesUnique(a: seq<Byte>, b: seq<Byte>)
    requires |a| == |b| && BytesBits(a) == BytesBits(b)
    ensures a == b
    decreases |a|
  {
    if a != [] {
      hide Bits, Pow2;
      Powers();
      var n := |a| - 1;
      SameHalves(BytesBits(a[..n]), Bits(a[n], 8), BytesBits(b[..n]), Bits(b[n], 8));
      BytesUnique(a[..n], b[..n]);
      BitsUnique(a[n], b[n], 8);
      assert a == a[..n] + [a[n]] && b == b[..n] + [b[n]];
    }
  }

  /** Decoding an encoded key gives back the key, for every byte string. */
  lemma {:induction false} DecodeEncode(bytes: seq<Byte>, key: seq<Byte>)
    requires Decodes(Encode(BytesBits(bytes)), key)
    ensures key == bytes
  {
    var bits := BytesBits(bytes);
    EncodedBits(bits);
    assert |key| == |bytes|;
    assert SecretBits(Encode(bits))[..8 * |key|] == bits;
    BytesUnique(key, bytes);
  }

  /** Keys decode to the same secret only as far as whole bytes go: what is left over is dropped. */
  lemma LeftOverBits(secret: string, key: seq<Byte>)
    requires Clean(secret) && Decodes(secret, key)
    ensures 0 <= |SecretBits(secret)| - |BytesBits(key)| < 8
  {
  }
}
