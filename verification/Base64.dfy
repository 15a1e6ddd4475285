// Base64 with padding, in the standard and the URL-safe alphabet (sections 4 and 5 of
// RFC 4648), and the characters of an encoding that a substring of the input decides alone.
module Base64 {
  import opened ByteStrings
  import opened Wrappers

  datatype Alphabet = Standard | UrlSafe

  const PAD: byte := 61

  type sextet = v: int | 0 <= v < 64

  function Symbol(v: sextet, a: Alphabet): (c: byte)
    ensures c != PAD && c != STAR && c < 128
  {
    if v < 26 then 65 + v
    else if v < 52 then 97 + (v - 26)
    else if v < 62 then 48 + (v - 52)
    else if v == 62 then (if a.Standard? then 43 else 45)
    else (if a.Standard? then 47 else 95)
  }

  /** One group: up to three bytes become four characters, padded if there are fewer. */
  function EncodeGroup(g: Bytes, a: Alphabet): (t: Bytes)
    requires 1 <= |g| <= 3
    ensures |t| == 4
  {
    if |g| == 1 then
      [Symbol(g[0] / 4, a), Symbol(g[0] % 4 * 16, a), PAD, PAD]
    else if |g| == 2 then
      [Symbol(g[0] / 4, a), Symbol(g[0] % 4 * 16 + g[1] / 16, a), Symbol(g[1] % 16 * 4, a), PAD]
    else
      [Symbol(g[0] / 4, a), Symbol(g[0] % 4 * 16 + g[1] / 16, a),
       Symbol(g[1] % 16 * 4 + g[2] / 64, a), Symbol(g[2] % 64, a)]
  }

  function Encode(bytes: Bytes, a: Alphabet): Bytes {
    if bytes == [] then []
    else if |bytes| <= 3 then EncodeGroup(bytes, a)
    else EncodeGroup(bytes[..3], a) + Encode(bytes[3..], a)
  }

  // ---------------------------------------------------------------- decoding

  function Value(c: byte, a: Alphabet): Option<sextet> {
    if 65 <= c <= 90 then Some(c - 65)
    else if 97 <= c <= 122 then Some(c - 97 + 26)
    else if 48 <= c <= 57 then Some(c - 48 + 52)
    else if c == (if a.Standard? then 43 else 45) then Some(62)
    else if c == (if a.Standard? then 47 else 95) then Some(63)
    else None
  }

  /** The bytes four characters stand for, unless they are not a group of base64. */
  function DecodeGroup(t: Bytes, a: Alphabet): Option<Bytes>
    requires |t| == 4
  {
    var w, x := Value(t[0], a), Value(t[1], a);
    var y, z := Value(t[2], a), Value(t[3], a);
    if w.None? || x.None? then None
    else if t[2] == PAD && t[3] == PAD then
      if x.value % 16 == 0 then Some([w.value * 4 + x.value / 16]) else None
    else if y.None? then None
    else if t[3] == PAD then
      if y.value % 4 == 0
      then Some([w.value * 4 + x.value / 16, x.value % 16 * 16 + y.value / 4])
      else None
    else if z.None? then None
    else Some([w.value * 4 + x.value / 16, x.value % 16 * 16 + y.value / 4, y.value % 4 * 64 + z.value])
  }

  function Decode(text: Bytes, a: Alphabet): Option<Bytes> {
    if text == [] then Some([])
    else if |text| < 4 then None
    else
      var group, rest := DecodeGroup(text[..4], a), Decode(text[4..], a);
      if group.None? || rest.None? || (|group.value| < 3 && |text| > 4) then None
      else Some(group.value + rest.value)
  }

  lemma ValueOfSymbol(v: sextet, a: Alphabet)
    ensures Value(Symbol(v, a), a) == Some(v)
  {
  }

  /** Four sextets put together again give the three bytes they were cut from. */
  lemma Regroup(b0: byte, b1: byte, b2: byte)
    ensures b0 / 4 * 4 + (b0 % 4 * 16 + b1 / 16) / 16 == b0
    ensures (b0 % 4 * 16 + b1 / 16) % 16 * 16 + (b1 % 16 * 4 + b2 / 64) / 4 == b1
    ensures (b1 % 16 * 4 + b2 / 64) % 4 * 64 + b2 % 64 == b2
  {
    assert (b0 % 4 * 16 + b1 / 16) / 16 == b0 % 4 && (b0 % 4 * 16 + b1 / 16) % 16 == b1 / 16;
    assert (b1 % 16 * 4 + b2 / 64) / 4 == b1 % 16 && (b1 % 16 * 4 + b2 / 64) % 4 == b2 / 64;
  }

  lemma DecodeOne(b0: byte, a: Alphabet)
    ensures DecodeGroup(EncodeGroup([b0], a), a) == Some([b0])
  {
    ValueOfSymbol(b0 / 4, a);
    ValueOfSymbol(b0 % 4 * 16, a);
    Regroup(b0, 0, 0);
  }

  lemma DecodeTwo(b0: byte, b1: byte, a: Alphabet)
    ensures DecodeGroup(EncodeGroup([b0, b1], a), a) == Some([b0, b1])
  {
    ValueOfSymbol(b0 / 4, a);
    ValueOfSymbol(b0 % 4 * 16 + b1 / 16, a);
    ValueOfSymbol(b1 % 16 * 4, a);
    Regroup(b0, b1, 0);
  }

  lemma DecodeSymbols(w: sextet, x: sextet, y: sextet, z: sextet, a: Alphabet)
    ensures DecodeGroup([Symbol(w, a), Symbol(x, a), Symbol(y, a), Symbol(z, a)], a)
         == Some([w * 4 + x / 16, x % 16 * 16 + y / 4, y % 4 * 64 + z])
  {
    ValueOfSymbol(w, a);
    ValueOfSymbol(x, a);
    ValueOfSymbol(y, a);
    ValueOfSymbol(z, a);
  }

  lemma DecodeThree(b0: byte, b1: byte, b2: byte, a: Alphabet)
    ensures DecodeGroup(EncodeGroup([b0, b1, b2], a), a) == Some([b0, b1, b2])
  {
    hide DecodeGroup, Symbol;
    DecodeSymbols(b0 / 4, b0 % 4 * 16 + b1 / 16, b1 % 16 * 4 + b2 / 64, b2 % 64, a);
    Regroup(b0, b1, b2);
  }

  lemma DecodeEncodeGroup(g: Bytes, a: Alphabet)
    requires 1 <= |g| <= 3
    ensures DecodeGroup(EncodeGroup(g, a), a) == Some(g)
  {
    if |g| == 1 {
      assert g == [g[0]];
      DecodeOne(g[0], a);
    } else if |g| == 2 {
      assert g == [g[0], g[1]];
      DecodeTwo(g[0], g[1], a);
    } else {
      assert g == [g[0], g[1], g[2]];
      DecodeThree(g[0], g[1], g[2], a);
    }
  }

  /** Decoding gives back exactly what was encoded, so no two byte strings share an encoding. */
  lemma {:induction false} DecodeEncode(bytes: Bytes, a: Alphabet)
    ensures Decode(Encode(bytes, a), a) == Some(bytes)
  {
    var text := Encode(bytes, a);
    if 0 < |bytes| <= 3 {
      DecodeEncodeGroup(bytes, a);
      assert text[..4] == text && text[4..] == [];
      assert bytes + [] == bytes;
    } else if |bytes| > 3 {
      DecodeEncodeGroup(bytes[..3], a);
      DecodeEncode(bytes[3..], a);
      assert text[..4] == EncodeGroup(bytes[..3], a) && text[4..] == Encode(bytes[3..], a);
      assert bytes == bytes[..3] + bytes[3..];
    }
  }

  // ---------------------------------------------------------------- one character at a time

  function ByteOr0(bytes: Bytes, j: nat): byte {
    if j < |bytes| then bytes[j] else 0
  }

  function Zeros(n: nat): (z: Bytes)
    ensures |z| == n
  {
    seq(n, i => 0)
  }

  /** Character `r` of the group of three bytes: six of its 24 bits. */
  function Sextet(b0: byte, b1: byte, b2: byte, r: nat): sextet
    requires r < 4
  {
    if r == 0 then b0 / 4
    else if r == 1 then b0 % 4 * 16 + b1 / 16
    else if r == 2 then b1 % 16 * 4 + b2 / 64
    else b2 % 64
  }

  /** Character `r` of group `g` of a byte string, zeros after its end. */
  function SextetOf(bytes: Bytes, g: nat, r: nat): sextet
    requires r < 4
  {
    Sextet(ByteOr0(bytes, 3 * g), ByteOr0(bytes, 3 * g + 1), ByteOr0(bytes, 3 * g + 2), r)
  }

  lemma {:induction false} EncodeLength(bytes: Bytes, a: Alphabet)
    ensures 3 * |Encode(bytes, a)| >= 4 * |bytes|
  {
    if |bytes| > 3 { EncodeLength(bytes[3..], a); }
  }

  lemma GroupAt(g: Bytes, a: Alphabet, r: nat)
    requires 1 <= |g| <= 3 && r < 4 && 6 * r < 8 * |g|
    ensures EncodeGroup(g, a)[r] == Symbol(SextetOf(g, 0, r), a)
  {
    assert ByteOr0(g, 0) == g[0];
  }

  lemma SextetShift(bytes: Bytes, g: nat, r: nat)
    requires r < 4 && 3 <= |bytes| && 1 <= g
    ensures SextetOf(bytes[3..], g - 1, r) == SextetOf(bytes, g, r)
  {
    assert 3 * (g - 1) + 3 == 3 * g;
    assert forall j: nat :: ByteOr0(bytes[3..], j) == ByteOr0(bytes, j + 3);
  }

  /** The encoding, character by character, as far as the input reaches into it. */
  lemma {:induction false} EncodeAt(bytes: Bytes, a: Alphabet, g: nat, r: nat)
    requires r < 4 && 6 * (4 * g + r) < 8 * |bytes|
    ensures 4 * g + r < |Encode(bytes, a)|
    ensures Encode(bytes, a)[4 * g + r] == Symbol(SextetOf(bytes, g, r), a)
    decreases g
  {
    EncodeLength(bytes, a);
    if |bytes| <= 3 {
      GroupAt(bytes, a, r);
    } else if g == 0 {
      GroupAt(bytes[..3], a, r);
    } else {
      EncodeAt(bytes[3..], a, g - 1, r);
      SextetShift(bytes, g, r);
    }
  }

  /** The first character, and the one past the last, that the bytes from `offset` on decide alone. */
  function FirstOwn(offset: nat): nat { (8 * offset + 5) / 6 }
  function PastLastOwn(length: nat): nat { 8 * length / 6 }

  predicate IsOwn(offset: nat, length: nat, g: nat, r: nat) {
    r < 4 && FirstOwn(offset) <= 4 * g + r < PastLastOwn(offset + length)
  }

  lemma Shifted(prefix: Bytes, secret: Bytes, suffix: Bytes, k: nat, offset: nat, j: nat)
    requires |prefix| == 3 * k + offset && offset <= j < offset + |secret|
    ensures ByteOr0(prefix + secret + suffix, 3 * k + j) == ByteOr0(Zeros(offset) + secret, j)
  {
    assert (prefix + secret + suffix)[3 * k + j] == secret[j - offset];
  }

  /** A character between them reads bytes of the secret only. */
  lemma SextetOfMiddle(prefix: Bytes, secret: Bytes, suffix: Bytes, k: nat, offset: nat, g: nat, r: nat)
    requires offset < 3 && |prefix| == 3 * k + offset && IsOwn(offset, |secret|, g, r)
    ensures SextetOf(prefix + secret + suffix, k + g, r) == SextetOf(Zeros(offset) + secret, g, r)
  {
    assert 3 * (k + g) == 3 * k + 3 * g;
    assert r <= 1 ==> offset <= 3 * g < offset + |secret|;
    assert 1 <= r <= 2 ==> offset <= 3 * g + 1 < offset + |secret|;
    assert 2 <= r ==> offset <= 3 * g + 2 < offset + |secret|;
    if r <= 1 { Shifted(prefix, secret, suffix, k, offset, 3 * g); }
    if 1 <= r <= 2 { Shifted(prefix, secret, suffix, k, offset, 3 * g + 1); }
    if 2 <= r { Shifted(prefix, secret, suffix, k, offset, 3 * g + 2); }
  }

  /** Character by character, the encoding of the whole reads as that of the shifted secret. */
  lemma SameCharacter(prefix: Bytes, secret: Bytes, suffix: Bytes, a: Alphabet,
                      k: nat, offset: nat, g: nat, r: nat)
    requires offset < 3 && |prefix| == 3 * k + offset && IsOwn(offset, |secret|, g, r)
    ensures 4 * (k + g) + r < |Encode(prefix + secret + suffix, a)|
    ensures 4 * g + r < |Encode(Zeros(offset) + secret, a)|
    ensures Encode(prefix + secret + suffix, a)[4 * (k + g) + r]
         == Encode(Zeros(offset) + secret, a)[4 * g + r]
  {
    hide Encode, Symbol, SextetOf;
    EncodeAt(Zeros(offset) + secret, a, g, r);
    EncodeAt(prefix + secret + suffix, a, k + g, r);
    SextetOfMiddle(prefix, secret, suffix, k, offset, g, r);
  }

  /** What `encoded_forms` keeps for a secret that starts at `offset` within a group. */
  function Fragment(secret: Bytes, offset: nat, a: Alphabet): (f: Bytes)
    requires offset < 3 && FirstOwn(offset) <= PastLastOwn(offset + |secret|)
    ensures |f| == PastLastOwn(offset + |secret|) - FirstOwn(offset)
  {
    var shifted := Zeros(offset) + secret;
    EncodeLength(shifted, a);
    Encode(shifted, a)[FirstOwn(offset)..PastLastOwn(offset + |secret|)]
  }

  predicate Matches(whole: Bytes, part: Bytes, shift: nat, i: nat) {
    i < |part| && i + shift < |whole| && part[i] == whole[i + shift]
  }

  lemma SameAt(prefix: Bytes, secret: Bytes, suffix: Bytes, a: Alphabet, k: nat, offset: nat, i: nat)
    requires offset < 3 && |prefix| == 3 * k + offset
    requires FirstOwn(offset) <= i < PastLastOwn(offset + |secret|)
    ensures Matches(Encode(prefix + secret + suffix, a), Encode(Zeros(offset) + secret, a), 4 * k, i)
  {
    var g, r := i / 4, i % 4;
    assert 4 * (k + g) + r == i + 4 * k && 4 * g + r == i;
    SameCharacter(prefix, secret, suffix, a, k, offset, g, r);
  }

  lemma SliceOccurs(whole: Bytes, part: Bytes, first: nat, past: nat, shift: nat)
    requires first < past <= |part|
    requires forall i :: first <= i < past ==> Matches(whole, part, shift, i)
    ensures Contains(whole, part[first..past])
  {
    assert Matches(whole, part, shift, past - 1);
    var slice := part[first..past];
    var at := first + shift;
    forall i | 0 <= i < |slice| ensures whole[at + i] == slice[i] {
      assert Matches(whole, part, shift, first + i);
    }
    assert whole[at..at + |slice|] == slice;
    assert OccursAt(whole, slice, at);
  }

  /** The fragment for the prefix's alignment stands in the encoding, whatever surrounds the secret. */
  lemma FragmentOccurs(prefix: Bytes, secret: Bytes, suffix: Bytes, a: Alphabet, k: nat, offset: nat)
    requires offset < 3 && |prefix| == 3 * k + offset
    requires FirstOwn(offset) < PastLastOwn(offset + |secret|)
    ensures Contains(Encode(prefix + secret + suffix, a), Fragment(secret, offset, a))
  {
    var whole := Encode(prefix + secret + suffix, a);
    var part := Encode(Zeros(offset) + secret, a);
    var first, past := FirstOwn(offset), PastLastOwn(offset + |secret|);
    EncodeLength(Zeros(offset) + secret, a);
    forall i | first <= i < past ensures Matches(whole, part, 4 * k, i) {
      SameAt(prefix, secret, suffix, a, k, offset, i);
    }
    SliceOccurs(whole, part, first, past, 4 * k);
  }
}
