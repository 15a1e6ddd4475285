// The forms other than itself in which a secret reaches output: base64 in both alphabets,
// alone or inside a longer encoding, percent-encoding, spaces as `+`, JSON escapes and hex.
module EncodedForms {
  import opened ByteStrings
  import opened Base64
  import opened Wrappers

  const MIN_ENCODED_LEN := 8

  // ---------------------------------------------------------------- byte by byte encodings

  function HexLower(v: int): byte
    requires 0 <= v < 16
  {
    if v < 10 then 48 + v else 97 + (v - 10)
  }

  function HexUpper(v: int): byte
    requires 0 <= v < 16
  {
    if v < 10 then 48 + v else 65 + (v - 10)
  }

  datatype ByteCode = Percent | PlusForSpace | JsonEscape | Hex

  predicate IsUnreserved(b: byte) {
    48 <= b <= 57 || 65 <= b <= 90 || 97 <= b <= 122 || b == 45 || b == 46 || b == 95 || b == 126
  }

  /** How each byte-wise encoding writes one byte. */
  function EncodeByte(b: byte, code: ByteCode): Bytes {
    match code
    case Percent => if IsUnreserved(b) then [b] else [37, HexUpper(b / 16), HexUpper(b % 16)]
    case PlusForSpace => if b == 32 then [43] else [b]
    case Hex => [HexLower(b / 16), HexLower(b % 16)]
    case JsonEscape =>
      if b == 34 then [92, 34]
      else if b == 92 then [92, 92]
      else if b == 8 then [92, 98]
      else if b == 9 then [92, 116]
      else if b == 10 then [92, 110]
      else if b == 12 then [92, 102]
      else if b == 13 then [92, 114]
      else if b < 32 then [92, 117, 48, 48, HexLower(b / 16), HexLower(b % 16)]
      else [b]
  }

  function EncodeBytes(text: Bytes, code: ByteCode): Bytes {
    if text == [] then [] else EncodeByte(text[0], code) + EncodeBytes(text[1..], code)
  }

  lemma {:induction false} EncodeBytesConcat(left: Bytes, right: Bytes, code: ByteCode)
    ensures EncodeBytes(left + right, code) == EncodeBytes(left, code) + EncodeBytes(right, code)
  {
    hide EncodeByte;
    if left == [] {
      assert left + right == right;
    } else {
      EncodeBytesConcat(left[1..], right, code);
      assert (left + right)[1..] == left[1..] + right;
    }
  }

  /** What surrounds the text does not change how it is written. */
  lemma EncodedMiddleOccurs(prefix: Bytes, text: Bytes, suffix: Bytes, code: ByteCode)
    ensures Contains(EncodeBytes(prefix + text + suffix, code), EncodeBytes(text, code))
  {
    EncodeBytesConcat(prefix + text, suffix, code);
    EncodeBytesConcat(prefix, text, code);
    MiddleOccurs(EncodeBytes(prefix, code), EncodeBytes(text, code), EncodeBytes(suffix, code));
  }

  lemma {:induction false} EncodeBytesStarFree(text: Bytes, code: ByteCode)
    requires StarFree(text)
    ensures StarFree(EncodeBytes(text, code))
    ensures |EncodeBytes(text, code)| >= (if code.Hex? then 2 * |text| else |text|)
  {
    if text != [] {
      EncodeBytesStarFree(text[1..], code);
      assert text[0] in text;
      assert StarFree(EncodeByte(text[0], code));
    }
  }

  /** Percent-encoding and hex write every star as something else. */
  lemma {:induction false} PercentAndHexStarFree(text: Bytes, code: ByteCode)
    requires code.Percent? || code.Hex?
    ensures StarFree(EncodeBytes(text, code)) && |EncodeBytes(text, code)| >= |text|
  {
    if text != [] {
      PercentAndHexStarFree(text[1..], code);
      assert StarFree(EncodeByte(text[0], code));
    }
  }

  // ---------------------------------------------------------------- reading them back

  /** The value of a hex digit of the given case. */
  function DigitOf(c: byte, upper: bool): Option<int> {
    if 48 <= c <= 57 then Some(c - 48)
    else if upper && 65 <= c <= 70 then Some(c - 55)
    else if !upper && 97 <= c <= 102 then Some(c - 87)
    else None
  }

  function PairOf(high: byte, low: byte, upper: bool): Option<byte> {
    var h, l := DigitOf(high, upper), DigitOf(low, upper);
    if h.Some? && l.Some? then Some(16 * h.value + l.value) else None
  }

  /** The first byte a percent-encoded text stands for, and how many bytes that takes. */
  function ReadPercent(s: Bytes): Option<(byte, nat)>
    requires s != []
  {
    if s[0] == 37 then
      if |s| < 3 || PairOf(s[1], s[2], true).None? then None else Some((PairOf(s[1], s[2], true).value, 3))
    else if 48 <= s[0] <= 57 || 65 <= s[0] <= 90 || 97 <= s[0] <= 122 || s[0] in {45, 46, 95, 126} then Some((s[0], 1))
    else None
  }

  /** The same inside a JSON string: neither a quote nor a control character stands there as it is. */
  function ReadJson(s: Bytes): Option<(byte, nat)>
    requires s != []
  {
    if s[0] == 34 || s[0] < 32 then None
    else if s[0] != 92 then Some((s[0], 1))
    else if |s| < 2 then None
    else if s[1] == 34 || s[1] == 92 || s[1] == 47 then Some((s[1], 2))
    else if s[1] == 98 then Some((8, 2))
    else if s[1] == 116 then Some((9, 2))
    else if s[1] == 110 then Some((10, 2))
    else if s[1] == 102 then Some((12, 2))
    else if s[1] == 114 then Some((13, 2))
    else if s[1] == 117 && |s| >= 6 && s[2] == 48 && s[3] == 48 && PairOf(s[4], s[5], false).Some?
    then Some((PairOf(s[4], s[5], false).value, 6))
    else None
  }

  function ReadHex(s: Bytes): Option<(byte, nat)>
    requires s != []
  {
    if |s| < 2 || PairOf(s[0], s[1], false).None? then None else Some((PairOf(s[0], s[1], false).value, 2))
  }

  function ReadByte(s: Bytes, code: ByteCode): Option<(byte, nat)>
    requires s != []
  {
    match code
    case Percent => ReadPercent(s)
    case JsonEscape => ReadJson(s)
    case Hex => ReadHex(s)
    case PlusForSpace => Some((if s[0] == 43 then 32 else s[0], 1))
  }

  function DecodeBytes(s: Bytes, code: ByteCode): Option<Bytes>
    decreases |s|
  {
    if s == [] then Some([])
    else
      var first := ReadByte(s, code);
      if first.None? || first.value.1 > |s| then None
      else
        var rest := DecodeBytes(s[first.value.1..], code);
        if rest.None? then None else Some([first.value.0] + rest.value)
  }

  lemma PairReads(b: byte)
    ensures PairOf(HexUpper(b / 16), HexUpper(b % 16), true) == Some(b)
    ensures PairOf(HexLower(b / 16), HexLower(b % 16), false) == Some(b)
  {
  }

  lemma ByteReads(b: byte, code: ByteCode, rest: Bytes)
    requires !code.PlusForSpace?
    ensures ReadByte(EncodeByte(b, code) + rest, code) == Some((b, |EncodeByte(b, code)|))
  {
    hide PairOf, HexUpper, HexLower;
    PairReads(b);
    var s := EncodeByte(b, code) + rest;
    assert forall i :: 0 <= i < |EncodeByte(b, code)| ==> s[i] == EncodeByte(b, code)[i];
  }

  /** Percent-encoding, JSON escapes and hex read back as the text, whatever it holds. */
  lemma {:induction false} DecodeEncodeBytes(text: Bytes, code: ByteCode)
    requires !code.PlusForSpace?
    ensures DecodeBytes(EncodeBytes(text, code), code) == Some(text)
  {
    if text != [] {
      var rest := EncodeBytes(text[1..], code);
      var first := EncodeByte(text[0], code);
      ByteReads(text[0], code, rest);
      assert first != [] by { ByteForms(text[0]); }
      hide EncodeByte, ReadByte;
      assert (first + rest)[|first|..] == rest;
      DecodeEncodeBytes(text[1..], code);
      assert [text[0]] + text[1..] == text;
    }
  }

  /**
    Which bytes are written how: letters, digits and `-._~` alone stand for themselves in a URL;
    quotes, backslashes and control characters alone do not in JSON, the common ones shortened.
   */
  lemma ByteForms(b: byte)
    ensures EncodeByte(b, Percent) == [b] <==>
            48 <= b <= 57 || 65 <= b <= 90 || 97 <= b <= 122 || b == 45 || b == 46 || b == 95 || b == 126
    ensures EncodeByte(b, Percent) != [b] ==> |EncodeByte(b, Percent)| == 3 && EncodeByte(b, Percent)[0] == 37
    ensures EncodeByte(b, JsonEscape) == [b] <==> b >= 32 && b != 34 && b != 92
    ensures |EncodeByte(b, JsonEscape)| == 2 <==> b in {34, 92, 8, 9, 10, 12, 13}
    ensures |EncodeByte(b, Hex)| == 2
    ensures EncodeByte(b, JsonEscape) != [] && EncodeByte(b, PlusForSpace) != []
  {
  }

  /** The form with `+` for spaces is the text, byte for byte, but for its spaces. */
  lemma {:induction false} PlusForSpaces(text: Bytes, i: nat)
    requires i < |text|
    ensures |EncodeBytes(text, PlusForSpace)| == |text|
    ensures EncodeBytes(text, PlusForSpace)[i] == if text[i] == 32 then 43 else text[i]
  {
    if |text| > 1 {
      PlusForSpaces(text[1..], if i == 0 then 0 else i - 1);
    } else {
      assert text[1..] == [];
    }
  }

  // ---------------------------------------------------------------- stars in them

  // The two others write a star as itself, and anything else without one.

  predicate KeepsStars(code: ByteCode) { code.PlusForSpace? || code.JsonEscape? }

  lemma EncodeByteStars(b: byte, code: ByteCode)
    requires KeepsStars(code)
    ensures EncodeByte(b, code) != []
    ensures if b == STAR then EncodeByte(b, code) == [STAR] else StarFree(EncodeByte(b, code))
  {
  }

  lemma {:induction false} StarsInFront(text: Bytes, code: ByteCode, m: nat)
    requires KeepsStars(code) && m <= |EncodeBytes(text, code)| && AllStars(EncodeBytes(text, code)[..m])
    ensures m <= |text| && AllStars(text[..m])
  {
    if m > 0 {
      hide EncodeByte;
      EncodeByteStars(text[0], code);
      var all, first := EncodeBytes(text, code), EncodeByte(text[0], code);
      assert all[..m][0] == first[0] && first[0] in first;
      assert all[..m][1..] == EncodeBytes(text[1..], code)[..m - 1];
      StarsInFront(text[1..], code, m - 1);
      assert text[..m] == [STAR] + text[1..][..m - 1];
    }
  }

  lemma MaskStandsWithin(text: Bytes, code: ByteCode, mask: Bytes, i: int)
    requires KeepsStars(code) && mask != [] && AllStars(mask) && text != []
    requires OccursAt(EncodeBytes(text, code), mask, i) && i > 0
    ensures Contains(EncodeBytes(text[1..], code), mask)
  {
    hide EncodeByte;
    EncodeByteStars(text[0], code);
    var all, first := EncodeBytes(text, code), EncodeByte(text[0], code);
    assert forall k :: 0 <= k < |first| ==> all[k] == first[k] && first[k] in first;
    assert all[i..i + |mask|][0] == all[i];
    OccursInRight(first, EncodeBytes(text[1..], code), mask, i);
  }

  lemma {:induction false} MaskComesFromMask(text: Bytes, code: ByteCode, mask: Bytes)
    requires KeepsStars(code) && mask != [] && AllStars(mask) && Contains(EncodeBytes(text, code), mask)
    ensures Contains(text, mask)
  {
    var i :| OccursAt(EncodeBytes(text, code), mask, i);
    if i == 0 {
      StarsInFront(text, code, |mask|);
      assert OccursAt(text, mask, 0);
    } else {
      MaskStandsWithin(text, code, mask, i);
      MaskComesFromMask(text[1..], code, mask);
      SuffixContains(text, 1, mask);
    }
  }

  /** What is sealed stays so. */
  lemma EncodedIsSealed(text: Bytes, code: ByteCode, mask: Bytes)
    requires KeepsStars(code) && mask != [] && AllStars(mask) && Sealed(text, mask)
    ensures Sealed(EncodeBytes(text, code), mask)
  {
    hide EncodeByte;
    var last := |text| - 1;
    var all, end := EncodeBytes(text, code), EncodeByte(text[last], code);
    EncodeByteStars(text[0], code);
    EncodeByteStars(text[last], code);
    assert EncodeByte(text[0], code)[0] in EncodeByte(text[0], code);
    EncodeBytesConcat(text[..last], [text[last]], code);
    assert text[..last] + [text[last]] == text && [text[last]][1..] == [];
    assert EncodeBytes([text[last]], code) == end + [] == end;
    assert all[|all| - 1] == end[|end| - 1] && end[|end| - 1] in end;
    if Contains(all, mask) { MaskComesFromMask(text, code, mask); }
  }

  // ---------------------------------------------------------------- base64

  /** `trim_end_matches('=')`. */
  function TrimPadding(text: Bytes): (r: Bytes)
    ensures |r| <= |text| && r == text[..|r|]
  {
    if text != [] && text[|text| - 1] == PAD then TrimPadding(text[..|text| - 1]) else text
  }

  /** The characters the bytes reach into. */
  function Reached(length: nat): nat { (8 * length + 5) / 6 }

  lemma NoPadInGroup(g: Bytes, a: Alphabet)
    requires 1 <= |g| <= 3
    ensures var text := EncodeGroup(g, a);
            (forall i :: 0 <= i < Reached(|g|) ==> text[i] != PAD)
            && forall i :: Reached(|g|) <= i < 4 ==> text[i] == PAD
  {
  }

  lemma {:induction false} PaddingIsAtTheEnd(bytes: Bytes, a: Alphabet)
    ensures |Encode(bytes, a)| >= Reached(|bytes|)
    ensures forall i :: 0 <= i < Reached(|bytes|) ==> Encode(bytes, a)[i] != PAD
    ensures forall i :: Reached(|bytes|) <= i < |Encode(bytes, a)| ==> Encode(bytes, a)[i] == PAD
  {
    if 0 < |bytes| <= 3 {
      NoPadInGroup(bytes, a);
    } else if |bytes| > 3 {
      hide EncodeGroup;
      NoPadInGroup(bytes[..3], a);
      PaddingIsAtTheEnd(bytes[3..], a);
      assert Reached(|bytes|) == 4 + Reached(|bytes| - 3);
    }
  }

  lemma {:induction false} TrimsTo(text: Bytes, k: nat)
    requires k <= |text| && (forall i :: k <= i < |text| ==> text[i] == PAD)
    requires k == 0 || text[k - 1] != PAD
    ensures TrimPadding(text) == text[..k]
  {
    if k < |text| { TrimsTo(text[..|text| - 1], k); assert text[..|text| - 1][..k] == text[..k]; }
  }

  /** The whole encoding that is kept ends with the last character the secret reaches into, and has no padding. */
  lemma WholeIsUnpadded(secret: Bytes, a: Alphabet)
    ensures Reached(|secret|) <= |Encode(secret, a)|
    ensures Encode(secret, a)[..Reached(|secret|)] in Base64Forms(secret, a)
    ensures PAD !in Encode(secret, a)[..Reached(|secret|)]
  {
    hide Encode;
    PaddingIsAtTheEnd(secret, a);
    TrimsTo(Encode(secret, a), Reached(|secret|));
  }

  /** A secret encoded by itself and stripped of padding is one of its forms, if it is long enough. */
  lemma UnpaddedIsCovered(secret: Bytes, a: Alphabet)
    requires Reached(|secret|) >= MIN_ENCODED_LEN
    ensures Reached(|secret|) <= |Encode(secret, a)|
    ensures Encode(secret, a)[..Reached(|secret|)] in FormsOf(secret)
  {
    hide Encode, Base64Forms, EncodeBytes;
    WholeIsUnpadded(secret, a);
    assert Encode(secret, a)[..Reached(|secret|)] in AllForms(secret);
  }

  function OffsetForm(secret: Bytes, offset: nat, a: Alphabet): seq<Bytes>
    requires offset < 3
  {
    if PastLastOwn(offset + |secret|) > FirstOwn(offset) then [Fragment(secret, offset, a)] else []
  }

  function Base64Forms(secret: Bytes, a: Alphabet): seq<Bytes> {
    [TrimPadding(Encode(secret, a))]
    + OffsetForm(secret, 1, a)
    + OffsetForm(secret, 2, a)
    + [Fragment(secret, 0, a)]
  }

  lemma {:induction false} EncodeStarFree(bytes: Bytes, a: Alphabet)
    ensures StarFree(Encode(bytes, a))
  {
    if |bytes| > 3 { EncodeStarFree(bytes[3..], a); }
  }

  lemma SliceStarFree(text: Bytes, i: nat, j: nat)
    requires i <= j <= |text| && StarFree(text)
    ensures StarFree(text[i..j])
  {
  }

  lemma FragmentStarFree(secret: Bytes, offset: nat, a: Alphabet)
    requires offset < 3 && FirstOwn(offset) <= PastLastOwn(offset + |secret|)
    ensures StarFree(Fragment(secret, offset, a))
  {
    hide Encode;
    var text := Encode(Zeros(offset) + secret, a);
    EncodeStarFree(Zeros(offset) + secret, a);
    EncodeLength(Zeros(offset) + secret, a);
    SliceStarFree(text, FirstOwn(offset), PastLastOwn(offset + |secret|));
  }

  lemma Base64FormsStarFree(secret: Bytes, a: Alphabet)
    ensures forall f :: f in Base64Forms(secret, a) ==> StarFree(f)
  {
    hide Encode, Fragment;
    EncodeStarFree(secret, a);
    SliceStarFree(Encode(secret, a), 0, |TrimPadding(Encode(secret, a))|);
    FragmentStarFree(secret, 0, a);
    if PastLastOwn(1 + |secret|) > FirstOwn(1) { FragmentStarFree(secret, 1, a); }
    if PastLastOwn(2 + |secret|) > FirstOwn(2) { FragmentStarFree(secret, 2, a); }
  }

  /** The source's own test: whether the secret, at that offset, fills enough characters. */
  predicate IsKeptAt(secret: Bytes, offset: nat) {
    PastLastOwn(offset + |secret|) >= FirstOwn(offset) + MIN_ENCODED_LEN
  }

  /** A fragment that is long enough is longer than the secret. */
  lemma FragmentIsKept(secret: Bytes, offset: nat, a: Alphabet)
    requires offset < 3 && IsKeptAt(secret, offset)
    ensures |Fragment(secret, offset, a)| >= MIN_ENCODED_LEN
    ensures |Fragment(secret, offset, a)| > |secret|
  {
  }

  /** Six bytes are enough at the start of a group, and seven anywhere. */
  lemma LongSecretsAreKept(secret: Bytes, offset: nat)
    requires offset < 3
    ensures IsKeptAt(secret, offset) <==> |secret| >= if offset == 0 then 6 else 7
  {
  }

  // ---------------------------------------------------------------- all forms

  predicate Kept(form: Bytes, secret: Bytes) {
    |form| >= MIN_ENCODED_LEN && form != secret
  }

  function Retain(forms: seq<Bytes>, secret: Bytes): (r: seq<Bytes>)
    ensures forall f :: f in r <==> f in forms && Kept(f, secret)
  {
    if forms == [] then []
    else (if Kept(forms[0], secret) then [forms[0]] else []) + Retain(forms[1..], secret)
  }

  function AllForms(secret: Bytes): seq<Bytes> {
    Base64Forms(secret, Standard) + Base64Forms(secret, UrlSafe)
    + [EncodeBytes(secret, Percent), EncodeBytes(secret, PlusForSpace),
       EncodeBytes(secret, JsonEscape), EncodeBytes(secret, Hex)]
  }

  function FormsOf(secret: Bytes): seq<Bytes> {
    Retain(AllForms(secret), secret)
  }

  /** One engine's turn of the loop in `encoded_forms`. */
  method CollectBase64Forms(secret: Bytes, a: Alphabet) returns (forms: seq<Bytes>)
    ensures forms == Base64Forms(secret, a)
  {
    hide Encode, TrimPadding;
    var whole := Encode(secret, a);
    EncodeLength(secret, a);
    forms := [TrimPadding(whole)];
    for offset := 1 to 3
      invariant forms == [TrimPadding(whole)]
                       + (if offset > 1 then OffsetForm(secret, 1, a) else [])
                       + (if offset > 2 then OffsetForm(secret, 2, a) else [])
    {
      var shifted := Zeros(offset) + secret;
      var encoded := Encode(shifted, a);
      EncodeLength(shifted, a);
      var first := FirstOwn(offset);
      var last := 8 * |shifted| / 6;
      if last > first {
        forms := forms + [encoded[first..last]];
      }
    }
    assert whole[..8 * |secret| / 6] == Fragment(secret, 0, a) by {
      assert Zeros(0) + secret == secret;
    }
    forms := forms + [whole[..8 * |secret| / 6]];
  }

  /** `encoded_forms` as it runs: pushes the forms one by one, then retains the long ones. */
  method CollectEncodedForms(secret: Bytes) returns (forms: seq<Bytes>)
    ensures forms == FormsOf(secret)
  {
    hide Base64Forms, EncodeBytes, Retain;
    forms := [];
    var engines := [Standard, UrlSafe];
    for e := 0 to |engines|
      invariant forms == (if e > 0 then Base64Forms(secret, Standard) else [])
                       + (if e > 1 then Base64Forms(secret, UrlSafe) else [])
    {
      var pushed := CollectBase64Forms(secret, engines[e]);
      forms := forms + pushed;
    }
    forms := forms + [EncodeBytes(secret, Percent)];
    forms := forms + [EncodeBytes(secret, PlusForSpace)];
    forms := forms + [EncodeBytes(secret, JsonEscape)];
    forms := forms + [EncodeBytes(secret, Hex)];
    assert forms == AllForms(secret);
    forms := Retain(forms, secret);
  }

  /** No form of a secret without a star holds one. */
  lemma EncodedFormsStarFree(secret: Bytes)
    requires StarFree(secret)
    ensures forall f :: f in FormsOf(secret) ==> StarFree(f)
  {
    Base64FormsStarFree(secret, Standard);
    Base64FormsStarFree(secret, UrlSafe);
    EncodeBytesStarFree(secret, Percent);
    EncodeBytesStarFree(secret, PlusForSpace);
    EncodeBytesStarFree(secret, JsonEscape);
    EncodeBytesStarFree(secret, Hex);
  }

  /** Every form of a sealed secret is sealed. */
  lemma EncodedFormsAreSealed(secret: Bytes, mask: Bytes)
    requires mask != [] && AllStars(mask) && Sealed(secret, mask)
    ensures forall f :: f in FormsOf(secret) ==> Sealed(f, mask)
  {
    hide Base64Forms, EncodeBytes, Sealed;
    Base64FormsStarFree(secret, Standard);
    Base64FormsStarFree(secret, UrlSafe);
    PercentAndHexStarFree(secret, Percent);
    PercentAndHexStarFree(secret, Hex);
    EncodedIsSealed(secret, PlusForSpace, mask);
    EncodedIsSealed(secret, JsonEscape, mask);
    forall f | f in FormsOf(secret) ensures Sealed(f, mask) {
      if StarFree(f) { StarFreeIsSealed(f, mask); }
    }
  }

  /**
    Wherever a secret stands in a longer text, at an alignment where it is long enough to be
    kept, the base64 of the whole text, in either alphabet, contains one of the secret's forms,
    which holds no star.
   */
  lemma Base64IsCovered(prefix: Bytes, secret: Bytes, suffix: Bytes, a: Alphabet) returns (form: Bytes)
    requires IsKeptAt(secret, |prefix| % 3)
    ensures form in FormsOf(secret) && StarFree(form)
    ensures Contains(Encode(prefix + secret + suffix, a), form)
  {
    var k, offset := |prefix| / 3, |prefix| % 3;
    FragmentIsKept(secret, offset, a);
    FragmentStarFree(secret, offset, a);
    FragmentOccurs(prefix, secret, suffix, a, k, offset);
    form := Fragment(secret, offset, a);
    assert form in Base64Forms(secret, a) by {
      assert offset == 0 || form in OffsetForm(secret, offset, a);
    }
    assert form in AllForms(secret);
  }

  /** The same for the byte-wise encodings, as long as the secret's own form is kept. */
  lemma ByteCodeIsCovered(prefix: Bytes, secret: Bytes, suffix: Bytes, code: ByteCode) returns (form: Bytes)
    requires |EncodeBytes(secret, code)| >= MIN_ENCODED_LEN || EncodeBytes(secret, code) == secret
    ensures form == EncodeBytes(secret, code) && (form == secret || form in FormsOf(secret))
    ensures Contains(EncodeBytes(prefix + secret + suffix, code), form)
  {
    EncodedMiddleOccurs(prefix, secret, suffix, code);
    form := EncodeBytes(secret, code);
    assert form in AllForms(secret);
  }
}
