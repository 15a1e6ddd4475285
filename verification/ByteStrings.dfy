// Byte strings as Rust's `str` holds them: UTF-8 bytes, searched, replaced and measured
// byte by byte. Occurrences and replacement are the two notions the redactor rests on.
module ByteStrings {

  type byte = b: int | 0 <= b < 256
  type Bytes = seq<byte>

  const STAR: byte := 42

  /** `needle` stands in `text` from index `i` on. */
  predicate OccursAt(text: Bytes, needle: Bytes, i: int) {
    0 <= i && i + |needle| <= |text| && text[i..i + |needle|] == needle
  }

  /** `str::contains`. */
  ghost predicate Contains(text: Bytes, needle: Bytes) {
    exists i :: OccursAt(text, needle, i)
  }

  predicate StarFree(text: Bytes) {
    STAR !in text
  }

  predicate AllStars(text: Bytes) {
    forall i :: 0 <= i < |text| ==> text[i] == STAR
  }

  /** `str::replace`: the leftmost occurrence first, then on from its end. */
  function Replace(text: Bytes, needle: Bytes, mask: Bytes): Bytes
    requires needle != []
  {
    if |text| < |needle| then text
    else if text[..|needle|] == needle then mask + Replace(text[|needle|..], needle, mask)
    else [text[0]] + Replace(text[1..], needle, mask)
  }

  /** `str::contains` as code: tries every position in turn. */
  method Search(text: Bytes, needle: Bytes) returns (found: bool)
    ensures found <==> Contains(text, needle)
  {
    var i := 0;
    while i + |needle| <= |text|
      invariant 0 <= i
      invariant forall j :: 0 <= j < i ==> !OccursAt(text, needle, j)
    {
      if text[i..i + |needle|] == needle {
        assert OccursAt(text, needle, i);
        return true;
      }
      i := i + 1;
    }
    return false;
  }

  lemma ContainsTransitive(a: Bytes, b: Bytes, c: Bytes)
    requires Contains(a, b) && Contains(b, c)
    ensures Contains(a, c)
  {
    var i :| OccursAt(a, b, i);
    var j :| OccursAt(b, c, j);
    forall k | 0 <= k < |c| ensures a[i + j + k] == c[k] {
      assert a[i + j + k] == a[i..i + |b|][j + k] == b[j..j + |c|][k];
    }
    assert OccursAt(a, c, i + j);
  }

  lemma MiddleOccurs(left: Bytes, middle: Bytes, right: Bytes)
    ensures Contains(left + middle + right, middle)
  {
    assert OccursAt(left + middle + right, middle, |left|);
  }

  lemma ContainsShorter(text: Bytes, needle: Bytes)
    requires Contains(text, needle)
    ensures |needle| <= |text|
    ensures |needle| == |text| ==> needle == text
  {
    var i :| OccursAt(text, needle, i);
  }

  /** A suffix contains nothing the whole does not. */
  lemma SuffixContains(text: Bytes, k: nat, needle: Bytes)
    requires k <= |text| && Contains(text[k..], needle)
    ensures Contains(text, needle)
  {
    MiddleOccurs(text[..k], text[k..], []);
    assert text == text[..k] + text[k..] + [];
    ContainsTransitive(text, text[k..], needle);
  }

  /**
    Text that a mask can take no part in: it starts and ends in something else than a star, and
    no mask stands inside it.
   */
  ghost predicate Sealed(text: Bytes, mask: Bytes) {
    text != [] && text[0] != STAR && text[|text| - 1] != STAR && !Contains(text, mask)
  }

  lemma StarFreeIsSealed(text: Bytes, mask: Bytes)
    requires text != [] && StarFree(text) && mask != [] && AllStars(mask)
    ensures Sealed(text, mask)
  {
    forall i ensures !OccursAt(text, mask, i) {
      if 0 <= i && i + |mask| <= |text| {
        assert text[i] in text && text[i..i + |mask|][0] == text[i];
      }
    }
  }

  lemma MaskInFront(mask: Bytes, rest: Bytes, k: nat)
    requires AllStars(mask) && 0 < k <= |mask + rest|
    ensures Contains((mask + rest)[..k], mask) || (mask + rest)[k - 1] == STAR
  {
    if k >= |mask| { assert OccursAt((mask + rest)[..k], mask, 0); }
  }

  /** Up to where no mask reaches, what replacement by a mask leaves is the text itself. */
  lemma {:induction false} SealedPrefixKept(text: Bytes, needle: Bytes, mask: Bytes, k: nat)
    requires needle != [] && mask != [] && AllStars(mask) && k <= |Replace(text, needle, mask)|
    requires !Contains(Replace(text, needle, mask)[..k], mask)
    requires k > 0 ==> Replace(text, needle, mask)[k - 1] != STAR
    ensures k <= |text| && text[..k] == Replace(text, needle, mask)[..k]
  {
    var out := Replace(text, needle, mask);
    if k > 0 && |text| >= |needle| {
      if text[..|needle|] == needle {
        MaskInFront(mask, Replace(text[|needle|..], needle, mask), k);
        assert false;
      } else {
        var rest := Replace(text[1..], needle, mask);
        assert out[..k] == [text[0]] + rest[..k - 1];
        assert out[..k][1..] == rest[..k - 1];
        if Contains(rest[..k - 1], mask) { SuffixContains(out[..k], 1, mask); }
        SealedPrefixKept(text[1..], needle, mask, k - 1);
        assert text[..k] == [text[0]] + text[1..][..k - 1];
      }
    }
  }

  /** What occurs in `left + right` and does not start within `left` occurs in `right`. */
  lemma OccursInRight(left: Bytes, right: Bytes, other: Bytes, i: int)
    requires OccursAt(left + right, other, i) && |left| <= i
    ensures Contains(right, other)
  {
    assert right[i - |left|..i - |left| + |other|] == (left + right)[i..i + |other|];
    assert OccursAt(right, other, i - |left|);
  }

  lemma OccursPastStars(mask: Bytes, rest: Bytes, other: Bytes)
    requires AllStars(mask) && other != [] && other[0] != STAR
    requires Contains(mask + rest, other)
    ensures Contains(rest, other)
  {
    var i :| OccursAt(mask + rest, other, i);
    assert (mask + rest)[i] == (mask + rest)[i..i + |other|][0] == other[0];
    OccursInRight(mask, rest, other, i);
  }

  /**
    Replacement by a mask makes no sealed substring that was not there before, and leaves no
    occurrence of the needle itself, should that be sealed.
   */
  lemma {:induction false} ReplaceMakesNothing(text: Bytes, needle: Bytes, mask: Bytes, other: Bytes)
    requires needle != [] && mask != [] && AllStars(mask)
    requires Sealed(other, mask)
    requires Contains(Replace(text, needle, mask), other)
    ensures Contains(text, other) && other != needle
    decreases |text|
  {
    if |text| < |needle| {
      ContainsShorter(text, other);
    } else if text[..|needle|] == needle {
      OccursPastStars(mask, Replace(text[|needle|..], needle, mask), other);
      ReplaceMakesNothing(text[|needle|..], needle, mask, other);
      SuffixContains(text, |needle|, other);
    } else {
      var out, rest := Replace(text, needle, mask), Replace(text[1..], needle, mask);
      var i :| OccursAt(out, other, i);
      if i == 0 {
        assert out[..|other|] == other && out[|other| - 1] == other[|other| - 1];
        SealedPrefixKept(text, needle, mask, |other|);
        assert OccursAt(text, other, 0);
      } else {
        OccursInRight([text[0]], rest, other, i);
        ReplaceMakesNothing(text[1..], needle, mask, other);
        SuffixContains(text, 1, other);
      }
    }
  }

  /** A text without the needle is left as it is. */
  lemma {:induction false} ReplaceAbsent(text: Bytes, needle: Bytes, mask: Bytes)
    requires needle != [] && !Contains(text, needle)
    ensures Replace(text, needle, mask) == text
  {
    if |text| >= |needle| {
      assert !OccursAt(text, needle, 0);
      if Contains(text[1..], needle) { SuffixContains(text, 1, needle); }
      ReplaceAbsent(text[1..], needle, mask);
    }
  }

  /** Replacement leaves alone what no occurrence starts in. */
  lemma {:induction false} ReplaceSkips(left: Bytes, right: Bytes, needle: Bytes, mask: Bytes)
    requires needle != [] && forall j :: 0 <= j < |left| ==> !OccursAt(left + right, needle, j)
    ensures Replace(left + right, needle, mask) == left + Replace(right, needle, mask)
  {
    var text := left + right;
    if left == [] {
      assert text == right;
    } else {
      assert !OccursAt(text, needle, 0) && text[1..] == left[1..] + right;
      forall j | 0 <= j < |left| - 1 ensures !OccursAt(left[1..] + right, needle, j) {
        assert !OccursAt(text, needle, j + 1);
        OccursFurtherOn(text, needle, j);
      }
      ReplaceSkips(left[1..], right, needle, mask);
      ReplaceStep(text, needle, mask);
    }
  }

  lemma OccursFurtherOn(text: Bytes, needle: Bytes, j: nat)
    requires text != []
    ensures OccursAt(text[1..], needle, j) ==> OccursAt(text, needle, j + 1)
  {
    if j + |needle| < |text| { assert text[1..][j..j + |needle|] == text[j + 1..j + 1 + |needle|]; }
  }

  lemma ReplaceStep(text: Bytes, needle: Bytes, mask: Bytes)
    requires needle != [] && text != [] && !OccursAt(text, needle, 0)
    ensures Replace(text, needle, mask) == [text[0]] + Replace(text[1..], needle, mask)
  {
  }

  lemma ReplaceFirst(text: Bytes, needle: Bytes, rest: Bytes, mask: Bytes)
    requires needle != [] && text == needle + rest && |rest| < |needle|
    ensures Replace(text, needle, mask) == mask + rest
  {
    assert text[..|needle|] == needle && text[|needle|..] == rest;
  }

  /** Cut where a star follows, a needle that starts in none is not found before its own copy. */
  lemma CopyIsFoundLast(needle: Bytes, p: nat, rest: Bytes, j: int)
    requires 0 < p < |needle| && needle[0] != STAR && needle[p] == STAR && 0 <= j < p
    ensures !OccursAt(needle[..p] + (needle + rest), needle, j)
  {
    var text := needle[..p] + (needle + rest);
    assert text[j] == needle[j] == text[j + p];
    if j + |needle| <= |text| {
      var found := text[j..j + |needle|];
      assert text[j] == found[0] && text[j + p] == found[p];
    }
  }

  lemma CopyIsReplaced(needle: Bytes, p: nat, rest: Bytes, mask: Bytes)
    requires 0 < p < |needle| && needle[0] != STAR && needle[p] == STAR && |rest| < |needle|
    ensures Replace(needle[..p] + (needle + rest), needle, mask) == needle[..p] + (mask + rest)
  {
    forall j | 0 <= j < p ensures !OccursAt(needle[..p] + (needle + rest), needle, j) {
      CopyIsFoundLast(needle, p, rest, j);
    }
    ReplaceSkips(needle[..p], needle + rest, needle, mask);
    ReplaceFirst(needle + rest, needle, rest, mask);
  }

  lemma LeadingStarSurvives(needle: Bytes, mask: Bytes)
    requires needle != [] && needle[0] == STAR && mask != [] && AllStars(mask)
    ensures Contains(Replace(needle + needle[1..], needle, mask), needle)
  {
    ReplaceFirst(needle + needle[1..], needle, needle[1..], mask);
    hide Replace;
    var out, i := mask + needle[1..], |mask| - 1;
    assert out[i..i + |needle|] == [STAR] + needle[1..];
    assert OccursAt(out, needle, i);
  }

  lemma InnerMaskSurvives(needle: Bytes, mask: Bytes, p: int)
    requires needle != [] && needle[0] != STAR && mask != [] && AllStars(mask) && OccursAt(needle, mask, p)
    ensures Contains(Replace(needle[..p] + (needle + needle[p + |mask|..]), needle, mask), needle)
  {
    hide Replace;
    assert needle[p] == needle[p..p + |mask|][0] == STAR;
    var rest := needle[p + |mask|..];
    CopyIsReplaced(needle, p, rest, mask);
    assert needle[..p] + (mask + rest) == needle;
    assert OccursAt(needle, needle, 0);
  }

  lemma TrailingStarSurvives(needle: Bytes, mask: Bytes)
    requires |needle| > 1 && needle[0] != STAR && needle[|needle| - 1] == STAR && mask != [] && AllStars(mask)
    ensures Contains(Replace(needle[..|needle| - 1] + (needle + []), needle, mask), needle)
  {
    hide Replace;
    var last := |needle| - 1;
    CopyIsReplaced(needle, last, [], mask);
    var out := needle[..last] + (mask + []);
    assert out[..|needle|] == needle[..last] + [mask[0]];
    assert OccursAt(out, needle, 0);
  }

  /** A needle that is not sealed can be put together out of the mask that replaces it. */
  lemma UnsealedSurvives(needle: Bytes, mask: Bytes) returns (text: Bytes)
    requires needle != [] && !Sealed(needle, mask) && mask != [] && AllStars(mask)
    ensures Contains(Replace(text, needle, mask), needle)
  {
    hide Replace;
    if needle[0] == STAR {
      text := needle + needle[1..];
      LeadingStarSurvives(needle, mask);
    } else if Contains(needle, mask) {
      var p :| OccursAt(needle, mask, p);
      text := needle[..p] + (needle + needle[p + |mask|..]);
      InnerMaskSurvives(needle, mask, p);
    } else {
      text := needle[..|needle| - 1] + (needle + []);
      TrailingStarSurvives(needle, mask);
    }
  }

  lemma {:induction false} ReplaceLength(text: Bytes, needle: Bytes, mask: Bytes)
    requires needle != []
    ensures |needle| <= |mask| ==> |text| <= |Replace(text, needle, mask)|
    ensures |needle| >= |mask| ==> |text| >= |Replace(text, needle, mask)|
    decreases |text|
  {
    if |text| < |needle| {
    } else if text[..|needle|] == needle {
      ReplaceLength(text[|needle|..], needle, mask);
    } else {
      ReplaceLength(text[1..], needle, mask);
    }
  }

  /** Replacing what is there changes the text, unless the mask replaces itself. */
  lemma {:induction false} ReplaceChanges(text: Bytes, needle: Bytes, mask: Bytes)
    requires needle != [] && needle != mask && Contains(text, needle)
    ensures Replace(text, needle, mask) != text
    decreases |text|
  {
    ContainsShorter(text, needle);
    var out := Replace(text, needle, mask);
    if text[..|needle|] == needle {
      var rest := text[|needle|..];
      ReplaceLength(rest, needle, mask);
      if |needle| == |mask| { assert out[..|mask|] == mask; }
    } else {
      var i :| OccursAt(text, needle, i);
      assert [text[0]] + text[1..] == text;
      OccursInRight([text[0]], text[1..], needle, i);
      ReplaceChanges(text[1..], needle, mask);
      assert out[1..] == Replace(text[1..], needle, mask);
    }
  }

  // ---------------------------------------------------------------- what replacement keeps

  /** Pieces of text with a separator between them. */
  function Joined(pieces: seq<Bytes>, separator: Bytes): Bytes
    requires pieces != []
  {
    if |pieces| == 1 then pieces[0] else pieces[0] + (separator + Joined(pieces[1..], separator))
  }

  /** Of the pieces joined by the needle, none has an occurrence of the needle start inside it. */
  predicate CutAtNeedle(pieces: seq<Bytes>, needle: Bytes)
    requires pieces != []
  {
    (forall j :: 0 <= j < |pieces[0]| ==> !OccursAt(Joined(pieces, needle), needle, j))
    && (|pieces| > 1 ==> CutAtNeedle(pieces[1..], needle))
  }

  /** Replacement puts the mask where the needle was and keeps every byte between. */
  lemma {:induction false} ReplaceKeepsPieces(pieces: seq<Bytes>, needle: Bytes, mask: Bytes)
    requires pieces != [] && needle != [] && CutAtNeedle(pieces, needle)
    ensures Replace(Joined(pieces, needle), needle, mask) == Joined(pieces, mask)
  {
    if |pieces| == 1 {
      assert pieces[0] + [] == pieces[0] == Joined(pieces, needle);
      forall j | 0 <= j < |pieces[0]| ensures !OccursAt(pieces[0] + [], needle, j) {
        assert !OccursAt(Joined(pieces, needle), needle, j);
      }
      ReplaceSkips(pieces[0], [], needle, mask);
    } else {
      var rest := Joined(pieces[1..], needle);
      assert Joined(pieces, needle) == pieces[0] + (needle + rest);
      forall j | 0 <= j < |pieces[0]| ensures !OccursAt(pieces[0] + (needle + rest), needle, j) {
        assert !OccursAt(Joined(pieces, needle), needle, j);
      }
      ReplaceSkips(pieces[0], needle + rest, needle, mask);
      assert (needle + rest)[..|needle|] == needle && (needle + rest)[|needle|..] == rest;
      ReplaceKeepsPieces(pieces[1..], needle, mask);
    }
  }

  lemma FirstPieceGrows(head: byte, pieces: seq<Bytes>, separator: Bytes)
    requires pieces != []
    ensures Joined([[head] + pieces[0]] + pieces[1..], separator) == [head] + Joined(pieces, separator)
  {
    var longer := [[head] + pieces[0]] + pieces[1..];
    assert longer[1..] == pieces[1..];
    if |pieces| > 1 {
      var rest := separator + Joined(pieces[1..], separator);
      assert ([head] + pieces[0]) + rest == [head] + (pieces[0] + rest);
    }
  }

  /** Every text is cut so, in the one way that takes the leftmost occurrence first. */
  lemma {:induction false} TextIsCut(text: Bytes, needle: Bytes) returns (pieces: seq<Bytes>)
    requires needle != []
    ensures pieces != [] && Joined(pieces, needle) == text && CutAtNeedle(pieces, needle)
    decreases |text|
  {
    if |text| < |needle| {
      pieces := [text];
    } else if text[..|needle|] == needle {
      var rest := TextIsCut(text[|needle|..], needle);
      pieces := [[]] + rest;
      assert pieces[1..] == rest && text == needle + text[|needle|..];
      assert [] + (needle + Joined(rest, needle)) == needle + Joined(rest, needle);
    } else {
      var rest := TextIsCut(text[1..], needle);
      pieces := [[text[0]] + rest[0]] + rest[1..];
      FirstPieceGrows(text[0], rest, needle);
      assert pieces[1..] == rest[1..] && text == [text[0]] + text[1..];
      forall j | 0 <= j < |pieces[0]| ensures !OccursAt(text, needle, j) {
        if j > 0 {
          assert !OccursAt(text[1..], needle, j - 1);
          OccursFurtherBack(text, needle, j);
        }
      }
    }
  }

  lemma OccursFurtherBack(text: Bytes, needle: Bytes, j: nat)
    requires text != [] && 0 < j
    ensures OccursAt(text, needle, j) ==> OccursAt(text[1..], needle, j - 1)
  {
    if j + |needle| <= |text| { assert text[1..][j - 1..j - 1 + |needle|] == text[j..j + |needle|]; }
  }
}
