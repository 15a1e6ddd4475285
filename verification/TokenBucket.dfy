// The token bucket of one client: topping up and taking a token, and the form it is stored
// in. Tokens are counted in thousandths, so a millisecond is worth `perSecond` of them.
module TokenBucket {
  import opened Wrappers
  import opened Decimals

  datatype Limits = Limits(perSecond: nat, burst: nat)

  datatype Bucket = Bucket(tokens: int, updatedMs: int)

  /** How long the store keeps a bucket nobody writes. */
  const MAX_AGE_MS := 3600 * 1000

  function Min(a: int, b: int): int { if a < b then a else b }
  function Max(a: int, b: int): int { if a < b then b else a }

  function Full(limits: Limits): int { 1000 * limits.burst }

  function TopUp(bucket: Option<Bucket>, nowMs: int, limits: Limits): int {
    match bucket
    case None => Full(limits)
    case Some(b) => Min(b.tokens + Max(nowMs - b.updatedMs, 0) * limits.perSecond, Full(limits))
  }

  /** `take_token`: the bucket to store, and whether the request may proceed. */
  function TakeToken(bucket: Option<Bucket>, nowMs: int, limits: Limits): (Bucket, bool) {
    var tokens := TopUp(bucket, nowMs, limits);
    var allowed := tokens >= 1000;
    (Bucket(if allowed then tokens - 1000 else tokens, nowMs), allowed)
  }

  predicate InRange(bucket: Option<Bucket>, limits: Limits) {
    bucket.Some? ==> 0 <= bucket.value.tokens <= Full(limits)
  }

  lemma TakeTokenInRange(bucket: Option<Bucket>, nowMs: int, limits: Limits)
    requires InRange(bucket, limits)
    ensures InRange(Some(TakeToken(bucket, nowMs, limits).0), limits)
    ensures 0 <= TopUp(bucket, nowMs, limits)
  {
  }

  /** No time is lost: topping up on the way to a time comes to topping up at that time. */
  lemma TopUpComposes(b: Bucket, t1: int, t2: int, limits: Limits)
    requires b.updatedMs <= t1 <= t2
    ensures TopUp(Some(Bucket(TopUp(Some(b), t1, limits), t1)), t2, limits) == TopUp(Some(b), t2, limits)
  {
    EarnedInParts(t1 - b.updatedMs, t2 - t1, limits.perSecond);
  }

  lemma EarnedInParts(a: nat, b: nat, rate: nat)
    ensures (a + b) * rate == a * rate + b * rate && a * rate >= 0 && b * rate >= 0
  {
  }

  /** Every millisecond brings `perSecond` thousandths, up to the burst; a clock that goes back brings none. */
  lemma TopUpBy(b: Bucket, ms: int, limits: Limits)
    ensures ms <= 0 && b.tokens <= 1000 * limits.burst ==>
              TopUp(Some(b), b.updatedMs + ms, limits) == b.tokens
    ensures ms >= 0 && b.tokens + ms * limits.perSecond <= 1000 * limits.burst ==>
              TopUp(Some(b), b.updatedMs + ms, limits) == b.tokens + ms * limits.perSecond
    ensures ms >= 0 && b.tokens + ms * limits.perSecond >= 1000 * limits.burst ==>
              TopUp(Some(b), b.updatedMs + ms, limits) == 1000 * limits.burst
    ensures TopUp(None, ms, limits) == 1000 * limits.burst
  {
  }

  /**
    Forgetting an idle bucket changes nothing: an hour refills every bucket exactly when the
    burst is no more than what an hour brings back.
   */
  lemma ForgettingChangesNothing(limits: Limits)
    ensures limits.burst <= 3600 * limits.perSecond <==>
            forall b: Bucket, now: int | 0 <= b.tokens <= Full(limits) && now - b.updatedMs >= MAX_AGE_MS ::
              TakeToken(Some(b), now, limits) == TakeToken(None, now, limits)
  {
    if limits.burst <= 3600 * limits.perSecond {
      forall b: Bucket, now: int | 0 <= b.tokens <= Full(limits) && now - b.updatedMs >= MAX_AGE_MS
        ensures TakeToken(Some(b), now, limits) == TakeToken(None, now, limits)
      {
        HourRefills(now - b.updatedMs, limits);
      }
    } else {
      var b := Bucket(0, 0);
      assert TopUp(Some(b), MAX_AGE_MS, limits) == MAX_AGE_MS * limits.perSecond < Full(limits);
      assert TakeToken(Some(b), MAX_AGE_MS, limits).0.tokens
          != TakeToken(None, MAX_AGE_MS, limits).0.tokens
          || TakeToken(Some(b), MAX_AGE_MS, limits).1 != TakeToken(None, MAX_AGE_MS, limits).1;
    }
  }

  lemma HourRefills(elapsedMs: int, limits: Limits)
    requires elapsedMs >= MAX_AGE_MS && limits.burst <= 3600 * limits.perSecond
    ensures elapsedMs * limits.perSecond >= Full(limits)
  {
    assert elapsedMs * limits.perSecond >= MAX_AGE_MS * limits.perSecond;
  }

  // ---------------------------------------------------------------- the stored form

  predicate IsI64(i: int) {
    -0x8000_0000_0000_0000 <= i <= 0x7fff_ffff_ffff_ffff
  }

  function Thousandths(n: nat): (s: string)
    requires n < 1000
    ensures |s| == 3 && AllDigits(s)
  {
    [DigitChar(n / 100), DigitChar(n / 10 % 10), DigitChar(n % 10)]
  }

  function PrintTokens(tokens: nat): string {
    Print(tokens / 1000) + "." + Thousandths(tokens % 1000)
  }

  /** `format!("{:.3}:{}", tokens, updated_ms)`. */
  function Encode(b: Bucket): string {
    (if b.tokens < 0 then "-" + PrintTokens(-b.tokens) else PrintTokens(b.tokens))
    + ":" + PrintInt(b.updatedMs)
  }

  /** The text before the first `sep`, and the text after it. */
  function SplitOnce(s: string, sep: char): Option<(string, string)> {
    if s == [] then None
    else if s[0] == sep then Some(([], s[1..]))
    else
      match SplitOnce(s[1..], sep)
      case None => None
      case Some((left, right)) => Some(([s[0]] + left, right))
  }

  /** Digits, and maybe a point and up to three more: `f64::from_str` on the texts of whole thousandths. */
  function ParseTokens(s: string): Option<nat> {
    match SplitOnce(s, '.')
    case None => (match Parse(s) case Some(w) => Some(1000 * w) case None => None)
    case Some((whole, fraction)) =>
      match (Parse(whole), Parse(fraction))
      case (Some(w), Some(f)) =>
        if |fraction| == 1 then Some(1000 * w + 100 * f)
        else if |fraction| == 2 then Some(1000 * w + 10 * f)
        else if |fraction| == 3 then Some(1000 * w + f)
        else None
      case _ => None
  }

  function ParseSignedTokens(s: string): Option<int> {
    if s != [] && s[0] == '-' then
      match ParseTokens(s[1..])
      case None => None
      case Some(n) => Some(-(n as int))
    else
      match ParseTokens(s)
      case None => None
      case Some(n) => Some(n)
  }

  function Decode(raw: string): Option<Bucket> {
    match SplitOnce(raw, ':')
    case None => None
    case Some((tokens, updated)) =>
      match (ParseSignedTokens(tokens), ParseInt(updated))
      case (Some(t), Some(u)) => if IsI64(u) then Some(Bucket(t, u)) else None
      case _ => None
  }

  lemma {:induction false} SplitOnceConcat(left: string, sep: char, right: string)
    requires sep !in left
    ensures SplitOnce(left + [sep] + right, sep) == Some((left, right))
  {
    var s := left + [sep] + right;
    if left == [] {
      assert s[1..] == right;
    } else {
      assert s[1..] == left[1..] + [sep] + right;
      SplitOnceConcat(left[1..], sep, right);
      assert left == [left[0]] + left[1..];
    }
  }

  lemma ParseThousandths(n: nat)
    requires n < 1000
    ensures Parse(Thousandths(n)) == Some(n)
  {
    var s := Thousandths(n);
    assert s[..2][..1] == [s[0]];
    assert Parse([s[0]]) == Some(n / 100);
    assert Parse(s[..2]) == Some(10 * (n / 100) + n / 10 % 10);
  }

  lemma ParsePrintTokens(tokens: nat)
    ensures ParseTokens(PrintTokens(tokens)) == Some(tokens)
  {
    hide Print, Thousandths, Parse;
    var whole, fraction := Print(tokens / 1000), Thousandths(tokens % 1000);
    assert '.' !in whole;
    SplitOnceConcat(whole, '.', fraction);
    ParsePrint(tokens / 1000);
    ParseThousandths(tokens % 1000);
  }

  /** Fewer digits after the point stand for tenths and hundredths. */
  lemma ParseShorter(whole: nat, fraction: string)
    requires Parse(fraction).Some? && 1 <= |fraction| <= 3
    ensures var n := Parse(fraction).value;
            ParseTokens(Print(whole) + "." + fraction)
            == Some(1000 * whole + if |fraction| == 1 then 100 * n else if |fraction| == 2 then 10 * n else n)
  {
    hide Print, Parse, SplitOnce;
    assert '.' !in Print(whole);
    ParsePrint(whole);
    SplitOnceConcat(Print(whole), '.', fraction);
  }

  /** Digits without a point are whole tokens. */
  lemma ParseWhole(whole: nat)
    ensures ParseTokens(Print(whole)) == Some(1000 * whole)
  {
    hide Print, Parse, SplitOnce;
    assert '.' !in Print(whole);
    ParsePrint(whole);
    NoSeparator(Print(whole), '.');
  }

  lemma ParseSigned(tokens: int)
    ensures var s := if tokens < 0 then "-" + PrintTokens(-tokens) else PrintTokens(tokens);
            ParseSignedTokens(s) == Some(tokens) && ':' !in s
  {
    hide ParseTokens;
    if tokens < 0 {
      ParsePrintTokens(-tokens);
      assert ("-" + PrintTokens(-tokens))[1..] == PrintTokens(-tokens);
    } else {
      ParsePrintTokens(tokens);
      assert IsDigit(PrintTokens(tokens)[0]);
    }
  }

  /** What is stored reads back as the bucket that was stored. */
  lemma DecodeEncode(b: Bucket)
    requires IsI64(b.updatedMs)
    ensures Decode(Encode(b)) == Some(b)
  {
    hide ParseSignedTokens, PrintTokens, ParseInt, PrintInt;
    var tokens := if b.tokens < 0 then "-" + PrintTokens(-b.tokens) else PrintTokens(b.tokens);
    ParseSigned(b.tokens);
    SplitOnceConcat(tokens, ':', PrintInt(b.updatedMs));
    ParsePrintInt(b.updatedMs);
  }

  /** Text without a colon, or with a second one, or without both numbers, is no bucket. */
  lemma {:induction false} GarbageIsNoBucket(left: string, right: string)
    ensures ':' !in left ==> Decode(left).None?
    ensures ':' !in left && ':' in right ==> Decode(left + ":" + right).None?
    ensures Decode(":" + right).None?
  {
    hide ParseSignedTokens, ParseInt;
    if ':' !in left {
      NoSeparator(left, ':');
      SplitOnceConcat(left, ':', right);
      if ':' in right { ColonIsNoNumber(right); }
    }
    SplitOnceConcat([], ':', right);
    assert [] + ":" + right == ":" + right;
    EmptyIsNoNumber();
  }

  lemma {:induction false} NoSeparator(s: string, sep: char)
    requires sep !in s
    ensures SplitOnce(s, sep).None?
  {
    if s != [] { NoSeparator(s[1..], sep); }
  }

  lemma EmptyIsNoNumber()
    ensures ParseSignedTokens([]).None?
  {
  }

  lemma {:induction false} ParsedDigits(s: string)
    requires Parse(s).Some?
    ensures AllDigits(s)
  {
    if |s| > 1 { ParsedDigits(s[..|s| - 1]); }
  }

  lemma ColonIsNoNumber(s: string)
    requires ':' in s
    ensures ParseInt(s).None?
  {
    var i :| 0 <= i < |s| && s[i] == ':';
    if Parse(s).Some? { ParsedDigits(s); }
    if s[0] == '-' || s[0] == '+' {
      assert i > 0 && s[1..][i - 1] == ':';
      if Parse(s[1..]).Some? { ParsedDigits(s[1..]); }
    }
  }
}
