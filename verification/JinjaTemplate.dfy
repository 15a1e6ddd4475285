// Step specs hold HCL templates that are rendered once more, by Jinja. Before the first pass every
// interpolation is wrapped, so that what it inserts is a Jinja string literal and the second pass
// prints it as the text it is.
module JinjaTemplate {
  import opened Wrappers

  // ---------------------------------------------------------------- Jinja string literals

  const OPENING := "{{ \""
  const CLOSING := "\" }}"

  predicate IsControl(c: char) { c < 0x20 as char || 0x7f as char <= c <= 0x9f as char }

  function HexDigit(d: nat): char
    requires d < 16
  {
    if d < 10 then '0' + d as char else 'a' + (d - 10) as char
  }

  function HexValue(c: char): Option<nat> {
    if '0' <= c <= '9' then Some((c - '0') as nat)
    else if 'a' <= c <= 'f' then Some((c - 'a') as nat + 10)
    else None
  }

  function Escape(c: char): string {
    if c == '\\' then "\\\\"
    else if c == '"' then "\\\""
    else if c == '\n' then "\\n"
    else if c == '\r' then "\\r"
    else if c == '\t' then "\\t"
    else if IsControl(c) then "\\u00" + [HexDigit(c as nat / 16), HexDigit(c as nat % 16)]
    else [c]
  }

  function Escaped(text: string): string {
    if text == "" then "" else Escaped(text[..|text| - 1]) + Escape(text[|text| - 1])
  }

  function Literal(text: string): string { OPENING + Escaped(text) + CLOSING }

  method JinjaStringLiteral(text: string) returns (out: string)
    ensures out == Literal(text)
  {
    hide Escape;
    out := OPENING;
    for i := 0 to |text|
      invariant out == OPENING + Escaped(text[..i])
    {
      assert text[..i + 1][..i] == text[..i];
      out := out + Escape(text[i]);
    }
    assert text[..|text|] == text;
    out := out + CLOSING;
  }

  /** The character an escape stands for, and how many characters it takes. */
  function Unescape(s: string): Option<(char, nat)> {
    if s == "" || s[0] == '"' then None
    else if s[0] != '\\' then Some((s[0], 1))
    else if |s| < 2 then None
    else if s[1] == '\\' || s[1] == '"' then Some((s[1], 2))
    else if s[1] == 'n' then Some(('\n', 2))
    else if s[1] == 'r' then Some(('\r', 2))
    else if s[1] == 't' then Some(('\t', 2))
    else if s[1] == 'u' && |s| >= 6 then UnescapeHex(s[2..6])
    else None
  }

  function UnescapeHex(digits: string): Option<(char, nat)>
    requires |digits| == 4
  {
    var a, b, c, d := HexValue(digits[0]), HexValue(digits[1]), HexValue(digits[2]), HexValue(digits[3]);
    if a.None? || b.None? || c.None? || d.None? then None
    else
      var code := 4096 * a.value + 256 * b.value + 16 * c.value + d.value;
      if code < 0xd800 then Some((code as char, 6)) else None
  }

  /** Reads a string up to its closing quote and the end of the expression: the text, and what follows. */
  function ReadString(s: string): (r: Option<(string, string)>)
    ensures r.Some? ==> |r.value.1| < |s|
    decreases |s|
  {
    if |s| >= 4 && s[..4] == CLOSING then Some(("", s[4..]))
    else
      var first := Unescape(s);
      if first.None? then None
      else
        var rest := ReadString(s[first.value.1..]);
        if rest.None? then None else Some(([first.value.0] + rest.value.0, rest.value.1))
  }

  predicate OpensMarkup(s: string) { |s| >= 2 && s[0] == '{' && s[1] in "{%#" }

  /** What Jinja prints for text with string literals as its only expressions. */
  function Read(s: string): Option<string>
    decreases |s|
  {
    if s == "" then Some("")
    else if !OpensMarkup(s) then Prefixed([s[0]], Read(s[1..]))
    else if |s| >= 4 && s[..4] == OPENING then
      var literal := ReadString(s[4..]);
      if literal.None? then None else Prefixed(literal.value.0, Read(literal.value.1))
    else None
  }

  function Prefixed(text: string, rest: Option<string>): Option<string> {
    if rest.None? then None else Some(text + rest.value)
  }

  /** Statements, comments and other expressions are no text: the reader knows string literals only. */
  lemma MarkupIsNoText(s: string)
    requires |s| >= 2 && s[0] == '{'
    ensures s[1] == '%' || s[1] == '#' ==> Read(s) == None
    ensures s[1] == '{' && !(|s| >= 4 && s[2] == ' ' && s[3] == '"') ==> Read(s) == None
  {
    hide ReadString, Prefixed;
    if s[1] == '%' || s[1] == '#' || s[1] == '{' {
      assert s[1] in "{%#";
      var opening := OPENING;
      assert opening[1] == '{' && opening[2] == ' ' && opening[3] == '"';
      if |s| >= 4 { assert s[..4][1] == s[1] && s[..4][2] == s[2] && s[..4][3] == s[3]; }
    }
  }

  lemma HexRoundTrip(d: nat)
    requires d < 16
    ensures HexValue(HexDigit(d)) == Some(d)
  {
  }

  /** An escape reads back as the character it was written for. */
  lemma EscapeReads(c: char, rest: string)
    ensures Unescape(Escape(c) + rest) == Some((c, |Escape(c)|))
    ensures (Escape(c) + rest)[|Escape(c)|..] == rest
  {
    var s := Escape(c) + rest;
    if IsControl(c) && c != '\n' && c != '\r' && c != '\t' {
      HexRoundTrip(c as nat / 16);
      HexRoundTrip(c as nat % 16);
      assert s[2..6] == ['0', '0', HexDigit(c as nat / 16), HexDigit(c as nat % 16)];
    }
  }

  /** Which characters are written as themselves, with a short escape, and by their number. */
  lemma EscapeForms(c: char)
    ensures Escape(c) == [c] <==> !(c < 0x20 as char || 0x7f as char <= c <= 0x9f as char) && c != '"' && c != '\\'
    ensures |Escape(c)| == 2 <==> c in {'"', '\\', '\n', '\r', '\t'}
    ensures |Escape(c)| == 1 || |Escape(c)| == 2 || |Escape(c)| == 6
  {
  }

  /** A literal holds no control character, whatever its text holds. */
  lemma {:induction false} LiteralHoldsNoControls(text: string)
    ensures forall c :: c in Escaped(text) ==> !(c < 0x20 as char || 0x7f as char <= c <= 0x9f as char)
  {
    if text != "" {
      LiteralHoldsNoControls(text[..|text| - 1]);
      var last := text[|text| - 1];
      assert forall c :: c in Escape(last) ==> !IsControl(c);
    }
  }

  lemma {:induction false} EscapedFirst(text: string)
    requires text != ""
    ensures Escaped(text) == Escape(text[0]) + Escaped(text[1..])
  {
    if |text| > 1 {
      EscapedFirst(text[..|text| - 1]);
      assert text[..|text| - 1][1..] == text[1..][..|text| - 2];
    }
  }

  lemma {:induction false} StringReads(text: string, rest: string)
    ensures ReadString(Escaped(text) + CLOSING + rest) == Some((text, rest))
    decreases |text|
  {
    hide Escape, Unescape;
    var s := Escaped(text) + CLOSING + rest;
    if text == "" {
      assert s[..4] == CLOSING && s[4..] == rest;
    } else {
      EscapedFirst(text);
      var tail := Escaped(text[1..]) + CLOSING + rest;
      assert s == Escape(text[0]) + tail;
      EscapeReads(text[0], tail);
      StringReads(text[1..], rest);
      CharReads(s, text[0], |Escape(text[0])|, text[1..], rest);
      assert [text[0]] + text[1..] == text;
    }
  }

  lemma CharReads(s: string, c: char, n: nat, text: string, rest: string)
    requires Unescape(s) == Some((c, n)) && n <= |s| && ReadString(s[n..]) == Some((text, rest))
    ensures ReadString(s) == Some(([c] + text, rest))
  {
    if |s| >= 4 { assert s[..4][0] == s[0] && CLOSING[0] == '"'; }
  }

  /** A literal prints as exactly its text, wherever it stands. */
  lemma LiteralReads(text: string, rest: string)
    ensures Read(Literal(text) + rest) == Prefixed(text, Read(rest))
  {
    var s := Literal(text) + rest;
    assert s[..4] == OPENING && s[4..] == Escaped(text) + CLOSING + rest;
    StringReads(text, rest);
  }

  // ---------------------------------------------------------------- what a template inserts

  /** A piece of a template's output: text of the template's own, or an interpolated value's. */
  datatype Chunk = Text(s: string) | Value(s: string)

  function Plain(chunks: seq<Chunk>): string {
    if chunks == [] then "" else chunks[0].s + Plain(chunks[1..])
  }

  function Shown(chunk: Chunk): string { if chunk.Text? then chunk.s else Literal(chunk.s) }

  function Wrapped(chunks: seq<Chunk>): string {
    if chunks == [] then "" else Shown(chunks[0]) + Wrapped(chunks[1..])
  }

  predicate NoOpening(s: string) { forall i :: 0 <= i < |s| ==> !OpensMarkup(s[i..]) }

  predicate EndsInBrace(s: string) { s != "" && s[|s| - 1] == '{' }

  /** The template's own text, joined up where no value comes between, holds no Jinja markup. */
  predicate MarkupFree(before: string, chunks: seq<Chunk>)
    decreases |chunks|
  {
    if chunks == [] then NoOpening(before)
    else if chunks[0].Text? then MarkupFree(before + chunks[0].s, chunks[1..])
    else NoOpening(before) && MarkupFree("", chunks[1..])
  }

  /** No value comes right after an opening brace of the template's own. */
  predicate NoBraceBeforeValue(before: string, chunks: seq<Chunk>)
    decreases |chunks|
  {
    if chunks == [] then true
    else if chunks[0].Text? then NoBraceBeforeValue(before + chunks[0].s, chunks[1..])
    else !EndsInBrace(before) && NoBraceBeforeValue("", chunks[1..])
  }

  lemma {:induction false} TextReads(s: string, rest: string)
    requires NoOpening(s)
    requires EndsInBrace(s) ==> !OpensMarkup("{" + rest)
    ensures Read(s + rest) == Prefixed(s, Read(rest))
    decreases |s|
  {
    if s == "" {
      assert s + rest == rest;
      assert Read(rest).Some? ==> s + Read(rest).value == Read(rest).value;
    } else {
      var t := s[1..];
      assert (s + rest)[1..] == t + rest;
      assert !OpensMarkup(s[0..]);
      assert |s| == 1 ==> s + rest == [s[0]] + rest;
      assert !OpensMarkup(s + rest);
      assert forall i :: 0 <= i < |t| ==> t[i..] == s[i + 1..];
      assert NoOpening(t);
      TextReads(t, rest);
      assert Read(rest).Some? ==> [s[0]] + (t + Read(rest).value) == s + Read(rest).value;
    }
  }

  /** Jinja takes the brace for part of the literal's own opening. */
  lemma BraceBreaksLiteral(before: string, value: string, rest: string)
    requires NoOpening(before) && EndsInBrace(before)
    ensures Read(before + (Literal(value) + rest)) == None
  {
    var n := |before| - 1;
    var s := "{" + (Literal(value) + rest);
    assert before + (Literal(value) + rest) == before[..n] + s;
    assert s[1..5] == OPENING;
    assert s[0] == '{' && s[1] == '{' && s[2] == '{';
    assert s[..4] != OPENING by { assert s[..4][2] == '{' && OPENING[2] == ' '; }
    assert Read(s) == None;
    forall i | 0 <= i < n ensures !OpensMarkup(before[..n][i..]) {
      assert !OpensMarkup(before[i..]);
    }
    assert n > 0 ==> !OpensMarkup(before[n - 1..]);
    TextReads(before[..n], s);
  }

  /**
    Reading back what was written gives the plain text exactly when no value comes right after an
    opening brace; otherwise it fails.
   */
  lemma {:induction false} ChunksRead(before: string, chunks: seq<Chunk>)
    requires MarkupFree(before, chunks)
    ensures Read(before + Wrapped(chunks))
         == if NoBraceBeforeValue(before, chunks) then Some(before + Plain(chunks)) else None
    decreases |chunks|
  {
    hide Read, Shown, NoOpening, EndsInBrace;
    if chunks == [] {
      TextReads(before, "");
      EmptyReads();
      assert before + "" == before;
    } else if chunks[0].Text? {
      TextChunk(before, chunks);
      ChunksRead(before + chunks[0].s, chunks[1..]);
    } else {
      ChunksRead("", chunks[1..]);
      ValueChunkReads(before, chunks);
      assert before + chunks[0].s + ("" + Plain(chunks[1..])) == before + Plain(chunks);
    }
  }

  lemma TextChunk(before: string, chunks: seq<Chunk>)
    requires chunks != [] && chunks[0].Text?
    ensures before + chunks[0].s + Wrapped(chunks[1..]) == before + Wrapped(chunks)
    ensures before + chunks[0].s + Plain(chunks[1..]) == before + Plain(chunks)
  {
    assert Shown(chunks[0]) == chunks[0].s;
    hide Shown;
    Assoc(before, chunks[0].s, Wrapped(chunks[1..]));
    Assoc(before, chunks[0].s, Plain(chunks[1..]));
  }

  lemma Assoc(a: string, b: string, c: string)
    ensures a + b + c == a + (b + c)
  {
  }

  lemma ValueChunkReads(before: string, chunks: seq<Chunk>)
    requires chunks != [] && chunks[0].Value? && NoOpening(before)
    ensures Read(before + Wrapped(chunks))
         == if EndsInBrace(before) then None else Prefixed(before + chunks[0].s, Read("" + Wrapped(chunks[1..])))
  {
    hide Read, Literal, NoOpening;
    var value, rest := chunks[0].s, Wrapped(chunks[1..]);
    assert "" + rest == rest && Wrapped(chunks) == Literal(value) + rest;
    if EndsInBrace(before) {
      BraceBreaksLiteral(before, value, rest);
    } else {
      TextReads(before, Literal(value) + rest);
      LiteralReads(value, rest);
      assert Read(rest).Some? ==> before + (value + Read(rest).value) == before + value + Read(rest).value;
    }
  }

  lemma EmptyReads()
    ensures Read("") == Some("")
  {
  }

  // ---------------------------------------------------------------- templates

  /** An expression of the template, or a call that turns one's value into a Jinja literal. */
  datatype Expr<X> = Source(x: X) | LiteralCall(arg: Expr<X>)

  /** A missing else branch is an empty one. */
  datatype Element<X> =
    | LiteralText(s: string)
    | Interpolation(expr: Expr<X>)
    | If(cond: X, yes: seq<Element<X>>, no: seq<Element<X>>)
    | For(items: X, body: seq<Element<X>>)

  type Template<X> = seq<Element<X>>

  /** The evaluator: the text of a value, the truth of a condition, the scope of each round of a loop. */
  datatype Evaluator<!Env, !X> = Evaluator(
    text: (Env, X) -> Option<string>,
    truth: (Env, X) -> Option<bool>,
    rounds: (Env, X) -> Option<seq<Env>>)

  function TextOf<Env, X>(v: Evaluator<Env, X>, env: Env, expr: Expr<X>): Option<string> {
    match expr
    case Source(x) => v.text(env, x)
    case LiteralCall(arg) =>
      var text := TextOf(v, env, arg);
      if text.None? then None else Some(Literal(text.value))
  }

  function Both<T>(a: Option<seq<T>>, b: Option<seq<T>>): Option<seq<T>> {
    if a.None? || b.None? then None else Some(a.value + b.value)
  }

  function Render<Env, X>(v: Evaluator<Env, X>, env: Env, t: Template<X>): Option<string>
    decreases t, 0
  {
    if t == [] then Some("") else Both(RenderElement(v, env, t[0]), Render(v, env, t[1..]))
  }

  function RenderElement<Env, X>(v: Evaluator<Env, X>, env: Env, e: Element<X>): Option<string>
    decreases e, 1
  {
    match e
    case LiteralText(s) => Some(s)
    case Interpolation(expr) => TextOf(v, env, expr)
    case If(cond, yes, no) =>
      var truth := v.truth(env, cond);
      if truth.None? then None else if truth.value then Render(v, env, yes) else Render(v, env, no)
    case For(items, body) =>
      var rounds := v.rounds(env, items);
      if rounds.None? then None else RenderRounds(v, rounds.value, body)
  }

  function RenderRounds<Env, X>(v: Evaluator<Env, X>, rounds: seq<Env>, body: Template<X>): Option<string>
    decreases body, 1, |rounds|
  {
    if rounds == [] then Some("") else Both(Render(v, rounds[0], body), RenderRounds(v, rounds[1..], body))
  }

  function Wrap<X>(t: Template<X>): Template<X> {
    if t == [] then [] else [WrapElement(t[0])] + Wrap(t[1..])
  }

  function WrapElement<X>(e: Element<X>): Element<X> {
    match e
    case LiteralText(s) => e
    case Interpolation(expr) => Interpolation(LiteralCall(expr))
    case If(cond, yes, no) => If(cond, Wrap(yes), Wrap(no))
    case For(items, body) => For(items, Wrap(body))
  }

  method WrapInterpolations<X>(t: Template<X>) returns (out: Template<X>)
    ensures out == Wrap(t)
    decreases t
  {
    out := [];
    for i := 0 to |t|
      invariant out + Wrap(t[i..]) == Wrap(t)
    {
      var element := t[i];
      match element {
        case LiteralText(_) =>
        case Interpolation(expr) => element := Interpolation(LiteralCall(expr));
        case If(cond, yes, no) =>
          var wrappedYes := WrapInterpolations(yes);
          var wrappedNo := WrapInterpolations(no);
          element := If(cond, wrappedYes, wrappedNo);
        case For(items, body) =>
          var wrappedBody := WrapInterpolations(body);
          element := For(items, wrappedBody);
      }
      assert element == WrapElement(t[i]) && t[i..][1..] == t[i + 1..];
      out := out + [element];
    }
    assert t[|t|..] == [];
  }

  // ---------------------------------------------------------------- both passes together

  function Chunks<Env, X>(v: Evaluator<Env, X>, env: Env, t: Template<X>): Option<seq<Chunk>>
    decreases t, 0
  {
    if t == [] then Some([]) else Both(ElementChunks(v, env, t[0]), Chunks(v, env, t[1..]))
  }

  function ElementChunks<Env, X>(v: Evaluator<Env, X>, env: Env, e: Element<X>): Option<seq<Chunk>>
    decreases e, 1
  {
    match e
    case LiteralText(s) => Some([Text(s)])
    case Interpolation(expr) =>
      var text := TextOf(v, env, expr);
      if text.None? then None else Some([Value(text.value)])
    case If(cond, yes, no) =>
      var truth := v.truth(env, cond);
      if truth.None? then None else if truth.value then Chunks(v, env, yes) else Chunks(v, env, no)
    case For(items, body) =>
      var rounds := v.rounds(env, items);
      if rounds.None? then None else RoundChunks(v, rounds.value, body)
  }

  function RoundChunks<Env, X>(v: Evaluator<Env, X>, rounds: seq<Env>, body: Template<X>): Option<seq<Chunk>>
    decreases body, 1, |rounds|
  {
    if rounds == [] then Some([]) else Both(Chunks(v, rounds[0], body), RoundChunks(v, rounds[1..], body))
  }

  /** `plain` and `wrapped` are what the chunks come to, as they are and with each value a literal. */
  predicate Outputs(chunks: Option<seq<Chunk>>, plain: Option<string>, wrapped: Option<string>) {
    if chunks.None? then plain.None? && wrapped.None?
    else plain == Some(Plain(chunks.value)) && wrapped == Some(Wrapped(chunks.value))
  }

  lemma {:induction false} Joined(a: seq<Chunk>, b: seq<Chunk>)
    ensures Plain(a + b) == Plain(a) + Plain(b)
    ensures Wrapped(a + b) == Wrapped(a) + Wrapped(b)
  {
    hide Shown;
    if a == [] {
      assert a + b == b;
    } else {
      assert (a + b)[0] == a[0] && (a + b)[1..] == a[1..] + b;
      Joined(a[1..], b);
    }
  }

  lemma BothOutput(a: Option<seq<Chunk>>, b: Option<seq<Chunk>>,
                   p: Option<string>, q: Option<string>, w: Option<string>, x: Option<string>)
    requires Outputs(a, p, w) && Outputs(b, q, x)
    ensures Outputs(Both(a, b), Both(p, q), Both(w, x))
  {
    if a.Some? && b.Some? { Joined(a.value, b.value); }
  }

  /** Wrapping changes what each value is written as, and nothing else about the output. */
  lemma {:induction false} TemplateOutput<Env, X>(v: Evaluator<Env, X>, env: Env, t: Template<X>)
    ensures Outputs(Chunks(v, env, t), Render(v, env, t), Render(v, env, Wrap(t)))
    decreases t, 0
  {
    if t != [] {
      ElementOutput(v, env, t[0]);
      TemplateOutput(v, env, t[1..]);
      assert Wrap(t)[0] == WrapElement(t[0]) && Wrap(t)[1..] == Wrap(t[1..]);
      BothOutput(ElementChunks(v, env, t[0]), Chunks(v, env, t[1..]),
                 RenderElement(v, env, t[0]), Render(v, env, t[1..]),
                 RenderElement(v, env, WrapElement(t[0])), Render(v, env, Wrap(t[1..])));
    }
  }

  lemma {:induction false} ElementOutput<Env, X>(v: Evaluator<Env, X>, env: Env, e: Element<X>)
    ensures Outputs(ElementChunks(v, env, e), RenderElement(v, env, e), RenderElement(v, env, WrapElement(e)))
    decreases e, 1
  {
    match e
    case LiteralText(s) => OneChunk(Text(s));
    case Interpolation(expr) =>
      var text := TextOf(v, env, expr);
      if text.Some? { OneChunk(Value(text.value)); }
    case If(cond, yes, no) =>
      TemplateOutput(v, env, yes);
      TemplateOutput(v, env, no);
    case For(items, body) =>
      var rounds := v.rounds(env, items);
      if rounds.Some? { RoundsOutput(v, rounds.value, body); }
  }

  lemma {:induction false} RoundsOutput<Env, X>(v: Evaluator<Env, X>, rounds: seq<Env>, body: Template<X>)
    ensures Outputs(RoundChunks(v, rounds, body), RenderRounds(v, rounds, body), RenderRounds(v, rounds, Wrap(body)))
    decreases body, 1, |rounds|
  {
    if rounds != [] {
      TemplateOutput(v, rounds[0], body);
      RoundsOutput(v, rounds[1..], body);
      BothOutput(Chunks(v, rounds[0], body), RoundChunks(v, rounds[1..], body),
                 Render(v, rounds[0], body), RenderRounds(v, rounds[1..], body),
                 Render(v, rounds[0], Wrap(body)), RenderRounds(v, rounds[1..], Wrap(body)));
    }
  }

  lemma OneChunk(chunk: Chunk)
    ensures Plain([chunk]) == chunk.s
    ensures Wrapped([chunk]) == Shown(chunk)
  {
    assert Plain([chunk]) == chunk.s + Plain([]);
    assert Wrapped([chunk]) == Shown(chunk) + Wrapped([]);
  }

  /**
    Where the template's own text holds no Jinja markup, rendering the wrapped template and then
    reading it as Jinja does gives the very text the template stands for, whatever the values are,
    if and only if none of them comes right after an opening brace of the template's own.
   */
  lemma WrappingPreservesText<Env, X>(v: Evaluator<Env, X>, env: Env, t: Template<X>)
    ensures Chunks(v, env, t).None? <==> Render(v, env, t).None?
    ensures Render(v, env, Wrap(t)).None? <==> Render(v, env, t).None?
    ensures Render(v, env, t).Some? && MarkupFree("", Chunks(v, env, t).value) ==>
              (Read(Render(v, env, Wrap(t)).value) == Render(v, env, t)
               <==> NoBraceBeforeValue("", Chunks(v, env, t).value))
  {
    TemplateOutput(v, env, t);
    hide Read, Literal;
    var chunks := Chunks(v, env, t);
    if chunks.Some? && MarkupFree("", chunks.value) {
      ChunksRead("", chunks.value);
      assert "" + Wrapped(chunks.value) == Wrapped(chunks.value) && "" + Plain(chunks.value) == Plain(chunks.value);
    }
  }

  // ---------------------------------------------------------------- seen from the template alone

  predicate Closed(s: string) { NoOpening(s) && !EndsInBrace(s) }

  /** No text of the template's own holds Jinja markup or ends in an opening brace. */
  predicate ClosedTemplate<X>(t: Template<X>) { forall i :: 0 <= i < |t| ==> ClosedElement(t[i]) }

  predicate ClosedElement<X>(e: Element<X>) {
    match e
    case LiteralText(s) => Closed(s)
    case Interpolation(_) => true
    case If(_, yes, no) => ClosedTemplate(yes) && ClosedTemplate(no)
    case For(_, body) => ClosedTemplate(body)
  }

  predicate ClosedChunks(chunks: seq<Chunk>) {
    forall i :: 0 <= i < |chunks| && chunks[i].Text? ==> Closed(chunks[i].s)
  }

  lemma ClosedJoin(a: string, b: string)
    requires Closed(a) && Closed(b)
    ensures Closed(a + b)
  {
    forall i | 0 <= i < |a + b| ensures !OpensMarkup((a + b)[i..]) {
      if i < |a| {
        assert !OpensMarkup(a[i..]);
      } else {
        assert (a + b)[i..] == b[i - |a|..];
      }
    }
  }

  lemma {:induction false} ClosedChunksSurvive(before: string, chunks: seq<Chunk>)
    requires Closed(before) && ClosedChunks(chunks)
    ensures MarkupFree(before, chunks) && NoBraceBeforeValue(before, chunks)
    decreases |chunks|
  {
    if chunks != [] {
      hide NoOpening;
      if chunks[0].Text? {
        ClosedJoin(before, chunks[0].s);
        ClosedChunksSurvive(before + chunks[0].s, chunks[1..]);
      } else {
        EmptyIsClosed();
        ClosedChunksSurvive("", chunks[1..]);
      }
    }
  }

  lemma {:induction false} ClosedTemplateChunks<Env, X>(v: Evaluator<Env, X>, env: Env, t: Template<X>)
    requires ClosedTemplate(t) && Chunks(v, env, t).Some?
    ensures ClosedChunks(Chunks(v, env, t).value)
    decreases t, 0
  {
    if t != [] {
      ClosedElementChunks(v, env, t[0]);
      ClosedTemplateChunks(v, env, t[1..]);
    }
  }

  lemma {:induction false} ClosedElementChunks<Env, X>(v: Evaluator<Env, X>, env: Env, e: Element<X>)
    requires ClosedElement(e) && ElementChunks(v, env, e).Some?
    ensures ClosedChunks(ElementChunks(v, env, e).value)
    decreases e, 1
  {
    match e
    case LiteralText(s) =>
    case Interpolation(expr) =>
    case If(cond, yes, no) =>
      if v.truth(env, cond).value { ClosedTemplateChunks(v, env, yes); } else { ClosedTemplateChunks(v, env, no); }
    case For(items, body) => ClosedRoundChunks(v, v.rounds(env, items).value, body);
  }

  lemma {:induction false} ClosedRoundChunks<Env, X>(v: Evaluator<Env, X>, rounds: seq<Env>, body: Template<X>)
    requires ClosedTemplate(body) && RoundChunks(v, rounds, body).Some?
    ensures ClosedChunks(RoundChunks(v, rounds, body).value)
    decreases body, 1, |rounds|
  {
    if rounds != [] {
      ClosedTemplateChunks(v, rounds[0], body);
      ClosedRoundChunks(v, rounds[1..], body);
    }
  }

  /** Such a template keeps its text through both passes, for every scope and every value. */
  lemma ClosedTemplatesKeepText<Env, X>(v: Evaluator<Env, X>, env: Env, t: Template<X>)
    requires ClosedTemplate(t) && Render(v, env, t).Some?
    ensures Render(v, env, Wrap(t)).Some? && Read(Render(v, env, Wrap(t)).value) == Render(v, env, t)
  {
    hide Read, Closed, ClosedTemplate, ClosedChunks, MarkupFree, NoBraceBeforeValue;
    WrappingPreservesText(v, env, t);
    ClosedTemplateChunks(v, env, t);
    EmptyIsClosed();
    ClosedChunksSurvive("", Chunks(v, env, t).value);
  }

  lemma EmptyIsClosed()
    ensures Closed("")
  {
  }

  /** A brace before an interpolation: the output of the first pass is no template Jinja can read. */
  lemma BraceBeforeInterpolationFails<Env, X>(v: Evaluator<Env, X>, env: Env, x: X, value: string)
    requires v.text(env, x) == Some(value)
    ensures var t := [LiteralText("{"), Interpolation(Source(x))];
            Render(v, env, t) == Some("{" + value)
            && Render(v, env, Wrap(t)) == Some("{" + Literal(value))
            && Read("{" + Literal(value)) == None
  {
    hide Read, Literal, Render, RenderElement, Wrap;
    var hole := Interpolation(Source(x));
    var t := [LiteralText("{"), hole];
    TemplateOutput(v, env, t);
    assert TextOf(v, env, Source(x)) == Some(value);
    assert ElementChunks(v, env, hole) == Some([Value(value)]);
    assert t[1..] == [hole] && [hole][1..] == [];
    assert [Value(value)] + [] == [Value(value)];
    assert Chunks(v, env, [hole]) == Some([Value(value)]);
    assert Chunks(v, env, t) == Some([Text("{")] + [Value(value)]);
    Joined([Text("{")], [Value(value)]);
    OneChunk(Text("{"));
    OneChunk(Value(value));
    assert Literal(value) + "" == Literal(value);
    BraceBreaksLiteral("{", value, "");
  }
}
