/**
  The redaction scanner for WAF evidence. The scanner splits a text into free text and sensitive
  parameters; the segmentation is lossless, it is stable under changing secret values, and the
  output depends on nothing but the segmentation with its secrets masked.
*/
module Redaction {

  const REDACTED: string := "+++++"

  /** The Unicode tables and the list of sensitive words the scanner consults. */
  datatype Lexicon = Lexicon(
    alphanumeric: char -> bool, whitespace: char -> bool, lower: string -> string, sensitiveWords: seq<string>
  ) {
    /** The characters the scanner gives a meaning of their own are not letters or digits. */
    predicate Valid() { forall c :: c in " \t\"'=:" ==> !alphanumeric(c) }
  }

  predicate OccursAt(s: string, i: int, word: string) {
    0 <= i <= |s| - |word| && s[i..i + |word|] == word
  }

  predicate Contains(s: string, word: string) {
    exists i :: 0 <= i <= |s| && OccursAt(s, i, word)
  }

  function TrimQuotes(s: string): string
    decreases |s|
  {
    if s != [] && s[0] in "\"'" then TrimQuotes(s[1..])
    else if s != [] && s[|s| - 1] in "\"'" then TrimQuotes(s[..|s| - 1])
    else s
  }

  function TrimSpace(lex: Lexicon, s: string): string
    decreases |s|
  {
    if s != [] && lex.whitespace(s[0]) then TrimSpace(lex, s[1..])
    else if s != [] && lex.whitespace(s[|s| - 1]) then TrimSpace(lex, s[..|s| - 1])
    else s
  }

  predicate IsSensitiveKey(lex: Lexicon, key: string) {
    var name := lex.lower(TrimQuotes(TrimSpace(lex, key)));
    name != [] && exists w :: w in lex.sensitiveWords && Contains(name, w)
  }

  predicate IsKeyChar(lex: Lexicon, c: char) { lex.alphanumeric(c) || c == '_' || c == '-' }

  predicate IsValueTerminator(c: char) {
    || c == '&' || c == ';' || c == ',' || c == '\n' || c == '\r' || c == '\t' || c == ' ' || c == '"'
    || c == '\'' || c == '}' || c == ']' || c == ')' || c == '<' || c == '>' || c == '#'
  }

  predicate IsQuote(c: char) { c == '"' || c == '\'' }

  predicate IsDelimiter(c: char) { c == '=' || c == ':' }

  // ---------------------------------------------------------------- maximal runs

  /** The character classes the scanner's inner loops run over. */
  datatype Class = Name | Gap | Blank | Unquoted | Until(quote: char)

  predicate Member(lex: Lexicon, k: Class, c: char) {
    match k
    case Name => IsKeyChar(lex, c)
    case Gap => c == ' ' || c == '\t' || IsQuote(c)
    case Blank => c == ' ' || c == '\t'
    case Unquoted => !IsValueTerminator(c)
    case Until(q) => c != q
  }

  predicate AllIn(lex: Lexicon, k: Class, s: string) {
    forall i :: 0 <= i < |s| ==> Member(lex, k, s[i])
  }

  predicate Stops(lex: Lexicon, k: Class, s: string) { s == [] || !Member(lex, k, s[0]) }

  datatype Read<T> = Read(item: T, rest: string)

  /** Splits off the longest prefix in the class. */
  function Run(lex: Lexicon, k: Class, s: string): (r: Read<string>)
    ensures r.item + r.rest == s && AllIn(lex, k, r.item) && Stops(lex, k, r.rest)
  {
    if Stops(lex, k, s) then Read([], s)
    else
      var r := Run(lex, k, s[1..]);
      Read([s[0]] + r.item, r.rest)
  }

  lemma {:induction false} RunOf(lex: Lexicon, k: Class, a: string, b: string)
    requires AllIn(lex, k, a) && Stops(lex, k, b)
    ensures Run(lex, k, a + b) == Read(a, b)
  {
    if a == [] {
      assert a + b == b;
    } else {
      assert (a + b)[1..] == a[1..] + b && (a + b)[0] == a[0];
      RunOf(lex, k, a[1..], b);
      assert a == [a[0]] + a[1..];
    }
  }

  // ---------------------------------------------------------------- segments

  datatype Value = Bare(body: string) | Quoted(quote: char, body: string, closed: bool)

  /** A sensitive parameter: its name, the gap before the delimiter, the delimiter, the blanks
      before the value, the value. */
  datatype Segment =
    | Text(text: string)
    | Param(name: string, gap: string, delimiter: char, lead: string, value: Value)

  /** A value, a segment, a segmentation printed in front of `rest`. */
  function ValueOnto(v: Value, rest: string): string {
    match v
    case Bare(body) => body + rest
    case Quoted(q, body, closed) => [q] + (body + (if closed then [q] + rest else rest))
  }

  function Onto(p: Segment, rest: string): string {
    match p
    case Text(text) => text + rest
    case Param(name, gap, d, lead, value) => name + (gap + ([d] + (lead + ValueOnto(value, rest))))
  }

  function Print(segments: seq<Segment>): string {
    if segments == [] then [] else Onto(segments[0], Print(segments[1..]))
  }

  function ReadValue(lex: Lexicon, s: string): (r: Read<Value>)
    ensures ValueOnto(r.item, r.rest) == s
  {
    if s != [] && IsQuote(s[0]) then
      var body := Run(lex, Until(s[0]), s[1..]);
      if body.rest == [] then Read(Quoted(s[0], body.item, false), [])
      else Read(Quoted(s[0], body.item, true), body.rest[1..])
    else
      var body := Run(lex, Unquoted, s);
      Read(Bare(body.item), body.rest)
  }

  predicate AtDelimiter(lex: Lexicon, s: string) {
    var r := Run(lex, Gap, s).rest;
    r != [] && IsDelimiter(r[0])
  }

  lemma ParamParts(p: Segment, rest: string, atValue: string, atDelimiter: string, atGap: string)
    requires p.Param? && atDelimiter != [] && atDelimiter[0] == p.delimiter
    requires ValueOnto(p.value, rest) == atValue && p.lead + atValue == atDelimiter[1..]
    requires p.gap + atDelimiter == atGap
    ensures Onto(p, rest) == p.name + atGap
  {
    hide ValueOnto;
    assert [p.delimiter] + (p.lead + atValue) == atDelimiter;
  }

  /** The parameter called `name` whose gap begins at `s`. */
  function ReadParam(lex: Lexicon, name: string, s: string): (r: Read<Segment>)
    requires AtDelimiter(lex, s)
    ensures r.item.Param? && r.item.name == name && Onto(r.item, r.rest) == name + s
  {
    var gap := Run(lex, Gap, s);
    var lead := Run(lex, Blank, gap.rest[1..]);
    var value := ReadValue(lex, lead.rest);
    var p := Param(name, gap.item, gap.rest[0], lead.item, value.item);
    ParamParts(p, value.rest, lead.rest, gap.rest, s);
    Read(p, value.rest)
  }

  lemma OntoLength(p: Segment, rest: string)
    requires p.Param?
    ensures |Onto(p, rest)| >= |p.name| + |rest|
  {
  }

  function ReadSegment(lex: Lexicon, s: string): (r: Read<Segment>)
    requires s != []
    ensures Onto(r.item, r.rest) == s && |r.rest| < |s|
  {
    if !IsKeyChar(lex, s[0]) then Read(Text([s[0]]), s[1..])
    else
      var name := Run(lex, Name, s);
      assert name.item != [];
      if AtDelimiter(lex, name.rest) && IsSensitiveKey(lex, name.item) then
        var r := ReadParam(lex, name.item, name.rest);
        OntoLength(r.item, r.rest);
        r
      else Read(Text(name.item), name.rest)
  }

  function Scan(lex: Lexicon, s: string): (segments: seq<Segment>)
    decreases |s|
  {
    if s == [] then []
    else
      var r := ReadSegment(lex, s);
      [r.item] + Scan(lex, r.rest)
  }

  // ---------------------------------------------------------------- masking

  function MaskBody(body: string): string { if body == [] then [] else REDACTED }

  function MaskValue(v: Value): Value { v.(body := MaskBody(v.body)) }

  function Mask(p: Segment): Segment {
    match p
    case Text(_) => p
    case Param(_, _, _, _, value) => p.(value := MaskValue(value))
  }

  function MaskAll(segments: seq<Segment>): (masked: seq<Segment>)
    ensures |masked| == |segments|
    ensures forall i :: 0 <= i < |segments| ==> masked[i] == Mask(segments[i])
  {
    if segments == [] then [] else [Mask(segments[0])] + MaskAll(segments[1..])
  }

  function Redact(lex: Lexicon, s: string): string { Print(MaskAll(Scan(lex, s))) }

  // ---------------------------------------------------------------- the scanner

  lemma RedactUnfold(lex: Lexicon, s: string)
    requires s != []
    ensures var r := ReadSegment(lex, s);
            Redact(lex, s) == Onto(Mask(r.item), Redact(lex, r.rest))
  {
    hide ReadSegment, Onto;
    var r := ReadSegment(lex, s);
    var rest := Scan(lex, r.rest);
    assert Scan(lex, s) == [r.item] + rest;
    assert MaskAll([r.item] + rest) == [Mask(r.item)] + MaskAll(rest);
    assert ([Mask(r.item)] + MaskAll(rest))[1..] == MaskAll(rest);
  }

  lemma ValueOntoSplits(v: Value, rest: string)
    ensures ValueOnto(v, rest) == ValueOnto(v, []) + rest
  {
    match v
    case Bare(body) =>
      assert body + [] == body;
    case Quoted(q, body, closed) =>
      var end := if closed then [q] else [];
      assert end + [] == end;
      assert [q] + (body + (end + rest)) == ([q] + (body + end)) + rest;
      assert closed ==> ValueOnto(v, []) == [q] + (body + end);
  }

  lemma OntoSplits(p: Segment, rest: string)
    ensures Onto(p, rest) == Onto(p, []) + rest
  {
    match p
    case Text(text) =>
      assert text + [] == text;
    case Param(name, gap, d, lead, value) =>
      ValueOntoSplits(value, rest);
      var v := ValueOnto(value, []);
      assert name + (gap + ([d] + (lead + (v + rest)))) == (name + (gap + ([d] + (lead + v)))) + rest;
  }

  /** Advances past a maximal run of one class. */
  method SkipRun(lex: Lexicon, k: Class, chars: string, start: nat) returns (i: nat)
    requires start <= |chars|
    ensures start <= i <= |chars|
    ensures Run(lex, k, chars[start..]) == Read(chars[start..i], chars[i..])
  {
    i := start;
    while i < |chars| && Member(lex, k, chars[i])
      invariant start <= i <= |chars|
      invariant AllIn(lex, k, chars[start..i])
    {
      assert chars[start..i + 1] == chars[start..i] + [chars[i]];
      i := i + 1;
    }
    assert chars[start..] == chars[start..i] + chars[i..];
    RunOf(lex, k, chars[start..i], chars[i..]);
  }

  method RedactQuoted(lex: Lexicon, chars: string, start: nat, prefix: string) returns (i: nat, out: string)
    requires start < |chars| && IsQuote(chars[start])
    ensures start <= i <= |chars|
    ensures var r := ReadValue(lex, chars[start..]);
            chars[i..] == r.rest && out == prefix + ValueOnto(MaskValue(r.item), [])
  {
    hide Run;
    var opening := chars[start];
    i := SkipRun(lex, Until(opening), chars, start + 1);
    ghost var body := chars[start + 1..i];
    assert chars[start..][1..] == chars[start + 1..];
    out := prefix + [opening];
    if i > start + 1 {
      out := out + REDACTED;
    }
    assert out == prefix + ([opening] + MaskBody(body));
    if i < |chars| {
      assert chars[i..][0] == opening && chars[i..][1..] == chars[i + 1..];
      out := out + [chars[i]];
      i := i + 1;
      assert out == prefix + ([opening] + (MaskBody(body) + ([opening] + [])));
    } else {
      assert out == prefix + ([opening] + (MaskBody(body) + []));
    }
  }

  method RedactValue(lex: Lexicon, chars: string, start: nat, prefix: string) returns (i: nat, out: string)
    requires start <= |chars|
    ensures start <= i <= |chars|
    ensures var r := ReadValue(lex, chars[start..]);
            chars[i..] == r.rest && out == prefix + ValueOnto(MaskValue(r.item), [])
  {
    hide Run;
    if start < |chars| && IsQuote(chars[start]) {
      i, out := RedactQuoted(lex, chars, start, prefix);
    } else {
      i := SkipRun(lex, Unquoted, chars, start);
      out := prefix;
      if i > start {
        out := out + REDACTED;
      }
      assert out == prefix + (MaskBody(chars[start..i]) + []);
    }
  }

  /** The masked branch of the scan: name, gap and delimiter verbatim, then the value masked. */
  method RedactParam(lex: Lexicon, chars: string, name: string, start: nat, j: nat, prefix: string)
    returns (i: nat, out: string)
    requires start <= j < |chars| && IsDelimiter(chars[j])
    requires Run(lex, Gap, chars[start..]) == Read(chars[start..j], chars[j..])
    ensures start <= i <= |chars| && AtDelimiter(lex, chars[start..])
    ensures var r := ReadParam(lex, name, chars[start..]);
            chars[i..] == r.rest && out == prefix + Onto(Mask(r.item), [])
  {
    hide Run, ReadValue, ValueOnto, MaskValue;
    assert chars[j..][0] == chars[j] && chars[j..][1..] == chars[j + 1..];
    assert chars[start..j + 1] == chars[start..j] + [chars[j]];
    var b := SkipRun(lex, Blank, chars, j + 1);
    out := prefix + name + chars[start..j + 1] + chars[j + 1..b];
    ghost var before := out;
    i, out := RedactValue(lex, chars, b, out);
    Regroup(prefix, name, chars[start..j], chars[j], chars[j + 1..b],
            ValueOnto(MaskValue(ReadValue(lex, chars[b..]).item), []));
  }

  lemma Regroup(a: string, b: string, c: string, d: char, e: string, f: string)
    ensures a + b + (c + [d]) + e + f == a + (b + (c + ([d] + (e + f))))
  {
  }

  /** One round of the scan. */
  method RedactSegment(lex: Lexicon, chars: string, start: nat, prefix: string) returns (i: nat, out: string)
    requires start < |chars|
    ensures start < i <= |chars|
    ensures var r := ReadSegment(lex, chars[start..]);
            chars[i..] == r.rest && out == prefix + Onto(Mask(r.item), [])
  {
    hide Run, ReadParam, IsSensitiveKey;
    assert chars[start..][0] == chars[start] && chars[start..][1..] == chars[start + 1..];
    if !IsKeyChar(lex, chars[start]) {
      i, out := start + 1, prefix + [chars[start]];
      return;
    }
    i := SkipRun(lex, Name, chars, start);
    assert i > start;
    var key := chars[start..i];
    var j := SkipRun(lex, Gap, chars, i);
    if j < |chars| {
      assert chars[j..][0] == chars[j];
    }
    if j < |chars| && IsDelimiter(chars[j]) && IsSensitiveKey(lex, key) {
      i, out := RedactParam(lex, chars, key, i, j, prefix);
    } else {
      out := prefix + key;
      assert Onto(Text(key), []) == key;
    }
  }

  method RedactSensitiveValues(lex: Lexicon, chars: string) returns (out: string)
    ensures out == Redact(lex, chars)
  {
    hide Redact, Onto, ReadSegment;
    out := [];
    var i := 0;
    assert chars[0..] == chars;
    while i < |chars|
      invariant 0 <= i <= |chars|
      invariant out + Redact(lex, chars[i..]) == Redact(lex, chars)
    {
      ghost var r, before := ReadSegment(lex, chars[i..]), out;
      RedactUnfold(lex, chars[i..]);
      i, out := RedactSegment(lex, chars, i, out);
      OntoSplits(Mask(r.item), Redact(lex, r.rest));
      assert before + (Onto(Mask(r.item), []) + Redact(lex, r.rest)) == out + Redact(lex, r.rest);
    }
    RedactNothing(lex);
    assert chars[i..] == [];
  }

  lemma RedactNothing(lex: Lexicon)
    ensures Redact(lex, []) == []
  {
  }

  // ---------------------------------------------------------------- segmentations as a grammar

  /** What a segment may be, given the text printed after it. */
  ghost predicate Fits(lex: Lexicon, p: Segment, rest: string) {
    match p
    case Text(text) =>
      || (|text| == 1 && !IsKeyChar(lex, text[0]))
      || (text != [] && AllIn(lex, Name, text) && Stops(lex, Name, rest)
          && !(AtDelimiter(lex, rest) && IsSensitiveKey(lex, text)))
    case Param(name, gap, d, lead, value) =>
      && name != [] && AllIn(lex, Name, name) && IsSensitiveKey(lex, name)
      && AllIn(lex, Gap, gap) && IsDelimiter(d) && AllIn(lex, Blank, lead) && ValueFits(lex, value, rest)
  }

  ghost predicate ValueFits(lex: Lexicon, v: Value, rest: string) {
    match v
    case Bare(body) =>
      && AllIn(lex, Unquoted, body) && Stops(lex, Unquoted, rest)
      && (body == [] && rest != [] ==> !IsQuote(rest[0]) && !Member(lex, Blank, rest[0]))
    case Quoted(q, body, closed) =>
      IsQuote(q) && AllIn(lex, Until(q), body) && (!closed ==> rest == [])
  }

  ghost predicate WellFormed(lex: Lexicon, segments: seq<Segment>) {
    segments == [] || (Fits(lex, segments[0], Print(segments[1..])) && WellFormed(lex, segments[1..]))
  }

  lemma ReadValueFits(lex: Lexicon, s: string)
    requires Stops(lex, Blank, s)
    ensures var r := ReadValue(lex, s); ValueFits(lex, r.item, r.rest)
  {
  }

  lemma ReadSegmentFits(lex: Lexicon, s: string)
    requires s != []
    ensures var r := ReadSegment(lex, s); Fits(lex, r.item, r.rest)
  {
    hide IsSensitiveKey, ReadValue, ValueFits;
    var name := Run(lex, Name, s);
    if IsKeyChar(lex, s[0]) && AtDelimiter(lex, name.rest) && IsSensitiveKey(lex, name.item) {
      var gap := Run(lex, Gap, name.rest);
      ReadValueFits(lex, Run(lex, Blank, gap.rest[1..]).rest);
    }
  }

  /** The segmentation is lossless: it prints back the input, and follows the grammar. */
  lemma {:induction false} ScanIsLossless(lex: Lexicon, s: string)
    ensures Print(Scan(lex, s)) == s && WellFormed(lex, Scan(lex, s))
    decreases |s|
  {
    hide ReadSegment, Onto, Fits;
    if s != [] {
      var r := ReadSegment(lex, s);
      ScanIsLossless(lex, r.rest);
      ReadSegmentFits(lex, s);
      assert Scan(lex, s) == [r.item] + Scan(lex, r.rest);
      assert ([r.item] + Scan(lex, r.rest))[1..] == Scan(lex, r.rest);
    }
  }

  lemma ReadValueBack(lex: Lexicon, v: Value, rest: string)
    requires ValueFits(lex, v, rest)
    ensures ReadValue(lex, ValueOnto(v, rest)) == Read(v, rest)
    ensures Stops(lex, Blank, ValueOnto(v, rest))
  {
    hide Run;
    match v
    case Bare(body) =>
      RunOf(lex, Unquoted, body, rest);
      if body == [] { assert body + rest == rest; } else { assert (body + rest)[0] == body[0]; }
    case Quoted(q, body, closed) =>
      var tail := if closed then [q] + rest else rest;
      assert ([q] + (body + tail))[1..] == body + tail;
      RunOf(lex, Until(q), body, tail);
      if closed { assert tail[1..] == rest; }
  }

  lemma ReadParamBack(lex: Lexicon, p: Segment, rest: string)
    requires p.Param? && Fits(lex, p, rest)
    ensures var after := p.gap + ([p.delimiter] + (p.lead + ValueOnto(p.value, rest)));
            AtDelimiter(lex, after) && ReadParam(lex, p.name, after) == Read(p, rest)
  {
    hide Run, ReadValue, IsSensitiveKey, ValueOnto;
    var tail := p.lead + ValueOnto(p.value, rest);
    RunOf(lex, Gap, p.gap, [p.delimiter] + tail);
    assert ([p.delimiter] + tail)[1..] == tail;
    ReadValueBack(lex, p.value, rest);
    RunOf(lex, Blank, p.lead, ValueOnto(p.value, rest));
  }

  lemma ReadSegmentBack(lex: Lexicon, p: Segment, rest: string)
    requires lex.Valid() && Fits(lex, p, rest)
    ensures Onto(p, rest) != [] && ReadSegment(lex, Onto(p, rest)) == Read(p, rest)
  {
    hide Run, ReadParam, IsSensitiveKey, ValueOnto, AtDelimiter;
    match p
    case Text(text) =>
      assert (text + rest)[0] == text[0] && (text + rest)[1..] == text[1..] + rest;
      if IsKeyChar(lex, text[0]) { RunOf(lex, Name, text, rest); } else { assert text[1..] + rest == rest; }
    case Param(name, gap, d, lead, value) =>
      var after := gap + ([d] + (lead + ValueOnto(value, rest)));
      assert after[0] == if gap == [] then d else gap[0];
      RunOf(lex, Name, name, after);
      ReadParamBack(lex, p, rest);
      assert (name + after)[0] == name[0];
  }

  /** Scanning inverts printing on every segmentation that follows the grammar. */
  lemma {:induction false} ScanInvertsPrint(lex: Lexicon, segments: seq<Segment>)
    requires lex.Valid() && WellFormed(lex, segments)
    ensures Scan(lex, Print(segments)) == segments
  {
    hide ReadSegment, Onto, Fits;
    if segments != [] {
      ReadSegmentBack(lex, segments[0], Print(segments[1..]));
      ScanInvertsPrint(lex, segments[1..]);
      assert segments == [segments[0]] + segments[1..];
    }
  }

  // ---------------------------------------------------------------- changing secrets

  /** `w` is another secret in the same place: same form, empty only where `v` is empty, and
      written without the characters that would end it. */
  ghost predicate OtherSecret(lex: Lexicon, v: Value, w: Value) {
    && (v.body == [] <==> w.body == [])
    && match v
       case Bare(_) => w.Bare? && AllIn(lex, Unquoted, w.body)
       case Quoted(q, _, closed) => w.Quoted? && w.quote == q && w.closed == closed && AllIn(lex, Until(q), w.body)
  }

  ghost predicate OtherSegment(lex: Lexicon, a: Segment, b: Segment) {
    match a
    case Text(_) => b == a
    case Param(_, _, _, _, v) => b.Param? && b == a.(value := b.value) && OtherSecret(lex, v, b.value)
  }

  /** The two segmentations differ only inside sensitive values. */
  ghost predicate OtherSecrets(lex: Lexicon, a: seq<Segment>, b: seq<Segment>) {
    |a| == |b| && forall i :: 0 <= i < |a| ==> OtherSegment(lex, a[i], b[i])
  }

  function FirstOf(p: Segment): char
    requires p.Text? ==> p.text != []
    requires p.Param? ==> p.name != []
  {
    if p.Text? then p.text[0] else p.name[0]
  }

  lemma OntoStarts(lex: Lexicon, p: Segment, rest: string)
    requires Fits(lex, p, rest)
    ensures Onto(p, rest) != [] && Onto(p, rest)[0] == FirstOf(p)
    ensures p.Text? && |p.text| == 1 ==> Onto(p, rest)[1..] == rest
    ensures !(p.Text? && |p.text| == 1) ==> IsKeyChar(lex, FirstOf(p))
  {
    hide IsSensitiveKey, ValueFits, ValueOnto, AtDelimiter;
  }

  /** The scanner's lookahead never reaches into a value. */
  lemma {:induction false} LookaheadIsBlind(lex: Lexicon, a: seq<Segment>, b: seq<Segment>)
    requires lex.Valid() && WellFormed(lex, a) && OtherSecrets(lex, a, b)
    ensures (Print(a) == [] <==> Print(b) == []) && (Print(a) != [] ==> Print(a)[0] == Print(b)[0])
    ensures AtDelimiter(lex, Print(a)) == AtDelimiter(lex, Print(b))
  {
    hide IsSensitiveKey, Fits, OtherSegment, Onto, AtDelimiter;
    if a != [] {
      assert OtherSegment(lex, a[0], b[0]);
      LookaheadIsBlind(lex, a[1..], b[1..]);
      OntoStarts(lex, a[0], Print(a[1..]));
      HeadsAgree(lex, a[0], Print(a[1..]), b[0], Print(b[1..]));
      if Member(lex, Gap, Print(a)[0]) {
        GapStep(lex, Print(a));
        GapStep(lex, Print(b));
      } else {
        NoGap(lex, Print(a));
        NoGap(lex, Print(b));
      }
    }
  }

  lemma HeadsAgree(lex: Lexicon, p: Segment, rest: string, q: Segment, rest': string)
    requires Fits(lex, p, rest) && OtherSegment(lex, p, q)
    ensures Onto(q, rest') != [] && Onto(q, rest')[0] == FirstOf(p)
    ensures p.Text? && |p.text| == 1 ==> Onto(q, rest')[1..] == rest'
  {
    hide IsSensitiveKey, ValueFits, ValueOnto, AtDelimiter, OtherSecret;
  }

  lemma NoGap(lex: Lexicon, s: string)
    requires s != [] && !Member(lex, Gap, s[0])
    ensures AtDelimiter(lex, s) == IsDelimiter(s[0])
  {
  }

  lemma GapStep(lex: Lexicon, s: string)
    requires s != [] && Member(lex, Gap, s[0])
    ensures AtDelimiter(lex, s) == AtDelimiter(lex, s[1..])
  {
  }

  lemma {:induction false} OtherSecretsFit(lex: Lexicon, a: seq<Segment>, b: seq<Segment>)
    requires lex.Valid() && WellFormed(lex, a) && OtherSecrets(lex, a, b)
    ensures WellFormed(lex, b)
  {
    if a != [] {
      assert OtherSegment(lex, a[0], b[0]);
      OtherSecretsFit(lex, a[1..], b[1..]);
      LookaheadIsBlind(lex, a[1..], b[1..]);
    }
  }

  lemma PlaceholderIsPlain(lex: Lexicon)
    ensures AllIn(lex, Unquoted, REDACTED)
    ensures forall q :: IsQuote(q) ==> AllIn(lex, Until(q), REDACTED)
  {
  }

  lemma MaskIsAnotherSecret(lex: Lexicon, p: Segment, rest: string)
    requires Fits(lex, p, rest)
    ensures OtherSegment(lex, p, Mask(p))
  {
    hide IsSensitiveKey, AtDelimiter, AllIn, IsQuote;
    PlaceholderIsPlain(lex);
  }

  lemma MaskingIsAnotherSecret(lex: Lexicon, segments: seq<Segment>)
    requires WellFormed(lex, segments)
    ensures OtherSecrets(lex, segments, MaskAll(segments))
  {
    hide Fits, OtherSegment;
    forall i | 0 <= i < |segments|
      ensures OtherSegment(lex, segments[i], MaskAll(segments)[i])
    {
      FitsAt(lex, segments, i);
      MaskIsAnotherSecret(lex, segments[i], Print(segments[i + 1..]));
    }
  }

  lemma {:induction false} FitsAt(lex: Lexicon, segments: seq<Segment>, i: nat)
    requires WellFormed(lex, segments) && i < |segments|
    ensures Fits(lex, segments[i], Print(segments[i + 1..]))
  {
    hide Fits;
    if i > 0 {
      FitsAt(lex, segments[1..], i - 1);
      assert segments[1..][i..] == segments[i + 1..];
    }
  }

  lemma MaskIgnoresSecrets(lex: Lexicon, a: seq<Segment>, b: seq<Segment>)
    requires OtherSecrets(lex, a, b)
    ensures MaskAll(a) == MaskAll(b)
  {
    forall i | 0 <= i < |a|
      ensures Mask(a[i]) == Mask(b[i])
    {
      assert OtherSegment(lex, a[i], b[i]);
    }
  }

  // ---------------------------------------------------------------- what callers rely on

  /** Noninterference: replacing the secrets of `x` by any other secrets of the same form leaves
      the segmentation in place and the output unchanged. */
  lemma RedactionHidesSecrets(lex: Lexicon, x: string, other: seq<Segment>)
    requires lex.Valid() && OtherSecrets(lex, Scan(lex, x), other)
    ensures Scan(lex, Print(other)) == other && Redact(lex, Print(other)) == Redact(lex, x)
  {
    ScanIsLossless(lex, x);
    OtherSecretsFit(lex, Scan(lex, x), other);
    ScanInvertsPrint(lex, other);
    MaskIgnoresSecrets(lex, Scan(lex, x), other);
  }

  /** Re-scanning the output finds the same parameters with their values masked. */
  lemma RescanFindsMask(lex: Lexicon, x: string)
    requires lex.Valid()
    ensures Scan(lex, Redact(lex, x)) == MaskAll(Scan(lex, x))
  {
    ScanIsLossless(lex, x);
    MaskingIsAnotherSecret(lex, Scan(lex, x));
    RedactionHidesSecrets(lex, x, MaskAll(Scan(lex, x)));
  }

  lemma RedactionIsIdempotent(lex: Lexicon, x: string)
    requires lex.Valid()
    ensures Redact(lex, Redact(lex, x)) == Redact(lex, x)
  {
    ScanIsLossless(lex, x);
    MaskingIsAnotherSecret(lex, Scan(lex, x));
    RedactionHidesSecrets(lex, x, MaskAll(Scan(lex, x)));
  }

  /** Two inputs look alike after redaction exactly when they agree outside their secrets. */
  lemma OutputsAgreeIffMasksAgree(lex: Lexicon, x: string, y: string)
    requires lex.Valid()
    ensures Redact(lex, x) == Redact(lex, y) <==> MaskAll(Scan(lex, x)) == MaskAll(Scan(lex, y))
  {
    RescanFindsMask(lex, x);
    RescanFindsMask(lex, y);
  }

  /** An input comes back unchanged exactly when every sensitive value in it is empty or already
      the placeholder; in particular when it has no sensitive parameter. */
  lemma UnchangedIffNothingToHide(lex: Lexicon, x: string)
    requires lex.Valid()
    ensures Redact(lex, x) == x
       <==> forall i :: 0 <= i < |Scan(lex, x)| && Scan(lex, x)[i].Param? ==>
              Scan(lex, x)[i].value.body in {[], REDACTED}
  {
    hide IsSensitiveKey;
    hide Scan, Print;
    var segments := Scan(lex, x);
    ScanIsLossless(lex, x);
    RescanFindsMask(lex, x);
    MaskFixes(segments);
  }

  lemma MaskFixes(segments: seq<Segment>)
    ensures MaskAll(segments) == segments
       <==> forall i :: 0 <= i < |segments| && segments[i].Param? ==> segments[i].value.body in {[], REDACTED}
  {
    forall i | 0 <= i < |segments|
      ensures Mask(segments[i]) == segments[i]
         <==> (segments[i].Param? ==> segments[i].value.body in {[], REDACTED})
    {
    }
    if MaskAll(segments) == segments {
      forall i | 0 <= i < |segments| ensures Mask(segments[i]) == segments[i] {
        assert MaskAll(segments)[i] == segments[i];
      }
    }
  }
}
