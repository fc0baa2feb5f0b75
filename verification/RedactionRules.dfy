/**
  The redaction scanner in plain rules. Each rule says what the output is for one form of text and
  any continuation, in terms of the characters themselves; between them they fix the output of
  every text.
*/
module RedactionRules {
  import opened Redaction

  /** Blanks are neither letters nor digits nor the joiners of names. */
  predicate Tables(lex: Lexicon) {
    lex.Valid() && forall c :: lex.whitespace(c) ==> !lex.alphanumeric(c) && c != '_' && c != '-'
  }

  predicate NameChar(lex: Lexicon, c: char) { lex.alphanumeric(c) || c == '_' || c == '-' }

  predicate IsName(lex: Lexicon, s: string) { s != "" && forall i :: 0 <= i < |s| ==> NameChar(lex, s[i]) }

  predicate IsGap(s: string) {
    forall i :: 0 <= i < |s| ==> s[i] == ' ' || s[i] == '\t' || s[i] == '"' || s[i] == '\''
  }

  predicate IsBlank(s: string) { forall i :: 0 <= i < |s| ==> s[i] == ' ' || s[i] == '\t' }

  /** The characters that end a bare value. */
  predicate Ends(c: char) {
    || c == '&' || c == ';' || c == ',' || c == '\n' || c == '\r' || c == '\t' || c == ' ' || c == '"'
    || c == '\'' || c == '}' || c == ']' || c == ')' || c == '<' || c == '>' || c == '#'
  }

  predicate IsBare(s: string) { forall i :: 0 <= i < |s| ==> !Ends(s[i]) }

  predicate Cut(s: string, a: string, w: string, b: string) { s == a + w + b }

  /** A listed word occurs in the lower-cased name. */
  ghost predicate Listed(lex: Lexicon, name: string) {
    lex.lower(name) != "" && exists w, a, b :: w in lex.sensitiveWords && Cut(lex.lower(name), a, w, b)
  }

  // ---------------------------------------------------------------- which names are sensitive

  lemma ContainsIff(s: string, w: string)
    ensures Contains(s, w) <==> exists a, b :: Cut(s, a, w, b)
  {
    if Contains(s, w) {
      var i :| 0 <= i <= |s| && OccursAt(s, i, w);
      assert Cut(s, s[..i], w, s[i + |w|..]);
    }
    if a, b :| Cut(s, a, w, b) {
      assert s[|a|..|a| + |w|] == w;
      assert OccursAt(s, |a|, w);
    }
  }

  /** Trimming removes the white space around a text, and all of it. */
  lemma {:induction false} TrimSpaceExact(lex: Lexicon, a: string, core: string, b: string)
    requires forall i :: 0 <= i < |a| ==> lex.whitespace(a[i])
    requires forall i :: 0 <= i < |b| ==> lex.whitespace(b[i])
    requires core != "" ==> !lex.whitespace(core[0]) && !lex.whitespace(core[|core| - 1])
    ensures TrimSpace(lex, a + core + b) == core
    decreases |a| + |b|
  {
    var s := a + core + b;
    if a != "" {
      assert s[1..] == a[1..] + core + b;
      TrimSpaceExact(lex, a[1..], core, b);
    } else if b != "" {
      if core == "" {
        assert s[1..] == a + core + b[1..];
        TrimSpaceExact(lex, a, core, b[1..]);
      } else {
        assert s[..|s| - 1] == a + core + b[..|b| - 1];
        TrimSpaceExact(lex, a, core, b[..|b| - 1]);
      }
    } else {
      assert s == core;
    }
  }

  /** Then the quotes around it. */
  lemma {:induction false} TrimQuotesExact(a: string, core: string, b: string)
    requires forall i :: 0 <= i < |a| ==> a[i] == '"' || a[i] == '\''
    requires forall i :: 0 <= i < |b| ==> b[i] == '"' || b[i] == '\''
    requires core != "" ==> core[0] != '"' && core[0] != '\'' && core[|core| - 1] != '"' && core[|core| - 1] != '\''
    ensures TrimQuotes(a + core + b) == core
    decreases |a| + |b|
  {
    var s := a + core + b;
    if a != "" {
      assert s[1..] == a[1..] + core + b;
      TrimQuotesExact(a[1..], core, b);
    } else if b != "" {
      if core == "" {
        assert s[1..] == a + core + b[1..];
        TrimQuotesExact(a, core, b[1..]);
      } else {
        assert s[..|s| - 1] == a + core + b[..|b| - 1];
        TrimQuotesExact(a, core, b[..|b| - 1]);
      }
    } else {
      assert s == core;
    }
  }

  /** A key, white space and quotes around it stripped, is sensitive exactly when a listed word occurs
      in its lower-cased form. */
  lemma SensitiveIff(lex: Lexicon, space: string, quotes: string, core: string, quotes': string, space': string)
    requires forall i :: 0 <= i < |space| ==> lex.whitespace(space[i])
    requires forall i :: 0 <= i < |space'| ==> lex.whitespace(space'[i])
    requires forall i :: 0 <= i < |quotes| ==> quotes[i] == '"' || quotes[i] == '\''
    requires forall i :: 0 <= i < |quotes'| ==> quotes'[i] == '"' || quotes'[i] == '\''
    requires core != "" ==> core[0] != '"' && core[0] != '\'' && core[|core| - 1] != '"' && core[|core| - 1] != '\''
    requires var t := quotes + core + quotes'; t != "" ==> !lex.whitespace(t[0]) && !lex.whitespace(t[|t| - 1])
    ensures IsSensitiveKey(lex, space + (quotes + core + quotes') + space') <==> Listed(lex, core)
  {
    TrimSpaceExact(lex, space, quotes + core + quotes', space');
    TrimQuotesExact(quotes, core, quotes');
    var name := lex.lower(core);
    hide TrimSpace, TrimQuotes, Contains, Cut;
    forall w | w in lex.sensitiveWords ensures Contains(name, w) <==> exists a, b :: Cut(name, a, w, b) {
      ContainsIff(name, w);
    }
  }

  lemma NameIsSensitiveIff(lex: Lexicon, name: string)
    requires Tables(lex) && IsName(lex, name)
    ensures IsSensitiveKey(lex, name) <==> Listed(lex, name)
  {
    var none := "";
    assert none + (none + name + none) + none == name;
    assert none + name + none == name;
    assert NameChar(lex, name[0]) && NameChar(lex, name[|name| - 1]);
    SensitiveIff(lex, none, none, name, none, none);
  }

  // ---------------------------------------------------------------- the rules

  /** One segment in front of any continuation. */
  lemma SegmentRule(lex: Lexicon, p: Segment, rest: string)
    requires lex.Valid() && Fits(lex, p, rest)
    ensures Redact(lex, Onto(p, rest)) == Onto(Mask(p), Redact(lex, rest))
  {
    hide Redact, Mask, Fits, Onto;
    ReadSegmentBack(lex, p, rest);
    RedactUnfold(lex, Onto(p, rest));
  }

  lemma EmptyText(lex: Lexicon)
    ensures Redact(lex, "") == ""
  {
  }

  /** A character that is not part of a name is kept. */
  lemma OtherCharacter(lex: Lexicon, c: char, rest: string)
    requires lex.Valid() && !NameChar(lex, c)
    ensures Redact(lex, [c] + rest) == [c] + Redact(lex, rest)
  {
    hide Redact;
    SegmentRule(lex, Text([c]), rest);
  }

  /** A name in which no listed word occurs is kept, and so is what follows it, but for later rules. */
  lemma UnlistedName(lex: Lexicon, name: string, rest: string)
    requires Tables(lex) && IsName(lex, name) && !Listed(lex, name)
    requires rest != "" ==> !NameChar(lex, rest[0])
    ensures Redact(lex, name + rest) == name + Redact(lex, rest)
  {
    NameIsSensitiveIff(lex, name);
    hide Redact, IsSensitiveKey, Listed;
    SegmentRule(lex, Text(name), rest);
  }

  /** A name that no delimiter follows is kept. */
  lemma NameWithoutDelimiter(lex: Lexicon, name: string, gap: string, rest: string)
    requires lex.Valid() && IsName(lex, name) && IsGap(gap)
    requires gap + rest != "" ==> !NameChar(lex, (gap + rest)[0])
    requires rest != "" ==> rest[0] != '=' && rest[0] != ':' && !IsGap([rest[0]])
    ensures Redact(lex, name + (gap + rest)) == name + Redact(lex, gap + rest)
  {
    hide Redact, IsSensitiveKey;
    assert rest != "" ==> [rest[0]][0] == rest[0];
    RunOf(lex, Gap, gap, rest);
    SegmentRule(lex, Text(name), gap + rest);
  }

  predicate Delimited(lex: Lexicon, name: string, gap: string, d: char, lead: string) {
    IsName(lex, name) && IsGap(gap) && (d == '=' || d == ':') && IsBlank(lead)
  }

  lemma ParamFits(lex: Lexicon, name: string, gap: string, d: char, lead: string, v: Value, rest: string)
    requires Tables(lex) && Listed(lex, name) && Delimited(lex, name, gap, d, lead) && ValueFits(lex, v, rest)
    ensures Fits(lex, Param(name, gap, d, lead, v), rest)
  {
    NameIsSensitiveIff(lex, name);
    hide IsSensitiveKey, Listed, ValueFits;
  }

  /** A bare value after a listed name becomes the placeholder, up to the first character that ends it. */
  lemma BareValue(lex: Lexicon, name: string, gap: string, d: char, lead: string, body: string, rest: string)
    requires Tables(lex) && Listed(lex, name) && Delimited(lex, name, gap, d, lead)
    requires body != "" && IsBare(body) && (rest != "" ==> Ends(rest[0]))
    ensures Redact(lex, name + (gap + ([d] + (lead + (body + rest)))))
         == name + (gap + ([d] + (lead + ("+++++" + Redact(lex, rest)))))
  {
    hide Redact, Listed;
    ParamFits(lex, name, gap, d, lead, Bare(body), rest);
    hide Fits;
    SegmentRule(lex, Param(name, gap, d, lead, Bare(body)), rest);
  }

  /** A missing value is left missing. */
  lemma MissingValue(lex: Lexicon, name: string, gap: string, d: char, lead: string, rest: string)
    requires Tables(lex) && Listed(lex, name) && Delimited(lex, name, gap, d, lead)
    requires rest != "" ==> Ends(rest[0]) && rest[0] != ' ' && rest[0] != '\t' && rest[0] != '"' && rest[0] != '\''
    ensures Redact(lex, name + (gap + ([d] + (lead + rest)))) == name + (gap + ([d] + (lead + Redact(lex, rest))))
  {
    hide Redact, Listed;
    ParamFits(lex, name, gap, d, lead, Bare(""), rest);
    hide Fits;
    SegmentRule(lex, Param(name, gap, d, lead, Bare("")), rest);
    assert "" + rest == rest && "" + Redact(lex, rest) == Redact(lex, rest);
  }

  /** What a quoted value becomes. */
  function Masked(body: string): string { if body == "" then "" else "+++++" }

  /** A quoted value after a listed name becomes the placeholder, up to the next same quote. */
  lemma QuotedValue(lex: Lexicon, name: string, gap: string, d: char, lead: string, q: char, body: string, rest: string)
    requires Tables(lex) && Listed(lex, name) && Delimited(lex, name, gap, d, lead)
    requires (q == '"' || q == '\'') && forall i :: 0 <= i < |body| ==> body[i] != q
    ensures Redact(lex, name + (gap + ([d] + (lead + ([q] + (body + ([q] + rest)))))))
         == name + (gap + ([d] + (lead + ([q] + (Masked(body) + ([q] + Redact(lex, rest)))))))
  {
    hide Redact, Listed;
    ParamFits(lex, name, gap, d, lead, Quoted(q, body, true), rest);
    hide Fits;
    SegmentRule(lex, Param(name, gap, d, lead, Quoted(q, body, true)), rest);
  }

  /** A quoted value that is never closed is masked to the end of the text. */
  lemma UnclosedValue(lex: Lexicon, name: string, gap: string, d: char, lead: string, q: char, body: string)
    requires Tables(lex) && Listed(lex, name) && Delimited(lex, name, gap, d, lead)
    requires (q == '"' || q == '\'') && forall i :: 0 <= i < |body| ==> body[i] != q
    ensures Redact(lex, name + (gap + ([d] + (lead + ([q] + body)))))
         == name + (gap + ([d] + (lead + ([q] + Masked(body)))))
  {
    EmptyText(lex);
    hide Redact, Listed;
    ParamFits(lex, name, gap, d, lead, Quoted(q, body, false), "");
    hide Fits;
    SegmentRule(lex, Param(name, gap, d, lead, Quoted(q, body, false)), "");
    assert body + "" == body && Masked(body) + "" == Masked(body);
  }

  // ---------------------------------------------------------------- no other texts

  /** No delimiter follows: past blanks and quotes comes something else, or the end. */
  ghost predicate NoDelimiter(s: string) {
    exists i :: 0 <= i <= |s| && IsGap(s[..i])
      && (i < |s| ==> s[i] != '=' && s[i] != ':' && s[i] != ' ' && s[i] != '\t' && s[i] != '"' && s[i] != '\'')
  }

  ghost predicate RuledValue(v: Value, rest: string) {
    match v
    case Bare(body) =>
      && IsBare(body) && (rest != "" ==> Ends(rest[0]))
      && (body == "" && rest != "" ==> rest[0] != ' ' && rest[0] != '\t' && rest[0] != '"' && rest[0] != '\'')
    case Quoted(q, body, closed) =>
      && (q == '"' || q == '\'') && (forall i :: 0 <= i < |body| ==> body[i] != q) && (!closed ==> rest == "")
  }

  /** One of the rules above is about this segment in front of `rest`. */
  ghost predicate Ruled(lex: Lexicon, p: Segment, rest: string) {
    match p
    case Text(text) =>
      || (|text| == 1 && !NameChar(lex, text[0]))
      || (&& IsName(lex, text) && (rest != "" ==> !NameChar(lex, rest[0]))
          && (!Listed(lex, text) || NoDelimiter(rest)))
    case Param(name, gap, d, lead, value) =>
      Listed(lex, name) && Delimited(lex, name, gap, d, lead) && RuledValue(value, rest)
  }

  lemma NoDelimiterIff(lex: Lexicon, s: string)
    ensures NoDelimiter(s) <==> !AtDelimiter(lex, s)
  {
    var r := Run(lex, Gap, s);
    if NoDelimiter(s) {
      var i :| 0 <= i <= |s| && IsGap(s[..i])
        && (i < |s| ==> s[i] != '=' && s[i] != ':' && s[i] != ' ' && s[i] != '\t' && s[i] != '"' && s[i] != '\'');
      assert s == s[..i] + s[i..];
      RunOf(lex, Gap, s[..i], s[i..]);
    }
    if !AtDelimiter(lex, s) {
      assert s[..|r.item|] == r.item;
      assert |r.item| < |s| ==> s[|r.item|] == r.rest[0];
    }
  }

  lemma FitsIsRuled(lex: Lexicon, p: Segment, rest: string)
    requires Tables(lex) && Fits(lex, p, rest)
    ensures Ruled(lex, p, rest)
  {
    NoDelimiterIff(lex, rest);
    hide Listed, IsSensitiveKey, Run, AtDelimiter, NoDelimiter;
    match p
    case Text(text) => if IsName(lex, text) { NameIsSensitiveIff(lex, text); }
    case Param(name, _, _, _, _) => NameIsSensitiveIff(lex, name);
  }

  /** Every text that is not empty starts with a segment that a rule is about. */
  lemma EveryTextHasARule(lex: Lexicon, s: string)
    requires Tables(lex) && s != ""
    ensures exists p, rest :: s == Onto(p, rest) && |rest| < |s| && Ruled(lex, p, rest)
  {
    var r := ReadSegment(lex, s);
    ReadSegmentFits(lex, s);
    hide ReadSegment, Fits, Ruled, Onto;
    FitsIsRuled(lex, r.item, r.rest);
  }
}
