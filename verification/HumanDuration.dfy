/** Durations such as `1h 30m`: the parser, its grammar, and a printer it undoes. */
module HumanDuration {
  import opened Wrappers

  const U64_MAX: nat := 0xFFFF_FFFF_FFFF_FFFF

  datatype Error = NumberMissing | ComponentTooLarge | UnknownUnit | DurationTooLarge | UnitMissing

  predicate IsDigit(c: char) { '0' <= c <= '9' }

  /** Space, tab, line feed, form feed, carriage return; not the vertical tab. */
  predicate IsAsciiSpace(c: char) {
    c == ' ' || c == '\t' || c == '\n' || c == '\r' || c as int == 0x0C
  }

  /** The Unicode White_Space property. */
  predicate IsWhiteSpace(c: char) {
    var n := c as int;
    || 0x09 <= n <= 0x0D || n == 0x20 || n == 0x85 || n == 0xA0 || n == 0x1680
    || 0x2000 <= n <= 0x200A || n == 0x2028 || n == 0x2029 || n == 0x202F || n == 0x205F || n == 0x3000
  }

  function TrimStart(s: string): string {
    if s != "" && IsWhiteSpace(s[0]) then TrimStart(s[1..]) else s
  }

  function TrimEnd(s: string): string {
    if s != "" && IsWhiteSpace(s[|s| - 1]) then TrimEnd(s[..|s| - 1]) else s
  }

  function Trim(s: string): string { TrimEnd(TrimStart(s)) }

  /** The text without ASCII whitespace. */
  function Compact(s: string): string {
    if s == "" then "" else (if IsAsciiSpace(s[0]) then "" else [s[0]]) + Compact(s[1..])
  }

  predicate Digits(ds: string) { forall i :: 0 <= i < |ds| ==> IsDigit(ds[i]) }

  function DigitValue(c: char): nat
    requires IsDigit(c)
  {
    c as int - '0' as int
  }

  function Amount(ds: string): nat
    requires Digits(ds)
  {
    if ds == "" then 0 else 10 * Amount(ds[..|ds| - 1]) + DigitValue(ds[|ds| - 1])
  }

  function UnitSeconds(c: char): Option<nat> {
    match c
    case 's' => Some(1)
    case 'S' => Some(1)
    case 'm' => Some(60)
    case 'M' => Some(60)
    case 'h' => Some(3600)
    case 'H' => Some(3600)
    case _ => None
  }

  // ---------------------------------------------------------------- the parser

  /** A component: its digits, and the unit that closes it. */
  function Component(digits: string, c: char): (r: Result<nat, Error>)
    requires Digits(digits)
  {
    if digits == "" then Err(NumberMissing)
    else if Amount(digits) > U64_MAX then Err(ComponentTooLarge)
    else if UnitSeconds(c).None? then Err(UnknownUnit)
    else if Amount(digits) * UnitSeconds(c).value > U64_MAX then Err(DurationTooLarge)
    else Ok(Amount(digits) * UnitSeconds(c).value)
  }

  /** What the parser makes of the rest of the text. */
  function Parse(s: string, seconds: nat, digits: string, sawUnit: bool): (r: Result<nat, Error>)
    requires Digits(digits)
    decreases |s|
  {
    if s == "" then (if digits != "" || !sawUnit then Err(UnitMissing) else Ok(seconds))
    else if IsDigit(s[0]) then Parse(s[1..], seconds, digits + [s[0]], sawUnit)
    else if IsAsciiSpace(s[0]) then Parse(s[1..], seconds, digits, sawUnit)
    else
      var component := Component(digits, s[0]);
      if component.Err? then Err(component.error)
      else if seconds + component.value > U64_MAX then Err(DurationTooLarge)
      else Parse(s[1..], seconds + component.value, "", true)
  }

  method ParseHumanDurationSeconds(raw: string) returns (r: Result<nat, Error>)
    ensures r == Parse(Trim(raw), 0, "", false)
  {
    var text := Trim(raw);
    var seconds: nat, digits, sawUnit := 0, "", false;
    for i := 0 to |text|
      invariant Digits(digits)
      invariant Parse(text[i..], seconds, digits, sawUnit) == Parse(Trim(raw), 0, "", false)
    {
      var character := text[i];
      assert text[i..][0] == character && text[i..][1..] == text[i + 1..];
      if IsDigit(character) {
        digits := digits + [character];
        continue;
      }
      if IsAsciiSpace(character) {
        continue;
      }
      if digits == "" {
        return Err(NumberMissing);
      }
      var amount := Amount(digits);
      if amount > U64_MAX {
        return Err(ComponentTooLarge);
      }
      var multiplier := UnitSeconds(character);
      if multiplier.None? {
        return Err(UnknownUnit);
      }
      if amount * multiplier.value > U64_MAX || seconds + amount * multiplier.value > U64_MAX {
        return Err(DurationTooLarge);
      }
      seconds := seconds + amount * multiplier.value;
      digits := "";
      sawUnit := true;
    }
    if digits != "" || !sawUnit {
      return Err(UnitMissing);
    }
    return Ok(seconds);
  }

  // ---------------------------------------------------------------- the grammar

  predicate Unit(c: char) { c == 's' || c == 'S' || c == 'm' || c == 'M' || c == 'h' || c == 'H' }

  /** Seconds, minutes, hours, in either case. */
  function Factor(c: char): nat
    requires Unit(c)
  {
    if c == 's' || c == 'S' then 1 else if c == 'm' || c == 'M' then 60 else 3600
  }

  lemma UnitSecondsIff(c: char)
    ensures UnitSeconds(c) == if Unit(c) then Some(Factor(c)) else None
  {
  }

  /** One or more digits and a unit. */
  datatype Group = Group(digits: string, unit: char)

  predicate WellFormed(g: Group) { g.digits != "" && Digits(g.digits) && Unit(g.unit) }

  function Seconds(g: Group): nat
    requires WellFormed(g)
  {
    Amount(g.digits) * Factor(g.unit)
  }

  predicate AllWellFormed(gs: seq<Group>) { forall i :: 0 <= i < |gs| ==> WellFormed(gs[i]) }

  function Total(gs: seq<Group>): nat
    requires AllWellFormed(gs)
  {
    if gs == [] then 0 else Seconds(gs[0]) + Total(gs[1..])
  }

  function Text(gs: seq<Group>): string {
    if gs == [] then "" else gs[0].digits + [gs[0].unit] + Text(gs[1..])
  }

  /** The text is groups that fit, then digits, then something that is no digit. */
  predicate Splits(z: string, gs: seq<Group>, ds: string, rest: string) {
    && AllWellFormed(gs) && Total(gs) <= U64_MAX && Digits(ds)
    && (rest != "" ==> !IsDigit(rest[0])) && z == Text(gs) + ds + rest
  }

  /** Why the text cannot go on after groups that total `seconds`. */
  function Failure(seconds: nat, started: bool, ds: string, rest: string): Option<Error>
    requires Digits(ds)
  {
    if rest == "" then (if ds != "" || !started then Some(UnitMissing) else None)
    else if ds == "" then Some(NumberMissing)
    else if Amount(ds) > U64_MAX then Some(ComponentTooLarge)
    else if !Unit(rest[0]) then Some(UnknownUnit)
    else if seconds + Amount(ds) * Factor(rest[0]) > U64_MAX then Some(DurationTooLarge)
    else None
  }

  predicate NoAsciiSpace(z: string) { forall i :: 0 <= i < |z| ==> !IsAsciiSpace(z[i]) }

  lemma {:induction false} CompactHasNoSpace(s: string)
    ensures NoAsciiSpace(Compact(s))
  {
    if s != "" { CompactHasNoSpace(s[1..]); }
  }

  /** Whitespace inside the text does not matter. */
  lemma {:induction false} SpaceIsIgnored(s: string, seconds: nat, digits: string, sawUnit: bool)
    requires Digits(digits)
    ensures Parse(s, seconds, digits, sawUnit) == Parse(Compact(s), seconds, digits, sawUnit)
    decreases |s|
  {
    hide Component;
    if s != "" {
      var z := Compact(s);
      if IsDigit(s[0]) {
        assert z[1..] == Compact(s[1..]);
        SpaceIsIgnored(s[1..], seconds, digits + [s[0]], sawUnit);
      } else if IsAsciiSpace(s[0]) {
        assert z == Compact(s[1..]);
        SpaceIsIgnored(s[1..], seconds, digits, sawUnit);
      } else {
        assert z[1..] == Compact(s[1..]);
        var component := Component(digits, s[0]);
        if component.Ok? { SpaceIsIgnored(s[1..], seconds + component.value, "", true); }
      }
    }
  }

  lemma {:induction false} DigitsAreCollected(ds: string, rest: string, seconds: nat, digits: string, sawUnit: bool)
    requires Digits(digits) && Digits(ds)
    ensures Parse(ds + rest, seconds, digits, sawUnit) == Parse(rest, seconds, digits + ds, sawUnit)
    decreases |ds|
  {
    if ds == "" {
      assert ds + rest == rest && digits + ds == digits;
    } else {
      assert (ds + rest)[1..] == ds[1..] + rest && digits + [ds[0]] + ds[1..] == digits + ds;
      DigitsAreCollected(ds[1..], rest, seconds, digits + [ds[0]], sawUnit);
    }
  }

  lemma UnitsAreNotSkipped(c: char)
    requires UnitSeconds(c).Some?
    ensures !IsDigit(c) && !IsAsciiSpace(c)
  {
  }

  lemma GroupIsParsed(g: Group, rest: string, seconds: nat, sawUnit: bool)
    requires WellFormed(g) && seconds + Seconds(g) <= U64_MAX
    ensures Parse(g.digits + [g.unit] + rest, seconds, "", sawUnit) == Parse(rest, seconds + Seconds(g), "", true)
  {
    var z := [g.unit] + rest;
    assert g.digits + [g.unit] + rest == g.digits + z && "" + g.digits == g.digits && z[1..] == rest;
    DigitsAreCollected(g.digits, z, seconds, "", sawUnit);
    UnitsAreNotSkipped(g.unit);
    AmountAtMostSeconds(g);
    hide UnitSeconds;
  }

  lemma AmountAtMostSeconds(g: Group)
    requires WellFormed(g)
    ensures Amount(g.digits) <= Seconds(g)
  {
  }

  lemma {:induction false} GroupsAreParsed(gs: seq<Group>, rest: string, seconds: nat, sawUnit: bool)
    requires AllWellFormed(gs) && seconds + Total(gs) <= U64_MAX
    ensures Parse(Text(gs) + rest, seconds, "", sawUnit) == Parse(rest, seconds + Total(gs), "", sawUnit || gs != [])
    decreases |gs|
  {
    hide WellFormed, Seconds, Parse;
    if gs == [] {
      assert Text(gs) + rest == rest;
    } else {
      var others := Text(gs[1..]) + rest;
      assert Text(gs) + rest == gs[0].digits + [gs[0].unit] + others;
      GroupIsParsed(gs[0], others, seconds, sawUnit);
      GroupsAreParsed(gs[1..], rest, seconds + Seconds(gs[0]), true);
    }
  }

  /** However a text is split, the parser ends up at the split. */
  lemma SplitIsParsed(z: string, gs: seq<Group>, ds: string, rest: string)
    requires Splits(z, gs, ds, rest)
    ensures Parse(z, 0, "", false) == Parse(rest, Total(gs), ds, gs != [])
  {
    assert z == Text(gs) + (ds + rest) && "" + ds == ds;
    hide Parse;
    GroupsAreParsed(gs, ds + rest, 0, false);
    DigitsAreCollected(ds, rest, Total(gs), "", gs != []);
  }

  lemma {:induction false} LeadingDigits(z: string) returns (ds: string, rest: string)
    ensures z == ds + rest && Digits(ds) && (rest != "" ==> !IsDigit(rest[0]))
  {
    if z == "" || !IsDigit(z[0]) {
      ds, rest := "", z;
    } else {
      ds, rest := LeadingDigits(z[1..]);
      ds := [z[0]] + ds;
    }
  }

  /** Every text without spaces is split where the parser stops. */
  lemma {:induction false} ParserStops(z: string, seconds: nat, started: bool)
    returns (gs: seq<Group>, ds: string, rest: string)
    requires seconds <= U64_MAX && NoAsciiSpace(z)
    ensures AllWellFormed(gs) && seconds + Total(gs) <= U64_MAX && Digits(ds)
    ensures (rest != "" ==> !IsDigit(rest[0])) && z == Text(gs) + ds + rest
    ensures rest == "" || Failure(seconds + Total(gs), started || gs != [], ds, rest).Some?
    decreases |z|
  {
    ds, rest := LeadingDigits(z);
    gs := [];
    if rest != "" && Failure(seconds, started, ds, rest).None? {
      var g := Group(ds, rest[0]);
      var z' := rest[1..];
      assert WellFormed(g);
      assert NoAsciiSpace(z') by { assert forall i :: 0 <= i < |z'| ==> z'[i] == z[|ds| + 1 + i]; }
      var gs';
      gs', ds, rest := ParserStops(z', seconds + Seconds(g), true);
      gs := [g] + gs';
      assert gs[1..] == gs';
      assert z == g.digits + [g.unit] + (Text(gs') + ds + rest);
    }
  }

  /** The verdict at a split. */
  lemma VerdictAtSplit(rest: string, seconds: nat, ds: string, started: bool)
    requires Digits(ds) && NoAsciiSpace(rest) && (rest != "" ==> !IsDigit(rest[0]))
    ensures var f := Failure(seconds, started, ds, rest);
            && (f.Some? ==> Parse(rest, seconds, ds, started) == Err(f.value))
            && (f.None? && rest == "" ==> Parse(rest, seconds, ds, started) == Ok(seconds))
  {
    if rest != "" {
      assert !IsAsciiSpace(rest[0]);
      UnitSecondsIff(rest[0]);
    }
    hide UnitSeconds, Unit, Factor;
  }

  /** The duration a text denotes. */
  ghost predicate Denotes(z: string, n: nat) {
    exists gs :: gs != [] && AllWellFormed(gs) && z == Text(gs) && n == Total(gs)
  }

  /** Parsing a text gives `n` exactly when the text, trimmed and without ASCII whitespace, is one or
      more groups that total `n`, and `n` fits 64 bits. */
  lemma ParsesIff(raw: string, n: nat)
    ensures Parse(Trim(raw), 0, "", false) == Ok(n) <==> Denotes(Compact(Trim(raw)), n) && n <= U64_MAX
  {
    var z := Compact(Trim(raw));
    hide Parse, Failure, Component, Trim, Compact;
    SpaceIsIgnored(Trim(raw), 0, "", false);
    CompactHasNoSpace(Trim(raw));
    var gs, ds, rest := ParserStops(z, 0, false);
    SplitIsParsed(z, gs, ds, rest);
    RestHasNoSpace(z, gs, ds, rest);
    VerdictAtSplit(rest, Total(gs), ds, gs != []);
    if Parse(z, 0, "", false) == Ok(n) {
      assert Failure(Total(gs), gs != [], ds, rest).None?;
      StoppedCleanly(Total(gs), gs != [], ds, rest);
      assert z == Text(gs);
    }
    if Denotes(z, n) && n <= U64_MAX {
      var hs :| hs != [] && AllWellFormed(hs) && z == Text(hs) && n == Total(hs);
      assert z == Text(hs) + "" + "";
      SplitIsParsed(z, hs, "", "");
      StoppedCleanly(n, true, "", "");
      VerdictAtSplit("", n, "", true);
    }
  }

  lemma StoppedCleanly(seconds: nat, started: bool, ds: string, rest: string)
    requires Digits(ds) && rest == ""
    ensures Failure(seconds, started, ds, rest).None? <==> ds == "" && started
  {
  }

  lemma RestHasNoSpace(z: string, gs: seq<Group>, ds: string, rest: string)
    requires NoAsciiSpace(z) && z == Text(gs) + ds + rest
    ensures NoAsciiSpace(rest)
  {
    forall i | 0 <= i < |rest| ensures !IsAsciiSpace(rest[i]) {
      assert rest[i] == z[|Text(gs)| + |ds| + i];
    }
  }

  /** Parsing a text fails with `e` exactly when groups that fit are followed by something that
      fails with `e`. */
  lemma FailsIff(raw: string, e: Error)
    ensures Parse(Trim(raw), 0, "", false) == Err(e)
       <==> exists gs, ds, rest :: Splits(Compact(Trim(raw)), gs, ds, rest)
                                   && Failure(Total(gs), gs != [], ds, rest) == Some(e)
  {
    var z := Compact(Trim(raw));
    hide Parse, Failure, Component, Trim, Compact;
    SpaceIsIgnored(Trim(raw), 0, "", false);
    CompactHasNoSpace(Trim(raw));
    var gs, ds, rest := ParserStops(z, 0, false);
    SplitIsParsed(z, gs, ds, rest);
    RestHasNoSpace(z, gs, ds, rest);
    VerdictAtSplit(rest, Total(gs), ds, gs != []);
    if Parse(z, 0, "", false) == Err(e) {
      assert Splits(z, gs, ds, rest) && Failure(Total(gs), gs != [], ds, rest) == Some(e);
    }
    if hs, es, rest' :| Splits(z, hs, es, rest') && Failure(Total(hs), hs != [], es, rest') == Some(e) {
      SplitIsParsed(z, hs, es, rest');
      RestHasNoSpace(z, hs, es, rest');
      VerdictAtSplit(rest', Total(hs), es, hs != []);
    }
  }

  // ---------------------------------------------------------------- round trip

  function Decimal(n: nat): (ds: string)
    ensures ds != "" && Digits(ds) && Amount(ds) == n
  {
    var c := ('0' as int + n % 10) as char;
    if n < 10 then [c] else Decimal(n / 10) + [c]
  }

  function Hms(n: nat): seq<Group> {
    [Group(Decimal(n / 3600), 'h'), Group(Decimal(n % 3600 / 60), 'm'), Group(Decimal(n % 60), 's')]
  }

  /** Hours, minutes and seconds, as in `1h30m0s`. */
  function Show(n: nat): string { Text(Hms(n)) }

  lemma TotalOfThree(a: Group, b: Group, c: Group)
    requires WellFormed(a) && WellFormed(b) && WellFormed(c)
    ensures AllWellFormed([a, b, c]) && Total([a, b, c]) == Seconds(a) + Seconds(b) + Seconds(c)
  {
    hide WellFormed, Seconds;
    assert [a, b, c][1..] == [b, c] && [b, c][1..] == [c] && [c][1..] == [];
    assert Total([c]) == Seconds(c);
    assert Total([b, c]) == Seconds(b) + Seconds(c);
  }

  lemma DecimalSeconds(n: nat, unit: char)
    requires UnitSeconds(unit).Some?
    ensures WellFormed(Group(Decimal(n), unit)) && Seconds(Group(Decimal(n), unit)) == n * UnitSeconds(unit).value
  {
  }

  lemma HmsTotal(n: nat)
    ensures AllWellFormed(Hms(n)) && Total(Hms(n)) == n
  {
    var h, m, s := n / 3600, n % 3600 / 60, n % 60;
    DecimalSeconds(h, 'h');
    DecimalSeconds(m, 'm');
    DecimalSeconds(s, 's');
    hide Decimal, Seconds, WellFormed;
    TotalOfThree(Group(Decimal(h), 'h'), Group(Decimal(m), 'm'), Group(Decimal(s), 's'));
    assert h * 3600 + m * 60 + s * 1 == n;
  }

  predicate Plain(c: char) { IsDigit(c) || Unit(c) }

  lemma PlainIsNotSpace(c: char)
    requires Plain(c)
    ensures !IsWhiteSpace(c) && !IsAsciiSpace(c)
  {
  }

  lemma {:induction false} TextIsPlain(gs: seq<Group>, i: nat)
    requires AllWellFormed(gs) && i < |Text(gs)|
    ensures Plain(Text(gs)[i])
    decreases |gs|
  {
    var k := |gs[0].digits|;
    if i > k { TextIsPlain(gs[1..], i - k - 1); }
  }

  lemma {:induction false} PlainIsCompact(s: string)
    requires forall i :: 0 <= i < |s| ==> !IsAsciiSpace(s[i])
    ensures Compact(s) == s
  {
    if s != "" { PlainIsCompact(s[1..]); }
  }

  /** Printing a duration and parsing it gives the duration back. */
  lemma ShowThenParse(n: nat)
    requires n <= U64_MAX
    ensures Parse(Trim(Show(n)), 0, "", false) == Ok(n)
  {
    var gs, s := Hms(n), Show(n);
    HmsTotal(n);
    forall i | 0 <= i < |s| ensures !IsWhiteSpace(s[i]) && !IsAsciiSpace(s[i]) {
      TextIsPlain(gs, i);
      PlainIsNotSpace(s[i]);
    }
    assert Trim(s) == s;
    PlainIsCompact(s);
    assert Denotes(s, n);
    hide Parse, Denotes;
    ParsesIff(s, n);
  }

  /** A single component in any of the six units. */
  lemma ComponentThenParse(n: nat, unit: char)
    requires Unit(unit) && n * Factor(unit) <= U64_MAX
    ensures Parse(Trim(Decimal(n) + [unit]), 0, "", false) == Ok(n * Factor(unit))
  {
    var gs, s := [Group(Decimal(n), unit)], Decimal(n) + [unit];
    assert gs[1..] == [] && Text([]) == "";
    assert Text(gs) == s + "" == s;
    assert Total(gs) == Seconds(gs[0]) + Total(gs[1..]);
    forall i | 0 <= i < |s| ensures !IsWhiteSpace(s[i]) && !IsAsciiSpace(s[i]) {
      TextIsPlain(gs, i);
      PlainIsNotSpace(s[i]);
    }
    assert Trim(s) == s;
    PlainIsCompact(s);
    assert Denotes(s, n * Factor(unit));
    hide Parse, Denotes;
    ParsesIff(s, n * Factor(unit));
  }

  /** Trimming removes the white space around a text, and all of it. */
  lemma TrimExact(a: string, core: string, b: string)
    requires forall i :: 0 <= i < |a| ==> IsWhiteSpace(a[i])
    requires forall i :: 0 <= i < |b| ==> IsWhiteSpace(b[i])
    requires core != "" ==> !IsWhiteSpace(core[0]) && !IsWhiteSpace(core[|core| - 1])
    ensures Trim(a + core + b) == core
  {
    hide IsWhiteSpace;
    if core == "" {
      assert a + core + b == (a + b) + "";
      TrimStartExact(a + b, "");
    } else {
      assert a + core + b == a + (core + b);
      TrimStartExact(a, core + b);
      TrimEndExact(core, b);
    }
  }

  lemma {:induction false} TrimStartExact(a: string, rest: string)
    requires forall i :: 0 <= i < |a| ==> IsWhiteSpace(a[i])
    requires rest != "" ==> !IsWhiteSpace(rest[0])
    ensures TrimStart(a + rest) == rest
  {
    if a == "" {
      assert a + rest == rest;
    } else {
      assert (a + rest)[1..] == a[1..] + rest;
      TrimStartExact(a[1..], rest);
    }
  }

  lemma {:induction false} TrimEndExact(core: string, b: string)
    requires forall i :: 0 <= i < |b| ==> IsWhiteSpace(b[i])
    requires core != "" ==> !IsWhiteSpace(core[|core| - 1])
    ensures TrimEnd(core + b) == core
    decreases |b|
  {
    var s := core + b;
    if b == "" {
      assert s == core;
    } else {
      assert s[..|s| - 1] == core + b[..|b| - 1];
      TrimEndExact(core, b[..|b| - 1]);
    }
  }

  /** Dropping ASCII white space is character by character: space, tab, line feed, form feed and
      carriage return go, everything else stays. */
  lemma {:induction false} CompactParts(a: string, b: string)
    ensures Compact(a + b) == Compact(a) + Compact(b)
  {
    if a == "" {
      assert a + b == b;
    } else {
      assert (a + b)[1..] == a[1..] + b;
      CompactParts(a[1..], b);
    }
  }

  lemma CompactCharacter(c: char)
    ensures Compact([c]) == if c as int in {0x09, 0x0A, 0x0C, 0x0D, 0x20} then "" else [c]
  {
    assert [c][1..] == "" && Compact("") == "";
  }
}
