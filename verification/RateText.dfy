/** Decimal numbers, and rates as they are written on the command line. */
module RateText {
  import opened Base
  import opened Pacing

  // ----- decimal numbers

  function DigitOf(c: char): (d: nat)
    requires IsDigit(c)
    ensures d < 10
  {
    c as int - '0' as int
  }

  /** The number that a run of digits denotes. */
  function DigitsValue(s: string): nat
    requires forall i :: 0 <= i < |s| ==> IsDigit(s[i])
  {
    if s == "" then 0 else 10 * DigitsValue(s[..|s| - 1]) + DigitOf(s[|s| - 1])
  }

  predicate AllDigits(s: string) {
    s != [] && forall i :: 0 <= i < |s| ==> IsDigit(s[i])
  }

  lemma {:induction false} DecimalRoundTrip(n: nat)
    ensures DigitsValue(Decimal(n)) == n
  {
    var s := Decimal(n);
    if n < 10 {
      assert s[..|s| - 1] == "";
    } else {
      DecimalRoundTrip(n / 10);
      assert s[..|s| - 1] == Decimal(n / 10);
    }
  }

  /** The digits of a number, most significant first: no leading zero, and the number is ten
      times what precedes its last digit, and that digit. */
  lemma DecimalIsCanonical(n: nat)
    ensures AllDigits(Decimal(n)) && (Decimal(n)[0] == '0' <==> n == 0)
    ensures Decimal(n)[|Decimal(n)| - 1] as int == '0' as int + n % 10
    ensures n >= 10 ==> Decimal(n)[..|Decimal(n)| - 1] == Decimal(n / 10)
  {
    if n >= 10 {
      DecimalIsCanonical(n / 10);
    }
  }

  datatype ParseError = InvalidRate | RateTooLarge | RateIsZero | InvalidStreamCount | StreamCountIsZero | EmptyList

  /** `u64::from_str`, and `u16::from_str` with its own limit: an optional plus sign,
      then at least one digit, the value within the limit. */
  function ParseUnsigned(s: string, limit: nat): Option<nat> {
    var digits := if s != "" && s[0] == '+' then s[1..] else s;
    if !AllDigits(digits) then None
    else
      var v := DigitsValue(digits);
      if v < limit then Some(v) else None
  }

  // ----- white space and case

  /** The characters with the Unicode property White_Space. */
  predicate IsSpace(c: char) {
    var u := c as int;
    || 0x09 <= u <= 0x0D || u == 0x20 || u == 0x85 || u == 0xA0 || u == 0x1680
    || 0x2000 <= u <= 0x200A || u == 0x2028 || u == 0x2029 || u == 0x202F || u == 0x205F || u == 0x3000
  }

  /** The twenty-five of them, by number. */
  lemma SpacesInFigures(c: char)
    ensures IsSpace(c) <==>
              c as int in [9, 10, 11, 12, 13, 32, 133, 160, 5760, 8192, 8193, 8194, 8195, 8196, 8197, 8198, 8199, 8200,
                           8201, 8202, 8232, 8233, 8239, 8287, 12288]
  {
  }

  function TrimStart(s: string): string {
    if s != "" && IsSpace(s[0]) then TrimStart(s[1..]) else s
  }

  function TrimEnd(s: string): string {
    if s != "" && IsSpace(s[|s| - 1]) then TrimEnd(s[..|s| - 1]) else s
  }

  function Trim(s: string): string {
    TrimEnd(TrimStart(s))
  }

  function LowerChar(c: char): char {
    if 'A' <= c <= 'Z' then (c as int + 32) as char else c
  }

  function Lower(s: string): (t: string)
    ensures |t| == |s| && forall i :: 0 <= i < |s| ==> t[i] == LowerChar(s[i])
  {
    seq(|s|, i requires 0 <= i < |s| => LowerChar(s[i]))
  }

  // ----- rates

  function RateLabel(rate: RateMode): string {
    match rate
    case Auto => "auto"
    case Bps(v) => Decimal(v)
  }

  predicate EndsWith(s: string, suffix: string) {
    |suffix| <= |s| && s[|s| - |suffix|..] == suffix
  }

  function Strip(s: string, suffix: string): string
    requires EndsWith(s, suffix)
  {
    s[..|s| - |suffix|]
  }

  /** Splits off a unit, the first that fits in the order they are tried. */
  function SplitUnit(raw: string): (string, nat) {
    if EndsWith(raw, "kbps") then (Strip(raw, "kbps"), 1_000)
    else if EndsWith(raw, "k") then (Strip(raw, "k"), 1_000)
    else if EndsWith(raw, "mbps") then (Strip(raw, "mbps"), 1_000_000)
    else if EndsWith(raw, "m") then (Strip(raw, "m"), 1_000_000)
    else if EndsWith(raw, "gbps") then (Strip(raw, "gbps"), 1_000_000_000)
    else if EndsWith(raw, "g") then (Strip(raw, "g"), 1_000_000_000)
    else if EndsWith(raw, "tbps") then (Strip(raw, "tbps"), 1_000_000_000_000)
    else if EndsWith(raw, "t") then (Strip(raw, "t"), 1_000_000_000_000)
    else if EndsWith(raw, "bps") then (Strip(raw, "bps"), 1)
    else (raw, 1)
  }

  function ParseRateMode(input: string): Result<RateMode, ParseError> {
    var raw := Lower(Trim(input));
    if raw == "auto" then Ok(Auto)
    else
      var (digits, scale) := SplitUnit(raw);
      ScaledRate(ParseUnsigned(digits, TWO_64), scale)
  }

  /** The checked product of a parsed number and its unit. */
  function ScaledRate(base: Option<nat>, scale: nat): Result<RateMode, ParseError> {
    match base
    case None => Err(InvalidRate)
    case Some(v) =>
      var total := v * scale;
      if total >= TWO_64 then Err(RateTooLarge)
      else if total == 0 then Err(RateIsZero)
      else Ok(Bps(total))
  }

  lemma {:induction false} TrimKeepsSolid(s: string)
    requires s == "" || (!IsSpace(s[0]) && !IsSpace(s[|s| - 1]))
    ensures Trim(s) == s
  {
  }

  /** The units the parser knows, with the factor each stands for. */
  predicate IsUnit(unit: string, scale: nat) {
    || (unit in ["k", "kbps"] && scale == 1_000)
    || (unit in ["m", "mbps"] && scale == 1_000_000)
    || (unit in ["g", "gbps"] && scale == 1_000_000_000)
    || (unit in ["t", "tbps"] && scale == 1_000_000_000_000)
    || (unit in ["", "bps"] && scale == 1)
  }

  predicate EndsInDigit(text: string) {
    text != "" && IsDigit(text[|text| - 1])
  }

  /** A suffix without digits that ends a digit and a unit together ends the unit alone. */
  lemma SuffixIsInUnit(text: string, unit: string, suffix: string)
    requires EndsInDigit(text) && suffix != "" && forall i :: 0 <= i < |suffix| ==> !IsDigit(suffix[i])
    ensures EndsWith(text + unit, suffix) <==> EndsWith(unit, suffix)
  {
    var raw := text + unit;
    if |suffix| > |unit| {
      if |suffix| <= |raw| {
        assert raw[|raw| - |suffix|..][|suffix| - |unit| - 1] == text[|text| - 1];
      }
    } else {
      assert raw[|raw| - |suffix|..] == unit[|unit| - |suffix|..];
    }
  }

  lemma StripUnit(digits: string, unit: string)
    ensures EndsWith(digits + unit, unit) && Strip(digits + unit, unit) == digits
  {
  }

  /** Which of the tried suffixes end which unit. */
  lemma UnitSuffixes(unit: string, suffix: string)
    requires unit in ["", "k", "kbps", "m", "mbps", "g", "gbps", "t", "tbps", "bps"]
    requires suffix in ["k", "kbps", "m", "mbps", "g", "gbps", "t", "tbps", "bps"]
    ensures EndsWith(unit, suffix) <==> unit == suffix || (suffix == "bps" && |unit| == 4)
  {
    if |suffix| <= |unit| {
      var tail := unit[|unit| - |suffix|..];
      assert tail == suffix ==> tail[0] == suffix[0];
      if suffix == "bps" && |unit| == 4 {
        assert tail == "bps";
      }
    }
  }

  /** Digits carry no unit of their own, so exactly the unit appended is split off. */
  lemma SplitsWhatWasAppended(text: string, unit: string, scale: nat)
    requires EndsInDigit(text) && IsUnit(unit, scale)
    ensures SplitUnit(text + unit) == (text, scale)
  {
    hide EndsWith, Strip, EndsInDigit;
    forall suffix | suffix in ["k", "kbps", "m", "mbps", "g", "gbps", "t", "tbps", "bps"]
      ensures EndsWith(text + unit, suffix) <==> unit == suffix || (suffix == "bps" && |unit| == 4)
    {
      SuffixIsInUnit(text, unit, suffix);
      UnitSuffixes(unit, suffix);
    }
    StripUnit(text, unit);
    if unit == "" {
      assert text + unit == text;
    }
  }

  /** Trimming and lowering leave digits and a unit as they are. */
  lemma AlreadyNormal(digits: string, unit: string, scale: nat)
    requires AllDigits(digits) && IsUnit(unit, scale)
    ensures Lower(Trim(digits + unit)) == digits + unit && digits + unit != "auto"
  {
    hide Trim;
    var raw := digits + unit;
    assert raw[0] == digits[0] && IsDigit(digits[0]);
    assert !IsSpace(raw[|raw| - 1]) by {
      if unit == "" {
        assert raw[|raw| - 1] == digits[|digits| - 1];
      } else {
        assert raw[|raw| - 1] == unit[|unit| - 1];
      }
    }
    TrimKeepsSolid(raw);
    forall i | 0 <= i < |raw| ensures LowerChar(raw[i]) == raw[i] {
      assert raw[i] == if i < |digits| then digits[i] else unit[i - |digits|];
    }
  }

  /** Digits followed by a unit are a rate exactly when the product is positive and fits
      64 bits. */
  lemma ParseOfDigitsAndUnit(digits: string, unit: string, scale: nat)
    requires AllDigits(digits) && IsUnit(unit, scale)
    ensures ParseRateMode(digits + unit).Ok? <==> 0 < DigitsValue(digits) * scale < TWO_64
    ensures ParseRateMode(digits + unit).Ok? ==>
              ParseRateMode(digits + unit).value == Bps(DigitsValue(digits) * scale)
  {
    hide Trim, Lower, SplitUnit, DigitsValue;
    AlreadyNormal(digits, unit, scale);
    SplitsWhatWasAppended(digits, unit, scale);
    assert IsDigit(digits[0]) && digits[0] != '+';
    assert scale >= 1;
    MulMonotone(1, scale, DigitsValue(digits));
  }

  /** What digits and each of the units stand for, and which error there is otherwise. */
  lemma UnitsInFigures(digits: string)
    requires AllDigits(digits)
    ensures ParseRateMode(digits) == ParseRateMode(digits + "bps") == InUnits(DigitsValue(digits), 1)
    ensures ParseRateMode(digits + "k") == ParseRateMode(digits + "kbps") == InUnits(DigitsValue(digits), 1_000)
    ensures ParseRateMode(digits + "m") == ParseRateMode(digits + "mbps") == InUnits(DigitsValue(digits), 1_000_000)
    ensures ParseRateMode(digits + "g") == ParseRateMode(digits + "gbps") == InUnits(DigitsValue(digits), 1_000_000_000)
    ensures ParseRateMode(digits + "t") == ParseRateMode(digits + "tbps") == InUnits(DigitsValue(digits), 1_000_000_000_000)
  {
    hide ParseRateMode, DigitsValue, InUnits, AllDigits;
    assert digits + "" == digits;
    ParseInUnits(digits, "", 1);
    ParseInUnits(digits, "bps", 1);
    ParseInUnits(digits, "k", 1_000);
    ParseInUnits(digits, "kbps", 1_000);
    ParseInUnits(digits, "m", 1_000_000);
    ParseInUnits(digits, "mbps", 1_000_000);
    ParseInUnits(digits, "g", 1_000_000_000);
    ParseInUnits(digits, "gbps", 1_000_000_000);
    ParseInUnits(digits, "t", 1_000_000_000_000);
    ParseInUnits(digits, "tbps", 1_000_000_000_000);
  }

  /** A number too long for 64 bits is no rate at all, a product too large is too large. */
  function InUnits(v: nat, scale: nat): Result<RateMode, ParseError> {
    if v >= TWO_64 then Err(InvalidRate)
    else if v * scale >= TWO_64 then Err(RateTooLarge)
    else if v * scale == 0 then Err(RateIsZero)
    else Ok(Bps(v * scale))
  }

  lemma ParseInUnits(digits: string, unit: string, scale: nat)
    requires AllDigits(digits) && IsUnit(unit, scale)
    ensures ParseRateMode(digits + unit) == InUnits(DigitsValue(digits), scale)
  {
    hide Trim, Lower, SplitUnit, DigitsValue;
    AlreadyNormal(digits, unit, scale);
    SplitsWhatWasAppended(digits, unit, scale);
    assert IsDigit(digits[0]) && digits[0] != '+';
  }

  predicate AllSpace(s: string) {
    forall i :: 0 <= i < |s| ==> s[i] in " \t\n\r"
  }

  /** White space around a rate, and the case of its letters, do not matter. */
  lemma {:induction false} SpaceAndCase(before: string, input: string, after: string, other: string)
    requires AllSpace(before) && AllSpace(after)
    requires |other| == |input|
    requires forall i :: 0 <= i < |input| ==>
               other[i] == input[i] || ('a' <= input[i] <= 'z' && other[i] as int == input[i] as int - 32)
    requires input == "" || (!IsSpace(input[0]) && !IsSpace(input[|input| - 1]))
    ensures ParseRateMode(before + other + after) == ParseRateMode(input)
  {
    hide ParseUnsigned, SplitUnit, ScaledRate;
    TrimKeepsSolid(input);
    assert other == "" || (!IsSpace(other[0]) && !IsSpace(other[|other| - 1]));
    TrimDropsSpace(before, other, after);
    assert Lower(other) == Lower(input);
  }

  lemma {:induction false} TrimDropsSpace(before: string, solid: string, after: string)
    requires AllSpace(before) && AllSpace(after)
    requires solid == "" || (!IsSpace(solid[0]) && !IsSpace(solid[|solid| - 1]))
    ensures Trim(before + solid + after) == solid
  {
    StartDropsSpace(before, solid + after);
    assert before + solid + after == before + (solid + after);
    if solid == "" {
      StartDropsSpace(after, "");
      assert after + "" == after && solid + after == after;
    } else {
      assert (solid + after)[0] == solid[0];
      EndDropsSpace(solid, after);
    }
  }

  lemma {:induction false} StartDropsSpace(space: string, rest: string)
    requires AllSpace(space)
    ensures TrimStart(space + rest) == TrimStart(rest)
  {
    if space == "" {
      assert space + rest == rest;
    } else {
      assert (space + rest)[1..] == space[1..] + rest;
      assert (space + rest)[0] == space[0] && IsSpace(space[0]);
      StartDropsSpace(space[1..], rest);
    }
  }

  lemma {:induction false} EndDropsSpace(solid: string, space: string)
    requires AllSpace(space) && solid != "" && !IsSpace(solid[|solid| - 1])
    ensures TrimEnd(solid + space) == solid
  {
    if space == "" {
      assert solid + space == solid;
    } else {
      var s, n := solid + space, |space| - 1;
      assert s[..|s| - 1] == solid + space[..n];
      assert s[|s| - 1] == space[n] && IsSpace(space[n]);
      EndDropsSpace(solid, space[..n]);
    }
  }

  /** A rate's label, `auto` or the number without unit or leading zero, parses back to the
      rate. */
  lemma RateRoundTrip(rate: RateMode)
    requires rate.Bps? ==> rate.bps > 0
    ensures ParseRateMode(RateLabel(rate)) == Ok(rate)
    ensures RateLabel(rate) == match rate case Auto => "auto" case Bps(v) => Decimal(v)
  {
    match rate
    case Auto =>
      TrimKeepsSolid("auto");
      assert Lower("auto") == "auto";
    case Bps(v) =>
      LabelOfBps(v);
  }

  lemma LabelOfBps(v: U64)
    requires v > 0
    ensures ParseRateMode(Decimal(v)) == Ok(Bps(v))
  {
    hide ParseRateMode, Decimal, DigitsValue;
    DecimalRoundTrip(v);
    ParseOfDigitsAndUnit(Decimal(v), "", 1);
    assert Decimal(v) + "" == Decimal(v);
  }

  lemma StripRebuilds(raw: string, suffix: string)
    requires EndsWith(raw, suffix)
    ensures raw == Strip(raw, suffix) + suffix
  {
  }

  /** Splitting off a unit loses nothing, and the unit is one the parser knows. */
  lemma SplitUnitIsSound(raw: string) returns (unit: string)
    ensures var (digits, scale) := SplitUnit(raw); IsUnit(unit, scale) && raw == digits + unit
  {
    hide EndsWith, Strip;
    unit :=
      if EndsWith(raw, "kbps") then "kbps" else if EndsWith(raw, "k") then "k"
      else if EndsWith(raw, "mbps") then "mbps" else if EndsWith(raw, "m") then "m"
      else if EndsWith(raw, "gbps") then "gbps" else if EndsWith(raw, "g") then "g"
      else if EndsWith(raw, "tbps") then "tbps" else if EndsWith(raw, "t") then "t"
      else if EndsWith(raw, "bps") then "bps" else "";
    if unit == "" {
      assert raw == raw + "";
    } else {
      StripRebuilds(raw, unit);
    }
  }

  /** Lowered and trimmed text that denotes a rate: digits, perhaps after a plus sign, and a
      unit, whose product is positive and fits 64 bits. */
  ghost predicate Denotes(raw: string, rate: nat) {
    exists digits, unit, scale :: DenotedBy(raw, rate, digits, unit, scale)
  }

  predicate DenotedBy(raw: string, rate: nat, digits: string, unit: string, scale: nat) {
    && AllDigits(digits) && IsUnit(unit, scale)
    && (raw == digits + unit || raw == "+" + digits + unit)
    && rate == DigitsValue(digits) * scale && 0 < rate < TWO_64
  }

  /** Exactly these texts are accepted, in any case and with any white space around them:
      `auto`, and digits, perhaps after a plus sign, with a unit. */
  lemma AcceptedRates(input: string)
    ensures ParseRateMode(input) == Ok(Auto) <==> Lower(Trim(input)) == "auto"
    ensures forall rate: U64 :: ParseRateMode(input) == Ok(Bps(rate)) <==> Denotes(Lower(Trim(input)), rate)
  {
    hide Denotes, Trim, Lower, SplitUnit, ScaledRate, ParseUnsigned;
    var raw := Lower(Trim(input));
    AcceptedAuto(input);
    forall rate: U64 ensures ParseRateMode(input) == Ok(Bps(rate)) <==> Denotes(raw, rate) {
      if ParseRateMode(input) == Ok(Bps(rate)) {
        AcceptedDenotes(input, rate);
      }
      if Denotes(raw, rate) {
        DenotedIsAccepted(input, rate);
      }
    }
  }

  lemma AcceptedAuto(input: string)
    ensures ParseRateMode(input) == Ok(Auto) <==> Lower(Trim(input)) == "auto"
  {
    hide Trim, Lower, SplitUnit, ParseUnsigned;
  }

  lemma AcceptedDenotes(input: string, rate: U64)
    requires ParseRateMode(input) == Ok(Bps(rate))
    ensures Denotes(Lower(Trim(input)), rate)
  {
    hide IsUnit, DigitsValue, Trim, Lower;
    var raw := Lower(Trim(input));
    var (text, scale) := SplitUnit(raw);
    var unit := SplitUnitIsSound(raw);
    var digits := if text != "" && text[0] == '+' then text[1..] else text;
    if text != "" && text[0] == '+' {
      assert text == "+" + digits;
      assert "+" + digits + unit == text + unit;
    }
    assert DenotedBy(raw, rate, digits, unit, scale);
  }

  lemma DenotedIsAccepted(input: string, rate: U64)
    requires Denotes(Lower(Trim(input)), rate)
    ensures ParseRateMode(input) == Ok(Bps(rate))
  {
    hide Trim, Lower, SplitUnit, DigitsValue, IsUnit;
    var raw := Lower(Trim(input));
    var digits, unit, scale: nat :| DenotedBy(raw, rate, digits, unit, scale);
    var text := if raw == digits + unit then digits else "+" + digits;
    assert text == digits || (text[0] == '+' && text[1..] == digits);
    assert text[|text| - 1] == digits[|digits| - 1];
    SplitsWhatWasAppended(text, unit, scale);
    NotAuto(text, unit, scale);
    assert scale >= 1 by { UnitScale(unit, scale); }
    MulMonotone(1, scale, DigitsValue(digits));
    assert digits[0] != '+' by { assert IsDigit(digits[0]); }
  }

  lemma UnitScale(unit: string, scale: nat)
    requires IsUnit(unit, scale)
    ensures scale >= 1
  {
  }

  lemma NotAuto(text: string, unit: string, scale: nat)
    requires EndsInDigit(text) && IsUnit(unit, scale)
    ensures text + unit != "auto"
  {
    var raw := text + unit;
    assert raw[|raw| - 1] == if unit == "" then text[|text| - 1] else unit[|unit| - 1];
    assert "auto"[3] == 'o';
  }

  // ----- comma-separated lists

  function SplitCommas(s: string): (parts: seq<string>)
    ensures parts != []
  {
    if s == "" then [""]
    else
      var rest := SplitCommas(s[1..]);
      if s[0] == ',' then [""] + rest else [[s[0]] + rest[0]] + rest[1..]
  }

  function JoinCommas(parts: seq<string>): string
    requires parts != []
  {
    if |parts| == 1 then parts[0] else parts[0] + "," + JoinCommas(parts[1..])
  }

  lemma {:induction false} SplitFirst(part: string, rest: string)
    requires ',' !in part
    ensures SplitCommas(part + "," + rest) == [part] + SplitCommas(rest)
    ensures SplitCommas(part) == [part]
  {
    var s := part + "," + rest;
    if part == "" {
      assert s[0] == ',' && s[1..] == rest;
    } else {
      SplitFirst(part[1..], rest);
      assert s[1..] == part[1..] + "," + rest;
      assert [part[0]] + part[1..] == part;
    }
  }

  lemma {:induction false} SplitOfJoin(parts: seq<string>)
    requires parts != [] && forall i :: 0 <= i < |parts| ==> ',' !in parts[i]
    ensures SplitCommas(JoinCommas(parts)) == parts
  {
    if |parts| == 1 {
      SplitFirst(parts[0], "");
    } else {
      SplitFirst(parts[0], JoinCommas(parts[1..]));
      SplitOfJoin(parts[1..]);
    }
  }

  /** All parts parsed in order; the first that fails decides the error. */
  function ParseAll<T>(parse: string -> Result<T, ParseError>, parts: seq<string>): Result<seq<T>, ParseError> {
    if parts == [] then Ok([])
    else
      match ParseAll(parse, parts[..|parts| - 1])
      case Err(e) => Err(e)
      case Ok(values) =>
        match parse(parts[|parts| - 1])
        case Err(e) => Err(e)
        case Ok(v) => Ok(values + [v])
  }

  lemma {:induction false} ParseAllStops<T>(parse: string -> Result<T, ParseError>, parts: seq<string>, k: nat)
    requires k <= |parts| && ParseAll(parse, parts[..k]).Err?
    ensures ParseAll(parse, parts) == ParseAll(parse, parts[..k])
  {
    if k < |parts| {
      assert parts[..|parts| - 1][..k] == parts[..k];
      ParseAllStops(parse, parts[..|parts| - 1], k);
    } else {
      assert parts[..k] == parts;
    }
  }

  /** A list parses to values exactly if every part does; otherwise the first part that does
      not decides the error. */
  lemma {:induction false} ParseAllMeaning<T>(parse: string -> Result<T, ParseError>, parts: seq<string>)
    ensures match ParseAll(parse, parts)
            case Ok(values) => |values| == |parts| && forall i :: 0 <= i < |parts| ==> parse(parts[i]) == Ok(values[i])
            case Err(e) => exists k :: 0 <= k < |parts| && parse(parts[k]) == Err(e)
                                       && forall i :: 0 <= i < k ==> parse(parts[i]).Ok?
  {
    if parts != [] {
      var init, n := parts[..|parts| - 1], |parts| - 1;
      ParseAllMeaning(parse, init);
      if ParseAll(parse, init).Err? {
        var e := ParseAll(parse, init).error;
        var k :| 0 <= k < |init| && parse(init[k]) == Err(e) && forall i :: 0 <= i < k ==> parse(init[i]).Ok?;
        assert parse(parts[k]) == Err(e);
        assert forall i :: 0 <= i < k ==> parts[i] == init[i];
      } else {
        assert forall i :: 0 <= i < n ==> parts[i] == init[i];
      }
    }
  }

  function ParseRatePart(part: string): Result<RateMode, ParseError> {
    ParseRateMode(Trim(part))
  }

  method ParseRatesList(input: string) returns (r: Result<seq<RateMode>, ParseError>)
    ensures r == ParseAll(ParseRatePart, SplitCommas(input))
  {
    hide ParseRateMode, Trim;
    var parts := SplitCommas(input);
    var out: seq<RateMode> := [];
    for i := 0 to |parts|
      invariant ParseAll(ParseRatePart, parts[..i]) == Ok(out)
      invariant |out| == i
    {
      var rate := ParseRateMode(Trim(parts[i]));
      assert parts[..i + 1][..i] == parts[..i];
      if rate.Err? {
        ParseAllStops(ParseRatePart, parts, i + 1);
        return Err(rate.error);
      }
      out := out + [rate.value];
    }
    assert parts[..|parts|] == parts;
    if out == [] {
      return Err(EmptyList);
    }
    return Ok(out);
  }

  function ParseStreamCount(part: string): Result<U16, ParseError> {
    match ParseUnsigned(Trim(part), 0x1_0000)
    case None => Err(InvalidStreamCount)
    case Some(v) => if v == 0 then Err(StreamCountIsZero) else Ok(v)
  }

  method ParseStreamsList(input: string) returns (r: Result<seq<U16>, ParseError>)
    ensures r == ParseAll(ParseStreamCount, SplitCommas(input))
    ensures r.Ok? ==> |r.value| == |SplitCommas(input)| && forall i :: 0 <= i < |r.value| ==> r.value[i] >= 1
  {
    hide ParseUnsigned, Trim;
    var parts := SplitCommas(input);
    var out: seq<U16> := [];
    for i := 0 to |parts|
      invariant ParseAll(ParseStreamCount, parts[..i]) == Ok(out)
      invariant |out| == i && forall k :: 0 <= k < i ==> out[k] >= 1
    {
      var value := ParseUnsigned(Trim(parts[i]), 0x1_0000);
      assert parts[..i + 1][..i] == parts[..i];
      ParseAllStopsAt(parts, i);
      if value.None? {
        return Err(InvalidStreamCount);
      }
      if value.value == 0 {
        return Err(StreamCountIsZero);
      }
      out := out + [value.value];
    }
    assert parts[..|parts|] == parts;
    if out == [] {
      return Err(EmptyList);
    }
    return Ok(out);
  }

  lemma ParseAllStopsAt(parts: seq<string>, i: nat)
    requires i < |parts|
    ensures ParseAll(ParseStreamCount, parts[..i + 1]).Err? ==>
              ParseAll(ParseStreamCount, parts) == ParseAll(ParseStreamCount, parts[..i + 1])
  {
    if ParseAll(ParseStreamCount, parts[..i + 1]).Err? {
      ParseAllStops(ParseStreamCount, parts, i + 1);
    }
  }

  lemma {:induction false} ParseAllOk<T>(parse: string -> Result<T, ParseError>, parts: seq<string>, values: seq<T>)
    requires |parts| == |values| && forall i :: 0 <= i < |parts| ==> parse(parts[i]) == Ok(values[i])
    ensures ParseAll(parse, parts) == Ok(values)
  {
    if parts != [] {
      var n := |parts| - 1;
      ParseAllOk(parse, parts[..n], values[..n]);
      assert values[..n] + [values[n]] == values;
    }
  }

  function RateLabels(rates: seq<RateMode>): seq<string> {
    seq(|rates|, i requires 0 <= i < |rates| => RateLabel(rates[i]))
  }

  /** A nonempty list of rates, written with commas, parses back to the same list. */
  lemma RatesListRoundTrip(rates: seq<RateMode>)
    requires rates != [] && forall i :: 0 <= i < |rates| && rates[i].Bps? ==> rates[i].bps > 0
    ensures ParseAll(ParseRatePart, SplitCommas(JoinCommas(RateLabels(rates)))) == Ok(rates)
  {
    hide ParseRateMode, Decimal, SplitCommas, JoinCommas, ParseAll;
    var labels := RateLabels(rates);
    forall i | 0 <= i < |rates| ensures ',' !in labels[i] && ParseRatePart(labels[i]) == Ok(rates[i]) {
      LabelIsSolid(rates[i]);
      RateRoundTrip(rates[i]);
    }
    SplitOfJoin(labels);
    ParseAllOk(ParseRatePart, labels, rates);
  }

  lemma LabelIsSolid(rate: RateMode)
    ensures ',' !in RateLabel(rate) && Trim(RateLabel(rate)) == RateLabel(rate)
  {
    hide Trim;
    var text := RateLabel(rate);
    if rate.Bps? {
      assert IsDigit(text[0]) && IsDigit(text[|text| - 1]);
    }
    TrimKeepsSolid(text);
  }
}
