/** The resolver's command-line duration parser, used for the key-rotation interval. */
module ResolverCli {
  import opened Wrappers
  import opened Bytes
  import opened Decimal
  import opened Text

  /** The default of the `--rotate` option. */
  const DEFAULT_ROTATE: string := "24h"

  /** The `Display` text of Rust's `ParseIntError`, which the error messages embed. */
  function IntErrorMessage(k: IntErrorKind): string
  {
    match k
    case Empty => "cannot parse integer from empty string"
    case InvalidDigit => "invalid digit found in string"
    case PosOverflow => "number too large to fit in target type"
  }

  /** A rejected duration: the unit word of the branch taken and the integer-parse failure. */
  datatype DurationError = DurationError(unitName: string, kind: IntErrorKind)
  {
    /** The message text, `invalid <unit>: <ParseIntError>`. */
    function Message(): string
    {
      "invalid " + unitName + ": " + IntErrorMessage(kind)
    }
  }

  /** Parse a `u64` count and scale it, or report the failure under `unitName`. */
  function ParseScaled(digits: string, unitName: string, scale: nat): Result<nat, DurationError>
  {
    match ParseUnsigned(digits, U64_MAX)
    case Ok(n) => Ok(n * scale)
    case Err(k) => Err(DurationError(unitName, k))
  }

  /**
   * `parse_duration`: trim, then try the suffixes `h`, `m`, `s` in that order, each
   * removing one trailing character; otherwise the whole string is a count of seconds.
   * The result is the duration in whole seconds.
   */
  function ParseDuration(s: string): Result<nat, DurationError>
  {
    var t := Trim(s);
    if StripSuffix(t, 'h').Some? then ParseScaled(StripSuffix(t, 'h').value, "hours", 3600)
    else if StripSuffix(t, 'm').Some? then ParseScaled(StripSuffix(t, 'm').value, "minutes", 60)
    else if StripSuffix(t, 's').Some? then ParseScaled(StripSuffix(t, 's').value, "seconds", 1)
    else ParseScaled(t, "duration", 1)
  }

  /** The unit a trimmed duration ends in, if it ends in one. */
  function UnitOf(t: string): Option<char>
  {
    if |t| > 0 && t[|t| - 1] in {'h', 'm', 's'} then Some(t[|t| - 1]) else None
  }

  /** Seconds per unit; a bare number counts seconds. */
  function SecondsPer(unit: Option<char>): nat
  {
    match unit
    case Some('h') => 3600
    case Some('m') => 60
    case _ => 1
  }

  /** The word an error message uses for each unit. */
  function UnitLabel(unit: Option<char>): string
  {
    match unit
    case Some('h') => "hours"
    case Some('m') => "minutes"
    case Some('s') => "seconds"
    case _ => "duration"
  }

  /** The number part of a trimmed duration: the unit, if any, removed. */
  function NumberPart(t: string): string
  {
    if UnitOf(t).Some? then t[..|t| - 1] else t
  }

  /** The suffix chain picks the unit the trimmed text ends in, and parses the rest. */
  lemma ParseDurationByUnit(s: string)
    ensures var t := Trim(s);
      ParseDuration(s) == ParseScaled(NumberPart(t), UnitLabel(UnitOf(t)), SecondsPer(UnitOf(t)))
  {
  }

  /**
   * A duration is accepted exactly when its number part is a valid `u64`, and then it
   * is that number times the unit's length in seconds; a rejection names the unit in
   * its message.
   */
  lemma ParseDurationCorrect(s: string)
    ensures var t := Trim(s); var d := Body(NumberPart(t));
      ParseDuration(s).Ok? <==> |d| > 0 && AllDigits(d) && Value(d) <= U64_MAX
    ensures var t := Trim(s); var d := Body(NumberPart(t));
      ParseDuration(s).Ok? ==> ParseDuration(s).value == Value(d) * SecondsPer(UnitOf(t))
    ensures var t := Trim(s);
      ParseDuration(s).Err? ==> ParseDuration(s).error.unitName == UnitLabel(UnitOf(t))
    ensures Trim(s) == [] ==> ParseDuration(s) == Err(DurationError("duration", Empty))
  {
    var t := Trim(s);
    ParseDurationByUnit(s);
    ParseUnsignedCorrect(NumberPart(t), U64_MAX);
  }

  /** A printed count with a unit, padded with white space, parses back to its length in seconds. */
  lemma ParseDurationRoundTrip(ws1: string, n: nat, unit: Option<char>, ws2: string)
    requires n <= U64_MAX
    requires unit.None? || unit.value in {'h', 'm', 's'}
    requires forall i :: 0 <= i < |ws1| ==> IsWhitespace(ws1[i])
    requires forall i :: 0 <= i < |ws2| ==> IsWhitespace(ws2[i])
    ensures var x := NatToString(n) + (if unit.Some? then [unit.value] else []);
      ParseDuration(ws1 + x + ws2) == Ok(n * SecondsPer(unit))
  {
    var digits := NatToString(n);
    var x := digits + (if unit.Some? then [unit.value] else []);
    DigitsWithUnit(digits, unit);
    TrimPadded(ws1, x, ws2);
    ParseDurationByUnit(ws1 + x + ws2);
    ParseNatToString(n, U64_MAX);
  }

  /** Digits followed by an optional unit: that unit and those digits are read back, and no end is blank. */
  lemma DigitsWithUnit(digits: string, unit: Option<char>)
    requires |digits| > 0 && AllDigits(digits)
    requires unit.None? || unit.value in {'h', 'm', 's'}
    ensures var x := digits + (if unit.Some? then [unit.value] else []);
      && UnitOf(x) == unit && NumberPart(x) == digits
      && x != [] && !IsWhitespace(x[0]) && !IsWhitespace(x[|x| - 1])
  {
    var x := digits + (if unit.Some? then [unit.value] else []);
    assert x[0] == digits[0] && IsDigit(digits[0]);
    assert IsDigit(digits[|digits| - 1]);
    if unit.Some? {
      assert x[..|x| - 1] == digits;
    }
  }

  /** The default rotation interval `24h` is one day. */
  lemma DefaultRotateIsOneDay()
    ensures ParseDuration(DEFAULT_ROTATE) == Ok(86400)
  {
    DefaultRotateInHours();
    ParseDurationByUnit(DEFAULT_ROTATE);
  }

  /** `24h` needs no trimming, ends in the unit `h`, and its number "24" parses to 24. */
  lemma DefaultRotateInHours()
    ensures Trim(DEFAULT_ROTATE) == DEFAULT_ROTATE
    ensures UnitOf(DEFAULT_ROTATE) == Some('h') && NumberPart(DEFAULT_ROTATE) == "24"
    ensures ParseUnsigned("24", U64_MAX) == Ok(24)
  {
    var t := DEFAULT_ROTATE;
    TrimPadded("", t, "");
    assert "" + t + "" == t;
    assert NatToString(24) == "24" by {
      assert NatToString(2) == "2";
    }
    ParseNatToString(24, U64_MAX);
  }

  /** Only one suffix is stripped, so `5ms` is refused: `5m` is not a number of seconds. */
  lemma MillisecondsRejected()
    ensures ParseDuration("5ms") == Err(DurationError("seconds", InvalidDigit))
  {
    var t := "5ms";
    assert Trim(t) == t by { TrimPadded("", t, ""); assert "" + t + "" == t; }
    ParseDurationByUnit(t);
    assert UnitOf(t) == Some('s');
    assert NumberPart(t) == "5m";
    assert Accumulate("5m", 0, U64_MAX) == Err(InvalidDigit) by {
      assert "5m"[1..] == "m";
      assert Accumulate("m", 5, U64_MAX) == Err(InvalidDigit);
    }
    assert ParseUnsigned("5m", U64_MAX) == Err(InvalidDigit);
  }

  /** A unit with nothing before it is an empty number. */
  lemma BareUnitRejected()
    ensures ParseDuration("h") == Err(DurationError("hours", Empty))
  {
    var t := "h";
    assert Trim(t) == t by { TrimPadded("", t, ""); assert "" + t + "" == t; }
    ParseDurationByUnit(t);
    assert UnitOf(t) == Some('h');
    assert NumberPart(t) == "";
    assert ParseUnsigned("", U64_MAX) == Err(Empty);
  }
}
