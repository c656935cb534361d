/** The configuration validator `parameter_consistency_check`: it decides
    from the `parameter`, `threshold` and `hourly` entries whether a run may
    start, printing one error or warning line on the way. The printed line is
    returned here as part of the outcome instead of being printed. */
module ParameterCheck {
  import opened PyValues

  /** The three configuration entries the validator reads. */
  datatype Config = Config(parameter: string, threshold: Value, hourly: bool)

  /** Every line the validator can print. */
  datatype Message =
    | HourlyShape    // hourly mode, threshold is not a list of two values
    | DayHours       // hourly mode, more than 24 hours
    | HourMinutes    // hourly mode, more than 60 minutes
    | Negative       // a negative threshold, in either mode
    | HourlyZero     // hourly mode, a zero component (warning)
    | NotInteger     // minute mode, threshold is not an int
    | ScalarZero     // minute mode, threshold 0 (warning)
    | DayMinutes     // parameter "HR", more than 1440 minutes
  {
    predicate IsWarning() {
      this == HourlyZero || this == ScalarZero
    }
  }

  /** What one call produces: the lines printed and how the call ends. The
      source returns True (`Valid`) or False (`Invalid`, whose `error` is the
      last line printed), or raises a TypeError from a comparison between a
      number and a value that is not one. */
  datatype Outcome =
    | Valid(warnings: seq<Message>)
    | Invalid(warnings: seq<Message>, error: Message)
    | TypeError(warnings: seq<Message>)
  {
    /** The lines printed, in order. */
    function Printed(): seq<Message> {
      if Invalid? then warnings + [error] else warnings
    }
  }

  /** The exact text the source prints for each message. */
  function Text(m: Message): string {
    match m
    case HourlyShape => "error, 'hourly' set to True, 'threshold' should be a list of two values"
    case DayHours => "error, a day contains 24 hours only"
    case HourMinutes => "error, an hour contains 60 minutes only"
    case Negative => "error, time parameter set to negative"
    case HourlyZero => "warning, thresholds set to 0"
    case NotInteger => "error, 'hourly' set to False, 'threshold' should be an integer"
    case ScalarZero => "warning, threshold sets to 0"
    case DayMinutes => "error, a day contains 1440 minutes only"
  }

  /** `isinstance(threshold, list) and len(threshold) == 2` */
  predicate IsPair(t: Value) {
    t.List? && |t.items| == 2
  }

  function Hours(t: Value): Value
    requires IsPair(t)
  {
    t.items[0]
  }

  function Minutes(t: Value): Value
    requires IsPair(t)
  {
    t.items[1]
  }

  /** An hourly threshold within bounds: 0..24 hours and 0..60 minutes, both
      bounds included. */
  predicate InHourlyRange(t: Value) {
    && IsPair(t)
    && IsNumber(Hours(t)) && IsNumber(Minutes(t))
    && 0.0 <= Num(Hours(t)) <= 24.0
    && 0.0 <= Num(Minutes(t)) <= 60.0
  }

  /** An hourly threshold within bounds with a zero component: the case that
      prints the zero warning. */
  predicate HourlyZeroWarned(t: Value) {
    InHourlyRange(t) && (Num(Hours(t)) == 0.0 || Num(Minutes(t)) == 0.0)
  }

  /** When the source returns True, stated declaratively: the reference the
      ordered checks of `Check` are proved against. */
  predicate Accepts(c: Config) {
    if c.hourly then
      InHourlyRange(c.threshold) && c.parameter != "HR"
    else
      && IsInt(c.threshold)
      && 0.0 <= Num(c.threshold)
      && (c.parameter == "HR" ==> Num(c.threshold) <= 1440.0)
  }

  /** The final check, reached in both modes: `parameter == "HR" and
      threshold > 1440`. The comparison runs only for "HR", and raises when
      the threshold is not a number (an hourly list). */
  function HrCap(parameter: string, threshold: Value, warnings: seq<Message>): (r: Outcome)
    ensures r.warnings == warnings
    ensures r.Valid? <==> parameter != "HR" || (IsNumber(threshold) && Num(threshold) <= 1440.0)
    ensures r.TypeError? <==> parameter == "HR" && !IsNumber(threshold)
    ensures r.Invalid? ==> r.error == DayMinutes
  {
    if parameter == "HR" then
      if !IsNumber(threshold) then TypeError(warnings)
      else if Num(threshold) > 1440.0 then Invalid(warnings, DayMinutes)
      else Valid(warnings)
    else
      Valid(warnings)
  }

  /** The `hourly` branch: the shape check, then hours above 24, then
      minutes above 60, then negative components, then the zero warning,
      then the final "HR" check. */
  function CheckHourly(parameter: string, threshold: Value): (r: Outcome)
    // the shape is checked before any bound
    ensures !IsPair(threshold) ==> r == Invalid([], HourlyShape)
    // the first failing check decides the message
    ensures IsPair(threshold) && IsNumber(Hours(threshold)) && Num(Hours(threshold)) > 24.0
            ==> r == Invalid([], DayHours)
    ensures && IsPair(threshold) && IsNumber(Hours(threshold)) && IsNumber(Minutes(threshold))
            && Num(Hours(threshold)) <= 24.0 && Num(Minutes(threshold)) > 60.0
            ==> r == Invalid([], HourMinutes)
    ensures && IsPair(threshold) && IsNumber(Hours(threshold)) && IsNumber(Minutes(threshold))
            && Num(Hours(threshold)) <= 24.0 && Num(Minutes(threshold)) <= 60.0
            && (Num(Hours(threshold)) < 0.0 || Num(Minutes(threshold)) < 0.0)
            ==> r == Invalid([], Negative)
    // accepted exactly within the inclusive bounds, and never for "HR"
    ensures r.Valid? <==> InHourlyRange(threshold) && parameter != "HR"
    // a comparison with a non-number, or the "HR" check on a list, raises
    ensures r.TypeError? <==>
              && IsPair(threshold)
              && (|| !IsNumber(Hours(threshold))
                  || (Num(Hours(threshold)) <= 24.0 && !IsNumber(Minutes(threshold)))
                  || (InHourlyRange(threshold) && parameter == "HR"))
    // a TypeError from the "HR" check follows the zero warning; one from a
    // comparison with a non-number comes before anything is printed
    ensures r.TypeError? ==> r.warnings == (if HourlyZeroWarned(threshold) then [HourlyZero] else [])
    // a zero component only warns
    ensures r.Valid? ==>
              && InHourlyRange(threshold)
              && (r.warnings == [HourlyZero] <==> Num(Hours(threshold)) == 0.0 || Num(Minutes(threshold)) == 0.0)
              && (r.warnings == [] <==> Num(Hours(threshold)) != 0.0 && Num(Minutes(threshold)) != 0.0)
  {
    if !IsPair(threshold) then Invalid([], HourlyShape)
    else
      var hours, minutes := threshold.items[0], threshold.items[1];
      if !IsNumber(hours) then TypeError([])
      else if Num(hours) > 24.0 then Invalid([], DayHours)
      else if !IsNumber(minutes) then TypeError([])
      else if Num(minutes) > 60.0 then Invalid([], HourMinutes)
      else if Num(hours) < 0.0 || Num(minutes) < 0.0 then Invalid([], Negative)
      else
        var warnings := if Num(hours) == 0.0 || Num(minutes) == 0.0 then [HourlyZero] else [];
        HrCap(parameter, threshold, warnings)
  }

  /** The minute branch: the int check, then the sign, then the zero
      warning, then the final "HR" check. */
  function CheckScalar(parameter: string, threshold: Value): (r: Outcome)
    ensures !IsInt(threshold) ==> r == Invalid([], NotInteger)
    ensures IsInt(threshold) && Num(threshold) < 0.0 ==> r == Invalid([], Negative)
    ensures IsInt(threshold) && parameter == "HR" && Num(threshold) > 1440.0 ==> r == Invalid([], DayMinutes)
    // the 1440 bound applies to "HR" only
    ensures r.Valid? <==>
              && IsInt(threshold)
              && 0.0 <= Num(threshold)
              && (parameter == "HR" ==> Num(threshold) <= 1440.0)
    ensures !r.TypeError?
    // a zero threshold only warns
    ensures r.Valid? ==>
              && IsInt(threshold)
              && (r.warnings == [ScalarZero] <==> Num(threshold) == 0.0)
              && (r.warnings == [] <==> Num(threshold) != 0.0)
  {
    if !IsInt(threshold) then Invalid([], NotInteger)
    else if Num(threshold) < 0.0 then Invalid([], Negative)
    else
      var warnings := if Num(threshold) == 0.0 then [ScalarZero] else [];
      HrCap(parameter, threshold, warnings)
  }

  /** `parameter_consistency_check(configurations)`. */
  function Check(c: Config): (r: Outcome)
    ensures r.Valid? <==> Accepts(c)
    ensures r.TypeError? ==> c.hourly && IsPair(c.threshold)
    ensures r.TypeError? ==> r.warnings == (if HourlyZeroWarned(c.threshold) then [HourlyZero] else [])
    ensures r.Invalid? ==> r.warnings == [] && !r.error.IsWarning()
    ensures forall m <- r.warnings :: m.IsWarning()
    ensures |r.Printed()| <= 1
  {
    if c.hourly then CheckHourly(c.parameter, c.threshold)
    else CheckScalar(c.parameter, c.threshold)
  }

  /** Configurations showing the order of the checks, the bounds, which
      values count as ints, and the "HR"-only 1440 cap, with their outcomes. */
  lemma Scenarios()
    // a threshold of 5000 minutes is refused for "HR" only
    ensures Check(Config("calories", Int(5000), false)) == Valid([])
    ensures Check(Config("steps", Int(5000), false)) == Valid([])
    ensures Check(Config("HR", Int(5000), false)) == Invalid([], DayMinutes)
    ensures Check(Config("HR", Int(1440), false)) == Valid([])
    // both hourly bounds are inclusive
    ensures Check(Config("calories", List([Int(24), Int(60)]), true)) == Valid([])
    // hours are checked before signs
    ensures Check(Config("calories", List([Int(25), Int(-1)]), true)) == Invalid([], DayHours)
    // True is an int; a float is not
    ensures Check(Config("HR", Bool(true), false)) == Valid([])
    ensures Check(Config("HR", Float(30.0), false)) == Invalid([], NotInteger)
    // "HR" in hourly mode compares a list with 1440 and raises
    ensures Check(Config("HR", List([Int(0), Int(30)]), true)) == TypeError([HourlyZero])
  {
  }
}
