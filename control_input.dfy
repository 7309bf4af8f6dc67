/**
 * `control_input(options, input_ctl)`: decides whether a menu choice or a
 * gate label typed by the player is acceptable and, when it is not, which
 * hint the program prints.  The printed hint is returned instead.
 */
module Validator {
  import opened Wrappers
  import opened PyFormat

  /** The candidate is either an int (a menu number) or a label (a gate name). */
  datatype Candidate = Num(n: int) | Label(s: string)

  /** The second argument is either an int count or a list of valid labels. */
  datatype Options = Count(n: int) | Labels(items: seq<string>)

  /** The two pairings on which Python raises TypeError instead of answering. */
  datatype TypeError =
    | CannotConcatenate   // `options + 1` with a list `options`
    | NotIterable         // `input_ctl in options` with an int `options`

  /** The returned boolean, and the line the program would print, if any. */
  datatype Verdict = Verdict(accepted: bool, hint: Option<string>)

  /** The fixed upper end of the accepted numeric range 1..3. */
  const MaxChoice: int := 3

  const RangePrefix: string := "Please give a number between 0 and "
  const GatePrefix: string := "Please give a valid gate between "

  /**
   * The hint for a rejected number, with bound formatted as str() does; the
   * bound reads back from the text, so different bounds give different hints.
   */
  function RangeHint(bound: int): (h: string)
    ensures ReadRangeHint(h) == Some(bound)
  {
    var f := FormatInt(bound);
    var h := RangePrefix + f + ".";
    assert h[..|RangePrefix|] == RangePrefix;
    assert h[|RangePrefix|..|h| - 1] == f;
    h
  }

  /** The hint for a rejected label; it shows the repr of every valid label. */
  function GateHint(items: seq<string>): (h: string)
    ensures GatePrefix <= h && h[|GatePrefix|..] == ListRepr(items)
    ensures |h| > |GatePrefix| && h[|h| - 1] == ']'
    ensures forall i :: 0 <= i < |items| ==> Occurs(StrRepr(items[i]), h)
  {
    var l := ListRepr(items);
    ReprsOccurWithin(items, l, GatePrefix, "");
    assert GatePrefix + l + "" == GatePrefix + l;
    GatePrefix + l
  }

  /** Recovers the bound from a range hint; None for any other text. */
  function ReadRangeHint(h: string): Option<int>
  {
    if |h| > |RangePrefix| && h[..|RangePrefix|] == RangePrefix && h[|h| - 1] == '.'
    then ReadInt(h[|RangePrefix|..|h| - 1])
    else None
  }

  /** Python's typing: these pairings reach an operator the arguments do not support. */
  predicate IsTypeMismatch(options: Options, input: Option<Candidate>)
  {
    match input
    case None => false
    case Some(Num(k)) => options.Labels? && !(0 < k <= MaxChoice)
    case Some(Label(_)) => options.Count?
  }

  predicate IsAccepted(r: Result<Verdict, TypeError>)
  {
    r.Success? && r.value.accepted
  }

  function ControlInput(options: Options, input: Option<Candidate>): (r: Result<Verdict, TypeError>)
    // An absent candidate is rejected without a hint, whatever the options.
    ensures input.None? ==> r == Success(Verdict(false, None))
    // Python raises exactly on the two mismatched pairings.
    ensures r.Failure? <==> IsTypeMismatch(options, input)
    ensures r.Failure? && input.Some? ==>
              r.error == (if input.value.Num? then CannotConcatenate else NotIterable)
    // No hint on acceptance; exactly one hint on every other rejection.
    ensures IsAccepted(r) ==> r.value.hint.None?
    ensures r.Success? && !r.value.accepted && input.Some? ==> r.value.hint.Some?
    // A number is accepted iff it lies in 1..3, whatever the options.
    ensures input.Some? && input.value.Num? ==>
              (IsAccepted(r) <==> 0 < input.value.n <= 3)
    // A rejected number gets the count as bound when the count is below 2, else 3.
    ensures input.Some? && input.value.Num? && !(0 < input.value.n <= 3) && options.Count? ==>
              r == Success(Verdict(false, Some(RangeHint(if options.n < 2 then options.n else 3))))
    // A label is accepted iff it is one of the options; otherwise the hint lists them.
    ensures input.Some? && input.value.Label? && options.Labels? ==>
              r.Success? && (r.value.accepted <==> input.value.s in options.items)
    ensures input.Some? && input.value.Label? && options.Labels? && input.value.s !in options.items ==>
              r.value.hint == Some(GateHint(options.items))
  {
    match input
    case None => Success(Verdict(false, None))
    case Some(Num(k)) =>
      if 0 < k <= MaxChoice then Success(Verdict(true, None))
      else (
        match options
        case Labels(_) => Failure(CannotConcatenate)
        case Count(n) =>
          if n + 1 < MaxChoice then Success(Verdict(false, Some(RangeHint(n))))
          else Success(Verdict(false, Some(RangeHint(MaxChoice)))))
    case Some(Label(s)) =>
      match options
      case Count(_) => Failure(NotIterable)
      case Labels(items) =>
        if s in items then Success(Verdict(true, None))
        else Success(Verdict(false, Some(GateHint(items))))
  }

  /**
   * The hint for an out-of-range number names the count when the count is
   * below 2 and names 3 otherwise, and a reader of the hint can tell which.
   */
  lemma NumericHintNamesBound(n: int, k: int)
    requires !(0 < k <= 3)
    ensures var r := ControlInput(Count(n), Some(Num(k)));
            r.Success? && !r.value.accepted && r.value.hint.Some? &&
            ReadRangeHint(r.value.hint.value) == Some(if n < 2 then n else 3)
  {
  }

  /** The hint for a rejected label shows every valid label, each as repr writes it. */
  lemma GateHintListsOptions(items: seq<string>, s: string, i: nat)
    requires s !in items && i < |items|
    ensures var r := ControlInput(Labels(items), Some(Label(s)));
            r.Success? && !r.value.accepted && r.value.hint.Some? &&
            Occurs(StrRepr(items[i]), r.value.hint.value)
  {
  }

  /**
   * A label hint is never read as a range hint, so the two kinds of
   * rejection cannot be confused: the first ends in "]", the second in ".".
   */
  lemma HintsDistinguishRejections(bound: int, items: seq<string>)
    ensures ReadRangeHint(GateHint(items)) == None
    ensures RangeHint(bound) != GateHint(items)
  {
  }

  /**
   * Whether a number is accepted does not depend on the options: when both
   * calls answer, they give the same verdict on acceptance.
   */
  lemma NumericAcceptanceIgnoresOptions(o1: Options, o2: Options, k: int)
    ensures IsAccepted(ControlInput(o1, Some(Num(k)))) == IsAccepted(ControlInput(o2, Some(Num(k))))
  {
  }
}
