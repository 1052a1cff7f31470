/**
 * The "Generate" button (`handleGenerate`): the input gate, then either the
 * claim checker on the whole text or the assigner on the text split into a
 * priority block (its first two lines) and a user block (the rest).
 */
module App {
  import opened Wrappers
  import opened Text
  import opened Dict
  import opened Checker
  import opened Blocks
  import opened Assignment

  /** The two tool modes. */
  datatype Mode = CheckerMode | AssignerMode

  /** What a press of the button produces. */
  datatype Outcome =
    | Rejected                      // the alert; nothing is computed
    | Aborted                       // `processClaims` threw; nothing is shown
    | Checked(result: CheckerResult)
    | Assigned(results: Results)

  /**
   * `Array.from({ length: n }, ...)` constructs an `Array` of length n, which
   * throws a RangeError unless n is below 2^32.
   */
  const ArrayLengthBound: nat := 0x1_0000_0000

  function Min(a: nat, b: nat): nat
  {
    if a < b then a else b
  }

  /** `lines.slice(0, 2).join("\n")` for the lines of the trimmed text. */
  function PriorityBlock(rawData: string): string
  {
    var lines := RawLines(rawData);
    Join(lines[..Min(2, |lines|)], '\n')
  }

  /** `lines.slice(2).join("\n")` */
  function UserBlock(rawData: string): string
  {
    var lines := RawLines(rawData);
    Join(lines[Min(2, |lines|)..], '\n')
  }

  /** The total the gate accepts: `parseInt(totalItems, 10)` when it is a number of at least 1. */
  function ValidTotal(totalItems: string): (t: Option<nat>)
    ensures t.Some? <==> ParseInt(totalItems).Some? && ParseInt(totalItems).value >= 1
    ensures t.Some? ==> t.value == ParseInt(totalItems).value
  {
    match ParseInt(totalItems)
    case None => None
    case Some(v) => if v < 1 then None else Some(v)
  }

  /** `handleGenerate()` */
  function HandleGenerate(mode: Mode, rawData: string, totalItems: string): (o: Outcome)
    ensures o.Rejected? <==> Trim(rawData) == "" || ParseInt(totalItems).None? || ParseInt(totalItems).value < 1
    ensures o.Aborted? <==> !o.Rejected? && mode == CheckerMode && ParseInt(totalItems).value >= ArrayLengthBound
    ensures o.Checked? <==> !o.Rejected? && mode == CheckerMode && ParseInt(totalItems).value < ArrayLengthBound
    ensures o.Assigned? <==> !o.Rejected? && mode == AssignerMode
    ensures o.Checked? ==> o.result == ProcessClaims(rawData, ValidTotal(totalItems).value)
    ensures o.Assigned? ==> o.results == AssignSpec(ParseSpec(PriorityBlock(rawData)), ParseSpec(UserBlock(rawData)))
  {
    if Trim(rawData) == "" then Rejected
    else match ValidTotal(totalItems)
      case None => Rejected
      case Some(total) =>
        match mode
        case CheckerMode =>
          if total >= ArrayLengthBound then Aborted else Checked(ProcessClaims(rawData, total))
        case AssignerMode =>
          Assigned(AssignSpec(ParseSpec(PriorityBlock(rawData)), ParseSpec(UserBlock(rawData))))
  }

  /**
   * When no line of the trimmed text keeps a carriage return at its end (text
   * whose every carriage return comes right before a line feed qualifies, since
   * `/\r?\n/` strips it), the priority block reads back as the first two
   * lines and the user block as the remaining lines (a single empty line when
   * there are none).
   */
  lemma BlocksSplitLines(rawData: string)
    requires forall l :: l in RawLines(rawData) ==> NoTrailingCR(l)
    ensures var lines := RawLines(rawData);
      && Lines(PriorityBlock(rawData)) == lines[..Min(2, |lines|)]
      && Lines(UserBlock(rawData)) == if |lines| > 2 then lines[2..] else [""]
  {
    var lines := RawLines(rawData);
    var n := Min(2, |lines|);
    var front, back := lines[..n], lines[n..];
    assert forall p :: p in front ==> p in lines;
    assert forall p :: p in back ==> p in lines;
    LinesJoin(front);
    if |lines| > 2 {
      LinesJoin(back);
    } else {
      assert back == [];
      LinesWithoutCR("");
    }
  }

  /**
   * In assigner mode the general users' claims are exclusive: no item is in
   * two general users' `got`, and none claimed by the priority group.
   */
  lemma AssignedExclusive(rawData: string, totalItems: string)
    requires HandleGenerate(AssignerMode, rawData, totalItems).Assigned?
    ensures var goms, users := ParseSpec(PriorityBlock(rawData)), ParseSpec(UserBlock(rawData));
      var results := HandleGenerate(AssignerMode, rawData, totalItems).results;
      && (forall u, v, x ::
            (u in Keys(users) && v in Keys(users) && x in GotOf(results, u) && x in GotOf(results, v)) ==> u == v)
      && (forall u, x :: u in Keys(users) && x in GotOf(results, u) ==> x !in Scoring.Flatten(goms))
  {
    var goms, users := ParseSpec(PriorityBlock(rawData)), ParseSpec(UserBlock(rawData));
    ParsedNames(PriorityBlock(rawData));
    ParsedNames(UserBlock(rawData));
    Exclusive(goms, users);
  }
}
