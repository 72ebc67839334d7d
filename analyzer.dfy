/**
 * analyze_logs: one pass over the lines of a log file that counts the valid
 * requests, the error requests (status code 400 or more) and the errors per
 * endpoint, then reports the three endpoints with the most errors.
 *
 * Each line is given as the outcome of json.loads on it: the decoded value,
 * or `Undecodable` when json.loads raised (a JSONDecodeError, which is what
 * an empty or blank line gives, or any other exception).
 */
module LogAnalyzer {
  import opened JsonValue
  import opened Validation
  import opened ErrorTally
  import opened TopN

  datatype Line = Decoded(value: Json) | Undecodable

  /** A request is an error request when its status code is at least this. */
  const ErrorThreshold := 400

  /** How many endpoints the report ranks. */
  const TopCount := 3

  predicate IsError(e: Entry) {
    e.status >= ErrorThreshold
  }

  /** The running values of the loop: `total`, `errors` and the Counter. */
  datatype Summary = Summary(total: nat, errors: nat, tally: Tally)

  const Start := Summary(0, 0, Empty)

  /** The entry a line contributes: none when it did not decode or did not
      validate. */
  function EntriesOf(line: Line): (es: seq<Entry>)
    ensures |es| <= 1
  {
    match line
    case Undecodable => []
    case Decoded(v) => if ValidateLogEntry(v) then [EntryOf(v)] else []
  }

  /** One iteration of the loop body. */
  function Step(s: Summary, line: Line): (r: Summary)
    requires WellFormed(s.tally)
    ensures WellFormed(r.tally)
    ensures Positive(s.tally) ==> Positive(r.tally)
  {
    match line
    case Undecodable => s
    case Decoded(v) =>
      if !ValidateLogEntry(v) then s
      else
        var e := EntryOf(v);
        if IsError(e) then Summary(s.total + 1, s.errors + 1, Bump(s.tally, e.endpoint))
        else Summary(s.total + 1, s.errors, s.tally)
  }

  /** The running values after the given lines, in order. The Counter stays a
      well-formed dict whose counts are all positive, and there are never more
      errors than valid requests. */
  function Aggregate(lines: seq<Line>): (s: Summary)
    ensures WellFormed(s.tally) && Positive(s.tally)
    ensures s.errors <= s.total
  {
    if lines == [] then Start
    else Step(Aggregate(lines[..|lines| - 1]), lines[|lines| - 1])
  }

  // ---------------------------------------------------------------------
  // An independent description of what the pass computes

  /** The entries of the lines that decode and validate, in file order. */
  function ValidEntries(lines: seq<Line>): (es: seq<Entry>) {
    if lines == [] then []
    else ValidEntries(lines[..|lines| - 1]) + EntriesOf(lines[|lines| - 1])
  }

  /** The error entries among `es`, in order. */
  function Errors(es: seq<Entry>): (errs: seq<Entry>) {
    if es == [] then []
    else Errors(es[..|es| - 1]) + (if IsError(es[|es| - 1]) then [es[|es| - 1]] else [])
  }

  /** How many entries of `es` are for `endpoint`. */
  function Occurrences(es: seq<Entry>, endpoint: string): (n: nat) {
    if es == [] then 0
    else Occurrences(es[..|es| - 1], endpoint) + (if es[|es| - 1].endpoint == endpoint then 1 else 0)
  }

  /** The endpoints of `es`, each once, in the order of their first entry. */
  function FirstSeen(es: seq<Entry>): (endpoints: seq<string>) {
    if es == [] then []
    else
      var seen := FirstSeen(es[..|es| - 1]);
      var endpoint := es[|es| - 1].endpoint;
      if endpoint in seen then seen else seen + [endpoint]
  }

  /** Some entry of `es` is for `endpoint`. */
  ghost predicate Mentions(es: seq<Entry>, endpoint: string) {
    exists q :: 0 <= q < |es| && es[q].endpoint == endpoint
  }

  /** FirstSeen lists exactly the endpoints that have an entry. */
  lemma {:induction false} FirstSeenMembers(es: seq<Entry>)
    ensures forall x :: x in FirstSeen(es) <==> Mentions(es, x)
  {
    if es != [] {
      var init := es[..|es| - 1];
      FirstSeenMembers(init);
      forall x ensures Mentions(es, x) <==> Mentions(init, x) || es[|es| - 1].endpoint == x {
        if Mentions(init, x) {
          var q :| 0 <= q < |init| && init[q].endpoint == x;
          assert es[q].endpoint == x;
        }
        if Mentions(es, x) {
          var q :| 0 <= q < |es| && es[q].endpoint == x;
          if q < |init| {
            assert init[q].endpoint == x;
          }
        }
      }
    }
  }

  /** FirstSeen lists no endpoint twice. */
  lemma {:induction false} FirstSeenDistinct(es: seq<Entry>)
    ensures forall i, j :: 0 <= i < j < |FirstSeen(es)| ==> FirstSeen(es)[i] != FirstSeen(es)[j]
  {
    if es != [] {
      FirstSeenDistinct(es[..|es| - 1]);
    }
  }

  /** FirstSeen follows first occurrence: an entry for a later-listed endpoint
      comes after some entry for each earlier-listed one. */
  lemma {:induction false} FirstSeenOrder(es: seq<Entry>, i: nat, j: nat, q: nat)
    requires i < j < |FirstSeen(es)| && q < |es| && es[q].endpoint == FirstSeen(es)[j]
    ensures exists p :: 0 <= p < q && es[p].endpoint == FirstSeen(es)[i]
  {
    var init := es[..|es| - 1];
    var fs := FirstSeen(init);
    FirstSeenMembers(init);
    assert FirstSeen(es)[i] == fs[i];
    if q < |init| {
      assert init[q].endpoint == FirstSeen(es)[j];
      assert Mentions(init, FirstSeen(es)[j]);
      assert FirstSeen(es)[j] == fs[j];
      FirstSeenOrder(init, i, j, q);
      var p :| 0 <= p < q && init[p].endpoint == fs[i];
      assert es[p].endpoint == fs[i];
    } else {
      assert Mentions(init, fs[i]);
      var p :| 0 <= p < |init| && init[p].endpoint == fs[i];
      assert es[p].endpoint == fs[i];
    }
  }

  /** One iteration, read through the entry the line contributes: a skipped
      line leaves the running values alone; an entry counts as a request, and
      as an error for its endpoint when its status code is 400 or more. */
  lemma StepByEntry(s: Summary, line: Line)
    requires WellFormed(s.tally)
    ensures EntriesOf(line) == [] ==> Step(s, line) == s
    ensures EntriesOf(line) != [] ==>
              var e := EntriesOf(line)[0];
              Step(s, line) == if IsError(e) then Summary(s.total + 1, s.errors + 1, Bump(s.tally, e.endpoint))
                               else Summary(s.total + 1, s.errors, s.tally)
  {
  }

  /** The iteration for a line that decodes to a valid entry, in the terms
      the loop reads it: `entry['status_code']` and `entry['endpoint']`. */
  lemma StepAccepted(s: Summary, v: Json)
    requires WellFormed(s.tally) && ValidateLogEntry(v)
    ensures v.fields["endpoint"].JString? && IsPyInt(v.fields["status_code"])
    ensures Step(s, Decoded(v))
              == if IntValue(v.fields["status_code"]) >= ErrorThreshold
                 then Summary(s.total + 1, s.errors + 1, Bump(s.tally, v.fields["endpoint"].str))
                 else Summary(s.total + 1, s.errors, s.tally)
  {
  }

  /** Appending one line runs one more iteration. */
  lemma AggregateSnoc(lines: seq<Line>, line: Line)
    ensures Aggregate(lines + [line]) == Step(Aggregate(lines), line)
  {
    assert (lines + [line])[..|lines|] == lines;
  }

  /** The error entries of some entries followed by one more. */
  lemma ErrorsSnoc(es: seq<Entry>, e: Entry)
    ensures Errors(es + [e]) == if IsError(e) then Errors(es) + [e] else Errors(es)
  {
    assert (es + [e])[..|es|] == es;
    assert Errors(es) + [] == Errors(es);
  }

  /** The entries and error entries of some lines, split at the last line. */
  lemma LastLine(lines: seq<Line>)
    requires lines != []
    ensures var init := lines[..|lines| - 1];
            var es := EntriesOf(lines[|lines| - 1]);
            && ValidEntries(lines) == ValidEntries(init) + es
            && (es != [] && IsError(es[0]) ==> Errors(ValidEntries(lines)) == Errors(ValidEntries(init)) + [es[0]])
            && (es == [] || !IsError(es[0]) ==> Errors(ValidEntries(lines)) == Errors(ValidEntries(init)))
  {
    var init := lines[..|lines| - 1];
    var es := EntriesOf(lines[|lines| - 1]);
    assert ValidEntries(lines) == ValidEntries(init) + es;
    if es != [] {
      assert es == [es[0]];
      ErrorsSnoc(ValidEntries(init), es[0]);
    } else {
      assert ValidEntries(lines) == ValidEntries(init);
    }
  }

  lemma FirstSeenSnoc(es: seq<Entry>, e: Entry)
    ensures FirstSeen(es + [e]) == if e.endpoint in FirstSeen(es) then FirstSeen(es) else FirstSeen(es) + [e.endpoint]
  {
    assert (es + [e])[..|es|] == es;
  }

  lemma OccurrencesSnoc(es: seq<Entry>, e: Entry, endpoint: string)
    ensures Occurrences(es + [e], endpoint) == Occurrences(es, endpoint) + (if e.endpoint == endpoint then 1 else 0)
  {
    assert (es + [e])[..|es|] == es;
  }

  /** `total` counts the entries that decode and validate, and `errors` those
      of them with a status code of 400 or more. */
  lemma {:induction false} AggregateCounts(lines: seq<Line>)
    ensures Aggregate(lines).total == |ValidEntries(lines)|
    ensures Aggregate(lines).errors == |Errors(ValidEntries(lines))|
  {
    if lines != [] {
      var init := lines[..|lines| - 1];
      AggregateCounts(init);
      StepByEntry(Aggregate(init), lines[|lines| - 1]);
      LastLine(lines);
    }
  }

  /** The Counter's keys are the endpoints of the error entries, in the order
      of each endpoint's first error. */
  lemma {:induction false} AggregateOrder(lines: seq<Line>)
    ensures Aggregate(lines).tally.order == FirstSeen(Errors(ValidEntries(lines)))
  {
    if lines != [] {
      var init := lines[..|lines| - 1];
      var es := EntriesOf(lines[|lines| - 1]);
      AggregateOrder(init);
      StepByEntry(Aggregate(init), lines[|lines| - 1]);
      LastLine(lines);
      if es != [] && IsError(es[0]) {
        FirstSeenSnoc(Errors(ValidEntries(init)), es[0]);
      }
    }
  }

  /** Each endpoint's count in the Counter is its number of error entries
      (0 for an endpoint that is not a key). */
  lemma {:induction false} AggregateTally(lines: seq<Line>)
    ensures forall endpoint :: Get(Aggregate(lines).tally, endpoint) == Occurrences(Errors(ValidEntries(lines)), endpoint)
  {
    if lines != [] {
      var init := lines[..|lines| - 1];
      var es := EntriesOf(lines[|lines| - 1]);
      AggregateTally(init);
      StepByEntry(Aggregate(init), lines[|lines| - 1]);
      LastLine(lines);
      if es != [] && IsError(es[0]) {
        forall endpoint ensures Get(Aggregate(lines).tally, endpoint) == Occurrences(Errors(ValidEntries(lines)), endpoint) {
          OccurrencesSnoc(Errors(ValidEntries(init)), es[0], endpoint);
        }
      }
    }
  }

  /** What the loop computes: `total` counts the entries that decode and
      validate, `errors` counts those of them with a status code of 400 or
      more, and the Counter holds, in the order of each endpoint's first error,
      exactly the endpoints with errors and how many each had. */
  lemma AggregateMeaning(lines: seq<Line>)
    ensures var s := Aggregate(lines);
            var errs := Errors(ValidEntries(lines));
            && s.total == |ValidEntries(lines)|
            && s.errors == |errs|
            && s.tally.order == FirstSeen(errs)
            && forall endpoint :: Get(s.tally, endpoint) == Occurrences(errs, endpoint)
  {
    AggregateCounts(lines);
    AggregateOrder(lines);
    AggregateTally(lines);
  }

  /** The Counter's counts add up to `errors`. */
  lemma {:induction false} TallySumsToErrors(lines: seq<Line>)
    ensures Total(Aggregate(lines).tally) == Aggregate(lines).errors
  {
    if lines != [] {
      var init := lines[..|lines| - 1];
      TallySumsToErrors(init);
      var s := Aggregate(init);
      match lines[|lines| - 1]
      case Undecodable =>
      case Decoded(v) =>
        if ValidateLogEntry(v) && IsError(EntryOf(v)) {
          BumpTotal(s.tally, EntryOf(v).endpoint);
        }
    }
  }

  /** A line that does not decode or validate changes nothing, wherever it
      stands in the file. */
  lemma {:induction false} SkippedLineChangesNothing(before: seq<Line>, line: Line, after: seq<Line>)
    requires EntriesOf(line) == []
    ensures Aggregate(before + [line] + after) == Aggregate(before + after)
  {
    if after == [] {
      SkippedLastLine(before, line);
      assert before + [line] + after == before + [line];
      assert before + after == before;
    } else {
      var init := after[..|after| - 1];
      var last := after[|after| - 1];
      assert after == init + [last];
      calc {
        Aggregate(before + [line] + after);
        { assert before + [line] + after == before + [line] + init + [last]; }
        Aggregate(before + [line] + init + [last]);
        { SkippedLineChangesNothing(before, line, init);
          SameThenSame(before + [line] + init, before + init, last); }
        Aggregate(before + init + [last]);
        { assert before + init + [last] == before + after; }
        Aggregate(before + after);
      }
    }
  }

  /** A line that does not decode or validate, at the end of a file, changes
      nothing. */
  lemma SkippedLastLine(before: seq<Line>, line: Line)
    requires EntriesOf(line) == []
    ensures Aggregate(before + [line]) == Aggregate(before)
  {
    AggregateSnoc(before, line);
    StepByEntry(Aggregate(before), line);
  }

  /** Two files with the same running values still agree after one more line. */
  lemma SameThenSame(a: seq<Line>, b: seq<Line>, line: Line)
    requires Aggregate(a) == Aggregate(b)
    ensures Aggregate(a + [line]) == Aggregate(b + [line])
  {
    AggregateSnoc(a, line);
    AggregateSnoc(b, line);
  }

  /** Processing more lines never takes anything away: `total` and `errors`
      only grow, no count goes down, and keys are only appended. */
  lemma {:induction false} AggregateGrows(lines: seq<Line>, k: nat)
    requires k <= |lines|
    ensures var early := Aggregate(lines[..k]);
            var late := Aggregate(lines);
            && early.total <= late.total
            && early.errors <= late.errors
            && early.tally.order <= late.tally.order
            && forall endpoint :: Get(early.tally, endpoint) <= Get(late.tally, endpoint)
  {
    if k < |lines| {
      var init := lines[..|lines| - 1];
      assert init[..k] == lines[..k];
      AggregateGrows(init, k);
    } else {
      assert lines[..k] == lines;
    }
  }

  // ---------------------------------------------------------------------
  // The result of analyze_logs

  /** `(total, errors, error_counts.most_common(3))`. */
  datatype Analysis = Analysis(total: nat, errors: nat, topErrors: seq<Pair>)

  /** What analyze_logs returns for the lines of a readable file: the number
      of valid entries, the number of their error entries, and at most three
      endpoints with errors, by error count, largest first. */
  function Analyze(lines: seq<Line>): (r: Analysis)
    ensures r.total == |ValidEntries(lines)|
    ensures r.errors == |Errors(ValidEntries(lines))|
    ensures r.errors <= r.total
    ensures |r.topErrors| <= TopCount
    ensures forall k :: 0 <= k < |r.topErrors| ==> r.topErrors[k].count >= 1
    ensures forall a, b :: 0 <= a < b < |r.topErrors| ==> r.topErrors[a].count >= r.topErrors[b].count
  {
    var s := Aggregate(lines);
    AggregateCounts(lines);
    ListedCountsPositive(s.tally);
    Analysis(s.total, s.errors, MostCommon(Items(s.tally), TopCount))
  }

  /** Every endpoint the ranked list names has at least one error. */
  lemma ListedCountsPositive(t: Tally)
    requires WellFormed(t) && Positive(t)
    ensures var top := MostCommon(Items(t), TopCount);
            forall k :: 0 <= k < |top| ==> top[k].count >= 1
  {
    var top := MostCommon(Items(t), TopCount);
    assert forall k :: 0 <= k < |top| ==> top[k] in Items(t);
  }

  /** The ranked list has min(3, number of endpoints with an error) distinct
      endpoints, each with its number of errors. */
  lemma TopErrorsCounts(lines: seq<Line>)
    ensures var top := Analyze(lines).topErrors;
            var errs := Errors(ValidEntries(lines));
            var seen := FirstSeen(errs);
            && |top| == (if TopCount < |seen| then TopCount else |seen|)
            && (forall k :: 0 <= k < |top| ==> top[k].endpoint in seen && top[k].count == Occurrences(errs, top[k].endpoint))
            && (forall a, b :: 0 <= a < b < |top| ==> top[a].endpoint != top[b].endpoint)
  {
    var s := Aggregate(lines);
    var errs := Errors(ValidEntries(lines));
    AggregateMeaning(lines);
    MostCommonOfCounter(s.tally, TopCount);
    var top := MostCommon(Items(s.tally), TopCount);
    forall k | 0 <= k < |top| ensures top[k].count == Occurrences(errs, top[k].endpoint) {
      assert Get(s.tally, top[k].endpoint) == Occurrences(errs, top[k].endpoint);
    }
  }

  /** The ranked list is in non-increasing order of errors, endpoints with
      equal counts in the order of their first error. */
  lemma TopErrorsOrder(lines: seq<Line>)
    ensures var top := Analyze(lines).topErrors;
            var seen := FirstSeen(Errors(ValidEntries(lines)));
            && (forall k :: 0 <= k < |top| ==> top[k].endpoint in seen)
            && forall a, b :: 0 <= a < b < |top| ==>
              && top[a].count >= top[b].count
              && (top[a].count == top[b].count ==> IndexOf(seen, top[a].endpoint) < IndexOf(seen, top[b].endpoint))
  {
    var s := Aggregate(lines);
    AggregateOrder(lines);
    MostCommonOfCounter(s.tally, TopCount);
    MostCommonDescendingStable(s.tally, TopCount);
  }

  /** Every endpoint with errors that the ranked list leaves out had no more
      errors than any listed one, and if as many, its first error came later. */
  lemma TopErrorsLeftOut(lines: seq<Line>)
    ensures var top := Analyze(lines).topErrors;
            var errs := Errors(ValidEntries(lines));
            var seen := FirstSeen(errs);
            && (forall k :: 0 <= k < |top| ==> top[k].endpoint in seen)
            && forall endpoint, k :: endpoint in seen && endpoint !in Endpoints(top) && 0 <= k < |top| ==>
              && Occurrences(errs, endpoint) <= top[k].count
              && (Occurrences(errs, endpoint) == top[k].count ==> IndexOf(seen, top[k].endpoint) < IndexOf(seen, endpoint))
  {
    var s := Aggregate(lines);
    var errs := Errors(ValidEntries(lines));
    AggregateMeaning(lines);
    var top := MostCommon(Items(s.tally), TopCount);
    forall endpoint, k | endpoint in FirstSeen(errs) && endpoint !in Endpoints(top) && 0 <= k < |top|
      ensures Occurrences(errs, endpoint) <= top[k].count
      ensures Occurrences(errs, endpoint) == top[k].count ==> IndexOf(FirstSeen(errs), top[k].endpoint) < IndexOf(FirstSeen(errs), endpoint)
    {
      MostCommonLeftOut(s.tally, TopCount, endpoint);
      assert Get(s.tally, endpoint) == Occurrences(errs, endpoint);
    }
  }

  /** The errors of the listed endpoints add up to at most `errors`, and to
      exactly `errors` when at most three endpoints had an error. */
  lemma TopErrorsSum(lines: seq<Line>)
    ensures CountSum(Analyze(lines).topErrors) <= Analyze(lines).errors
    ensures |FirstSeen(Errors(ValidEntries(lines)))| <= TopCount ==> CountSum(Analyze(lines).topErrors) == Analyze(lines).errors
  {
    var s := Aggregate(lines);
    TallySumsToErrors(lines);
    AggregateOrder(lines);
    MostCommonSum(s.tally, TopCount);
  }

  /** A file with no line that decodes and validates (an empty file among
      them) gives `(0, 0, [])`. */
  lemma NothingValidGivesZero(lines: seq<Line>)
    requires forall i :: 0 <= i < |lines| ==> EntriesOf(lines[i]) == []
    ensures Analyze(lines) == Analysis(0, 0, [])
  {
    ValidEntriesOfSkippedLines(lines);
    AggregateMeaning(lines);
    var s := Aggregate(lines);
    assert s.tally.order == [];
    assert s.tally.counts == map[];
    assert BestBelow(Items(s.tally), {}, 0) == None;
  }

  lemma {:induction false} ValidEntriesOfSkippedLines(lines: seq<Line>)
    requires forall i :: 0 <= i < |lines| ==> EntriesOf(lines[i]) == []
    ensures ValidEntries(lines) == []
  {
    if lines != [] {
      ValidEntriesOfSkippedLines(lines[..|lines| - 1]);
    }
  }

  // ---------------------------------------------------------------------
  // The routine itself

  /** The log file as analyze_logs finds it: missing, not a regular file,
      failing while it is read, or readable with these lines. */
  datatype LogFile = Missing | NotAFile | ReadFailure | Readable(lines: seq<Line>)

  /** The routine returns its analysis, or the process exits with status 1. */
  datatype Outcome = Completed(analysis: Analysis) | Exited(status: int)

  /** analyze_logs: every file error ends the process with status 1 before any
      result is produced; otherwise the loop goes over the lines once, in
      order, and the result is Analyze of those lines. */
  method AnalyzeLogs(file: LogFile) returns (outcome: Outcome)
    ensures file.Readable? ==> outcome == Completed(Analyze(file.lines))
    ensures !file.Readable? ==> outcome == Exited(1)
  {
    if !file.Readable? {
      return Exited(1);
    }
    var lines := file.lines;
    var total, errors := 0, 0;
    var errorCounts := new ErrorCounter();
    for i := 0 to |lines|
      invariant errorCounts.Valid()
      invariant Summary(total, errors, errorCounts.Value()) == Aggregate(lines[..i])
    {
      ghost var before := Summary(total, errors, errorCounts.Value());
      AggregateSnoc(lines[..i], lines[i]);
      assert lines[..i] + [lines[i]] == lines[..i + 1];
      match lines[i]
      case Undecodable =>
      case Decoded(entry) =>
        if ValidateLogEntry(entry) {
          StepAccepted(before, entry);
          total := total + 1;
          if IntValue(entry.fields["status_code"]) >= ErrorThreshold {
            errors := errors + 1;
            errorCounts.Increment(entry.fields["endpoint"].str);
          }
        }
    }
    assert lines[..|lines|] == lines;
    return Completed(Analysis(total, errors, MostCommon(Items(errorCounts.Value()), TopCount)));
  }
}
