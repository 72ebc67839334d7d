/**
 * Worked examples of analyze_logs on small files, each following from the
 * model's definitions.
 */
module Scenarios {
  import opened JsonValue
  import opened Validation
  import opened ErrorTally
  import opened TopN
  import opened LogAnalyzer

  /** A well-formed request line: `{"timestamp": …, "endpoint": …, "status_code": …}`. */
  function Request(timestamp: string, endpoint: string, status: int): (line: Line) {
    Decoded(JObject(map["timestamp" := JString(timestamp), "endpoint" := JString(endpoint), "status_code" := JInt(status)]))
  }

  lemma RequestEntry(timestamp: string, endpoint: string, status: int)
    ensures EntriesOf(Request(timestamp, endpoint, status)) == [Entry(endpoint, status)]
  {
  }

  /** A request line adds one request, and one error for its endpoint exactly
      when its status code is 400 or more: 399 is not an error, 400 is. */
  lemma RequestStep(lines: seq<Line>, timestamp: string, endpoint: string, status: int)
    ensures var s := Aggregate(lines);
            Aggregate(lines + [Request(timestamp, endpoint, status)])
              == if status >= 400 then Summary(s.total + 1, s.errors + 1, Bump(s.tally, endpoint))
                 else Summary(s.total + 1, s.errors, s.tally)
  {
    RequestEntry(timestamp, endpoint, status);
    AggregateSnoc(lines, Request(timestamp, endpoint, status));
    StepByEntry(Aggregate(lines), Request(timestamp, endpoint, status));
  }

  /** An undecodable line is skipped. */
  lemma UndecodableStep(lines: seq<Line>)
    ensures Aggregate(lines + [Undecodable]) == Aggregate(lines)
  {
    AggregateSnoc(lines, Undecodable);
  }

  /** The running values after a success and then an error on /a. */
  lemma SuccessThenErrorCounts()
    ensures Aggregate([Request("t1", "/a", 200), Request("t2", "/a", 500)]) == Summary(2, 1, Tally(["/a"], map["/a" := 1]))
  {
    var r1 := Request("t1", "/a", 200);
    var r2 := Request("t2", "/a", 500);
    RequestStep([], "t1", "/a", 200);
    assert [] + [r1] == [r1];
    RequestStep([r1], "t2", "/a", 500);
    assert [r1] + [r2] == [r1, r2];
  }

  lemma SingleKeyTop()
    ensures WellFormed(Tally(["/a"], map["/a" := 1]))
    ensures MostCommon(Items(Tally(["/a"], map["/a" := 1])), 3) == [Pair("/a", 1)]
  {
    assert Items(Tally(["/a"], map["/a" := 1])) == [Pair("/a", 1)];
    assert BestBelow([Pair("/a", 1)], {}, 1) == Some(0);
    assert TopPositions([Pair("/a", 1)], {}, 3) == [0];
  }

  /** A success then an error on /a gives (2, 1, [("/a", 1)]). */
  lemma SuccessThenError()
    ensures Analyze([Request("t1", "/a", 200), Request("t2", "/a", 500)]) == Analysis(2, 1, [Pair("/a", 1)])
  {
    SuccessThenErrorCounts();
    SingleKeyTop();
  }

  /** A line of invalid JSON before an error entry: one request, one error. */
  lemma InvalidJsonThenError()
    ensures var a := Analyze([Undecodable, Request("t", "/x", 503)]);
            a.total == 1 && a.errors == 1
  {
    UndecodableStep([]);
    assert [] + [Undecodable] == [Undecodable];
    RequestStep([Undecodable], "t", "/x", 503);
    assert [Undecodable] + [Request("t", "/x", 503)] == [Undecodable, Request("t", "/x", 503)];
  }

  /** One error line (status 500) per endpoint, in the given order. */
  function ErrorLines(endpoints: seq<string>): (lines: seq<Line>) {
    seq(|endpoints|, k requires 0 <= k < |endpoints| => Request("t", endpoints[k], 500))
  }

  lemma ErrorLinesSnoc(endpoints: seq<string>, last: string)
    ensures ErrorLines(endpoints + [last]) == ErrorLines(endpoints) + [Request("t", last, 500)]
  {
    var lines := ErrorLines(endpoints);
    assert forall k :: 0 <= k < |endpoints| ==> lines[k] == Request("t", endpoints[k], 500);
  }

  lemma OnesSnoc(endpoints: seq<string>, last: string)
    ensures (map e | e in endpoints :: 1)[last := 1] == map e | e in endpoints + [last] :: 1
  {
    var after := map e | e in endpoints + [last] :: 1;
    assert forall e :: e in endpoints + [last] <==> e in endpoints || e == last;
    assert (map e | e in endpoints :: 1)[last := 1].Keys == after.Keys;
  }

  /** One error on each of some distinct endpoints: every line is a request
      and an error, and the Counter holds each endpoint once, with count 1, in
      file order. */
  lemma {:induction false} OneErrorEach(endpoints: seq<string>)
    requires forall i, j :: 0 <= i < j < |endpoints| ==> endpoints[i] != endpoints[j]
    ensures Aggregate(ErrorLines(endpoints))
              == Summary(|endpoints|, |endpoints|, Tally(endpoints, map e | e in endpoints :: 1))
  {
    if endpoints != [] {
      var init := endpoints[..|endpoints| - 1];
      var last := endpoints[|endpoints| - 1];
      assert init + [last] == endpoints;
      OneErrorEach(init);
      ErrorLinesSnoc(init, last);
      RequestStep(ErrorLines(init), "t", last, 500);
      OnesSnoc(init, last);
      assert last !in init;
    }
  }

  const Five := ["/a", "/b", "/c", "/d", "/e"]

  const Tied := [Pair("/a", 1), Pair("/b", 1), Pair("/c", 1), Pair("/d", 1), Pair("/e", 1)]

  lemma PickFirst()
    ensures BestBelow(Tied, {}, 5) == Some(0)
  {
    assert BestBelow(Tied, {}, 1) == Some(0);
    assert BestBelow(Tied, {}, 3) == Some(0);
  }

  lemma PickSecond()
    ensures BestBelow(Tied, {0}, 5) == Some(1)
  {
    assert BestBelow(Tied, {0}, 2) == Some(1);
    assert BestBelow(Tied, {0}, 4) == Some(1);
  }

  lemma PickThird()
    ensures BestBelow(Tied, {0, 1}, 5) == Some(2)
  {
    assert BestBelow(Tied, {0, 1}, 1) == None;
    assert BestBelow(Tied, {0, 1}, 3) == Some(2);
  }

  lemma TakeThird()
    ensures TopPositions(Tied, {0, 1}, 1) == [2]
  {
    PickThird();
    assert {0, 1} + {2} == {0, 1, 2};
  }

  lemma TakeSecondAndThird()
    ensures TopPositions(Tied, {0}, 2) == [1, 2]
  {
    PickSecond();
    TakeThird();
    assert {0} + {1} == {0, 1};
  }

  lemma TakeFirstThree()
    ensures TopPositions(Tied, {}, 3) == [0, 1, 2]
  {
    PickFirst();
    TakeSecondAndThird();
    assert {} + {0} == {0};
  }

  /** Equal counts keep insertion order: the first three endpoints win. */
  lemma TiesKeepInsertionOrder()
    ensures MostCommon(Tied, 3) == [Pair("/a", 1), Pair("/b", 1), Pair("/c", 1)]
  {
    TakeFirstThree();
    var r := MostCommon(Tied, 3);
    assert r[0] == Tied[0] && r[1] == Tied[1] && r[2] == Tied[2];
  }

  lemma FiveItems()
    ensures WellFormed(Tally(Five, map e | e in Five :: 1))
    ensures Items(Tally(Five, map e | e in Five :: 1)) == Tied
  {
    var t := Tally(Five, map e | e in Five :: 1);
    assert forall i, j :: 0 <= i < j < |Five| ==> Five[i] != Five[j];
    var items := Items(t);
    assert |items| == 5;
    assert items[0] == Tied[0] && items[1] == Tied[1] && items[2] == Tied[2];
    assert items[3] == Tied[3] && items[4] == Tied[4];
  }

  /** Five endpoints with one error each give the first three, in file order. */
  lemma FiveTiedEndpoints()
    ensures Analyze(ErrorLines(Five)) == Analysis(5, 5, [Pair("/a", 1), Pair("/b", 1), Pair("/c", 1)])
  {
    assert forall i, j :: 0 <= i < j < |Five| ==> Five[i] != Five[j];
    OneErrorEach(Five);
    FiveItems();
    TiesKeepInsertionOrder();
  }
}
