/**
 * The error tally: a collections.Counter from endpoint to error count. A
 * Counter is a dict, so it remembers the order in which keys were first
 * inserted; `counter[key] += 1` reads a missing key as 0 and inserts it at
 * the end.
 */
module ErrorTally {

  /** One (endpoint, count) item of the Counter. */
  datatype Pair = Pair(endpoint: string, count: nat)

  /** A Counter's contents: its keys in insertion order and their counts. */
  datatype Tally = Tally(order: seq<string>, counts: map<string, nat>)

  const Empty := Tally([], map[])

  /** The dict invariant: every key appears once in the insertion order, and
      the order holds exactly the keys. */
  ghost predicate WellFormed(t: Tally) {
    && (forall i, j :: 0 <= i < j < |t.order| ==> t.order[i] != t.order[j])
    && (forall e :: e in t.order <==> e in t.counts)
  }

  /** `counter[e]`: a missing key reads as 0. */
  function Get(t: Tally, e: string): (n: nat) {
    if e in t.counts then t.counts[e] else 0
  }

  /** Every key holds a positive count: a key is only ever inserted by an
      increment. */
  ghost predicate Positive(t: Tally) {
    forall e :: e in t.counts ==> t.counts[e] >= 1
  }

  /** `counter[e] += 1`: only `e`'s count changes, by one, and a new key goes
      to the end of the insertion order. */
  function Bump(t: Tally, e: string): (r: Tally)
    requires WellFormed(t)
    ensures WellFormed(r)
    ensures Positive(t) ==> Positive(r)
    ensures Get(r, e) == Get(t, e) + 1
    ensures forall x :: x != e ==> Get(r, x) == Get(t, x)
    ensures r.order == if e in t.order then t.order else t.order + [e]
  {
    if e in t.counts then Tally(t.order, t.counts[e := t.counts[e] + 1])
    else Tally(t.order + [e], t.counts[e := 1])
  }

  /** `counter.items()`: the pairs in insertion order. */
  function Items(t: Tally): (items: seq<Pair>)
    requires WellFormed(t)
    ensures |items| == |t.order|
    ensures forall i :: 0 <= i < |items| ==> items[i] == Pair(t.order[i], t.counts[t.order[i]])
  {
    seq(|t.order|, i requires 0 <= i < |t.order| => Pair(t.order[i], t.counts[t.order[i]]))
  }

  /** The sum of the counts of the keys in `keys`. */
  function SumOver(keys: seq<string>, counts: map<string, nat>): (sum: nat)
    requires forall e :: e in keys ==> e in counts
  {
    if keys == [] then 0
    else SumOver(keys[..|keys| - 1], counts) + counts[keys[|keys| - 1]]
  }

  /** The sum of all counts of the Counter, `sum(counter.values())`. */
  function Total(t: Tally): (sum: nat)
    requires WellFormed(t)
  {
    SumOver(t.order, t.counts)
  }

  /** The sum of the counts of some pairs. */
  function CountSum(pairs: seq<Pair>): (sum: nat) {
    if pairs == [] then 0
    else CountSum(pairs[..|pairs| - 1]) + pairs[|pairs| - 1].count
  }

  /** Changing the count of a key outside `keys` leaves their sum alone. */
  lemma {:induction false} SumOverOtherKey(keys: seq<string>, counts: map<string, nat>, e: string, n: nat)
    requires forall x :: x in keys ==> x in counts
    requires e !in keys
    ensures SumOver(keys, counts[e := n]) == SumOver(keys, counts)
  {
    if keys != [] {
      var init := keys[..|keys| - 1];
      assert forall x :: x in init ==> x in keys;
      SumOverOtherKey(init, counts, e, n);
    }
  }

  /** Adding one to the count of a key listed exactly once in `keys` adds one to
      their sum. */
  lemma {:induction false} SumOverIncrement(keys: seq<string>, counts: map<string, nat>, e: string)
    requires forall x :: x in keys ==> x in counts
    requires forall i, j :: 0 <= i < j < |keys| ==> keys[i] != keys[j]
    requires e in keys
    ensures SumOver(keys, counts[e := counts[e] + 1]) == SumOver(keys, counts) + 1
  {
    var init := keys[..|keys| - 1];
    assert forall x :: x in init ==> x in keys;
    if keys[|keys| - 1] == e {
      assert e !in init;
      SumOverOtherKey(init, counts, e, counts[e] + 1);
    } else {
      assert e in init by {
        var i :| 0 <= i < |keys| && keys[i] == e;
        assert i < |keys| - 1 && init[i] == e;
      }
      SumOverIncrement(init, counts, e);
    }
  }

  /** An increment adds exactly one to the sum of all counts. */
  lemma BumpTotal(t: Tally, e: string)
    requires WellFormed(t)
    ensures Total(Bump(t, e)) == Total(t) + 1
  {
    if e in t.counts {
      SumOverIncrement(t.order, t.counts, e);
    } else {
      NewKeyTotal(t, e);
    }
  }

  /** A new key with count 1 adds one to the sum of all counts. */
  lemma NewKeyTotal(t: Tally, e: string)
    requires WellFormed(t) && e !in t.counts
    ensures SumOver(t.order + [e], t.counts[e := 1]) == Total(t) + 1
  {
    assert (t.order + [e])[..|t.order|] == t.order;
    SumOverOtherKey(t.order, t.counts, e, 1);
  }

  /** The error Counter of analyze_logs, updated in place. Its abstract value is
      a Tally; every increment is a Bump of that value. */
  class ErrorCounter {
    var order: seq<string>
    var counts: map<string, nat>

    ghost predicate Valid()
      reads this
    {
      WellFormed(Value())
    }

    function Value(): (t: Tally)
      reads this
    {
      Tally(order, counts)
    }

    /** `Counter()`: no keys. */
    constructor ()
      ensures Valid() && Value() == Empty
    {
      order := [];
      counts := map[];
    }

    /** `counter[endpoint] += 1`. */
    method Increment(endpoint: string)
      requires Valid()
      modifies this
      ensures Valid() && Value() == Bump(old(Value()), endpoint)
    {
      if endpoint in counts {
        counts := counts[endpoint := counts[endpoint] + 1];
      } else {
        order := order + [endpoint];
        counts := counts[endpoint := 1];
      }
    }
  }
}
