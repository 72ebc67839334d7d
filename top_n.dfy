/**
 * `Counter.most_common(n)`: the n items with the largest counts, largest
 * first. CPython computes it with heapq.nlargest, which gives the same list
 * as a stable sort by count, descending, cut after n items; items with equal
 * counts therefore keep the Counter's insertion order. Here the list is built
 * by repeatedly taking the earliest item of largest count among those not yet
 * taken, and proved to be exactly that prefix of the stable order.
 */
module TopN {
  import opened ErrorTally

  datatype Option<T> = None | Some(value: T)

  /** The stable descending order on positions of `items`: position i comes
      before position j when its count is larger, or equal and i is earlier. */
  predicate RanksBefore(items: seq<Pair>, i: nat, j: nat) {
    && i < |items| && j < |items|
    && (items[i].count > items[j].count || (items[i].count == items[j].count && i < j))
  }

  /** The positions of `items` outside `taken`. */
  function Available(items: seq<Pair>, taken: set<nat>): (s: set<nat>) {
    set i: nat | i < |items| && i !in taken
  }

  /** The first position below k, outside `taken`, whose count is the largest
      among those positions; None when there is none. */
  function BestBelow(items: seq<Pair>, taken: set<nat>, k: nat): (b: Option<nat>)
    requires k <= |items|
    ensures b.None? <==> forall j: nat :: j < k ==> j in taken
    ensures b.Some? ==> b.value < k && b.value !in taken
    ensures b.Some? ==> forall j: nat :: j < k && j !in taken && j != b.value ==> RanksBefore(items, b.value, j)
    decreases k
  {
    if k == 0 then None
    else
      var b := BestBelow(items, taken, k - 1);
      if k - 1 in taken then b
      else if b.None? || items[k - 1].count > items[b.value].count then Some(k - 1)
      else b
  }

  /** The positions of the (at most) n best items outside `taken`, best first. */
  function TopPositions(items: seq<Pair>, taken: set<nat>, n: nat): (r: seq<nat>)
    ensures |r| <= n
    ensures forall k :: 0 <= k < |r| ==> r[k] < |items| && r[k] !in taken
    ensures forall a, b :: 0 <= a < b < |r| ==> r[a] != r[b]
    decreases n
  {
    if n == 0 then []
    else
      match BestBelow(items, taken, |items|)
      case None => []
      case Some(i) => [i] + TopPositions(items, taken + {i}, n - 1)
  }

  /** `most_common(n)` over the items of a Counter, in insertion order: the
      first min(n, |items|) of them by count, largest first, and none left
      out has a larger count than one listed. */
  function MostCommon(items: seq<Pair>, n: nat): (r: seq<Pair>)
    ensures |r| == if n < |items| then n else |items|
    ensures forall k :: 0 <= k < |r| ==> r[k] in items
    ensures forall a, b :: 0 <= a < b < |r| ==> r[a].count >= r[b].count
    ensures forall j, k :: 0 <= j < |items| && items[j] !in r && 0 <= k < |r| ==> items[j].count <= r[k].count
  {
    var top := TopPositions(items, {}, n);
    TopPositionsLength(items, {}, n);
    AllAvailable(items);
    TopPositionsSorted(items, {}, n);
    TopPositionsDominate(items, {}, n);
    var r := seq(|top|, k requires 0 <= k < |top| => items[top[k]]);
    ItemsAtPositions(items, top, r);
    r
  }

  /** The items at positions listed in the stable descending order, with every
      position left out ranking after them, have non-increasing counts, and no
      item left out has a larger count than one listed. */
  lemma ItemsAtPositions(items: seq<Pair>, top: seq<nat>, r: seq<Pair>)
    requires |r| == |top|
    requires forall k :: 0 <= k < |top| ==> top[k] < |items| && r[k] == items[top[k]]
    requires forall a, b :: 0 <= a < b < |top| ==> RanksBefore(items, top[a], top[b])
    requires forall k, j: nat :: 0 <= k < |top| && j < |items| && j !in top ==> RanksBefore(items, top[k], j)
    ensures forall k :: 0 <= k < |r| ==> r[k] in items
    ensures forall a, b :: 0 <= a < b < |r| ==> r[a].count >= r[b].count
    ensures forall j, k :: 0 <= j < |items| && items[j] !in r && 0 <= k < |r| ==> items[j].count <= r[k].count
  {
    forall j, k | 0 <= j < |items| && items[j] !in r && 0 <= k < |r|
      ensures items[j].count <= r[k].count
    {
      assert forall m :: 0 <= m < |top| ==> top[m] != j by {
        assert forall m :: 0 <= m < |top| ==> r[m] in r;
      }
      assert j !in top;
      assert RanksBefore(items, top[k], j);
    }
  }

  /** Nothing taken, every position of `items` is available. */
  lemma {:induction false} AllAvailable(items: seq<Pair>)
    ensures |Available(items, {})| == |items|
  {
    if items != [] {
      var init := items[..|items| - 1];
      AllAvailable(init);
      assert Available(items, {}) == Available(init, {}) + {|items| - 1};
    }
  }

  /** Taking the best position leaves one position fewer available. */
  lemma TakeBest(items: seq<Pair>, taken: set<nat>, i: nat)
    requires BestBelow(items, taken, |items|) == Some(i)
    ensures i in Available(items, taken)
    ensures |Available(items, taken + {i})| == |Available(items, taken)| - 1
  {
    assert Available(items, taken + {i}) == Available(items, taken) - {i};
  }

  /** The selection stops after n items or when nothing is left to take. */
  lemma {:induction false} TopPositionsLength(items: seq<Pair>, taken: set<nat>, n: nat)
    ensures |TopPositions(items, taken, n)| == if n < |Available(items, taken)| then n else |Available(items, taken)|
    decreases n
  {
    if n > 0 {
      match BestBelow(items, taken, |items|)
      case None =>
        assert Available(items, taken) == {};
      case Some(i) =>
        TakeBest(items, taken, i);
        TopPositionsLength(items, taken + {i}, n - 1);
    }
  }

  /** The selected positions come out in the stable descending order. */
  lemma {:induction false} TopPositionsSorted(items: seq<Pair>, taken: set<nat>, n: nat)
    ensures var r := TopPositions(items, taken, n);
            forall a, b :: 0 <= a < b < |r| ==> RanksBefore(items, r[a], r[b])
    decreases n
  {
    var r := TopPositions(items, taken, n);
    if n > 0 {
      match BestBelow(items, taken, |items|)
      case None =>
      case Some(best) =>
        TopPositionsSorted(items, taken + {best}, n - 1);
        assert r == [best] + TopPositions(items, taken + {best}, n - 1);
        BestThenSorted(items, taken, best, TopPositions(items, taken + {best}, n - 1));
    }
  }

  /** The best untaken position, followed by sorted positions that are
      neither taken nor the best, is sorted. */
  lemma BestThenSorted(items: seq<Pair>, taken: set<nat>, best: nat, rest: seq<nat>)
    requires BestBelow(items, taken, |items|) == Some(best)
    requires forall k :: 0 <= k < |rest| ==> rest[k] < |items| && rest[k] !in taken + {best}
    requires forall a, b :: 0 <= a < b < |rest| ==> RanksBefore(items, rest[a], rest[b])
    ensures forall a, b :: 0 <= a < b < |[best] + rest| ==> RanksBefore(items, ([best] + rest)[a], ([best] + rest)[b])
  {
    var r := [best] + rest;
    forall a, b | 0 <= a < b < |r| ensures RanksBefore(items, r[a], r[b]) {
      var j := rest[b - 1];
      if a == 0 {
        assert j < |items| && j !in taken && j != best;
      } else {
        assert RanksBefore(items, rest[a - 1], j);
      }
    }
  }

  /** Each selected position ranks before every position outside `taken` that
      is left unselected. */
  lemma {:induction false} TopPositionsDominate(items: seq<Pair>, taken: set<nat>, n: nat)
    ensures var r := TopPositions(items, taken, n);
            forall k, j: nat :: 0 <= k < |r| && j < |items| && j !in taken && j !in r ==> RanksBefore(items, r[k], j)
    decreases n
  {
    var r := TopPositions(items, taken, n);
    if n > 0 {
      match BestBelow(items, taken, |items|)
      case None =>
      case Some(best) =>
        var rest := TopPositions(items, taken + {best}, n - 1);
        TopPositionsDominate(items, taken + {best}, n - 1);
        assert r == [best] + rest;
        forall k, j: nat | 0 <= k < |r| && j < |items| && j !in taken && j !in r
          ensures RanksBefore(items, r[k], j)
        {
          assert j != best && j !in rest;
          if k > 0 {
            assert RanksBefore(items, TopPositions(items, taken + {best}, n - 1)[k - 1], j);
          }
        }
    }
  }

  /** `most_common(n)` is the first min(n, |items|) items of the stable
      descending order: its items come from the Counter at distinct positions,
      each ranks before every later one, and every item left out ranks after
      every item listed. */
  lemma MostCommonIsStablePrefix(items: seq<Pair>, n: nat)
    ensures var top := TopPositions(items, {}, n);
            && |MostCommon(items, n)| == |top| == (if n < |items| then n else |items|)
            && (forall k :: 0 <= k < |top| ==> MostCommon(items, n)[k] == items[top[k]])
            && (forall a, b :: 0 <= a < b < |top| ==> RanksBefore(items, top[a], top[b]))
            && (forall k, j: nat :: 0 <= k < |top| && j < |items| && j !in top ==> RanksBefore(items, top[k], j))
  {
    TopPositionsLength(items, {}, n);
    AllAvailable(items);
    TopPositionsSorted(items, {}, n);
    TopPositionsDominate(items, {}, n);
  }

  /** Given room for every available position, the selection takes all of
      them. */
  lemma {:induction false} TopPositionsExhaust(items: seq<Pair>, taken: set<nat>, n: nat)
    requires n >= |Available(items, taken)|
    ensures forall j :: j in Available(items, taken) ==> j in TopPositions(items, taken, n)
    decreases n
  {
    var b := BestBelow(items, taken, |items|);
    if n == 0 || b.None? {
      NothingAvailable(items, taken, n);
    } else {
      TakeBest(items, taken, b.value);
      TopPositionsExhaust(items, taken + {b.value}, n - 1);
      TakenFirst(items, taken, n, b.value);
    }
  }

  /** With no room left or no position left to take, nothing is available. */
  lemma NothingAvailable(items: seq<Pair>, taken: set<nat>, n: nat)
    requires n >= |Available(items, taken)|
    requires n == 0 || BestBelow(items, taken, |items|).None?
    ensures Available(items, taken) == {}
  {
    if n != 0 {
      assert forall j :: j in Available(items, taken) ==> j < |items| && j !in taken;
    }
  }

  /** The best position is listed first, the rest come from what is left. */
  lemma TakenFirst(items: seq<Pair>, taken: set<nat>, n: nat, i: nat)
    requires n > 0 && BestBelow(items, taken, |items|) == Some(i)
    requires forall j :: j in Available(items, taken + {i}) ==> j in TopPositions(items, taken + {i}, n - 1)
    ensures forall j :: j in Available(items, taken) ==> j in TopPositions(items, taken, n)
  {
    assert TopPositions(items, taken, n) == [i] + TopPositions(items, taken + {i}, n - 1);
    assert Available(items, taken) == Available(items, taken + {i}) + {i};
  }

  /** The sum of the counts at the positions below k that belong to `s`. */
  function SumIn(items: seq<Pair>, s: set<nat>, k: nat): (sum: nat)
    requires k <= |items|
  {
    if k == 0 then 0
    else SumIn(items, s, k - 1) + (if k - 1 in s then items[k - 1].count else 0)
  }

  /** No positions sum to 0. */
  lemma {:induction false} SumInNone(items: seq<Pair>, k: nat)
    requires k <= |items|
    ensures SumIn(items, {}, k) == 0
  {
    if k > 0 {
      SumInNone(items, k - 1);
    }
  }

  /** Adding a position to `s` adds its count, once it is below k. */
  lemma {:induction false} SumInAdd(items: seq<Pair>, s: set<nat>, p: nat, k: nat)
    requires k <= |items| && p !in s
    ensures SumIn(items, s + {p}, k) == SumIn(items, s, k) + (if p < k then items[p].count else 0)
  {
    if k > 0 {
      SumInAdd(items, s, p, k - 1);
    }
  }

  /** Fewer positions never sum to more, and the same positions below k sum to
      the same. */
  lemma {:induction false} SumInSubset(items: seq<Pair>, s: set<nat>, u: set<nat>, k: nat)
    requires k <= |items| && s <= u
    ensures SumIn(items, s, k) <= SumIn(items, u, k)
    ensures (forall j: nat :: j < k && j in u ==> j in s) ==> SumIn(items, s, k) == SumIn(items, u, k)
  {
    if k > 0 {
      SumInSubset(items, s, u, k - 1);
    }
  }

  /** The counts at distinct positions, summed in list order, are the sum over
      the set of those positions. */
  lemma {:induction false} CountSumAt(items: seq<Pair>, pos: seq<nat>)
    requires forall k :: 0 <= k < |pos| ==> pos[k] < |items|
    requires forall a, b :: 0 <= a < b < |pos| ==> pos[a] != pos[b]
    ensures CountSum(seq(|pos|, k requires 0 <= k < |pos| => items[pos[k]]))
              == SumIn(items, set x | x in pos, |items|)
  {
    var at := seq(|pos|, k requires 0 <= k < |pos| => items[pos[k]]);
    if pos != [] {
      var init := pos[..|pos| - 1];
      var p := pos[|pos| - 1];
      CountSumAt(items, init);
      assert at[..|at| - 1] == seq(|init|, k requires 0 <= k < |init| => items[init[k]]);
      var s := set x | x in init;
      assert p !in s;
      SumInAdd(items, s, p, |items|);
      assert pos == init + [p];
      PositionsSnoc(init, p);
      assert CountSum(at) == CountSum(at[..|at| - 1]) + items[p].count;
      var whole := set x | x in pos;
      assert whole == s + {p};
      assert CountSum(at) == SumIn(items, whole, |items|);
    } else {
      var none: set<nat> := set x | x in pos;
      assert none == {};
      SumInNone(items, |items|);
    }
  }

  /** The set of the positions in a list is that of all but the last, plus the
      last. */
  lemma PositionsSnoc(init: seq<nat>, p: nat)
    ensures (set x | x in init + [p]) == (set x | x in init) + {p}
  {
  }

  /** The counts of a Counter sum over all of its positions. */
  lemma {:induction false} SumOverIsSumIn(t: Tally, k: nat)
    requires WellFormed(t) && k <= |t.order|
    ensures forall e :: e in t.order[..k] ==> e in t.counts
    ensures SumOver(t.order[..k], t.counts) == SumIn(Items(t), Available(Items(t), {}), k)
  {
    if k > 0 {
      SumOverIsSumIn(t, k - 1);
      assert t.order[..k][..k - 1] == t.order[..k - 1];
    }
  }

  /** The counts `most_common(n)` lists add up to at most the sum of all
      counts, and to exactly that sum when the Counter has at most n keys. */
  lemma MostCommonSum(t: Tally, n: nat)
    requires WellFormed(t)
    ensures CountSum(MostCommon(Items(t), n)) <= Total(t)
    ensures |t.order| <= n ==> CountSum(MostCommon(Items(t), n)) == Total(t)
  {
    var items := Items(t);
    var pos := TopPositions(items, {}, n);
    var chosen := set x | x in pos;
    var all := Available(items, {});
    CountSumAt(items, pos);
    SumOverIsSumIn(t, |t.order|);
    assert t.order[..|t.order|] == t.order;
    SumInSubset(items, chosen, all, |items|);
    if |t.order| <= n {
      AllAvailable(items);
      TopPositionsExhaust(items, {}, n);
      assert forall j :: j in all ==> j in chosen;
    }
  }

  /** The position of key `e` in an insertion order. */
  function IndexOf(order: seq<string>, e: string): (i: nat)
    requires e in order
    ensures i < |order| && order[i] == e
    ensures forall p :: 0 <= p < i ==> order[p] != e
  {
    if order[0] == e then 0 else 1 + IndexOf(order[1..], e)
  }

  /** The endpoints of a list of pairs, in order. */
  function Endpoints(pairs: seq<Pair>): (keys: seq<string>)
    ensures |keys| == |pairs|
    ensures forall k :: 0 <= k < |pairs| ==> keys[k] == pairs[k].endpoint
  {
    seq(|pairs|, k requires 0 <= k < |pairs| => pairs[k].endpoint)
  }

  /** Ties the pairs of `most_common(n)` on a Counter to the positions they
      were selected from. */
  lemma MostCommonPositions(t: Tally, n: nat)
    requires WellFormed(t)
    ensures var top := MostCommon(Items(t), n);
            var pos := TopPositions(Items(t), {}, n);
            && |top| == |pos| == (if n < |t.order| then n else |t.order|)
            && (forall k :: 0 <= k < |top| ==> top[k].endpoint in t.order && IndexOf(t.order, top[k].endpoint) == pos[k])
            && (forall k :: 0 <= k < |top| ==> top[k] == Pair(t.order[pos[k]], t.counts[t.order[pos[k]]]))
  {
    var items := Items(t);
    MostCommonIsStablePrefix(items, n);
  }

  /** `most_common(n)` on a Counter lists min(n, number of keys) keys, each
      once and with its own count. */
  lemma MostCommonOfCounter(t: Tally, n: nat)
    requires WellFormed(t)
    ensures var top := MostCommon(Items(t), n);
            && |top| == (if n < |t.order| then n else |t.order|)
            && (forall k :: 0 <= k < |top| ==> top[k].endpoint in t.counts && top[k].count == t.counts[top[k].endpoint])
            && (forall a, b :: 0 <= a < b < |top| ==> top[a].endpoint != top[b].endpoint)
  {
    MostCommonPositions(t, n);
  }

  /** The counts of `most_common(n)` never increase along the list, and keys
      with equal counts appear in the Counter's insertion order. */
  lemma MostCommonDescendingStable(t: Tally, n: nat)
    requires WellFormed(t)
    ensures var top := MostCommon(Items(t), n);
            forall a, b :: 0 <= a < b < |top| ==>
              && top[a].count >= top[b].count
              && (top[a].count == top[b].count ==> IndexOf(t.order, top[a].endpoint) < IndexOf(t.order, top[b].endpoint))
  {
    var items := Items(t);
    var pos := TopPositions(items, {}, n);
    MostCommonPositions(t, n);
    MostCommonIsStablePrefix(items, n);
    forall a, b | 0 <= a < b < |pos| ensures RanksBefore(items, pos[a], pos[b]) {
      assert RanksBefore(items, TopPositions(items, {}, n)[a], TopPositions(items, {}, n)[b]);
    }
  }

  /** A key that `most_common(n)` leaves out counts no more than any key it
      lists, and one that counts as much was inserted after it. */
  lemma MostCommonLeftOut(t: Tally, n: nat, e: string)
    requires WellFormed(t)
    requires e in t.counts && e !in Endpoints(MostCommon(Items(t), n))
    ensures var top := MostCommon(Items(t), n);
            forall k :: 0 <= k < |top| ==>
              && t.counts[e] <= top[k].count
              && (t.counts[e] == top[k].count ==> IndexOf(t.order, top[k].endpoint) < IndexOf(t.order, e))
  {
    var items := Items(t);
    var top := MostCommon(items, n);
    var pos := TopPositions(items, {}, n);
    MostCommonPositions(t, n);
    MostCommonIsStablePrefix(items, n);
    var j := IndexOf(t.order, e);
    assert j !in pos;
    forall k | 0 <= k < |pos| ensures RanksBefore(items, pos[k], j) {
      assert RanksBefore(items, TopPositions(items, {}, n)[k], j);
    }
  }
}
