/** The refresh loops' batching: the tracked sites are cut into consecutive
    slices of `BatchSize`; each slice is processed, and a fixed delay separates
    one slice from the next. Processing inside a slice is concurrent in the
    program and sequential here; each site's outcome depends on that site
    only. */
module Batching {
  import opened Results
  import opened Text
  import opened Seqs

  const BatchSize: nat := 5

  /** `Math.ceil(n / batchSize)`. */
  function BatchCount(n: nat): nat {
    (n + BatchSize - 1) / BatchSize
  }

  /** `websites.slice(start, end)` for batch `i`, with `start = i * batchSize`
      and `end = Math.min(start + batchSize, websites.length)`. */
  function Batch<T>(s: seq<T>, i: nat): (b: seq<T>)
    requires i < BatchCount(|s|)
    ensures 1 <= |b| <= BatchSize
  {
    s[i * BatchSize .. Min(i * BatchSize + BatchSize, |s|)]
  }

  function Flatten<T>(bs: seq<seq<T>>): seq<T>
    decreases |bs|
  {
    if bs == [] then [] else bs[0] + Flatten(bs[1..])
  }

  /** All the batches of one refresh, in loop order. They are consecutive
      slices of at most `BatchSize` sites that together are the whole list. */
  function Batches<T>(s: seq<T>): (bs: seq<seq<T>>)
    ensures |bs| == BatchCount(|s|)
    ensures forall i :: 0 <= i < |bs| ==> 1 <= |bs[i]| <= BatchSize
    ensures forall i :: 0 <= i < |bs| - 1 ==> |bs[i]| == BatchSize
    ensures Flatten(bs) == s
  {
    BatchesCoverInput(s);
    assert forall i :: 0 <= i < BatchCount(|s|) - 1 ==> i * BatchSize + BatchSize <= |s|;
    seq(BatchCount(|s|), i requires 0 <= i < BatchCount(|s|) => Batch(s, i))
  }

  /** A slice of a suffix is the shifted slice of the whole. */
  lemma SliceOfSuffix<T>(s: seq<T>, off: nat, lo: nat, hi: nat)
    requires off <= |s| && lo <= hi <= |s| - off
    ensures s[off..][lo..hi] == s[lo + off..hi + off]
  {
    assert forall k :: 0 <= k < hi - lo ==> s[off..][lo..hi][k] == s[lo + off..hi + off][k];
  }

  lemma {:induction false} BatchesCoverInput<T>(s: seq<T>)
    ensures Flatten(seq(BatchCount(|s|), i requires 0 <= i < BatchCount(|s|) => Batch(s, i))) == s
    decreases |s|
  {
    var bs := seq(BatchCount(|s|), i requires 0 <= i < BatchCount(|s|) => Batch(s, i));
    if |s| == 0 {
      assert BatchCount(|s|) == 0;
      assert |bs| == 0;
    } else if |s| <= BatchSize {
      assert BatchCount(|s|) == 1;
      assert bs[0] == Batch(s, 0) == s[0..|s|] == s;
      assert bs == [s];
      assert Flatten(bs) == s + Flatten(bs[1..]);
      assert s + [] == s;
    } else {
      var t := s[BatchSize..];
      var cs := seq(BatchCount(|t|), i requires 0 <= i < BatchCount(|t|) => Batch(t, i));
      assert BatchCount(|t|) == BatchCount(|s|) - 1;
      forall i | 0 <= i < |cs|
        ensures bs[1..][i] == cs[i]
      {
        assert i + 1 < BatchCount(|s|);
        var lo := i * BatchSize;
        var hi := Min(lo + BatchSize, |t|);
        assert Batch(t, i) == t[lo..hi];
        assert (i + 1) * BatchSize == lo + BatchSize;
        assert Batch(s, i + 1) == s[lo + BatchSize .. hi + BatchSize];
        assert lo <= hi <= |t|;
        SliceOfSuffix(s, BatchSize, lo, hi);
        assert bs[1..][i] == Batch(s, i + 1);
      }
      assert bs[1..] == cs;
      BatchesCoverInput(t);
      assert bs[0] == s[..BatchSize];
    }
  }

  /** One step of a refresh run: a site's outcome, or the delay between two
      batches. */
  datatype Event<O> = Done(outcome: O) | Pause

  /** The loop over batches: each batch's outcomes, then a delay unless it
      was the last batch (`if (i < batches - 1)`). */
  function RunBatches<T, O>(bs: seq<seq<T>>, step: T -> O): seq<Event<O>>
    decreases |bs|
  {
    if bs == [] then []
    else
      Map(bs[0], (x: T) => Done(step(x)))
      + (if |bs| == 1 then [] else [Pause] + RunBatches(bs[1..], step))
  }

  /** The outcomes among a run's events, in order. */
  function Outcomes<O>(es: seq<Event<O>>): seq<O>
    decreases |es|
  {
    if es == [] then []
    else (if es[0].Done? then [es[0].outcome] else []) + Outcomes(es[1..])
  }

  function Pauses<O>(es: seq<Event<O>>): nat
    decreases |es|
  {
    if es == [] then 0 else (if es[0].Pause? then 1 else 0) + Pauses(es[1..])
  }

  lemma {:induction false} OutcomesAppend<O>(a: seq<Event<O>>, b: seq<Event<O>>)
    ensures Outcomes(a + b) == Outcomes(a) + Outcomes(b)
    ensures Pauses(a + b) == Pauses(a) + Pauses(b)
    decreases |a|
  {
    if a == [] {
      assert a + b == b;
    } else {
      assert (a + b)[0] == a[0];
      assert (a + b)[1..] == a[1..] + b;
      OutcomesAppend(a[1..], b);
    }
  }

  lemma {:induction false} OutcomesOfBatch<T, O>(b: seq<T>, step: T -> O)
    ensures Outcomes(Map(b, (x: T) => Done(step(x)))) == Map(b, step)
    ensures Pauses(Map(b, (x: T) => Done(step(x)))) == 0
    decreases |b|
  {
    if b != [] {
      OutcomesOfBatch(b[1..], step);
      assert Map(b, (x: T) => Done(step(x)))[1..] == Map(b[1..], (x: T) => Done(step(x)));
      assert Map(b, step) == [step(b[0])] + Map(b[1..], step);
    }
  }

  /** A run yields every site's outcome, in list order, and one delay fewer
      than there are batches. */
  lemma {:induction false} RunBatchesShape<T, O>(bs: seq<seq<T>>, step: T -> O)
    ensures Outcomes(RunBatches(bs, step)) == Map(Flatten(bs), step)
    ensures bs != [] ==> Pauses(RunBatches(bs, step)) == |bs| - 1
    decreases |bs|
  {
    if bs != [] {
      var first := Map(bs[0], (x: T) => Done(step(x)));
      OutcomesOfBatch(bs[0], step);
      if |bs| == 1 {
        assert RunBatches(bs, step) == first + [];
        assert first + [] == first;
        assert Flatten(bs) == bs[0] + Flatten(bs[1..]);
        assert bs[0] + [] == bs[0];
      } else {
        var rest := RunBatches(bs[1..], step);
        assert RunBatches(bs, step) == first + ([Pause] + rest);
        assert Flatten(bs) == bs[0] + Flatten(bs[1..]);
        RunBatchesShape(bs[1..], step);
        OutcomesAppend(first, [Pause] + rest);
        OutcomesAppend([Pause], rest);
        var pause: seq<Event<O>> := [Pause];
        assert Outcomes(pause) == [] && Pauses(pause) == 1;
        MapAppend(bs[0], Flatten(bs[1..]), step);
      }
    }
  }

  lemma MapAppend<T, U>(a: seq<T>, b: seq<T>, f: T -> U)
    ensures Map(a + b, f) == Map(a, f) + Map(b, f)
  {
  }

  /** A run never ends with a delay: the last event is a site's outcome. */
  lemma {:induction false} RunEndsWithOutcome<T, O>(bs: seq<seq<T>>, step: T -> O)
    requires bs != [] && forall i :: 0 <= i < |bs| ==> bs[i] != []
    ensures var es := RunBatches(bs, step); es != [] && es[|es| - 1].Done?
    decreases |bs|
  {
    if |bs| > 1 {
      RunEndsWithOutcome(bs[1..], step);
    }
  }

  /** Where a run's event `k` falls when every batch but the last is full:
      a delay at every sixth position, and elsewhere the outcome of the site
      whose index is the position less the delays before it. */
  lemma {:induction false} EventAt<T, O>(bs: seq<seq<T>>, step: T -> O, k: nat)
    requires bs != []
    requires forall i :: 0 <= i < |bs| ==> 1 <= |bs[i]| <= BatchSize
    requires forall i :: 0 <= i < |bs| - 1 ==> |bs[i]| == BatchSize
    requires k < |RunBatches(bs, step)|
    ensures RunBatches(bs, step)[k].Pause? <==> k % 6 == 5
    ensures RunBatches(bs, step)[k].Done? ==>
              k - k / 6 < |Flatten(bs)| && RunBatches(bs, step)[k].outcome == step(Flatten(bs)[k - k / 6])
    decreases |bs|
  {
    var es := RunBatches(bs, step);
    var first := Map(bs[0], (x: T) => Done(step(x)));
    assert Flatten(bs) == bs[0] + Flatten(bs[1..]);
    if |bs| == 1 {
      assert es == first + [];
      assert es[k] == Done(step(bs[0][k]));
    } else {
      var rest := RunBatches(bs[1..], step);
      assert es == first + ([Pause] + rest);
      assert |bs[0]| == BatchSize;
      if k < BatchSize {
        assert es[k] == first[k] == Done(step(bs[0][k]));
      } else if k > BatchSize {
        var j := k - 6;
        assert es[k] == rest[j];
        EventAt(bs[1..], step, j);
        assert j % 6 == k % 6 && j / 6 == k / 6 - 1;
      }
    }
  }

  /** The refresh loop over a whole list: its events show every site's
      outcome in list order, `BatchCount(n) - 1` delays, and no delay after
      the last batch. */
  function Process<T, O>(s: seq<T>, step: T -> O): (es: seq<Event<O>>)
    ensures Outcomes(es) == Map(s, step)
    ensures s != [] ==> Pauses(es) == BatchCount(|s|) - 1
    ensures s != [] ==> es != [] && es[|es| - 1].Done?
    ensures forall k :: 0 <= k < |es| ==> (es[k].Pause? <==> k % 6 == 5)
    ensures forall k :: 0 <= k < |es| && es[k].Done? ==> k - k / 6 < |s| && es[k].outcome == step(s[k - k / 6])
  {
    var bs := Batches(s);
    RunBatchesShape(bs, step);
    var es := RunBatches(bs, step);
    if s == [] then es
    else
      RunEndsWithOutcome(bs, step);
      forall k | 0 <= k < |es|
        ensures es[k].Pause? <==> k % 6 == 5
        ensures es[k].Done? ==> k - k / 6 < |s| && es[k].outcome == step(s[k - k / 6])
      {
        EventAt(bs, step, k);
      }
      es
  }

  /** The result of a refresh run: its events and the number of sites found
      changed. */
  datatype Report<O> = Report(events: seq<Event<O>>, updatedCount: nat)

  /** `refreshWebsites()` as both feeds write it: nothing happens without a
      store, while a run is going on, or for an empty list; otherwise every
      site is stepped once, in order, in batches of five with a delay between
      batches and none after the last, and the changed outcomes are counted. */
  function Run<T, O>(hasStore: bool, isRefreshing: bool, sites: seq<T>, step: T -> O,
                     isChange: O -> bool): (r: Option<Report<O>>)
    ensures r.None? <==> !hasStore || isRefreshing || sites == []
    ensures r.Some? ==> Outcomes(r.value.events) == Map(sites, step)
    ensures r.Some? ==> Pauses(r.value.events) == BatchCount(|sites|) - 1
    ensures r.Some? ==> r.value.events != [] && r.value.events[|r.value.events| - 1].Done?
    ensures r.Some? ==> r.value.updatedCount == Count(Map(sites, step), isChange)
    ensures r.Some? ==> r.value.updatedCount <= |sites|
    ensures r.Some? ==> (r.value.updatedCount == 0 <==> forall i :: 0 <= i < |sites| ==> !isChange(step(sites[i])))
  {
    if !hasStore || isRefreshing || sites == [] then None
    else
      var events := Process(sites, step);
      Some(Report(events, Count(Outcomes(events), isChange)))
  }
}
