/**
 * One benchmark configuration (`run_one_config` in bench_conc.py, repeated
 * with the same logic in bench_fanout.py): one probe per identity, all joined, then the
 * joined results are folded into `(avg_ms, failed)`.
 */
module Runner {
  import opened Wrappers
  import opened Stats
  import opened Timeline

  /** `(avg_ms, failed)`; `avgMs == None` stands for NaN. */
  datatype Summary = Summary(avgMs: Option<real>, failed: nat)

  /** The latency sample: the latency of every clean result, failed ones included, in result order. */
  function Sample(rs: seq<Gathered>): seq<real>
  {
    if rs == [] then []
    else Sample(rs[..|rs| - 1]) + (match rs[|rs| - 1] case Crash => [] case Clean(l, _) => [l])
  }

  /** Crashed results plus clean results whose `ok` is false. */
  function Failures(rs: seq<Gathered>): nat
  {
    if rs == [] then 0
    else Failures(rs[..|rs| - 1]) + (if rs[|rs| - 1].Crash? || !rs[|rs| - 1].ok then 1 else 0)
  }

  function Crashes(rs: seq<Gathered>): nat
  {
    if rs == [] then 0 else Crashes(rs[..|rs| - 1]) + (if rs[|rs| - 1].Crash? then 1 else 0)
  }

  /** Clean results that were measured but not ok. */
  function Refusals(rs: seq<Gathered>): nat
  {
    if rs == [] then 0
    else Refusals(rs[..|rs| - 1]) + (if rs[|rs| - 1].Clean? && !rs[|rs| - 1].ok then 1 else 0)
  }

  /** What the fold of `run_one_config` (bench_conc.py lines 59-76) computes from the joined results. */
  function Summarize(rs: seq<Gathered>): Summary
  {
    Summary(Mean(Sample(rs)), Failures(rs))
  }

  /** The accumulating loop of `run_one_config` and the final average. */
  method Aggregate(results: seq<Gathered>) returns (avgMs: Option<real>, failed: nat)
    ensures avgMs == Mean(Sample(results))
    ensures failed == Failures(results)
  {
    var latencies: seq<real> := [];
    failed := 0;
    for i := 0 to |results|
      invariant latencies == Sample(results[..i])
      invariant failed == Failures(results[..i])
    {
      var r := results[i];
      assert results[..i + 1][..i] == results[..i];
      if r.Crash? {
        failed := failed + 1;
        continue;
      }
      if !r.ok {
        failed := failed + 1;
      }
      latencies := latencies + [r.latencyMs];
    }
    assert results[..|results|] == results;
    if |latencies| > 0 {
      avgMs := Some(Sum(latencies) / |latencies| as real);
    } else {
      avgMs := None;
    }
  }

  /** Failures are exactly the crashes plus the measured-but-not-ok results, so at most one per result. */
  lemma {:induction false} FailuresSplit(rs: seq<Gathered>)
    ensures Failures(rs) == Crashes(rs) + Refusals(rs)
    ensures Failures(rs) <= |rs|
  {
    if rs != [] {
      FailuresSplit(rs[..|rs| - 1]);
    }
  }

  /** Only crashes are left out of the sample. */
  lemma {:induction false} SampleSize(rs: seq<Gathered>)
    ensures |Sample(rs)| == |rs| - Crashes(rs)
    ensures Crashes(rs) <= |rs|
  {
    if rs != [] {
      SampleSize(rs[..|rs| - 1]);
    }
  }

  /** The sample and the failure count of a concatenation are those of its parts, in order. */
  lemma {:induction false} SampleKeepsOrder(a: seq<Gathered>, b: seq<Gathered>)
    ensures Sample(a + b) == Sample(a) + Sample(b)
    ensures Failures(a + b) == Failures(a) + Failures(b)
    decreases |b|
  {
    if b == [] {
      assert a + b == a;
    } else {
      var n := |b| - 1;
      assert (a + b)[..|a + b| - 1] == a + b[..n];
      assert (a + b)[|a + b| - 1] == b[n];
      assert b[..n] + [b[n]] == b;
      SampleKeepsOrder(a, b[..n]);
    }
  }

  /** The average is NaN iff every result crashed, and then every result counts as failed. */
  lemma NanIffAllCrashed(rs: seq<Gathered>)
    ensures Summarize(rs).avgMs.None? <==> forall i :: 0 <= i < |rs| ==> rs[i].Crash?
    ensures Summarize(rs).avgMs.None? ==> Summarize(rs).failed == |rs|
  {
    SampleSize(rs);
    FailuresSplit(rs);
    AllCrashedIff(rs);
  }

  lemma {:induction false} AllCrashedIff(rs: seq<Gathered>)
    ensures Crashes(rs) == |rs| <==> forall i :: 0 <= i < |rs| ==> rs[i].Crash?
  {
    if rs != [] {
      var n := |rs| - 1;
      AllCrashedIff(rs[..n]);
      SampleSize(rs[..n]);
      if Crashes(rs) == |rs| {
        assert forall i :: 0 <= i < n ==> rs[..n][i] == rs[i];
      }
    }
  }

  /** At least one failure iff some result crashed or was not ok. */
  lemma {:induction false} AnyFailureIff(rs: seq<Gathered>)
    ensures Failures(rs) > 0 <==> exists i :: 0 <= i < |rs| && (rs[i].Crash? || !rs[i].ok)
  {
    if rs != [] {
      var n := |rs| - 1;
      AnyFailureIff(rs[..n]);
      if Failures(rs[..n]) > 0 {
        var i :| 0 <= i < n && (rs[..n][i].Crash? || !rs[..n][i].ok);
        assert rs[i] == rs[..n][i];
      }
      if exists i :: 0 <= i < |rs| && (rs[i].Crash? || !rs[i].ok) {
        var i :| 0 <= i < |rs| && (rs[i].Crash? || !rs[i].ok);
        if i < n {
          assert rs[..n][i] == rs[i];
        }
      }
    }
  }

  /** The summary does not depend on the order in which results are joined. */
  lemma {:induction false} SummaryOrderIndependent(rs: seq<Gathered>, ts: seq<Gathered>)
    requires multiset(rs) == multiset(ts)
    ensures Summarize(rs) == Summarize(ts)
  {
    FoldPermutation(rs, ts);
  }

  lemma {:induction false} FoldPermutation(rs: seq<Gathered>, ts: seq<Gathered>)
    requires multiset(rs) == multiset(ts)
    ensures Failures(rs) == Failures(ts)
    ensures |Sample(rs)| == |Sample(ts)|
    ensures Sum(Sample(rs)) == Sum(Sample(ts))
    decreases |rs|
  {
    if rs == [] {
      assert |ts| == |multiset(ts)| == 0;
    } else {
      var n := |rs| - 1;
      var x := rs[n];
      assert rs == rs[..n] + [x];
      assert x in multiset(ts);
      var i :| 0 <= i < |ts| && ts[i] == x;
      var rest := ts[..i] + ts[i + 1..];
      RemoveFromBoth(rs, ts, i);
      FoldPermutation(rs[..n], rest);
      FoldSplitAt(ts, i);
      SampleKeepsOrder(rs[..n], [x]);
      SumAppend(Sample(rs[..n]), Sample([x]));
    }
  }

  lemma RemoveFromBoth(rs: seq<Gathered>, ts: seq<Gathered>, i: nat)
    requires multiset(rs) == multiset(ts) && rs != [] && i < |ts| && ts[i] == rs[|rs| - 1]
    ensures multiset(rs[..|rs| - 1]) == multiset(ts[..i] + ts[i + 1..])
  {
    var n, x := |rs| - 1, ts[i];
    assert rs == rs[..n] + [x];
    assert ts == ts[..i] + [x] + ts[i + 1..];
    assert multiset(ts) == multiset(ts[..i]) + multiset{x} + multiset(ts[i + 1..]);
    assert multiset(rs[..n]) == multiset(rs) - multiset{x};
    assert multiset(ts) - multiset{x} == multiset(ts[..i]) + multiset(ts[i + 1..]);
  }

  /** Taking one result out of the middle removes exactly its share of the fold. */
  lemma FoldSplitAt(ts: seq<Gathered>, i: nat)
    requires i < |ts|
    ensures var rest := ts[..i] + ts[i + 1..];
      && Failures(ts) == Failures(rest) + Failures([ts[i]])
      && |Sample(ts)| == |Sample(rest)| + |Sample([ts[i]])|
      && Sum(Sample(ts)) == Sum(Sample(rest)) + Sum(Sample([ts[i]]))
  {
    var before, x, after := ts[..i], ts[i], ts[i + 1..];
    assert ts == (before + [x]) + after;
    SampleKeepsOrder(before, [x]);
    SampleKeepsOrder(before + [x], after);
    SampleKeepsOrder(before, after);
    SumAppend(Sample(before), Sample([x]));
    SumAppend(Sample(before) + Sample([x]), Sample(after));
    SumAppend(Sample(before), Sample(after));
  }

  /** The network as the model sees it: configuration ordinal and request to the joined outcome. */
  type Network = (nat, Request) -> Attempt

  /** One request per identity, in identity order. */
  function Requests(base: string, users: seq<string>, limit: int): (reqs: seq<Request>)
    ensures |reqs| == |users|
  {
    seq(|users|, i requires 0 <= i < |users| => TimelineRequest(base, users[i], limit))
  }

  /** `asyncio.gather` of one probe per request of configuration `k`, in request order. */
  function Gather(k: nat, reqs: seq<Request>, net: Network): (rs: seq<Gathered>)
    ensures |rs| == |reqs|
  {
    seq(|reqs|, i requires 0 <= i < |reqs| => Classify(net(k, reqs[i])))
  }

  /**
   * `run_one_config`: one probe per username, all joined (no short-circuit),
   * then folded. `sent` is the list of requests issued.
   */
  method RunOneConfig(base: string, usernames: seq<string>, limit: int, k: nat, net: Network)
    returns (summary: Summary, sent: seq<Request>)
    ensures sent == Requests(base, usernames, limit)
    ensures summary == Summarize(Gather(k, sent, net))
  {
    sent := Requests(base, usernames, limit);
    var results := Gather(k, sent, net);
    var avgMs, failed := Aggregate(results);
    summary := Summary(avgMs, failed);
  }

  /** `n` clean results at `x` ms: a sample of `n` copies of `x`, no failure. */
  lemma {:induction false} UniformClean(x: real, n: nat)
    ensures Sample(seq(n, _ => Clean(x, true))) == seq(n, _ => x)
    ensures Failures(seq(n, _ => Clean(x, true))) == 0
  {
    if n > 0 {
      var rs, xs := seq(n, _ => Clean(x, true)), seq(n, _ => x);
      UniformClean(x, n - 1);
      assert rs[..n - 1] == seq(n - 1, _ => Clean(x, true)) && rs[n - 1] == Clean(x, true);
      assert xs[..n - 1] == seq(n - 1, _ => x) && xs[n - 1] == x;
    }
  }

  /** Five probes, one measured but refused, the other four clean at 15 ms. */
  lemma OneRefusedOfFive(l: real)
    ensures Summarize([Clean(15.0, true), Clean(15.0, true), Clean(15.0, true), Clean(15.0, true), Clean(l, false)])
         == Summary(Some((60.0 + l) / 5.0), 1)
  {
    var four := seq(4, _ => Clean(15.0, true));
    var r := Clean(l, false);
    assert four + [r] == [Clean(15.0, true), Clean(15.0, true), Clean(15.0, true), Clean(15.0, true), r];
    UniformClean(15.0, 4);
    UniformSum(15.0, 4);
    assert (four + [r])[..4] == four && [r][..0] == [] && [l][..0] == [];
    SampleKeepsOrder(four, [r]);
    SumAppend(Sample(four), [l]);
    var sample := Sample(four + [r]);
    assert |sample| == 5 && Sum(sample) == 60.0 + l;
    assert Mean(sample) == Some((60.0 + l) / 5.0);
  }
}
