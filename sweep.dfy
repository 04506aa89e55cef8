/**
 * The two sweep drivers (`main` in bench_conc.py and in bench_fanout.py): the
 * parameter-major, run-minor loop that runs one configuration per
 * (PARAM, RUN) pair and streams one row per configuration into the output
 * table. The table is modelled as its sequence of rows; `None` is a file that
 * does not exist.
 */
module Sweep {
  import opened Wrappers
  import opened Timeline
  import opened Identity
  import opened Runner

  /** One line of the output table `PARAM,AVG_TIME,RUN,FAILED`; `avgTime == None` is NaN. */
  datatype Row = Header | Data(param: int, avgTime: Option<real>, run: int, failed: int)

  /** The command-line values the drivers consume. */
  datatype Settings = Settings(baseUrl: string, prefix: string, limit: int, params: seq<int>, runs: int)

  /** How many identities a run uses: the PARAM value itself (concurrency sweep) or a fixed count (fan-out sweep). */
  datatype Width = PerParam | Fixed(concurrency: int)

  /** The number of iterations of `range(1, runs + 1)`. */
  function RunCount(runs: int): nat
  {
    if runs > 0 then runs else 0
  }

  /** The configurations of one PARAM value: RUN = 1..runs. */
  function RunsFor(param: int, runs: int): seq<(int, int)>
  {
    seq(RunCount(runs), j => (param, j + 1))
  }

  /** All (PARAM, RUN) pairs in loop order: outer loop over the parameters as given, inner over the runs. */
  function Plan(params: seq<int>, runs: int): seq<(int, int)>
  {
    if params == [] then [] else Plan(params[..|params| - 1], runs) + RunsFor(params[|params| - 1], runs)
  }

  function IdentityCount(w: Width, param: int): int
  {
    match w
    case PerParam => param
    case Fixed(c) => c
  }

  /** The requests of one configuration: `make_usernames(prefix, count, 1)`, one request each. */
  function ConfigRequests(s: Settings, w: Width, param: int): seq<Request>
  {
    Requests(s.baseUrl, MakeUsernames(s.prefix, IdentityCount(w, param), 1), s.limit)
  }

  /** `1 if failed > 0 else 0`. */
  function FailedFlag(failed: nat): int
  {
    if failed > 0 then 1 else 0
  }

  /** The row written for the configuration `cfg`, run as the `k`-th of the sweep. */
  function ConfigRow(s: Settings, w: Width, net: Network, cfg: (int, int), k: nat): Row
  {
    var summary := Summarize(Gather(k, ConfigRequests(s, w, cfg.0), net));
    Data(cfg.0, summary.avgMs, cfg.1, FailedFlag(summary.failed))
  }

  /** The rows of a plan, given the row each configuration yields at its position. */
  function RowsOf(plan: seq<(int, int)>, row: ((int, int), nat) -> Row): (rows: seq<Row>)
    ensures |rows| == |plan|
  {
    if plan == [] then []
    else RowsOf(plan[..|plan| - 1], row) + [row(plan[|plan| - 1], |plan| - 1)]
  }

  lemma {:induction false} RowsOfAt(plan: seq<(int, int)>, row: ((int, int), nat) -> Row, k: nat)
    requires k < |plan|
    ensures RowsOf(plan, row)[k] == row(plan[k], k)
  {
    var n := |plan| - 1;
    if k < n {
      RowsOfAt(plan[..n], row, k);
    }
  }

  /** The rows a plan produces, the `k`-th configuration being the `k`-th run. */
  function Rows(s: Settings, w: Width, net: Network, plan: seq<(int, int)>): (rows: seq<Row>)
    ensures |rows| == |plan|
  {
    RowsOf(plan, (cfg: (int, int), k: nat) => ConfigRow(s, w, net, cfg, k))
  }

  /** The requests issued by each configuration of a plan. */
  function Traffic(s: Settings, w: Width, plan: seq<(int, int)>): (sent: seq<seq<Request>>)
    ensures |sent| == |plan|
  {
    if plan == [] then [] else Traffic(s, w, plan[..|plan| - 1]) + [ConfigRequests(s, w, plan[|plan| - 1].0)]
  }

  lemma RowsAt(s: Settings, w: Width, net: Network, plan: seq<(int, int)>, k: nat)
    requires k < |plan|
    ensures Rows(s, w, net, plan)[k] == ConfigRow(s, w, net, plan[k], k)
  {
    RowsOfAt(plan, (cfg: (int, int), k: nat) => ConfigRow(s, w, net, cfg, k), k);
  }

  lemma {:induction false} TrafficAt(s: Settings, w: Width, plan: seq<(int, int)>, k: nat)
    requires k < |plan|
    ensures Traffic(s, w, plan)[k] == ConfigRequests(s, w, plan[k].0)
  {
    var n := |plan| - 1;
    if k < n {
      TrafficAt(s, w, plan[..n], k);
    }
  }

  lemma RowsAreData(s: Settings, w: Width, net: Network, plan: seq<(int, int)>)
    ensures forall k :: 0 <= k < |plan| ==> Rows(s, w, net, plan)[k].Data?
  {
    forall k | 0 <= k < |plan| ensures Rows(s, w, net, plan)[k].Data? {
      RowsAt(s, w, net, plan, k);
    }
  }

  /**
   * The nested loop of both drivers, appending to an already opened table:
   * one configuration per (PARAM, RUN) pair, each row written as soon as it
   * is computed.
   */
  method RunSweep(s: Settings, w: Width, net: Network, initial: seq<Row>)
    returns (file: seq<Row>, sent: seq<seq<Request>>)
    ensures file == initial + Rows(s, w, net, Plan(s.params, s.runs))
    ensures sent == Traffic(s, w, Plan(s.params, s.runs))
  {
    file, sent := initial, [];
    for i := 0 to |s.params|
      invariant file == initial + Rows(s, w, net, Plan(s.params[..i], s.runs))
      invariant sent == Traffic(s, w, Plan(s.params[..i], s.runs))
    {
      ghost var done := Plan(s.params[..i], s.runs);
      file, sent := RunParam(s, w, net, s.params[i], done, initial, file, sent);
      assert s.params[..i + 1][..i] == s.params[..i];
      assert Plan(s.params[..i + 1], s.runs) == done + RunsFor(s.params[i], s.runs);
    }
    assert s.params[..|s.params|] == s.params;
  }

  /** The inner loop: RUN = 1..runs for one PARAM value. */
  method RunParam(s: Settings, w: Width, net: Network, param: int, ghost done: seq<(int, int)>,
                  ghost initial: seq<Row>, file0: seq<Row>, sent0: seq<seq<Request>>)
    returns (file: seq<Row>, sent: seq<seq<Request>>)
    requires file0 == initial + Rows(s, w, net, done)
    requires sent0 == Traffic(s, w, done)
    ensures file == initial + Rows(s, w, net, done + RunsFor(param, s.runs))
    ensures sent == Traffic(s, w, done + RunsFor(param, s.runs))
  {
    file, sent := file0, sent0;
    var run := 1;
    assert done + RunsFor(param, 0) == done;
    while run <= s.runs
      invariant 1 <= run <= RunCount(s.runs) + 1
      invariant file == initial + Rows(s, w, net, done + RunsFor(param, run - 1))
      invariant sent == Traffic(s, w, done + RunsFor(param, run - 1))
    {
      var usernames := MakeUsernames(s.prefix, IdentityCount(w, param), 1);
      var summary, requests := RunOneConfig(s.baseUrl, usernames, s.limit, |sent|, net);
      ghost var before := done + RunsFor(param, run - 1);
      RunsForExtend(done, param, run);
      var row := Data(param, summary.avgMs, run, FailedFlag(summary.failed));
      SweepStep(s, w, net, initial, before, param, run, summary);
      file := file + [row];
      sent := sent + [requests];
      run := run + 1;
    }
    assert RunsFor(param, run - 1) == RunsFor(param, s.runs);
  }

  lemma RunsForExtend(done: seq<(int, int)>, param: int, run: int)
    requires run >= 1
    ensures done + RunsFor(param, run - 1) + [(param, run)] == done + RunsFor(param, run)
  {
    assert RunsFor(param, run - 1) + [(param, run)] == RunsFor(param, run);
  }

  /**
   * One more configuration adds its row and its requests at the end, also
   * behind whatever the file held before the sweep.
   */
  lemma SweepStep(s: Settings, w: Width, net: Network, initial: seq<Row>, plan: seq<(int, int)>, param: int, run: int,
                  summary: Summary)
    requires summary == Summarize(Gather(|plan|, ConfigRequests(s, w, param), net))
    ensures Rows(s, w, net, plan + [(param, run)])
         == Rows(s, w, net, plan) + [Data(param, summary.avgMs, run, FailedFlag(summary.failed))]
    ensures initial + Rows(s, w, net, plan + [(param, run)])
         == initial + Rows(s, w, net, plan) + [Data(param, summary.avgMs, run, FailedFlag(summary.failed))]
    ensures Traffic(s, w, plan + [(param, run)]) == Traffic(s, w, plan) + [ConfigRequests(s, w, param)]
  {
    PlanExtend(s, w, net, plan, (param, run));
    var row := Data(param, summary.avgMs, run, FailedFlag(summary.failed));
    assert initial + (Rows(s, w, net, plan) + [row]) == initial + Rows(s, w, net, plan) + [row];
  }

  lemma PlanExtend(s: Settings, w: Width, net: Network, plan: seq<(int, int)>, cfg: (int, int))
    ensures Rows(s, w, net, plan + [cfg]) == Rows(s, w, net, plan) + [ConfigRow(s, w, net, cfg, |plan|)]
    ensures Traffic(s, w, plan + [cfg]) == Traffic(s, w, plan) + [ConfigRequests(s, w, cfg.0)]
  {
    assert (plan + [cfg])[..|plan|] == plan;
  }

  function Max(xs: seq<int>): (m: int)
    requires xs != []
  {
    if |xs| == 1 then xs[0]
    else var rest := Max(xs[..|xs| - 1]); if xs[|xs| - 1] > rest then xs[|xs| - 1] else rest
  }

  /**
   * The safety check: `max(params)` raises on an empty list, and a largest
   * concurrency above the number of seeded users stops the program.
   */
  predicate Rejected(params: seq<int>, maxUsers: int)
  {
    params == [] || Max(params) > maxUsers
  }

  /** The check rejects exactly an empty list or a list holding a value above `maxUsers`; equality passes. */
  lemma {:induction false} RejectedIff(params: seq<int>, maxUsers: int)
    ensures Rejected(params, maxUsers)
        <==> params == [] || exists i :: 0 <= i < |params| && params[i] > maxUsers
  {
    if params != [] {
      MaxIsUpperBound(params);
    }
  }

  lemma {:induction false} MaxIsUpperBound(xs: seq<int>)
    requires xs != []
    ensures forall i :: 0 <= i < |xs| ==> xs[i] <= Max(xs)
    ensures exists i :: 0 <= i < |xs| && xs[i] == Max(xs)
  {
    if |xs| > 1 {
      var n := |xs| - 1;
      MaxIsUpperBound(xs[..n]);
      assert forall i :: 0 <= i < n ==> xs[..n][i] == xs[i];
      var j :| 0 <= j < n && xs[..n][j] == Max(xs[..n]);
      if xs[n] <= Max(xs[..n]) {
        assert xs[j] == Max(xs);
      }
    } else {
      assert xs[0] == Max(xs);
    }
  }

  /**
   * bench_conc.py `main` from the safety check on: a rejected parameter list
   * leaves the output file as it was and issues no request; otherwise the file
   * is truncated to the header followed by one row per configuration.
   */
  method ConcurrencyMain(s: Settings, maxUsers: int, existing: Option<seq<Row>>, net: Network)
    returns (file: Option<seq<Row>>, sent: seq<seq<Request>>)
    ensures Rejected(s.params, maxUsers) ==> file == existing && sent == []
    ensures !Rejected(s.params, maxUsers) ==>
      && file == Some([Header] + Rows(s, PerParam, net, Plan(s.params, s.runs)))
      && sent == Traffic(s, PerParam, Plan(s.params, s.runs))
  {
    if s.params == [] || Max(s.params) > maxUsers {
      return existing, [];
    }
    var rows;
    rows, sent := RunSweep(s, PerParam, net, [Header]);
    file := Some(rows);
  }

  /** What opening the table gives the fan-out driver: a fresh header, or the existing rows in append mode. */
  function Opened(existing: Option<seq<Row>>): seq<Row>
  {
    match existing
    case None => [Header]
    case Some(rows) => rows
  }

  /**
   * bench_fanout.py `main`: the header is written iff the file did not
   * exist; an existing file is appended to, so its rows are kept and no
   * second header appears. Every run uses the fixed `concurrency`.
   */
  method FanoutMain(s: Settings, concurrency: int, existing: Option<seq<Row>>, net: Network)
    returns (file: seq<Row>, sent: seq<seq<Request>>)
    ensures file == Opened(existing) + Rows(s, Fixed(concurrency), net, Plan(s.params, s.runs))
    ensures sent == Traffic(s, Fixed(concurrency), Plan(s.params, s.runs))
    ensures existing.None? ==> file[0] == Header && forall k :: 1 <= k < |file| ==> file[k].Data?
    ensures existing.Some? ==>
      && file[..|existing.value|] == existing.value
      && forall k :: |existing.value| <= k < |file| ==> file[k].Data?
  {
    var writeHeader := existing.None?;
    var initial := if writeHeader then [Header] else existing.value;
    file, sent := RunSweep(s, Fixed(concurrency), net, initial);
    RowsAreData(s, Fixed(concurrency), net, Plan(s.params, s.runs));
    assert file[..|initial|] == initial;
  }

  /** The plan has `len(params) * runs` entries. */
  lemma {:induction false} PlanLength(params: seq<int>, runs: int)
    ensures |Plan(params, runs)| == |params| * RunCount(runs)
  {
    if params != [] {
      var n, r := |params| - 1, RunCount(runs);
      PlanLength(params[..n], runs);
      assert (n + 1) * r == n * r + r;
    }
  }

  /** Entry `i * runs + j` of the plan is PARAM `params[i]` with RUN `j + 1`: parameter-major order. */
  lemma {:induction false} PlanOrder(params: seq<int>, runs: int, i: nat, j: nat)
    requires i < |params| && j < RunCount(runs)
    ensures i * RunCount(runs) + j < |Plan(params, runs)|
    ensures Plan(params, runs)[i * RunCount(runs) + j] == (params[i], j + 1)
  {
    var n, r := |params| - 1, RunCount(runs);
    var front := params[..n];
    PlanLength(params, runs);
    PlanLength(front, runs);
    if i < n {
      PlanOrder(front, runs, i, j);
      assert front[i] == params[i];
    } else {
      assert i * r + j == n * r + j;
    }
  }

  /** Every configuration of the plan runs a PARAM value taken from the list, with a RUN in 1..runs. */
  lemma {:induction false} PlanMembers(params: seq<int>, runs: int)
    ensures forall k :: 0 <= k < |Plan(params, runs)| ==>
      Plan(params, runs)[k].0 in params && 1 <= Plan(params, runs)[k].1 <= runs
  {
    if params != [] {
      var n := |params| - 1;
      PlanMembers(params[..n], runs);
      assert forall x :: x in params[..n] ==> x in params;
    }
  }

  /**
   * Each row records its configuration's PARAM and RUN; FAILED is 1 iff
   * some probe of that configuration crashed or was not ok; AVG_TIME is NaN
   * iff every probe crashed.
   */
  lemma RowFacts(s: Settings, w: Width, net: Network, plan: seq<(int, int)>, k: nat)
    requires k < |plan|
    ensures var row := Rows(s, w, net, plan)[k];
      var rs := Gather(k, Traffic(s, w, plan)[k], net);
      && row.Data? && row.param == plan[k].0 && row.run == plan[k].1
      && (row.failed == 1 <==> exists j :: 0 <= j < |rs| && (rs[j].Crash? || !rs[j].ok))
      && (row.failed == 0 <==> row.failed != 1)
      && (row.avgTime.None? <==> forall j :: 0 <= j < |rs| ==> rs[j].Crash?)
  {
    var rs := Gather(k, Traffic(s, w, plan)[k], net);
    RowsAt(s, w, net, plan, k);
    TrafficAt(s, w, plan, k);
    AnyFailureIff(rs);
    NanIffAllCrashed(rs);
  }

  /**
   * A configuration probes `max(count, 0)` distinct identities, the j-th being
   * `prefix + str(j + 1)`, each at the timeline URL with the configured limit.
   */
  lemma ConfigIdentities(s: Settings, w: Width, param: int)
    ensures var reqs := ConfigRequests(s, w, param);
      var count := IdentityCount(w, param);
      && |reqs| == (if count > 0 then count else 0)
      && (forall j :: 0 <= j < |reqs| ==>
            reqs[j] == TimelineRequest(s.baseUrl, s.prefix + Decimal.IntToString(j + 1), s.limit))
      && (forall i, j :: 0 <= i < j < |reqs| ==> reqs[i].user != reqs[j].user)
  {
    UsernamesDistinct(s.prefix, IdentityCount(w, param), 1);
  }

  /** In the fan-out sweep PARAM is only recorded: every configuration sends the same requests. */
  lemma FanoutIgnoresParam(s: Settings, concurrency: int, plan: seq<(int, int)>)
    ensures forall k :: 0 <= k < |plan| ==>
      Traffic(s, Fixed(concurrency), plan)[k] == ConfigRequests(s, Fixed(concurrency), 0)
    ensures forall k :: 0 <= k < |plan| ==>
      |Traffic(s, Fixed(concurrency), plan)[k]| == (if concurrency > 0 then concurrency else 0)
  {
    forall k | 0 <= k < |plan|
      ensures Traffic(s, Fixed(concurrency), plan)[k] == ConfigRequests(s, Fixed(concurrency), 0)
    {
      TrafficAt(s, Fixed(concurrency), plan, k);
    }
  }

  /**
   * A concurrency sweep that passes the safety check only probes identities
   * among `prefix1 .. prefix{max_users}`, the ones the seeding tool provisions.
   */
  lemma ProvisionedIdentitiesSuffice(s: Settings, maxUsers: int)
    requires !Rejected(s.params, maxUsers)
    ensures var sent := Traffic(s, PerParam, Plan(s.params, s.runs));
      forall k, j :: 0 <= k < |sent| && 0 <= j < |sent[k]| ==>
        sent[k][j].user in MakeUsernames(s.prefix, maxUsers, 1)
  {
    var plan := Plan(s.params, s.runs);
    var sent: seq<seq<Request>> := Traffic(s, PerParam, plan);
    PlanMembers(s.params, s.runs);
    MaxIsUpperBound(s.params);
    forall k, j | 0 <= k < |sent| && 0 <= j < |sent[k]|
      ensures sent[k][j].user in MakeUsernames(s.prefix, maxUsers, 1)
    {
      var param := plan[k].0;
      TrafficAt(s, PerParam, plan, k);
      assert param <= maxUsers;
      UsernamesPrefix(s.prefix, param, maxUsers, 1);
      assert sent[k][j].user == MakeUsernames(s.prefix, maxUsers, 1)[j];
    }
  }
}
