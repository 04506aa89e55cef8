/**
 * One timeline probe (`fetch_timeline` in bench_conc.py and, with the same logic, in
 * bench_fanout.py): the request it sends and how its outcome is classified.
 * The HTTP exchange and the clock are not modelled: the outcome of a probe
 * and its measured latency are inputs.
 */
module Timeline {
  import opened Decimal

  /** `GET <url>?user=<user>&limit=<limit>`. */
  datatype Request = Request(url: string, user: string, limit: string)

  /** What the HTTP client delivered inside the probe's `try`. */
  datatype Reply = Status(code: int) | TransportError

  /**
   * What `asyncio.gather(..., return_exceptions=True)` delivered for one probe
   * coroutine: an `Exception` instance, or the probe's own return after the measured time.
   */
  datatype Attempt = Raised | Finished(latencyMs: real, reply: Reply)

  /** One joined result, as `run_one_config` sees it. */
  datatype Gathered = Crash | Clean(latencyMs: real, ok: bool)

  const TimelinePath: string := "/api/timeline"

  /** Python's `s.rstrip(c)` for a single character `c`. */
  function RStrip(s: string, c: char): (r: string)
    ensures |r| <= |s| && r == s[..|r|]
    ensures r == [] || r[|r| - 1] != c
    ensures forall i :: |r| <= i < |s| ==> s[i] == c
    decreases |s|
  {
    if s != [] && s[|s| - 1] == c then RStrip(s[..|s| - 1], c) else s
  }

  function Slashes(k: nat): (r: string)
    ensures |r| == k && forall i :: 0 <= i < k ==> r[i] == '/'
  {
    seq(k, _ => '/')
  }

  /** `f"{base_url.rstrip('/')}/api/timeline"`. */
  function TimelineUrl(base: string): string
  {
    RStrip(base, '/') + TimelinePath
  }

  /** The request of one probe: query `user=<username>` and `limit=str(limit)`. */
  function TimelineRequest(base: string, user: string, limit: int): Request
  {
    Request(TimelineUrl(base), user, IntToString(limit))
  }

  /** Trailing slashes on the base address never reach the URL. */
  lemma {:induction false} UrlIgnoresTrailingSlashes(base: string, k: nat)
    ensures TimelineUrl(base + Slashes(k)) == TimelineUrl(base)
  {
    if k > 0 {
      var s := base + Slashes(k);
      assert s[|s| - 1] == '/';
      assert s[..|s| - 1] == base + Slashes(k - 1);
      UrlIgnoresTrailingSlashes(base, k - 1);
    } else {
      assert base + Slashes(k) == base;
    }
  }

  /** A base address without a trailing slash is used as it is. */
  lemma UrlOfCleanBase(base: string)
    requires base == [] || base[|base| - 1] != '/'
    ensures TimelineUrl(base) == base + "/api/timeline"
  {
  }

  /**
   * The joined result of one probe: a coroutine that raised is a crash; otherwise
   * the latency is kept and the probe succeeded iff a response came back with
   * status exactly 200 (a transport error or any other status is a failure).
   */
  function Classify(a: Attempt): (g: Gathered)
    ensures g.Crash? <==> a.Raised?
    ensures a.Finished? ==> g.Clean? && g.latencyMs == a.latencyMs
    ensures g.Clean? ==> (g.ok <==> a.reply.Status? && a.reply.code == 200)
  {
    match a
    case Raised => Crash
    case Finished(latency, reply) => Clean(latency, reply == Status(200))
  }
}
