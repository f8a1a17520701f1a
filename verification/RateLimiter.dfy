/** The failed-auth limiter of the dashboard (packages/dashboard/src/server.ts). */
module RateLimiter {
  import opened Prelude

  const RATE_LIMIT_MAX: nat := 10
  const RATE_LIMIT_WINDOW_MS: nat := 60 * 1000

  datatype Entry = Entry(count: nat, windowStart: int)

  type Table = map<string, Entry>

  /** `authFails` is what the handlers answer when the request reaches them. */
  datatype Request = Request(ip: string, now: int, authFails: bool)

  datatype Response = TooManyRequests | Unauthorized | Passed

  predicate Refused(t: Table, r: Request) {
    && r.ip in t
    && r.now - t[r.ip].windowStart < RATE_LIMIT_WINDOW_MS
    && t[r.ip].count > RATE_LIMIT_MAX
  }

  function Counted(t: Table, ip: string, now: int): Entry {
    if ip in t && now - t[ip].windowStart < RATE_LIMIT_WINDOW_MS then Entry(t[ip].count + 1, t[ip].windowStart) else Entry(1, now)
  }

  function Answer(t: Table, r: Request): (Table, Response) {
    if Refused(t, r) then (t, TooManyRequests)
    else if r.authFails then (t[r.ip := Counted(t, r.ip, r.now)], Unauthorized)
    else (t, Passed)
  }

  class Middleware {
    var rateLimitMap: Table

    constructor ()
      ensures rateLimitMap == map[]
    {
      rateLimitMap := map[];
    }

    method Handle(r: Request) returns (response: Response)
      modifies this
      ensures (rateLimitMap, response) == Answer(old(rateLimitMap), r)
    {
      if r.ip in rateLimitMap {
        var entry := rateLimitMap[r.ip];
        if r.now - entry.windowStart < RATE_LIMIT_WINDOW_MS && entry.count > RATE_LIMIT_MAX {
          return TooManyRequests;
        }
      }
      if !r.authFails {
        return Passed;
      }
      if r.ip in rateLimitMap && r.now - rateLimitMap[r.ip].windowStart < RATE_LIMIT_WINDOW_MS {
        var e := rateLimitMap[r.ip];
        rateLimitMap := rateLimitMap[r.ip := Entry(e.count + 1, e.windowStart)];
      } else {
        assert (rateLimitMap - {r.ip})[r.ip := Entry(1, r.now)] == rateLimitMap[r.ip := Entry(1, r.now)];
        rateLimitMap := rateLimitMap - {r.ip};
        rateLimitMap := rateLimitMap[r.ip := Entry(1, r.now)];
      }
      return Unauthorized;
    }
  }

  // ---------------------------------------------------------------- runs

  function Run(requests: seq<Request>): Table {
    if requests == [] then map[] else Answer(Run(requests[..|requests| - 1]), requests[|requests| - 1]).0
  }

  ghost predicate Sequential(requests: seq<Request>) {
    forall i, j :: 0 <= i <= j < |requests| ==> requests[i].now <= requests[j].now
  }

  /** A failed-auth response of one address: when it was given, in which window, and as which of it. */
  datatype Failure = Failure(at: int, windowStart: int, ordinal: nat)

  /** The failed-auth responses that `ip` has been given. */
  function Failures(requests: seq<Request>, ip: string): seq<Failure> {
    if requests == [] then []
    else
      var init, last := requests[..|requests| - 1], requests[|requests| - 1];
      var rest, (t, response) := Failures(init, ip), Answer(Run(init), last);
      if last.ip == ip && response == Unauthorized then rest + [Failure(last.now, t[ip].windowStart, t[ip].count)] else rest
  }

  predicate Opens(f: Failure) {
    f.ordinal == 1 && f.windowStart == f.at
  }

  /** The next failure is counted in the same window, or opens a later one. */
  predicate Follows(f: Failure, g: Failure) {
    && f.at <= g.at
    && if g.at - f.windowStart < RATE_LIMIT_WINDOW_MS then g.windowStart == f.windowStart && g.ordinal == f.ordinal + 1 else Opens(g)
  }

  ghost predicate WellCounted(fs: seq<Failure>) {
    && (fs != [] ==> Opens(fs[0]))
    && (forall i :: 0 < i < |fs| ==> Follows(fs[i - 1], fs[i]))
    && (forall i :: 0 <= i < |fs| ==>
          1 <= fs[i].ordinal <= RATE_LIMIT_MAX + 1 && fs[i].windowStart <= fs[i].at < fs[i].windowStart + RATE_LIMIT_WINDOW_MS)
  }

  lemma CountNext(fs: seq<Failure>, f: Failure)
    requires WellCounted(fs) && 1 <= f.ordinal <= RATE_LIMIT_MAX + 1
    requires f.windowStart <= f.at < f.windowStart + RATE_LIMIT_WINDOW_MS
    requires if fs == [] then Opens(f) else Follows(fs[|fs| - 1], f)
    ensures WellCounted(fs + [f])
  {
  }

  lemma {:induction false} FailuresCounted(requests: seq<Request>, ip: string)
    requires Sequential(requests)
    ensures var t, fs := Run(requests), Failures(requests, ip);
            && WellCounted(fs)
            && (ip in t <==> fs != [])
            && (fs != [] ==> t[ip] == Entry(fs[|fs| - 1].ordinal, fs[|fs| - 1].windowStart))
            && (fs != [] ==> fs[|fs| - 1].at <= requests[|requests| - 1].now)
  {
    if requests != [] {
      var init, last := requests[..|requests| - 1], requests[|requests| - 1];
      FailuresCounted(init, ip);
      var t, fs := Answer(Run(init), last).0, Failures(init, ip);
      assert fs != [] ==> fs[|fs| - 1].at <= last.now;
      if Failures(requests, ip) != fs {
        CountNext(fs, Failure(last.now, t[ip].windowStart, t[ip].count));
      }
    }
  }

  /** From one failure on, the window stays and the ordinal counts, until a failure opens the next window. */
  lemma {:induction false} SameWindow(fs: seq<Failure>, a: nat, b: nat)
    requires WellCounted(fs) && a <= b < |fs| && forall m :: a < m <= b ==> !Opens(fs[m])
    ensures fs[b].windowStart == fs[a].windowStart && fs[b].ordinal == fs[a].ordinal + (b - a)
    ensures fs[a].at <= fs[b].at
  {
    if a < b {
      SameWindow(fs, a, b - 1);
      assert Follows(fs[b - 1], fs[b]);
    }
  }

  lemma {:induction false} InOrder(fs: seq<Failure>, a: nat, b: nat)
    requires WellCounted(fs) && a <= b < |fs|
    ensures fs[a].at <= fs[b].at
  {
    if a < b {
      InOrder(fs, a, b - 1);
      assert Follows(fs[b - 1], fs[b]);
    }
  }

  lemma {:induction false} FirstOpening(fs: seq<Failure>, a: nat, b: nat) returns (m: nat)
    requires WellCounted(fs) && a <= b < |fs|
    ensures a < m <= b + 1 && (forall i :: a < i < m ==> !Opens(fs[i])) && (m <= b ==> Opens(fs[m]))
  {
    m := a + 1;
    while m <= b && !Opens(fs[m])
      invariant a < m <= b + 1 && forall i :: a < i < m ==> !Opens(fs[i])
    {
      m := m + 1;
    }
  }

  /** A window that opens after another started does so at least a window's length later. */
  lemma OpensLater(fs: seq<Failure>, a: nat, m: nat)
    requires WellCounted(fs) && a < m < |fs| && Opens(fs[m]) && forall i :: a < i < m ==> !Opens(fs[i])
    ensures fs[m].at - fs[a].windowStart >= RATE_LIMIT_WINDOW_MS
  {
    SameWindow(fs, a, m - 1);
    assert Follows(fs[m - 1], fs[m]);
  }

  /** At most 11 failures are answered in one window. */
  lemma WindowBound(fs: seq<Failure>, a: nat, b: nat)
    requires WellCounted(fs) && a <= b < |fs| && forall m :: a < m <= b ==> !Opens(fs[m])
    ensures b - a + 1 <= 11
  {
    SameWindow(fs, a, b);
  }

  /** Any failures within less than one window's length are at most 21, and within exactly one at most 22. */
  lemma SlidingBound(requests: seq<Request>, ip: string, a: nat, b: nat)
    requires Sequential(requests) && a <= b < |Failures(requests, ip)|
    ensures var fs := Failures(requests, ip);
            && (fs[b].at - fs[a].at < 60_000 ==> b - a + 1 <= 21)
            && (fs[b].at - fs[a].at <= 60_000 ==> b - a + 1 <= 22)
  {
    var fs := Failures(requests, ip);
    FailuresCounted(requests, ip);
    FirstIsStart(fs, a);
    var m := FirstOpening(fs, a, b);
    SameWindow(fs, a, m - 1);
    InOrder(fs, a, b);
    if m <= b {
      OpensLater(fs, a, m);
      var n := FirstOpening(fs, m, b);
      SameWindow(fs, m, n - 1);
      InOrder(fs, m, b);
      if n <= b {
        OpensLater(fs, m, n);
        InOrder(fs, n, b);
      }
    }
  }

  lemma {:induction false} FirstIsStart(fs: seq<Failure>, a: nat)
    requires WellCounted(fs) && a < |fs|
    ensures fs[a].ordinal == 1 ==> fs[a].windowStart == fs[a].at
  {
    if a > 0 {
      assert Follows(fs[a - 1], fs[a]);
    }
  }

  // ---------------------------------------------------------------- who is refused

  /** An address is refused exactly while its last window is open and used up. */
  lemma {:induction false} RefusedExactly(requests: seq<Request>, r: Request)
    requires Sequential(requests)
    ensures var fs := Failures(requests, r.ip);
            Answer(Run(requests), r).1 == TooManyRequests
            <==> fs != [] && fs[|fs| - 1].ordinal == 11 && r.now < fs[|fs| - 1].windowStart + 60_000
  {
    FailuresCounted(requests, r.ip);
  }

  /** So it has had 11 failures in the last minute, and one that never failed is never refused. */
  lemma RefusedAfterEleven(requests: seq<Request>, r: Request)
    requires Sequential(requests) && Answer(Run(requests), r).1 == TooManyRequests
    ensures var fs := Failures(requests, r.ip);
            |fs| >= 11 && r.now - fs[|fs| - 11].at < 60_000
  {
    var fs := Failures(requests, r.ip);
    FailuresCounted(requests, r.ip);
    RefusedExactly(requests, r);
    OpeningOf(fs, |fs| - 1);
  }

  lemma {:induction false} OpeningOf(fs: seq<Failure>, b: nat)
    requires WellCounted(fs) && b < |fs|
    ensures fs[b].ordinal <= b + 1 && fs[b + 1 - fs[b].ordinal].at == fs[b].windowStart
  {
    if b > 0 {
      assert Follows(fs[b - 1], fs[b]);
      OpeningOf(fs, b - 1);
    }
  }

  // ---------------------------------------------------------------- the bounds are attained

  function Burst(ip: string, now: int, n: nat): seq<Request> {
    if n == 0 then [] else Burst(ip, now, n - 1) + [Request(ip, now, true)]
  }

  lemma FailOnce(before: seq<Request>, ip: string, now: int)
    requires !Refused(Run(before), Request(ip, now, true))
    ensures var after, e := before + [Request(ip, now, true)], Counted(Run(before), ip, now);
            && Failures(after, ip) == Failures(before, ip) + [Failure(now, e.windowStart, e.count)]
            && Run(after) == Run(before)[ip := e]
  {
    InSnoc(before, Request(ip, now, true), Request(ip, now, true));
  }

  /** What `n` failures at one time leave, counted from the entry `e`. */
  ghost predicate FailedAt(fs: seq<Failure>, after: seq<Request>, ip: string, now: int, n: nat, e: Entry) {
    && |Failures(after, ip)| == |fs| + n
    && fs <= Failures(after, ip)
    && (forall i :: |fs| <= i < |fs| + n ==> Failures(after, ip)[i].at == now)
    && ip in Run(after) && Run(after)[ip] == Entry(e.count + n, e.windowStart)
  }

  lemma FailAgain(fs: seq<Failure>, before: seq<Request>, ip: string, now: int, n: nat, e: Entry)
    requires FailedAt(fs, before, ip, now, n, e)
    requires e.count + n <= RATE_LIMIT_MAX && now - e.windowStart < RATE_LIMIT_WINDOW_MS
    ensures FailedAt(fs, before + [Request(ip, now, true)], ip, now, n + 1, e)
  {
    FailOnce(before, ip, now);
  }

  /** `n` more failed requests at one time, as long as the window has room for them. */
  lemma {:induction false} BurstFails(fs: seq<Failure>, requests: seq<Request>, ip: string, now: int, k: nat, n: nat, e: Entry)
    requires FailedAt(fs, requests, ip, now, k, e)
    requires e.count + k + n <= RATE_LIMIT_MAX + 1 && now - e.windowStart < RATE_LIMIT_WINDOW_MS
    ensures FailedAt(fs, requests + Burst(ip, now, n), ip, now, k + n, e)
    decreases n
  {
    if n == 0 {
      assert requests + [] == requests;
    } else {
      BurstFails(fs, requests, ip, now, k, n - 1, e);
      FailAgain(fs, requests + Burst(ip, now, n - 1), ip, now, k + n - 1, e);
      assert requests + Burst(ip, now, n) == (requests + Burst(ip, now, n - 1)) + [Request(ip, now, true)];
    }
  }

  function Worst(ip: string): seq<Request> {
    var w := RATE_LIMIT_WINDOW_MS;
    [Request(ip, 0, true)] + Burst(ip, w - 1, 10) + [Request(ip, w, true)] + Burst(ip, w, 10)
  }

  lemma WorstIsSequential(ip: string)
    ensures Sequential(Worst(ip))
  {
    BurstTimes(ip, RATE_LIMIT_WINDOW_MS - 1, 10);
    BurstTimes(ip, RATE_LIMIT_WINDOW_MS, 10);
  }

  /** 21 failures in less than a minute, and a 22nd a full minute after the first. */
  lemma BoundsAttained(ip: string)
    ensures Sequential(Worst(ip))
    ensures var fs := Failures(Worst(ip), ip);
            && |fs| == 22
            && fs[21].at - fs[1].at < 60_000
            && fs[21].at - fs[0].at == 60_000
  {
    var w := RATE_LIMIT_WINDOW_MS;
    var a := [Request(ip, 0, true)];
    assert [] + a == a;
    FailOnce([], ip, 0);
    BurstFails(Failures(a, ip), a, ip, w - 1, 0, 10, Entry(1, 0));
    var b := a + Burst(ip, w - 1, 10);
    FailOnce(b, ip, w);
    BurstFails(Failures(b, ip), b + [Request(ip, w, true)], ip, w, 1, 10, Entry(0, w));
    WorstIsSequential(ip);
  }

  lemma {:induction false} BurstTimes(ip: string, now: int, n: nat)
    ensures |Burst(ip, now, n)| == n && forall i :: 0 <= i < n ==> Burst(ip, now, n)[i].now == now
  {
    if n > 0 {
      BurstTimes(ip, now, n - 1);
    }
  }
}
