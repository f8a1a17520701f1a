/**
 * `consumeAgentStream` (packages/core/src/executor/agent-stream.ts): accounting for an agent's
 * message stream under two deadlines and an abort signal. Time is in milliseconds and the
 * loop body takes none.
 */
module StreamWatchdog {
  import opened Prelude

  datatype Usage = Usage(input: Option<int>, output: Option<int>, cacheCreation: Option<int>, cacheRead: Option<int>)
  datatype Part = Part(kind: string, text: Option<string>)
  datatype Content = Plain(text: string) | Parts(parts: seq<Part>)
  datatype Inner = InnerText(text: string) | InnerMessage(content: Option<Content>, usage: Option<Usage>)
  datatype Message = Message(kind: string, usage: Option<Usage>, content: Option<Content>, inner: Option<Inner>)

  /** How `iterator.next()` settles: with a message, at the end of the iteration, or by rejecting. */
  datatype Settled = Next(message: Message) | Done | Rejected(error: string)

  /** The n-th settlement. `winsTie` says whether it is handled before a timer that is due in the same millisecond. */
  datatype Arrival = Arrival(at: int, winsTie: bool, value: Settled)

  /** When the abort signal fires, and whether it is handled before other events of that millisecond. */
  datatype Abort = Abort(at: int, winsTie: bool)

  datatype Options = Options(progressTimeoutMs: nat, firstMessageTimeoutMs: nat)

  datatype Totals = Totals(inputTokens: int, outputTokens: int, cacheCreation: int, cacheRead: int, turns: nat, messageCount: nat, lastText: string)

  const NOTHING := Totals(0, 0, 0, 0, 0, 0, "")

  datatype Outcome =
    | Completed(at: int, totals: Totals)
    | Stalled(at: int, stalledForMs: int, stats: Totals)
    | PreStreamStalled(at: int, timeoutMs: int)
    | Cancelled(at: int)
    | Thrown(at: int, error: string)

  // ---------------------------------------------------------------- one message

  function OrZero(n: Option<int>): int {
    if n.Some? then n.value else 0
  }

  /** `message.usage ?? message.message.usage`. */
  function UsageOf(m: Message): Option<Usage> {
    if m.usage.Some? then m.usage
    else if m.inner.Some? && m.inner.value.InnerMessage? then m.inner.value.usage
    else None
  }

  function OutputOf(m: Message): int {
    if UsageOf(m).Some? then OrZero(UsageOf(m).value.output) else 0
  }

  function JoinTexts(parts: seq<Part>, first: bool): string {
    if parts == [] then ""
    else if parts[0].kind != "text" then JoinTexts(parts[1..], first)
    else (if first then "" else "\n") + (if parts[0].text.Some? then parts[0].text.value else "") + JoinTexts(parts[1..], false)
  }

  function ExtractText(c: Content): string {
    match c
    case Plain(text) => text
    case Parts(parts) => JoinTexts(parts, true)
  }

  /** An empty string is falsy, an array never is. */
  function TextOf(m: Message): string {
    if m.content.Some? && m.content.value != Plain("") then ExtractText(m.content.value)
    else
      match m.inner
      case None => ""
      case Some(InnerText(text)) => text
      case Some(InnerMessage(content, _)) => if content.Some? then ExtractText(content.value) else ""
  }

  function Account(t: Totals, m: Message): Totals {
    var u := UsageOf(m);
    var t := t.(messageCount := t.messageCount + 1);
    var t := if u.None? then t else
      t.(inputTokens := t.inputTokens + OrZero(u.value.input), outputTokens := t.outputTokens + OrZero(u.value.output),
         cacheCreation := t.cacheCreation + OrZero(u.value.cacheCreation), cacheRead := t.cacheRead + OrZero(u.value.cacheRead));
    if m.kind != "assistant" then t
    else t.(turns := t.turns + 1, lastText := if TextOf(m) != "" then TextOf(m) else t.lastText)
  }

  /** Observable progress: an assistant turn, or more output tokens. */
  predicate Progresses(m: Message) {
    m.kind == "assistant" || OutputOf(m) > 0
  }

  // ---------------------------------------------------------------- the loop

  datatype Watch = Watch(now: int, lastAdvanceAt: int, firstMessageReceived: bool, totals: Totals)

  function Max(a: int, b: int): int { if a < b then b else a }
  function Min(a: int, b: int): int { if a < b then a else b }

  /** When the timer set at `w.now` fires: the sooner deadline, clamped to now. */
  function TimerAt(w: Watch, start: int, opts: Options): int {
    var stall := w.lastAdvanceAt + opts.progressTimeoutMs;
    Max(w.now, if w.firstMessageReceived then stall else Min(stall, start + opts.firstMessageTimeoutMs))
  }

  /** `iterator.next()` settles before the timer; one that has already settled is handled first of all. */
  predicate BeatsTimer(a: Arrival, w: Watch, start: int, opts: Options) {
    a.at <= w.now || a.at < TimerAt(w, start, opts) || (a.at == TimerAt(w, start, opts) && a.winsTie)
  }

  /** The abort wins the race against an event due at `t`. */
  predicate AbortFirst(abort: Option<Abort>, t: int) {
    abort.Some? && (abort.value.at < t || (abort.value.at == t && abort.value.winsTie))
  }

  function StallOutcome(w: Watch, start: int, opts: Options): Outcome {
    var at := TimerAt(w, start, opts);
    if !w.firstMessageReceived then PreStreamStalled(at, opts.firstMessageTimeoutMs)
    else Stalled(at, at - w.lastAdvanceAt, w.totals)
  }

  function Receive(w: Watch, at: int, m: Message): Watch {
    var now := Max(w.now, at);
    Watch(now, if Progresses(m) then now else w.lastAdvanceAt, true, Account(w.totals, m))
  }

  /** The outcome of the loop from its state `w` on, when the settlements still to come are `arrivals`. */
  function Consume(arrivals: seq<Arrival>, w: Watch, start: int, opts: Options, abort: Option<Abort>): Outcome {
    var next := if arrivals != [] && BeatsTimer(arrivals[0], w, start, opts) then Max(w.now, arrivals[0].at) else TimerAt(w, start, opts);
    if AbortFirst(abort, next) then Cancelled(Max(w.now, abort.value.at))
    else if arrivals == [] || !BeatsTimer(arrivals[0], w, start, opts) then StallOutcome(w, start, opts)
    else if arrivals[0].value.Done? then Completed(next, w.totals)
    else if arrivals[0].value.Rejected? then Thrown(next, arrivals[0].value.error)
    else Consume(arrivals[1..], Receive(w, arrivals[0].at, arrivals[0].value.message), start, opts, abort)
  }

  function ConsumeAgentStream(arrivals: seq<Arrival>, start: int, opts: Options, abort: Option<Abort>): Outcome {
    if AbortFirst(abort, start) then Cancelled(start)
    else Consume(arrivals, Watch(start, start, false, NOTHING), start, opts, abort)
  }

  method RunStream(arrivals: seq<Arrival>, start: int, opts: Options, abort: Option<Abort>) returns (o: Outcome)
    ensures o == ConsumeAgentStream(arrivals, start, opts, abort)
    ensures Accounted(o, arrivals)
  {
    StreamAccounted(arrivals, start, opts, abort);
    if AbortFirst(abort, start) {
      return Cancelled(start);
    }
    var inputTokens, outputTokens, cacheCreation, cacheRead := 0, 0, 0, 0;
    var turns, messageCount, lastText := 0, 0, "";
    var now, lastAdvanceAt, firstMessageReceived := start, start, false;
    var i := 0;
    while true
      invariant 0 <= i <= |arrivals|
      invariant Consume(arrivals[i..], Watch(now, lastAdvanceAt, firstMessageReceived,
                  Totals(inputTokens, outputTokens, cacheCreation, cacheRead, turns, messageCount, lastText)), start, opts, abort)
             == ConsumeAgentStream(arrivals, start, opts, abort)
      decreases |arrivals| - i
    {
      var stallRemaining := opts.progressTimeoutMs - (now - lastAdvanceAt);
      var remaining := Max(if firstMessageReceived then stallRemaining
                           else Min(stallRemaining, opts.firstMessageTimeoutMs - (now - start)), 0);
      ghost var totals := Totals(inputTokens, outputTokens, cacheCreation, cacheRead, turns, messageCount, lastText);
      ghost var w := Watch(now, lastAdvanceAt, firstMessageReceived, totals);
      assert now + remaining == TimerAt(w, start, opts);
      var settles := i < |arrivals| &&
                     (arrivals[i].at <= now || arrivals[i].at < now + remaining || (arrivals[i].at == now + remaining && arrivals[i].winsTie));
      var next := if settles then Max(now, arrivals[i].at) else now + remaining;
      assert arrivals[i..] != [] ==> arrivals[i..][0] == arrivals[i] && arrivals[i..][1..] == arrivals[i + 1..];
      if AbortFirst(abort, next) {
        return Cancelled(Max(now, abort.value.at));
      }
      if !settles {
        if !firstMessageReceived {
          return PreStreamStalled(next, opts.firstMessageTimeoutMs);
        }
        return Stalled(next, next - lastAdvanceAt, Totals(inputTokens, outputTokens, cacheCreation, cacheRead, turns, messageCount, lastText));
      }
      if arrivals[i].value.Rejected? {
        return Thrown(next, arrivals[i].value.error);
      }
      if arrivals[i].value.Done? {
        return Completed(next, Totals(inputTokens, outputTokens, cacheCreation, cacheRead, turns, messageCount, lastText));
      }
      now := next;
      firstMessageReceived := true;
      var message := arrivals[i].value.message;
      messageCount := messageCount + 1;
      var prevOutputTokens := outputTokens;
      var usage := UsageOf(message);
      if usage.Some? {
        inputTokens := inputTokens + OrZero(usage.value.input);
        outputTokens := outputTokens + OrZero(usage.value.output);
        cacheCreation := cacheCreation + OrZero(usage.value.cacheCreation);
        cacheRead := cacheRead + OrZero(usage.value.cacheRead);
      }
      if message.kind == "assistant" {
        var text := TextOf(message);
        if text != "" {
          lastText := text;
        }
        turns := turns + 1;
      }
      if outputTokens > prevOutputTokens || message.kind == "assistant" {
        lastAdvanceAt := now;
      }
      i := i + 1;
      assert Watch(now, lastAdvanceAt, firstMessageReceived,
               Totals(inputTokens, outputTokens, cacheCreation, cacheRead, turns, messageCount, lastText))
          == Receive(w, arrivals[i - 1].at, message);
    }
  }

  // ---------------------------------------------------------------- a specification without the loop

  /** Settlements come one after another, none before the start. */
  ghost predicate Ordered(arrivals: seq<Arrival>, start: int) {
    && (forall i :: 0 <= i < |arrivals| ==> start <= arrivals[i].at)
    && (forall i, j :: 0 <= i < j < |arrivals| ==> arrivals[i].at <= arrivals[j].at)
  }

  /** The usage a message reports: its own if it has one, else the nested message's, else none of anything. */
  ghost predicate Reports(m: Message, u: Usage) {
    && (m.usage.Some? ==> u == m.usage.value)
    && (m.usage.None? ==>
          match m.inner
          case Some(InnerMessage(_, Some(nested))) => u == nested
          case _ => u == Usage(None, None, None, None))
  }

  /** Observable progress: an assistant turn, or output tokens. */
  ghost predicate Advances(m: Message) {
    m.kind == "assistant" || exists u :: Reports(m, u) && u.output.Some? && u.output.value > 0
  }

  lemma ReportsUsage(m: Message)
    ensures Reports(m, if UsageOf(m).Some? then UsageOf(m).value else Usage(None, None, None, None))
  {
  }

  lemma ProgressAdvances(m: Message)
    ensures Progresses(m) <==> Advances(m)
  {
    ReportsUsage(m);
  }

  /** The time of the last progress among the first `n` settlements. */
  ghost function LastProgress(arrivals: seq<Arrival>, n: nat, start: int): int
    requires n <= |arrivals|
  {
    if n == 0 then start
    else if arrivals[n - 1].value.Next? && Advances(arrivals[n - 1].value.message) then arrivals[n - 1].at
    else LastProgress(arrivals, n - 1, start)
  }

  /** The deadline for settlement number `n`. */
  ghost function Deadline(arrivals: seq<Arrival>, n: nat, start: int, opts: Options): int
    requires n <= |arrivals|
  {
    if n == 0 then start + if opts.progressTimeoutMs < opts.firstMessageTimeoutMs then opts.progressTimeoutMs else opts.firstMessageTimeoutMs
    else LastProgress(arrivals, n, start) + opts.progressTimeoutMs
  }

  ghost predicate OnTime(arrivals: seq<Arrival>, n: nat, start: int, opts: Options)
    requires n <= |arrivals|
  {
    && n < |arrivals|
    && (arrivals[n].at < Deadline(arrivals, n, start, opts)
        || (arrivals[n].at == Deadline(arrivals, n, start, opts) && (arrivals[n].winsTie || arrivals[n].at <= Clock(arrivals, n, start))))
  }

  /** The time at which the loop waits for settlement number `n`. */
  function Clock(arrivals: seq<Arrival>, n: nat, start: int): int
    requires n <= |arrivals|
  {
    if n == 0 then start else arrivals[n - 1].at
  }

  function AccountAll(arrivals: seq<Arrival>, n: nat): Totals
    requires n <= |arrivals|
  {
    if n == 0 then NOTHING
    else
      var t := AccountAll(arrivals, n - 1);
      if arrivals[n - 1].value.Next? then Account(t, arrivals[n - 1].value.message) else t
  }

  /** The first `n` settlements are messages and each came before its deadline. */
  ghost predicate Flows(arrivals: seq<Arrival>, n: nat, start: int, opts: Options)
    requires n <= |arrivals|
  {
    forall i :: 0 <= i < n ==> arrivals[i].value.Next? && OnTime(arrivals, i, start, opts)
  }

  ghost function WatchAt(arrivals: seq<Arrival>, n: nat, start: int): Watch
    requires n <= |arrivals|
  {
    Watch(Clock(arrivals, n, start), LastProgress(arrivals, n, start), n > 0, AccountAll(arrivals, n))
  }

  lemma {:induction false} LastProgressBounds(arrivals: seq<Arrival>, n: nat, start: int)
    requires n <= |arrivals| && Ordered(arrivals, start)
    ensures start <= LastProgress(arrivals, n, start) <= Clock(arrivals, n, start)
  {
    if n > 0 {
      LastProgressBounds(arrivals, n - 1, start);
    }
  }

  lemma {:induction false} ClockBeforeDeadline(arrivals: seq<Arrival>, n: nat, start: int, opts: Options)
    requires n <= |arrivals| && Ordered(arrivals, start) && Flows(arrivals, n, start, opts)
    ensures Clock(arrivals, n, start) <= Deadline(arrivals, n, start, opts)
    ensures TimerAt(WatchAt(arrivals, n, start), start, opts) == Deadline(arrivals, n, start, opts)
  {
    LastProgressBounds(arrivals, n, start);
    if n > 0 {
      assert OnTime(arrivals, n - 1, start, opts);
      LastProgressBounds(arrivals, n - 1, start);
    }
  }

  /** After `n` timely messages and no abort so far, the loop is in the state the specification names. */
  lemma {:induction false} LoopReaches(arrivals: seq<Arrival>, n: nat, start: int, opts: Options, abort: Option<Abort>)
    requires n <= |arrivals| && Ordered(arrivals, start) && Flows(arrivals, n, start, opts)
    requires !AbortFirst(abort, Clock(arrivals, n, start))
    ensures ConsumeAgentStream(arrivals, start, opts, abort) == Consume(arrivals[n..], WatchAt(arrivals, n, start), start, opts, abort)
  {
    if n == 0 {
      assert arrivals[0..] == arrivals;
    } else {
      var m := n - 1;
      assert OnTime(arrivals, m, start, opts);
      assert Clock(arrivals, m, start) <= Clock(arrivals, n, start);
      assert Flows(arrivals, m, start, opts);
      LoopReaches(arrivals, m, start, opts, abort);
      ClockBeforeDeadline(arrivals, m, start, opts);
      LastProgressBounds(arrivals, m, start);
      assert arrivals[m..][0] == arrivals[m] && arrivals[m..][1..] == arrivals[n..];
      ProgressAdvances(arrivals[m].value.message);
      assert Receive(WatchAt(arrivals, m, start), arrivals[m].at, arrivals[m].value.message) == WatchAt(arrivals, n, start);
    }
  }

  /** The end, or an error of the iterator, that comes in time after timely messages; the result accounts for all of them. */
  lemma CompletesInTime(arrivals: seq<Arrival>, n: nat, start: int, opts: Options, abort: Option<Abort>)
    requires n < |arrivals| && Ordered(arrivals, start) && Flows(arrivals, n, start, opts)
    requires !arrivals[n].value.Next? && OnTime(arrivals, n, start, opts)
    requires !AbortFirst(abort, arrivals[n].at)
    ensures ConsumeAgentStream(arrivals, start, opts, abort) ==
            if arrivals[n].value.Done? then Completed(arrivals[n].at, AccountAll(arrivals, n))
            else Thrown(arrivals[n].at, arrivals[n].value.error)
  {
    LoopReaches(arrivals, n, start, opts, abort);
    ClockBeforeDeadline(arrivals, n, start, opts);
    assert arrivals[n..][0] == arrivals[n];
  }

  /**
   * Silence, exactly: when settlement `n` misses its deadline the stream fails at that deadline, as a
   * pre-stream stall if no message ever came and otherwise as a stall of exactly `progressTimeoutMs`
   * since the last progress, with the statistics of the messages received.
   */
  lemma StallsAtDeadline(arrivals: seq<Arrival>, n: nat, start: int, opts: Options, abort: Option<Abort>)
    requires n <= |arrivals| && Ordered(arrivals, start) && Flows(arrivals, n, start, opts)
    requires !OnTime(arrivals, n, start, opts)
    requires !AbortFirst(abort, Deadline(arrivals, n, start, opts))
    ensures ConsumeAgentStream(arrivals, start, opts, abort) ==
            if n == 0 then PreStreamStalled(Deadline(arrivals, 0, start, opts), opts.firstMessageTimeoutMs)
            else Stalled(LastProgress(arrivals, n, start) + opts.progressTimeoutMs, opts.progressTimeoutMs, AccountAll(arrivals, n))
  {
    ClockBeforeDeadline(arrivals, n, start, opts);
    LoopReaches(arrivals, n, start, opts, abort);
    if n < |arrivals| {
      assert arrivals[n..][0] == arrivals[n];
    }
  }

  /** The number of settlements the stream keeps up with: the next one is late, missing, the end or an error. */
  ghost function Kept(arrivals: seq<Arrival>, n: nat, start: int, opts: Options): (k: nat)
    requires n <= |arrivals| && Flows(arrivals, n, start, opts)
    ensures n <= k <= |arrivals| && Flows(arrivals, k, start, opts)
    ensures !OnTime(arrivals, k, start, opts) || !arrivals[k].value.Next?
    decreases |arrivals| - n
  {
    if OnTime(arrivals, n, start, opts) && arrivals[n].value.Next? then Kept(arrivals, n + 1, start, opts) else n
  }

  /**
   * Without an abort, the outcome is decided by the deadlines and the settlements alone, in both directions:
   * pre-stream exactly when nothing settles before the earlier of the two deadlines, stalled exactly
   * when a later settlement misses its own, and completed or failed as the settlement in time says otherwise.
   */
  lemma OutcomeExact(arrivals: seq<Arrival>, start: int, opts: Options)
    requires Ordered(arrivals, start)
    ensures var o := ConsumeAgentStream(arrivals, start, opts, None);
            var k := Kept(arrivals, 0, start, opts);
            && (o.PreStreamStalled? <==> !OnTime(arrivals, 0, start, opts))
            && (o.PreStreamStalled? ==> o.at == Deadline(arrivals, 0, start, opts) && o.timeoutMs == opts.firstMessageTimeoutMs)
            && (o.Stalled? <==> k > 0 && !OnTime(arrivals, k, start, opts))
            && (o.Completed? <==> OnTime(arrivals, k, start, opts) && arrivals[k].value.Done?)
            && (o.Thrown? <==> OnTime(arrivals, k, start, opts) && arrivals[k].value.Rejected?)
            && (o.Stalled? ==> o.stalledForMs == opts.progressTimeoutMs && o.at == LastProgress(arrivals, k, start) + opts.progressTimeoutMs
                               && Accounts(o.stats, arrivals, k))
            && (o.Completed? ==> o.at == arrivals[k].at && Accounts(o.totals, arrivals, k))
            && (o.Thrown? ==> o.at == arrivals[k].at && o.error == arrivals[k].value.error)
  {
    var k := Kept(arrivals, 0, start, opts);
    if OnTime(arrivals, k, start, opts) {
      CompletesInTime(arrivals, k, start, opts, None);
    } else {
      StallsAtDeadline(arrivals, k, start, opts, None);
    }
    AccountingAdds(arrivals, k);
    if k > 0 {
      assert OnTime(arrivals, 0, start, opts);
    }
  }

  lemma {:induction false} AbortDecides(arrivals: seq<Arrival>, w: Watch, start: int, opts: Options, abort: Abort)
    ensures var o := Consume(arrivals, w, start, opts, None);
            && w.now <= o.at
            && Consume(arrivals, w, start, opts, Some(abort)) == if AbortFirst(Some(abort), o.at) then Cancelled(Max(w.now, abort.at)) else o
    decreases |arrivals|
  {
    if arrivals != [] && BeatsTimer(arrivals[0], w, start, opts) && arrivals[0].value.Next? {
      AbortDecides(arrivals[1..], Receive(w, arrivals[0].at, arrivals[0].value.message), start, opts, abort);
    }
  }

  /**
   * An abort, exactly: the stream is cancelled, at the moment the signal fires or at once if it had fired before, if and only if
   * that comes before the outcome there would have been; otherwise it changes nothing.
   */
  lemma AbortExact(arrivals: seq<Arrival>, start: int, opts: Options, abort: Abort)
    ensures var o := ConsumeAgentStream(arrivals, start, opts, None);
            ConsumeAgentStream(arrivals, start, opts, Some(abort)) ==
            if abort.at < o.at || (abort.at == o.at && abort.winsTie) then Cancelled(if abort.at < start then start else abort.at) else o
  {
    AbortDecides(arrivals, Watch(start, start, false, NOTHING), start, opts, abort);
  }

  // ---------------------------------------------------------------- bounds

  ghost function CountProgress(arrivals: seq<Arrival>): nat {
    if arrivals == [] then 0
    else (if arrivals[0].value.Next? && Advances(arrivals[0].value.message) then 1 else 0) + CountProgress(arrivals[1..])
  }

  /** `n * t` as repeated addition. */
  function Times(n: nat, t: int): int {
    if n == 0 then 0 else t + Times(n - 1, t)
  }

  /** From any state, k progress messages buy at most k + 1 timeouts; messages without progress buy none, however many come. */
  lemma {:induction false} EndsWithin(arrivals: seq<Arrival>, w: Watch, start: int, opts: Options, abort: Option<Abort>)
    requires start <= w.lastAdvanceAt <= w.now <= w.lastAdvanceAt + opts.progressTimeoutMs
    requires forall i :: 0 <= i < |arrivals| ==> w.now <= arrivals[i].at
    requires forall i, j :: 0 <= i < j < |arrivals| ==> arrivals[i].at <= arrivals[j].at
    ensures Consume(arrivals, w, start, opts, abort).at <= w.lastAdvanceAt + Times(CountProgress(arrivals) + 1, opts.progressTimeoutMs)
    decreases |arrivals|
  {
    assert Times(1, opts.progressTimeoutMs) == opts.progressTimeoutMs;
    TimesGrows(CountProgress(arrivals), opts.progressTimeoutMs);
    if arrivals != [] && BeatsTimer(arrivals[0], w, start, opts) && arrivals[0].value.Next? && !AbortFirst(abort, Max(w.now, arrivals[0].at)) {
      ProgressAdvances(arrivals[0].value.message);
      EndsWithin(arrivals[1..], Receive(w, arrivals[0].at, arrivals[0].value.message), start, opts, abort);
    }
  }

  lemma {:induction false} TimesGrows(n: nat, t: nat)
    ensures Times(n, t) >= 0
  {
    if n > 0 {
      TimesGrows(n - 1, t);
    }
  }

  lemma {:induction false} TimesIsProduct(n: nat, t: int)
    ensures Times(n, t) == n * t
  {
    if n > 0 {
      TimesIsProduct(n - 1, t);
      assert n * t == (n - 1) * t + t;
    }
  }

  /** A stream with k progress messages is over within (k + 1) × `progressTimeoutMs`, whatever else it sends. */
  lemma StreamEndsWithin(arrivals: seq<Arrival>, start: int, opts: Options, abort: Option<Abort>)
    requires Ordered(arrivals, start)
    ensures ConsumeAgentStream(arrivals, start, opts, abort).at <= start + (CountProgress(arrivals) + 1) * opts.progressTimeoutMs
  {
    var k := CountProgress(arrivals) + 1;
    EndsWithin(arrivals, Watch(start, start, false, NOTHING), start, opts, abort);
    TimesGrows(k, opts.progressTimeoutMs);
    TimesIsProduct(k, opts.progressTimeoutMs);
  }

  // ---------------------------------------------------------------- accounting

  ghost predicate AreReports(usages: seq<Usage>, arrivals: seq<Arrival>, n: nat)
    requires n <= |arrivals|
  {
    && |usages| == n
    && forall i :: 0 <= i < n ==> arrivals[i].value.Next? && Reports(arrivals[i].value.message, usages[i])
  }

  function Sum(usages: seq<Usage>, field: Usage -> Option<int>): int {
    if usages == [] then 0
    else
      var n := field(usages[|usages| - 1]);
      Sum(usages[..|usages| - 1], field) + if n.Some? then n.value else 0
  }

  function CountTurns(arrivals: seq<Arrival>, n: nat): nat
    requires n <= |arrivals|
  {
    if n == 0 then 0
    else CountTurns(arrivals, n - 1) + if arrivals[n - 1].value.Next? && arrivals[n - 1].value.message.kind == "assistant" then 1 else 0
  }

  /** The texts of the parts of kind "text", "" for one that has none. */
  function Texts(parts: seq<Part>): seq<string> {
    if parts == [] then []
    else
      var rest, part := Texts(parts[..|parts| - 1]), parts[|parts| - 1];
      if part.kind == "text" then rest + [if part.text.Some? then part.text.value else ""] else rest
  }

  function Lines(texts: seq<string>): string {
    if texts == [] then "" else if |texts| == 1 then texts[0] else Lines(texts[..|texts| - 1]) + "\n" + texts[|texts| - 1]
  }

  ghost predicate IsTextOf(text: string, c: Content) {
    match c
    case Plain(plain) => text == plain
    case Parts(parts) => text == Lines(Texts(parts))
  }

  /** The text of a message: that of its content, unless it has none or it is the empty string; else the nested text or that of the nested content. */
  ghost predicate IsText(text: string, m: Message) {
    var own := m.content.Some? && m.content.value != Plain("");
    && (own ==> IsTextOf(text, m.content.value))
    && (!own ==>
          match m.inner
          case Some(InnerText(inner)) => text == inner
          case Some(InnerMessage(Some(content), _)) => IsTextOf(text, content)
          case _ => text == "")
  }

  ghost predicate ShowsText(text: string, m: Message) {
    m.kind == "assistant" && text != "" && IsText(text, m)
  }

  ghost predicate HasText(m: Message) {
    exists text :: ShowsText(text, m)
  }

  /** The last text of an assistant message that has one. */
  ghost predicate IsLastText(text: string, arrivals: seq<Arrival>, n: nat)
    requires n <= |arrivals|
  {
    if n == 0 then text == ""
    else if arrivals[n - 1].value.Next? && HasText(arrivals[n - 1].value.message) then ShowsText(text, arrivals[n - 1].value.message)
    else IsLastText(text, arrivals, n - 1)
  }

  ghost predicate CountsUsages(t: Totals, usages: seq<Usage>) {
    && t.inputTokens == Sum(usages, (u: Usage) => u.input) && t.outputTokens == Sum(usages, (u: Usage) => u.output)
    && t.cacheCreation == Sum(usages, (u: Usage) => u.cacheCreation) && t.cacheRead == Sum(usages, (u: Usage) => u.cacheRead)
  }

  /** The totals of the first `n` settlements, from the fields of their messages. */
  ghost predicate Accounts(t: Totals, arrivals: seq<Arrival>, n: nat)
    requires n <= |arrivals|
  {
    && t.turns == CountTurns(arrivals, n) && t.messageCount == n && IsLastText(t.lastText, arrivals, n)
    && exists usages :: AreReports(usages, arrivals, n) && CountsUsages(t, usages)
  }

  lemma {:induction false} JoinIsLines(parts: seq<Part>, first: bool)
    ensures JoinTexts(parts, first) == if first || Texts(parts) == [] then Lines(Texts(parts)) else "\n" + Lines(Texts(parts))
  {
    if parts != [] {
      var init, last := parts[..|parts| - 1], parts[|parts| - 1];
      JoinIsLines(init, first);
      assert parts == init + [last];
      JoinSnoc(init, last, first);
      if last.kind == "text" {
        LinesNext(Texts(init), if last.text.Some? then last.text.value else "", first, JoinTexts(init, first));
      }
    }
  }

  lemma LinesNext(texts: seq<string>, text: string, first: bool, joined: string)
    requires joined == if first || texts == [] then Lines(texts) else "\n" + Lines(texts)
    ensures joined + ((if first && texts == [] then "" else "\n") + text) == if first then Lines(texts + [text]) else "\n" + Lines(texts + [text])
    ensures texts + [text] != []
  {
    LinesSnoc(texts, text);
  }

  lemma LinesSnoc(texts: seq<string>, text: string)
    ensures Lines(texts + [text]) == (if texts == [] then "" else Lines(texts) + "\n") + text
    ensures texts + [text] != []
  {
    InSnoc(texts, text, text);
  }

  lemma {:induction false} JoinSnoc(parts: seq<Part>, last: Part, first: bool)
    ensures JoinTexts(parts + [last], first) ==
              JoinTexts(parts, first) +
              if last.kind != "text" then ""
              else (if first && Texts(parts) == [] then "" else "\n") + if last.text.Some? then last.text.value else ""
  {
    if parts == [] {
      assert (parts + [last])[1..] == [];
    } else {
      assert (parts + [last])[1..] == parts[1..] + [last];
      JoinSnoc(parts[1..], last, first && parts[0].kind != "text");
      TextsOfRest(parts);
    }
  }

  lemma {:induction false} TextsOfRest(parts: seq<Part>)
    requires parts != []
    ensures Texts(parts) == [] <==> parts[0].kind != "text" && Texts(parts[1..]) == []
  {
    if |parts| > 1 {
      TextsOfRest(parts[..|parts| - 1]);
      assert parts[..|parts| - 1][1..] == parts[1..][..|parts| - 2];
    }
  }

  lemma TextIsText(text: string, m: Message)
    ensures IsText(text, m) <==> text == TextOf(m)
  {
    if m.content.Some? && m.content.value.Parts? {
      JoinIsLines(m.content.value.parts, true);
    }
    if m.inner.Some? && m.inner.value.InnerMessage? && m.inner.value.content.Some? && m.inner.value.content.value.Parts? {
      JoinIsLines(m.inner.value.content.value.parts, true);
    }
  }

  lemma TextCounts(t: Totals, m: Message)
    ensures if HasText(m) then ShowsText(Account(t, m).lastText, m) else Account(t, m).lastText == t.lastText
  {
    TextIsText(TextOf(m), m);
    if text :| ShowsText(text, m) {
      TextIsText(text, m);
    } else {
      assert !ShowsText(TextOf(m), m);
    }
  }

  lemma UsageCounts(t: Totals, m: Message, usages: seq<Usage>) returns (usage: Usage)
    requires CountsUsages(t, usages)
    ensures Reports(m, usage) && CountsUsages(Account(t, m), usages + [usage])
  {
    usage := if UsageOf(m).Some? then UsageOf(m).value else Usage(None, None, None, None);
    InSnoc(usages, usage, usage);
  }

  lemma TextNext(t: Totals, arrivals: seq<Arrival>, n: nat)
    requires n < |arrivals| && arrivals[n].value.Next? && IsLastText(t.lastText, arrivals, n)
    ensures IsLastText(Account(t, arrivals[n].value.message).lastText, arrivals, n + 1)
  {
    TextCounts(t, arrivals[n].value.message);
  }

  lemma UsageNext(t: Totals, arrivals: seq<Arrival>, n: nat, usages: seq<Usage>) returns (longer: seq<Usage>)
    requires n < |arrivals| && arrivals[n].value.Next? && AreReports(usages, arrivals, n) && CountsUsages(t, usages)
    ensures AreReports(longer, arrivals, n + 1) && CountsUsages(Account(t, arrivals[n].value.message), longer)
  {
    var usage := UsageCounts(t, arrivals[n].value.message, usages);
    longer := usages + [usage];
  }

  lemma AccountNext(t: Totals, t': Totals, arrivals: seq<Arrival>, n: nat)
    requires n < |arrivals| && arrivals[n].value.Next? && Accounts(t, arrivals, n) && t' == Account(t, arrivals[n].value.message)
    ensures Accounts(t', arrivals, n + 1)
  {
    TextNext(t, arrivals, n);
    var usages :| AreReports(usages, arrivals, n) && CountsUsages(t, usages);
    var longer := UsageNext(t, arrivals, n, usages);
  }

  /** Each message is counted once, with its own usage or the nested one, and the last text of an assistant is kept. */
  lemma {:induction false} AccountingAdds(arrivals: seq<Arrival>, n: nat)
    requires n <= |arrivals| && forall i :: 0 <= i < n ==> arrivals[i].value.Next?
    ensures Accounts(AccountAll(arrivals, n), arrivals, n)
  {
    if n == 0 {
      assert AreReports([], arrivals, 0) && CountsUsages(NOTHING, []);
    } else {
      AccountingAdds(arrivals, n - 1);
      AccountNext(AccountAll(arrivals, n - 1), AccountAll(arrivals, n), arrivals, n - 1);
    }
  }

  /** The totals of a completed stream are those of the messages before the end, and those of a stall those received by then. */
  ghost predicate Accounted(o: Outcome, arrivals: seq<Arrival>) {
    && (o.Completed? ==> exists n :: 0 <= n < |arrivals| && arrivals[n].value.Done? && Accounts(o.totals, arrivals, n))
    && (o.Stalled? ==> exists n :: 0 < n <= |arrivals| && Accounts(o.stats, arrivals, n))
  }

  lemma {:induction false} LoopAccounts(arrivals: seq<Arrival>, n: nat, w: Watch, start: int, opts: Options, abort: Option<Abort>)
    requires n <= |arrivals| && w.totals == AccountAll(arrivals, n) && (w.firstMessageReceived ==> n > 0)
    requires forall i :: 0 <= i < n ==> arrivals[i].value.Next?
    ensures Accounted(Consume(arrivals[n..], w, start, opts, abort), arrivals)
    decreases |arrivals| - n
  {
    AccountingAdds(arrivals, n);
    if n < |arrivals| && arrivals[n].value.Next? {
      assert arrivals[n..][0] == arrivals[n] && arrivals[n..][1..] == arrivals[n + 1..];
      LoopAccounts(arrivals, n + 1, Receive(w, arrivals[n].at, arrivals[n].value.message), start, opts, abort);
    }
  }

  lemma StreamAccounted(arrivals: seq<Arrival>, start: int, opts: Options, abort: Option<Abort>)
    ensures Accounted(ConsumeAgentStream(arrivals, start, opts, abort), arrivals)
  {
    LoopAccounts(arrivals, 0, Watch(start, start, false, NOTHING), start, opts, abort);
    assert arrivals[0..] == arrivals;
  }
}
