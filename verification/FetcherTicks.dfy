/** How the ticks that drive the updates pace the polls. */
module FetcherTicks {
  import opened Types
  import opened EventFeed
  import opened FetcherProtocol
  import opened FetcherTiming

  /** The ticks the update task receives. The ticker holds one tick that has not been received and drops those sent
      meanwhile, so each was sent an interval after the one before, and after that one was received. */
  predicate Ticks(sent: seq<int>, received: seq<int>, period: int) {
    && |sent| == |received| && (forall i :: 0 <= i < |sent| ==> sent[i] <= received[i])
    && (forall i :: 0 <= i < |sent| - 1 ==> Follows(sent, received, period, i))
  }

  predicate Follows(sent: seq<int>, received: seq<int>, period: int, i: nat)
    requires i + 1 < |sent| == |received|
  {
    sent[i] + period <= sent[i + 1] && received[i] <= sent[i + 1]
  }

  /** The n-th tick after a scan comes no earlier than n intervals after it, less what the scan came late after its own
      tick if that tick did not have to wait, and less two intervals in any case. */
  lemma TicksArePaced(sent: seq<int>, received: seq<int>, period: int, scan: int, j: nat, n: nat)
    requires Ticks(sent, received, period) && period > 0 && 1 <= n && j + n < |sent|
    requires received[j] <= scan <= received[j + 1]
    ensures received[j + n] >= scan + n * period - 2 * period
    ensures sent[j] == received[j] ==> received[j + n] >= scan + n * period - (scan - received[j])
  {
    SentApart(sent, received, period, j, n);
    if n > 1 {
      assert Follows(sent, received, period, j + 1);
      SentApart(sent, received, period, j + 2, n - 2);
      TwoFewer(n, period);
    }
  }

  lemma TwoFewer(n: int, period: int)
    ensures (n - 2) * period == n * period - 2 * period
  {
  }

  lemma {:induction false} SentApart(sent: seq<int>, received: seq<int>, period: int, i: nat, n: nat)
    requires Ticks(sent, received, period) && i + n < |sent|
    ensures sent[i + n] >= sent[i] + n * period
  {
    if n > 0 {
      SentApart(sent, received, period, i, n - 1);
      assert Follows(sent, received, period, i + n - 1);
      assert n * period == (n - 1) * period + period;
    }
  }

  /** The ticks of a run, and how many polls of an ID may go unanswered. If `delay` is given, no tick has to wait, and
      every scan comes within it after its tick. The update at start-up counts as one with a tick of its own. */
  datatype Ticking = Ticking(sent: seq<int>, received: seq<int>, period: int, delay: Option<int>, fails: nat)

  predicate Works(d: Ticking) {
    && Ticks(d.sent, d.received, d.period) && d.period > 0
    && (d.delay.Some? ==> d.delay.value >= 0 && d.sent == d.received)
  }

  function Slack(d: Ticking): int {
    if d.delay.Some? && d.delay.value < 2 * d.period then d.delay.value else 2 * d.period
  }

  function PaceOf(d: Ticking): Pace {
    Paced(d.period, Slack(d), d.fails)
  }

  /** The update of tick u is over when the next tick is received. */
  predicate During(d: Ticking, u: nat, now: int) {
    u < |d.received| && d.received[u] <= now && (u + 1 < |d.received| ==> now <= d.received[u + 1])
  }

  predicate ScansDuring(d: Ticking, u: nat, now: int) {
    During(d, u, now) && (d.delay.Some? ==> now <= d.received[u] + d.delay.value)
  }

  /** The move may belong to the update of tick u when `from` is the first update that has not polled or scanned yet: an
      update polls at most once, and does so before it scans. */
  ghost predicate InUpdate<V>(c: Config, d: Ticking, t: Timed<V>, m: Move<V>, u: nat, from: nat) {
    && (m.step.DoScan? ==> from <= u + 1 && ScansDuring(d, u, t.w.now))
    && (m.step.DoSelect? ==> from <= u && During(d, u, t.w.now) && FewFail(c, d, t, m.answered))
  }

  /** No poll goes unanswered for which that has happened too often. */
  ghost predicate FewFail<V>(c: Config, d: Ticking, t: Timed<V>, answered: set<nat>) {
    forall e :: e in Ticked(t.w.feed.tracker, c.pollPeriods) && e in t.track && e !in answered ==>
                  t.track[e].failed < d.fails
  }

  function Next<V>(m: Move<V>, u: nat, from: nat): nat {
    if m.step.DoScan? || m.step.DoSelect? then u + 1 else from
  }

  /** A run whose updates are driven by ticks; us[i] is the tick of the i-th move. */
  ghost predicate TickedRun<V>(c: Config, d: Ticking, t: Timed<V>, moves: seq<Move<V>>, us: seq<nat>, from: nat,
                               t': Timed<V>)
    decreases |moves|
  {
    if moves == [] || us == [] then moves == [] && us == [] && t' == t
    else
      && TimedEnabled(c, Anyhow, t, moves[0]) && InUpdate(c, d, t, moves[0], us[0], from)
      && TickedRun(c, d, TimedApply(c, t, moves[0]), moves[1..], us[1..], Next(moves[0], us[0], from), t')
  }

  /** It was skipped in an update since which there have been at least n others. */
  ghost predicate SkippedIn(d: Ticking, k: Track, n: nat, from: nat) {
    exists j: nat :: ScansDuring(d, j, k.since) && j + n < from
  }

  ghost predicate TickInv(d: Ticking, tracker: map<nat, nat>, track: map<nat, Track>, from: nat) {
    forall e :: e in tracker ==> e in track && SkippedIn(d, track[e], tracker[e], from)
  }

  /** So its next poll is on pace. */
  lemma NextPollIsPaced(d: Ticking, k: Track, n: nat, from: nat, u: nat, now: int, answered: bool)
    requires Works(d) && SkippedIn(d, k, n, from) && from <= u && During(d, u, now)
    requires !answered ==> k.failed < d.fails
    ensures OnPace(PaceOf(d), k, n + 1, now, answered)
  {
    var j: nat :| ScansDuring(d, j, k.since) && j + n < from;
    TicksArePaced(d.sent, d.received, d.period, k.since, j, u - j);
    TimesGrows(n + 1, u - j, d.period);
  }

  lemma TickedPollIsPaced<V>(c: Config, d: Ticking, t: Timed<V>, m: Move<V>, u: nat, from: nat)
    requires Works(d) && TickInv(d, t.w.feed.tracker, t.track, from)
    requires TimedEnabled(c, Anyhow, t, m) && InUpdate(c, d, t, m, u, from)
    ensures TimedEnabled(c, PaceOf(d), t, m)
  {
    if m.step.DoSelect? {
      var polled := Ticked(t.w.feed.tracker, c.pollPeriods);
      forall e | e in polled && e in t.track
        ensures OnPace(PaceOf(d), t.track[e], polled[e], t.w.now, e in m.answered)
      {
        NextPollIsPaced(d, t.track[e], t.w.feed.tracker[e], from, u, t.w.now, e in m.answered);
      }
    }
  }

  lemma LaterSkippedIn(d: Ticking, k: Track, k': Track, n: nat, n': nat, from: nat, from': nat)
    requires SkippedIn(d, k, n, from) && k'.since == k.since && n' - n <= from' - from
    ensures SkippedIn(d, k', n', from')
  {
    var j: nat :| ScansDuring(d, j, k.since) && j + n < from;
    assert j + n' < from';
  }

  lemma PollKeepsTicks(d: Ticking, pollPeriods: nat, f: Feed, hits: map<nat, string>, track: map<nat, Track>,
                       now: int, answered: set<nat>, from: nat, from': nat)
    requires TickInv(d, f.tracker, track, from) && from < from'
    ensures TickInv(d, Select(f, pollPeriods, hits).tracker,
                    PolledAll(track, Ticked(f.tracker, pollPeriods), now, answered), from')
  {
    var tracker' := Select(f, pollPeriods, hits).tracker;
    var track' := PolledAll(track, Ticked(f.tracker, pollPeriods), now, answered);
    forall e | e in tracker' ensures e in track' && SkippedIn(d, track'[e], tracker'[e], from') {
      LaterSkippedIn(d, track[e], track'[e], f.tracker[e], tracker'[e], from, from');
    }
  }

  lemma ScanKeepsTicks<V>(c: Config, d: Ticking, t: Timed<V>, m: Move<V>, u: nat, from: nat)
    requires Inv(t.w) && TimedInv(c, Anyhow, t) && TimedEnabled(c, Anyhow, t, m) && m.step.DoScan?
    requires TickInv(d, t.w.feed.tracker, t.track, from) && from <= u + 1 && ScansDuring(d, u, t.w.now)
    ensures TickInv(d, Scan(t.w.feed, m.step.events, t.w.now).tracker, Tracked(c, t, m), u + 1)
  {
    var f, track' := t.w.feed, Tracked(c, t, m);
    var tracker' := Scan(f, m.step.events, t.w.now).tracker;
    forall e | e in tracker' ensures e in track' && SkippedIn(d, track'[e], tracker'[e], u + 1) {
      ScanTracksAbove(f, m.step.events, t.w.now, e);
      if e in f.tracker {
        LaterSkippedIn(d, t.track[e], track'[e], f.tracker[e], tracker'[e], from, u + 1);
      } else {
        assert track'[e] == Track(t.w.now, 0, None);
        assert ScansDuring(d, u, track'[e].since) && u + tracker'[e] < u + 1;
      }
    }
  }

  lemma MoveKeepsTicks<V>(c: Config, d: Ticking, t: Timed<V>, m: Move<V>, u: nat, from: nat)
    requires Inv(t.w) && TimedInv(c, Anyhow, t) && TickInv(d, t.w.feed.tracker, t.track, from)
    requires TimedEnabled(c, Anyhow, t, m) && InUpdate(c, d, t, m, u, from)
    ensures var t' := TimedApply(c, t, m); TickInv(d, t'.w.feed.tracker, t'.track, Next(m, u, from))
  {
    if m.step.DoScan? {
      ScanKeepsTicks(c, d, t, m, u, from);
    } else if m.step.DoSelect? {
      PollKeepsTicks(d, c.pollPeriods, t.w.feed, m.step.hits, t.track, t.w.now, m.answered, from, u + 1);
    } else {
      TrackerStays(c, t.w, m.step);
    }
  }

  lemma TrackerStays<V>(c: Config, w: World<V>, s: Step<V>)
    requires Enabled(c, w, s) && !s.DoSelect? && !s.DoScan?
    ensures Apply(c, w, s).feed.tracker == w.feed.tracker
  {
  }

  /** Every run whose updates are driven by ticks is paced: with a slack of the longest delay of a scan after its tick
      if no tick has to wait, and of two intervals however long the updates take. */
  lemma {:induction false} TickedRunIsPaced<V>(c: Config, d: Ticking, t: Timed<V>, moves: seq<Move<V>>, us: seq<nat>,
                                               from: nat, t': Timed<V>)
    requires Works(d) && Sane(c, Anyhow) && Inv(t.w) && TimedInv(c, Anyhow, t)
    requires TickInv(d, t.w.feed.tracker, t.track, from) && TickedRun(c, d, t, moves, us, from, t')
    ensures TimedRun(c, PaceOf(d), t, moves, t')
    decreases |moves|
  {
    if moves != [] {
      TickedPollIsPaced(c, d, t, moves[0], us[0], from);
      MoveKeepsInv(c, Anyhow, t, moves[0]);
      MoveKeepsTicks(c, d, t, moves[0], us[0], from);
      TickedRunIsPaced(c, d, TimedApply(c, t, moves[0]), moves[1..], us[1..], Next(moves[0], us[0], from), t');
    }
  }

  /** So it loses no ID from the first event on if the polls less those unanswered, times the interval, reach the
      timeout plus that slack. */
  lemma TickedTrackingSuffices<V>(c: Config, d: Ticking, t0: Timed<V>, moves: seq<Move<V>>, us: seq<nat>, t: Timed<V>,
                                  e: nat)
    requires Works(d) && Sane(c, Anyhow) && TimedInit(c, t0) && TickedRun(c, d, t0, moves, us, 0, t)
    requires (c.pollPeriods - d.fails) * d.period >= c.timeout + Slack(d) && Lost(t.w, e)
    ensures e < t.w.feed.first
  {
    TickedRunIsPaced(c, d, t0, moves, us, 0, t);
    TrackerLosesNothing(c, PaceOf(d), t0, moves, t, e);
  }

  /** As configured: if every poll is answered, no tick has to wait, and the scans come after their ticks within what
      rounding leaves. With two polls more, and one for each that may go unanswered, however long the updates take. */
  lemma ConfiguredTicksSuffice<V>(pollTime: int, timeout: int, c: Config, d: Ticking,
                                  t0: Timed<V>, moves: seq<Move<V>>, us: seq<nat>, t: Timed<V>, e: nat)
    requires pollTime >= SECOND && timeout >= SECOND && Works(d) && d.period == pollTime && c.timeout == timeout
    requires TimedInit(c, t0) && TickedRun(c, d, t0, moves, us, 0, t) && Lost(t.w, e)
    requires var n := PollPeriods(pollTime, timeout);
             || (c.pollPeriods == n && d.fails == 0 && d.delay.Some? && d.delay.value <= n * pollTime - timeout)
             || c.pollPeriods >= n + 2 + d.fails
    ensures e < t.w.feed.first
  {
    var n := PollPeriods(pollTime, timeout);
    PollPeriodsCover(pollTime, timeout);
    if c.pollPeriods >= n + 2 + d.fails {
      TimesGrows(n + 2, c.pollPeriods - d.fails, pollTime);
      assert (n + 2) * pollTime == n * pollTime + 2 * pollTime;
    }
    TickedTrackingSuffices(c, d, t0, moves, us, t, e);
  }
}
