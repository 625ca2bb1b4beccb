/** When the fetcher gives up on an ID, in terms of the clock. The environment's one promise is the transaction timeout:
    IDs are handed out in order, so once a higher ID has been committed, a lower one commits within the timeout or
    never. */
module FetcherTiming {
  import opened Types
  import opened EventFeed
  import opened FetcherProtocol

  /** What became of a skipped ID: when it was skipped, how many of its polls went unanswered, and the time of its last
      answered poll. */
  datatype Track = Track(since: int, failed: nat, answered: Option<int>)

  /** A world with what became of every skipped ID, and the time of the last search below the first event. */
  datatype Timed<V> = Timed(w: World<V>, track: map<nat, Track>, searched: Option<int>)

  /** A step and, for a poll, the IDs it got an answer for. A request that fails or is cancelled gets none, but is
      counted. */
  datatype Move<V> = Move(step: Step<V>, answered: set<nat>)

  /** How the polls come. If paced, the n-th poll of an ID comes no earlier than n periods, less some slack, after it
      was skipped, and no more than `fails` of its polls go unanswered. */
  datatype Pace = Anyhow | Paced(period: int, slack: int, fails: nat)

  /** The n-th poll of an ID may come now, with or without an answer. */
  predicate OnPace(p: Pace, k: Track, n: nat, now: int, answered: bool) {
    p.Paced? ==> now >= k.since + n * p.period - p.slack && (!answered ==> k.failed < p.fails)
  }

  /** A poll's answers are current: an answered ID that has been committed is found. */
  ghost predicate PollEnabled(c: Config, p: Pace, tracker: map<nat, nat>, track: map<nat, Track>, log: map<nat, string>,
                              now: int,
                              hits: map<nat, string>, answered: set<nat>) {
    var polled := Ticked(tracker, c.pollPeriods);
    && hits.Keys <= answered <= polled.Keys
    && (forall e :: e in answered && e in log ==> e in hits)
    && (forall e :: e in polled && e in track ==> OnPace(p, track[e], polled[e], now, e in answered))
  }

  ghost predicate TimedEnabled<V>(c: Config, p: Pace, t: Timed<V>, m: Move<V>) {
    var s := m.step;
    && Enabled(c, t.w, s)
    && (s.Commit? ==> forall e :: e in t.w.committed && e > s.event ==> t.w.now < t.w.committed[e] + c.timeout)
    && (s.DoSelect? ==> PollEnabled(c, p, t.w.feed.tracker, t.track, t.w.log, t.w.now, s.hits, m.answered))
    && (s.DoSearch? && WindowOpen(t.w.feed, t.w.now, c.timeout) ==>
         forall e :: e in t.w.log && e < t.w.feed.first ==> e in Ids(s.events))
  }

  function PolledOnce(k: Track, now: int, answered: bool): Track {
    if answered then k.(answered := Some(now)) else k.(failed := k.failed + 1)
  }

  function Tracked<V>(c: Config, t: Timed<V>, m: Move<V>): map<nat, Track> {
    match m.step
    case DoSelect(_) => PolledAll(t.track, Ticked(t.w.feed.tracker, c.pollPeriods), t.w.now, m.answered)
    case DoScan(events) =>
      map e | e in t.track.Keys + Scan(t.w.feed, events, t.w.now).tracker.Keys ::
        if e in t.track then t.track[e] else Track(t.w.now, 0, None)
    case _ => t.track
  }

  function TimedApply<V>(c: Config, t: Timed<V>, m: Move<V>): Timed<V>
    requires Enabled(c, t.w, m.step)
  {
    Timed(Apply(c, t.w, m.step), Tracked(c, t, m),
          if m.step.DoSearch? && WindowOpen(t.w.feed, t.w.now, c.timeout) then Some(t.w.now) else t.searched)
  }

  ghost predicate ClockInv<V>(c: Config, w: World<V>) {
    && w.committed.Keys == w.log.Keys
    && (forall e :: e in w.log ==> w.committed[e] <= w.now)
    && (forall e, h :: e in w.log && h in w.log && e < h ==> w.committed[e] < w.committed[h] + c.timeout)
  }

  /** A higher ID had been committed by then. */
  ghost predicate SkippedBy(committed: map<nat, int>, e: nat, since: int) {
    exists h :: h in committed && h > e && committed[h] <= since
  }

  /** After n polls of e: what went unanswered and when the last answer came. If e has been committed, then after
      that. */
  ghost predicate TrackOk(p: Pace, k: Track, n: nat, committed: map<nat, int>, e: nat) {
    && SkippedBy(committed, e, k.since)
    && (e in committed && k.answered.Some? ==> k.answered.value <= committed[e])
    && k.failed <= n && (k.answered.None? ==> k.failed == n)
    && (p.Paced? ==> k.failed <= p.fails)
    && (p.Paced? && k.answered.Some? ==> k.answered.value >= k.since + (n - k.failed) * p.period - p.slack)
  }

  ghost predicate TrackInv(c: Config, p: Pace, f: Feed, dropped: set<nat>, track: map<nat, Track>,
                           committed: map<nat, int>) {
    && (forall e :: e in f.tracker ==>
       e in track && f.tracker[e] <= c.pollPeriods && TrackOk(p, track[e], f.tracker[e], committed, e))
    && (forall e :: e in dropped ==> e in track && TrackOk(p, track[e], c.pollPeriods, committed, e))
    && (forall e :: e in track ==> f.firstTime.Some? && e < f.last)
  }

  /** An event below the first that no search has found was committed after the last search. */
  ghost predicate SearchedInv<V>(t: Timed<V>) {
    && (t.w.feed.firstTime.None? ==> t.searched.None?)
    && (t.searched.Some? ==> t.w.feed.first in t.w.log)
    && (t.searched.Some? ==>
       forall e :: e in t.w.log && e < t.w.feed.first && e !in t.w.captured && e in t.w.committed ==>
                                         t.searched.value <= t.w.committed[e])
    && (t.searched.Some? ==> t.searched.value <= t.w.now)
  }

  ghost predicate AnsweredInv(track: map<nat, Track>, now: int) {
    forall e :: e in track && track[e].answered.Some? ==> track[e].answered.value <= now
  }

  ghost predicate TimedInv<V>(c: Config, p: Pace, t: Timed<V>) {
    && ClockInv(c, t.w) && SearchedInv(t) && AnsweredInv(t.track, t.w.now)
    && TrackInv(c, p, t.w.feed, t.w.dropped, t.track, t.w.committed)
  }

  /** What the configuration can be: a tracker polls at least once, a ticker has a positive interval. */
  predicate Sane(c: Config, p: Pace) {
    c.pollPeriods >= 1 && c.timeout > 0 && (p.Paced? ==> p.period > 0 && p.slack >= 0)
  }

  lemma TimesGrows(a: int, b: int, period: int)
    requires a <= b && period > 0
    ensures a * period <= b * period
  {
  }

  lemma SkippedStays(committed: map<nat, int>, more: map<nat, int>, e: nat, since: int)
    requires SkippedBy(committed, e, since) && forall h :: h in committed ==> h in more && more[h] == committed[h]
    ensures SkippedBy(more, e, since)
  {
    var h :| h in committed && h > e && committed[h] <= since;
    assert h in more;
  }

  lemma CommitKeepsTrackOk(p: Pace, k: Track, n: nat, committed: map<nat, int>, e: nat, event: nat, now: int)
    requires TrackOk(p, k, n, committed, e) && event !in committed && (k.answered.Some? ==> k.answered.value <= now)
    ensures TrackOk(p, k, n, committed[event := now], e)
  {
    SkippedStays(committed, committed[event := now], e, k.since);
  }

  /** Only a commit writes the log, and time only moves forward. */
  lemma StepFrame<V>(c: Config, w: World<V>, s: Step<V>)
    requires Enabled(c, w, s)
    ensures var w' := Apply(c, w, s);
            && w.now <= w'.now && (s.Commit? ==> w'.now == w.now)
            && w'.log == (if s.Commit? then w.log[s.event := s.key] else w.log)
            && w'.committed == (if s.Commit? then w.committed[s.event := w.now] else w.committed)
  {
  }

  lemma ClockKeeps<V>(c: Config, p: Pace, t: Timed<V>, m: Move<V>)
    requires Sane(c, p) && ClockInv(c, t.w) && TimedEnabled(c, p, t, m)
    ensures ClockInv(c, Apply(c, t.w, m.step))
  {
    StepFrame(c, t.w, m.step);
    ClockKept(c, t.w, Apply(c, t.w, m.step), m.step.Commit?, if m.step.Commit? then m.step.event else 0);
  }

  lemma ClockKept<V>(c: Config, w: World<V>, w': World<V>, commit: bool, event: nat)
    requires ClockInv(c, w) && c.timeout > 0 && w.now <= w'.now
    requires commit ==> event !in w.log && w'.now == w.now
    requires w'.log.Keys == (if commit then w.log.Keys + {event} else w.log.Keys)
    requires w'.committed == (if commit then w.committed[event := w.now] else w.committed)
    requires commit ==> forall e :: e in w.committed && e > event ==> w.now < w.committed[e] + c.timeout
    ensures ClockInv(c, w')
  {
  }

  /** What the moves other than a search do to the range below the first event. */
  lemma BelowFirstFrame<V>(c: Config, w: World<V>, s: Step<V>)
    requires Inv(w) && Enabled(c, w, s)
    ensures var w' := Apply(c, w, s);
            && w.captured <= w'.captured
            && (w.feed.firstTime.Some? ==> w'.feed.firstTime.Some? && w'.feed.first == w.feed.first)
            && (w'.feed.firstTime.None? ==> w.feed.firstTime.None?)
            && (w.feed.firstTime.Some? ==> w.feed.first in w.log)
  {
    if s.DoScan? {
      ScanFetches(w.feed, s.events, w.now);
    }
  }

  lemma SearchKeeps<V>(c: Config, p: Pace, t: Timed<V>, m: Move<V>)
    requires Inv(t.w) && ClockInv(c, t.w) && SearchedInv(t) && TimedEnabled(c, p, t, m)
    ensures SearchedInv(TimedApply(c, t, m))
  {
    StepFrame(c, t.w, m.step);
    BelowFirstFrame(c, t.w, m.step);
    if m.step.DoSearch? && WindowOpen(t.w.feed, t.w.now, c.timeout) {
      assert forall e :: e in t.w.log && e < t.w.feed.first ==> e in Apply(c, t.w, m.step).captured;
    }
  }

  lemma CommitKeepsTrack(c: Config, p: Pace, f: Feed, dropped: set<nat>, track: map<nat, Track>,
                         committed: map<nat, int>,
                         event: nat, now: int)
    requires TrackInv(c, p, f, dropped, track, committed) && AnsweredInv(track, now) && event !in committed
    ensures TrackInv(c, p, f, dropped, track, committed[event := now])
  {
    forall e | e in f.tracker ensures TrackOk(p, track[e], f.tracker[e], committed[event := now], e) {
      CommitKeepsTrackOk(p, track[e], f.tracker[e], committed, e, event, now);
    }
    forall e | e in dropped ensures TrackOk(p, track[e], c.pollPeriods, committed[event := now], e) {
      CommitKeepsTrackOk(p, track[e], c.pollPeriods, committed, e, event, now);
    }
  }

  /** One more poll: an answer comes late enough, a missing one is counted. */
  lemma PollKeepsTrackOk(p: Pace, k: Track, n: nat, committed: map<nat, int>, e: nat, now: int, answered: bool)
    requires TrackOk(p, k, n, committed, e) && (answered ==> e !in committed) && (p.Paced? ==> p.period > 0)
    requires OnPace(p, k, n + 1, now, answered)
    ensures TrackOk(p, PolledOnce(k, now, answered), n + 1, committed, e)
  {
    if p.Paced? && answered {
      TimesGrows(n + 1 - k.failed, n + 1, p.period);
    }
  }

  function PolledAll(track: map<nat, Track>, polled: map<nat, nat>, now: int, answered: set<nat>): map<nat, Track> {
    map e | e in track :: if e in polled then PolledOnce(track[e], now, e in answered) else track[e]
  }

  lemma PolledKeepsTrack(c: Config, p: Pace, f: Feed, dropped: set<nat>, track: map<nat, Track>, log: map<nat, string>,
                         committed: map<nat, int>, now: int, hits: map<nat, string>, answered: set<nat>, e: nat)
    requires TrackInv(c, p, f, dropped, track, committed) && (p.Paced? ==> p.period > 0)
    requires PollEnabled(c, p, f.tracker, track, log, now, hits, answered) && committed.Keys == log.Keys
    requires e in Ticked(f.tracker, c.pollPeriods) && e !in hits
    ensures var polled := Ticked(f.tracker, c.pollPeriods);
            e in track && polled[e] <= c.pollPeriods &&
                TrackOk(p, PolledAll(track, polled, now, answered)[e], polled[e], committed, e)
  {
    var n := f.tracker[e];
    assert OnPace(p, track[e], n + 1, now, e in answered) by {
      assert Ticked(f.tracker, c.pollPeriods)[e] == n + 1;
    }
    PollKeepsTrackOk(p, track[e], n, committed, e, now, e in answered);
  }

  lemma SelectKeepsTrack(c: Config, p: Pace, f: Feed, dropped: set<nat>, track: map<nat, Track>, log: map<nat, string>,
                         committed: map<nat, int>, now: int, hits: map<nat, string>, answered: set<nat>)
    requires TrackInv(c, p, f, dropped, track, committed) && (p.Paced? ==> p.period > 0)
    requires PollEnabled(c, p, f.tracker, track, log, now, hits, answered) && committed.Keys == log.Keys
    requires forall e :: e in dropped ==> e !in f.tracker
    ensures var polled := Ticked(f.tracker, c.pollPeriods);
            TrackInv(c, p, Select(f, c.pollPeriods, hits), dropped + (f.tracker.Keys - polled.Keys),
                     PolledAll(track, polled, now, answered), committed)
  {
    var f', polled := Select(f, c.pollPeriods, hits), Ticked(f.tracker, c.pollPeriods);
    var track' := PolledAll(track, polled, now, answered);
    forall e | e in f'.tracker
      ensures e in track' && f'.tracker[e] <= c.pollPeriods && TrackOk(p, track'[e], f'.tracker[e], committed, e)
    {
      PolledKeepsTrack(c, p, f, dropped, track, log, committed, now, hits, answered, e);
    }
    forall e | e in dropped || (e in f.tracker && e !in polled)
      ensures e in track' && TrackOk(p, track'[e], c.pollPeriods, committed, e)
    {
      assert e !in polled && track'[e] == track[e];
    }
  }

  lemma ScanKeepsTrack(c: Config, p: Pace, f: Feed, dropped: set<nat>, track: map<nat, Track>,
                       committed: map<nat, int>, now: int, events: seq<Event>, track': map<nat, Track>)
    requires TrackInv(c, p, f, dropped, track, committed) && Ascending(events)
    requires f.firstTime.Some? ==> forall ev :: ev in events ==> ev.id > f.last
    requires (f.firstTime.None? ==> f.tracker == map[]) && forall e :: e in f.tracker ==> e < f.last
    requires forall ev :: ev in events ==> ev.id in committed && committed[ev.id] <= now
    requires track' == map e | e in track.Keys + Scan(f, events, now).tracker.Keys ::
               if e in track then track[e] else Track(now, 0, None)
    requires p.Paced? ==> p.slack >= 0
    ensures TrackInv(c, p, Scan(f, events, now), dropped, track', committed)
  {
    var f' := Scan(f, events, now);
    ScanFetches(f, events, now);
    ScanExtends(f, events, now);
    forall e | e in f'.tracker
      ensures e in track' && f'.tracker[e] <= c.pollPeriods && TrackOk(p, track'[e], f'.tracker[e], committed, e)
      ensures f'.firstTime.Some? && e < f'.last
    {
      ScanTracksAbove(f, events, now, e);
      if e !in f.tracker {
        var ev :| ev in events && e < ev.id;
        assert SkippedBy(committed, e, now) by {
          assert ev.id in committed;
        }
      }
    }
  }

  /** Every move keeps what is known of the skipped IDs. */
  lemma TrackKeeps<V>(c: Config, p: Pace, t: Timed<V>, m: Move<V>)
    requires Sane(c, p) && Inv(t.w) && TimedInv(c, p, t) && TimedEnabled(c, p, t, m)
    ensures var t' := TimedApply(c, t, m); TrackInv(c, p, t'.w.feed, t'.w.dropped, t'.track, t'.w.committed)
  {
    if m.step.Commit? {
      CommitKeepsTrack(c, p, t.w.feed, t.w.dropped, t.track, t.w.committed, m.step.event, t.w.now);
    } else if m.step.DoSelect? {
      PollKeeps(c, p, t, m);
    } else if m.step.DoScan? {
      ScanKeeps(c, p, t, m);
    } else {
      FeedStays(c, t.w, m.step);
    }
  }

  lemma PollKeeps<V>(c: Config, p: Pace, t: Timed<V>, m: Move<V>)
    requires Sane(c, p) && Inv(t.w) && TimedInv(c, p, t) && TimedEnabled(c, p, t, m) && m.step.DoSelect?
    ensures var t' := TimedApply(c, t, m); TrackInv(c, p, t'.w.feed, t'.w.dropped, t'.track, t'.w.committed)
  {
    SelectKeepsTrack(c, p, t.w.feed, t.w.dropped, t.track, t.w.log, t.w.committed, t.w.now, m.step.hits, m.answered);
  }

  lemma ScanKeeps<V>(c: Config, p: Pace, t: Timed<V>, m: Move<V>)
    requires Sane(c, p) && Inv(t.w) && TimedInv(c, p, t) && TimedEnabled(c, p, t, m) && m.step.DoScan?
    ensures var t' := TimedApply(c, t, m); TrackInv(c, p, t'.w.feed, t'.w.dropped, t'.track, t'.w.committed)
  {
    ScanKeepsTrack(c, p, t.w.feed, t.w.dropped, t.track, t.w.committed, t.w.now, m.step.events, Tracked(c, t, m));
  }

  lemma FeedStays<V>(c: Config, w: World<V>, s: Step<V>)
    requires Enabled(c, w, s) && !s.Commit? && !s.DoSelect? && !s.DoScan?
    ensures var w' := Apply(c, w, s);
            && w'.feed.tracker == w.feed.tracker && w'.feed.firstTime == w.feed.firstTime && w'.feed.last == w.feed.last
            && w'.dropped == w.dropped && w'.committed == w.committed
  {
  }

  lemma AnsweredKeeps<V>(c: Config, p: Pace, t: Timed<V>, m: Move<V>)
    requires AnsweredInv(t.track, t.w.now) && TimedEnabled(c, p, t, m)
    ensures AnsweredInv(Tracked(c, t, m), Apply(c, t.w, m.step).now)
  {
    StepFrame(c, t.w, m.step);
    AnswersAreNow(c, t, m);
  }

  lemma AnswersAreNow<V>(c: Config, t: Timed<V>, m: Move<V>)
    requires AnsweredInv(t.track, t.w.now)
    ensures AnsweredInv(Tracked(c, t, m), t.w.now)
  {
  }

  ghost predicate TimedRun<V>(c: Config, p: Pace, t: Timed<V>, moves: seq<Move<V>>, t': Timed<V>)
    decreases |moves|
  {
    if moves == [] then t' == t
    else TimedEnabled(c, p, t, moves[0]) && TimedRun(c, p, TimedApply(c, t, moves[0]), moves[1..], t')
  }

  ghost predicate TimedInit<V>(c: Config, t: Timed<V>) {
    Init(t.w) && t.track == map[] && t.searched.None? && ClockInv(c, t.w)
  }

  lemma MoveKeepsInv<V>(c: Config, p: Pace, t: Timed<V>, m: Move<V>)
    requires Sane(c, p) && Inv(t.w) && TimedInv(c, p, t) && TimedEnabled(c, p, t, m)
    ensures var t' := TimedApply(c, t, m); Inv(t'.w) && TimedInv(c, p, t')
  {
    StepKeepsInv(c, t.w, m.step);
    ClockKeeps(c, p, t, m);
    TrackKeeps(c, p, t, m);
    AnsweredKeeps(c, p, t, m);
    SearchKeeps(c, p, t, m);
  }

  lemma {:induction false} TimedRunKeepsInv<V>(c: Config, p: Pace, t: Timed<V>, moves: seq<Move<V>>, t': Timed<V>)
    requires Sane(c, p) && Inv(t.w) && TimedInv(c, p, t) && TimedRun(c, p, t, moves, t')
    ensures Inv(t'.w) && TimedInv(c, p, t')
    decreases |moves|
  {
    if moves != [] {
      MoveKeepsInv(c, p, t, moves[0]);
      TimedRunKeepsInv(c, p, TimedApply(c, t, moves[0]), moves[1..], t');
    }
  }

  /** However the polls come and whatever becomes of them: an ID from the first event on is lost if and only if the
      tracker has dropped it and it was committed after its last answered poll, or no poll of it was answered. */
  lemma LostAboveExactly<V>(c: Config, p: Pace, t0: Timed<V>, moves: seq<Move<V>>, t: Timed<V>, e: nat)
    requires Sane(c, p) && TimedInit(c, t0) && TimedRun(c, p, t0, moves, t)
    requires t.w.feed.firstTime.Some? && t.w.feed.first <= e
    ensures Lost(t.w, e) <==>
      && e in t.w.dropped && e in t.w.log && e in t.w.committed && e in t.track
      && (t.track[e].answered.None? || t.track[e].answered.value <= t.w.committed[e])
  {
    TimedRunKeepsInv(c, p, t0, moves, t);
  }

  /** The answered polls of every ID reach the timeout. */
  predicate PollsCover(c: Config, p: Pace) {
    p.Paced? && (c.pollPeriods - p.fails) * p.period >= c.timeout + p.slack
  }

  /** An ID that used up polls which cover the timeout was never committed. */
  lemma TrackedOutIsDead<V>(c: Config, p: Pace, w: World<V>, k: Track, e: nat)
    requires Sane(c, p) && PollsCover(c, p) && ClockInv(c, w) && TrackOk(p, k, c.pollPeriods, w.committed, e)
    ensures e !in w.log
  {
    var h :| h in w.committed && h > e && w.committed[h] <= k.since;
    TimesGrows(c.pollPeriods - p.fails, c.pollPeriods - k.failed, p.period);
    if k.answered.None? {
      TimesGrows(c.pollPeriods - p.fails, 0, p.period);
    }
    assert h in w.log;
  }

  lemma PolledOutIsDead<V>(c: Config, p: Pace, t: Timed<V>, e: nat)
    requires Sane(c, p) && PollsCover(c, p) && TimedInv(c, p, t)
    requires e in t.w.dropped || (e in t.w.feed.tracker && e !in Ticked(t.w.feed.tracker, c.pollPeriods))
    ensures e !in t.w.log
  {
    TrackedOutIsDead(c, p, t.w, t.track[e], e);
  }

  /** Then the tracker loses no ID: what is lost lies below the first event. */
  lemma TrackerLosesNothing<V>(c: Config, p: Pace, t0: Timed<V>, moves: seq<Move<V>>, t: Timed<V>, e: nat)
    requires Sane(c, p) && PollsCover(c, p) && TimedInit(c, t0) && TimedRun(c, p, t0, moves, t)
    requires Lost(t.w, e)
    ensures e < t.w.feed.first
  {
    TimedRunKeepsInv(c, p, t0, moves, t);
    if e in t.w.dropped {
      PolledOutIsDead(c, p, t, e);
    }
  }

  /** If the range below the first event was searched a timeout after that event was committed, nothing below it is ever
      lost, however the polls come; and if these cover the timeout, nothing at all. */
  lemma SearchedLateLosesNothing<V>(c: Config, p: Pace, t0: Timed<V>, moves: seq<Move<V>>, t: Timed<V>, e: nat)
    requires Sane(c, p) && TimedInit(c, t0) && TimedRun(c, p, t0, moves, t)
    requires t.searched.Some? && t.w.feed.first in t.w.committed
    requires t.searched.value >= t.w.committed[t.w.feed.first] + c.timeout
    ensures Lost(t.w, e) ==> t.w.feed.first < e
    ensures PollsCover(c, p) ==> !Lost(t.w, e)
  {
    TimedRunKeepsInv(c, p, t0, moves, t);
    if Lost(t.w, e) && PollsCover(c, p) {
      TrackerLosesNothing(c, p, t0, moves, t, e);
    }
  }

  /** No event below the first one can be missing any more: there is none yet, or that range was searched a timeout
      after the first event was committed. */
  predicate SearchedLate<V>(c: Config, t: Timed<V>) {
    t.w.feed.firstTime.Some? ==>
      t.searched.Some? && t.w.feed.first in t.w.committed &&
          t.searched.value >= t.w.committed[t.w.feed.first] + c.timeout
  }

  lemma NoneMissedBelow<V>(c: Config, p: Pace, t: Timed<V>, e: nat)
    requires Inv(t.w) && TimedInv(c, p, t) && SearchedLate(c, t)
    ensures e in t.w.log && t.w.feed.firstTime.Some? && e < t.w.feed.first ==> e in t.w.captured
  {
  }

  /** Nor does the capture of a complete update give up an event then. */
  lemma CaptureLosesNothing<V>(c: Config, p: Pace, t: Timed<V>, below: seq<Event>, hits: map<nat, string>,
                               above: seq<Event>, e: nat)
    requires Sane(c, p) && PollsCover(c, p) && Inv(t.w) && TimedInv(c, p, t) && SearchedLate(c, t)
    requires CompleteCapture(c, t.w, below, hits, above)
    ensures !Lost(Captured(c, t.w, below, hits, above), e)
  {
    if Lost(Captured(c, t.w, below, hits, above), e) {
      CaptureGivesUp(c, t.w, below, hits, above, e);
      NoneMissedBelow(c, p, t, e);
      PolledOutIsDead(c, p, t, e);
    }
  }

  /** What it gives up: IDs it had given up before, those that have had their polls, and those below the first event. */
  lemma CaptureGivesUp<V>(c: Config, w: World<V>, below: seq<Event>, hits: map<nat, string>, above: seq<Event>, e: nat)
    requires Inv(w) && CompleteCapture(c, w, below, hits, above) && Lost(Captured(c, w, below, hits, above), e)
    ensures e in w.log && e !in w.captured
    ensures e in w.dropped || (e in w.feed.tracker && e !in Ticked(w.feed.tracker, c.pollPeriods)) ||
            (w.feed.firstTime.Some? && e < w.feed.first)
  {
  }

  /** Over every timed run with covering polls and a late search, one undisturbed update makes the cache what a fresh
      load would give. */
  lemma TimedUpdateConverges<V>(c: Config, p: Pace, t0: Timed<V>, moves: seq<Move<V>>, t: Timed<V>,
                                below: seq<Event>, hits: map<nat, string>, above: seq<Event>)
    requires Sane(c, p) && PollsCover(c, p) && TimedInit(c, t0) && TimedRun(c, p, t0, moves, t)
    requires SearchedLate(c, t) && t.w.built && CompleteCapture(c, t.w, below, hits, above)
    ensures var w3 := Captured(c, t.w, below, hits, above);
            var w := Apply(c, w3, Refresh(w3.feed.fetch));
            && w.feed.fetch == {} && (forall e :: !Witness(w, e) && !Lost(w, e))
            && (forall k :: Live(w.copy, k, w.now) == Live(w.store, k, w.now))
  {
    TimedRunKeepsInv(c, p, t0, moves, t);
    forall e ensures !Lost(Captured(c, t.w, below, hits, above), e) {
      CaptureLosesNothing(c, p, t, below, hits, above, e);
    }
    UpdateIsCurrent(c, t.w, below, hits, above);
  }
}
