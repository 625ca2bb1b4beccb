/** Exactly when the fetcher can lose an event: runs that do, wherever the conditions of FetcherTiming are not met. */
module FetcherLosses {
  import opened Types
  import opened EventFeed
  import opened FetcherProtocol
  import opened FetcherTiming

  lemma {:induction false} TimedRunsCompose<V>(c: Config, p: Pace, t: Timed<V>, a: seq<Move<V>>, mid: Timed<V>,
                                               b: seq<Move<V>>,
                                               t': Timed<V>)
    requires TimedRun(c, p, t, a, mid) && TimedRun(c, p, mid, b, t')
    ensures TimedRun(c, p, t, a + b, t')
    decreases |a|
  {
    if a == [] {
      assert a + b == b;
    } else {
      assert (a + b)[0] == a[0] && (a + b)[1..] == a[1..] + b;
      TimedRunsCompose(c, p, TimedApply(c, t, a[0]), a[1..], mid, b, t');
    }
  }

  ghost predicate Reaches<V(!new)>(c: Config, p: Pace, t: Timed<V>, t': Timed<V>) {
    exists moves :: TimedRun(c, p, t, moves, t')
  }

  lemma ReachesOn<V(!new)>(c: Config, p: Pace, t: Timed<V>, mid: Timed<V>, t': Timed<V>)
    requires Reaches(c, p, t, mid) && Reaches(c, p, mid, t')
    ensures Reaches(c, p, t, t')
  {
    var a :| TimedRun(c, p, t, a, mid);
    var b :| TimedRun(c, p, mid, b, t');
    TimedRunsCompose(c, p, t, a, mid, b, t');
  }

  lemma OneMove<V(!new)>(c: Config, p: Pace, t: Timed<V>, m: Move<V>)
    requires TimedEnabled(c, p, t, m)
    ensures Reaches(c, p, t, TimedApply(c, t, m))
  {
    assert [m][1..] == [];
    assert TimedRun(c, p, t, [m], TimedApply(c, t, m));
  }

  function Plain<V>(s: Step<V>): Move<V> {
    Move(s, {})
  }

  /** What the steps of an update that comes across nothing do: a search and a poll, the polls with or without
      answers. */
  function AfterSearch<V>(c: Config, t: Timed<V>): Timed<V> {
    if WindowOpen(t.w.feed, t.w.now, c.timeout) then t.(searched := Some(t.w.now))
    else t.(w := t.w.(feed := t.w.feed.(before := {}), unsearched := t.w.unsearched + Below(t.w.feed.first)))
  }

  function AfterPoll<V>(c: Config, t: Timed<V>, answered: set<nat>): Timed<V> {
    var polled := Ticked(t.w.feed.tracker, c.pollPeriods);
    t.(w := t.w.(feed := t.w.feed.(tracker := polled), dropped := t.w.dropped + (t.w.feed.tracker.Keys - polled.Keys)),
       track := PolledAll(t.track, polled, t.w.now, answered))
  }

  function Updated<V>(c: Config, t: Timed<V>, answered: set<nat>): Timed<V> {
    AfterPoll(c, AfterSearch(c, t), answered)
  }

  /** A poll may come now with these answers, and none of them finds an event. */
  ghost predicate NothingPolled<V>(c: Config, p: Pace, t: Timed<V>, answered: set<nat>) {
    t.w.loading.None? && PollEnabled(c, p, t.w.feed.tracker, t.track, t.w.log, t.w.now, map[], answered)
  }

  /** While that range is searched, there is no event below the first one. */
  ghost predicate NoneBelow<V>(c: Config, t: Timed<V>) {
    WindowOpen(t.w.feed, t.w.now, c.timeout) ==> forall e :: e in t.w.log ==> t.w.feed.first <= e
  }

  lemma SearchesNothing<V(!new)>(c: Config, p: Pace, t: Timed<V>)
    requires t.w.loading.None? && t.w.feed.firstTime.Some? && NoneBelow(c, t)
    ensures Reaches(c, p, t, AfterSearch(c, t))
  {
    var none: seq<Event> := [];
    assert Ids(none) == {} && UnseenKeys(t.w.feed.before, none) == {};
    OneMove(c, p, t, Plain(DoSearch([])));
    assert TimedApply(c, t, Plain(DoSearch([]))) == AfterSearch(c, t);
  }

  lemma PollsNothing<V(!new)>(c: Config, p: Pace, t: Timed<V>, answered: set<nat>)
    requires NothingPolled(c, p, t, answered)
    ensures Reaches(c, p, t, AfterPoll(c, t, answered))
  {
    var m: Move<V> := Move(DoSelect(map[]), answered);
    OneMove(c, p, t, m);
    var none: map<nat, string> := map[];
    assert none.Values == {} && none.Keys == {};
    assert Ticked(t.w.feed.tracker, c.pollPeriods) - {} == Ticked(t.w.feed.tracker, c.pollPeriods);
    assert TimedApply(c, t, m) == AfterPoll(c, t, answered);
  }

  lemma SearchKeepsPoll<V(!new)>(c: Config, p: Pace, t: Timed<V>, answered: set<nat>)
    requires NothingPolled(c, p, t, answered)
    ensures NothingPolled(c, p, AfterSearch(c, t), answered)
  {
  }

  /** An update when there is no event below the first one to find and no answered ID has been committed. A scan that
      lists nothing above the last event changes nothing. */
  lemma UpdateReaches<V(!new)>(c: Config, p: Pace, t: Timed<V>, answered: set<nat>)
    requires t.w.loading.None? && t.w.feed.firstTime.Some? && NoneBelow(c, t)
    requires NothingPolled(c, p, t, answered)
    ensures Reaches(c, p, t, Updated(c, t, answered))
  {
    SearchesNothing(c, p, t);
    SearchKeepsPoll(c, p, t, answered);
    PollsNothing(c, p, AfterSearch(c, t), answered);
    ReachesOn(c, p, t, AfterSearch(c, t), Updated(c, t, answered));
  }

  const ROW_A: Row<int> := Row(8, None)

  /** Where the tracking of ID 2 stands. */
  datatype Stage = Stage(now: int, tracker: map<nat, nat>, track: map<nat, Track>, searched: Option<int>,
                         unsearched: set<nat>)

  /** It had n polls, and this is what came of them. */
  ghost predicate HadPolls(st: Stage, n: nat, k: Track) {
    st.tracker.Keys == {2} && st.tracker[2] == n && st.track.Keys == {2} && st.track[2] == k
  }

  /** A server that found events 1 and 3 when it started, at time 0, and has loaded and refreshed everything since. ID 2
      was skipped; `late` is when it is committed, if it has been. */
  function SkipAt(st: Stage, late: Option<int>): Timed<int> {
    var w := World(st.now, map[], map[], map[1 := "x", 3 := "y"], map[1 := 0, 3 := 0],
                   Feed({}, 1, Some(0), 3, st.tracker, {}), map[], None, 0, {1, 3}, {}, st.unsearched, {}, {}, true);
    Timed(if late.None? then w
          else w.(store := map["z" := ROW_A], rowIDs := map["z" := 1], log := w.log[2 := "z"],
                  committed := w.committed[2 := late.value], dirty := {"z"}, loadDirty := {"z"}),
          st.track, st.searched)
  }

  function Starting(): Timed<int> {
    Timed(World(0, map[], map[], map[1 := "x", 3 := "y"], map[1 := 0, 3 := 0], Feed({}, 0, None, 0, map[], {}), map[],
        None, 0,
                {}, {}, {}, {}, {}, false), map[], None)
  }

  function Scanned(st: Stage): Timed<int> {
    Timed(Starting().w.(feed := Feed({}, 1, Some(0), 3, st.tracker, {"x", "y"}), captured := {1, 3}), st.track, None)
  }

  lemma StartIsScanned(c: Config, p: Pace) returns (st: Stage)
    ensures st.now == 0 && st.searched == None && st.unsearched == {} && HadPolls(st, 0, Track(0, 0, None))
    ensures Reaches(c, p, Starting(), Scanned(st))
  {
    var t, events := Starting(), [Event(1, "x"), Event(3, "y")];
    var f1 := ScanOne(t.w.feed, events[0], 0);
    assert events[1..] == [events[1]] && [events[1]][1..] == [];
    assert Scan(t.w.feed, events, 0) == ScanOne(f1, events[1], 0);
    assert Ids(events) == {1, 3};
    OneMove(c, p, t, Plain(DoScan(events)));
    var t' := TimedApply(c, t, Plain(DoScan(events)));
    st := Stage(0, t'.w.feed.tracker, t'.track, None, {});
    assert t'.w.feed.tracker.Keys == {2};
    assert t' == Scanned(st);
  }

  function Loaded(st: Stage): Timed<int> {
    var t := Scanned(st);
    t.(w := t.w.(built := true))
  }

  lemma ScannedIsLoaded(c: Config, p: Pace, st: Stage)
    ensures Reaches(c, p, Scanned(st), Loaded(st))
  {
    var t := Scanned(st);
    var t1 := TimedApply(c, t, Plain(LoadBegin));
    OneMove(c, p, t, Plain(LoadBegin));
    OneMove(c, p, t1, Plain(LoadDone));
    assert TimedApply(c, t1, Plain(LoadDone)) == Loaded(st);
    ReachesOn(c, p, t, t1, Loaded(st));
  }

  lemma LoadedIsReady(c: Config, p: Pace, st: Stage)
    requires st.now == 0 && st.searched == None && st.unsearched == {}
    ensures Reaches(c, p, Loaded(st), SkipAt(st, None))
  {
    OneMove(c, p, Loaded(st), Plain(Refresh({"x", "y"})));
    assert TimedApply(c, Loaded(st), Plain(Refresh({"x", "y"}))) == SkipAt(st, None);
  }

  lemma StartIsReady(c: Config, p: Pace) returns (st: Stage)
    ensures st.now == 0 && HadPolls(st, 0, Track(0, 0, None)) && Reaches(c, p, Starting(), SkipAt(st, None))
  {
    st := StartIsScanned(c, p);
    ScannedIsLoaded(c, p, st);
    LoadedIsReady(c, p, st);
    ReachesOn(c, p, Starting(), Scanned(st), Loaded(st));
    ReachesOn(c, p, Starting(), Loaded(st), SkipAt(st, None));
  }

  /** One more poll of ID 2. */
  function Next(c: Config, st: Stage, answered: bool): Stage {
    var polled, open := Ticked(st.tracker, c.pollPeriods), st.now <= c.timeout;
    Stage(st.now, polled, PolledAll(st.track, polled, st.now, Answers(answered)),
          if open then Some(st.now) else st.searched, if open then st.unsearched else st.unsearched + Below(1))
  }

  function Answers(answered: bool): set<nat> {
    if answered then {2} else {}
  }

  lemma Waits(c: Config, p: Pace, st: Stage, late: Option<int>, now: int)
    requires st.now <= now
    ensures Reaches(c, p, SkipAt(st, late), SkipAt(st.(now := now), late))
  {
    OneMove(c, p, SkipAt(st, late), Plain(Tick(now)));
    assert TimedApply(c, SkipAt(st, late), Plain(Tick(now))) == SkipAt(st.(now := now), late);
  }

  lemma UpdatedIsNext(c: Config, st: Stage, late: Option<int>, answered: bool)
    requires st.tracker.Keys <= Ticked(st.tracker, c.pollPeriods).Keys
    ensures Updated(c, SkipAt(st, late), Answers(answered)) == SkipAt(Next(c, st, answered), late)
  {
    var t, t' := Updated(c, SkipAt(st, late), Answers(answered)), SkipAt(Next(c, st, answered), late);
    assert t.w.dropped == {};
    assert t.w == t'.w && t.track == t'.track;
  }

  lemma CanPoll(c: Config, p: Pace, st: Stage, late: Option<int>, answered: bool, n: nat, k: Track)
    requires HadPolls(st, n, k) && n < c.pollPeriods && (answered ==> late.None?) &&
             OnPace(p, k, n + 1, st.now, answered)
    ensures NothingPolled(c, p, SkipAt(st, late), Answers(answered))
  {
  }

  lemma Polls(c: Config, p: Pace, st: Stage, late: Option<int>, answered: bool, n: nat, k: Track)
    requires HadPolls(st, n, k) && n < c.pollPeriods && (answered ==> late.None?) &&
             OnPace(p, k, n + 1, st.now, answered)
    ensures Reaches(c, p, SkipAt(st, late), SkipAt(Next(c, st, answered), late))
    ensures HadPolls(Next(c, st, answered), n + 1, PolledOnce(k, st.now, answered))
  {
    assert Ticked(st.tracker, c.pollPeriods).Keys == {2};
    CanPoll(c, p, st, late, answered, n, k);
    UpdateReaches(c, p, SkipAt(st, late), Answers(answered));
    UpdatedIsNext(c, st, late, answered);
  }

  lemma Commits(c: Config, p: Pace, st: Stage)
    requires st.now < c.timeout
    ensures Reaches(c, p, SkipAt(st, None), SkipAt(st, Some(st.now)))
  {
    OneMove(c, p, SkipAt(st, None), Plain(Commit(2, "z", Some(ROW_A), 1)));
    assert TimedApply(c, SkipAt(st, None), Plain(Commit(2, "z", Some(ROW_A), 1))) == SkipAt(st, Some(st.now));
  }

  lemma Drops(c: Config, p: Pace, st: Stage, late: int, k: Track) returns (t: Timed<int>)
    requires HadPolls(st, c.pollPeriods, k)
    ensures Reaches(c, p, SkipAt(st, Some(late)), t) && LosesZ(t)
  {
    var t0 := SkipAt(st, Some(late));
    assert Ticked(st.tracker, c.pollPeriods).Keys == {};
    UpdateReaches(c, p, t0, {});
    t := Updated(c, t0, {});
    assert 2 in t.w.dropped;
  }

  /** The event of "z" lies above the first one and is lost; nothing is queued, and yet the cache lacks the entry. */
  ghost predicate LosesZ(t: Timed<int>) {
    && t.w.built && t.w.feed.fetch == {} && Lost(t.w, 2) && t.w.log[2] == "z" && t.w.feed.first == 1
    && Live(t.w.copy, "z", t.w.now) != Live(t.w.store, "z", t.w.now)
  }

  /** The earliest a paced n-th poll can come after time 0. */
  function PollTime(p: Pace, n: nat): int
    requires p.Paced?
  {
    if n * p.period <= p.slack then 0 else n * p.period - p.slack
  }

  lemma PollTimeGrows(p: Pace, n: nat)
    requires p.Paced? && p.period > 0 && p.slack >= 0
    ensures 0 <= PollTime(p, n) <= PollTime(p, n + 1) && PollTime(p, n + 1) >= (n + 1) * p.period - p.slack &&
            PollTime(p, 0) == 0
  {
    TimesGrows(n, n + 1, p.period);
  }

  lemma PollsAtNext(c: Config, p: Pace, st: Stage, late: Option<int>, answered: bool, n: nat, k: Track)
      returns (next: Stage)
    requires Sane(c, p) && p.Paced? && HadPolls(st, n, k) && n < c.pollPeriods && st.now == PollTime(p, n) &&
             k.since == 0
    requires if answered then late.None? else k.failed < p.fails
    ensures next.now == PollTime(p, n + 1) && HadPolls(next, n + 1, PolledOnce(k, next.now, answered))
    ensures Reaches(c, p, SkipAt(st, late), SkipAt(next, late))
  {
    PollTimeGrows(p, n);
    var waited := st.(now := PollTime(p, n + 1));
    Waits(c, p, st, late, waited.now);
    Polls(c, p, waited, late, answered, n, k);
    next := Next(c, waited, answered);
    ReachesOn(c, p, SkipAt(st, late), SkipAt(waited, late), SkipAt(next, late));
  }

  function AnsweredTrack(p: Pace, n: nat): Track
    requires p.Paced?
  {
    Track(0, 0, if n == 0 then None else Some(PollTime(p, n)))
  }

  lemma {:induction false} AnsweredPolls(c: Config, p: Pace, n: nat) returns (st: Stage)
    requires Sane(c, p) && p.Paced? && n <= c.pollPeriods
    ensures st.now == PollTime(p, n) && HadPolls(st, n, AnsweredTrack(p, n)) &&
            Reaches(c, p, Starting(), SkipAt(st, None))
  {
    if n == 0 {
      PollTimeGrows(p, 0);
      st := StartIsReady(c, p);
    } else {
      var before := AnsweredPolls(c, p, n - 1);
      st := PollsAtNext(c, p, before, None, true, n - 1, AnsweredTrack(p, n - 1));
      ReachesOn(c, p, Starting(), SkipAt(before, None), SkipAt(st, None));
    }
  }

  lemma {:induction false} UnansweredPolls(c: Config, p: Pace, st: Stage, late: int, n: nat, k: Track)
      returns (last: Stage, k': Track)
    requires Sane(c, p) && p.Paced? && HadPolls(st, n, k) && n <= c.pollPeriods && st.now == PollTime(p, n) &&
             k.since == 0
    requires k.failed + (c.pollPeriods - n) <= p.fails
    ensures HadPolls(last, c.pollPeriods, k') && Reaches(c, p, SkipAt(st, Some(late)), SkipAt(last, Some(late)))
    decreases c.pollPeriods - n
  {
    if n == c.pollPeriods {
      last, k' := st, k;
      Waits(c, p, st, Some(late), st.now);
    } else {
      var next := PollsAtNext(c, p, st, Some(late), false, n, k);
      last, k' := UnansweredPolls(c, p, next, late, n + 1, PolledOnce(k, next.now, false));
      ReachesOn(c, p, SkipAt(st, Some(late)), SkipAt(next, Some(late)), SkipAt(last, Some(late)));
    }
  }

  /** Wherever the answered polls do not cover the timeout, a run loses an ID above the first event: the last polls that
      may go unanswered do, and the ID is committed right after the last answered one. */
  lemma UncoveredPollsLose(c: Config, p: Pace) returns (t: Timed<int>)
    requires Sane(c, p) && p.Paced? && !PollsCover(c, p)
    ensures TimedInit(c, Starting()) && Reaches(c, p, Starting(), t) && LosesZ(t)
  {
    var answered := if p.fails < c.pollPeriods then c.pollPeriods - p.fails else 0;
    assert PollTime(p, answered) < c.timeout;
    var st := AnsweredPolls(c, p, answered);
    t := LosesFrom(c, p, st, answered, AnsweredTrack(p, answered));
    ReachesOn(c, p, Starting(), SkipAt(st, None), t);
  }

  lemma LosesFrom(c: Config, p: Pace, st: Stage, n: nat, k: Track) returns (t: Timed<int>)
    requires Sane(c, p) && p.Paced? && HadPolls(st, n, k) && n <= c.pollPeriods && st.now == PollTime(p, n) &&
             k.since == 0
    requires st.now < c.timeout && k.failed + (c.pollPeriods - n) <= p.fails
    ensures Reaches(c, p, SkipAt(st, None), t) && LosesZ(t)
  {
    var late := Some(st.now);
    Commits(c, p, st);
    var last, k' := UnansweredPolls(c, p, st, st.now, n, k);
    t := Drops(c, p, last, st.now, k');
    ReachesOn(c, p, SkipAt(st, None), SkipAt(st, late), SkipAt(last, late));
    ReachesOn(c, p, SkipAt(st, None), SkipAt(last, late), t);
  }

  /** No run loses an ID from the first event on. */
  ghost predicate TrackingSuffices(c: Config, p: Pace) {
    forall t0: Timed<int>, t, e: nat {:trigger Reaches(c, p, t0, t), Lost(t.w, e)} ::
      TimedInit(c, t0) && Reaches(c, p, t0, t) && Lost(t.w, e) ==> e < t.w.feed.first
  }

  /** Exactly when the answered polls cover the timeout. */
  lemma TrackingSufficesExactly(c: Config, p: Pace)
    requires Sane(c, p) && p.Paced?
    ensures TrackingSuffices(c, p) <==> (c.pollPeriods - p.fails) * p.period >= c.timeout + p.slack
  {
    if PollsCover(c, p) {
      forall t0: Timed<int>, t, e: nat | TimedInit(c, t0) && Reaches(c, p, t0, t) && Lost(t.w, e)
          ensures e < t.w.feed.first {
        var moves :| TimedRun(c, p, t0, moves, t);
        TrackerLosesNothing(c, p, t0, moves, t, e);
      }
    } else {
      var t := UncoveredPollsLose(c, p);
      assert Reaches(c, p, Starting(), t) && Lost(t.w, 2);
    }
  }

  /** As configured: with intervals and timeouts of at least a second, nothing is lost above the first event if and only
      if every poll is answered and the polls keep to their interval up to what rounding leaves. */
  lemma ConfiguredTrackingExactly(pollTime: int, timeout: int, slack: int, fails: nat)
    requires pollTime >= SECOND && timeout >= SECOND && slack >= 0
    ensures TrackingSuffices(Config(PollPeriods(pollTime, timeout), timeout), Paced(pollTime, slack, fails)) <==>
              fails == 0 && slack <= PollPeriods(pollTime, timeout) * pollTime - timeout
  {
    var n := PollPeriods(pollTime, timeout);
    PollPeriodsCover(pollTime, timeout);
    TrackingSufficesExactly(Config(n, timeout), Paced(pollTime, slack, fails));
    if fails > 0 {
      TimesGrows(n - fails, n - 1, pollTime);
    }
  }

  /** When all polls are on time and answered, nothing is lost above the first event if and only if the configured
      number of them reaches the timeout. Polls closer together than a second are counted as if a second apart, so with
      these some run loses an ID, for every timeout of whole seconds and for every other that they do not reach. */
  lemma SubSecondPollsLose(pollTime: int, timeout: int)
    requires pollTime > 0 && timeout > 0
    ensures var n := PollPeriods(pollTime, timeout);
            var suffices := TrackingSuffices(Config(n, timeout), Paced(pollTime, 0, 0));
            && (suffices <==> n * pollTime >= timeout)
            && (suffices <==> pollTime >= SECOND || Seconds(timeout) * pollTime >= timeout)
            && (timeout % SECOND == 0 ==> (suffices <==> pollTime >= SECOND))
  {
    PollsReachExactly(pollTime, timeout);
    TrackingSufficesExactly(Config(PollPeriods(pollTime, timeout), timeout), Paced(pollTime, 0, 0));
  }

  lemma {:induction false} PacedIsAnyhow<V>(c: Config, p: Pace, t: Timed<V>, moves: seq<Move<V>>, t': Timed<V>)
    requires TimedRun(c, p, t, moves, t')
    ensures TimedRun(c, Anyhow, t, moves, t')
    decreases |moves|
  {
    if moves != [] {
      PacedIsAnyhow(c, p, TimedApply(c, t, moves[0]), moves[1..], t');
    }
  }

  /** If polls may fail without limit, no number of them suffices. */
  lemma UnansweredPollsLose(c: Config)
    requires Sane(c, Anyhow)
    ensures !TrackingSuffices(c, Anyhow)
  {
    var p := Paced(1, 0, c.pollPeriods);
    var t := UncoveredPollsLose(c, p);
    var moves :| TimedRun(c, p, Starting(), moves, t);
    PacedIsAnyhow(c, p, Starting(), moves, t);
    assert Reaches(c, Anyhow, Starting(), t) && Lost(t.w, 2);
  }

  const ROW_B: Row<int> := Row(7, None)

  /** A server that starts when event 2, of "b", has been committed. */
  function FirstOnly(commit: int): Timed<int> {
    Timed(World(commit, map["b" := ROW_B], map["b" := 1], map[2 := "b"], map[2 := commit],
        Feed({}, 0, None, 0, map[], {}), map[],
                None, 0, {}, {}, {}, {}, {}, false), map[], None)
  }

  /** It noticed that event at `first` and has loaded and refreshed the entry; `late` is when event 1, of "a", is
      committed. */
  function FirstSeen(commit: int, first: int, now: int, searched: Option<int>, late: Option<int>): Timed<int> {
    var w := World(now, map["b" := ROW_B], map["b" := 1], map[2 := "b"], map[2 := commit],
        Feed({}, 2, Some(first), 2, map[], {}),
                   map["b" := ROW_B], None, 2, {2}, {}, {}, {}, {}, true);
    Timed(if late.None? then w
          else w.(store := w.store["a" := ROW_A], rowIDs := w.rowIDs["a" := 2], log := w.log[1 := "a"],
                  committed := w.committed[1 := late.value], dirty := {"a"}, loadDirty := {"a"}),
          map[], searched)
  }

  function FirstScanned(commit: int, first: int): Timed<int> {
    var t := FirstOnly(commit);
    t.(w := t.w.(now := first, feed := Feed({}, 2, Some(first), 2, map[], {"b"}), captured := {2}))
  }

  lemma FirstIsScanned(c: Config, p: Pace, commit: int, first: int)
    requires commit <= first
    ensures Reaches(c, p, FirstOnly(commit), FirstScanned(commit, first))
  {
    var t, events := FirstOnly(commit), [Event(2, "b")];
    var t1 := TimedApply(c, t, Plain(Tick(first)));
    OneMove(c, p, t, Plain(Tick(first)));
    assert Scan(t1.w.feed, events, first) == Scan(ScanOne(t1.w.feed, events[0], first), [], first);
    assert Ids(events) == {2};
    OneMove(c, p, t1, Plain(DoScan(events)));
    assert TimedApply(c, t1, Plain(DoScan(events))) == FirstScanned(commit, first);
    ReachesOn(c, p, t, t1, FirstScanned(commit, first));
  }

  function FirstLoading(commit: int, first: int): Timed<int> {
    var t := FirstScanned(commit, first);
    t.(w := t.w.(loading := Some(map["b" := ROW_B]), read := 2))
  }

  lemma FirstIsLoading(c: Config, p: Pace, commit: int, first: int)
    ensures Reaches(c, p, FirstScanned(commit, first), FirstLoading(commit, first))
  {
    var t := FirstScanned(commit, first);
    var t1 := TimedApply(c, t, Plain(LoadBegin));
    OneMove(c, p, t, Plain(LoadBegin));
    assert t1.w.loading.value + Listed(t1.w, 2) == map["b" := ROW_B];
    OneMove(c, p, t1, Plain(LoadPage(2)));
    assert TimedApply(c, t1, Plain(LoadPage(2))) == FirstLoading(commit, first);
    ReachesOn(c, p, t, t1, FirstLoading(commit, first));
  }

  lemma FirstIsSeen(c: Config, p: Pace, commit: int, first: int)
    ensures Reaches(c, p, FirstLoading(commit, first), FirstSeen(commit, first, first, None, None))
  {
    var t := FirstLoading(commit, first);
    var t1 := TimedApply(c, t, Plain(LoadDone));
    OneMove(c, p, t, Plain(LoadDone));
    assert Reread(t1.w.copy, t1.w.store, {"b"}) == map["b" := ROW_B];
    OneMove(c, p, t1, Plain(Refresh({"b"})));
    assert TimedApply(c, t1, Plain(Refresh({"b"}))) == FirstSeen(commit, first, first, None, None);
    ReachesOn(c, p, t, t1, FirstSeen(commit, first, first, None, None));
  }

  lemma StartIsSeen(c: Config, p: Pace, commit: int, first: int)
    requires commit <= first
    ensures Reaches(c, p, FirstOnly(commit), FirstSeen(commit, first, first, None, None))
  {
    FirstIsScanned(c, p, commit, first);
    FirstIsLoading(c, p, commit, first);
    FirstIsSeen(c, p, commit, first);
    ReachesOn(c, p, FirstOnly(commit), FirstScanned(commit, first), FirstLoading(commit, first));
    ReachesOn(c, p, FirstOnly(commit), FirstLoading(commit, first), FirstSeen(commit, first, first, None, None));
  }

  lemma PassesTime(c: Config, p: Pace, commit: int, first: int, now: int, searched: Option<int>, late: Option<int>,
                   later: int)
    requires now <= later
    ensures Reaches(c, p, FirstSeen(commit, first, now, searched, late),
            FirstSeen(commit, first, later, searched, late))
  {
    OneMove(c, p, FirstSeen(commit, first, now, searched, late), Plain(Tick(later)));
  }

  lemma LastSearch(c: Config, p: Pace, commit: int, first: int, search: int)
    requires first <= search <= first + c.timeout
    ensures Reaches(c, p, FirstSeen(commit, first, first, None, None),
            FirstSeen(commit, first, search, Some(search), None))
  {
    var t := FirstSeen(commit, first, search, None, None);
    PassesTime(c, p, commit, first, first, None, None, search);
    SearchesNothing(c, p, t);
    assert AfterSearch(c, t) == FirstSeen(commit, first, search, Some(search), None);
    ReachesOn(c, p, FirstSeen(commit, first, first, None, None), t,
        FirstSeen(commit, first, search, Some(search), None));
  }

  lemma CommitsBelow(c: Config, p: Pace, commit: int, first: int, search: int)
    requires search < commit + c.timeout
    ensures Reaches(c, p, FirstSeen(commit, first, search, Some(search), None),
            FirstSeen(commit, first, search, Some(search), Some(search)))
  {
    var t, m := FirstSeen(commit, first, search, Some(search), None), Plain(Commit(1, "a", Some(ROW_A), 2));
    OneMove(c, p, t, m);
    assert TimedApply(c, t, m) == FirstSeen(commit, first, search, Some(search), Some(search));
  }

  /** The event of "a" lies below the first one and is lost; nothing is queued, and yet the cache lacks the entry. */
  ghost predicate LosesA(t: Timed<int>) {
    && t.w.built && t.w.feed.fetch == {} && Lost(t.w, 1) && t.w.log[1] == "a" && t.w.feed.first == 2
    && Live(t.w.copy, "a", t.w.now) != Live(t.w.store, "a", t.w.now)
  }

  lemma WindowCloses(c: Config, p: Pace, commit: int, first: int, search: int, later: int) returns (t: Timed<int>)
    requires search <= later && first + c.timeout < later
    ensures Reaches(c, p, FirstSeen(commit, first, search, Some(search), Some(search)), t) && LosesA(t)
    ensures t.searched == Some(search) && t.w.feed.firstTime == Some(first)
    ensures 2 in t.w.committed && t.w.committed[2] == commit
  {
    var t0 := FirstSeen(commit, first, later, Some(search), Some(search));
    PassesTime(c, p, commit, first, search, Some(search), Some(search), later);
    SearchesNothing(c, p, t0);
    t := AfterSearch(c, t0);
    assert 1 in t.w.unsearched;
    ReachesOn(c, p, FirstSeen(commit, first, search, Some(search), Some(search)), t0, t);
  }

  /** A run in which the last search came at `search`, before the timeout, and the next update after the window had
      closed. An event committed in between is never seen. With nothing tracked, polls change nothing. */
  lemma EarlySearchLoses(c: Config, p: Pace, commit: int, first: int, search: int) returns (t: Timed<int>)
    requires Sane(c, p) && commit <= first <= search < commit + c.timeout
    ensures TimedInit(c, FirstOnly(commit)) && Reaches(c, p, FirstOnly(commit), t) && LosesA(t)
    ensures t.searched == Some(search) && t.w.feed.firstTime == Some(first)
    ensures 2 in t.w.committed && t.w.committed[2] == commit
  {
    var missed := FirstSeen(commit, first, search, Some(search), Some(search));
    MissesEvent(c, p, commit, first, search);
    t := WindowCloses(c, p, commit, first, search, first + c.timeout + 1);
    ReachesOn(c, p, FirstOnly(commit), missed, t);
  }

  lemma MissesEvent(c: Config, p: Pace, commit: int, first: int, search: int)
    requires commit <= first <= search < commit + c.timeout
    ensures Reaches(c, p, FirstOnly(commit), FirstSeen(commit, first, search, Some(search), Some(search)))
  {
    var seen, searched := FirstSeen(commit, first, first, None, None),
        FirstSeen(commit, first, search, Some(search), None);
    StartIsSeen(c, p, commit, first);
    LastSearch(c, p, commit, first, search);
    CommitsBelow(c, p, commit, first, search);
    ReachesOn(c, p, FirstOnly(commit), seen, searched);
    ReachesOn(c, p, FirstOnly(commit), searched, FirstSeen(commit, first, search, Some(search), Some(search)));
  }

  /** A server that starts with nothing stored and has loaded that. */
  function EmptyServer(now: int, built: bool): Timed<int> {
    Timed(World(now, map[], map[], map[], map[], Feed({}, 0, None, 0, map[], {}), map[], None, 0, {}, {}, {}, {}, {},
                built), map[], None)
  }

  lemma EmptyIsLoaded(c: Config, p: Pace, commit: int)
    ensures Reaches(c, p, EmptyServer(commit, false), EmptyServer(commit, true))
  {
    var t := EmptyServer(commit, false);
    var t1 := TimedApply(c, t, Plain(LoadBegin));
    OneMove(c, p, t, Plain(LoadBegin));
    OneMove(c, p, t1, Plain(LoadDone));
    assert TimedApply(c, t1, Plain(LoadDone)) == EmptyServer(commit, true);
    ReachesOn(c, p, t, t1, EmptyServer(commit, true));
  }

  /** Event 2, of "b", and then event 1, of "a", have been committed. */
  function BothCommitted(commit: int, now: int): Timed<int> {
    var t := EmptyServer(now, true);
    t.(w := t.w.(store := map["b" := ROW_B, "a" := ROW_A], rowIDs := map["b" := 1, "a" := 2],
                 log := map[2 := "b", 1 := "a"], committed := map[2 := commit, 1 := commit],
                 dirty := {"a", "b"}, loadDirty := {"a", "b"}))
  }

  function OneCommitted(commit: int): Timed<int> {
    var t := EmptyServer(commit, true);
    t.(w := t.w.(store := map["b" := ROW_B], rowIDs := map["b" := 1], log := map[2 := "b"],
                 committed := map[2 := commit], dirty := {"b"}, loadDirty := {"b"}))
  }

  lemma OneIsCommitted(c: Config, p: Pace, commit: int)
    ensures Reaches(c, p, EmptyServer(commit, true), OneCommitted(commit))
  {
    var t, m := EmptyServer(commit, true), Plain(Commit(2, "b", Some(ROW_B), 1));
    OneMove(c, p, t, m);
    assert TimedApply(c, t, m) == OneCommitted(commit);
  }

  lemma BothAreCommitted(c: Config, p: Pace, commit: int)
    requires c.timeout > 0
    ensures Reaches(c, p, OneCommitted(commit), BothCommitted(commit, commit))
  {
    var t, m := OneCommitted(commit), Plain(Commit(1, "a", Some(ROW_A), 2));
    OneMove(c, p, t, m);
    assert TimedApply(c, t, m) == BothCommitted(commit, commit);
  }

  /** The second one was noticed at `first`, by a scan that did not list the other yet. */
  function NoticedSecond(commit: int, first: int): Timed<int> {
    var t := BothCommitted(commit, first);
    t.(w := t.w.(feed := Feed({}, 2, Some(first), 2, map[], {"b"}), captured := {2}))
  }

  lemma ScanLags(c: Config, p: Pace, commit: int, first: int)
    requires commit <= first
    ensures Reaches(c, p, BothCommitted(commit, commit), NoticedSecond(commit, first))
  {
    var t, t1, events := BothCommitted(commit, commit), BothCommitted(commit, first), [Event(2, "b")];
    OneMove(c, p, t, Plain(Tick(first)));
    assert TimedApply(c, t, Plain(Tick(first))) == t1;
    assert Scan(t1.w.feed, events, first) == Scan(ScanOne(t1.w.feed, events[0], first), [], first);
    assert Ids(events) == {2};
    OneMove(c, p, t1, Plain(DoScan(events)));
    assert TimedApply(c, t1, Plain(DoScan(events))) == NoticedSecond(commit, first);
    ReachesOn(c, p, t, t1, NoticedSecond(commit, first));
  }

  /** It has been refreshed. */
  function NeverSearched(commit: int, first: int, now: int): Timed<int> {
    var t := NoticedSecond(commit, first);
    t.(w := t.w.(now := now, feed := t.w.feed.(fetch := {}), copy := map["b" := ROW_B], dirty := {"a"}))
  }

  lemma SecondIsRefreshed(c: Config, p: Pace, commit: int, first: int)
    ensures Reaches(c, p, NoticedSecond(commit, first), NeverSearched(commit, first, first))
  {
    var t := NoticedSecond(commit, first);
    assert Reread(t.w.copy, t.w.store, {"b"}) == map["b" := ROW_B];
    OneMove(c, p, t, Plain(Refresh({"b"})));
    assert TimedApply(c, t, Plain(Refresh({"b"}))) == NeverSearched(commit, first, first);
  }

  lemma TimePassesUnsearched(c: Config, p: Pace, commit: int, first: int, later: int)
    requires first <= later
    ensures Reaches(c, p, NeverSearched(commit, first, first), NeverSearched(commit, first, later))
  {
    OneMove(c, p, NeverSearched(commit, first, first), Plain(Tick(later)));
  }

  lemma ReachesUnsearched(c: Config, p: Pace, commit: int, first: int, later: int)
    requires c.timeout > 0 && commit <= first <= later
    ensures Reaches(c, p, EmptyServer(commit, false), NeverSearched(commit, first, later))
  {
    var start := EmptyServer(commit, false);
    EmptyIsLoaded(c, p, commit);
    OneIsCommitted(c, p, commit);
    BothAreCommitted(c, p, commit);
    ScanLags(c, p, commit, first);
    SecondIsRefreshed(c, p, commit, first);
    TimePassesUnsearched(c, p, commit, first, later);
    ReachesOn(c, p, start, EmptyServer(commit, true), OneCommitted(commit));
    ReachesOn(c, p, start, OneCommitted(commit), BothCommitted(commit, commit));
    ReachesOn(c, p, start, BothCommitted(commit, commit), NoticedSecond(commit, first));
    ReachesOn(c, p, start, NoticedSecond(commit, first), NeverSearched(commit, first, first));
    ReachesOn(c, p, start, NeverSearched(commit, first, first), NeverSearched(commit, first, later));
  }

  /** A run in which no search came before the window had closed. However late the first event was noticed, the scan
      that noticed it may have missed a lower one, and nothing looks for that any more. */
  lemma UnsearchedLoses(c: Config, p: Pace, commit: int, first: int) returns (t: Timed<int>)
    requires Sane(c, p) && commit <= first
    ensures TimedInit(c, EmptyServer(commit, false)) && Reaches(c, p, EmptyServer(commit, false), t) && LosesA(t)
    ensures LastSearchedAt(t, commit, first, None)
  {
    var later := first + c.timeout + 1;
    var t0 := NeverSearched(commit, first, later);
    ReachesUnsearched(c, p, commit, first, later);
    SearchesNothing(c, p, t0);
    t := AfterSearch(c, t0);
    assert 1 in t.w.unsearched;
    ReachesOn(c, p, EmptyServer(commit, false), t0, t);
  }

  /** No run whose last search below the first event came at `search`, or never, has lost anything there. */
  ghost predicate SearchSuffices(c: Config, p: Pace, commit: int, first: int, search: Option<int>) {
    forall t0: Timed<int>, t, e: nat {:trigger Reaches(c, p, t0, t), Lost(t.w, e)} ::
      TimedInit(c, t0) && Reaches(c, p, t0, t) && LastSearchedAt(t, commit, first, search) && Lost(t.w, e) ==>
          t.w.feed.first < e
  }

  predicate LastSearchedAt(t: Timed<int>, commit: int, first: int, search: Option<int>) {
    && t.searched == search && t.w.feed.firstTime == Some(first)
    && t.w.feed.first in t.w.committed && t.w.committed[t.w.feed.first] == commit
  }

  /** However the polls come, there must be a search no earlier than a timeout after the first event was committed. */
  lemma SearchSufficesExactly(c: Config, p: Pace, commit: int, first: int, search: Option<int>)
    requires Sane(c, p) && commit <= first && (search.Some? ==> first <= search.value)
    ensures SearchSuffices(c, p, commit, first, search) <==> search.Some? && commit + c.timeout <= search.value
  {
    if search.None? {
      var t := UnsearchedLoses(c, p, commit, first);
      assert Reaches(c, p, EmptyServer(commit, false), t) && Lost(t.w, 1);
    } else if commit + c.timeout <= search.value {
      LateSearchSuffices(c, p, commit, first, search.value);
    } else {
      var t := EarlySearchLoses(c, p, commit, first, search.value);
      assert Reaches(c, p, FirstOnly(commit), t) && Lost(t.w, 1) && LastSearchedAt(t, commit, first, search);
    }
  }

  lemma LateSearchSuffices(c: Config, p: Pace, commit: int, first: int, search: int)
    requires Sane(c, p) && commit + c.timeout <= search
    ensures SearchSuffices(c, p, commit, first, Some(search))
  {
    forall t0: Timed<int>, t, e: nat
      | TimedInit(c, t0) && Reaches(c, p, t0, t) && LastSearchedAt(t, commit, first, Some(search)) && Lost(t.w, e)
      ensures t.w.feed.first < e
    {
      var moves :| TimedRun(c, p, t0, moves, t);
      SearchedLateLosesNothing(c, p, t0, moves, t, e);
    }
  }

  /** When the last search comes if the updates are `period` apart. The update that notices the first event searches
      before it scans, so with a period above the timeout there is none. */
  function LastSearchTime(first: int, period: int, timeout: int): Option<int>
    requires period > 0
  {
    if period > timeout then None else Some(first + timeout / period * period)
  }

  /** That is the last update whose search is still in the window, the n-th after the first event was noticed. */
  lemma LastSearchIsLast(first: int, period: int, timeout: int, n: nat)
    requires period > 0 && timeout > 0 && n >= 1
    ensures var search := LastSearchTime(first, period, timeout);
            if search.Some? then n * period <= timeout <==> first + n * period <= search.value
            else n * period > timeout
  {
    if period <= timeout {
      var q := timeout / period;
      Divides(timeout, period, q);
      TimesGrows(if n <= q then n else q + 1, if n <= q then q else n, period);
    } else {
      TimesGrows(1, n, period);
    }
  }

  lemma Divides(a: int, b: int, q: int)
    requires b > 0 && q == a / b
    ensures q * b <= a < (q + 1) * b
  {
    assert a == q * b + a % b;
  }

  /** With updates every `period`, nothing below the first event can be lost if and only if there is a search, and that
      event was noticed late by at least what the timeout exceeds a whole number of periods; so for every first event if
      and only if the period divides the timeout. */
  lemma PeriodicSearchSufficesExactly(c: Config, p: Pace, first: int, period: int)
    requires Sane(c, p) && period > 0
    ensures var search := LastSearchTime(first, period, c.timeout);
            && (forall commit :: commit <= first ==>
               (SearchSuffices(c, p, commit, first, search) <==>
                   period <= c.timeout && c.timeout % period <= first - commit))
            && ((forall commit :: commit <= first ==> SearchSuffices(c, p, commit, first, search)) <==>
               c.timeout % period == 0)
  {
    var search := LastSearchTime(first, period, c.timeout);
    assert search.Some? ==> search.value == first + c.timeout - c.timeout % period && first <= search.value;
    forall commit | commit <= first
      ensures SearchSuffices(c, p, commit, first, search) <==>
              period <= c.timeout && c.timeout % period <= first - commit
    {
      SearchSufficesExactly(c, p, commit, first, search);
    }
    assert SearchSuffices(c, p, first, first, search) <==> c.timeout % period == 0;
  }
}
