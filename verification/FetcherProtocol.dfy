/** The event-driven cache as a transition system: commits to the datastore interleaved with the fetcher's steps. The
    cached rows are `copy`; `store` is what a fresh load would give. */
module FetcherProtocol {
  import opened Types
  import opened EventFeed

  /** A cached row. Attested nodes expire; registration entries do not. */
  datatype Row<V> = Row(value: V, expiresAt: Option<int>)

  predicate Expired<V>(r: Row<V>, now: int) {
    r.expiresAt.Some? && r.expiresAt.value <= now
  }

  function Live<V>(m: map<string, Row<V>>, k: string, now: int): Option<Row<V>> {
    if k in m && !Expired(m[k], now) then Some(m[k]) else None
  }

  datatype Config = Config(pollPeriods: nat, timeout: int)

  /** `log` is the event table and `committed` when each event was committed. `rowIDs` are the IDs of the stored rows,
      by which they are listed. `loading` is the cache a reload is filling, which has listed the rows with IDs below
      `read`. The last six fields are history: events whose key has been queued, IDs given up by the tracker, IDs given
      up when the search below the first event ended, keys changed since their cached copy was read, keys changed during
      the load, and whether the first load has finished. */
  datatype World<V> = World(
    now: int, store: map<string, Row<V>>, rowIDs: map<string, nat>, log: map<nat, string>, committed: map<nat, int>,
    feed: Feed, copy: map<string, Row<V>>, loading: Option<map<string, Row<V>>>, read: nat,
    captured: set<nat>, dropped: set<nat>, unsearched: set<nat>, dirty: set<string>, loadDirty: set<string>,
        built: bool)

  datatype Step<V> =
    | Tick(to: int)
    | Commit(event: nat, key: string, row: Option<Row<V>>, rowID: nat)
    | DoSearch(events: seq<Event>)
    | DoSelect(hits: map<nat, string>)
    | DoScan(events: seq<Event>)
    | Refresh(page: set<string>)
    | LoadBegin
    | LoadPage(upto: nat)
    | LoadDone
    | LoadFail
    | Prune

  /** A listing holds committed events in ascending order. It need not hold all of them: a replica may lag. */
  predicate Listing<V>(w: World<V>, events: seq<Event>) {
    Ascending(events) && forall ev :: ev in events ==> ev.id in w.log && w.log[ev.id] == ev.key
  }

  /** What the datastore and the single update task allow. The fetcher never works on events while it reloads. A page
      lists the rows there are up to some ID, and a load is done when there are none behind the last page but those
      that commits put there meanwhile. */
  ghost predicate Enabled<V>(c: Config, w: World<V>, s: Step<V>) {
    match s
    case Tick(to) => w.now <= to
    case Commit(event, key, row, rowID) =>
      event !in w.log && (row.Some? && key !in w.store ==> forall k :: k in w.rowIDs ==> w.rowIDs[k] != rowID)
    case DoSearch(events) => w.loading.None? && Listing(w, events) && forall ev :: ev in events ==> ev.id < w.feed.first
    case DoSelect(hits) =>
      && w.loading.None?
      && forall e :: e in hits ==> e in Ticked(w.feed.tracker, c.pollPeriods) && e in w.log && w.log[e] == hits[e]
    case DoScan(events) => w.loading.None? && Listing(w, events) &&
        (w.feed.firstTime.Some? ==> forall ev :: ev in events ==> ev.id > w.feed.last)
    case Refresh(page) => w.built && w.loading.None? && page <= w.feed.fetch
    case LoadBegin => w.loading.None?
    case LoadPage(upto) => w.loading.Some? && w.read < upto
    case LoadDone => w.loading.Some? && forall k :: k in w.rowIDs ==> w.rowIDs[k] < w.read || k in w.loadDirty
    case LoadFail => w.loading.Some? && w.built
    case Prune => w.built && w.loading.None?
  }

  function Reread<V>(m: map<string, Row<V>>, store: map<string, Row<V>>, page: set<string>): map<string, Row<V>> {
    map k | k in m.Keys + store.Keys && (if k in page then k in store else k in m) :: if k in page then store[k]
        else m[k]
  }

  /** The rows of the next page that have not expired. */
  function Listed<V>(w: World<V>, upto: nat): map<string, Row<V>> {
    map k | k in w.store && k in w.rowIDs && w.read <= w.rowIDs[k] < upto && !Expired(w.store[k], w.now) :: w.store[k]
  }

  function Apply<V>(c: Config, w: World<V>, s: Step<V>): World<V>
    requires Enabled(c, w, s)
  {
    match s
    case Tick(to) => w.(now := to)
    case Commit(event, key, row, rowID) =>
      w.(store := if row.Some? then w.store[key := row.value] else w.store - {key},
         rowIDs := if row.None? then w.rowIDs - {key} else if key in w.store then w.rowIDs else w.rowIDs[key := rowID],
         log := w.log[event := key], committed := w.committed[event := w.now],
         dirty := w.dirty + {key}, loadDirty := w.loadDirty + {key})
    case DoSearch(events) =>
      w.(feed := Search(w.feed, w.now, c.timeout, events),
         captured := if WindowOpen(w.feed, w.now, c.timeout) then w.captured + Ids(events) else w.captured,
         unsearched := if w.feed.firstTime.None? || WindowOpen(w.feed, w.now, c.timeout) then w.unsearched
                       else w.unsearched + Below(w.feed.first))
    case DoSelect(hits) =>
      w.(feed := Select(w.feed, c.pollPeriods, hits), captured := w.captured + hits.Keys,
         dropped := w.dropped + (w.feed.tracker.Keys - Ticked(w.feed.tracker, c.pollPeriods).Keys))
    case DoScan(events) => w.(feed := Scan(w.feed, events, w.now), captured := w.captured + Ids(events))
    case Refresh(page) =>
      w.(copy := Reread(w.copy, w.store, page), dirty := w.dirty - page, feed := w.feed.(fetch := w.feed.fetch - page))
    case LoadBegin => w.(loading := Some(map[]), read := 0, loadDirty := {})
    case LoadPage(upto) => w.(loading := Some(w.loading.value + Listed(w, upto)), read := upto)
    case LoadDone =>
      w.(copy := w.loading.value, loading := None, dirty := w.loadDirty, built := true,
         feed := if w.built then w.feed.(fetch := {}) else w.feed)
    case LoadFail => w.(loading := None)
    case Prune => w.(copy := map k | k in w.copy && !Expired(w.copy[k], w.now) :: w.copy[k])
  }

  /** A server that starts: nothing cached, no event seen. */
  ghost predicate Init<V>(w: World<V>) {
    && w.feed == Feed({}, 0, None, 0, map[], {}) && w.loading.None? && !w.built && w.rowIDs.Keys == w.store.Keys
    && w.committed.Keys == w.log.Keys && (forall e :: e in w.committed ==> w.committed[e] <= w.now)
    && w.captured == {} && w.dropped == {} && w.unsearched == {}
  }

  /** An uncaptured event the fetcher will still come across: above the last event, tracked, or below the first while
      that range is searched. */
  predicate Witness<V>(w: World<V>, e: nat) {
    && e in w.log && e !in w.captured
    && (w.feed.firstTime.None? || e > w.feed.last || e in w.feed.tracker || (e < w.feed.first && e !in w.unsearched))
  }

  /** An uncaptured event the fetcher has given up on. */
  predicate Lost<V>(w: World<V>, e: nat) {
    e in w.log && e !in w.captured && (e in w.dropped || e in w.unsearched)
  }

  ghost predicate HasEvent<V>(w: World<V>, k: string) {
    exists e :: e in w.log && w.log[e] == k && e !in w.captured
  }

  /** Every ID from the first event to the last has been queued, is tracked, or was tracked for all its polls. */
  ghost predicate FeedInv(f: Feed, captured: set<nat>, dropped: set<nat>, unsearched: set<nat>) {
    && (f.firstTime.None? ==> f.tracker == map[] && captured == {} && unsearched == {} && dropped == {})
    && (f.firstTime.Some? ==> f.first <= f.last && f.first in captured)
    && (f.firstTime.Some? ==> forall e: nat :: f.first <= e <= f.last ==>
       e in captured || e in f.tracker || e in dropped)
    && (forall e :: e in f.tracker ==> f.first < e < f.last)
    && (forall e :: e in f.tracker ==> e !in captured)
    && (forall e :: e in captured ==> e <= f.last)
    && (forall e :: e in f.before ==> e in captured)
    && (forall e :: e in unsearched ==> e < f.first)
    && (forall e :: e in dropped ==> f.first < e < f.last && e !in captured && e !in f.tracker)
  }

  /** A key whose cached copy may be out of date is queued or has an uncaptured event. */
  ghost predicate DirtyInv<V>(w: World<V>) {
    && (w.built ==> forall k :: k in w.dirty ==> k in w.feed.fetch || HasEvent(w, k))
    && (w.loading.Some? ==> forall k :: k in w.loadDirty ==> HasEvent(w, k))
  }

  /** A key that is not dirty is cached as the datastore has it. */
  ghost predicate CopyInv<V>(w: World<V>) {
    && (w.built ==> forall k :: k !in w.dirty ==> Live(w.copy, k, w.now) == Live(w.store, k, w.now))
    && (w.loading.Some? ==> forall k :: k in w.loading.value && k !in w.loadDirty ==>
       k in w.store && w.loading.value[k] == w.store[k])
    && (w.loading.Some? ==> ReadSoFar(w))
  }

  /** Every row listed so far that has not changed since the load began has been read. */
  ghost predicate ReadSoFar<V>(w: World<V>)
    requires w.loading.Some?
  {
    forall k :: k in w.store && k in w.rowIDs && w.rowIDs[k] < w.read && k !in w.loadDirty ==>
                  k in w.loading.value || Expired(w.store[k], w.now)
  }

  ghost predicate Inv<V>(w: World<V>) {
    && FeedInv(w.feed, w.captured, w.dropped, w.unsearched) && w.captured <= w.log.Keys
    && w.rowIDs.Keys == w.store.Keys && DirtyInv(w) && CopyInv(w)
  }

  lemma ScanOneInv(f: Feed, captured: set<nat>, dropped: set<nat>, unsearched: set<nat>, ev: Event, now: int)
    requires FeedInv(f, captured, dropped, unsearched) && (f.firstTime.Some? ==> ev.id > f.last)
    ensures FeedInv(ScanOne(f, ev, now), captured + {ev.id}, dropped, unsearched)
  {
  }

  lemma ListingTail(events: seq<Event>)
    requires Ascending(events) && events != []
    ensures Ids(events) == {events[0].id} + Ids(events[1..]) && Keys(events) == {events[0].key} + Keys(events[1..])
    ensures Ascending(events[1..]) && forall ev :: ev in events[1..] ==> ev.id > events[0].id
  {
    assert events == [events[0]] + events[1..];
  }

  lemma {:induction false} ScanInv(f: Feed, captured: set<nat>, dropped: set<nat>, unsearched: set<nat>,
                                   events: seq<Event>, now: int)
    requires FeedInv(f, captured, dropped, unsearched) && Ascending(events)
    requires f.firstTime.Some? ==> forall ev :: ev in events ==> ev.id > f.last
    ensures FeedInv(Scan(f, events, now), captured + Ids(events), dropped, unsearched)
    decreases |events|
  {
    if events == [] {
      assert captured + Ids(events) == captured;
    } else {
      ListingTail(events);
      ScanOneInv(f, captured, dropped, unsearched, events[0], now);
      ScanInv(ScanOne(f, events[0], now), captured + {events[0].id}, dropped, unsearched, events[1..], now);
      assert captured + Ids(events) == captured + {events[0].id} + Ids(events[1..]);
    }
  }

  lemma {:induction false} ScanFetches(f: Feed, events: seq<Event>, now: int)
    requires Ascending(events)
    ensures Scan(f, events, now).fetch == f.fetch + Keys(events)
    ensures Scan(f, events, now).before == f.before
    ensures f.firstTime.Some? ==> Scan(f, events, now).first == f.first && Scan(f, events, now).firstTime == f.firstTime
    decreases |events|
  {
    if events != [] {
      ListingTail(events);
      ScanFetches(ScanOne(f, events[0], now), events[1..], now);
    }
  }

  lemma SearchInv(c: Config, f: Feed, captured: set<nat>, dropped: set<nat>, unsearched: set<nat>, events: seq<Event>,
                  now: int)
    requires FeedInv(f, captured, dropped, unsearched) && forall ev :: ev in events ==> ev.id < f.first
    requires WindowOpen(f, now, c.timeout)
    ensures FeedInv(Search(f, now, c.timeout, events), captured + Ids(events), dropped, unsearched)
  {
    assert forall e :: e in Ids(events) ==> e < f.first;
  }

  lemma SelectInv(c: Config, f: Feed, captured: set<nat>, dropped: set<nat>, unsearched: set<nat>,
                  hits: map<nat, string>)
    requires FeedInv(f, captured, dropped, unsearched) && hits.Keys <= Ticked(f.tracker, c.pollPeriods).Keys
    ensures FeedInv(Select(f, c.pollPeriods, hits), captured + hits.Keys,
                    dropped + (f.tracker.Keys - Ticked(f.tracker, c.pollPeriods).Keys), unsearched)
  {
  }

  /** Only a key the search, the poll or the scan queues leaves its uncaptured event behind. */
  lemma CaptureKeepsDirty<V>(w: World<V>, w': World<V>)
    requires DirtyInv(w) && w.loading.None? && w'.loading.None?
    requires w'.log == w.log && w'.dirty == w.dirty && w'.built == w.built && w.feed.fetch <= w'.feed.fetch
    requires forall e :: e in w.log && e in w'.captured && e !in w.captured ==> w.log[e] in w'.feed.fetch
    ensures DirtyInv(w')
  {
    forall k | w.built && k in w.dirty && k !in w'.feed.fetch ensures HasEvent(w', k) {
      var e :| e in w.log && w.log[e] == k && e !in w.captured;
      assert e in w'.log && w'.log[e] == k && e !in w'.captured;
    }
  }

  lemma EventsStay<V>(w: World<V>, w': World<V>)
    requires w.captured == w'.captured && forall e :: e in w.log ==> e in w'.log && w'.log[e] == w.log[e]
    ensures forall k :: HasEvent(w, k) ==> HasEvent(w', k)
  {
    forall k | HasEvent(w, k) ensures HasEvent(w', k) {
      var e :| e in w.log && w.log[e] == k && e !in w.captured;
      assert e in w'.log && w'.log[e] == k;
    }
  }

  lemma CommitKeepsCopy<V>(c: Config, w: World<V>, s: Step<V>)
    requires CopyInv(w) && w.rowIDs.Keys == w.store.Keys && Enabled(c, w, s) && s.Commit?
    ensures CopyInv(Apply(c, w, s))
  {
  }

  lemma CommitKeepsInv<V>(c: Config, w: World<V>, s: Step<V>)
    requires Inv(w) && Enabled(c, w, s) && s.Commit?
    ensures Inv(Apply(c, w, s))
  {
    var w' := Apply(c, w, s);
    assert HasEvent(w', s.key) by {
      assert s.event in w'.log && w'.log[s.event] == s.key && s.event !in w'.captured;
    }
    EventsStay(w, w');
    CommitKeepsCopy(c, w, s);
  }

  lemma CaptureKeepsInv<V>(c: Config, w: World<V>, s: Step<V>)
    requires Inv(w) && Enabled(c, w, s) && (s.DoSearch? || s.DoSelect? || s.DoScan?)
    ensures Inv(Apply(c, w, s))
  {
    var w' := Apply(c, w, s);
    match s
    case DoSearch(events) =>
      if WindowOpen(w.feed, w.now, c.timeout) {
        SearchInv(c, w.feed, w.captured, w.dropped, w.unsearched, events, w.now);
      }
      CaptureKeepsDirty(w, w');
    case DoSelect(hits) =>
      SelectInv(c, w.feed, w.captured, w.dropped, w.unsearched, hits);
      assert forall e :: e in hits ==> hits[e] in hits.Values;
      CaptureKeepsDirty(w, w');
    case DoScan(events) =>
      ScanInv(w.feed, w.captured, w.dropped, w.unsearched, events, w.now);
      ScanFetches(w.feed, events, w.now);
      CaptureKeepsDirty(w, w');
  }

  lemma LoadKeepsCopy<V>(c: Config, w: World<V>, s: Step<V>)
    requires CopyInv(w) && w.rowIDs.Keys == w.store.Keys && Enabled(c, w, s)
    requires s.LoadBegin? || s.LoadPage? || s.LoadDone? || s.LoadFail?
    ensures CopyInv(Apply(c, w, s))
  {
  }

  lemma LoadKeepsInv<V>(c: Config, w: World<V>, s: Step<V>)
    requires Inv(w) && Enabled(c, w, s) && (s.LoadBegin? || s.LoadPage? || s.LoadDone? || s.LoadFail?)
    ensures Inv(Apply(c, w, s))
  {
    EventsStay(w, Apply(c, w, s));
    LoadKeepsCopy(c, w, s);
  }

  lemma OtherKeepsCopy<V>(c: Config, w: World<V>, s: Step<V>)
    requires CopyInv(w) && Enabled(c, w, s) && (s.Tick? || s.Refresh? || s.Prune?)
    ensures CopyInv(Apply(c, w, s))
  {
  }

  lemma OtherKeepsInv<V>(c: Config, w: World<V>, s: Step<V>)
    requires Inv(w) && Enabled(c, w, s) && (s.Tick? || s.Refresh? || s.Prune?)
    ensures Inv(Apply(c, w, s))
  {
    EventsStay(w, Apply(c, w, s));
    OtherKeepsCopy(c, w, s);
  }

  /** Every step keeps the invariant, whatever the datastore commits in between. */
  lemma StepKeepsInv<V>(c: Config, w: World<V>, s: Step<V>)
    requires Inv(w) && Enabled(c, w, s)
    ensures Inv(Apply(c, w, s))
  {
    if s.Commit? {
      CommitKeepsInv(c, w, s);
    } else if s.DoSearch? || s.DoSelect? || s.DoScan? {
      CaptureKeepsInv(c, w, s);
    } else if s.Tick? || s.Refresh? || s.Prune? {
      OtherKeepsInv(c, w, s);
    } else {
      LoadKeepsInv(c, w, s);
    }
  }

  ghost predicate Run<V>(c: Config, w: World<V>, steps: seq<Step<V>>, w': World<V>)
    decreases |steps|
  {
    if steps == [] then w' == w
    else Enabled(c, w, steps[0]) && Run(c, Apply(c, w, steps[0]), steps[1..], w')
  }

  lemma {:induction false} RunKeepsInv<V>(c: Config, w: World<V>, steps: seq<Step<V>>, w': World<V>)
    requires Inv(w) && Run(c, w, steps, w')
    ensures Inv(w')
    decreases |steps|
  {
    if steps != [] {
      StepKeepsInv(c, w, steps[0]);
      RunKeepsInv(c, Apply(c, w, steps[0]), steps[1..], w');
    }
  }

  /** Over every run, an entry whose cached copy differs from the datastore is queued, or has an event the fetcher will
      still come across, or has an event it has given up on. */
  lemma StaleHasWitness<V>(c: Config, w0: World<V>, steps: seq<Step<V>>, w: World<V>, k: string)
    requires Init(w0) && Run(c, w0, steps, w) && w.built
    requires Live(w.copy, k, w.now) != Live(w.store, k, w.now)
    ensures k in w.feed.fetch || exists e :: e in w.log && w.log[e] == k && (Witness(w, e) || Lost(w, e))
  {
    assert Inv(w0);
    RunKeepsInv(c, w0, steps, w);
    if k !in w.feed.fetch {
      var e :| e in w.log && w.log[e] == k && e !in w.captured;
      assert Witness(w, e) || Lost(w, e);
    }
  }

  /** With nothing queued and no uncaptured event left, the cache is what a fresh load would give. */
  lemma QuietIsCurrent<V>(c: Config, w0: World<V>, steps: seq<Step<V>>, w: World<V>)
    requires Init(w0) && Run(c, w0, steps, w) && w.built
    requires w.feed.fetch == {} && forall e :: !Witness(w, e) && !Lost(w, e)
    ensures forall k :: Live(w.copy, k, w.now) == Live(w.store, k, w.now)
    ensures (forall k :: k in w.copy ==> w.copy[k].expiresAt.None?) &&
            (forall k :: k in w.store ==> w.store[k].expiresAt.None?) ==>
              w.copy == w.store
  {
    forall k ensures Live(w.copy, k, w.now) == Live(w.store, k, w.now) {
      if Live(w.copy, k, w.now) != Live(w.store, k, w.now) {
        StaleHasWitness(c, w0, steps, w, k);
      }
    }
    if (forall k :: k in w.copy ==> w.copy[k].expiresAt.None?) &&
        (forall k :: k in w.store ==> w.store[k].expiresAt.None?) {
      forall k ensures k in w.copy <==> k in w.store
               ensures k in w.copy && k in w.store ==> w.copy[k] == w.store[k]
      {
        assert Live(w.copy, k, w.now) == Live(w.store, k, w.now);
      }
    }
  }

  /** Once seen, the first event never changes; the last one never goes back; a tracked ID stops being tracked only when
      its key has been queued or its polls are used up. */
  lemma FeedMovesForward<V>(c: Config, w: World<V>, s: Step<V>)
    requires Inv(w) && Enabled(c, w, s)
    ensures var w' := Apply(c, w, s);
            && (w.feed.firstTime.Some? ==>
               w'.feed.firstTime == w.feed.firstTime && w'.feed.first == w.feed.first && w.feed.last <= w'.feed.last)
            && (forall e :: e in w.feed.tracker && e !in w'.feed.tracker ==>
                              (e in w'.captured && w'.log[e] in w'.feed.fetch) || e in w'.dropped)
  {
    if s.DoScan? {
      ScanFetches(w.feed, s.events, w.now);
      ScanExtends(w.feed, s.events, w.now);
    } else if s.DoSelect? {
      assert forall e :: e in s.hits ==> s.hits[e] in s.hits.Values;
    }
  }

  lemma {:induction false} ScanExtends(f: Feed, events: seq<Event>, now: int)
    requires Ascending(events) && (f.firstTime.Some? ==> forall ev :: ev in events ==> ev.id > f.last)
    ensures f.tracker.Keys <= Scan(f, events, now).tracker.Keys
    ensures f.firstTime.Some? ==> f.last <= Scan(f, events, now).last
    ensures forall ev :: ev in events ==> ev.id <= Scan(f, events, now).last
    ensures events != [] ==> Scan(f, events, now).firstTime.Some?
    decreases |events|
  {
    if events != [] {
      ListingTail(events);
      ScanExtends(ScanOne(f, events[0], now), events[1..], now);
      assert forall ev :: ev in events ==> ev == events[0] || ev in events[1..];
    }
  }

  /** The three capture steps of one update when every listing is complete and every poll answered. */
  ghost predicate CompleteCapture<V>(c: Config, w: World<V>, below: seq<Event>, hits: map<nat, string>,
                                     above: seq<Event>) {
    && Enabled(c, w, DoSearch(below))
    && (forall e :: e in w.log && e < w.feed.first ==> e in Ids(below))
    && var w1 := Apply(c, w, DoSearch(below));
    && Enabled(c, w1, DoSelect(hits))
    && (forall e :: e in w.log && e in Ticked(w.feed.tracker, c.pollPeriods) ==> e in hits)
    && var w2 := Apply(c, w1, DoSelect(hits));
    && Enabled(c, w2, DoScan(above))
    && (forall e :: e in w.log && (w.feed.firstTime.None? || e > w.feed.last) ==> e in Ids(above))
  }

  function Captured<V>(c: Config, w: World<V>, below: seq<Event>, hits: map<nat, string>, above: seq<Event>): World<V>
    requires CompleteCapture(c, w, below, hits, above)
  {
    Apply(c, Apply(c, Apply(c, w, DoSearch(below)), DoSelect(hits)), DoScan(above))
  }

  /** After such a capture no event is left that the fetcher would still come across. */
  lemma CaptureLeavesNoWitness<V>(c: Config, w: World<V>, below: seq<Event>, hits: map<nat, string>, above: seq<Event>)
    requires Inv(w) && CompleteCapture(c, w, below, hits, above)
    ensures var w' := Captured(c, w, below, hits, above); Inv(w') && forall e :: !Witness(w', e)
  {
    var w1 := Apply(c, w, DoSearch(below));
    var w2 := Apply(c, w1, DoSelect(hits));
    StepKeepsInv(c, w, DoSearch(below));
    StepKeepsInv(c, w1, DoSelect(hits));
    StepKeepsInv(c, w2, DoScan(above));
    forall e ensures !Witness(Captured(c, w, below, hits, above), e) {
      CaptureSees(c, w, below, hits, above, e);
      ScanSees(w2.feed, above, w2.now, w2.log, w2.captured, w2.unsearched, e);
    }
  }

  /** What the search and the poll leave for the scan: an uncaptured event lies above the last one, was polled out, or
      is below the first after the search has ended. */
  lemma CaptureSees<V>(c: Config, w: World<V>, below: seq<Event>, hits: map<nat, string>, above: seq<Event>, e: nat)
    requires Inv(w) && CompleteCapture(c, w, below, hits, above)
    ensures var w2 := Apply(c, Apply(c, w, DoSearch(below)), DoSelect(hits));
            && w2.log == w.log && (w2.feed.firstTime.Some? <==> w.feed.firstTime.Some?) && w2.feed.last == w.feed.last
            && (e in w.log && e !in w2.captured && (w.feed.firstTime.None? || e > w.feed.last) ==> e in Ids(above))
            && (e in w.log && e !in w2.captured ==> e !in w2.feed.tracker)
            && (e in w.log && e !in w2.captured && w.feed.firstTime.Some? && e < w.feed.first ==> e in w2.unsearched)
            && (w.feed.firstTime.Some? ==> w2.feed.first == w.feed.first)
  {
  }

  /** After the scan there is nothing the fetcher would still come across. */
  lemma ScanSees(f: Feed, events: seq<Event>, now: int, log: map<nat, string>, captured: set<nat>, unsearched: set<nat>,
                 e: nat)
    requires Ascending(events) && (f.firstTime.Some? ==> forall ev :: ev in events ==> ev.id > f.last)
    requires (f.firstTime.None? ==> f.tracker == map[]) && forall x :: x in f.tracker ==> x < f.last
    requires e in log && e !in captured ==>
      && (f.firstTime.None? || e > f.last ==> e in Ids(events))
      && e !in f.tracker
      && (f.firstTime.Some? && e < f.first ==> e in unsearched)
    ensures var f' := Scan(f, events, now);
      e in log && e !in captured + Ids(events) ==>
        f'.firstTime.Some? && e <= f'.last && e !in f'.tracker && (e < f'.first ==> e in unsearched)
  {
    ScanFetches(f, events, now);
    ScanExtends(f, events, now);
    if e in log && e !in captured + Ids(events) && e in Scan(f, events, now).tracker {
      ScanTracksAbove(f, events, now, e);
    }
  }

  /** An ID the scan starts to track lies above the last event. */
  lemma {:induction false} ScanTracksAbove(f: Feed, events: seq<Event>, now: int, e: nat)
    requires Ascending(events) && (f.firstTime.Some? ==> forall ev :: ev in events ==> ev.id > f.last)
    requires e in Scan(f, events, now).tracker
    requires (f.firstTime.None? ==> f.tracker == map[]) && forall x :: x in f.tracker ==> x < f.last
    ensures (e in f.tracker && Scan(f, events, now).tracker[e] == f.tracker[e])
            || (Scan(f, events, now).tracker[e] == 0 && (f.firstTime.Some? ==> e > f.last) &&
                exists ev :: ev in events && e < ev.id)
    decreases |events|
  {
    if events != [] {
      ListingTail(events);
      var f1 := ScanOne(f, events[0], now);
      ScanTracksAbove(f1, events[1..], now, e);
      assert events[0] in events;
      if exists ev :: ev in events[1..] && e < ev.id {
        var ev :| ev in events[1..] && e < ev.id;
        assert ev in events;
      }
    }
  }

  /** One undisturbed update brings every entry up to date, except those whose event has been given up. */
  lemma UndisturbedUpdateConverges<V>(c: Config, w: World<V>, below: seq<Event>, hits: map<nat, string>,
                                      above: seq<Event>, k: string)
    requires Inv(w) && w.built && CompleteCapture(c, w, below, hits, above)
    ensures var w3 := Captured(c, w, below, hits, above);
            var w4 := Apply(c, w3, Refresh(w3.feed.fetch));
            && w4.feed.fetch == {} && (forall e :: !Witness(w4, e))
            && (Live(w4.copy, k, w4.now) == Live(w4.store, k, w4.now) || exists e :: Lost(w4, e) && w4.log[e] == k)
  {
    CaptureLeavesNoWitness(c, w, below, hits, above);
    var w3 := Captured(c, w, below, hits, above);
    var w4 := Apply(c, w3, Refresh(w3.feed.fetch));
    StepKeepsInv(c, w3, Refresh(w3.feed.fetch));
    forall e ensures !Witness(w4, e) {
      assert !Witness(w3, e);
    }
    if k in w4.dirty {
      var e :| e in w4.log && w4.log[e] == k && e !in w4.captured;
      assert !Witness(w4, e);
    }
  }

  /** Every entry, if it gives up none. */
  lemma UpdateIsCurrent<V>(c: Config, w: World<V>, below: seq<Event>, hits: map<nat, string>, above: seq<Event>)
    requires Inv(w) && w.built && CompleteCapture(c, w, below, hits, above)
    requires forall e :: !Lost(Captured(c, w, below, hits, above), e)
    ensures var w3 := Captured(c, w, below, hits, above);
            var w4 := Apply(c, w3, Refresh(w3.feed.fetch));
            && w4.feed.fetch == {} && (forall e :: !Witness(w4, e) && !Lost(w4, e))
            && (forall k :: Live(w4.copy, k, w4.now) == Live(w4.store, k, w4.now))
  {
    var w3 := Captured(c, w, below, hits, above);
    var w4 := Apply(c, w3, Refresh(w3.feed.fetch));
    forall e ensures !Lost(w4, e) {
      assert !Lost(w3, e);
    }
    UndisturbedUpdateConverges(c, w, below, hits, above, "");
    forall k ensures Live(w4.copy, k, w4.now) == Live(w4.store, k, w4.now) {
      UndisturbedUpdateConverges(c, w, below, hits, above, k);
    }
  }

  /** A reload that no commit disturbs repairs even entries whose events were given up. */
  lemma {:induction false} UndisturbedReloadRepairs<V>(c: Config, w: World<V>, pages: seq<Step<V>>, w': World<V>)
    requires Inv(w) && w.loading.None? && Run(c, w, [LoadBegin] + pages + [LoadDone], w')
    requires forall s :: s in pages ==> s.LoadPage? || s.Tick?
    ensures forall k :: Live(w'.copy, k, w'.now) == Live(w'.store, k, w'.now)
  {
    var steps := [LoadBegin] + pages + [LoadDone];
    RunKeepsInv(c, w, steps, w');
    var w1 := Apply(c, w, LoadBegin);
    assert steps[1..] == pages + [LoadDone];
    PagesStayClean(c, w1, pages, w');
  }

  lemma {:induction false} PagesStayClean<V>(c: Config, w: World<V>, pages: seq<Step<V>>, w': World<V>)
    requires Run(c, w, pages + [LoadDone], w') && w.loadDirty == {}
    requires forall s :: s in pages ==> s.LoadPage? || s.Tick?
    ensures w'.dirty == {} && w'.built
    decreases |pages|
  {
    var steps := pages + [LoadDone];
    if pages == [] {
      assert Run(c, Apply(c, w, steps[0]), steps[1..], w');
    } else {
      assert steps[1..] == pages[1..] + [LoadDone];
      assert pages[0] in pages && forall s :: s in pages[1..] ==> s in pages;
      PagesStayClean(c, Apply(c, w, steps[0]), pages[1..], w');
    }
  }
}
