/** How the two fetchers follow an event log whose IDs may appear out of order. registrationEntries and attestedNodes
    have the same fields and the same three steps; they are modelled once, over the key an event names. */
module EventFeed {
  import opened Types

  datatype Event = Event(id: nat, key: string)

  /** What polling an ID that has been skipped brought back. */
  datatype Polled = Found(key: string) | NotFound | Failed | Canceled

  /** The fields the steps read and write. `firstTime` is None while the source's time is zero: no event seen yet. */
  datatype Feed = Feed(before: set<nat>, first: nat, firstTime: Option<int>, last: nat, tracker: map<nat, nat>,
                       fetch: set<string>)

  /** How many polls, `pollTime` apart, an ID stays tracked for at least `trackTime`. Both are at least a second. */
  function PollPeriods(pollTime: int, trackTime: int): nat {
    var poll := if pollTime < SECOND then SECOND else pollTime;
    var track := if trackTime < SECOND then SECOND else trackTime;
    1 + (track - 1) / poll
  }

  /** The least number of polls that covers the time: one fewer would not. */
  lemma PollPeriodsCover(pollTime: int, trackTime: int)
    requires pollTime >= SECOND && trackTime >= SECOND
    ensures PollPeriods(pollTime, trackTime) >= 1
    ensures PollPeriods(pollTime, trackTime) * pollTime >= trackTime
    ensures (PollPeriods(pollTime, trackTime) - 1) * pollTime < trackTime
  {
    var q := (trackTime - 1) / pollTime;
    assert q * pollTime <= trackTime - 1 < (q + 1) * pollTime;
  }

  /** Rounded up. */
  function Seconds(time: int): int {
    (time + SECOND - 1) / SECOND
  }

  /** When the polls reach the timeout. An interval below a second is rounded up to one before dividing, so there are
      only as many polls as seconds. */
  lemma PollsReachExactly(pollTime: int, timeout: int)
    requires pollTime > 0 && timeout > 0
    ensures PollPeriods(pollTime, timeout) >= 1
    ensures PollPeriods(pollTime, timeout) * pollTime >= timeout <==>
            pollTime >= SECOND || Seconds(timeout) * pollTime >= timeout
    ensures timeout % SECOND == 0 ==> (PollPeriods(pollTime, timeout) * pollTime >= timeout <==> pollTime >= SECOND)
  {
    if pollTime >= SECOND {
      PollPeriodsCover(pollTime, if timeout < SECOND then SECOND else timeout);
    } else {
      assert PollPeriods(pollTime, timeout) == Seconds(timeout);
      if timeout % SECOND == 0 {
        assert Seconds(timeout) * SECOND == timeout;
        assert Seconds(timeout) * pollTime < Seconds(timeout) * SECOND;
      }
    }
  }

  /** One poll: an ID polled often enough is dropped, the others are counted once more. */
  function Ticked(events: map<nat, nat>, pollPeriods: nat): map<nat, nat> {
    map e | e in events && events[e] < pollPeriods :: events[e] + 1
  }

  predicate Ascending(events: seq<Event>) {
    forall i, j :: 0 <= i < j < |events| ==> events[i].id < events[j].id
  }

  function Ids(events: seq<Event>): set<nat> {
    set ev | ev in events :: ev.id
  }

  function Keys(events: seq<Event>): set<string> {
    set ev | ev in events :: ev.key
  }

  /** The IDs below the first event. */
  function Below(first: nat): (ids: set<nat>)
    ensures forall e: nat :: e in ids <==> e < first
  {
    if first == 0 then {} else Below(first - 1) + {first - 1}
  }

  predicate WindowOpen(f: Feed, now: int, timeout: int) {
    f.firstTime.Some? && now - f.firstTime.value <= timeout
  }

  /** searchBeforeFirstEvent, given the events listed below the first one. */
  function Search(f: Feed, now: int, timeout: int, events: seq<Event>): Feed {
    if WindowOpen(f, now, timeout) then
      SearchedUpto(f, events)
    else
      f.(before := {})
  }

  /** The keys of the events that had not been seen. */
  function UnseenKeys(seen: set<nat>, events: seq<Event>): set<string> {
    set ev | ev in events && ev.id !in seen :: ev.key
  }

  function SearchedUpto(f: Feed, events: seq<Event>): Feed {
    f.(fetch := f.fetch + UnseenKeys(f.before, events), before := f.before + Ids(events))
  }

  /** Within the timeout after the first event was noticed, the keys of listed events not seen before are queued and all
      listed ones count as seen; later, all are forgotten. Nothing else changes. */
  lemma SearchExactly(f: Feed, now: int, timeout: int, events: seq<Event>)
    ensures var g := Search(f, now, timeout, events);
      && g.first == f.first && g.firstTime == f.firstTime && g.last == f.last && g.tracker == f.tracker
      && if f.firstTime.Some? && now <= f.firstTime.value + timeout then
           && (forall k :: k in g.fetch <==>
                k in f.fetch || exists ev :: ev in events && ev.key == k && ev.id !in f.before)
           && (forall e :: e in g.before <==> e in f.before || exists ev :: ev in events && ev.id == e)
         else g.fetch == f.fetch && g.before == {}
  {
  }

  lemma NewID(events: seq<Event>, i: nat)
    requires i < |events| && Ascending(events)
    ensures events[i].id !in Ids(events[..i])
  {
    assert forall j :: 0 <= j < i ==> events[j].id < events[i].id;
  }

  lemma OneMoreID(a: seq<Event>, ev: Event)
    ensures Ids(a + [ev]) == Ids(a) + {ev.id}
  {
    assert forall e :: e in a + [ev] <==> e in a || e == ev;
  }

  lemma UnseenOneMore(seen: set<nat>, a: seq<Event>, ev: Event)
    ensures UnseenKeys(seen, a + [ev]) == UnseenKeys(seen, a) + if ev.id in seen then {} else {ev.key}
  {
  }

  lemma SearchedOneMore(f: Feed, events: seq<Event>, i: nat)
    requires i < |events| && Ascending(events)
    ensures var g, ev := SearchedUpto(f, events[..i]), events[i];
            SearchedUpto(f, events[..i + 1]) == if ev.id in g.before then g
                else g.(fetch := g.fetch + {ev.key}, before := g.before + {ev.id})
  {
    var a, ev := events[..i], events[i];
    assert events[..i + 1] == a + [ev];
    NewID(events, i);
    OneMoreID(a, ev);
    UnseenOneMore(f.before, a, ev);
  }

  /** selectPolledEvents, where `hits` are the polled IDs that were found and the keys they name. */
  function Select(f: Feed, pollPeriods: nat, hits: map<nat, string>): Feed {
    f.(tracker := Ticked(f.tracker, pollPeriods) - hits.Keys, fetch := f.fetch + hits.Values)
  }

  /** After a poll an ID is tracked if it was, had polls left and was not found, with one poll more; the keys of those
      found are queued. Nothing else changes. */
  lemma SelectExactly(f: Feed, pollPeriods: nat, hits: map<nat, string>)
    ensures var g := Select(f, pollPeriods, hits);
      && g.first == f.first && g.firstTime == f.firstTime && g.last == f.last && g.before == f.before
      && (forall e :: e in g.tracker <==> e in f.tracker && f.tracker[e] < pollPeriods && e !in hits)
      && (forall e :: e in g.tracker ==> g.tracker[e] == f.tracker[e] + 1)
      && (forall k :: k in g.fetch <==> k in f.fetch || exists e :: e in hits && hits[e] == k)
  {
  }

  /** `hits` are those of the first i IDs that were found, with the keys they name. */
  ghost predicate HitsUpto(selected: seq<nat>, i: nat, answers: map<nat, Polled>, hits: map<nat, string>) {
    && i <= |selected|
    && (forall e :: e in hits <==> e in selected[..i] && e in answers && answers[e].Found?)
    && (forall e :: e in hits ==> answers[e] == Found(hits[e]))
  }

  /** The IDs that were found are no longer tracked, and their keys are to be fetched. */
  function Hit(f: Feed, hits: map<nat, string>): Feed {
    f.(tracker := f.tracker - hits.Keys, fetch := f.fetch + hits.Values)
  }

  function HitOne(f: Feed, e: nat, key: string): Feed {
    f.(tracker := f.tracker - {e}, fetch := f.fetch + {key})
  }

  lemma HitsOneMore(f: Feed, selected: seq<nat>, i: nat, answers: map<nat, Polled>, hits: map<nat, string>)
    requires HitsUpto(selected, i, answers, hits) && i < |selected| && selected[i] in answers
    requires forall j :: 0 <= j < i ==> selected[j] != selected[i]
    ensures var e := selected[i];
            var hits' := if answers[e].Found? then hits[e := answers[e].key] else hits;
            && HitsUpto(selected, i + 1, answers, hits')
            && Hit(f, hits') == if answers[e].Found? then HitOne(Hit(f, hits), e, answers[e].key) else Hit(f, hits)
  {
    var e := selected[i];
    assert selected[..i + 1] == selected[..i] + [e];
    if answers[e].Found? {
      NewHit(f, hits, e, answers[e].key);
    }
  }

  lemma NewHit(f: Feed, hits: map<nat, string>, e: nat, key: string)
    requires e !in hits
    ensures Hit(f, hits[e := key]) == HitOne(Hit(f, hits), e, key)
  {
    var more := hits[e := key];
    assert more[e] == key && forall k :: k in hits ==> more[k] == hits[k];
    assert more.Values == hits.Values + {key} && more.Keys == hits.Keys + {e};
    assert f.tracker - more.Keys == f.tracker - hits.Keys - {e};
  }

  /** The IDs skipped between two events. */
  function Skipped(last: nat, next: nat): (skipped: map<nat, nat>)
    ensures forall e :: e in skipped <==> last < e < next
    ensures forall e :: e in skipped ==> skipped[e] == 0
    decreases next
  {
    if next <= last + 1 then map[] else Skipped(last, next - 1)[next - 1 := 0]
  }

  lemma NoneSkipped(before: map<nat, nat>, last: nat)
    ensures before + Skipped(last, last + 1) == before
  {
  }

  ghost predicate SkippedUpto(events: map<nat, nat>, before: map<nat, nat>, last: nat, skipped: nat, next: nat) {
    last < skipped && (skipped <= next || skipped == last + 1) && events == before + Skipped(last, skipped)
  }

  lemma AllSkipped(events: map<nat, nat>, before: map<nat, nat>, last: nat, skipped: nat, next: nat)
    requires SkippedUpto(events, before, last, skipped, next) && skipped >= next
    ensures events == before + Skipped(last, next)
  {
    if skipped > next {
      assert Skipped(last, next) == Skipped(last, skipped);
    }
  }

  lemma SkippedOneMore(before: map<nat, nat>, last: nat, skipped: nat)
    requires last < skipped
    ensures (before + Skipped(last, skipped))[skipped := 0] == before + Skipped(last, skipped + 1)
  {
    assert Skipped(last, skipped + 1) == Skipped(last, skipped)[skipped := 0];
  }

  function ScanOne(f: Feed, ev: Event, now: int): Feed {
    if f.firstTime.None? then
      f.(first := ev.id, last := ev.id, fetch := f.fetch + {ev.key}, firstTime := Some(now))
    else
      f.(tracker := f.tracker + Skipped(f.last, ev.id), fetch := f.fetch + {ev.key}, last := ev.id)
  }

  /** scanForNewEvents, given the events listed above the last one. */
  function Scan(f: Feed, events: seq<Event>, now: int): Feed
    decreases |events|
  {
    if events == [] then f else Scan(ScanOne(f, events[0], now), events[1..], now)
  }

  /** A listed event names this key. */
  ghost predicate Names(events: seq<Event>, k: string) {
    exists ev :: ev in events && ev.key == k
  }

  /** An ID between `from` and `to` that no listed event has. */
  ghost predicate InGap(events: seq<Event>, from: nat, to: nat, e: nat) {
    from < e < to && forall ev :: ev in events ==> ev.id != e
  }

  /** The IDs in the gaps are tracked, with no polls, besides those that were. */
  ghost predicate GapsTracked(tracker: map<nat, nat>, events: seq<Event>, from: nat, to: nat, after: map<nat, nat>) {
    && (forall e :: e in after <==> e in tracker || InGap(events, from, to, e))
    && (forall e :: e in after ==> after[e] == if InGap(events, from, to, e) then 0 else tracker[e])
  }

  /** The fields after a scan of a listing above the last event: its last event is the last, its keys are queued, and
      the IDs it leaves out are tracked, from the last event on or, if there was none, from its own first on. */
  ghost predicate Scanned(f: Feed, events: seq<Event>, now: int, g: Feed)
    requires events != []
  {
    && g.last == events[|events| - 1].id && g.before == f.before
    && g.first == (if f.firstTime.None? then events[0].id else f.first)
    && g.firstTime == (if f.firstTime.None? then Some(now) else f.firstTime)
    && (forall k :: k in g.fetch <==> k in f.fetch || Names(events, k))
    && GapsTracked(f.tracker, events, if f.firstTime.None? then events[0].id else f.last, g.last, g.tracker)
  }

  lemma {:induction false} ScanExactly(f: Feed, events: seq<Event>, now: int)
    requires events != [] && Ascending(events)
    requires if f.firstTime.None? then f.tracker == map[] else f.last < events[0].id
    ensures Scanned(f, events, now, Scan(f, events, now))
    decreases |events|
  {
    var f1, rest, g := ScanOne(f, events[0], now), events[1..], Scan(f, events, now);
    FirstTracked(f, events[0], now);
    if rest == [] {
      assert events == [events[0]] + rest && events == [events[0]];
      assert g == Scan(f1, [], now);
    } else {
      assert rest[0] == events[1] && rest[|rest| - 1] == events[|events| - 1];
      ScanExactly(f1, rest, now);
      forall k ensures Names(events, k) <==> k == events[0].key || Names(rest, k) {
        NamesSplit(events, k);
      }
      var from := if f.firstTime.None? then events[0].id else f.last;
      GapsFurther(f.tracker, f1.tracker, events, from, g.last, g.tracker);
    }
  }

  lemma FirstTracked(f: Feed, ev: Event, now: int)
    requires if f.firstTime.None? then f.tracker == map[] else f.last < ev.id
    ensures Scanned(f, [ev], now, ScanOne(f, ev, now))
  {
    assert ev in [ev] && forall x :: x in [ev] ==> x == ev;
  }

  lemma NamesSplit(events: seq<Event>, k: string)
    requires events != []
    ensures Names(events, k) <==> k == events[0].key || Names(events[1..], k)
  {
    assert events == [events[0]] + events[1..];
    assert events[0] in events;
  }

  /** A gap of the whole listing lies before its first event or behind it. */
  lemma GapSplits(events: seq<Event>, from: nat, to: nat, e: nat)
    requires |events| > 1 && Ascending(events) && from <= events[0].id && to == events[|events| - 1].id
    ensures InGap(events, from, to, e) <==>
            InGap([events[0]], from, events[0].id, e) || InGap(events[1..], events[0].id, to, e)
  {
    assert events == [events[0]] + events[1..];
    assert forall i :: 0 < i < |events| ==> events[0].id < events[i].id;
    assert events[0] in events && events[0].id < to;
  }

  lemma GapsFurther(before: map<nat, nat>, between: map<nat, nat>, events: seq<Event>, from: nat, to: nat,
                    after: map<nat, nat>)
    requires |events| > 1 && Ascending(events) && from <= events[0].id && to == events[|events| - 1].id
    requires GapsTracked(before, [events[0]], from, events[0].id, between)
    requires GapsTracked(between, events[1..], events[0].id, to, after)
    ensures GapsTracked(before, events, from, to, after)
  {
    forall e: nat ensures e in after <==> e in before || InGap(events, from, to, e)
                  ensures e in after ==> after[e] == if InGap(events, from, to, e) then 0 else before[e]
    {
      GapSplits(events, from, to, e);
    }
  }

  class EventTracker {
    const pollPeriods: nat
    var events: map<nat, nat>

    constructor (pollPeriods: nat)
      ensures events == map[] && this.pollPeriods == if pollPeriods < 1 then 1 else pollPeriods
    {
      this.pollPeriods := if pollPeriods < 1 then 1 else pollPeriods;
      events := map[];
    }

    method StartTracking(event: nat)
      modifies this
      ensures events == old(events)[event := 0]
    {
      events := events[event := 0];
    }

    method StopTracking(event: nat)
      modifies this
      ensures events == old(events) - {event}
    {
      events := events - {event};
    }

    /** Lists, in some order, the IDs that have polls left, and counts this poll. */
    method SelectEvents() returns (pollList: seq<nat>)
      modifies this
      ensures events == Ticked(old(events), pollPeriods)
      ensures forall e :: e in pollList <==> e in events
      ensures forall i, j :: 0 <= i < j < |pollList| ==> pollList[i] != pollList[j]
    {
      pollList := [];
      var todo := events.Keys;
      ghost var was := events;
      while todo != {}
        invariant todo <= was.Keys
        invariant forall e :: e in pollList <==> e in Ticked(was, pollPeriods) && e !in todo
        invariant forall i, j :: 0 <= i < j < |pollList| ==> pollList[i] != pollList[j]
        invariant events ==
                  (map e | e in was && (e in todo || was[e] < pollPeriods) :: if e in todo then was[e] else was[e] + 1)
      {
        var e :| e in todo;
        todo := todo - {e};
        if events[e] >= pollPeriods {
          events := events - {e};
        } else {
          pollList := pollList + [e];
          events := events[e := events[e] + 1];
        }
      }
    }
  }

  class Follower {
    const timeout: int
    const tracker: EventTracker
    var before: set<nat>
    var first: nat
    var firstTime: Option<int>
    var last: nat
    var fetch: set<string>

    constructor (pollTime: int, timeout: int)
      ensures fresh(tracker) && this.timeout == timeout
      ensures tracker.pollPeriods == PollPeriods(pollTime, timeout) && View() == Feed({}, 0, None, 0, map[], {})
    {
      this.timeout := timeout;
      tracker := new EventTracker(PollPeriods(pollTime, timeout));
      before, first, firstTime, last, fetch := {}, 0, None, 0, {};
    }

    function View(): Feed
      reads this, tracker
    {
      Feed(before, first, firstTime, last, tracker.events, fetch)
    }

    method SearchBeforeFirstEvent(now: int, listed: Option<seq<Event>>) returns (ok: bool)
      requires listed.Some? ==> Ascending(listed.value)
      modifies this
      ensures ok <==> WindowOpen(old(View()), now, timeout) ==> listed.Some?
      ensures View() == if !ok then old(View())
                        else Search(old(View()), now, timeout, if listed.Some? then listed.value else [])
    {
      if firstTime.Some? && now - firstTime.value <= timeout {
        if listed.None? { return false; }
        var events := listed.value;
        for i := 0 to |events|
          invariant View() == SearchedUpto(old(View()), events[..i])
        {
          SearchedOneMore(old(View()), events, i);
          if events[i].id !in before {
            fetch := fetch + {events[i].key};
            before := before + {events[i].id};
          }
        }
        assert events[..|events|] == events;
        return true;
      }
      if before != {} {
        before := {};
      }
      return true;
    }

    /** Polls every tracked ID, in any order. A cancelled request ends the polling; a failed one only skips its ID. */
    method SelectPolledEvents(answers: map<nat, Polled>) returns (ghost hits: map<nat, string>)
      requires forall e :: e in tracker.events ==> e in answers
      modifies this, tracker
      ensures View() == Select(old(View()), tracker.pollPeriods, hits)
      ensures forall e :: e in hits ==>
              e in Ticked(old(tracker.events), tracker.pollPeriods) && answers[e] == Found(hits[e])
      ensures (forall e :: e in answers ==> !answers[e].Canceled?) ==>
                forall e :: e in Ticked(old(tracker.events), tracker.pollPeriods) && answers[e].Found? ==> e in hits
    {
      hits := map[];
      var selected := tracker.SelectEvents();
      ghost var start := View();
      for i := 0 to |selected|
        invariant View() == Hit(start, hits)
        invariant HitsUpto(selected, i, answers, hits)
      {
        var e := selected[i];
        HitsOneMore(start, selected, i, answers, hits);
        if answers[e].Canceled? {
          return;
        }
        hits := PollEvent(e, answers[e], hits);
      }
    }

    /** One tracked ID. */
    method PollEvent(e: nat, answer: Polled, ghost hits: map<nat, string>) returns (ghost hits': map<nat, string>)
      modifies this, tracker
      ensures hits' == if answer.Found? then hits[e := answer.key] else hits
      ensures View() == if answer.Found? then HitOne(old(View()), e, answer.key) else old(View())
    {
      hits' := hits;
      if answer.Found? {
        fetch := fetch + {answer.key};
        tracker.StopTracking(e);
        hits' := hits[e := answer.key];
      }
    }

    /** The inner loop: every ID between the last event and the next one is tracked. */
    method TrackSkipped(next: nat)
      modifies tracker
      ensures tracker.events == old(tracker.events) + Skipped(last, next)
    {
      ghost var before, from := tracker.events, last;
      var skipped := last + 1;
      NoneSkipped(before, from);
      while skipped < next
        invariant SkippedUpto(tracker.events, before, from, skipped, next)
      {
        SkippedOneMore(before, from, skipped);
        tracker.StartTracking(skipped);
        skipped := skipped + 1;
      }
      AllSkipped(tracker.events, before, from, skipped, next);
    }

    method ScanForNewEvents(now: int, listed: Option<seq<Event>>) returns (ok: bool)
      requires listed.Some? ==> Ascending(listed.value)
      modifies this, tracker
      ensures ok <==> listed.Some?
      ensures View() == if ok then Scan(old(View()), listed.value, now) else old(View())
    {
      if listed.None? { return false; }
      var events := listed.value;
      ghost var start := View();
      for i := 0 to |events|
        invariant Scan(View(), events[i..], now) == Scan(start, events, now)
      {
        ghost var f := View();
        var ev := events[i];
        assert events[i..][1..] == events[i + 1..];
        if firstTime.None? {
          first := ev.id;
          last := ev.id;
          fetch := fetch + {ev.key};
          firstTime := Some(now);
          continue;
        }
        TrackSkipped(ev.id);
        fetch := fetch + {ev.key};
        last := ev.id;
        assert View() == ScanOne(f, ev, now);
      }
      return true;
    }
  }
}
