/** The agent's incremental entry sync: revisions first, then the full entries that are missing or stale. */
module EntrySync {
  import opened Types
  import Lex

  /** The part of an entry the agent keeps. */
  datatype Sliced = Sliced(id: string, spiffeId: SpiffeID, selectors: seq<Selector>, revision: int, createdAt: int,
                           rest: string)

  predicate GoodSelector(s: Selector) {
    s.kind != "" && ':' !in s.kind && s.value != ""
  }

  /** slicedEntryFromProto: None for a malformed entry. */
  function Slice(e: Entry): (r: Option<Sliced>)
    ensures r.Some? ==>
            r.value.id == e.id && e.id != "" && r.value.revision == e.revision && r.value.createdAt == e.createdAt
  {
    if e.id == "" || !e.parses || e.selectors == [] || (exists s | s in e.selectors :: !GoodSelector(s)) then None
    else Some(Sliced(e.id, e.spiffeId, e.selectors, e.revision, e.createdAt, e.rest))
  }

  /** Which entries are kept, and what is kept of them. */
  lemma SliceExactly(e: Entry)
    ensures Slice(e).Some? <==> WellFormed(e)
    ensures Slice(e).Some? ==> Tells(Slice(e).value, e)
  {
  }

  predicate WellFormed(e: Entry) {
    && e.id != "" && e.parses && e.selectors != []
    && forall s :: s in e.selectors ==> s.kind != "" && ':' !in s.kind && s.value != ""
  }

  /** What is held agrees with the entry in every field. */
  predicate Tells(held: Sliced, e: Entry) {
    && held.id == e.id && held.spiffeId == e.spiffeId && held.selectors == e.selectors
    && held.revision == e.revision && held.createdAt == e.createdAt && held.rest == e.rest
  }

  datatype Revision = Revision(id: string, number: int, createdAt: int)

  datatype Response = Response(entries: seq<Entry>, revisions: seq<Revision>, more: bool)

  predicate EntryIsStale(cached: Sliced, revision: int, createdAt: int) {
    if cached.revision != revision then true
    else if createdAt == 0 then false
    else cached.createdAt != createdAt
  }

  /** A copy is up to date if it has the revision and, unless the server leaves it out, the creation time. */
  lemma StaleExactly(held: Sliced, revision: int, createdAt: int)
    ensures EntryIsStale(held, revision, createdAt) <==>
            held.revision != revision || (createdAt != 0 && held.createdAt != createdAt)
  {
  }

  datatype Stats = Stats(total: nat, missing: nat, stale: nat, dropped: nat)

  /** What the sync's closures share and update. */
  datatype Sync = Sync(cached: map<string, Sliced>, toRemove: set<string>, needFull: seq<string>, missing: nat,
                       stale: nat)

  predicate GoodRevision(r: Revision) {
    r.id != "" && r.number >= 0
  }

  predicate Wanted(cached: map<string, Sliced>, r: Revision) {
    r.id !in cached || EntryIsStale(cached[r.id], r.number, r.createdAt)
  }

  function OneRevision(s: Sync, r: Revision): Sync {
    if !GoodRevision(r) then s
    else s.(toRemove := s.toRemove - {r.id}, needFull := if Wanted(s.cached, r) then s.needFull + [r.id]
        else s.needFull)
  }

  function Revisions(s: Sync, rs: seq<Revision>): Sync
    decreases |rs|
  {
    if rs == [] then s else Revisions(OneRevision(s, rs[0]), rs[1..])
  }

  function OneEntry(s: Sync, e: Entry): Sync {
    var sliced := Slice(e);
    if sliced.None? then s
    else
      var entry := sliced.value;
      s.(toRemove := s.toRemove - {entry.id},
         missing := if entry.id !in s.cached then s.missing + 1 else s.missing,
         stale := if entry.id in s.cached && EntryIsStale(s.cached[entry.id], entry.revision, entry.createdAt)
             then s.stale + 1 else s.stale,
         cached := s.cached[entry.id := entry])
  }

  function Entries(s: Sync, es: seq<Entry>): Sync
    decreases |es|
  {
    if es == [] then s else Entries(OneEntry(s, es[0]), es[1..])
  }

  /** The rest of the revision pages. False when the stream fails or a page holds entries. */
  function MoreRevisions(s: Sync, stream: seq<Response>): (Sync, bool)
    decreases |stream|
  {
    if stream == [] || stream[0].entries != [] then (s, false)
    else
      var s' := Revisions(s, stream[0].revisions);
      if stream[0].more then MoreRevisions(s', stream[1..]) else (s', true)
  }

  /** The pages that answer one request for full entries. */
  function FullEntries(s: Sync, stream: seq<Response>): (Sync, bool)
    decreases |stream|
  {
    if stream == [] || stream[0].revisions != [] then (s, false)
    else
      var s' := Entries(s, stream[0].entries);
      if stream[0].more then FullEntries(s', stream[1..]) else (s', true)
  }

  /** How a server answers: the responses to the first request, and to the n-th request for full entries. A stream that
      fails, or whose Send fails, is one that ends early. */
  datatype Server = Server(initial: seq<Response>, answer: (nat, seq<string>) -> seq<Response>)

  function RequestSize(needFull: seq<string>, pageSize: nat): nat {
    if |needFull| < pageSize then |needFull| else pageSize
  }

  /** Requests the entries still needed, a page at a time. */
  function Requests(s: Sync, pageSize: nat, server: Server, n: nat): (r: (Sync, bool))
    requires pageSize > 0
    decreases |s.needFull|
  {
    if s.needFull == [] then (s, true)
    else
      var k := RequestSize(s.needFull, pageSize);
      var (s', ok) := FullEntries(s.(needFull := s.needFull[k..]), server.answer(n, s.needFull[..k]));
      FullEntriesKeepNeed(s.(needFull := s.needFull[k..]), server.answer(n, s.needFull[..k]));
      if ok then Requests(s', pageSize, server, n + 1) else (s', false)
  }

  lemma RequestsStep(s: Sync, pageSize: nat, server: Server, n: nat)
    requires pageSize > 0 && s.needFull != []
    ensures var k := RequestSize(s.needFull, pageSize);
            var r := FullEntries(s.(needFull := s.needFull[k..]), server.answer(n, s.needFull[..k]));
            Requests(s, pageSize, server, n) == if r.1 then Requests(r.0, pageSize, server, n + 1) else (r.0, false)
  {
  }

  lemma {:induction false} EntriesKeepNeed(s: Sync, es: seq<Entry>)
    ensures Entries(s, es).needFull == s.needFull
    decreases |es|
  {
    if es != [] { EntriesKeepNeed(OneEntry(s, es[0]), es[1..]); }
  }

  lemma {:induction false} FullEntriesKeepNeed(s: Sync, stream: seq<Response>)
    ensures FullEntries(s, stream).0.needFull == s.needFull
    decreases |stream|
  {
    if stream != [] && stream[0].revisions == [] {
      EntriesKeepNeed(s, stream[0].entries);
      FullEntriesKeepNeed(Entries(s, stream[0].entries), stream[1..]);
    }
  }

  function Begin(cached: map<string, Sliced>): Sync {
    Sync(cached, set k | k in cached :: cached[k].id, [], 0, 0)
  }

  /** The whole exchange up to the deferred removal. */
  function Exchange(cached: map<string, Sliced>, server: Server): (Sync, bool) {
    var s := Begin(cached);
    if server.initial == [] then (s, false)
    else
      var first := server.initial[0];
      if first.revisions == [] then (Entries(s, first.entries), true)
      else
        var s1 := Revisions(s, first.revisions);
        var (s2, ok) := if first.more then MoreRevisions(s1, server.initial[1..]) else (s1, true);
        if ok then Requests(s2.(needFull := Lex.Sort(s2.needFull)), |first.revisions|, server, 0) else (s2, false)
  }

  datatype Outcome = Outcome(ok: bool, cached: map<string, Sliced>, stats: Stats)

  function SyncEntries(cached: map<string, Sliced>, server: Server): Outcome {
    var (s, ok) := Exchange(cached, server);
    if ok then
      var kept := s.cached - s.toRemove;
      Outcome(true, kept, Stats(|kept|, s.missing, s.stale, |s.toRemove|))
    else Outcome(false, s.cached, Stats(0, 0, 0, 0))
  }

  class EntrySyncer {
    var cachedEntries: map<string, Sliced>
    var toRemove: set<string>
    var needFull: seq<string>
    var missing: nat
    var stale: nat

    constructor (cachedEntries: map<string, Sliced>)
      ensures View() == Begin(cachedEntries)
    {
      this.cachedEntries := cachedEntries;
      toRemove := set k | k in cachedEntries :: cachedEntries[k].id;
      needFull, missing, stale := [], 0, 0;
    }

    function View(): Sync
      reads this
    {
      Sync(cachedEntries, toRemove, needFull, missing, stale)
    }

    method ProcessEntryRevisions(revisions: seq<Revision>)
      modifies this
      ensures View() == Revisions(old(View()), revisions)
    {
      for i := 0 to |revisions|
        invariant Revisions(View(), revisions[i..]) == Revisions(old(View()), revisions)
      {
        var r := revisions[i];
        assert revisions[i..][1..] == revisions[i + 1..];
        if r.id == "" || r.number < 0 { continue; }
        toRemove := toRemove - {r.id};
        if r.id !in cachedEntries || EntryIsStale(cachedEntries[r.id], r.number, r.createdAt) {
          needFull := needFull + [r.id];
        }
      }
    }

    method ProcessServerEntries(entries: seq<Entry>)
      modifies this
      ensures View() == Entries(old(View()), entries)
    {
      for i := 0 to |entries|
        invariant Entries(View(), entries[i..]) == Entries(old(View()), entries)
      {
        assert entries[i..][1..] == entries[i + 1..];
        var sliced := Slice(entries[i]);
        if sliced.None? { continue; }
        var entry := sliced.value;
        toRemove := toRemove - {entry.id};
        if entry.id !in cachedEntries {
          missing := missing + 1;
        } else if EntryIsStale(cachedEntries[entry.id], entry.revision, entry.createdAt) {
          stale := stale + 1;
        }
        cachedEntries := cachedEntries[entry.id := entry];
      }
    }

    method ReceiveRevisions(stream: seq<Response>) returns (ok: bool)
      modifies this
      ensures (View(), ok) == MoreRevisions(old(View()), stream)
    {
      for i := 0 to |stream|
        invariant MoreRevisions(View(), stream[i..]) == MoreRevisions(old(View()), stream)
      {
        assert stream[i..][1..] == stream[i + 1..];
        if stream[i].entries != [] { return false; }
        ProcessEntryRevisions(stream[i].revisions);
        if !stream[i].more { return true; }
      }
      return false;
    }

    method ReceiveEntries(stream: seq<Response>) returns (ok: bool)
      modifies this
      ensures (View(), ok) == FullEntries(old(View()), stream)
    {
      for i := 0 to |stream|
        invariant FullEntries(View(), stream[i..]) == FullEntries(old(View()), stream)
      {
        assert stream[i..][1..] == stream[i + 1..];
        if stream[i].revisions != [] { return false; }
        ProcessServerEntries(stream[i].entries);
        if !stream[i].more { return true; }
      }
      return false;
    }

    /** The paging loop ends, and every request is a full page but the last, which is not empty. */
    method RequestEntries(pageSize: nat, server: Server) returns (ok: bool, ghost requests: seq<seq<string>>)
      requires pageSize > 0
      modifies this
      ensures (View(), ok) == Requests(old(View()), pageSize, server, 0)
      ensures Requested(requests, needFull, old(needFull), pageSize) && (ok ==> needFull == [])
    {
      requests := [];
      var n := 0;
      ok := true;
      ghost var outcome := Requests(View(), pageSize, server, 0);
      while needFull != []
        invariant ok && Requests(View(), pageSize, server, n) == outcome
        invariant Requested(requests, needFull, old(needFull), pageSize)
        decreases |needFull|
      {
        ghost var ids;
        ok, ids := RequestPage(pageSize, server, n);
        RequestedOneMore(requests, ids, needFull, old(needFull), pageSize);
        requests := requests + [ids];
        if !ok { return; }
        n := n + 1;
      }
    }

    /** One request and the answer to it. */
    method RequestPage(pageSize: nat, server: Server, n: nat) returns (ok: bool, ghost ids: seq<string>)
      requires pageSize > 0 && needFull != []
      modifies this
      ensures Requests(old(View()), pageSize, server, n) == if ok then Requests(View(), pageSize, server, n + 1)
              else (View(), false)
      ensures 0 < |ids| <= pageSize && old(needFull) == ids + needFull && (|ids| < pageSize ==> needFull == [])
    {
      var k := RequestSize(needFull, pageSize);
      ids := needFull[..k];
      var request := needFull[..k];
      RequestsStep(View(), pageSize, server, n);
      needFull := needFull[k..];
      FullEntriesKeepNeed(View(), server.answer(n, request));
      ok := ReceiveEntries(server.answer(n, request));
    }

    method StreamAndSyncEntries(server: Server) returns (ok: bool, stats: Stats)
      requires View() == Begin(cachedEntries)
      modifies this
      ensures Outcome(ok, cachedEntries, stats) == SyncEntries(old(cachedEntries), server)
    {
      stats := Stats(0, 0, 0, 0);
      if server.initial == [] { return false, stats; }
      var first := server.initial[0];
      if first.revisions == [] {
        ProcessServerEntries(first.entries);
      } else {
        ProcessEntryRevisions(first.revisions);
        if first.more {
          ok := ReceiveRevisions(server.initial[1..]);
          if !ok { return; }
        }
        needFull := Lex.Sort(needFull);
        ghost var requests;
        ok, requests := RequestEntries(|first.revisions|, server);
        if !ok { return; }
      }
      cachedEntries := cachedEntries - toRemove;
      return true, Stats(|cachedEntries|, missing, stale, |toRemove|);
    }
  }

  ghost function Flatten(xs: seq<seq<string>>): seq<string> {
    if xs == [] then [] else xs[0] + Flatten(xs[1..])
  }

  /** Each request is a full page, but one that leaves nothing is only not empty; together they hold what was needed up
      to what is `left`, in order. */
  ghost predicate Requested(requests: seq<seq<string>>, left: seq<string>, all: seq<string>, pageSize: nat) {
    && Flatten(requests) + left == all
    && (forall i :: 0 <= i < |requests| ==> 0 < |requests[i]| <= pageSize)
    && (forall i :: 0 <= i < |requests| && |requests[i]| < pageSize ==> i == |requests| - 1 && left == [])
  }

  lemma RequestedOneMore(requests: seq<seq<string>>, ids: seq<string>, left: seq<string>, all: seq<string>,
                         pageSize: nat)
    requires Requested(requests, ids + left, all, pageSize) && 0 < |ids| <= pageSize
    requires |ids| < pageSize ==> left == []
    ensures Requested(requests + [ids], left, all, pageSize)
  {
    FlattenAppend(requests, ids);
    assert Flatten(requests) + (ids + left) == Flatten(requests) + ids + left;
  }

  lemma {:induction false} FlattenAppend(xs: seq<seq<string>>, x: seq<string>)
    ensures Flatten(xs + [x]) == Flatten(xs) + x
  {
    if xs == [] {
      assert xs + [x] == [x] && [x][1..] == [];
    } else {
      assert (xs + [x])[1..] == xs[1..] + [x];
      FlattenAppend(xs[1..], x);
    }
  }
}
