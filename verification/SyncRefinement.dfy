/** The incremental sync, run against the server it is written for, against the plain full fetch. */
module SyncRefinement {
  import opened Types
  import opened Collections
  import opened EntrySync
  import opened SyncServer
  import opened SyncBooks
  import Lex

  /** `list` holds exactly the entries of `table`, in some order. */
  ghost predicate Holds(table: map<string, Entry>, list: seq<Entry>) {
    && (forall e :: e in list ==> e.id in table && table[e.id] == e)
    && (forall id :: id in table ==> table[id] in list && table[id].id == id)
  }

  ghost predicate ByID(table: map<string, Entry>) {
    forall id :: id in table ==> table[id].id == id
  }

  /** What FetchUpdates makes of a list of entries: every well-formed one, by ID. */
  function FullFetch(table: map<string, Entry>): map<string, Sliced> {
    map id | id in table && Slice(table[id]).Some? :: Slice(table[id]).value
  }

  /** It has exactly the well-formed entries, each with its own fields. */
  lemma FetchedExactly(table: map<string, Entry>, id: string)
    requires ByID(table)
    ensures id in FullFetch(table) <==> id in table && WellFormed(table[id])
    ensures id in FullFetch(table) ==> Tells(FullFetch(table)[id], table[id])
  {
    if id in table {
      SliceExactly(table[id]);
    }
  }

  method FetchUpdates(list: seq<Entry>, ghost table: map<string, Entry>) returns (entries: map<string, Sliced>)
    requires Holds(table, list)
    ensures entries == FullFetch(table)
  {
    entries := map[];
    for i := 0 to |list|
      invariant forall k :: k in entries <==> k in table && table[k] in list[..i] && Slice(table[k]).Some?
      invariant forall k :: k in entries ==> Some(entries[k]) == Slice(table[k])
    {
      assert list[..i + 1] == list[..i] + [list[i]] && list[i] in list;
      var sliced := Slice(list[i]);
      if sliced.None? { continue; }
      entries := entries[sliced.value.id := sliced.value];
    }
    assert list[..|list|] == list;
  }

  /** The server for these entries: `list` as fetched, `sorted` as it sorts them for lookups. */
  function ServerFor(list: seq<Entry>, sorted: seq<Entry>, pageSize: nat): Server
    requires pageSize > 0
  {
    Server(Initial(list, pageSize), (n, ids) => Paged(Matches(sorted, Lex.Sort(ids)), pageSize))
  }

  lemma {:induction false} RevisionsConcat(s: Sync, a: seq<Revision>, b: seq<Revision>)
    ensures Revisions(s, a + b) == Revisions(Revisions(s, a), b)
    decreases |a|
  {
    if a == [] {
      assert a + b == b;
    } else {
      assert (a + b)[0] == a[0] && (a + b)[1..] == a[1..] + b;
      RevisionsConcat(OneRevision(s, a[0]), a[1..], b);
    }
  }

  lemma {:induction false} EntriesConcat(s: Sync, a: seq<Entry>, b: seq<Entry>)
    ensures Entries(s, a + b) == Entries(Entries(s, a), b)
    decreases |a|
  {
    if a == [] {
      assert a + b == b;
    } else {
      assert (a + b)[0] == a[0] && (a + b)[1..] == a[1..] + b;
      EntriesConcat(OneEntry(s, a[0]), a[1..], b);
    }
  }

  /** Pages of revisions alone, up to one that announces no more. */
  predicate TellsRevisions(stream: seq<Response>)
    decreases |stream|
  {
    stream != [] && stream[0].entries == [] && (stream[0].more ==> TellsRevisions(stream[1..]))
  }

  function RevisionsTold(stream: seq<Response>): seq<Revision>
    decreases |stream|
  {
    if stream == [] then [] else stream[0].revisions + if stream[0].more then RevisionsTold(stream[1..]) else []
  }

  /** Pages of entries alone, up to one that announces no more. */
  predicate TellsEntries(stream: seq<Response>)
    decreases |stream|
  {
    stream != [] && stream[0].revisions == [] && (stream[0].more ==> TellsEntries(stream[1..]))
  }

  /** The pages of an answer, however cut, hold exactly the entries asked for that exist, in any order. */
  ghost predicate AnswersExactly(stream: seq<Response>, table: map<string, Entry>, ids: seq<string>) {
    TellsEntries(stream) &&
    forall e :: e in FullReceived(stream) <==> e.id in ids && e.id in table && table[e.id] == e
  }

  /** The client can make no larger requests than its first page of revisions. */
  ghost predicate AnswersAll(server: Server, table: map<string, Entry>, pageSize: nat) {
    forall n: nat, ids :: 0 < |ids| <= pageSize ==> AnswersExactly(server.answer(n, ids), table, ids)
  }

  /** The first response holds no revisions, so the client takes it for the complete list. */
  predicate SentInFull(server: Server) {
    server.initial != [] && server.initial[0].revisions == []
  }

  /** A server that tells of exactly the entries of `table`, which it has as `list`: all in the first response, or first
      their revisions, in pages cut anywhere, and then whatever is requested. */
  ghost predicate Serves(server: Server, table: map<string, Entry>, list: seq<Entry>) {
    && Holds(table, list) && server.initial != []
    && if SentInFull(server) then server.initial[0].entries == list
       else TellsRevisions(server.initial) && RevisionsTold(server.initial) == RevisionsOf(list) &&
            AnswersAll(server, table, |server.initial[0].revisions|)
  }

  /** However the revisions are cut into pages, the client has processed them all. */
  lemma {:induction false} RevisionPagesArrive(s: Sync, stream: seq<Response>)
    requires TellsRevisions(stream)
    ensures MoreRevisions(s, stream) == (Revisions(s, RevisionsTold(stream)), true)
    decreases |stream|
  {
    var rs := stream[0].revisions;
    if stream[0].more {
      RevisionsConcat(s, rs, RevisionsTold(stream[1..]));
      RevisionPagesArrive(Revisions(s, rs), stream[1..]);
    } else {
      assert rs + [] == rs;
    }
  }

  /** So with the entries of an answer. */
  lemma {:induction false} EntryPagesArrive(s: Sync, stream: seq<Response>)
    requires TellsEntries(stream)
    ensures FullEntries(s, stream) == (Entries(s, FullReceived(stream)), true)
    decreases |stream|
  {
    var es := stream[0].entries;
    if stream[0].more {
      EntriesConcat(s, es, FullReceived(stream[1..]));
      EntryPagesArrive(Entries(s, es), stream[1..]);
    } else {
      assert es + [] == es;
    }
  }

  /** Whether the revisions of `es` leave `id` among those still authorized, and among those to request. */
  ghost predicate Named(es: seq<Entry>, id: string) {
    exists e :: e in es && e.id == id && GoodRevision(RevisionOf(e))
  }

  ghost predicate Asked(cached: map<string, Sliced>, es: seq<Entry>, id: string) {
    exists e :: e in es && e.id == id && GoodRevision(RevisionOf(e)) && Wanted(cached, RevisionOf(e))
  }

  lemma {:induction false} RevisionsEffect(s: Sync, es: seq<Entry>)
    ensures var s' := Revisions(s, RevisionsOf(es));
            && s'.cached == s.cached
            && (forall id :: id in s'.toRemove <==> id in s.toRemove && !Named(es, id))
            && (forall id :: id in s'.needFull <==> id in s.needFull || Asked(s.cached, es, id))
    decreases |es|
  {
    if es != [] {
      var e, rest := es[0], es[1..];
      var s1 := OneRevision(s, RevisionOf(e));
      assert RevisionsOf(es)[0] == RevisionOf(e) && RevisionsOf(es)[1..] == RevisionsOf(rest);
      RevisionsEffect(s1, rest);
      assert forall x :: x in es <==> x == e || x in rest;
    }
  }

  predicate Usable(table: map<string, Entry>, id: string) {
    id in table && Slice(table[id]).Some?
  }

  /** From `s` to `s'`, the usable entries among `asked` came in, and nothing else changed. */
  ghost predicate Brought(table: map<string, Entry>, asked: set<string>, s: Sync, s': Sync) {
    && (forall id :: id in s'.toRemove <==> id in s.toRemove && !(id in asked && Usable(table, id)))
    && (forall id :: Lookup(s'.cached, id) == if id in asked && Usable(table, id) then Slice(table[id])
       else Lookup(s.cached, id))
  }

  lemma BroughtTwice(table: map<string, Entry>, a: set<string>, b: set<string>, s: Sync, s1: Sync, s2: Sync)
    requires Brought(table, a, s, s1) && Brought(table, b, s1, s2)
    ensures Brought(table, a + b, s, s2)
  {
    forall id ensures Lookup(s2.cached, id) == if id in a + b && Usable(table, id) then Slice(table[id])
        else Lookup(s.cached, id) {
      assert Lookup(s1.cached, id) == if id in a && Usable(table, id) then Slice(table[id]) else Lookup(s.cached, id);
    }
  }

  function ToSet(ids: seq<string>): set<string> {
    set id | id in ids
  }

  function IdsOf(es: seq<Entry>): set<string> {
    set e | e in es :: e.id
  }

  lemma OneEntryBrings(s: Sync, e: Entry, table: map<string, Entry>)
    requires e.id in table && table[e.id] == e
    ensures Brought(table, {e.id}, s, OneEntry(s, e))
  {
  }

  lemma {:induction false} EntriesBring(s: Sync, es: seq<Entry>, table: map<string, Entry>)
    requires forall e :: e in es ==> e.id in table && table[e.id] == e
    ensures Brought(table, IdsOf(es), s, Entries(s, es))
    decreases |es|
  {
    if es != [] {
      var s1 := OneEntry(s, es[0]);
      assert es[0] in es && forall e :: e in es[1..] ==> e in es;
      OneEntryBrings(s, es[0], table);
      EntriesBring(s1, es[1..], table);
      BroughtTwice(table, {es[0].id}, IdsOf(es[1..]), s, s1, Entries(s1, es[1..]));
      assert es == [es[0]] + es[1..];
      assert IdsOf(es) == {es[0].id} + IdsOf(es[1..]);
    }
  }

  /** One request: the pages of the answer bring in the usable entries asked for. */
  lemma RequestBrings(s: Sync, ids: seq<string>, stream: seq<Response>, table: map<string, Entry>)
    requires ByID(table) && AnswersExactly(stream, table, ids)
    ensures FullEntries(s, stream).1 && Brought(table, ToSet(ids), s, FullEntries(s, stream).0)
  {
    var es := FullReceived(stream);
    EntryPagesArrive(s, stream);
    EntriesBring(s, es, table);
    forall id ensures id in IdsOf(es) && Usable(table, id) <==> id in ids && Usable(table, id) {
      if id in ids && Usable(table, id) {
        assert table[id] in es;
      }
    }
  }

  /** The paging loop succeeds and brings in every usable entry asked for. */
  lemma {:induction false} RequestsBring(s: Sync, pageSize: nat, server: Server, n: nat, table: map<string, Entry>)
    requires pageSize > 0 && ByID(table) && AnswersAll(server, table, pageSize)
    ensures Requests(s, pageSize, server, n).1
    ensures Brought(table, ToSet(s.needFull), s, Requests(s, pageSize, server, n).0)
    decreases |s.needFull|
  {
    if s.needFull != [] {
      var s2 := OneRequestBrings(s, pageSize, server, n, table);
      RequestsBring(s2, pageSize, server, n + 1, table);
      var k := RequestSize(s.needFull, pageSize);
      BroughtTwice(table, ToSet(s.needFull[..k]), ToSet(s2.needFull), s, s2, Requests(s, pageSize, server, n).0);
      SplitSet(s.needFull, k);
    }
  }

  lemma SplitSet(ids: seq<string>, k: nat)
    requires k <= |ids|
    ensures ToSet(ids) == ToSet(ids[..k]) + ToSet(ids[k..])
  {
    assert ids == ids[..k] + ids[k..];
  }

  lemma OneRequestBrings(s: Sync, pageSize: nat, server: Server, n: nat, table: map<string, Entry>) returns (s2: Sync)
    requires pageSize > 0 && ByID(table) && AnswersAll(server, table, pageSize) && s.needFull != []
    ensures Requests(s, pageSize, server, n) == Requests(s2, pageSize, server, n + 1)
    ensures var k := RequestSize(s.needFull, pageSize);
            Brought(table, ToSet(s.needFull[..k]), s, s2) && s2.needFull == s.needFull[k..]
  {
    var k := RequestSize(s.needFull, pageSize);
    var ids, s1 := s.needFull[..k], s.(needFull := s.needFull[k..]);
    RequestBrings(s1, ids, server.answer(n, ids), table);
    FullEntriesKeepNeed(s1, server.answer(n, ids));
    s2 := FullEntries(s1, server.answer(n, ids)).0;
  }

  /** What the sync leaves cached under `id` when the list takes more than one page. */
  function SyncedEntry(cached: map<string, Sliced>, table: map<string, Entry>, id: string): Option<Sliced> {
    if id !in table || !GoodRevision(RevisionOf(table[id])) then None
    else if !Wanted(cached, RevisionOf(table[id])) then Lookup(cached, id)
    else if Slice(table[id]).Some? then Slice(table[id])
    else Lookup(cached, id)
  }

  /** However the revisions are paged, the client ends up requesting what those of the whole list ask for. */
  lemma PagedExchange(cached: map<string, Sliced>, list: seq<Entry>, server: Server)
    requires server.initial != [] && !SentInFull(server)
    requires TellsRevisions(server.initial) && RevisionsTold(server.initial) == RevisionsOf(list)
    ensures var s := Revisions(Begin(cached), RevisionsOf(list));
            var pageSize := |server.initial[0].revisions|;
            Exchange(cached, server) == Requests(s.(needFull := Lex.Sort(s.needFull)), pageSize, server, 0)
  {
    RevisionPagesArrive(Begin(cached), server.initial);
  }

  lemma SortedRequestsBring(s: Sync, pageSize: nat, server: Server, table: map<string, Entry>)
    requires pageSize > 0 && ByID(table) && AnswersAll(server, table, pageSize)
    ensures var out := Requests(s.(needFull := Lex.Sort(s.needFull)), pageSize, server, 0);
            out.1 && Brought(table, ToSet(s.needFull), s, out.0)
  {
    RequestsBring(s.(needFull := Lex.Sort(s.needFull)), pageSize, server, 0, table);
    assert ToSet(s.needFull) == ToSet(Lex.Sort(s.needFull)) by {
      Lex.SortKeepsElements(s.needFull);
    }
  }

  lemma PagedBrings(cached: map<string, Sliced>, table: map<string, Entry>, list: seq<Entry>, server: Server)
    requires Serves(server, table, list) && !SentInFull(server)
    ensures var s, out := Revisions(Begin(cached), RevisionsOf(list)), Exchange(cached, server);
            out.1 && Brought(table, ToSet(s.needFull), s, out.0)
  {
    PagedExchange(cached, list, server);
    SortedRequestsBring(Revisions(Begin(cached), RevisionsOf(list)), |server.initial[0].revisions|, server, table);
  }

  lemma NamedOrAsked(cached: map<string, Sliced>, table: map<string, Entry>, list: seq<Entry>, id: string)
    requires Keyed(cached) && Holds(table, list)
    ensures var s := Revisions(Begin(cached), RevisionsOf(list));
            && s.cached == cached
            && (id in s.toRemove <==> id in cached && !(id in table && GoodRevision(RevisionOf(table[id]))))
            && (id in s.needFull <==>
               id in table && GoodRevision(RevisionOf(table[id])) && Wanted(cached, RevisionOf(table[id])))
  {
    RevisionsEffect(Begin(cached), list);
    assert Named(list, id) <==> id in table && GoodRevision(RevisionOf(table[id]));
    assert Asked(cached, list, id) <==>
        id in table && GoodRevision(RevisionOf(table[id])) && Wanted(cached, RevisionOf(table[id]));
  }

  /** What a sync over revisions leaves under each ID, for every earlier cache and however the server pages. */
  lemma PagedSync(cached: map<string, Sliced>, table: map<string, Entry>, list: seq<Entry>, server: Server, id: string)
    requires Keyed(cached) && Serves(server, table, list) && !SentInFull(server)
    ensures var out := SyncEntries(cached, server); out.ok && Lookup(out.cached, id) == SyncedEntry(cached, table, id)
  {
    PagedBrings(cached, table, list, server);
    NamedOrAsked(cached, table, list, id);
    RemovedOrKept(cached, table, Revisions(Begin(cached), RevisionsOf(list)), Exchange(cached, server).0, id);
  }

  lemma RemovedOrKept(cached: map<string, Sliced>, table: map<string, Entry>, s: Sync, s': Sync, id: string)
    requires Brought(table, ToSet(s.needFull), s, s') && s.cached == cached
    requires id in s.toRemove <==> id in cached && !(id in table && GoodRevision(RevisionOf(table[id])))
    requires id in s.needFull <==>
             id in table && GoodRevision(RevisionOf(table[id])) && Wanted(cached, RevisionOf(table[id]))
    ensures Lookup(s'.cached - s'.toRemove, id) == SyncedEntry(cached, table, id)
  {
    assert Lookup(s'.cached - s'.toRemove, id) == if id in s'.toRemove then None else Lookup(s'.cached, id);
    assert Lookup(s'.cached, id) == if id in s.needFull && Usable(table, id) then Slice(table[id])
        else Lookup(cached, id);
  }

  /** The sync gives this entry as the full fetch would: a well-formed entry that was cached must be seen to be stale or
      be unchanged, a malformed one must not have been cached, and a negative revision hides a well-formed one. */
  predicate Syncable(cached: map<string, Sliced>, e: Entry) {
    if !GoodRevision(RevisionOf(e)) then Slice(e).None?
    else if e.id !in cached then true
    else Slice(e).Some? && (EntryIsStale(cached[e.id], e.revision, e.createdAt) || cached[e.id] == Slice(e).value)
  }

  /** Incremental sync refines full fetch: against every server that tells of one set of entries, however it pages, it
      succeeds, and it leaves exactly what the full fetch gives if and only if the list was sent in full or every entry
      is syncable. */
  lemma SyncRefinesFetch(cached: map<string, Sliced>, table: map<string, Entry>, list: seq<Entry>, server: Server)
    requires Keyed(cached) && Serves(server, table, list)
    ensures var out := SyncEntries(cached, server);
            && out.ok
            && (out.cached == FullFetch(table) <==>
               SentInFull(server) || forall id :: id in table ==> Syncable(cached, table[id]))
  {
    if SentInFull(server) {
      ShortSync(cached, table, list, server);
    } else {
      PagedRefines(cached, table, list, server, SyncEntries(cached, server));
    }
  }

  lemma PagedRefines(cached: map<string, Sliced>, table: map<string, Entry>, list: seq<Entry>, server: Server,
                     out: Outcome)
    requires Keyed(cached) && Serves(server, table, list) && !SentInFull(server) && out == SyncEntries(cached, server)
    ensures out.ok && (out.cached == FullFetch(table) <==> forall id :: id in table ==> Syncable(cached, table[id]))
  {
    PagedAgrees(cached, table, list, server, "");
    assert forall id :: AgreesOn(cached, table, out.cached, id) by {
      forall id ensures AgreesOn(cached, table, out.cached, id) {
        PagedAgrees(cached, table, list, server, id);
      }
    }
    AllAgree(cached, table, out.cached);
  }

  lemma AllAgree(cached: map<string, Sliced>, table: map<string, Entry>, synced: map<string, Sliced>)
    requires forall id :: AgreesOn(cached, table, synced, id)
    ensures synced == FullFetch(table) <==> forall id :: id in table ==> Syncable(cached, table[id])
  {
    if forall id :: id in table ==> Syncable(cached, table[id]) {
      forall id ensures Lookup(synced, id) == Lookup(FullFetch(table), id) {
        assert AgreesOn(cached, table, synced, id);
      }
      SameLookups(synced, FullFetch(table));
    }
    if synced == FullFetch(table) {
      forall id | id in table ensures Syncable(cached, table[id]) {
        assert AgreesOn(cached, table, synced, id);
      }
    }
  }

  /** The sync and the full fetch agree on an ID exactly when its entry is syncable. */
  ghost predicate AgreesOn(cached: map<string, Sliced>, table: map<string, Entry>, synced: map<string, Sliced>,
                           id: string) {
    Lookup(synced, id) == Lookup(FullFetch(table), id) <==> (id in table ==> Syncable(cached, table[id]))
  }

  lemma PagedAgrees(cached: map<string, Sliced>, table: map<string, Entry>, list: seq<Entry>, server: Server,
                    id: string)
    requires Keyed(cached) && Serves(server, table, list) && !SentInFull(server)
    ensures var out := SyncEntries(cached, server); out.ok && AgreesOn(cached, table, out.cached, id)
  {
    PagedSync(cached, table, list, server, id);
    SyncedIsFetched(cached, table, id);
  }

  lemma SyncedIsFetched(cached: map<string, Sliced>, table: map<string, Entry>, id: string)
    requires Keyed(cached) && ByID(table)
    ensures SyncedEntry(cached, table, id) == Lookup(FullFetch(table), id) <==>
            id in table ==> Syncable(cached, table[id])
  {
  }

  lemma ShortSync(cached: map<string, Sliced>, table: map<string, Entry>, list: seq<Entry>, server: Server)
    requires Keyed(cached) && Serves(server, table, list) && SentInFull(server)
    ensures var out := SyncEntries(cached, server); out.ok && out.cached == FullFetch(table)
  {
    var s := Begin(cached);
    EntriesBring(s, list, table);
    var s' := Entries(s, list);
    assert IdsOf(list) == table.Keys;
    forall id ensures Lookup(s'.cached - s'.toRemove, id) == Lookup(FullFetch(table), id) {
      assert id in s.toRemove <==> id in cached;
      assert Lookup(s'.cached, id) == if Usable(table, id) then Slice(table[id]) else Lookup(cached, id);
    }
    SameLookups(s'.cached - s'.toRemove, FullFetch(table));
  }

  /** In the entry's own fields: once the list was sent in full, or the cached copy of the entry was seen to be stale or
      says what the entry says, a well-formed entry is cached with its own SPIFFE ID, selectors and the rest. An ID the
      server does not have is not cached. */
  lemma SyncHoldsEntries(cached: map<string, Sliced>, table: map<string, Entry>, list: seq<Entry>, server: Server,
                         id: string)
    requires Keyed(cached) && Serves(server, table, list)
    ensures SyncEntries(cached, server).ok
    ensures id in table && WellFormed(table[id]) && (SentInFull(server) || Noticed(cached, table[id])) ==>
              id in SyncEntries(cached, server).cached && Tells(SyncEntries(cached, server).cached[id], table[id])
    ensures id !in table ==> id !in SyncEntries(cached, server).cached
  {
    if SentInFull(server) {
      ShortSync(cached, table, list, server);
    } else {
      PagedSync(cached, table, list, server, id);
    }
    if id in table {
      SliceExactly(table[id]);
    }
  }

  /** The entry has a revision the client accepts, and a cached copy of it is seen to be stale or agrees with it. */
  predicate Noticed(cached: map<string, Sliced>, e: Entry) {
    e.revision >= 0 &&
    (e.id in cached ==> Outdated(cached[e.id], e) || Tells(cached[e.id], e))
  }

  predicate Outdated(held: Sliced, e: Entry) {
    held.revision != e.revision || (e.createdAt != 0 && held.createdAt != e.createdAt)
  }

  /** An entry is requested if and only if it has an ID and a revision that is not negative, and no copy of it is cached
      or one that is outdated. What is requested is what was needed, page by page. */
  lemma RequestedExactly(cached: map<string, Sliced>, table: map<string, Entry>, list: seq<Entry>, server: Server,
                         id: string)
    requires Keyed(cached) && Serves(server, table, list) && !SentInFull(server)
    ensures var s := Revisions(Begin(cached), RevisionsOf(list));
            var need := Lex.Sort(s.needFull);
            && (id in need <==>
               id in table && id != "" && table[id].revision >= 0 && (id in cached ==> Outdated(cached[id], table[id])))
            && Exchange(cached, server) ==
               Requests(s.(needFull := need), |server.initial[0].revisions|, server, 0)
  {
    var s := Revisions(Begin(cached), RevisionsOf(list));
    NamedOrAsked(cached, table, list, id);
    Lex.SortKeepsElements(s.needFull);
    PagedExchange(cached, list, server);
  }

  predicate SameVersion(held: Sliced, e: Entry) {
    held.revision == e.revision && held.createdAt == e.createdAt
  }

  /** When ID, revision and a non-zero creation time fix an entry's content, as the server promises, all well-formed
      entries are syncable, whatever older snapshot is cached. */
  lemma VersionsFixContent(cached: map<string, Sliced>, table: map<string, Entry>, list: seq<Entry>, server: Server)
    requires Keyed(cached) && Serves(server, table, list)
    requires forall id :: id in table ==> Slice(table[id]).Some? && table[id].revision >= 0 && table[id].createdAt != 0
    requires forall id :: id in table && id in cached && SameVersion(cached[id], table[id]) ==>
               Some(cached[id]) == Slice(table[id])
    ensures var out := SyncEntries(cached, server); out.ok && out.cached == FullFetch(table)
  {
    SyncRefinesFetch(cached, table, list, server);
    forall id | id in table ensures Syncable(cached, table[id]) {
      assert table[id].id == id;
    }
  }

  /** The answer to a request holds exactly the entries asked for that exist. */
  lemma {:induction false} MatchesExactly(table: map<string, Entry>, sorted: seq<Entry>, ids: seq<string>)
    requires Holds(table, sorted) && SortedByID(sorted)
    ensures forall e :: e in Matches(sorted, ids) <==> e.id in ids && e.id in table && table[e.id] == e
  {
    if ids != [] {
      FindsIt(table, sorted, ids[0]);
      MatchesExactly(table, sorted, ids[1..]);
      assert ids == [ids[0]] + ids[1..];
    }
  }

  lemma FindsIt(table: map<string, Entry>, sorted: seq<Entry>, id: string)
    requires Holds(table, sorted) && SortedByID(sorted)
    ensures WithID(sorted, id) == if id in table then [table[id]] else []
  {
    var i := Find(sorted, id);
    if id in table {
      var j :| 0 <= j < |sorted| && sorted[j] == table[id];
      assert !Lex.Less(sorted[j].id, id);
      assert forall x :: 0 <= x < j ==> Lex.Less(sorted[x].id, sorted[j].id);
    } else if i < |sorted| {
      assert sorted[i] in sorted;
    }
  }

  lemma {:induction false} RevisionPagesTell(es: seq<Entry>, pageSize: nat)
    requires pageSize > 0
    ensures TellsRevisions(RevisionPages(es, pageSize))
    ensures RevisionsTold(RevisionPages(es, pageSize)) == RevisionsOf(es)
    decreases |es|
  {
    var pages := RevisionPages(es, pageSize);
    if |es| > pageSize {
      var a, b := es[..pageSize], es[pageSize..];
      RevisionPagesTell(b, pageSize);
      assert pages[1..] == RevisionPages(b, pageSize);
      assert RevisionsOf(es) == RevisionsOf(a) + RevisionsOf(b);
    }
  }

  lemma {:induction false} PagedTells(es: seq<Entry>, pageSize: nat)
    requires pageSize > 0
    ensures TellsEntries(Paged(es, pageSize)) && FullReceived(Paged(es, pageSize)) == es
    decreases |es|
  {
    var pages := Paged(es, pageSize);
    if |es| > pageSize {
      PagedTells(es[pageSize..], pageSize);
      assert pages[1..] == Paged(es[pageSize..], pageSize);
      assert es == es[..pageSize] + es[pageSize..];
    }
  }

  /** The server of SyncServer, which cuts everything at its page size, is one of them. It sends the list in full
      exactly when it fits a page. */
  lemma ServerForServes(table: map<string, Entry>, list: seq<Entry>, sorted: seq<Entry>, pageSize: nat)
    requires pageSize > 0 && Holds(table, list) && Holds(table, sorted) && SortedByID(sorted)
    ensures var server := ServerFor(list, sorted, pageSize);
            Serves(server, table, list) && (SentInFull(server) <==> |list| <= pageSize)
  {
    var server := ServerFor(list, sorted, pageSize);
    if |list| > pageSize {
      RevisionPagesTell(list, pageSize);
      AnswersAreExact(table, server, sorted, pageSize);
    }
  }

  lemma AnswersAreExact(table: map<string, Entry>, server: Server, sorted: seq<Entry>, pageSize: nat)
    requires pageSize > 0 && Holds(table, sorted) && SortedByID(sorted)
    requires forall n: nat, ids :: server.answer(n, ids) == Paged(Matches(sorted, Lex.Sort(ids)), pageSize)
    ensures AnswersAll(server, table, pageSize)
  {
    forall n: nat, ids | 0 < |ids| <= pageSize ensures AnswersExactly(server.answer(n, ids), table, ids) {
      AnswerIsExact(table, sorted, ids, pageSize);
    }
  }

  lemma AnswerIsExact(table: map<string, Entry>, sorted: seq<Entry>, ids: seq<string>, pageSize: nat)
    requires pageSize > 0 && Holds(table, sorted) && SortedByID(sorted)
    ensures AnswersExactly(Paged(Matches(sorted, Lex.Sort(ids)), pageSize), table, ids)
  {
    PagedTells(Matches(sorted, Lex.Sort(ids)), pageSize);
    MatchesExactly(table, sorted, Lex.Sort(ids));
    Lex.SortKeepsElements(ids);
  }
}
