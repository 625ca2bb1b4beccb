/** What the counts of a sync mean: how many entries were missing, stale and dropped. */
module SyncStats {
  import opened Types
  import opened Collections
  import opened EntrySync
  import opened SyncServer
  import opened SyncBooks
  import opened SyncRefinement
  import Lex

  /** The server has this entry, and it is well-formed. */
  predicate GoodID(table: map<string, Entry>, id: string) {
    id in table && WellFormed(table[id])
  }

  ghost function Good(table: map<string, Entry>, ids: set<string>): set<string> {
    set id | id in ids && GoodID(table, id)
  }

  /** An outdated copy of the entry is cached. */
  predicate OutdatedID(cached: map<string, Sliced>, table: map<string, Entry>, id: string) {
    id in cached && id in table && Outdated(cached[id], table[id])
  }

  ghost function Stale(cached: map<string, Sliced>, table: map<string, Entry>, ids: set<string>): set<string> {
    set id | id in ids && OutdatedID(cached, table, id)
  }

  /** What is held under an ID when the entries `came` have come in. */
  predicate HeldAs(cached: map<string, Sliced>, table: map<string, Entry>, came: set<string>,
                   now: map<string, Sliced>, id: string) {
    if id in came then GoodID(table, id) && id in now && Tells(now[id], table[id])
    else Lookup(now, id) == Lookup(cached, id)
  }

  /** The entries `came` have come in, each counted for what it was when the sync began. */
  ghost predicate Tallied(cached: map<string, Sliced>, table: map<string, Entry>, came: set<string>, s: Sync) {
    && s.missing == |came - cached.Keys| && s.stale == |Stale(cached, table, came)|
    && forall id :: HeldAs(cached, table, came, s.cached, id)
  }

  /** An entry that came before changes no count. */
  lemma CameBefore(cached: map<string, Sliced>, table: map<string, Entry>, came: set<string>, s: Sync, e: Entry)
    requires Tallied(cached, table, came, s) && e.id in table && table[e.id] == e && WellFormed(e) && e.id in came
    ensures Tallied(cached, table, came, OneEntry(s, e))
  {
    SliceExactly(e);
    assert HeldAs(cached, table, came, s.cached, e.id);
    forall id ensures HeldAs(cached, table, came, OneEntry(s, e).cached, id) {
      assert HeldAs(cached, table, came, s.cached, id);
    }
  }

  lemma Comes(cached: map<string, Sliced>, table: map<string, Entry>, came: set<string>, s: Sync, e: Entry)
    requires Tallied(cached, table, came, s) && e.id in table && table[e.id] == e && WellFormed(e) && e.id !in came
    ensures Tallied(cached, table, came + {e.id}, OneEntry(s, e))
  {
    SliceExactly(e);
    assert HeldAs(cached, table, came, s.cached, e.id);
    StaleOneMore(cached, table, came, e.id);
    AbsentOneMore(cached, came, e.id);
    forall id ensures HeldAs(cached, table, came + {e.id}, OneEntry(s, e).cached, id) {
      assert HeldAs(cached, table, came, s.cached, id);
    }
  }

  lemma StaleOneMore(cached: map<string, Sliced>, table: map<string, Entry>, came: set<string>, id: string)
    requires id !in came
    ensures |Stale(cached, table, came + {id})| ==
            |Stale(cached, table, came)| + if OutdatedID(cached, table, id) then 1 else 0
  {
    var a, b := Stale(cached, table, came), Stale(cached, table, came + {id});
    assert b == if OutdatedID(cached, table, id) then a + {id} else a;
  }

  lemma AbsentOneMore(cached: map<string, Sliced>, came: set<string>, id: string)
    requires id !in came
    ensures |came + {id} - cached.Keys| == |came - cached.Keys| + if id in cached then 0 else 1
  {
    assert came + {id} - cached.Keys == if id in cached then came - cached.Keys else came - cached.Keys + {id};
  }

  lemma GoodOne(table: map<string, Entry>, came: set<string>, e: Entry)
    requires e.id in table && table[e.id] == e
    ensures came + Good(table, {e.id}) == if WellFormed(e) && e.id !in came then came + {e.id} else came
  {
  }

  /** One more entry comes in; one that comes twice is counted once. */
  lemma EntryTallies(cached: map<string, Sliced>, table: map<string, Entry>, came: set<string>, s: Sync, e: Entry)
    requires Tallied(cached, table, came, s) && e.id in table && table[e.id] == e
    ensures Tallied(cached, table, came + Good(table, {e.id}), OneEntry(s, e))
  {
    GoodOne(table, came, e);
    if !WellFormed(e) {
      SliceExactly(e);
    } else if e.id in came {
      CameBefore(cached, table, came, s, e);
    } else {
      Comes(cached, table, came, s, e);
    }
  }

  lemma GoodOfBoth(table: map<string, Entry>, came: set<string>, a: set<string>, b: set<string>)
    ensures came + Good(table, a + b) == came + Good(table, a) + Good(table, b)
    ensures came + Good(table, {}) == came
  {
  }

  lemma IdsOfRest(es: seq<Entry>)
    requires es != []
    ensures IdsOf(es) == {es[0].id} + IdsOf(es[1..])
  {
    assert es == [es[0]] + es[1..];
  }

  lemma {:induction false} EntriesTally(cached: map<string, Sliced>, table: map<string, Entry>, came: set<string>,
                                        s: Sync, es: seq<Entry>)
    requires Tallied(cached, table, came, s) && forall e :: e in es ==> e.id in table && table[e.id] == e
    ensures Tallied(cached, table, came + Good(table, IdsOf(es)), Entries(s, es))
    decreases |es|
  {
    if es == [] {
      GoodOfBoth(table, came, {}, {});
      assert IdsOf(es) == {};
    } else {
      assert es[0] in es && forall e :: e in es[1..] ==> e in es;
      EntryTallies(cached, table, came, s, es[0]);
      EntriesTally(cached, table, came + Good(table, {es[0].id}), OneEntry(s, es[0]), es[1..]);
      IdsOfRest(es);
      GoodOfBoth(table, came, {es[0].id}, IdsOf(es[1..]));
    }
  }

  lemma AnswerTallies(cached: map<string, Sliced>, table: map<string, Entry>, came: set<string>, s: Sync,
                      ids: seq<string>, stream: seq<Response>)
    requires Tallied(cached, table, came, s) && ByID(table) && AnswersExactly(stream, table, ids)
    ensures FullEntries(s, stream).1 && Tallied(cached, table, came + Good(table, ToSet(ids)), FullEntries(s, stream).0)
  {
    EntryPagesArrive(s, stream);
    EntriesTally(cached, table, came, s, FullReceived(stream));
    AnswerIsGood(table, ids, stream);
  }

  lemma AnswerIsGood(table: map<string, Entry>, ids: seq<string>, stream: seq<Response>)
    requires ByID(table) && AnswersExactly(stream, table, ids)
    ensures Good(table, IdsOf(FullReceived(stream))) == Good(table, ToSet(ids))
  {
    forall id | id in ids && id in table ensures id in IdsOf(FullReceived(stream)) {
      assert table[id] in FullReceived(stream);
    }
  }

  lemma {:induction false} RequestsTally(cached: map<string, Sliced>, table: map<string, Entry>, came: set<string>,
                                         s: Sync, pageSize: nat, server: Server, n: nat)
    requires Tallied(cached, table, came, s) && ByID(table) && pageSize > 0 && AnswersAll(server, table, pageSize)
    ensures Tallied(cached, table, came + Good(table, ToSet(s.needFull)), Requests(s, pageSize, server, n).0)
    decreases |s.needFull|
  {
    if s.needFull == [] {
      GoodOfBoth(table, came, {}, {});
      assert ToSet(s.needFull) == {};
    } else {
      var k := RequestSize(s.needFull, pageSize);
      var s2 := RequestTallies(cached, table, came, s, pageSize, server, n);
      RequestsTally(cached, table, came + Good(table, ToSet(s.needFull[..k])), s2, pageSize, server, n + 1);
      SplitSet(s.needFull, k);
      GoodOfBoth(table, came, ToSet(s.needFull[..k]), ToSet(s.needFull[k..]));
    }
  }

  lemma RequestTallies(cached: map<string, Sliced>, table: map<string, Entry>, came: set<string>, s: Sync,
                       pageSize: nat, server: Server, n: nat) returns (s2: Sync)
    requires Tallied(cached, table, came, s) && ByID(table) && pageSize > 0 && AnswersAll(server, table, pageSize)
    requires s.needFull != []
    ensures var k := RequestSize(s.needFull, pageSize);
            Tallied(cached, table, came + Good(table, ToSet(s.needFull[..k])), s2) && s2.needFull == s.needFull[k..]
    ensures Requests(s, pageSize, server, n) == Requests(s2, pageSize, server, n + 1)
  {
    var k := RequestSize(s.needFull, pageSize);
    var ids, s1 := s.needFull[..k], s.(needFull := s.needFull[k..]);
    assert Tallied(cached, table, came, s1);
    AnswerTallies(cached, table, came, s1, ids, server.answer(n, ids));
    FullEntriesKeepNeed(s1, server.answer(n, ids));
    s2 := FullEntries(s1, server.answer(n, ids)).0;
    RequestsStep(s, pageSize, server, n);
  }

  lemma {:induction false} RevisionsCountNothing(s: Sync, rs: seq<Revision>)
    ensures var s' := Revisions(s, rs); s'.missing == s.missing && s'.stale == s.stale && s'.cached == s.cached
    decreases |rs|
  {
    if rs != [] {
      RevisionsCountNothing(OneRevision(s, rs[0]), rs[1..]);
    }
  }

  /** The entries a sync can count: all well-formed ones, but if revisions were sent only those with a revision the
      client accepts. */
  ghost function Countable(table: map<string, Entry>, inFull: bool): set<string> {
    set id | id in table && GoodID(table, id) && (inFull || table[id].revision >= 0)
  }

  /** Those that are requested if revisions are sent. */
  ghost function Needed(cached: map<string, Sliced>, table: map<string, Entry>): set<string> {
    set id | id in Countable(table, false) && (id in cached ==> OutdatedID(cached, table, id))
  }

  lemma BeginsTallied(cached: map<string, Sliced>, table: map<string, Entry>, s: Sync)
    requires s.cached == cached && s.missing == s.stale == 0
    ensures Tallied(cached, table, {}, s)
  {
    assert {} - cached.Keys == {} && Stale(cached, table, {}) == {};
  }

  lemma FullTallies(cached: map<string, Sliced>, table: map<string, Entry>, list: seq<Entry>, server: Server)
    requires Serves(server, table, list) && SentInFull(server)
    ensures Tallied(cached, table, Countable(table, true), Exchange(cached, server).0)
  {
    BeginsTallied(cached, table, Begin(cached));
    EntriesTally(cached, table, {}, Begin(cached), list);
    AllGood(table, list);
  }

  lemma AllGood(table: map<string, Entry>, list: seq<Entry>)
    requires Holds(table, list)
    ensures {} + Good(table, IdsOf(list)) == Countable(table, true)
  {
    assert IdsOf(list) == table.Keys;
  }

  lemma PagedTallies(cached: map<string, Sliced>, table: map<string, Entry>, list: seq<Entry>, server: Server)
    requires Keyed(cached) && Serves(server, table, list) && !SentInFull(server)
    ensures Tallied(cached, table, Needed(cached, table), Exchange(cached, server).0)
  {
    var s := Revisions(Begin(cached), RevisionsOf(list));
    var s1 := s.(needFull := Lex.Sort(s.needFull));
    RevisionsCountNothing(Begin(cached), RevisionsOf(list));
    BeginsTallied(cached, table, s1);
    RequestsTally(cached, table, {}, s1, |server.initial[0].revisions|, server, 0);
    PagedExchange(cached, list, server);
    NeededIsRequested(cached, table, list, server);
  }

  lemma NeededIsRequested(cached: map<string, Sliced>, table: map<string, Entry>, list: seq<Entry>, server: Server)
    requires Keyed(cached) && Serves(server, table, list) && !SentInFull(server)
    ensures {} + Good(table, ToSet(Lex.Sort(Revisions(Begin(cached), RevisionsOf(list)).needFull))) ==
            Needed(cached, table)
  {
    var need := Lex.Sort(Revisions(Begin(cached), RevisionsOf(list)).needFull);
    forall id ensures id in Good(table, ToSet(need)) <==> id in Needed(cached, table) {
      RequestedExactly(cached, table, list, server, id);
    }
  }

  lemma NeededCounts(cached: map<string, Sliced>, table: map<string, Entry>)
    ensures Needed(cached, table) - cached.Keys == Countable(table, false) - cached.Keys
    ensures Stale(cached, table, Needed(cached, table)) == Stale(cached, table, Countable(table, false))
  {
  }

  /** Against every server that tells of one set of entries, however it pages: missing are the well-formed entries of
      which no copy was cached, stale those of which an outdated one was, and dropped the copies that are gone. */
  lemma CountsAreExact(cached: map<string, Sliced>, table: map<string, Entry>, list: seq<Entry>, server: Server)
    requires Keyed(cached) && Serves(server, table, list)
    ensures var out, counted := SyncEntries(cached, server), Countable(table, SentInFull(server));
            && out.ok && out.stats.missing == |counted - cached.Keys|
            && out.stats.stale == |Stale(cached, table, counted)|
            && out.stats.dropped == |cached| + out.stats.missing - |out.cached| && out.stats.total == |out.cached|
  {
    SyncRefinesFetch(cached, table, list, server);
    CountsAddUp(cached, server);
    if SentInFull(server) {
      FullTallies(cached, table, list, server);
    } else {
      PagedTallies(cached, table, list, server);
      NeededCounts(cached, table);
    }
  }
}
