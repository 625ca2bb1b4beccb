/** What a sync keeps whatever the server answers. */
module SyncBooks {
  import opened Types
  import opened EntrySync
  import Lex

  ghost predicate Keyed(cached: map<string, Sliced>) {
    forall k :: k in cached ==> cached[k].id == k
  }

  /** The entries the client receives in answer to one request: up to the page that ends it, or to one it refuses. */
  function FullReceived(stream: seq<Response>): seq<Entry>
    decreases |stream|
  {
    if stream == [] || stream[0].revisions != [] then []
    else stream[0].entries + if stream[0].more then FullReceived(stream[1..]) else []
  }

  /** In answer to the requests it makes. */
  function RequestsReceived(s: Sync, pageSize: nat, server: Server, n: nat): seq<Entry>
    requires pageSize > 0
    decreases |s.needFull|
  {
    if s.needFull == [] then []
    else
      var k := RequestSize(s.needFull, pageSize);
      var stream := server.answer(n, s.needFull[..k]);
      FullEntriesKeepNeed(s.(needFull := s.needFull[k..]), stream);
      var (s', ok) := FullEntries(s.(needFull := s.needFull[k..]), stream);
      FullReceived(stream) + if ok then RequestsReceived(s', pageSize, server, n + 1) else []
  }

  /** In the whole exchange. */
  function Received(cached: map<string, Sliced>, server: Server): seq<Entry> {
    if server.initial == [] then []
    else
      var first := server.initial[0];
      if first.revisions == [] then first.entries
      else
        var s1 := Revisions(Begin(cached), first.revisions);
        var (s2, ok) := if first.more then MoreRevisions(s1, server.initial[1..]) else (s1, true);
        if ok then RequestsReceived(s2.(needFull := Lex.Sort(s2.needFull)), |first.revisions|, server, 0) else []
  }

  ghost predicate Among(received: seq<Entry>, v: Sliced) {
    exists e :: e in received && Slice(e) == Some(v)
  }

  /** The counts add up, everything due for removal is cached, no cached key is gone, and every cached entry is an
      original one or one that was received. */
  ghost predicate Books(cached0: map<string, Sliced>, received: seq<Entry>, s: Sync) {
    && |s.cached| == |cached0| + s.missing
    && s.toRemove <= s.cached.Keys && cached0.Keys <= s.cached.Keys
    && Contents(cached0, received, s.cached)
  }

  ghost predicate Contents(cached0: map<string, Sliced>, received: seq<Entry>, cached: map<string, Sliced>) {
    && (forall k :: k in cached ==> cached[k].id == k)
    && (forall k :: k in cached ==> (k in cached0 && cached[k] == cached0[k]) || Among(received, cached[k]))
  }

  lemma StoreKeepsContents(cached0: map<string, Sliced>, received: seq<Entry>, cached: map<string, Sliced>, v: Sliced)
    requires Contents(cached0, received, cached) && Among(received, v)
    ensures Contents(cached0, received, cached[v.id := v])
  {
    forall k | k in cached[v.id := v] && k != v.id ensures k in cached && cached[v.id := v][k] == cached[k] {
    }
  }

  lemma MoreReceived(cached0: map<string, Sliced>, received: seq<Entry>, more: seq<Entry>, s: Sync)
    requires Books(cached0, received, s)
    ensures Books(cached0, received + more, s)
  {
    forall k | k in s.cached && Among(received, s.cached[k]) ensures Among(received + more, s.cached[k]) {
      var e :| e in received && Slice(e) == Some(s.cached[k]);
      assert e in received + more;
    }
  }

  lemma {:induction false} RevisionsKeepBooks(cached0: map<string, Sliced>, received: seq<Entry>, s: Sync,
                                              rs: seq<Revision>)
    requires Books(cached0, received, s)
    ensures Books(cached0, received, Revisions(s, rs))
    decreases |rs|
  {
    if rs != [] { RevisionsKeepBooks(cached0, received, OneRevision(s, rs[0]), rs[1..]); }
  }

  lemma OneEntryKeepsBooks(cached0: map<string, Sliced>, received: seq<Entry>, s: Sync, e: Entry)
    requires Books(cached0, received, s)
    ensures Books(cached0, received + [e], OneEntry(s, e))
  {
    MoreReceived(cached0, received, [e], s);
    if Slice(e).Some? {
      assert e in received + [e];
      assert Among(received + [e], Slice(e).value);
      StoreKeepsBooks(cached0, received + [e], s, Slice(e).value, OneEntry(s, e).stale);
    }
  }

  lemma StoredSize(m: map<string, Sliced>, k: string, v: Sliced)
    ensures |m[k := v]| == |m| + if k in m then 0 else 1
  {
    assert m[k := v].Keys == m.Keys + {k};
    assert |m[k := v]| == |m[k := v].Keys| && |m| == |m.Keys|;
  }

  lemma StoreKeepsBooks(cached0: map<string, Sliced>, received: seq<Entry>, s: Sync, v: Sliced, stale: nat)
    requires Books(cached0, received, s) && Among(received, v)
    ensures Books(cached0, received, Sync(s.cached[v.id := v], s.toRemove - {v.id}, s.needFull,
                                          if v.id !in s.cached then s.missing + 1 else s.missing, stale))
  {
    StoredSize(s.cached, v.id, v);
    StoreKeepsContents(cached0, received, s.cached, v);
    assert s.cached[v.id := v].Keys == s.cached.Keys + {v.id};
  }

  lemma {:induction false} EntriesKeepBooks(cached0: map<string, Sliced>, received: seq<Entry>, s: Sync, es: seq<Entry>)
    requires Books(cached0, received, s)
    ensures Books(cached0, received + es, Entries(s, es))
    decreases |es|
  {
    if es == [] {
      assert received + es == received;
    } else {
      OneEntryKeepsBooks(cached0, received, s, es[0]);
      EntriesKeepBooks(cached0, received + [es[0]], OneEntry(s, es[0]), es[1..]);
      assert received + es == received + [es[0]] + es[1..];
    }
  }

  lemma {:induction false} MoreRevisionsKeepBooks(cached0: map<string, Sliced>, received: seq<Entry>, s: Sync,
                                                  stream: seq<Response>)
    requires Books(cached0, received, s)
    ensures Books(cached0, received, MoreRevisions(s, stream).0)
    decreases |stream|
  {
    if stream != [] && stream[0].entries == [] {
      RevisionsKeepBooks(cached0, received, s, stream[0].revisions);
      MoreRevisionsKeepBooks(cached0, received, Revisions(s, stream[0].revisions), stream[1..]);
    }
  }

  lemma {:induction false} FullEntriesKeepBooks(cached0: map<string, Sliced>, received: seq<Entry>, s: Sync,
                                                stream: seq<Response>)
    requires Books(cached0, received, s)
    ensures Books(cached0, received + FullReceived(stream), FullEntries(s, stream).0)
    decreases |stream|
  {
    if stream == [] || stream[0].revisions != [] {
      assert received + [] == received;
    } else {
      var es := stream[0].entries;
      EntriesKeepBooks(cached0, received, s, es);
      if stream[0].more {
        FullEntriesKeepBooks(cached0, received + es, Entries(s, es), stream[1..]);
        Concats(received, es, FullReceived(stream[1..]));
      } else {
        Concats(received, es, []);
      }
    }
  }

  lemma {:induction false} RequestsKeepBooks(cached0: map<string, Sliced>, received: seq<Entry>, server: Server,
                                             s: Sync, pageSize: nat, n: nat)
    requires pageSize > 0 && Books(cached0, received, s)
    ensures Books(cached0, received + RequestsReceived(s, pageSize, server, n), Requests(s, pageSize, server, n).0)
    decreases |s.needFull|
  {
    if s.needFull == [] {
      assert received + [] == received;
    } else {
      var k := RequestSize(s.needFull, pageSize);
      var s1, stream := s.(needFull := s.needFull[k..]), server.answer(n, s.needFull[..k]);
      FullEntriesKeepNeed(s1, stream);
      assert Books(cached0, received, s1);
      FullEntriesKeepBooks(cached0, received, s1, stream);
      var got, s2 := FullReceived(stream), FullEntries(s1, stream).0;
      if FullEntries(s1, stream).1 {
        RequestsKeepBooks(cached0, received + got, server, s2, pageSize, n + 1);
        Concats(received, got, RequestsReceived(s2, pageSize, server, n + 1));
      } else {
        Concats(received, got, []);
      }
    }
  }

  lemma Concats(a: seq<Entry>, b: seq<Entry>, c: seq<Entry>)
    ensures a + (b + c) == a + b + c && b + [] == b
  {
  }

  lemma ExchangeKeepsBooks(cached: map<string, Sliced>, server: Server)
    requires Keyed(cached)
    ensures Books(cached, Received(cached, server), Exchange(cached, server).0)
  {
    var s := Begin(cached);
    assert Books(cached, [], s);
    if server.initial != [] {
      if server.initial[0].revisions == [] {
        EntriesExchange(cached, server, s);
      } else {
        RevisionsExchange(cached, server, s);
      }
    }
  }

  lemma EntriesExchange(cached: map<string, Sliced>, server: Server, s: Sync)
    requires s == Begin(cached) && Books(cached, [], s) && server.initial != [] && server.initial[0].revisions == []
    ensures Books(cached, Received(cached, server), Exchange(cached, server).0)
  {
    var es := server.initial[0].entries;
    EntriesKeepBooks(cached, [], s, es);
    assert [] + es == es;
  }

  lemma RevisionsExchange(cached: map<string, Sliced>, server: Server, s: Sync)
    requires s == Begin(cached) && Books(cached, [], s) && server.initial != [] && server.initial[0].revisions != []
    ensures Books(cached, Received(cached, server), Exchange(cached, server).0)
  {
    var first := server.initial[0];
    RevisionsKeepBooks(cached, [], s, first.revisions);
    var s1 := Revisions(s, first.revisions);
    MoreRevisionsKeepBooks(cached, [], s1, server.initial[1..]);
    var (s2, ok) := if first.more then MoreRevisions(s1, server.initial[1..]) else (s1, true);
    if ok {
      var s3 := s2.(needFull := Lex.Sort(s2.needFull));
      assert Books(cached, [], s3);
      RequestsKeepBooks(cached, [], server, s3, |first.revisions|, 0);
      var got := RequestsReceived(s3, |first.revisions|, server, 0);
      assert [] + got == got;
    }
  }

  /** A successful sync accounts for every entry: what there was, plus what was missing, less what was dropped. */
  lemma CountsAddUp(cached: map<string, Sliced>, server: Server)
    requires Keyed(cached) && SyncEntries(cached, server).ok
    ensures var out := SyncEntries(cached, server);
            out.stats.total == |out.cached| && out.stats.total == |cached| + out.stats.missing - out.stats.dropped &&
                Keyed(out.cached)
  {
    ExchangeKeepsBooks(cached, server);
    RemovalCounts(Exchange(cached, server).0);
  }

  lemma RemovalCounts(s: Sync)
    requires s.toRemove <= s.cached.Keys
    ensures |s.cached - s.toRemove| == |s.cached| - |s.toRemove|
  {
    var kept := s.cached - s.toRemove;
    assert s.cached.Keys == kept.Keys + s.toRemove && kept.Keys !! s.toRemove;
    assert |s.cached| == |s.cached.Keys| && |kept| == |kept.Keys|;
  }

  /** A failed sync removes no entry, and changes only entries it received. */
  lemma FailureRemovesNothing(cached: map<string, Sliced>, server: Server)
    requires Keyed(cached) && !SyncEntries(cached, server).ok
    ensures var out := SyncEntries(cached, server);
            && cached.Keys <= out.cached.Keys && Keyed(out.cached)
            && forall k :: k in out.cached ==>
               (k in cached && out.cached[k] == cached[k]) || Among(Received(cached, server), out.cached[k])
  {
    ExchangeKeepsBooks(cached, server);
  }
}
