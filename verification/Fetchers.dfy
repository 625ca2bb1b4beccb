/** The two fetchers' work on the cache, and the full reload that swaps it. */
module Fetchers {
  import opened Types
  import opened Collections
  import opened Records
  import opened EventFeed
  import opened Listings
  import opened AuthorizedEntries

  /** What updateCachedEntries does with the row of a queued ID. */
  function Refreshed(entries: map<string, Entry>, id: string, row: Option<Stored>, trustDomain: string)
    : map<string, Entry>
  {
    if row.None? || row.value.Malformed? then entries - {id}
    else if InDomain(row.value.e, trustDomain) then entries[id := row.value.e]
    else entries
  }

  /** Refreshing an ID gives what a fresh load would, except that an entry moved to another trust domain keeps its old
      copy. */
  lemma RefreshMatchesLoad(entries: map<string, Entry>, id: string, row: Option<Stored>, trustDomain: string)
    ensures forall k :: k != id ==> Lookup(Refreshed(entries, id, row, trustDomain), k) == Lookup(entries, k)
    ensures Lookup(Refreshed(entries, id, row, trustDomain), id) == Image(row, trustDomain) <==>
            (row.Some? && row.value.WellFormed? && !InDomain(row.value.e, trustDomain) ==> id !in entries)
  {
    var after := Refreshed(entries, id, row, trustDomain);
    if row.None? || row.value.Malformed? {
      assert id !in after;
    }
  }

  /** The elements of a set in some order, as ranging over a map gives its keys. */
  method Collect(s: set<string>) returns (xs: seq<string>)
    ensures forall x :: x in xs <==> x in s
    ensures NoRepeats(xs)
  {
    xs := [];
    var todo := s;
    while todo != {}
      invariant todo <= s
      invariant forall x :: x in xs <==> x in s - todo
      invariant NoRepeats(xs)
    {
      var x :| x in todo;
      assert x !in xs;
      NoRepeatsAppend(xs, x);
      xs, todo := xs + [x], todo - {x};
    }
  }

  predicate NoRepeats(xs: seq<string>) {
    forall i, j :: 0 <= i < j < |xs| ==> xs[i] != xs[j]
  }

  lemma NoRepeatsAppend(xs: seq<string>, x: string)
    requires NoRepeats(xs) && x !in xs
    ensures NoRepeats(xs + [x]) && forall y :: y in xs + [x] <==> y in xs || y == x
  {
  }

  class RegistrationEntries {
    const follower: Follower
    const pageSize: nat
    var cache: Cache

    constructor (follower: Follower, cache: Cache, pageSize: nat)
      requires pageSize > 0
      ensures this.follower == follower && this.cache == cache && this.pageSize == pageSize
    {
      this.follower, this.cache, this.pageSize := follower, cache, pageSize;
    }

    /** Refreshes one page of queued IDs from the rows fetched for it. */
    method UpdatePage(page: seq<string>, rows: map<string, Stored>)
      requires cache.Valid() && RowsKeyed(rows) && NoRepeats(page)
      modifies cache, follower`fetch
      ensures cache.Valid() && cache.agentsByID == old(cache.agentsByID)
      ensures follower.fetch == old(follower.fetch) - IDSet(page)
      ensures PageRefreshed(old(cache.entries), cache.entries, page, rows, cache.trustDomain)
    {
      for i := 0 to |page|
        invariant cache.Valid() && cache.agentsByID == old(cache.agentsByID)
        invariant follower.fetch == old(follower.fetch) - IDSet(page[..i])
        invariant PageRefreshed(old(cache.entries), cache.entries, page[..i], rows, cache.trustDomain)
      {
        assert page[..i + 1] == page[..i] + [page[i]] && page[i] !in page[..i];
        OneMoreRefreshed(old(cache.entries), cache.entries, page[..i], page[i], rows, cache.trustDomain);
        UpdateID(page[i], rows);
      }
      assert page[..|page|] == page;
    }

    method UpdateID(id: string, rows: map<string, Stored>)
      requires cache.Valid() && RowsKeyed(rows)
      modifies cache, follower`fetch
      ensures cache.Valid() && cache.agentsByID == old(cache.agentsByID) && follower.fetch == old(follower.fetch) - {id}
      ensures cache.entries == Refreshed(old(cache.entries), id, Lookup(rows, id), cache.trustDomain)
    {
      if id !in rows || rows[id].Malformed? {
        cache.RemoveEntry(id);
      } else {
        cache.UpdateEntry(rows[id].e);
      }
      follower.fetch := follower.fetch - {id};
    }

    /** Refreshes every queued ID, a page at a time. `fetched` are the requests that were answered, with their answers.
        An error, to the request `failed`, stops it: pages already done stay done, the rest stay queued. */
    method UpdateCachedEntries(ds: Answers) returns (ok: bool, ghost fetched: seq<Fetched>, ghost failed: seq<string>)
      requires cache.Valid() && AnswersKeyed(ds) && pageSize > 0
      modifies cache, follower`fetch
      ensures cache.Valid() && cache.agentsByID == old(cache.agentsByID)
      ensures Answered(ds, pageSize, fetched) && old(follower.fetch) == follower.fetch + AllIDs(fetched) &&
              AllIDs(fetched) !! follower.fetch
      ensures ok ==> follower.fetch == {}
      ensures !ok ==> ds(|fetched|, failed).None? && 0 < |failed| <= pageSize
      ensures !ok ==> NoRepeats(failed) && IDSet(failed) <= follower.fetch
      ensures RefreshedFrom(fetched, old(cache.entries), cache.entries, cache.trustDomain)
    {
      var ids := Collect(follower.fetch);
      var start := 0;
      var n := 0;
      fetched, failed := [], [];
      while start < |ids|
        invariant cache.Valid() && cache.agentsByID == old(cache.agentsByID) && start <= |ids| && n == |fetched|
        invariant follower.fetch == old(follower.fetch) - AllIDs(fetched) && AllIDs(fetched) == IDSet(ids[..start])
        invariant Answered(ds, pageSize, fetched)
        invariant RefreshedFrom(fetched, old(cache.entries), cache.entries, cache.trustDomain)
      {
        var end := if |ids| < start + pageSize then |ids| else start + pageSize;
        var page := ids[start..end];
        PageIsNew(ids, start, end);
        var answer := ds(n, page);
        if answer.None? {
          return false, fetched, page;
        }
        ghost var sofar := cache.entries;
        UpdatePage(page, answer.value);
        ghost var next := Fetched(page, answer.value);
        PageRefreshes(fetched, old(cache.entries), sofar, cache.entries, next, cache.trustDomain);
        AnsweredOneMore(ds, pageSize, fetched, next);
        fetched := fetched + [next];
        start, n := end, n + 1;
      }
      assert ids[..start] == ids;
      ok := true;
    }

    /** Fills a new cache from the pages of a listing. A page without a token ends the load, and its rows are not
        read. */
    method LoadCache(target: Cache, pages: seq<Option<Page>>) returns (ok: bool)
      requires target.Valid()
      requires forall i :: 0 <= i < |pages| && pages[i].Some? ==> Keyed(pages[i].value.rows)
      requires exists i :: 0 <= i < |pages| && (pages[i].None? || pages[i].value.token.None?)
      modifies target
      ensures target.Valid() && target.agentsByID == old(target.agentsByID)
      ensures ok ==> Some(target.entries) == LoadPages(old(target.entries), pages, target.trustDomain)
      ensures !ok <==> LoadPages(old(target.entries), pages, target.trustDomain).None?
    {
      var i := 0;
      while true
        invariant 0 <= i < |pages| && target.Valid() && target.agentsByID == old(target.agentsByID)
        invariant exists j :: i <= j < |pages| && (pages[j].None? || pages[j].value.token.None?)
        invariant LoadPages(target.entries, pages[i..], target.trustDomain) ==
                  LoadPages(old(target.entries), pages, target.trustDomain)
        decreases |pages| - i
      {
        if pages[i].None? { return false; }
        if pages[i].value.token.None? { return true; }
        var rows := pages[i].value.rows;
        if exists r | r in rows :: r.stored.Malformed? {
          MalformedFails(target.entries, rows, target.trustDomain);
          return false;
        }
        LoadPage(target, rows);
        assert pages[i..][1..] == pages[i + 1..];
        i := i + 1;
      }
    }

    method LoadPage(target: Cache, rows: seq<TableRow>)
      requires target.Valid() && Keyed(rows) && forall r :: r in rows ==> r.stored.WellFormed?
      modifies target
      ensures target.Valid() && target.agentsByID == old(target.agentsByID)
      ensures Some(target.entries) == LoadRows(old(target.entries), rows, target.trustDomain)
    {
      for i := 0 to |rows|
        invariant target.Valid() && target.agentsByID == old(target.agentsByID)
        invariant LoadRows(target.entries, rows[i..], target.trustDomain) ==
                  LoadRows(old(target.entries), rows, target.trustDomain)
      {
        assert rows[i] in rows && rows[i..][0] == rows[i] && rows[i..][1..] == rows[i + 1..];
        target.UpdateEntry(rows[i].stored.e);
      }
    }
  }

  /** The answers of the datastore to the page requests: by the number of the request, because other commits may happen
      in between, and the IDs it asks for. None is an error. */
  type Answers = (nat, seq<string>) -> Option<map<string, Stored>>

  /** A request that was answered. */
  datatype Fetched = Fetched(ids: seq<string>, rows: map<string, Stored>)

  predicate RowsKeyed(rows: map<string, Stored>) {
    forall k :: k in rows && rows[k].WellFormed? ==> rows[k].e.id == k
  }

  ghost predicate AnswersKeyed(ds: Answers) {
    forall n, ids :: ds(n, ids).Some? ==> RowsKeyed(ds(n, ids).value)
  }

  function IDSet(ids: seq<string>): set<string> {
    set id | id in ids
  }

  /** The IDs of all these requests. */
  function AllIDs(fetched: seq<Fetched>): set<string> {
    set i, id | 0 <= i < |fetched| && id in fetched[i].ids :: id
  }

  /** Each is the answer to the request of that number, which was neither empty nor too large. */
  ghost predicate Answered(ds: Answers, pageSize: nat, fetched: seq<Fetched>) {
    forall i :: 0 <= i < |fetched| ==>
        0 < |fetched[i].ids| <= pageSize && ds(i, fetched[i].ids) == Some(fetched[i].rows)
  }

  lemma AnsweredOneMore(ds: Answers, pageSize: nat, fetched: seq<Fetched>, next: Fetched)
    requires Answered(ds, pageSize, fetched)
    requires 0 < |next.ids| <= pageSize && ds(|fetched|, next.ids) == Some(next.rows)
    ensures Answered(ds, pageSize, fetched + [next]) && AllIDs(fetched + [next]) == AllIDs(fetched) + IDSet(next.ids)
  {
    var all := fetched + [next];
    assert forall i :: 0 <= i < |fetched| ==> all[i] == fetched[i];
    assert all[|fetched|] == next;
  }

  /** What refreshing the IDs of a page from its rows makes of the entries. */
  ghost predicate PageRefreshed(before: map<string, Entry>, after: map<string, Entry>, page: seq<string>,
                                rows: map<string, Stored>,
                                trustDomain: string) {
    && (forall id :: id !in page ==> Lookup(after, id) == Lookup(before, id))
    && (forall id :: id in page ==>
       Lookup(after, id) == Lookup(Refreshed(before, id, Lookup(rows, id), trustDomain), id))
  }

  lemma OneMoreRefreshed(before: map<string, Entry>, sofar: map<string, Entry>, page: seq<string>, id: string,
                         rows: map<string, Stored>,
                         trustDomain: string)
    requires PageRefreshed(before, sofar, page, rows, trustDomain) && id !in page
    ensures PageRefreshed(before, Refreshed(sofar, id, Lookup(rows, id), trustDomain), page + [id], rows, trustDomain)
  {
    assert Lookup(sofar, id) == Lookup(before, id);
    RefreshMatchesLoad(sofar, id, Lookup(rows, id), trustDomain);
  }

  /** `result` is the refresh of `id` from the answer to one of the requests, which held it. */
  ghost predicate FromPage(fetched: seq<Fetched>, before: map<string, Entry>, id: string, trustDomain: string,
                           result: Option<Entry>) {
    exists i :: 0 <= i < |fetched| && id in fetched[i].ids
                && result == Lookup(Refreshed(before, id, Lookup(fetched[i].rows, id), trustDomain), id)
  }

  /** The IDs that were requested have been refreshed, the others are untouched. */
  ghost predicate RefreshedFrom(fetched: seq<Fetched>, before: map<string, Entry>, after: map<string, Entry>,
                                trustDomain: string) {
    && (forall id :: id !in AllIDs(fetched) ==> Lookup(after, id) == Lookup(before, id))
    && (forall id :: id in AllIDs(fetched) ==> FromPage(fetched, before, id, trustDomain, Lookup(after, id)))
  }

  lemma PageRefreshes(fetched: seq<Fetched>, before: map<string, Entry>, sofar: map<string, Entry>,
                      after: map<string, Entry>,
                      next: Fetched, trustDomain: string)
    requires RefreshedFrom(fetched, before, sofar, trustDomain) &&
             PageRefreshed(sofar, after, next.ids, next.rows, trustDomain)
    requires IDSet(next.ids) !! AllIDs(fetched)
    ensures RefreshedFrom(fetched + [next], before, after, trustDomain)
  {
    var all := fetched + [next];
    forall id | id in AllIDs(all) ensures FromPage(all, before, id, trustDomain, Lookup(after, id)) {
      if id in next.ids {
        assert id in IDSet(next.ids);
        assert all[|fetched|] == next && Lookup(sofar, id) == Lookup(before, id);
      } else {
        StillFromPage(fetched, next, before, id, trustDomain, Lookup(sofar, id));
      }
    }
    assert all[|fetched|] == next && forall i :: 0 <= i < |fetched| ==> all[i] == fetched[i];
    forall id | id !in AllIDs(all) ensures Lookup(after, id) == Lookup(before, id) {
    }
  }

  lemma StillFromPage(fetched: seq<Fetched>, next: Fetched, before: map<string, Entry>, id: string, trustDomain: string,
                      result: Option<Entry>)
    requires id in AllIDs(fetched + [next]) && id !in next.ids
    requires id in AllIDs(fetched) ==> FromPage(fetched, before, id, trustDomain, result)
    ensures FromPage(fetched + [next], before, id, trustDomain, result)
  {
    var all := fetched + [next];
    var i :| 0 <= i < |all| && id in all[i].ids;
    assert all[i] == fetched[i];
    var j :| 0 <= j < |fetched| && id in fetched[j].ids
             && result == Lookup(Refreshed(before, id, Lookup(fetched[j].rows, id), trustDomain), id);
    assert all[j] == fetched[j];
  }

  /** The IDs of the next page have not been requested before. */
  lemma PageIsNew(ids: seq<string>, start: nat, end: nat)
    requires start <= end <= |ids| && NoRepeats(ids)
    ensures NoRepeats(ids[start..end]) && IDSet(ids[start..end]) !! IDSet(ids[..start])
    ensures IDSet(ids[..end]) == IDSet(ids[..start]) + IDSet(ids[start..end]) && IDSet(ids[start..end]) <= IDSet(ids)
  {
    assert ids[..end] == ids[..start] + ids[start..end];
    assert ids == ids[..end] + ids[end..];
  }

  datatype Node = Node(spiffeId: string, certNotAfter: int, selectors: seq<Selector>)

  function RecordOfNode(n: Node): AgentRecord {
    AgentRecord(n.spiffeId, n.certNotAfter, SelectorSet(n.selectors))
  }

  /** What is cached for a node: its ID, when its certificate ends, in seconds, and its selectors. */
  ghost predicate HoldsNode(agents: map<string, AgentRecord>, n: Node) {
    && n.spiffeId in agents && agents[n.spiffeId].id == n.spiffeId && agents[n.spiffeId].expiresAt == n.certNotAfter
    && forall s :: s in agents[n.spiffeId].selectors <==> s in n.selectors
  }

  lemma RecordHoldsNode(agents: map<string, AgentRecord>, n: Node)
    requires Lookup(agents, n.spiffeId) == Some(RecordOfNode(n))
    ensures HoldsNode(agents, n)
  {
  }

  /** The load skips a node whose certificate expired before `now`, which is in nanoseconds. */
  function LoadNodes(agents: map<string, AgentRecord>, nodes: seq<Node>, now: int): map<string, AgentRecord>
    decreases |nodes|
  {
    if nodes == [] then agents
    else LoadNodes(if nodes[0].certNotAfter * SECOND < now then agents
        else agents[nodes[0].spiffeId := RecordOfNode(nodes[0])], nodes[1..], now)
  }

  predicate DistinctNodes(nodes: seq<Node>) {
    forall i, j :: 0 <= i < j < |nodes| ==> nodes[i].spiffeId != nodes[j].spiffeId
  }

  /** Of distinct nodes, exactly those that have not expired are cached as listed; that includes all a prune at the same
      time would keep. */
  lemma {:induction false} LoadKeepsUnexpired(agents: map<string, AgentRecord>, nodes: seq<Node>, now: int, n: Node)
    requires n in nodes && DistinctNodes(nodes)
    ensures Lookup(LoadNodes(agents, nodes, now), n.spiffeId) ==
              if n.certNotAfter * SECOND < now then Lookup(agents, n.spiffeId) else Some(RecordOfNode(n))
    ensures n.certNotAfter * SECOND >= now ==> HoldsNode(LoadNodes(agents, nodes, now), n)
    ensures n.certNotAfter > now / SECOND ==> n.certNotAfter * SECOND >= now
    decreases |nodes|
  {
    var next := if nodes[0].certNotAfter * SECOND < now then agents
        else agents[nodes[0].spiffeId := RecordOfNode(nodes[0])];
    assert forall i :: 0 <= i < |nodes[1..]| ==> nodes[1..][i] == nodes[i + 1];
    if n == nodes[0] {
      LoadLeavesOthers(next, nodes[1..], now, n.spiffeId);
    } else {
      assert n in nodes[1..];
      LoadKeepsUnexpired(next, nodes[1..], now, n);
    }
  }

  lemma {:induction false} LoadLeavesOthers(agents: map<string, AgentRecord>, nodes: seq<Node>, now: int, k: string)
    requires forall i :: 0 <= i < |nodes| ==> nodes[i].spiffeId != k
    ensures Lookup(LoadNodes(agents, nodes, now), k) == Lookup(agents, k)
    decreases |nodes|
  {
    if nodes != [] {
      LoadLeavesOthers(if nodes[0].certNotAfter * SECOND < now then agents
          else agents[nodes[0].spiffeId := RecordOfNode(nodes[0])],
                       nodes[1..], now, k);
    }
  }

  function RefreshedNode(agents: map<string, AgentRecord>, id: string, nodes: map<string, Node>)
    : map<string, AgentRecord>
  {
    if id in nodes then agents[id := RecordOfNode(nodes[id])] else agents - {id}
  }

  /** What refreshing the nodes of a page makes of the agents. */
  ghost predicate NodesRefreshed(before: map<string, AgentRecord>, after: map<string, AgentRecord>, page: seq<string>,
                                 nodes: map<string, Node>) {
    && (forall id :: id !in page ==> Lookup(after, id) == Lookup(before, id))
    && (forall id :: id in page ==> Lookup(after, id) == if id in nodes then Some(RecordOfNode(nodes[id])) else None)
  }

  lemma OneMoreNode(before: map<string, AgentRecord>, sofar: map<string, AgentRecord>, page: seq<string>, id: string,
                    nodes: map<string, Node>)
    requires NodesRefreshed(before, sofar, page, nodes)
    ensures NodesRefreshed(before, RefreshedNode(sofar, id, nodes), page + [id], nodes)
  {
  }

  class AttestedNodes {
    const follower: Follower
    var cache: Cache

    constructor (follower: Follower, cache: Cache)
      ensures this.follower == follower && this.cache == cache
    {
      this.follower, this.cache := follower, cache;
    }

    /** Refreshes one page of queued nodes: present nodes are updated, expired or not, and absent ones removed. */
    method UpdatePage(page: seq<string>, nodes: map<string, Node>)
      requires cache.Valid() && forall k :: k in nodes ==> nodes[k].spiffeId == k
      modifies cache, follower`fetch
      ensures cache.Valid() && cache.entries == old(cache.entries)
      ensures follower.fetch == old(follower.fetch) - IDSet(page)
      ensures NodesRefreshed(old(cache.agentsByID), cache.agentsByID, page, nodes)
      ensures forall id :: id in page && id in nodes ==> HoldsNode(cache.agentsByID, nodes[id])
    {
      for i := 0 to |page|
        invariant cache.Valid() && cache.entries == old(cache.entries)
        invariant follower.fetch == old(follower.fetch) - IDSet(page[..i])
        invariant NodesRefreshed(old(cache.agentsByID), cache.agentsByID, page[..i], nodes)
      {
        assert page[..i + 1] == page[..i] + [page[i]];
        OneMoreNode(old(cache.agentsByID), cache.agentsByID, page[..i], page[i], nodes);
        UpdateNode(page[i], nodes);
      }
      assert page[..|page|] == page;
      forall id | id in page && id in nodes ensures HoldsNode(cache.agentsByID, nodes[id]) {
        RecordHoldsNode(cache.agentsByID, nodes[id]);
      }
    }

    method UpdateNode(id: string, nodes: map<string, Node>)
      requires cache.Valid() && forall k :: k in nodes ==> nodes[k].spiffeId == k
      modifies cache, follower`fetch
      ensures cache.Valid() && cache.entries == old(cache.entries) && follower.fetch == old(follower.fetch) - {id}
      ensures cache.agentsByID == RefreshedNode(old(cache.agentsByID), id, nodes)
    {
      if id !in nodes {
        cache.RemoveAgent(id);
      } else {
        cache.UpdateAgent(nodes[id].spiffeId, nodes[id].certNotAfter, nodes[id].selectors);
      }
      follower.fetch := follower.fetch - {id};
    }

    method LoadCache(target: Cache, listed: Option<seq<Node>>, now: int) returns (ok: bool)
      requires target.Valid()
      modifies target
      ensures target.Valid() && target.entries == old(target.entries) && (ok <==> listed.Some?)
      ensures ok ==> target.agentsByID == LoadNodes(old(target.agentsByID), listed.value, now)
      ensures ok && DistinctNodes(listed.value) ==>
                forall n :: n in listed.value && n.certNotAfter * SECOND >= now ==> HoldsNode(target.agentsByID, n)
    {
      if listed.None? { return false; }
      var nodes := listed.value;
      for i := 0 to |nodes|
        invariant target.Valid() && target.entries == old(target.entries)
        invariant LoadNodes(target.agentsByID, nodes[i..], now) == LoadNodes(old(target.agentsByID), nodes, now)
      {
        assert nodes[i..][0] == nodes[i] && nodes[i..][1..] == nodes[i + 1..];
        if nodes[i].certNotAfter * SECOND < now { continue; }
        target.UpdateAgent(nodes[i].spiffeId, nodes[i].certNotAfter, nodes[i].selectors);
      }
      forall n | DistinctNodes(nodes) && n in nodes && n.certNotAfter * SECOND >= now
        ensures HoldsNode(target.agentsByID, n)
      {
        LoadKeepsUnexpired(old(target.agentsByID), nodes, now, n);
      }
      return true;
    }
  }

  class AuthorizedEntryFetcher {
    const entries: RegistrationEntries
    const nodes: AttestedNodes
    const trustDomain: string
    var cache: Cache

    constructor (entries: RegistrationEntries, nodes: AttestedNodes, cache: Cache, trustDomain: string)
      ensures this.entries == entries && this.nodes == nodes && this.cache == cache && this.trustDomain == trustDomain
    {
      this.entries, this.nodes, this.cache, this.trustDomain := entries, nodes, cache, trustDomain;
    }

    /** The full reload: both loads succeed and every holder of the cache gets the new one, or nothing changes. */
    method ReloadCache(pages: seq<Option<Page>>, listed: Option<seq<Node>>, now: int) returns (ok: bool)
      requires forall i :: 0 <= i < |pages| && pages[i].Some? ==> Keyed(pages[i].value.rows)
      requires exists i :: 0 <= i < |pages| && (pages[i].None? || pages[i].value.token.None?)
      modifies this, entries, nodes, entries.follower`fetch, nodes.follower`fetch
      ensures ok <==> LoadPages(map[], pages, trustDomain).Some? && listed.Some?
      ensures !ok ==> cache == old(cache) && entries.cache == old(entries.cache) && nodes.cache == old(nodes.cache)
      ensures !ok ==> entries.follower.fetch == old(entries.follower.fetch)
      ensures !ok ==> nodes.follower.fetch == old(nodes.follower.fetch)
      ensures ok ==> fresh(cache) && cache == entries.cache == nodes.cache && cache.Valid()
      ensures ok ==> Some(cache.entries) == LoadPages(map[], pages, trustDomain)
      ensures ok ==> cache.agentsByID == LoadNodes(map[], listed.value, now)
      ensures ok ==> entries.follower.fetch == {} && nodes.follower.fetch == {}
    {
      var target := new Cache(trustDomain);
      ok := entries.LoadCache(target, pages);
      if !ok { return; }
      ok := nodes.LoadCache(target, listed, now);
      if !ok { return; }
      entries.cache, entries.follower.fetch := target, {};
      nodes.cache := target;
      nodes.follower.fetch := {};
      cache := target;
    }
  }

  /** A cached node outlives a prune exactly until its certificate ends. */
  method PruneHeldNode(cache: Cache, n: Node, now: int)
    requires cache.Valid() && HoldsNode(cache.agentsByID, n)
    modifies cache
    ensures cache.Valid() && (n.spiffeId in cache.agentsByID <==> n.certNotAfter > now)
    ensures n.certNotAfter > now ==> HoldsNode(cache.agentsByID, n)
  {
    var pruned := cache.PruneExpiredAgents(now);
  }
}
