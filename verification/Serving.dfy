/** From the datastore to an agent's answer: the fetcher's page updates are steps of the protocol, and once the protocol
    is at rest the cache serves every agent what the datastore says. */
module Serving {
  import opened Types
  import opened Collections
  import opened Records
  import opened Authorization
  import opened FetcherProtocol
  import opened Listings
  import opened Fetchers

  function Values<V>(m: map<string, Row<V>>): map<string, V> {
    map k | k in m :: m[k].value
  }

  /** What UpdatePage does to the cached entries is the protocol's Refresh step, provided the fetched rows are the
      store's and no cached entry has moved to another trust domain. */
  lemma PageIsRefreshStep(c: Config, w: World<Entry>, page: seq<string>, rows: map<string, Stored>, trustDomain: string,
                          after: map<string, Entry>)
    requires Enabled(c, w, Refresh(IDSet(page)))
    requires forall id :: id in page ==> Image(Lookup(rows, id), trustDomain) == Lookup(Values(w.store), id)
    requires forall id :: id in page && id in rows && rows[id].WellFormed? && !InDomain(rows[id].e, trustDomain) ==>
             id !in w.copy
    requires PageRefreshed(Values(w.copy), after, page, rows, trustDomain)
    ensures after == Values(Apply(c, w, Refresh(IDSet(page))).copy)
  {
    var next := Apply(c, w, Refresh(IDSet(page))).copy;
    forall k ensures Lookup(after, k) == Lookup(Values(next), k) {
      if k in page {
        RefreshMatchesLoad(Values(w.copy), k, Lookup(rows, k), trustDomain);
      }
    }
    SameLookups(after, Values(next));
  }

  /** So is what UpdatePage does to the cached nodes, without exception. */
  lemma NodePageIsRefreshStep(c: Config, w: World<AgentRecord>, page: seq<string>, nodes: map<string, Node>,
                              after: map<string, AgentRecord>)
    requires Enabled(c, w, Refresh(IDSet(page)))
    requires forall id :: id in page ==>
               Lookup(Values(w.store), id) == if id in nodes then Some(RecordOfNode(nodes[id])) else None
    requires NodesRefreshed(Values(w.copy), after, page, nodes)
    ensures after == Values(Apply(c, w, Refresh(IDSet(page))).copy)
  {
    SameLookups(after, Values(Apply(c, w, Refresh(IDSet(page))).copy));
  }

  /** Pruning the cached nodes is the protocol's Prune step, if the rows expire when their records do. */
  lemma PruneIsPruneStep(c: Config, w: World<AgentRecord>, after: map<string, AgentRecord>)
    requires Enabled(c, w, Prune) && forall k :: k in w.copy ==> w.copy[k].expiresAt == Some(w.copy[k].value.expiresAt)
    requires forall k :: k in after <==> k in w.copy && w.copy[k].value.expiresAt > w.now
    requires forall k :: k in after ==> after[k] == w.copy[k].value
    ensures after == Values(Apply(c, w, Prune).copy)
  {
  }

  /** The table holds the stored entries under their row IDs, and besides them only rows that a load does not cache. */
  ghost predicate StoredAs(table: seq<TableRow>, w: World<Entry>, trustDomain: string) {
    && Table(table) && w.rowIDs.Keys == w.store.Keys
    && (forall r :: r in table ==> RowStored(r, w, trustDomain))
    && (forall k :: k in w.store ==> exists r :: r in table && r.key == k)
  }

  ghost predicate RowStored(r: TableRow, w: World<Entry>, trustDomain: string) {
    var image := Image(Some(r.stored), trustDomain);
    if image.Some? then r.key in w.store && w.store[r.key] == Row(image.value, None) && r.key in w.rowIDs &&
        w.rowIDs[r.key] == r.id
    else r.key !in w.store
  }

  lemma PageLoads(w: World<Entry>, table: seq<TableRow>, pageSize: nat, page: Page, trustDomain: string)
    requires w.loading.Some? && StoredAs(table, w, trustDomain) && pageSize > 0 &&
             page == ListOnce(table, w.read, pageSize)
    requires page.token.Some? && LoadRows(Values(w.loading.value), page.rows, trustDomain).Some?
    ensures Values(w.loading.value + Listed(w, page.token.value + 1)) ==
            LoadRows(Values(w.loading.value), page.rows, trustDomain).value
  {
    PageExactly(table, w.read, pageSize, page);
    AllLoadAlike(w, table, page, trustDomain);
  }

  lemma PageEnds(w: World<Entry>, table: seq<TableRow>, pageSize: nat, page: Page, trustDomain: string)
    requires StoredAs(table, w, trustDomain) && pageSize > 0 && page == ListOnce(table, w.read, pageSize)
    ensures if page.token.Some? then w.read <= page.token.value else forall k :: k in w.rowIDs ==> w.rowIDs[k] < w.read
  {
    PageExactly(table, w.read, pageSize, page);
    if page.token.None? {
      NothingLeft(w, table, trustDomain);
    }
  }

  lemma LoadPageStep(c: Config, w: World<Entry>, upto: nat)
    requires w.loading.Some? && w.read < upto
    ensures Enabled(c, w, LoadPage(upto)) && Apply(c, w, LoadPage(upto)).loading ==
            Some(w.loading.value + Listed(w, upto))
  {
  }

  /** What a load makes of a page with a token is the protocol's LoadPage step. */
  lemma PageIsLoadStep(c: Config, w: World<Entry>, table: seq<TableRow>, pageSize: nat, page: Page, trustDomain: string)
    requires w.loading.Some? && StoredAs(table, w, trustDomain) && pageSize > 0 &&
             page == ListOnce(table, w.read, pageSize)
    requires page.token.Some?
    ensures Enabled(c, w, LoadPage(page.token.value + 1))
    ensures LoadRows(Values(w.loading.value), page.rows, trustDomain).Some? ==>
      Values(Apply(c, w, LoadPage(page.token.value + 1)).loading.value) ==
          LoadRows(Values(w.loading.value), page.rows, trustDomain).value
  {
    PageEnds(w, table, pageSize, page, trustDomain);
    LoadPageStep(c, w, page.token.value + 1);
    if LoadRows(Values(w.loading.value), page.rows, trustDomain).Some? {
      PageLoads(w, table, pageSize, page, trustDomain);
    }
  }

  /** A page without a token is when LoadDone may come. */
  lemma LastPageEndsLoad(c: Config, w: World<Entry>, table: seq<TableRow>, pageSize: nat, page: Page,
                         trustDomain: string)
    requires w.loading.Some? && StoredAs(table, w, trustDomain) && pageSize > 0 &&
             page == ListOnce(table, w.read, pageSize)
    requires page.token.None?
    ensures Enabled(c, w, LoadDone) && Apply(c, w, LoadDone).copy == w.loading.value
  {
    PageEnds(w, table, pageSize, page, trustDomain);
  }

  lemma NothingLeft(w: World<Entry>, table: seq<TableRow>, trustDomain: string)
    requires StoredAs(table, w, trustDomain) && forall r :: r in table ==> r.id < w.read
    ensures forall k :: k in w.rowIDs ==> w.rowIDs[k] < w.read
  {
    forall k | k in w.rowIDs ensures w.rowIDs[k] < w.read {
      var r :| r in table && r.key == k;
      assert RowStored(r, w, trustDomain);
    }
  }

  lemma AllLoadAlike(w: World<Entry>, table: seq<TableRow>, page: Page, trustDomain: string)
    requires w.loading.Some? && StoredAs(table, w, trustDomain) && page.token.Some? && DistinctKeys(page.rows)
    requires forall r :: r in page.rows <==> r in table && w.read <= r.id <= page.token.value
    requires LoadRows(Values(w.loading.value), page.rows, trustDomain).Some?
    ensures Values(w.loading.value + Listed(w, page.token.value + 1)) ==
            LoadRows(Values(w.loading.value), page.rows, trustDomain).value
  {
    var next := Values(w.loading.value + Listed(w, page.token.value + 1));
    var loaded := LoadRows(Values(w.loading.value), page.rows, trustDomain).value;
    forall k ensures Lookup(next, k) == Lookup(loaded, k) {
      LoadsAlike(w, table, page, trustDomain, k);
    }
    SameLookups(next, loaded);
  }

  lemma LoadsAlike(w: World<Entry>, table: seq<TableRow>, page: Page, trustDomain: string, k: string)
    requires w.loading.Some? && StoredAs(table, w, trustDomain) && page.token.Some? && DistinctKeys(page.rows)
    requires forall r :: r in page.rows <==> r in table && w.read <= r.id <= page.token.value
    requires LoadRows(Values(w.loading.value), page.rows, trustDomain).Some?
    ensures Lookup(Values(w.loading.value + Listed(w, page.token.value + 1)), k) ==
            Lookup(LoadRows(Values(w.loading.value), page.rows, trustDomain).value, k)
  {
    LoadRowsIsImage(Values(w.loading.value), page.rows, trustDomain, k);
    if i :| 0 <= i < |page.rows| && page.rows[i].key == k {
      OnPage(w, table, page, trustDomain, page.rows[i]);
    } else {
      OffPage(w, table, page, trustDomain, k);
    }
  }

  lemma OnPage(w: World<Entry>, table: seq<TableRow>, page: Page, trustDomain: string, r: TableRow)
    requires StoredAs(table, w, trustDomain) && r in table && page.token.Some? && w.read <= r.id <= page.token.value
    ensures var listed, image := Listed(w, page.token.value + 1), Image(Some(r.stored), trustDomain);
            if image.Some? then r.key in listed && listed[r.key].value == image.value else r.key !in listed
  {
    assert RowStored(r, w, trustDomain);
  }

  lemma OffPage(w: World<Entry>, table: seq<TableRow>, page: Page, trustDomain: string, k: string)
    requires StoredAs(table, w, trustDomain) && page.token.Some?
    requires forall r :: r in page.rows <==> r in table && w.read <= r.id <= page.token.value
    requires forall i :: 0 <= i < |page.rows| ==> page.rows[i].key != k
    ensures k !in Listed(w, page.token.value + 1)
  {
    if k in w.store {
      var r :| r in table && r.key == k;
      assert RowStored(r, w, trustDomain) && r !in page.rows;
    }
  }

  /** From the request for one page to the request for the next: the page is loaded, and then there may be commits. */
  ghost predicate LoadsPage(c: Config, w: World<Entry>, page: Page, gap: seq<Step<Entry>>, w': World<Entry>) {
    && page.token.Some? && Enabled(c, w, LoadPage(page.token.value + 1))
    && Run(c, Apply(c, w, LoadPage(page.token.value + 1)), gap, w') && forall s :: s in gap ==> s.Commit? || s.Tick?
  }

  lemma {:induction false} GapKeepsLoading(c: Config, w: World<Entry>, gap: seq<Step<Entry>>, w': World<Entry>)
    requires Run(c, w, gap, w') && forall s :: s in gap ==> s.Commit? || s.Tick?
    ensures w'.loading == w.loading && w'.read == w.read
    decreases |gap|
  {
    if gap != [] {
      assert gap[0] in gap && forall s :: s in gap[1..] ==> s in gap;
      GapKeepsLoading(c, Apply(c, w, gap[0]), gap[1..], w');
    }
  }

  /** Commits after the last page do not keep the load from ending, nor change what it has read. */
  lemma {:induction false} GapLetsLoadEnd(c: Config, w: World<Entry>, gap: seq<Step<Entry>>, w': World<Entry>)
    requires Enabled(c, w, LoadDone) && Run(c, w, gap, w') && forall s :: s in gap ==> s.Commit? || s.Tick?
    ensures Enabled(c, w', LoadDone) && Apply(c, w', LoadDone).copy == w.loading.value
    decreases |gap|
  {
    if gap != [] {
      assert gap[0] in gap && forall s :: s in gap[1..] ==> s in gap;
      GapLetsLoadEnd(c, Apply(c, w, gap[0]), gap[1..], w');
    }
  }

  function Somes(pages: seq<Page>): (r: seq<Option<Page>>)
    ensures |r| == |pages| && forall i :: 0 <= i < |pages| ==> r[i] == Some(pages[i])
  {
    if pages == [] then [] else [Some(pages[0])] + Somes(pages[1..])
  }

  /** A load in the protocol: worlds[i] is the world when page i is requested, which lists the table it has then. */
  ghost predicate LoadRun(c: Config, worlds: seq<World<Entry>>, tables: seq<seq<TableRow>>, gaps: seq<seq<Step<Entry>>>,
                          pageSize: nat,
                          pages: seq<Page>, trustDomain: string) {
    && PagesOf(tables, pageSize, pages) && |worlds| == |pages| && |gaps| == |pages|
    && (forall i :: 0 <= i < |pages| ==> worlds[i].loading.Some? && StoredAs(tables[i], worlds[i], trustDomain))
    && (forall i :: 0 <= i < |pages| - 1 ==> LoadsPage(c, worlds[i], pages[i], gaps[i], worlds[i + 1]))
    && (|pages| > 0 ==> worlds[0].loading == Some(map[]) && worlds[0].read == 0)
  }

  lemma {:induction false} ReadsFrom(c: Config, worlds: seq<World<Entry>>, tables: seq<seq<TableRow>>,
                                     gaps: seq<seq<Step<Entry>>>,
                                     pageSize: nat, pages: seq<Page>, trustDomain: string, i: nat)
    requires LoadRun(c, worlds, tables, gaps, pageSize, pages, trustDomain) && i < |pages|
    ensures worlds[i].read == ReadAt(pages, i)
  {
    if i > 0 {
      assert LoadsPage(c, worlds[i - 1], pages[i - 1], gaps[i - 1], worlds[i]);
      GapKeepsLoading(c, Apply(c, worlds[i - 1], LoadPage(pages[i - 1].token.value + 1)), gaps[i - 1], worlds[i]);
    }
  }

  /** Each page takes what was loaded before it to what is loaded after it. */
  ghost predicate LoadsInTurn(loads: seq<map<string, Entry>>, pages: seq<Page>, trustDomain: string) {
    && |loads| == |pages| && (loads != [] ==> loads[0] == map[])
    && (forall i :: 0 <= i < |pages| - 1 ==> LoadsTo(loads[i], pages[i], loads[i + 1], trustDomain))
  }

  ghost predicate LoadsTo(entries: map<string, Entry>, page: Page, next: map<string, Entry>, trustDomain: string) {
    var loaded := LoadRows(entries, page.rows, trustDomain);
    page.token.Some? && (loaded.Some? ==> loaded.value == next)
  }

  /** What has been loaded when page i is requested is what loading the pages before it gives. */
  lemma {:induction false} LoadedSoFar(loads: seq<map<string, Entry>>, pages: seq<Page>, trustDomain: string, i: nat)
    requires LoadsInTurn(loads, pages, trustDomain) && i < |pages|
    requires LoadPages(map[], Somes(pages), trustDomain).Some?
    ensures LoadPages(loads[i], Somes(pages)[i..], trustDomain) == LoadPages(map[], Somes(pages), trustDomain)
  {
    if i == 0 {
      assert Somes(pages)[0..] == Somes(pages);
    } else {
      LoadedSoFar(loads, pages, trustDomain, i - 1);
      assert LoadsTo(loads[i - 1], pages[i - 1], loads[i], trustDomain);
      NextLoads(loads[i - 1], loads[i], pages, i, trustDomain);
    }
  }

  lemma NextLoads(entries: map<string, Entry>, next: map<string, Entry>, pages: seq<Page>, i: nat, trustDomain: string)
    requires 0 < i < |pages| && LoadPages(entries, Somes(pages)[i - 1..], trustDomain).Some? && pages[i - 1].token.Some?
    requires LoadRows(entries, pages[i - 1].rows, trustDomain).Some? ==>
             LoadRows(entries, pages[i - 1].rows, trustDomain).value == next
    ensures LoadPages(next, Somes(pages)[i..], trustDomain) == LoadPages(entries, Somes(pages)[i - 1..], trustDomain)
  {
    var left := Somes(pages)[i - 1..];
    assert left[0] == Some(pages[i - 1]) && left[1..] == Somes(pages)[i..];
    LoadsNext(entries, next, left, pages[i - 1], trustDomain);
  }

  lemma LegLoads(c: Config, worlds: seq<World<Entry>>, tables: seq<seq<TableRow>>, gaps: seq<seq<Step<Entry>>>,
                 pageSize: nat,
                 pages: seq<Page>, trustDomain: string, i: nat)
    requires LoadRun(c, worlds, tables, gaps, pageSize, pages, trustDomain) && i + 1 < |pages| && pageSize > 0
    ensures pages[i].token.Some?
    ensures LoadRows(Values(worlds[i].loading.value), pages[i].rows, trustDomain).Some? ==>
              LoadRows(Values(worlds[i].loading.value), pages[i].rows, trustDomain).value ==
                  Values(worlds[i + 1].loading.value)
  {
    ReadsFrom(c, worlds, tables, gaps, pageSize, pages, trustDomain, i);
    assert ListsPage(tables[i], pageSize, pages, i) && LoadsPage(c, worlds[i], pages[i], gaps[i], worlds[i + 1]);
    OnePageLoaded(c, worlds[i], tables[i], gaps[i], worlds[i + 1], pageSize, pages[i], trustDomain);
  }

  lemma LoadsNext(entries: map<string, Entry>, next: map<string, Entry>, pages: seq<Option<Page>>, page: Page,
                  trustDomain: string)
    requires LoadPages(entries, pages, trustDomain).Some? && pages != [] && pages[0] == Some(page) && page.token.Some?
    requires LoadRows(entries, page.rows, trustDomain).Some? ==> LoadRows(entries, page.rows, trustDomain).value == next
    ensures LoadPages(entries, pages, trustDomain) == LoadPages(next, pages[1..], trustDomain)
  {
  }

  lemma OnePageLoaded(c: Config, w: World<Entry>, table: seq<TableRow>, gap: seq<Step<Entry>>, w': World<Entry>,
                      pageSize: nat, page: Page,
                      trustDomain: string)
    requires w.loading.Some? && StoredAs(table, w, trustDomain) && pageSize > 0 &&
             page == ListOnce(table, w.read, pageSize)
    requires LoadsPage(c, w, page, gap, w')
    ensures w'.loading.Some?
    ensures LoadRows(Values(w.loading.value), page.rows, trustDomain).Some? ==>
              LoadRows(Values(w.loading.value), page.rows, trustDomain).value == Values(w'.loading.value)
  {
    PageIsLoadStep(c, w, table, pageSize, page, trustDomain);
    GapKeepsLoading(c, Apply(c, w, LoadPage(page.token.value + 1)), gap, w');
  }

  /** A reload that succeeds is a load in the protocol: after the page that ends it, and whatever is committed until the
      new cache is swapped in, LoadDone may come, and the entries it leaves are those of the reloaded cache. A reload
      empties the queue; the first load, at start-up, does not. */
  lemma ReloadIsLoadRun(c: Config, worlds: seq<World<Entry>>, tables: seq<seq<TableRow>>, gaps: seq<seq<Step<Entry>>>,
                        pageSize: nat, pages: seq<Page>, trustDomain: string, end: World<Entry>)
    requires LoadRun(c, worlds, tables, gaps, pageSize, pages, trustDomain) && pageSize > 0 && Finished(pages)
    requires LoadPages(map[], Somes(pages), trustDomain).Some?
    requires Run(c, worlds[|pages| - 1], gaps[|pages| - 1], end) &&
             forall s :: s in gaps[|pages| - 1] ==> s.Commit? || s.Tick?
    ensures Enabled(c, end, LoadDone)
    ensures Apply(c, end, LoadDone).feed.fetch == if end.built then {} else end.feed.fetch
    ensures Values(Apply(c, end, LoadDone).copy) == LoadPages(map[], Somes(pages), trustDomain).value
  {
    var n := |pages| - 1;
    var loads := LoadedIn(worlds);
    forall i | 0 <= i < n ensures LoadsTo(loads[i], pages[i], loads[i + 1], trustDomain) {
      LegLoads(c, worlds, tables, gaps, pageSize, pages, trustDomain, i);
    }
    LoadedSoFar(loads, pages, trustDomain, n);
    LastLoaded(loads[n], pages, trustDomain);
    LoadEnds(c, worlds, tables, gaps, pageSize, pages, trustDomain);
    GapLetsLoadEnd(c, worlds[n], gaps[n], end);
  }

  ghost function LoadedIn(worlds: seq<World<Entry>>): (loads: seq<map<string, Entry>>)
    requires forall i :: 0 <= i < |worlds| ==> worlds[i].loading.Some?
    ensures |loads| == |worlds| && forall i :: 0 <= i < |worlds| ==> loads[i] == Values(worlds[i].loading.value)
  {
    if worlds == [] then [] else [Values(worlds[0].loading.value)] + LoadedIn(worlds[1..])
  }

  lemma LastLoaded(entries: map<string, Entry>, pages: seq<Page>, trustDomain: string)
    requires Finished(pages)
    ensures LoadPages(entries, Somes(pages)[|pages| - 1..], trustDomain) == Some(entries)
  {
  }

  lemma LoadEnds(c: Config, worlds: seq<World<Entry>>, tables: seq<seq<TableRow>>, gaps: seq<seq<Step<Entry>>>,
                 pageSize: nat, pages: seq<Page>, trustDomain: string)
    requires LoadRun(c, worlds, tables, gaps, pageSize, pages, trustDomain) && pageSize > 0 && Finished(pages)
    ensures var last := worlds[|pages| - 1];
            Enabled(c, last, LoadDone) && Apply(c, last, LoadDone).copy == last.loading.value
  {
    var n := |pages| - 1;
    ReadsFrom(c, worlds, tables, gaps, pageSize, pages, trustDomain, n);
    assert ListsPage(tables[n], pageSize, pages, n);
    LastPageEndsLoad(c, worlds[n], tables[n], pageSize, pages[n], trustDomain);
  }

  /** The fetcher has nothing left to do. */
  ghost predicate AtRest<V>(w: World<V>) {
    w.built && w.feed.fetch == {} && forall e :: !Witness(w, e) && !Lost(w, e)
  }

  /** When both fetchers are at rest, every agent whose own record has not expired is authorized from the cache for
      exactly the entries it is authorized for in the datastore. */
  lemma AtRestServesDatastore(c: Config, e0: World<Entry>, esteps: seq<Step<Entry>>, e: World<Entry>,
                              n0: World<AgentRecord>, nsteps: seq<Step<AgentRecord>>, n: World<AgentRecord>,
                              agentID: SpiffeID)
    requires Init(e0) && Run(c, e0, esteps, e) && AtRest(e)
    requires Init(n0) && Run(c, n0, nsteps, n) && AtRest(n)
    requires forall k :: (k in e.copy ==> e.copy[k].expiresAt.None?) && (k in e.store ==> e.store[k].expiresAt.None?)
    requires var k := agentID.ToString();
             (k in n.copy ==> !Expired(n.copy[k], n.now)) && (k in n.store ==> !Expired(n.store[k], n.now))
    ensures var cached, stored := Values(e.copy), Values(e.store);
            var roots := Roots(stored, Values(n.store), agentID);
            && cached == stored && Roots(cached, Values(n.copy), agentID) == roots
            && Authorized(cached, Roots(cached, Values(n.copy), agentID)) == Authorized(stored, roots)
  {
    QuietIsCurrent(c, e0, esteps, e);
    QuietIsCurrent(c, n0, nsteps, n);
    var k := agentID.ToString();
    assert Live(n.copy, k, n.now) == Live(n.store, k, n.now);
    assert AgentSelectors(Values(n.copy), agentID) == AgentSelectors(Values(n.store), agentID);
  }
}
