/** The two crawls of the authorized-entries cache, and the alias lookup that gives them their starting points. */
module Crawl {
  import opened Types
  import opened Collections
  import opened Records
  import opened OrderedTree
  import opened Authorization
  import opened Indexes

  /** What a crawl has established when it has added `added` to the paths it has seen: the new paths are reachable and
      their children's paths have been seen too. */
  ghost predicate Explored(entries: map<string, Entry>, roots: set<string>, added: set<string>, seen: set<string>) {
    && (forall p :: p in added ==> Reachable(entries, roots, p))
    && (forall id :: Workload(entries, id) && entries[id].parentId.path in added ==> entries[id].spiffeId.path in seen)
  }

  /** Everything that can matter to a crawl from `start`: a finite set of paths closed under edges. */
  ghost function AllPaths(entries: map<string, Entry>, start: string): set<string> {
    {start} + set id | id in entries :: entries[id].spiffeId.path
  }

  /** A finished crawl from `p`: it saw `p`, explored every path it newly saw, and appended their children, each
      once. */
  ghost predicate Crawled(entries: map<string, Entry>, roots: set<string>, p: string, seen: set<string>,
                          seen': set<string>,
                          records: seq<Entry>, records': seq<Entry>) {
    && seen <= seen' && p in seen' && records <= records'
    && Explored(entries, roots, seen' - seen, seen')
    && Lists(records'[|records|..], ChildrenOf(Workloads(entries), seen' - seen), Workloads(entries))
  }

  /** A crawl from `p` that has yet to visit the children `todo` of `p`. */
  ghost predicate Crawling(entries: map<string, Entry>, roots: set<string>, p: string, seen: set<string>,
                           seen': set<string>,
                           todo: set<string>, records: seq<Entry>, records': seq<Entry>) {
    var children := ChildrenOf(Workloads(entries), {p});
    && p !in seen && seen + {p} <= seen' && records <= records' && todo <= children
    && Explored(entries, roots, seen' - seen - {p}, seen')
    && (forall id :: id in children - todo ==> entries[id].spiffeId.path in seen')
    && Lists(records'[|records|..], (children - todo) + ChildrenOf(Workloads(entries), seen' - seen - {p}),
       Workloads(entries))
  }

  lemma CrawlStep(entries: map<string, Entry>, roots: set<string>, p: string, seen: set<string>, seen': set<string>,
                  seen'': set<string>,
                  todo: set<string>, id: string, records: seq<Entry>, records': seq<Entry>, records'': seq<Entry>)
    requires id in todo && id in entries && entries[id].id == id
    requires Crawling(entries, roots, p, seen, seen', todo, records, records')
    requires Crawled(entries, roots, entries[id].spiffeId.path, seen', seen'', records' + [entries[id]], records'')
    ensures Crawling(entries, roots, p, seen, seen'', todo - {id}, records, records'')
  {
    var byID := Workloads(entries);
    var children := ChildrenOf(byID, {p});
    var A, B := (children - todo) + ChildrenOf(byID, seen' - seen - {p}), ChildrenOf(byID, seen'' - seen');
    ThreeLists(records, records', records'', entries[id], A, B, byID);
    assert A + {id} + B == (children - (todo - {id})) + ChildrenOf(byID, seen'' - seen - {p});
  }

  /** What was appended, then one entry, then what its own crawl appended. */
  lemma ThreeLists(records: seq<Entry>, records': seq<Entry>, records'': seq<Entry>, e: Entry, A: set<string>,
                   B: set<string>, byID: map<string, Entry>)
    requires records <= records' && records' + [e] <= records'' && e.id in byID && byID[e.id] == e
    requires Lists(records'[|records|..], A, byID) && Lists(records''[|records'| + 1..], B, byID)
    requires e.id !in A && e.id !in B && A !! B
    ensures Lists(records''[|records|..], A + {e.id} + B, byID)
  {
    var a, b := records'[|records|..], records''[|records'| + 1..];
    ListsConcat(a, A, [e], {e.id}, byID);
    ListsConcat(a + [e], A + {e.id}, b, B, byID);
    assert records''[|records|..] == a + [e] + b;
  }

  lemma CrawlDone(entries: map<string, Entry>, roots: set<string>, p: string, seen: set<string>, seen': set<string>,
                  records: seq<Entry>, records': seq<Entry>)
    requires Crawling(entries, roots, p, seen, seen', {}, records, records') && Reachable(entries, roots, p)
    ensures Crawled(entries, roots, p, seen, seen', records, records')
  {
    var byID := Workloads(entries);
    assert ChildrenOf(byID, seen' - seen) == (ChildrenOf(byID, {p}) - {}) + ChildrenOf(byID, seen' - seen - {p});
  }

  /** What the crawl relies on: the parent index is that of `entries`, and edges do not leave `universe`. */
  ghost predicate Crawlable(byParent: map<string, map<string, Entry>>, entries: map<string, Entry>,
                            universe: set<string>) {
    && ParentIndex(byParent, Workloads(entries))
    && (forall id :: id in entries ==> entries[id].id == id)
    && ClosedUnderEdges(entries, universe)
  }

  function Bucket(byParent: map<string, map<string, Entry>>, p: string): map<string, Entry> {
    if p in byParent then byParent[p] else map[]
  }

  lemma CrawlBegins(byParent: map<string, map<string, Entry>>, entries: map<string, Entry>, roots: set<string>,
                    universe: set<string>,
                    p: string, seen: set<string>, records: seq<Entry>)
    requires Crawlable(byParent, entries, universe) && p !in seen
    ensures Crawling(entries, roots, p, seen, seen + {p}, Bucket(byParent, p).Keys, records, records)
  {
    var byID := Workloads(entries);
    assert forall id :: id in ChildrenOf(byID, {p}) <==> InBucket(byParent, p, id);
    assert Bucket(byParent, p).Keys == ChildrenOf(byID, {p});
  }

  lemma Child(byParent: map<string, map<string, Entry>>, entries: map<string, Entry>, roots: set<string>,
              universe: set<string>,
              p: string, id: string)
    requires Crawlable(byParent, entries, universe) && p in universe && Reachable(entries, roots, p)
    requires id in Bucket(byParent, p)
    ensures Workload(entries, id) && entries[id].id == id && Bucket(byParent, p)[id] == entries[id]
    ensures id in Authorized(entries, roots)
    ensures entries[id].spiffeId.path in universe && Reachable(entries, roots, entries[id].spiffeId.path)
  {
    assert InBucket(byParent, p, id);
    ReachableStep(entries, roots, id);
  }

  /** Depth-first from `parentID`, never entering a path twice: it ends because each call that goes on takes one more
      path out of the finite set that edges can lead to. */
  method AppendDescendents(byParent: map<string, map<string, Entry>>, records: seq<Entry>, parentID: string,
                           parentSeen: set<string>,
                           ghost entries: map<string, Entry>, ghost roots: set<string>, ghost universe: set<string>)
    returns (records': seq<Entry>, parentSeen': set<string>)
    requires Crawlable(byParent, entries, universe) && parentID in universe && Reachable(entries, roots, parentID)
    ensures Crawled(entries, roots, parentID, parentSeen, parentSeen', records, records')
    decreases universe - parentSeen
  {
    records', parentSeen' := records, parentSeen;
    if parentID in parentSeen {
      return;
    }
    parentSeen' := parentSeen' + {parentID};
    var bucket := Bucket(byParent, parentID);
    CrawlBegins(byParent, entries, roots, universe, parentID, parentSeen, records);
    var todo := bucket.Keys;
    while todo != {}
      invariant todo <= bucket.Keys && parentSeen + {parentID} <= parentSeen'
      invariant Crawling(entries, roots, parentID, parentSeen, parentSeen', todo, records, records')
    {
      var id :| id in todo;
      Child(byParent, entries, roots, universe, parentID, id);
      ghost var sofar, known := records', parentSeen';
      records', parentSeen' :=
        AppendDescendents(byParent, records' + [bucket[id]], bucket[id].spiffeId.path, parentSeen', entries, roots,
            universe);
      CrawlStep(entries, roots, parentID, parentSeen, known, parentSeen', todo, id, records, sofar, records');
      todo := todo - {id};
    }
    CrawlDone(entries, roots, parentID, parentSeen, parentSeen', records, records');
  }

  /** Every found entry was asked for and is authorized. */
  ghost predicate Sound(entries: map<string, Entry>, roots: set<string>, requested: set<string>,
                        found: map<string, Entry>) {
    forall id :: id in found ==>
      id in requested && id in Authorized(entries, roots) && found[id] == entries[id]
  }

  /** The early exit: as many entries found as asked for. */
  predicate Full(found: map<string, Entry>, requested: set<string>) {
    |found| == |requested|
  }

  function Keep(found: map<string, Entry>, requested: set<string>, id: string, e: Entry): map<string, Entry> {
    if id in requested then found[id := e] else found
  }

  lemma KeepIsSound(entries: map<string, Entry>, roots: set<string>, requested: set<string>, found: map<string, Entry>,
                    id: string)
    requires Sound(entries, roots, requested, found) && id in Authorized(entries, roots)
    ensures Sound(entries, roots, requested, Keep(found, requested, id, entries[id]))
    ensures found.Keys <= Keep(found, requested, id, entries[id]).Keys
  {
  }

  /** A finished search from `p`: either it stopped early, or it explored what it newly saw and found all that was asked
      for among the children. */
  ghost predicate Searched(entries: map<string, Entry>, roots: set<string>, requested: set<string>, p: string,
                           seen: set<string>, seen': set<string>, found: map<string, Entry>,
                           found': map<string, Entry>) {
    && seen <= seen' && found.Keys <= found'.Keys && Sound(entries, roots, requested, found')
    && (Full(found', requested)
        || (&& p in seen' && Explored(entries, roots, seen' - seen, seen')
            && ChildrenOf(Workloads(entries), seen' - seen) * requested <= found'.Keys))
  }

  ghost predicate Searching(entries: map<string, Entry>, roots: set<string>, requested: set<string>, p: string,
                            seen: set<string>, seen': set<string>, todo: set<string>, found: map<string, Entry>,
                            found': map<string, Entry>) {
    var children := ChildrenOf(Workloads(entries), {p});
    && seen + {p} <= seen' && found.Keys <= found'.Keys && Sound(entries, roots, requested, found')
    && (Full(found', requested)
        || (&& Explored(entries, roots, seen' - seen - {p}, seen') && todo <= children
            && (forall id :: id in children - todo ==> entries[id].spiffeId.path in seen')
            && (children - todo + ChildrenOf(Workloads(entries), seen' - seen - {p})) * requested <= found'.Keys))
  }

  lemma SearchStep(entries: map<string, Entry>, roots: set<string>, requested: set<string>, p: string,
                   seen: set<string>, seen': set<string>, seen'': set<string>, todo: set<string>, id: string,
                   found: map<string, Entry>, found': map<string, Entry>, found1: map<string, Entry>,
                   found'': map<string, Entry>)
    requires id in todo && id in Authorized(entries, roots)
    requires Searching(entries, roots, requested, p, seen, seen', todo, found, found')
    requires found1 == Keep(found', requested, id, entries[id])
    requires Searched(entries, roots, requested, entries[id].spiffeId.path, seen', seen'', found1, found'')
    ensures Searching(entries, roots, requested, p, seen, seen'', todo - {id}, found, found'')
  {
    if Full(found', requested) {
      FullIsAll(entries, roots, requested, found');
      assert found''.Keys == requested;
    }
    if !Full(found'', requested) {
      var byID := Workloads(entries);
      assert ChildrenOf(byID, seen'' - seen - {p}) ==
          ChildrenOf(byID, seen' - seen - {p}) + ChildrenOf(byID, seen'' - seen');
    }
  }

  /** Equal sizes mean equal sets, because only requested entries are ever found. */
  lemma FullIsAll(entries: map<string, Entry>, roots: set<string>, requested: set<string>, found: map<string, Entry>)
    requires Sound(entries, roots, requested, found) && Full(found, requested)
    ensures found.Keys == requested
  {
    SubsetIsSmaller(found.Keys, requested);
  }

  /** The same walk as AppendDescendents, keeping only requested entries and stopping once as many are found as asked
      for. */
  method AddDescendants(byParent: map<string, map<string, Entry>>, found: map<string, Entry>, parentID: string,
                        requested: set<string>, parentSeen: set<string>,
                        ghost entries: map<string, Entry>, ghost roots: set<string>, ghost universe: set<string>)
    returns (found': map<string, Entry>, parentSeen': set<string>)
    requires Crawlable(byParent, entries, universe) && parentID in universe && Reachable(entries, roots, parentID)
    requires Sound(entries, roots, requested, found)
    ensures Searched(entries, roots, requested, parentID, parentSeen, parentSeen', found, found')
    decreases universe - parentSeen
  {
    found', parentSeen' := found, parentSeen;
    if Full(found, requested) {
      return;
    }
    if parentID in parentSeen {
      return;
    }
    parentSeen' := parentSeen' + {parentID};
    var bucket := Bucket(byParent, parentID);
    SearchBegins(byParent, entries, roots, universe, requested, parentID, parentSeen, found);
    var todo := bucket.Keys;
    while todo != {}
      invariant todo <= bucket.Keys && parentSeen + {parentID} <= parentSeen'
      invariant Searching(entries, roots, requested, parentID, parentSeen, parentSeen', todo, found, found')
    {
      var id :| id in todo;
      Child(byParent, entries, roots, universe, parentID, id);
      ghost var sofar, known := found', parentSeen';
      found' := Keep(found', requested, id, bucket[id]);
      KeepIsSound(entries, roots, requested, sofar, id);
      if Full(found', requested) {
        return;
      }
      ghost var here := found';
      found', parentSeen' :=
        AddDescendants(byParent, found', bucket[id].spiffeId.path, requested, parentSeen', entries, roots, universe);
      SearchStep(entries, roots, requested, parentID, parentSeen, known, parentSeen', todo, id, found, sofar, here,
          found');
      todo := todo - {id};
    }
    SearchDone(entries, roots, requested, parentID, parentSeen, parentSeen', found, found');
  }

  lemma SearchBegins(byParent: map<string, map<string, Entry>>, entries: map<string, Entry>, roots: set<string>,
                     universe: set<string>,
                     requested: set<string>, p: string, seen: set<string>, found: map<string, Entry>)
    requires Crawlable(byParent, entries, universe) && p !in seen && Sound(entries, roots, requested, found)
    ensures Searching(entries, roots, requested, p, seen, seen + {p}, Bucket(byParent, p).Keys, found, found)
  {
    var byID := Workloads(entries);
    assert forall id :: id in ChildrenOf(byID, {p}) <==> InBucket(byParent, p, id);
    assert Bucket(byParent, p).Keys == ChildrenOf(byID, {p});
  }

  lemma SearchDone(entries: map<string, Entry>, roots: set<string>, requested: set<string>, p: string,
                   seen: set<string>, seen': set<string>, found: map<string, Entry>, found': map<string, Entry>)
    requires Searching(entries, roots, requested, p, seen, seen', {}, found, found') && Reachable(entries, roots, p) &&
             p !in seen
    ensures Searched(entries, roots, requested, p, seen, seen', found, found')
  {
    var byID := Workloads(entries);
    assert ChildrenOf(byID, seen' - seen) == (ChildrenOf(byID, {p}) - {}) + ChildrenOf(byID, seen' - seen - {p});
  }

  predicate HasAlias(aliases: seq<AliasRecord>, id: string) {
    exists i :: 0 <= i < |aliases| && aliases[i].entryID == id
  }

  /** `aliases` holds each alias in `seen` that matches the selectors, once, and no other. */
  ghost predicate AliasesAmong(entries: map<string, Entry>, selectors: set<Selector>, seen: set<string>,
                               aliases: seq<AliasRecord>) {
    && (forall i, j :: 0 <= i < j < |aliases| ==> aliases[i].entryID != aliases[j].entryID)
    && (forall i :: 0 <= i < |aliases| ==> RecordOf(entries, aliases[i]))
    && (forall id :: HasAlias(aliases, id) <==> id in seen && AliasMatches(entries, id, selectors))
  }

  /** One record of the scan: an entry already evaluated is skipped, any other is evaluated by the subset test. */
  method VisitRecord(record: AliasRecord, selectors: set<Selector>, aliases: seq<AliasRecord>, seen: set<string>,
                     ghost entries: map<string, Entry>)
    returns (aliases': seq<AliasRecord>, seen': set<string>)
    requires RecordOf(entries, record) && AliasesAmong(entries, selectors, seen, aliases)
    ensures AliasesAmong(entries, selectors, seen', aliases') && seen' == seen + {record.entryID}
  {
    aliases', seen' := aliases, seen;
    if record.entryID in seen { return; }
    seen' := seen + {record.entryID};
    var subset := IsSubset(record.allSelectors, selectors);
    if subset {
      aliases' := aliases + [record];
      assert !HasAlias(aliases, record.entryID);
      forall id ensures HasAlias(aliases', id) <==> HasAlias(aliases, id) || id == record.entryID {
        if HasAlias(aliases, id) {
          var i :| 0 <= i < |aliases| && aliases[i].entryID == id;
          assert aliases'[i].entryID == id;
        }
        assert aliases'[|aliases|] == record;
      }
    }
  }

  /** The range scan of one selector visits exactly the aliases that have it. */
  method ScanSelector(t: seq<AliasRecord>, s: Selector, selectors: set<Selector>, aliases: seq<AliasRecord>,
                      seen: set<string>,
                      ghost entries: map<string, Entry>)
    returns (aliases': seq<AliasRecord>, seen': set<string>)
    requires AliasTree(AliasRecordBySelector, t, entries) && AliasesAmong(entries, selectors, seen, aliases)
    ensures AliasesAmong(entries, selectors, seen', aliases') && seen <= seen'
    ensures forall r :: r in t && r.selector == s ==> r.entryID in seen'
  {
    aliases', seen' := aliases, seen;
    var lo := LowerBound(AliasRecordBySelector, t, SelectorPivot(s));
    var k := lo;
    while k < |t| && t[k].selector == s
      invariant lo <= k <= |t| && AliasesAmong(entries, selectors, seen', aliases') && seen <= seen'
      invariant forall j :: lo <= j < k ==> t[j].entryID in seen'
    {
      assert t[k] in t;
      aliases', seen' := VisitRecord(t[k], selectors, aliases', seen', entries);
      k := k + 1;
    }
    forall r | r in t && r.selector == s ensures r.entryID in seen' {
      var j: nat :| j < |t| && t[j] == r;
      SelectorRange(t, s, lo, k, j);
    }
  }

  /** An alias is returned, once, if and only if its selectors are a non-empty subset of the agent's. */
  method GetAgentAliases(t: seq<AliasRecord>, agentSelectors: set<Selector>, ghost entries: map<string, Entry>)
    returns (aliases: seq<AliasRecord>)
    requires AliasTree(AliasRecordBySelector, t, entries) && forall id :: id in entries ==> entries[id].id == id
    ensures forall i, j :: 0 <= i < j < |aliases| ==> aliases[i].entryID != aliases[j].entryID
    ensures forall i :: 0 <= i < |aliases| ==> RecordOf(entries, aliases[i])
    ensures forall id :: HasAlias(aliases, id) <==> AliasMatches(entries, id, agentSelectors)
  {
    aliases := [];
    var seen := {};
    var todo := agentSelectors;
    while todo != {}
      invariant todo <= agentSelectors && AliasesAmong(entries, agentSelectors, seen, aliases)
      invariant forall r :: r in t && r.selector in agentSelectors - todo ==> r.entryID in seen
    {
      var s :| s in todo;
      aliases, seen := ScanSelector(t, s, agentSelectors, aliases, seen, entries);
      todo := todo - {s};
    }
    forall id | AliasMatches(entries, id, agentSelectors) ensures id in seen {
      var s :| s in SelectorSet(entries[id].selectors);
      assert RecordOf(entries, RecordFor(entries[id], s));
    }
  }

  /** `starts` are the agent's path and the paths of its node aliases. */
  ghost predicate Starts(roots: set<string>, starts: seq<string>, universe: set<string>) {
    && (forall p :: p in roots <==> p in starts)
    && (forall p :: p in starts ==> p in universe)
  }

  lemma AliasesAreStarts(entries: map<string, Entry>, agents: map<string, AgentRecord>, agentID: SpiffeID,
                         aliases: seq<AliasRecord>)
    requires forall i :: 0 <= i < |aliases| ==> RecordOf(entries, aliases[i])
    requires forall id :: HasAlias(aliases, id) <==> AliasMatches(entries, id, AgentSelectors(agents, agentID))
    ensures ClosedUnderEdges(entries, AllPaths(entries, agentID.path))
    ensures Starts(Roots(entries, agents, agentID), [agentID.path] + AliasPaths(aliases),
            AllPaths(entries, agentID.path))
  {
    var starts := [agentID.path] + AliasPaths(aliases);
    forall id | id in entries && AliasMatches(entries, id, AgentSelectors(agents, agentID))
        ensures entries[id].spiffeId.path in starts {
      assert HasAlias(aliases, id);
      var i :| 0 <= i < |aliases| && aliases[i].entryID == id;
      assert starts[i + 1] == entries[id].spiffeId.path;
    }
    forall p | p in starts ensures p in Roots(entries, agents, agentID) && p in AllPaths(entries, agentID.path) {
      var i :| 0 <= i < |starts| && starts[i] == p;
      if i > 0 {
        assert HasAlias(aliases, aliases[i - 1].entryID);
      }
    }
  }

  function AliasPaths(aliases: seq<AliasRecord>): seq<string> {
    seq(|aliases|, i requires 0 <= i < |aliases| => aliases[i].aliasID)
  }

  /** All starting points up to `i` have been crawled. */
  ghost predicate Collected(entries: map<string, Entry>, roots: set<string>, starts: seq<string>, seen: set<string>,
                            records: seq<Entry>) {
    && (forall p :: p in starts ==> p in seen)
    && Explored(entries, roots, seen, seen)
    && Lists(records, ChildrenOf(Workloads(entries), seen), Workloads(entries))
  }

  lemma CollectStep(entries: map<string, Entry>, roots: set<string>, starts: seq<string>, p: string,
                    seen: set<string>, seen': set<string>, records: seq<Entry>, records': seq<Entry>)
    requires Collected(entries, roots, starts, seen, records)
    requires Crawled(entries, roots, p, seen, seen', records, records')
    ensures Collected(entries, roots, starts + [p], seen', records')
  {
    var byID := Workloads(entries);
    ListsConcat(records, ChildrenOf(byID, seen), records'[|records|..], ChildrenOf(byID, seen' - seen), byID);
    assert records' == records + records'[|records|..];
    assert ChildrenOf(byID, seen') == ChildrenOf(byID, seen) + ChildrenOf(byID, seen' - seen);
  }

  /** A crawl over all starting points has seen exactly the reachable paths, so their children are the authorized
      entries. */
  lemma SeenIsAuthorized(entries: map<string, Entry>, roots: set<string>, seen: set<string>)
    requires roots <= seen && Explored(entries, roots, seen, seen)
    ensures ChildrenOf(Workloads(entries), seen) == Authorized(entries, roots)
  {
    ClosureIsReachability(entries, roots, seen);
  }

  method CollectAll(byParent: map<string, map<string, Entry>>, starts: seq<string>,
                    ghost entries: map<string, Entry>, ghost roots: set<string>, ghost universe: set<string>)
    returns (records: seq<Entry>)
    requires Crawlable(byParent, entries, universe) && Starts(roots, starts, universe)
    ensures Lists(records, Authorized(entries, roots), entries)
  {
    records := [];
    var parentSeen := {};
    for i := 0 to |starts|
      invariant Collected(entries, roots, starts[..i], parentSeen, records)
    {
      records, parentSeen := CollectFrom(byParent, starts, i, records, parentSeen, entries, roots, universe);
    }
    assert starts[..|starts|] == starts;
    SeenIsAuthorized(entries, roots, parentSeen);
  }

  method CollectFrom(byParent: map<string, map<string, Entry>>, starts: seq<string>, i: nat, records: seq<Entry>,
                     parentSeen: set<string>,
                     ghost entries: map<string, Entry>, ghost roots: set<string>, ghost universe: set<string>)
    returns (records': seq<Entry>, parentSeen': set<string>)
    requires Crawlable(byParent, entries, universe) && Starts(roots, starts, universe) && i < |starts|
    requires Collected(entries, roots, starts[..i], parentSeen, records)
    ensures Collected(entries, roots, starts[..i + 1], parentSeen', records')
  {
    RootReachable(entries, roots, starts[i]);
    records', parentSeen' := AppendDescendents(byParent, records, starts[i], parentSeen, entries, roots, universe);
    CollectStep(entries, roots, starts[..i], starts[i], parentSeen, parentSeen', records, records');
    assert starts[..i + 1] == starts[..i] + [starts[i]];
  }

  /** Either the early exit was taken, or the search of all starting points is complete. */
  ghost predicate Looked(entries: map<string, Entry>, roots: set<string>, requested: set<string>, starts: seq<string>,
                         seen: set<string>, found: map<string, Entry>) {
    && Sound(entries, roots, requested, found)
    && (Full(found, requested)
        || (&& (forall p :: p in starts ==> p in seen) && Explored(entries, roots, seen, seen)
            && ChildrenOf(Workloads(entries), seen) * requested <= found.Keys))
  }

  lemma LookStep(entries: map<string, Entry>, roots: set<string>, requested: set<string>, starts: seq<string>,
                 p: string,
                 seen: set<string>, seen': set<string>, found: map<string, Entry>, found': map<string, Entry>)
    requires Looked(entries, roots, requested, starts, seen, found)
    requires Searched(entries, roots, requested, p, seen, seen', found, found')
    ensures Looked(entries, roots, requested, starts + [p], seen', found')
  {
    if Full(found, requested) {
      FullIsAll(entries, roots, requested, found);
      assert found'.Keys == requested;
    }
    var byID := Workloads(entries);
    assert ChildrenOf(byID, seen') == ChildrenOf(byID, seen) + ChildrenOf(byID, seen' - seen);
  }

  method LookupAll(byParent: map<string, map<string, Entry>>, starts: seq<string>, requested: set<string>,
                   ghost entries: map<string, Entry>, ghost roots: set<string>, ghost universe: set<string>)
    returns (found: map<string, Entry>)
    requires Crawlable(byParent, entries, universe) && Starts(roots, starts, universe)
    ensures found == map id | id in requested * Authorized(entries, roots) :: entries[id]
  {
    found := map[];
    var parentSeen := {};
    for i := 0 to |starts|
      invariant Looked(entries, roots, requested, starts[..i], parentSeen, found)
    {
      found, parentSeen := LookFrom(byParent, starts, i, requested, found, parentSeen, entries, roots, universe);
    }
    assert starts[..|starts|] == starts;
    LookedIsExact(entries, roots, requested, starts, parentSeen, found);
  }

  method LookFrom(byParent: map<string, map<string, Entry>>, starts: seq<string>, i: nat, requested: set<string>,
                  found: map<string, Entry>, parentSeen: set<string>,
                  ghost entries: map<string, Entry>, ghost roots: set<string>, ghost universe: set<string>)
    returns (found': map<string, Entry>, parentSeen': set<string>)
    requires Crawlable(byParent, entries, universe) && Starts(roots, starts, universe) && i < |starts|
    requires Looked(entries, roots, requested, starts[..i], parentSeen, found)
    ensures Looked(entries, roots, requested, starts[..i + 1], parentSeen', found')
  {
    RootReachable(entries, roots, starts[i]);
    found', parentSeen' := AddDescendants(byParent, found, starts[i], requested, parentSeen, entries, roots, universe);
    LookStep(entries, roots, requested, starts[..i], starts[i], parentSeen, parentSeen', found, found');
    assert starts[..i + 1] == starts[..i] + [starts[i]];
  }

  /** Early exit or not, the search finds exactly the requested entries that are authorized. */
  lemma LookedIsExact(entries: map<string, Entry>, roots: set<string>, requested: set<string>, starts: seq<string>,
                      seen: set<string>, found: map<string, Entry>)
    requires Looked(entries, roots, requested, starts, seen, found) && forall p :: p in roots ==> p in starts
    ensures found == map id | id in requested * Authorized(entries, roots) :: entries[id]
  {
    if Full(found, requested) {
      FullIsAll(entries, roots, requested, found);
    } else {
      SeenIsAuthorized(entries, roots, seen);
    }
  }
}
