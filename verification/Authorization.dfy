/** Which entries an agent may have, stated on plain maps: reachability from the agent's own path and from the paths of
    the node aliases its selectors match, along edges from an entry's parent path to its SPIFFE path. */
module Authorization {
  import opened Types
  import opened Records

  predicate Workload(entries: map<string, Entry>, id: string) {
    id in entries && !IsNodeAlias(entries[id])
  }

  ghost predicate Edge(entries: map<string, Entry>, p: string, q: string) {
    exists id :: Workload(entries, id) && entries[id].parentId.path == p && entries[id].spiffeId.path == q
  }

  ghost predicate Walk(entries: map<string, Entry>, ps: seq<string>) {
    && |ps| > 0
    && forall i :: 0 <= i < |ps| - 1 ==> Edge(entries, ps[i], ps[i + 1])
  }

  ghost predicate Reachable(entries: map<string, Entry>, roots: set<string>, q: string) {
    exists ps :: Walk(entries, ps) && ps[0] in roots && ps[|ps| - 1] == q
  }

  /** The node alias `id` applies to a node with these selectors. */
  predicate AliasMatches(entries: map<string, Entry>, id: string, selectors: set<Selector>) {
    && id in entries && IsNodeAlias(entries[id])
    && {} < SelectorSet(entries[id].selectors) <= selectors
  }

  function AgentSelectors(agents: map<string, AgentRecord>, agentID: SpiffeID): set<Selector> {
    if agentID.ToString() in agents then agents[agentID.ToString()].selectors else {}
  }

  function Roots(entries: map<string, Entry>, agents: map<string, AgentRecord>, agentID: SpiffeID): set<string> {
    {agentID.path}
    + set id | id in entries && AliasMatches(entries, id, AgentSelectors(agents, agentID)) :: entries[id].spiffeId.path
  }

  /** The IDs of the entries an agent is authorized for. */
  ghost function Authorized(entries: map<string, Entry>, roots: set<string>): set<string> {
    set id | id in entries && Workload(entries, id) && Reachable(entries, roots, entries[id].parentId.path)
  }

  lemma RootReachable(entries: map<string, Entry>, roots: set<string>, p: string)
    requires p in roots
    ensures Reachable(entries, roots, p)
  {
    assert Walk(entries, [p]);
  }

  lemma ReachableStep(entries: map<string, Entry>, roots: set<string>, id: string)
    requires Workload(entries, id) && Reachable(entries, roots, entries[id].parentId.path)
    ensures Reachable(entries, roots, entries[id].spiffeId.path)
  {
    var ps :| Walk(entries, ps) && ps[0] in roots && ps[|ps| - 1] == entries[id].parentId.path;
    var qs := ps + [entries[id].spiffeId.path];
    assert Edge(entries, entries[id].parentId.path, entries[id].spiffeId.path);
    forall i | 0 <= i < |qs| - 1 ensures Edge(entries, qs[i], qs[i + 1]) {
      if i < |ps| - 1 {
        assert Edge(entries, ps[i], ps[i + 1]);
      }
    }
    assert Walk(entries, qs);
  }

  ghost predicate ClosedUnderEdges(entries: map<string, Entry>, s: set<string>) {
    forall id :: Workload(entries, id) && entries[id].parentId.path in s ==> entries[id].spiffeId.path in s
  }

  lemma {:induction false} WalkStaysInside(entries: map<string, Entry>, s: set<string>, ps: seq<string>)
    requires ClosedUnderEdges(entries, s) && Walk(entries, ps) && ps[0] in s
    ensures ps[|ps| - 1] in s
  {
    if |ps| > 1 {
      assert Edge(entries, ps[0], ps[1]);
      forall i | 0 <= i < |ps[1..]| - 1 ensures Edge(entries, ps[1..][i], ps[1..][i + 1]) {
        assert Edge(entries, ps[i + 1], ps[i + 1 + 1]);
      }
      WalkStaysInside(entries, s, ps[1..]);
    }
  }

  /** A set of reachable paths that holds the roots and is closed under edges is the set of all reachable paths. */
  lemma ClosureIsReachability(entries: map<string, Entry>, roots: set<string>, s: set<string>)
    requires roots <= s && ClosedUnderEdges(entries, s)
    requires forall p :: p in s ==> Reachable(entries, roots, p)
    ensures forall p :: Reachable(entries, roots, p) <==> p in s
  {
    forall p | Reachable(entries, roots, p) ensures p in s {
      var ps :| Walk(entries, ps) && ps[0] in roots && ps[|ps| - 1] == p;
      WalkStaysInside(entries, s, ps);
    }
  }

  /** A node alias, seen from its own fields: an entry under the server whose selectors, of which there are some, are
      all among these, and which stands for the path. */
  predicate AliasFor(entries: map<string, Entry>, id: string, selectors: set<Selector>, path: string) {
    && id in entries && entries[id].parentId.path == "/spire/server" && entries[id].spiffeId.path == path
    && entries[id].selectors != [] && forall s :: s in entries[id].selectors ==> s in selectors
  }

  /** The roots of an agent are its own path and those of the aliases its record satisfies; without a record there are
      no others. */
  lemma RootsExactly(entries: map<string, Entry>, agents: map<string, AgentRecord>, agentID: SpiffeID, path: string)
    ensures var key := "spiffe://" + agentID.trustDomain + agentID.path;
            path in Roots(entries, agents, agentID) <==>
              || path == agentID.path
              || (key in agents && exists id :: AliasFor(entries, id, agents[key].selectors, path))
  {
    var selectors := AgentSelectors(agents, agentID);
    forall id ensures AliasFor(entries, id, selectors, path) <==>
                      AliasMatches(entries, id, selectors) && entries[id].spiffeId.path == path
    {
      if id in entries {
        NonEmptySet(entries[id].selectors);
      }
    }
    if id :| AliasFor(entries, id, {}, path) {
      assert entries[id].selectors[0] in entries[id].selectors;
    }
  }

  lemma NonEmptySet(selectors: seq<Selector>)
    ensures SelectorSet(selectors) == {} <==> selectors == []
    ensures forall s :: s in SelectorSet(selectors) <==> s in selectors
  {
    if selectors != [] {
      assert selectors[0] in SelectorSet(selectors);
    }
  }

  /** Entries none of which is parented to the server: the first to one of the paths, each other to the SPIFFE path of
      the one before. */
  ghost predicate Chain(entries: map<string, Entry>, roots: set<string>, ids: seq<string>) {
    && |ids| > 0
    && (forall i :: 0 <= i < |ids| ==> ids[i] in entries && entries[ids[i]].parentId.path != "/spire/server")
    && entries[ids[0]].parentId.path in roots
    && (forall i :: 0 < i < |ids| ==> entries[ids[i]].parentId.path == entries[ids[i - 1]].spiffeId.path)
  }

  /** An agent is authorized for exactly the entries at the end of such a chain from one of its roots. */
  lemma AuthorizedByChain(entries: map<string, Entry>, roots: set<string>, id: string)
    ensures id in Authorized(entries, roots) <==> exists ids :: Chain(entries, roots, ids) && ids[|ids| - 1] == id
  {
    if id in Authorized(entries, roots) {
      var ps :| Walk(entries, ps) && ps[0] in roots && ps[|ps| - 1] == entries[id].parentId.path;
      var ids := ChainOf(entries, roots, ps, id);
    }
    if ids :| Chain(entries, roots, ids) && ids[|ids| - 1] == id {
      ChainLeads(entries, roots, ids);
    }
  }

  lemma {:induction false} ChainOf(entries: map<string, Entry>, roots: set<string>, ps: seq<string>, id: string)
      returns (ids: seq<string>)
    requires Walk(entries, ps) && ps[0] in roots && Workload(entries, id) && entries[id].parentId.path == ps[|ps| - 1]
    ensures Chain(entries, roots, ids) && ids[|ids| - 1] == id
    decreases |ps|
  {
    if |ps| == 1 {
      ids := [id];
    } else {
      var n := |ps| - 1;
      assert Edge(entries, ps[n - 1], ps[n - 1 + 1]);
      var before :| Workload(entries, before) && entries[before].parentId.path == ps[n - 1] &&
                    entries[before].spiffeId.path == ps[n];
      forall i | 0 <= i < n - 1 ensures Edge(entries, ps[..n][i], ps[..n][i + 1]) {
        assert Edge(entries, ps[i], ps[i + 1]);
      }
      ids := ChainOf(entries, roots, ps[..n], before);
      ids := ids + [id];
    }
  }

  lemma {:induction false} ChainLeads(entries: map<string, Entry>, roots: set<string>, ids: seq<string>)
    requires Chain(entries, roots, ids)
    ensures ids[|ids| - 1] in Authorized(entries, roots)
  {
    var n := |ids| - 1;
    if n == 0 {
      RootReachable(entries, roots, entries[ids[0]].parentId.path);
    } else {
      ChainLeads(entries, roots, ids[..n]);
      ReachableStep(entries, roots, ids[n - 1]);
    }
  }
}
