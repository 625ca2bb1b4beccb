/** From the datastore through the server's cache and the sync protocol into the agent's cache. */
module EndToEnd {
  import opened Types
  import opened Records
  import opened Authorization
  import Indexes
  import FetcherProtocol
  import Serving
  import EntrySync
  import SyncBooks
  import SyncServer
  import SyncRefinement

  /** The entries the agent is authorized for, by ID. */
  ghost function AuthorizedEntries(entries: map<string, Entry>, agents: map<string, AgentRecord>,
                                   agentID: SpiffeID): map<string, Entry> {
    map id | id in Authorized(entries, Roots(entries, agents, agentID)) :: entries[id]
  }

  lemma ListsHold(list: seq<Entry>, entries: map<string, Entry>, agents: map<string, AgentRecord>, agentID: SpiffeID)
    requires Indexes.Lists(list, Authorized(entries, Roots(entries, agents, agentID)), entries)
    requires forall id :: id in entries ==> entries[id].id == id
    ensures SyncRefinement.Holds(AuthorizedEntries(entries, agents, agentID), list)
  {
    var table := AuthorizedEntries(entries, agents, agentID);
    forall e | e in list ensures e.id in table && table[e.id] == e {
      var i :| 0 <= i < |list| && list[i] == e;
    }
  }

  /** Once both fetchers are at rest, an agent that syncs with the list its server's cache gives, `sorted` as the server
      sorts it for lookups, ends up with exactly the well-formed entries the datastore authorizes it for, if and only if
      the list fits a page or the agent can tell which of its copies are out of date. */
  lemma AgentGetsDatastore(c: FetcherProtocol.Config,
                           e0: FetcherProtocol.World<Entry>, esteps: seq<FetcherProtocol.Step<Entry>>,
                           e: FetcherProtocol.World<Entry>,
                           n0: FetcherProtocol.World<AgentRecord>, nsteps: seq<FetcherProtocol.Step<AgentRecord>>,
                           n: FetcherProtocol.World<AgentRecord>,
                           agentID: SpiffeID, list: seq<Entry>, sorted: seq<Entry>, held: map<string, EntrySync.Sliced>,
                           pageSize: nat)
    requires FetcherProtocol.Init(e0) && FetcherProtocol.Run(c, e0, esteps, e) && Serving.AtRest(e)
    requires FetcherProtocol.Init(n0) && FetcherProtocol.Run(c, n0, nsteps, n) && Serving.AtRest(n)
    requires forall k :: k in e.copy ==> e.copy[k].expiresAt.None?
    requires forall k :: k in e.store ==> e.store[k].expiresAt.None? && e.store[k].value.id == k
    requires var k := agentID.ToString();
             (k in n.copy ==> !FetcherProtocol.Expired(n.copy[k], n.now)) &&
                 (k in n.store ==> !FetcherProtocol.Expired(n.store[k], n.now))
    requires var cached, agents := Serving.Values(e.copy), Serving.Values(n.copy);
             var ids := Authorized(cached, Roots(cached, agents, agentID));
             Indexes.Lists(list, ids, cached) && Indexes.Lists(sorted, ids, cached) && SyncServer.SortedByID(sorted)
    requires SyncBooks.Keyed(held) && pageSize > 0
    ensures var table := AuthorizedEntries(Serving.Values(e.store), Serving.Values(n.store), agentID);
            var out := EntrySync.SyncEntries(held, SyncRefinement.ServerFor(list, sorted, pageSize));
            && out.ok
            && (out.cached == SyncRefinement.FullFetch(table) <==>
                |list| <= pageSize || forall id :: id in table ==> SyncRefinement.Syncable(held, table[id]))
  {
    Serving.AtRestServesDatastore(c, e0, esteps, e, n0, nsteps, n, agentID);
    var entries, agents := Serving.Values(e.store), Serving.Values(n.copy);
    ListsHold(list, entries, agents, agentID);
    ListsHold(sorted, entries, agents, agentID);
    var table := AuthorizedEntries(entries, agents, agentID);
    SyncRefinement.ServerForServes(table, list, sorted, pageSize);
    SyncRefinement.SyncRefinesFetch(held, table, list, SyncRefinement.ServerFor(list, sorted, pageSize));
  }
}
