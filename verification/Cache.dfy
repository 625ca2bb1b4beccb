/** The authorized-entries cache: six indexes that together represent two plain maps, entries and agents. */
module AuthorizedEntries {
  import opened Types
  import opened Records
  import opened Authorization
  import opened Indexes
  import opened Crawl

  class Cache {
    const trustDomain: string
    var agentsByID: map<string, AgentRecord>
    var agentsByExpiresAt: seq<AgentRecord>
    var aliasesByEntryID: seq<AliasRecord>
    var aliasesBySelector: seq<AliasRecord>
    var entriesByEntryID: map<string, Entry>
    var entriesByParentID: map<string, map<string, Entry>>

    /** The plain map the entry indexes represent, node aliases included. */
    ghost var entries: map<string, Entry>

    ghost predicate Valid()
      reads this
    {
      && (forall id :: id in entries ==> entries[id].id == id)
      && entriesByEntryID == Workloads(entries)
      && ParentIndex(entriesByParentID, entriesByEntryID)
      && AliasTree(AliasRecordByEntryID, aliasesByEntryID, entries)
      && AliasTree(AliasRecordBySelector, aliasesBySelector, entries)
      && AgentTree(agentsByExpiresAt, agentsByID)
    }

    constructor (trustDomain: string)
      ensures Valid() && this.trustDomain == trustDomain && entries == map[] && agentsByID == map[]
    {
      this.trustDomain := trustDomain;
      agentsByID := map[];
      agentsByExpiresAt := [];
      aliasesByEntryID := [];
      aliasesBySelector := [];
      entriesByEntryID := map[];
      entriesByParentID := map[];
      entries := map[];
    }

    /** An entry of another trust domain is ignored: not even an older version of it is removed. */
    method UpdateEntry(entry: Entry)
      requires Valid()
      modifies this
      ensures Valid() && agentsByID == old(agentsByID)
      ensures entries ==
              if entry.parentId.trustDomain == trustDomain && entry.spiffeId.trustDomain == trustDomain
              then old(entries)[entry.id := entry] else old(entries)
    {
      if entry.parentId.trustDomain != trustDomain { return; }
      if entry.spiffeId.trustDomain != trustDomain { return; }
      RemoveEntry(entry.id);
      InsertEntry(entry);
    }

    method InsertEntry(entry: Entry)
      requires Valid() && entry.id !in entries
      modifies this
      ensures Valid() && entries == old(entries)[entry.id := entry] && agentsByID == old(agentsByID)
    {
      ghost var before := entries;
      entries := entries[entry.id := entry];
      if IsNodeAlias(entry) {
        assert Workloads(entries) == Workloads(before);
        aliasesByEntryID, aliasesBySelector := AddAlias(aliasesByEntryID, aliasesBySelector, before, entry);
      } else {
        assert Workloads(entries) == Workloads(before)[entry.id := entry];
        assert forall r :: RecordOf(entries, r) <==> RecordOf(before, r);
        AddKeepsParentIndex(entriesByParentID, entriesByEntryID, entry);
        entriesByEntryID := entriesByEntryID[entry.id := entry];
        entriesByParentID := AddToParent(entriesByParentID, entry);
      }
    }

    method RemoveEntry(entryID: string)
      requires Valid()
      modifies this
      ensures Valid() && entries == old(entries) - {entryID} && agentsByID == old(agentsByID)
    {
      ghost var before := entries;
      entries := entries - {entryID};
      if entryID in entriesByEntryID {
        assert Workloads(entries) == Workloads(before) - {entryID};
        assert forall r :: RecordOf(entries, r) <==> RecordOf(before, r);
        DropKeepsParentIndex(entriesByParentID, entriesByEntryID, entriesByEntryID[entryID]);
        entriesByParentID := DropFromParent(entriesByParentID, entriesByEntryID[entryID]);
        entriesByEntryID := entriesByEntryID - {entryID};
      } else {
        assert Workloads(entries) == Workloads(before);
        aliasesByEntryID, aliasesBySelector := DropAlias(aliasesByEntryID, aliasesBySelector, before, entryID);
      }
    }

    method UpdateAgent(agentID: string, expiresAt: int, selectors: seq<Selector>)
      requires Valid()
      modifies this
      ensures Valid() && entries == old(entries)
      ensures agentsByID == old(agentsByID)[agentID := AgentRecord(agentID, expiresAt, SelectorSet(selectors))]
    {
      var s := SelectorSetFromProto(selectors);
      var agent := AgentRecord(agentID, expiresAt, s);
      agentsByExpiresAt, agentsByID := ReplaceAgent(agentsByExpiresAt, agentsByID, agent);
    }

    method RemoveAgent(agentID: string)
      requires Valid()
      modifies this
      ensures Valid() && entries == old(entries) && agentsByID == old(agentsByID) - {agentID}
    {
      if agentID in agentsByID {
        agentsByExpiresAt := DropAgent(agentsByExpiresAt, agentsByID[agentID]);
      }
      agentsByID := agentsByID - {agentID};
    }

    /** Removes and counts exactly the agents that expire at or before `now`. */
    method PruneExpiredAgents(now: int) returns (pruned: nat)
      requires Valid()
      modifies this
      ensures Valid() && entries == old(entries)
      ensures forall id :: id in agentsByID <==> id in old(agentsByID) && old(agentsByID)[id].expiresAt > now
      ensures forall id :: id in agentsByID ==> agentsByID[id] == old(agentsByID)[id]
      ensures pruned == |old(agentsByID)| - |agentsByID|
    {
      agentsByExpiresAt, agentsByID, pruned := PruneTree(agentsByExpiresAt, agentsByID, now);
    }

    /** The entries reachable from the agent's path and its aliases' paths, each exactly once. */
    method GetAuthorizedEntries(agentID: SpiffeID) returns (records: seq<Entry>)
      requires Valid()
      ensures Lists(records, Authorized(entries, Roots(entries, agentsByID, agentID)), entries)
    {
      var aliases := GetAgentAliases(aliasesBySelector, AgentSelectors(agentsByID, agentID), entries);
      AliasesAreStarts(entries, agentsByID, agentID, aliases);
      records := CollectAll(entriesByParentID, [agentID.path] + AliasPaths(aliases),
                            entries, Roots(entries, agentsByID, agentID), AllPaths(entries, agentID.path));
    }

    /** Exactly the requested entries among those GetAuthorizedEntries gives, although the crawl may stop early. */
    method LookupAuthorizedEntries(agentID: SpiffeID, requested: set<string>) returns (found: map<string, Entry>)
      requires Valid()
      ensures found == map id | id in requested * Authorized(entries, Roots(entries, agentsByID, agentID)) ::
              entries[id]
    {
      var aliases := GetAgentAliases(aliasesBySelector, AgentSelectors(agentsByID, agentID), entries);
      AliasesAreStarts(entries, agentsByID, agentID, aliases);
      found := LookupAll(entriesByParentID, [agentID.path] + AliasPaths(aliases), requested,
                         entries, Roots(entries, agentsByID, agentID), AllPaths(entries, agentID.path));
    }
  }

  /** An agent whose record has just been updated is served every workload entry under a node alias its selectors
      satisfy. */
  method ServeUpdatedAgent(cache: Cache, agentID: SpiffeID, expiresAt: int, selectors: seq<Selector>)
      returns (records: seq<Entry>)
    requires cache.Valid()
    modifies cache
    ensures cache.Valid() && cache.entries == old(cache.entries)
    ensures forall id, alias ::
              id in cache.entries && alias in cache.entries &&
              AliasOver(cache.entries[alias], cache.entries[id], selectors) ==>
                cache.entries[id] in records
  {
    cache.UpdateAgent("spiffe://" + agentID.trustDomain + agentID.path, expiresAt, selectors);
    records := cache.GetAuthorizedEntries(agentID);
    forall id, alias | id in cache.entries && alias in cache.entries &&
        AliasOver(cache.entries[alias], cache.entries[id], selectors) ensures cache.entries[id] in records {
      AliasServes(cache.entries, cache.agentsByID, agentID, SelectorSet(selectors), alias, id);
    }
  }

  /** The entry is parented to the path of a node alias whose selectors, of which there are some, are all among
      these. */
  predicate AliasOver(alias: Entry, e: Entry, selectors: seq<Selector>) {
    && alias.parentId.path == "/spire/server" && alias.selectors != []
    && (forall s :: s in alias.selectors ==> s in selectors)
    && e.parentId.path == alias.spiffeId.path && e.parentId.path != "/spire/server"
  }

  lemma AliasServes(entries: map<string, Entry>, agents: map<string, AgentRecord>, agentID: SpiffeID,
                    selectors: set<Selector>, alias: string, id: string)
    requires id in entries && entries[id].parentId.path != "/spire/server"
    requires var key := "spiffe://" + agentID.trustDomain + agentID.path;
             key in agents && agents[key].selectors == selectors
    requires AliasFor(entries, alias, selectors, entries[id].parentId.path)
    ensures id in Authorized(entries, Roots(entries, agents, agentID))
  {
    var roots := Roots(entries, agents, agentID);
    RootsExactly(entries, agents, agentID, entries[id].parentId.path);
    assert Chain(entries, roots, [id]);
    AuthorizedByChain(entries, roots, id);
  }
}
