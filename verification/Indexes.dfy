/** The indexes of the authorized-entries cache as values: what each must hold, and the updates that keep it so. */
module Indexes {
  import opened Types
  import opened Collections
  import opened Records
  import opened OrderedTree

  method SelectorSetFromProto(selectors: seq<Selector>) returns (s: set<Selector>)
    ensures s == SelectorSet(selectors)
  {
    s := {};
    for i := 0 to |selectors|
      invariant s == SelectorSet(selectors[..i])
    {
      assert selectors[..i + 1] == selectors[..i] + [selectors[i]];
      s := s + {selectors[i]};
    }
    assert selectors[..|selectors|] == selectors;
  }

  /** The size test up front never changes the answer: a larger set is not a subset. */
  method IsSubset(sub: set<Selector>, whole: set<Selector>) returns (r: bool)
    ensures r <==> sub <= whole
  {
    if |sub| > |whole| {
      if sub <= whole { SubsetIsSmaller(sub, whole); }
      return false;
    }
    var todo := sub;
    while todo != {}
      invariant todo <= sub && sub - todo <= whole
    {
      var s :| s in todo;
      if s !in whole { return false; }
      todo := todo - {s};
    }
    return true;
  }

  /** The alias record of `e` for one of its selectors. */
  function RecordFor(e: Entry, s: Selector): AliasRecord {
    AliasRecord(e.id, e.spiffeId.path, s, SelectorSet(e.selectors))
  }

  predicate RecordOf(entries: map<string, Entry>, r: AliasRecord) {
    && r.entryID in entries && IsNodeAlias(entries[r.entryID])
    && r.selector in SelectorSet(entries[r.entryID].selectors)
    && r == RecordFor(entries[r.entryID], r.selector)
  }

  /** An alias tree holds exactly one record per selector of each node alias. */
  ghost predicate AliasTree(less: (AliasRecord, AliasRecord) -> bool, t: seq<AliasRecord>,
                            entries: map<string, Entry>) {
    Sorted(less, t) && forall r :: r in t <==> RecordOf(entries, r)
  }

  function Workloads(entries: map<string, Entry>): map<string, Entry> {
    map id | id in entries && !IsNodeAlias(entries[id]) :: entries[id]
  }

  predicate InBucket(byParent: map<string, map<string, Entry>>, p: string, id: string) {
    p in byParent && id in byParent[p]
  }

  /** The parent index holds the entries of the ID index, each in its parent's bucket, and no empty bucket. */
  ghost predicate ParentIndex(byParent: map<string, map<string, Entry>>, byID: map<string, Entry>) {
    && (forall p :: p in byParent ==> byParent[p] != map[])
    && (forall p, id :: InBucket(byParent, p, id) <==> id in byID && byID[id].parentId.path == p)
    && (forall p, id :: InBucket(byParent, p, id) && id in byID ==> byParent[p][id] == byID[id])
  }

  function AddToParent(byParent: map<string, map<string, Entry>>, e: Entry): map<string, map<string, Entry>> {
    var p := e.parentId.path;
    var bucket := if p in byParent then byParent[p] else map[];
    byParent[p := bucket[e.id := e]]
  }

  function DropFromParent(byParent: map<string, map<string, Entry>>, e: Entry): map<string, map<string, Entry>> {
    var p := e.parentId.path;
    if p !in byParent then byParent
    else
      var bucket := byParent[p] - {e.id};
      if bucket == map[] then byParent - {p} else byParent[p := bucket]
  }

  lemma AddKeepsParentIndex(byParent: map<string, map<string, Entry>>, byID: map<string, Entry>, e: Entry)
    requires ParentIndex(byParent, byID) && e.id !in byID
    ensures ParentIndex(AddToParent(byParent, e), byID[e.id := e])
  {
    var byParent' := AddToParent(byParent, e);
    assert e.id in byParent'[e.parentId.path];
    forall p, id
      ensures InBucket(byParent', p, id) <==> InBucket(byParent, p, id) || (p == e.parentId.path && id == e.id)
      ensures InBucket(byParent', p, id) && id in byID ==> byParent'[p][id] == byID[id]
    {
      assert InBucket(byParent, p, id) ==> id in byID;
    }
  }

  lemma DropKeepsParentIndex(byParent: map<string, map<string, Entry>>, byID: map<string, Entry>, e: Entry)
    requires ParentIndex(byParent, byID) && e.id in byID && byID[e.id] == e
    ensures ParentIndex(DropFromParent(byParent, e), byID - {e.id})
  {
    var byParent' := DropFromParent(byParent, e);
    assert InBucket(byParent, e.parentId.path, e.id);
    var bucket := byParent[e.parentId.path] - {e.id};
    forall p, k
      ensures InBucket(byParent', p, k) <==> InBucket(byParent, p, k) && k != e.id
    {
      assert InBucket(byParent, p, e.id) ==> p == e.parentId.path;
      if p == e.parentId.path && InBucket(byParent, p, k) && k != e.id {
        assert k in bucket;
      }
    }
  }

  ghost predicate AgentTree(t: seq<AgentRecord>, byID: map<string, AgentRecord>) {
    && Sorted(AgentRecordByExpiresAt, t)
    && (forall r :: r in t <==> r.id in byID && byID[r.id] == r)
    && (forall id :: id in byID ==> byID[id].id == id)
  }

  /** `records` lists each of these entries, once, and nothing else. */
  ghost predicate Lists(records: seq<Entry>, ids: set<string>, byID: map<string, Entry>) {
    && (forall i, j :: 0 <= i < j < |records| ==> records[i].id != records[j].id)
    && (forall i :: 0 <= i < |records| ==>
       records[i].id in ids && records[i].id in byID && byID[records[i].id] == records[i])
    && (forall id :: id in ids ==> id in byID && byID[id] in records)
  }

  /** So there are as many records as IDs, and their IDs are those. */
  lemma {:induction false} ListsEachOnce(records: seq<Entry>, ids: set<string>, byID: map<string, Entry>)
    requires Lists(records, ids, byID) && forall id :: id in byID ==> byID[id].id == id
    ensures |records| == |ids| && (forall id :: id in ids <==> exists r :: r in records && r.id == id)
    decreases |records|
  {
    forall id | id in ids ensures exists r :: r in records && r.id == id {
      assert byID[id] in records;
    }
    if records != [] {
      var n := |records| - 1;
      var id := records[n].id;
      forall x | x in ids - {id} ensures byID[x] in records[..n] {
        var i :| 0 <= i < |records| && records[i] == byID[x];
        assert i < n && records[..n][i] == byID[x];
      }
      ListsEachOnce(records[..n], ids - {id}, byID);
      assert ids == (ids - {id}) + {id};
    }
  }

  lemma ListsConcat(a: seq<Entry>, A: set<string>, b: seq<Entry>, B: set<string>, byID: map<string, Entry>)
    requires Lists(a, A, byID) && Lists(b, B, byID) && A !! B
    ensures Lists(a + b, A + B, byID)
  {
  }

  /** The entries parented to one of these paths. */
  function ChildrenOf(byID: map<string, Entry>, paths: set<string>): set<string> {
    set id | id in byID && byID[id].parentId.path in paths
  }

  /** Replaces or adds an agent in both agent indexes. */
  method ReplaceAgent(t: seq<AgentRecord>, byID: map<string, AgentRecord>, agent: AgentRecord)
    returns (t': seq<AgentRecord>, byID': map<string, AgentRecord>)
    requires AgentTree(t, byID)
    ensures AgentTree(t', byID') && byID' == byID[agent.id := agent]
  {
    t' := t;
    if agent.id in byID {
      t' := DropAgent(t', byID[agent.id]);
    }
    assert forall r :: r in t' ==> r.id != agent.id;
    t' := PutAgent(t', agent);
    byID' := byID[agent.id := agent];
  }

  function Unexpired(agents: map<string, AgentRecord>, now: int): map<string, AgentRecord> {
    map id | id in agents && agents[id].expiresAt > now :: agents[id]
  }

  /** Dropping the least record, when it has expired, removes one agent and loses no unexpired one. */
  lemma MinAgentLeaves(t: seq<AgentRecord>, byID: map<string, AgentRecord>, now: int)
    requires AgentTree(t, byID) && t != [] && t[0].expiresAt <= now
    ensures |byID - {t[0].id}| == |byID| - 1 && |DropAgent(t, t[0])| == |t| - 1
    ensures AgentTree(DropAgent(t, t[0]), byID - {t[0].id})
    ensures Unexpired(byID - {t[0].id}, now) == Unexpired(byID, now)
  {
    assert t[0] in t;
    OneFewer(byID, t[0].id);
    DropHead(t);
    HeadLeaves(t, byID);
  }

  lemma OneFewer(byID: map<string, AgentRecord>, id: string)
    requires id in byID
    ensures |byID - {id}| == |byID| - 1
  {
    assert byID.Keys == (byID - {id}).Keys + {id};
  }

  lemma HeadLeaves(t: seq<AgentRecord>, byID: map<string, AgentRecord>)
    requires AgentTree(t, byID) && t != []
    ensures AgentTree(DropAgent(t, t[0]), byID - {t[0].id})
  {
    assert t[0] in t;
  }

  lemma DropHead(t: seq<AgentRecord>)
    requires Sorted(AgentRecordByExpiresAt, t) && t != []
    ensures |DropAgent(t, t[0])| == |t| - 1
  {
    AgentOrder();
    assert SameKey(AgentRecordByExpiresAt, t[0], t[0]);
  }

  /** If the least record is unexpired, all are. */
  lemma AllAboveMin(t: seq<AgentRecord>, byID: map<string, AgentRecord>, now: int)
    requires AgentTree(t, byID) && (t != [] ==> t[0].expiresAt > now)
    ensures Unexpired(byID, now) == byID
  {
    forall id | id in byID ensures byID[id].expiresAt > now {
      assert byID[id] in t;
      var i :| 0 <= i < |t| && t[i] == byID[id];
      assert 0 < i ==> AgentRecordByExpiresAt(t[0], t[i]);
    }
  }

  /** Takes the least record off the expiry tree while it has expired. */
  method PruneTree(t: seq<AgentRecord>, byID: map<string, AgentRecord>, now: int)
    returns (t': seq<AgentRecord>, byID': map<string, AgentRecord>, pruned: nat)
    requires AgentTree(t, byID)
    ensures AgentTree(t', byID') && byID' == Unexpired(byID, now) && pruned == |byID| - |byID'|
  {
    t', byID', pruned := t, byID, 0;
    while t' != [] && t'[0].expiresAt <= now
      invariant AgentTree(t', byID') && pruned == |byID| - |byID'| && Unexpired(byID', now) == Unexpired(byID, now)
      decreases |t'|
    {
      MinAgentLeaves(t', byID', now);
      byID', t' := byID' - {t'[0].id}, DropAgent(t', t'[0]);
      pruned := pruned + 1;
    }
    AllAboveMin(t', byID', now);
  }

  /** Adds a record per selector of a new node alias to both trees. */
  method AddAlias(byEntry: seq<AliasRecord>, bySelector: seq<AliasRecord>, ghost entries: map<string, Entry>,
                  entry: Entry)
    returns (byEntry': seq<AliasRecord>, bySelector': seq<AliasRecord>)
    requires AliasTree(AliasRecordByEntryID, byEntry, entries) && AliasTree(AliasRecordBySelector, bySelector, entries)
    requires entry.id !in entries && IsNodeAlias(entry)
    ensures AliasTree(AliasRecordByEntryID, byEntry', entries[entry.id := entry])
    ensures AliasTree(AliasRecordBySelector, bySelector', entries[entry.id := entry])
  {
    byEntry', bySelector' := byEntry, bySelector;
    var todo := SelectorSet(entry.selectors);
    while todo != {}
      invariant todo <= SelectorSet(entry.selectors)
      invariant Sorted(AliasRecordByEntryID, byEntry') && Sorted(AliasRecordBySelector, bySelector')
      invariant forall r :: r in byEntry' <==>
                RecordOf(entries, r) || Fresh(entry, SelectorSet(entry.selectors) - todo, r)
      invariant forall r :: r in bySelector' <==>
                RecordOf(entries, r) || Fresh(entry, SelectorSet(entry.selectors) - todo, r)
    {
      var s :| s in todo;
      byEntry' := PutByEntryID(byEntry', RecordFor(entry, s));
      bySelector' := PutBySelector(bySelector', RecordFor(entry, s));
      todo := todo - {s};
    }
  }

  predicate Fresh(entry: Entry, done: set<Selector>, r: AliasRecord) {
    r.selector in done && r == RecordFor(entry, r.selector)
  }

  /** Removes every record of an entry from both trees. */
  method DropAlias(byEntry: seq<AliasRecord>, bySelector: seq<AliasRecord>, ghost entries: map<string, Entry>,
                   entryID: string)
    returns (byEntry': seq<AliasRecord>, bySelector': seq<AliasRecord>)
    requires forall id :: id in entries ==> entries[id].id == id
    requires AliasTree(AliasRecordByEntryID, byEntry, entries) && AliasTree(AliasRecordBySelector, bySelector, entries)
    ensures AliasTree(AliasRecordByEntryID, byEntry', entries - {entryID})
    ensures AliasTree(AliasRecordBySelector, bySelector', entries - {entryID})
  {
    byEntry', bySelector' := byEntry, bySelector;
    var doomed := ScanEntry(byEntry, entryID);
    for i := 0 to |doomed|
      invariant Sorted(AliasRecordByEntryID, byEntry') && Sorted(AliasRecordBySelector, bySelector')
      invariant forall r :: r in byEntry' <==> RecordOf(entries, r) && r !in doomed[..i]
      invariant forall r :: r in bySelector' <==> RecordOf(entries, r) && r !in doomed[..i]
    {
      byEntry' := DropByEntryID(byEntry', doomed[i]);
      bySelector' := DropBySelector(bySelector', doomed[i]);
      assert doomed[..i + 1] == doomed[..i] + [doomed[i]];
    }
    assert doomed[..|doomed|] == doomed;
    assert forall r :: RecordOf(entries - {entryID}, r) <==> RecordOf(entries, r) && r.entryID != entryID;
  }

  /** The range scan from the pivot that has only the entry ID finds all records of the entry. */
  method ScanEntry(t: seq<AliasRecord>, entryID: string) returns (found: seq<AliasRecord>)
    requires Sorted(AliasRecordByEntryID, t)
    ensures forall r :: r in found <==> r in t && r.entryID == entryID
  {
    found := [];
    var lo := LowerBound(AliasRecordByEntryID, t, EntryPivot(entryID));
    var k := lo;
    while k < |t| && t[k].entryID == entryID
      invariant lo <= k <= |t| && found == t[lo..k]
      invariant forall j :: lo <= j < k ==> t[j].entryID == entryID
    {
      found := found + [t[k]];
      k := k + 1;
    }
    forall r | r in t && r.entryID == entryID ensures r in found {
      var j: nat :| j < |t| && t[j] == r;
      EntryRange(t, entryID, lo, k, j);
      assert found[j - lo] == r;
    }
  }
}
