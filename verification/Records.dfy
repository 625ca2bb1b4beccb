/** The records of the authorized-entries cache and the orders of its trees. */
module Records {
  import opened Types
  import opened OrderedTree
  import Lex

  datatype AliasRecord = AliasRecord(entryID: string, aliasID: string, selector: Selector, allSelectors: set<Selector>)

  datatype AgentRecord = AgentRecord(id: string, expiresAt: int, selectors: set<Selector>)

  predicate AliasRecordByEntryID(a: AliasRecord, b: AliasRecord) {
    if Lex.Less(a.entryID, b.entryID) then true
    else if Lex.Less(b.entryID, a.entryID) then false
    else if Lex.Less(a.selector.kind, b.selector.kind) then true
    else if Lex.Less(b.selector.kind, a.selector.kind) then false
    else Lex.Less(a.selector.value, b.selector.value)
  }

  predicate AliasRecordBySelector(a: AliasRecord, b: AliasRecord) {
    if Lex.Less(a.selector.kind, b.selector.kind) then true
    else if Lex.Less(b.selector.kind, a.selector.kind) then false
    else if Lex.Less(a.selector.value, b.selector.value) then true
    else if Lex.Less(b.selector.value, a.selector.value) then false
    else Lex.Less(a.entryID, b.entryID)
  }

  predicate AgentRecordByExpiresAt(a: AgentRecord, b: AgentRecord) {
    if a.expiresAt < b.expiresAt then true
    else if a.expiresAt > b.expiresAt then false
    else Lex.Less(a.id, b.id)
  }

  /** Comparison of string triples, most significant first. */
  function Compare3(a: (string, string, string), b: (string, string, string)): (c: int)
    ensures c == 0 <==> a == b
  {
    if a.0 != b.0 then Lex.Compare(a.0, b.0)
    else if a.1 != b.1 then Lex.Compare(a.1, b.1)
    else Lex.Compare(a.2, b.2)
  }

  lemma Compare3Flips(a: (string, string, string), b: (string, string, string))
    ensures Compare3(b, a) == -Compare3(a, b)
  {
    Lex.CompareFlips(a.0, b.0);
    Lex.CompareFlips(a.1, b.1);
    Lex.CompareFlips(a.2, b.2);
  }

  lemma Compare3Transitive(a: (string, string, string), b: (string, string, string), c: (string, string, string))
    requires Compare3(a, b) <= 0 && Compare3(b, c) <= 0
    ensures Compare3(a, c) <= 0 && (Compare3(a, c) == 0 ==> a == b)
  {
    Lex.CompareTransitive(a.0, b.0, c.0);
    if a.0 == b.0 == c.0 {
      Lex.CompareTransitive(a.1, b.1, c.1);
      if a.1 == b.1 == c.1 {
        Lex.CompareTransitive(a.2, b.2, c.2);
      }
    }
  }

  function EntryKey(r: AliasRecord): (string, string, string) {
    (r.entryID, r.selector.kind, r.selector.value)
  }

  function SelectorKey(r: AliasRecord): (string, string, string) {
    (r.selector.kind, r.selector.value, r.entryID)
  }

  lemma ByEntryIDIsCompare(a: AliasRecord, b: AliasRecord)
    ensures AliasRecordByEntryID(a, b) <==> Compare3(EntryKey(a), EntryKey(b)) < 0
  {
    Lex.CompareFlips(a.entryID, b.entryID);
    Lex.CompareFlips(a.selector.kind, b.selector.kind);
  }

  lemma BySelectorIsCompare(a: AliasRecord, b: AliasRecord)
    ensures AliasRecordBySelector(a, b) <==> Compare3(SelectorKey(a), SelectorKey(b)) < 0
  {
    Lex.CompareFlips(a.selector.kind, b.selector.kind);
    Lex.CompareFlips(a.selector.value, b.selector.value);
  }

  /** A `less` that is a three-way comparison of string triples below zero is a strict weak order. */
  lemma CompareIsOrder<T(!new)>(less: (T, T) -> bool, key: T -> (string, string, string))
    requires forall a, b :: less(a, b) <==> Compare3(key(a), key(b)) < 0
    ensures Order(less)
  {
    forall a, b | less(a, b) ensures !less(b, a) {
      Compare3Flips(key(a), key(b));
    }
    forall a, b, c | less(a, b) && less(b, c) ensures less(a, c) {
      Compare3Transitive(key(a), key(b), key(c));
    }
    forall a, b, c | !less(a, b) && !less(b, c) ensures !less(a, c) {
      Compare3Flips(key(a), key(b));
      Compare3Flips(key(b), key(c));
      Compare3Flips(key(a), key(c));
      Compare3Transitive(key(c), key(b), key(a));
    }
  }

  /** Both alias orders are strict weak orders in which only one record per entry and selector fits. */
  lemma AliasOrders()
    ensures Order(AliasRecordByEntryID) && Order(AliasRecordBySelector)
    ensures forall a, b :: SameKey(AliasRecordByEntryID, a, b) <==> a.entryID == b.entryID && a.selector == b.selector
    ensures forall a, b :: SameKey(AliasRecordBySelector, a, b) <==> a.entryID == b.entryID && a.selector == b.selector
  {
    forall a, b
      ensures AliasRecordByEntryID(a, b) <==> Compare3(EntryKey(a), EntryKey(b)) < 0
      ensures AliasRecordBySelector(a, b) <==> Compare3(SelectorKey(a), SelectorKey(b)) < 0
      ensures SameKey(AliasRecordByEntryID, a, b) <==> a.entryID == b.entryID && a.selector == b.selector
      ensures SameKey(AliasRecordBySelector, a, b) <==> a.entryID == b.entryID && a.selector == b.selector
    {
      ByEntryIDIsCompare(a, b); ByEntryIDIsCompare(b, a);
      BySelectorIsCompare(a, b); BySelectorIsCompare(b, a);
      Compare3Flips(EntryKey(a), EntryKey(b));
      Compare3Flips(SelectorKey(a), SelectorKey(b));
    }
    CompareIsOrder(AliasRecordByEntryID, EntryKey);
    CompareIsOrder(AliasRecordBySelector, SelectorKey);
  }

  lemma AgentOrder()
    ensures Order(AgentRecordByExpiresAt)
    ensures forall a, b :: SameKey(AgentRecordByExpiresAt, a, b) <==> a.id == b.id && a.expiresAt == b.expiresAt
  {
    forall a: AgentRecord, b: AgentRecord
      ensures Lex.Compare(b.id, a.id) == -Lex.Compare(a.id, b.id)
    {
      Lex.CompareFlips(a.id, b.id);
    }
    forall a, b, c | AgentRecordByExpiresAt(a, b) && AgentRecordByExpiresAt(b, c) ensures AgentRecordByExpiresAt(a, c) {
      if a.expiresAt == b.expiresAt == c.expiresAt {
        Lex.CompareTransitive(a.id, b.id, c.id);
      }
    }
    forall a, b, c | !AgentRecordByExpiresAt(a, b) && !AgentRecordByExpiresAt(b, c)
        ensures !AgentRecordByExpiresAt(a, c) {
      if a.expiresAt == b.expiresAt == c.expiresAt {
        Lex.CompareTransitive(c.id, b.id, a.id);
      }
    }
  }

  /** Tree updates, with what they do said in terms of the records' own keys. */
  function PutByEntryID(t: seq<AliasRecord>, r: AliasRecord): (t': seq<AliasRecord>)
    requires Sorted(AliasRecordByEntryID, t)
    ensures Sorted(AliasRecordByEntryID, t')
    ensures forall x :: x in t' <==> x == r || (x in t && !(x.entryID == r.entryID && x.selector == r.selector))
  {
    AliasOrders();
    ReplaceOrInsert(AliasRecordByEntryID, t, r)
  }

  function PutBySelector(t: seq<AliasRecord>, r: AliasRecord): (t': seq<AliasRecord>)
    requires Sorted(AliasRecordBySelector, t)
    ensures Sorted(AliasRecordBySelector, t')
    ensures forall x :: x in t' <==> x == r || (x in t && !(x.entryID == r.entryID && x.selector == r.selector))
  {
    AliasOrders();
    ReplaceOrInsert(AliasRecordBySelector, t, r)
  }

  function DropByEntryID(t: seq<AliasRecord>, r: AliasRecord): (t': seq<AliasRecord>)
    requires Sorted(AliasRecordByEntryID, t)
    ensures Sorted(AliasRecordByEntryID, t')
    ensures forall x :: x in t' <==> x in t && !(x.entryID == r.entryID && x.selector == r.selector)
  {
    AliasOrders();
    Delete(AliasRecordByEntryID, t, r)
  }

  function DropBySelector(t: seq<AliasRecord>, r: AliasRecord): (t': seq<AliasRecord>)
    requires Sorted(AliasRecordBySelector, t)
    ensures Sorted(AliasRecordBySelector, t')
    ensures forall x :: x in t' <==> x in t && !(x.entryID == r.entryID && x.selector == r.selector)
  {
    AliasOrders();
    Delete(AliasRecordBySelector, t, r)
  }

  function PutAgent(t: seq<AgentRecord>, r: AgentRecord): (t': seq<AgentRecord>)
    requires Sorted(AgentRecordByExpiresAt, t)
    ensures Sorted(AgentRecordByExpiresAt, t')
    ensures forall x :: x in t' <==> x == r || (x in t && !(x.id == r.id && x.expiresAt == r.expiresAt))
  {
    AgentOrder();
    ReplaceOrInsert(AgentRecordByExpiresAt, t, r)
  }

  function DropAgent(t: seq<AgentRecord>, r: AgentRecord): (t': seq<AgentRecord>)
    requires Sorted(AgentRecordByExpiresAt, t)
    ensures Sorted(AgentRecordByExpiresAt, t')
    ensures forall x :: x in t' <==> x in t && !(x.id == r.id && x.expiresAt == r.expiresAt)
  {
    AgentOrder();
    Delete(AgentRecordByExpiresAt, t, r)
  }

  /** The pivots of the two range scans: all other fields are empty. */
  function EntryPivot(entryID: string): AliasRecord {
    AliasRecord(entryID, "", Selector("", ""), {})
  }

  function SelectorPivot(s: Selector): AliasRecord {
    AliasRecord("", "", s, {})
  }

  /** No record precedes the pivot of its own range, and a record between the pivot and the range is in it. */
  lemma EntryPivotStarts(p: AliasRecord, r: AliasRecord)
    ensures !AliasRecordByEntryID(r, EntryPivot(r.entryID))
    ensures !AliasRecordByEntryID(p, EntryPivot(r.entryID)) && AliasRecordByEntryID(p, r) ==> p.entryID == r.entryID
  {
    Lex.CompareFlips(p.entryID, r.entryID);
  }

  lemma SelectorPivotStarts(p: AliasRecord, r: AliasRecord)
    ensures !AliasRecordBySelector(r, SelectorPivot(r.selector))
    ensures !AliasRecordBySelector(p, SelectorPivot(r.selector)) && AliasRecordBySelector(p, r) ==>
            p.selector == r.selector
  {
    Lex.CompareFlips(p.selector.kind, r.selector.kind);
    Lex.CompareFlips(p.selector.value, r.selector.value);
  }

  lemma NotBelowEntryPivot(t: seq<AliasRecord>, entryID: string, lo: nat, k: nat)
    requires Sorted(AliasRecordByEntryID, t) && IsLowerBound(AliasRecordByEntryID, t, EntryPivot(entryID), lo)
    requires lo <= k < |t|
    ensures !AliasRecordByEntryID(t[k], EntryPivot(entryID))
  {
    AliasOrders();
    NotBelow(AliasRecordByEntryID, t, EntryPivot(entryID), lo, k);
  }

  lemma NotBelowSelectorPivot(t: seq<AliasRecord>, s: Selector, lo: nat, k: nat)
    requires Sorted(AliasRecordBySelector, t) && IsLowerBound(AliasRecordBySelector, t, SelectorPivot(s), lo)
    requires lo <= k < |t|
    ensures !AliasRecordBySelector(t[k], SelectorPivot(s))
  {
    AliasOrders();
    NotBelow(AliasRecordBySelector, t, SelectorPivot(s), lo, k);
  }

  /** The records of one entry are contiguous in the entry order, starting at its pivot: a scan that stops at `k`,
      outside the range, has passed every record `j` of it. */
  lemma EntryRange(t: seq<AliasRecord>, entryID: string, lo: nat, k: nat, j: nat)
    requires Sorted(AliasRecordByEntryID, t) && IsLowerBound(AliasRecordByEntryID, t, EntryPivot(entryID), lo)
    requires lo <= k <= |t| && (k < |t| ==> t[k].entryID != entryID)
    requires j < |t| && t[j].entryID == entryID
    ensures lo <= j < k
  {
    if k < j {
      NotBelowEntryPivot(t, entryID, lo, k);
      SortedAt(AliasRecordByEntryID, t, k, j);
      EntryPivotStarts(t[k], t[j]);
    } else {
      EntryPivotStarts(t[j], t[j]);
    }
  }

  /** The records of one selector are contiguous in the selector order, starting at its pivot. */
  lemma SelectorRange(t: seq<AliasRecord>, s: Selector, lo: nat, k: nat, j: nat)
    requires Sorted(AliasRecordBySelector, t) && IsLowerBound(AliasRecordBySelector, t, SelectorPivot(s), lo)
    requires lo <= k <= |t| && (k < |t| ==> t[k].selector != s)
    requires j < |t| && t[j].selector == s
    ensures lo <= j < k
  {
    if k < j {
      NotBelowSelectorPivot(t, s, lo, k);
      SortedAt(AliasRecordBySelector, t, k, j);
      SelectorPivotStarts(t[k], t[j]);
    } else {
      SelectorPivotStarts(t[j], t[j]);
    }
  }
}
