/** The server's end of the sync stream. */
module SyncServer {
  import opened Types
  import opened EntrySync
  import Lex

  function RevisionOf(e: Entry): Revision {
    Revision(e.id, e.revision, e.createdAt)
  }

  function RevisionsOf(entries: seq<Entry>): (rs: seq<Revision>)
    ensures |rs| == |entries| && forall i :: 0 <= i < |rs| ==> rs[i] == RevisionOf(entries[i])
  {
    seq(|entries|, i requires 0 <= i < |entries| => RevisionOf(entries[i]))
  }

  /** The revision pages: all full except the last. */
  function RevisionPages(entries: seq<Entry>, pageSize: nat): seq<Response>
    requires pageSize > 0
    decreases |entries|
  {
    if |entries| <= pageSize then [Response([], RevisionsOf(entries), false)]
    else [Response([], RevisionsOf(entries[..pageSize]), true)] + RevisionPages(entries[pageSize..], pageSize)
  }

  /** Every page but the last is full and announces more; the last one does not. */
  lemma {:induction false} RevisionPagesAreFull(entries: seq<Entry>, pageSize: nat, i: nat)
    requires pageSize > 0 && i < |RevisionPages(entries, pageSize)|
    ensures var pages := RevisionPages(entries, pageSize);
            && (pages[i].more <==> i < |pages| - 1) && |pages[i].revisions| <= pageSize
            && (i < |pages| - 1 ==> |pages[i].revisions| == pageSize)
            && (entries != [] ==> pages[i].revisions != [])
    decreases |entries|
  {
    if i > 0 {
      RevisionPagesAreFull(entries[pageSize..], pageSize, i - 1);
    }
  }

  /** A list that fits in one page is sent in full; a longer one as revisions. */
  function Initial(entries: seq<Entry>, pageSize: nat): seq<Response>
    requires pageSize > 0
  {
    if |entries| <= pageSize then [Response(entries, [], false)] else RevisionPages(entries, pageSize)
  }

  /** Everything sent before the first request for full entries. */
  method SendRevisions(entries: seq<Entry>, pageSize: nat) returns (sent: seq<Response>)
    requires pageSize > 0
    ensures sent == Initial(entries, pageSize)
  {
    if |entries| <= pageSize {
      return [Response(entries, [], false)];
    }
    sent := [];
    var i := 0;
    while i < |entries|
      invariant RevisionsSent(entries, pageSize, sent, i)
    {
      var n := |entries| - i;
      var more := false;
      if n > pageSize {
        n, more := pageSize, true;
      }
      NextRevisions(entries, pageSize, sent, i, n, more);
      sent := sent + [Response([], RevisionsOf(entries[i..i + n]), more)];
      i := i + n;
    }
  }

  /** The pages sent so far, with those of the entries from i on, are all the pages. */
  ghost predicate RevisionsSent(entries: seq<Entry>, pageSize: nat, sent: seq<Response>, i: nat)
    requires pageSize > 0
  {
    && i <= |entries|
    && RevisionPages(entries, pageSize) == if i == |entries| then sent else sent + RevisionPages(entries[i..], pageSize)
  }

  lemma NextRevisions(entries: seq<Entry>, pageSize: nat, sent: seq<Response>, i: nat, n: nat, more: bool)
    requires pageSize > 0 && i < |entries| && RevisionsSent(entries, pageSize, sent, i)
    requires if |entries| - i > pageSize then n == pageSize && more else n == |entries| - i && !more
    ensures RevisionsSent(entries, pageSize, sent + [Response([], RevisionsOf(entries[i..i + n]), more)], i + n)
  {
    var rest, page := entries[i..], Response([], RevisionsOf(entries[i..i + n]), more);
    assert rest[..n] == entries[i..i + n] && rest[n..] == entries[i + n..];
    if more {
      assert sent + ([page] + RevisionPages(rest[n..], pageSize)) == sent + [page] + RevisionPages(rest[n..], pageSize);
    } else {
      assert rest[..n] == rest;
    }
  }

  /** The pages of an answer: full ones announce that there is more. */
  function Paged(es: seq<Entry>, pageSize: nat): seq<Response>
    requires pageSize > 0
    decreases |es|
  {
    if |es| <= pageSize then [Response(es, [], false)]
    else [Response(es[..pageSize], [], true)] + Paged(es[pageSize..], pageSize)
  }

  lemma {:induction false} PagesAreFull(es: seq<Entry>, pageSize: nat, i: nat)
    requires pageSize > 0 && i < |Paged(es, pageSize)|
    ensures var pages := Paged(es, pageSize);
            && (pages[i].more <==> i < |pages| - 1) && |pages[i].entries| <= pageSize
            && (i < |pages| - 1 ==> |pages[i].entries| == pageSize)
            && (es != [] ==> pages[i].entries != [])
    decreases |es|
  {
    if i > 0 {
      PagesAreFull(es[pageSize..], pageSize, i - 1);
    }
  }

  predicate SortedByID(entries: seq<Entry>) {
    forall i, j :: 0 <= i < j < |entries| ==> Lex.Less(entries[i].id, entries[j].id)
  }

  /** sort.Find: the first entry whose ID does not precede `id`. */
  function Find(entries: seq<Entry>, id: string): (i: nat)
    ensures i <= |entries|
    ensures forall j :: 0 <= j < i ==> Lex.Less(entries[j].id, id)
    ensures i < |entries| ==> !Lex.Less(entries[i].id, id)
  {
    if entries == [] || !Lex.Less(entries[0].id, id) then 0 else 1 + Find(entries[1..], id)
  }

  /** The entry with this ID, if there is one. */
  function WithID(entries: seq<Entry>, id: string): seq<Entry> {
    var i := Find(entries, id);
    if i < |entries| && entries[i].id == id then [entries[i]] else []
  }

  function Matches(entries: seq<Entry>, ids: seq<string>): seq<Entry> {
    if ids == [] then [] else WithID(entries, ids[0]) + Matches(entries, ids[1..])
  }

  /** Searching only behind the last hit finds the same, because the requested IDs ascend. */
  lemma NarrowedFind(entries: seq<Entry>, from: nat, id: string)
    requires SortedByID(entries) && from <= |entries| && forall j :: 0 <= j < from ==> Lex.Less(entries[j].id, id)
    ensures Find(entries, id) == from + Find(entries[from..], id)
    ensures WithID(entries, id) == WithID(entries[from..], id)
  {
    assert forall j :: 0 <= j < |entries| - from ==> entries[from..][j] == entries[from + j];
    var i, k := Find(entries, id), Find(entries[from..], id);
    assert i >= from;
    assert i <= from + k;
  }

  /** Adds a hit to the page being filled, shipping it first when it is full. */
  method AddHit(sent: seq<Response>, page: seq<Entry>, e: Entry, pageSize: nat, ghost shipped: seq<Entry>)
    returns (sent': seq<Response>, page': seq<Entry>, ghost shipped': seq<Entry>)
    requires pageSize > 0 && FullPages(sent, shipped, pageSize) && |page| <= pageSize
    ensures FullPages(sent', shipped', pageSize) && 0 < |page'| <= pageSize && shipped' + page' == shipped + page + [e]
  {
    sent', page', shipped' := sent, page, shipped;
    if |page| == pageSize {
      FullPagesAppend(sent, shipped, page, pageSize);
      sent', page', shipped' := sent + [Response(page, [], true)], [], shipped + page;
    }
    page' := page' + [e];
  }

  /** The state of the search loop: the hits so far are in full pages already shipped and the page being filled. */
  ghost predicate Answering(entries: seq<Entry>, ids: seq<string>, i: nat, from: nat,
                            sent: seq<Response>, page: seq<Entry>, shipped: seq<Entry>, pageSize: nat) {
    && i <= |ids| && from <= |entries| && FoundSoFar(entries, ids, i, shipped + page)
    && (i < |ids| ==> forall j :: 0 <= j < from ==> Lex.Less(entries[j].id, ids[i]))
    && FullPages(sent, shipped, pageSize) && |page| <= pageSize && (sent != [] ==> page != [])
  }

  /** Looks up one requested ID behind the last hit. */
  method SearchOne(entries: seq<Entry>, ids: seq<string>, i: nat, from: nat,
                   sent: seq<Response>, page: seq<Entry>, pageSize: nat, ghost shipped: seq<Entry>)
    returns (from': nat, sent': seq<Response>, page': seq<Entry>, ghost shipped': seq<Entry>)
    requires pageSize > 0 && SortedByID(entries) && Lex.Ascending(ids) && i < |ids|
    requires Answering(entries, ids, i, from, sent, page, shipped, pageSize)
    ensures Answering(entries, ids, i + 1, from', sent', page', shipped', pageSize)
  {
    sent', page', shipped' := sent, page, shipped;
    var rest := entries[from..];
    var k := Find(rest, ids[i]);
    NarrowedFind(entries, from, ids[i]);
    MatchesStep(entries, ids, i, shipped + page);
    if k < |rest| && rest[k].id == ids[i] {
      sent', page', shipped' := AddHit(sent, page, rest[k], pageSize, shipped);
    }
    from' := from + k;
    if i + 1 < |ids| {
      StillBelow(entries, from', ids[i], ids[i + 1]);
    }
  }

  /** Answers one request for full entries: both lists are sorted, so each search starts where the last one ended. */
  method AnswerRequest(entries: seq<Entry>, requested: seq<string>, pageSize: nat) returns (sent: seq<Response>)
    requires pageSize > 0 && SortedByID(entries)
    ensures sent == Paged(Matches(entries, Lex.Sort(requested)), pageSize)
  {
    sent := AnswerSorted(entries, Lex.Sort(requested), pageSize);
  }

  method AnswerSorted(entries: seq<Entry>, ids: seq<string>, pageSize: nat) returns (sent: seq<Response>)
    requires pageSize > 0 && SortedByID(entries) && Lex.Ascending(ids)
    ensures sent == Paged(Matches(entries, ids), pageSize)
  {
    sent := [];
    var page: seq<Entry> := [];
    ghost var shipped: seq<Entry> := [];
    var from: nat, i: nat := 0, 0;
    assert ids[0..] == ids;
    while i < |ids|
      invariant Answering(entries, ids, i, from, sent, page, shipped, pageSize)
    {
      from, sent, page, shipped := SearchOne(entries, ids, i, from, sent, page, pageSize, shipped);
      i := i + 1;
      if from == |entries| {
        if i < |ids| { NothingAbove(entries, ids[i..]); }
        break;
      }
    }
    AllAnswered(entries, ids, i, sent, page, shipped, pageSize);
    sent := sent + [Response(page, [], false)];
  }

  lemma AllAnswered(entries: seq<Entry>, ids: seq<string>, i: nat, sent: seq<Response>, page: seq<Entry>,
                    shipped: seq<Entry>, pageSize: nat)
    requires pageSize > 0 && i <= |ids| && FoundSoFar(entries, ids, i, shipped + page) &&
             Matches(entries, ids[i..]) == []
    requires FullPages(sent, shipped, pageSize) && |page| <= pageSize && (sent != [] ==> page != [])
    ensures sent + [Response(page, [], false)] == Paged(Matches(entries, ids), pageSize)
  {
    FoundAll(entries, ids, i, shipped + page);
    LastPage(sent, shipped, page, pageSize);
  }

  /** `found` are the hits of the first `i` requested IDs. */
  predicate FoundSoFar(entries: seq<Entry>, ids: seq<string>, i: nat, found: seq<Entry>)
    requires i <= |ids|
  {
    found + Matches(entries, ids[i..]) == Matches(entries, ids)
  }

  lemma MatchesStep(entries: seq<Entry>, ids: seq<string>, i: nat, found: seq<Entry>)
    requires i < |ids| && FoundSoFar(entries, ids, i, found)
    ensures WithID(entries, ids[i]) != [] ==> FoundSoFar(entries, ids, i + 1, found + [WithID(entries, ids[i])[0]])
    ensures WithID(entries, ids[i]) == [] ==> FoundSoFar(entries, ids, i + 1, found)
  {
    assert ids[i..][1..] == ids[i + 1..];
    var hit, rest := WithID(entries, ids[i]), Matches(entries, ids[i + 1..]);
    assert found + (hit + rest) == (found + hit) + rest;
  }

  lemma FoundAll(entries: seq<Entry>, ids: seq<string>, i: nat, found: seq<Entry>)
    requires i <= |ids| && FoundSoFar(entries, ids, i, found) && Matches(entries, ids[i..]) == []
    ensures found == Matches(entries, ids)
  {
  }

  /** `sent` are pages of exactly the page size, each announcing more, holding `es`. */
  predicate FullPages(sent: seq<Response>, es: seq<Entry>, pageSize: nat)
    decreases |sent|
  {
    if sent == [] then es == []
    else
      && |es| >= pageSize && sent[0] == Response(es[..pageSize], [], true)
      && FullPages(sent[1..], es[pageSize..], pageSize)
  }

  lemma {:induction false} FullPagesAppend(sent: seq<Response>, es: seq<Entry>, page: seq<Entry>, pageSize: nat)
    requires FullPages(sent, es, pageSize) && |page| == pageSize
    ensures FullPages(sent + [Response(page, [], true)], es + page, pageSize)
    decreases |sent|
  {
    var more := sent + [Response(page, [], true)];
    if sent == [] {
      assert es + page == page && page[..pageSize] == page && page[pageSize..] == [] && more[1..] == [];
    } else {
      assert more[0] == sent[0] && more[1..] == sent[1..] + [Response(page, [], true)];
      assert (es + page)[..pageSize] == es[..pageSize] && (es + page)[pageSize..] == es[pageSize..] + page;
      FullPagesAppend(sent[1..], es[pageSize..], page, pageSize);
    }
  }

  /** Full pages and a last one that is neither too large nor, after others, empty, are the paging of all they hold. */
  lemma {:induction false} LastPage(sent: seq<Response>, es: seq<Entry>, page: seq<Entry>, pageSize: nat)
    requires pageSize > 0 && FullPages(sent, es, pageSize) && |page| <= pageSize && (sent != [] ==> page != [])
    ensures sent + [Response(page, [], false)] == Paged(es + page, pageSize)
    decreases |sent|
  {
    if sent == [] {
      assert es + page == page;
    } else {
      assert (es + page)[..pageSize] == es[..pageSize] && (es + page)[pageSize..] == es[pageSize..] + page;
      LastPage(sent[1..], es[pageSize..], page, pageSize);
      assert sent + [Response(page, [], false)] == [sent[0]] + (sent[1..] + [Response(page, [], false)]);
    }
  }

  lemma StillBelow(entries: seq<Entry>, from: nat, id: string, next: string)
    requires from <= |entries| && Lex.Compare(id, next) <= 0
    requires forall j :: 0 <= j < from ==> Lex.Less(entries[j].id, id)
    ensures forall j :: 0 <= j < from ==> Lex.Less(entries[j].id, next)
  {
    forall j | 0 <= j < from ensures Lex.Less(entries[j].id, next) {
      Lex.CompareTransitive(entries[j].id, id, next);
    }
  }

  lemma {:induction false} NothingAbove(entries: seq<Entry>, ids: seq<string>)
    requires Lex.Ascending(ids) && ids != [] && forall j :: 0 <= j < |entries| ==> Lex.Less(entries[j].id, ids[0])
    ensures Matches(entries, ids) == []
  {
    if |ids| > 1 {
      StillBelow(entries, |entries|, ids[0], ids[1]);
      NothingAbove(entries, ids[1..]);
    } else {
      assert ids[1..] == [];
    }
  }
}
