/** The listing of registration entries that a load reads, page by page. */
module Listings {
  import opened Types
  import opened Collections

  /** A registration entry as the datastore holds it; one that does not convert is malformed. */
  datatype Stored = WellFormed(e: Entry) | Malformed

  predicate InDomain(e: Entry, trustDomain: string) {
    e.parentId.trustDomain == trustDomain && e.spiffeId.trustDomain == trustDomain
  }

  /** What a fresh load caches for a row. */
  function Image(row: Option<Stored>, trustDomain: string): Option<Entry> {
    if row.Some? && row.value.WellFormed? && InDomain(row.value.e, trustDomain) then Some(row.value.e) else None
  }

  /** A row of the table: its row ID, the entry's ID and the entry. */
  datatype TableRow = TableRow(id: nat, key: string, stored: Stored)

  function RowID(rows: seq<TableRow>, i: nat): nat
    requires i < |rows|
  {
    rows[i].id
  }

  function RowKey(rows: seq<TableRow>, i: nat): string
    requires i < |rows|
  {
    rows[i].key
  }

  predicate Table(rows: seq<TableRow>) {
    && (forall i, j :: 0 <= i < j < |rows| ==> RowID(rows, i) < RowID(rows, j))
    && (forall i, j :: 0 <= i < j < |rows| ==> RowKey(rows, i) != RowKey(rows, j))
  }

  /** Where the rows begin, from i on, that have this ID or above. */
  function Start(table: seq<TableRow>, read: nat, i: nat): (k: nat)
    requires i <= |table|
    ensures i <= k <= |table| && (forall j :: i <= j < k ==> RowID(table, j) < read) &&
            (k < |table| ==> RowID(table, k) >= read)
    decreases |table| - i
  {
    if i == |table| || RowID(table, i) >= read then i else Start(table, read, i + 1)
  }

  /** One page of a listing: its token is None where the source's is empty. */
  datatype Page = Page(rows: seq<TableRow>, token: Option<nat>)

  /** The page that begins at row k. */
  function PageAt(table: seq<TableRow>, k: nat, pageSize: nat): Page
    requires k <= |table|
  {
    var n := if |table| - k < pageSize then |table| - k else pageSize;
    Page(table[k..k + n], if n == 0 then None else Some(RowID(table, k + n - 1)))
  }

  /** listRegistrationEntriesOnce: the first rows after the token, and the last row's ID as the next token, if there is
      one. */
  function ListOnce(table: seq<TableRow>, read: nat, pageSize: nat): Page {
    PageAt(table, Start(table, read, 0), pageSize)
  }

  /** All pages but the last have a token. */
  predicate Chained(pages: seq<Page>) {
    forall i :: 0 <= i < |pages| - 1 ==> pages[i].token.Some?
  }

  /** The row ID a page begins at. */
  function ReadAt(pages: seq<Page>, i: nat): nat
    requires Chained(pages) && i < |pages|
  {
    if i == 0 then 0 else pages[i - 1].token.value + 1
  }

  /** Page i is what a listing of `table` from there on begins with. */
  predicate ListsPage(table: seq<TableRow>, pageSize: nat, pages: seq<Page>, i: nat)
    requires Chained(pages) && i < |pages|
  {
    pages[i] == ListOnce(table, ReadAt(pages, i), pageSize)
  }

  /** The pages a load receives when the table is `tables[i]` at its i-th request. */
  ghost predicate PagesOf(tables: seq<seq<TableRow>>, pageSize: nat, pages: seq<Page>) {
    && Chained(pages) && |pages| <= |tables|
    && forall i :: 0 <= i < |pages| ==> ListsPage(tables[i], pageSize, pages, i)
  }

  predicate Finished(pages: seq<Page>) {
    pages != [] && pages[|pages| - 1].token.None?
  }

  /** A row from k on is on the page, or behind it. */
  lemma OnPageOrBehind(table: seq<TableRow>, k: nat, pageSize: nat, j: nat)
    requires Table(table) && pageSize > 0 && k <= j < |table|
    ensures var page := PageAt(table, k, pageSize);
            page.token.Some? && (table[j] in page.rows || page.token.value < RowID(table, j))
  {
    var n := if |table| - k < pageSize then |table| - k else pageSize;
    var rows := table[k..k + n];
    if j < k + n {
      assert rows[j - k] == table[j];
    }
  }

  lemma ListedOrBehind(table: seq<TableRow>, read: nat, pageSize: nat, row: TableRow)
    requires Table(table) && pageSize > 0 && row in table && row.id >= read
    ensures var page := ListOnce(table, read, pageSize);
            page.token.Some? && (row in page.rows || page.token.value < row.id)
  {
    var j :| 0 <= j < |table| && table[j] == row;
    assert RowID(table, j) == row.id;
    OnPageOrBehind(table, Start(table, read, 0), pageSize, j);
  }

  lemma PageRows(table: seq<TableRow>, read: nat, pageSize: nat, page: Page)
    requires Table(table) && page == ListOnce(table, read, pageSize)
    ensures page.token.Some? ==> read <= page.token.value
    ensures forall i :: 0 <= i < |page.rows| ==>
            page.rows[i] in table && page.token.Some? && read <= page.rows[i].id <= page.token.value
  {
    var k := Start(table, read, 0);
    forall i | 0 <= i < |page.rows|
        ensures page.rows[i] in table && page.token.Some? && read <= page.rows[i].id <= page.token.value {
      assert page.rows[i] == table[k + i] && RowID(table, k + i) == page.rows[i].id;
      assert RowID(table, k) >= read && RowID(table, k + |page.rows| - 1) == page.token.value;
    }
  }

  lemma PageKeys(table: seq<TableRow>, k: nat, pageSize: nat)
    requires Table(table) && k <= |table|
    ensures DistinctKeys(PageAt(table, k, pageSize).rows)
  {
    var rows := PageAt(table, k, pageSize).rows;
    forall i, j | 0 <= i < j < |rows| ensures rows[i].key != rows[j].key {
      assert RowKey(table, k + i) != RowKey(table, k + j);
    }
  }

  /** A page holds exactly the rows from where it begins to its token; without a token there are none behind. */
  lemma PageExactly(table: seq<TableRow>, read: nat, pageSize: nat, page: Page)
    requires Table(table) && pageSize > 0 && page == ListOnce(table, read, pageSize)
    ensures page.token.Some? ==> read <= page.token.value
    ensures forall row :: row in page.rows <==>
            row in table && read <= row.id && page.token.Some? && row.id <= page.token.value
    ensures forall row :: row in table && page.token.None? ==> row.id < read
    ensures DistinctKeys(page.rows) && |page.rows| <= pageSize
    ensures |page.rows| < pageSize ==> forall row :: row in table && read <= row.id ==> row in page.rows
  {
    PageRows(table, read, pageSize, page);
    PageKeys(table, Start(table, read, 0), pageSize);
    forall row | row in table && read <= row.id
      ensures page.token.Some? && (row.id <= page.token.value ==> row in page.rows)
    {
      ListedOrBehind(table, read, pageSize, row);
    }
    if |page.rows| < pageSize {
      ShortPageIsLast(table, Start(table, read, 0), pageSize);
    }
  }

  /** A page that is not full has the last row. */
  lemma ShortPageIsLast(table: seq<TableRow>, k: nat, pageSize: nat)
    requires Table(table) && k <= |table| && |PageAt(table, k, pageSize).rows| < pageSize
    ensures var page := PageAt(table, k, pageSize);
            forall row :: row in table && page.token.Some? ==> row.id <= page.token.value
  {
    var page := PageAt(table, k, pageSize);
    forall row | row in table && page.token.Some? ensures row.id <= page.token.value {
      var j :| 0 <= j < |table| && table[j] == row;
      assert RowID(table, j) == row.id && RowID(table, |table| - 1) == page.token.value;
    }
  }

  predicate DistinctKeys(rows: seq<TableRow>) {
    forall i, j :: 0 <= i < j < |rows| ==> rows[i].key != rows[j].key
  }

  /** Whatever changes between the pages, a load that finishes has read every row that stays as it is. */
  lemma UntouchedRowsAreRead(tables: seq<seq<TableRow>>, pageSize: nat, pages: seq<Page>, row: TableRow)
    requires pageSize > 0 && (forall i :: 0 <= i < |tables| ==> Table(tables[i]) && row in tables[i])
    requires PagesOf(tables, pageSize, pages) && Finished(pages)
    ensures exists i :: 0 <= i < |pages| && row in pages[i].rows
  {
    ReadOrBehind(tables, pageSize, pages, row, |pages| - 1);
  }

  /** From the first page to page i, the row has been read or lies behind. */
  lemma {:induction false} ReadOrBehind(tables: seq<seq<TableRow>>, pageSize: nat, pages: seq<Page>, row: TableRow,
                                        i: nat)
    requires pageSize > 0 && (forall j :: 0 <= j < |tables| ==> Table(tables[j]) && row in tables[j])
    requires PagesOf(tables, pageSize, pages) && i < |pages|
    ensures (exists j :: 0 <= j <= i && row in pages[j].rows) || (pages[i].token.Some? && pages[i].token.value < row.id)
  {
    if i > 0 {
      ReadOrBehind(tables, pageSize, pages, row, i - 1);
    }
    if i == 0 || !exists j :: 0 <= j < i && row in pages[j].rows {
      assert ListsPage(tables[i], pageSize, pages, i);
      ListedOrBehind(tables[i], ReadAt(pages, i), pageSize, row);
    }
  }

  /** The rows with this ID or above begin at k. */
  predicate StartsAt(table: seq<TableRow>, read: nat, k: nat) {
    k <= |table| && (forall j :: 0 <= j < k ==> RowID(table, j) < read) && (k < |table| ==> RowID(table, k) >= read)
  }

  lemma ListsAt(table: seq<TableRow>, read: nat, k: nat, pageSize: nat)
    requires Table(table) && StartsAt(table, read, k)
    ensures ListOnce(table, read, pageSize) == PageAt(table, k, pageSize)
  {
    var start := Start(table, read, 0);
    assert start < |table| ==> RowID(table, start) >= read;
  }

  /** What is behind the page that begins at k begins where that page ends. */
  lemma NextStart(table: seq<TableRow>, k: nat, pageSize: nat)
    requires Table(table) && k <= |table| && PageAt(table, k, pageSize).token.Some?
    ensures var page := PageAt(table, k, pageSize);
            |page.rows| > 0 && StartsAt(table, page.token.value + 1, k + |page.rows|)
  {
    var page := PageAt(table, k, pageSize);
    assert RowID(table, k + |page.rows| - 1) == page.token.value;
  }

  function AllRows(pages: seq<Page>): seq<TableRow> {
    if pages == [] then [] else pages[0].rows + AllRows(pages[1..])
  }

  /** The pages of a table that does not change, from row k on. */
  function PagesFrom(table: seq<TableRow>, k: nat, pageSize: nat): seq<Page>
    requires k <= |table| && pageSize > 0
    decreases |table| - k
  {
    var page := PageAt(table, k, pageSize);
    if page.token.None? then [page] else [page] + PagesFrom(table, k + |page.rows|, pageSize)
  }

  /** All pages are within the page size, and only the last one, which is empty, has no token. */
  predicate WellPaged(pages: seq<Page>, pageSize: nat) {
    && Finished(pages) && pages[|pages| - 1].rows == []
    && (forall i :: 0 <= i < |pages| ==> |pages[i].rows| <= pageSize && (pages[i].token.None? <==> i == |pages| - 1))
  }

  lemma WellPagedOneMore(page: Page, rest: seq<Page>, pageSize: nat)
    requires WellPaged(rest, pageSize) && page.token.Some? && |page.rows| <= pageSize
    ensures WellPaged([page] + rest, pageSize)
  {
    forall i | 0 < i <= |rest| ensures ([page] + rest)[i] == rest[i - 1] {
    }
  }

  lemma MoreRows(table: seq<TableRow>, k: nat, m: nat, page: Page, rest: seq<Page>)
    requires k <= m <= |table| && page.rows == table[k..m] && AllRows(rest) == table[m..]
    ensures AllRows([page] + rest) == table[k..]
  {
    assert ([page] + rest)[1..] == rest;
    assert table[k..] == table[k..m] + table[m..];
  }

  lemma LastPageOnly(table: seq<TableRow>, k: nat, pageSize: nat)
    requires k <= |table| && pageSize > 0 && PageAt(table, k, pageSize).token.None?
    ensures var pages := [PageAt(table, k, pageSize)]; WellPaged(pages, pageSize) && AllRows(pages) == table[k..]
  {
    var page := PageAt(table, k, pageSize);
    assert [page][1..] == [] && table[k..] == [];
  }

  lemma MorePages(table: seq<TableRow>, k: nat, pageSize: nat, page: Page, rest: seq<Page>)
    requires k <= |table| && page == PageAt(table, k, pageSize) && page.token.Some?
    requires WellPaged(rest, pageSize) && AllRows(rest) == table[k + |page.rows|..]
    ensures WellPaged([page] + rest, pageSize) && AllRows([page] + rest) == table[k..]
  {
    WellPagedOneMore(page, rest, pageSize);
    MoreRows(table, k, k + |page.rows|, page, rest);
  }

  /** However an unchanging table is cut into pages, they are its rows in order: the load loses nothing by dropping the
      page that ends it. */
  lemma {:induction false} PagesAreComplete(table: seq<TableRow>, k: nat, pageSize: nat, pages: seq<Page>)
    requires k <= |table| && pageSize > 0 && pages == PagesFrom(table, k, pageSize)
    ensures WellPaged(pages, pageSize) && AllRows(pages) == table[k..]
    decreases |table| - k
  {
    var page := PageAt(table, k, pageSize);
    if page.token.None? {
      LastPageOnly(table, k, pageSize);
    } else {
      var rest := PagesFrom(table, k + |page.rows|, pageSize);
      PagesAreComplete(table, k + |page.rows|, pageSize, rest);
      MorePages(table, k, pageSize, page, rest);
    }
  }

  /** They are the pages a load receives. */
  lemma {:induction false} PagesAreListed(table: seq<TableRow>, k: nat, pageSize: nat, pages: seq<Page>, i: nat)
    requires Table(table) && pageSize > 0 && WellPaged(pages, pageSize) && i <= |pages| &&
             AtPage(table, pageSize, pages, i, k)
    ensures forall j :: i <= j < |pages| ==> ListsPage(table, pageSize, pages, j)
    decreases |pages| - i
  {
    if i < |pages| {
      PageIsListed(table, k, pageSize, pages, i);
      if i + 1 < |pages| {
        PagesAreListed(table, k + |pages[i].rows|, pageSize, pages, i + 1);
      }
    }
  }

  lemma PageIsListed(table: seq<TableRow>, k: nat, pageSize: nat, pages: seq<Page>, i: nat)
    requires Table(table) && pageSize > 0 && WellPaged(pages, pageSize) && i < |pages| &&
             AtPage(table, pageSize, pages, i, k)
    ensures ListsPage(table, pageSize, pages, i)
    ensures i + 1 < |pages| ==> AtPage(table, pageSize, pages, i + 1, k + |pages[i].rows|)
  {
    ListsAt(table, ReadAt(pages, i), k, pageSize);
    assert pages[i..][0] == pages[i] && pages[i..][1..] == pages[i + 1..];
    if i + 1 < |pages| {
      NextStart(table, k, pageSize);
    }
  }

  /** Page i begins at row k of the table, and the pages from there on are the table's. */
  predicate AtPage(table: seq<TableRow>, pageSize: nat, pages: seq<Page>, i: nat, k: nat)
    requires pageSize > 0 && Chained(pages) && i <= |pages|
  {
    i < |pages| ==> k <= |table| && StartsAt(table, ReadAt(pages, i), k) && pages[i..] == PagesFrom(table, k, pageSize)
  }

  /** The entries of listed rows, the last listing of an ID winning; None if a row does not convert. */
  function LoadRows(entries: map<string, Entry>, rows: seq<TableRow>, trustDomain: string): Option<map<string, Entry>>
    decreases |rows|
  {
    if rows == [] then Some(entries)
    else if rows[0].stored.Malformed? then None
    else LoadRows(if InDomain(rows[0].stored.e, trustDomain) then entries[rows[0].key := rows[0].stored.e]
        else entries, rows[1..], trustDomain)
  }

  /** A load of distinct rows caches each row's image, and leaves alone the IDs of other rows, also those outside the
      trust domain. */
  lemma {:induction false} LoadRowsIsImage(entries: map<string, Entry>, rows: seq<TableRow>, trustDomain: string,
                                           k: string)
    requires DistinctKeys(rows)
    requires LoadRows(entries, rows, trustDomain).Some?
    ensures forall i :: 0 <= i < |rows| && rows[i].key == k && Image(Some(rows[i].stored), trustDomain).Some? ==>
                          Lookup(LoadRows(entries, rows, trustDomain).value, k) ==
                              Image(Some(rows[i].stored), trustDomain)
    ensures forall i :: 0 <= i < |rows| && rows[i].key == k && Image(Some(rows[i].stored), trustDomain).None? ==>
                          Lookup(LoadRows(entries, rows, trustDomain).value, k) == Lookup(entries, k)
    ensures (forall i :: 0 <= i < |rows| ==> rows[i].key != k) ==>
            Lookup(LoadRows(entries, rows, trustDomain).value, k) == Lookup(entries, k)
    decreases |rows|
  {
    if rows != [] {
      var next := if InDomain(rows[0].stored.e, trustDomain) then entries[rows[0].key := rows[0].stored.e] else entries;
      forall i | 0 <= i < |rows[1..]| ensures rows[1..][i] == rows[i + 1] {
      }
      LoadRowsIsImage(next, rows[1..], trustDomain, k);
    }
  }

  predicate Keyed(rows: seq<TableRow>) {
    forall i :: 0 <= i < |rows| && rows[i].stored.WellFormed? ==> rows[i].stored.e.id == rows[i].key
  }

  function LoadPages(entries: map<string, Entry>, pages: seq<Option<Page>>,
                     trustDomain: string): Option<map<string, Entry>>
    decreases |pages|
  {
    if pages == [] || pages[0].None? then None
    else if pages[0].value.token.None? then Some(entries)
    else
      var next := LoadRows(entries, pages[0].value.rows, trustDomain);
      if next.None? then None else LoadPages(next.value, pages[1..], trustDomain)
  }

  lemma {:induction false} MalformedFails(entries: map<string, Entry>, rows: seq<TableRow>, trustDomain: string)
    requires exists r :: r in rows && r.stored.Malformed?
    ensures LoadRows(entries, rows, trustDomain).None?
    decreases |rows|
  {
    if rows[0].stored.WellFormed? {
      assert rows == [rows[0]] + rows[1..];
      MalformedFails(if InDomain(rows[0].stored.e, trustDomain) then entries[rows[0].key := rows[0].stored.e]
          else entries, rows[1..], trustDomain);
    }
  }

  lemma {:induction false} WellFormedLoads(entries: map<string, Entry>, rows: seq<TableRow>, trustDomain: string)
    ensures LoadRows(entries, rows, trustDomain).Some? <==> forall r :: r in rows ==> r.stored.WellFormed?
    decreases |rows|
  {
    if rows != [] {
      assert rows == [rows[0]] + rows[1..];
      if rows[0].stored.WellFormed? {
        WellFormedLoads(if InDomain(rows[0].stored.e, trustDomain) then entries[rows[0].key := rows[0].stored.e]
            else entries, rows[1..], trustDomain);
      }
    }
  }

  /** Page n is the first without a token, and it and all before it were answered. */
  predicate EndsAt(pages: seq<Option<Page>>, n: nat) {
    && n < |pages| && pages[n].Some? && pages[n].value.token.None?
    && forall i :: 0 <= i < n ==> pages[i].Some? && pages[i].value.token.Some?
  }

  /** The rows of the first n pages. */
  function RowsOf(pages: seq<Option<Page>>, n: nat): seq<TableRow>
    requires n <= |pages| && forall i :: 0 <= i < n ==> pages[i].Some?
  {
    if n == 0 then [] else pages[0].value.rows + RowsOf(pages[1..], n - 1)
  }

  lemma {:induction false} RowsConcat(entries: map<string, Entry>, a: seq<TableRow>, b: seq<TableRow>,
                                      trustDomain: string)
    ensures LoadRows(entries, a + b, trustDomain) ==
            var sofar := LoadRows(entries, a, trustDomain);
            if sofar.None? then None else LoadRows(sofar.value, b, trustDomain)
    decreases |a|
  {
    if a == [] {
      assert a + b == b;
    } else {
      assert (a + b)[0] == a[0] && (a + b)[1..] == a[1..] + b;
      if a[0].stored.WellFormed? {
        RowsConcat(if InDomain(a[0].stored.e, trustDomain) then entries[a[0].key := a[0].stored.e] else entries,
                   a[1..], b, trustDomain);
      }
    }
  }

  /** A load is one of the rows of all pages before the first without a token. */
  lemma {:induction false} LoadPagesIsLoadRows(entries: map<string, Entry>, pages: seq<Option<Page>>, n: nat,
                                               trustDomain: string)
    requires EndsAt(pages, n)
    ensures LoadPages(entries, pages, trustDomain) == LoadRows(entries, RowsOf(pages, n), trustDomain)
    decreases n
  {
    if n > 0 {
      var rows := pages[0].value.rows;
      RowsConcat(entries, rows, RowsOf(pages[1..], n - 1), trustDomain);
      var next := LoadRows(entries, rows, trustDomain);
      if next.Some? {
        LoadPagesIsLoadRows(next.value, pages[1..], n - 1, trustDomain);
      }
    }
  }

  lemma {:induction false} LoadEnds(entries: map<string, Entry>, pages: seq<Option<Page>>, trustDomain: string)
      returns (n: nat)
    requires LoadPages(entries, pages, trustDomain).Some?
    ensures EndsAt(pages, n)
    decreases |pages|
  {
    n := 0;
    if pages[0].value.token.Some? {
      n := LoadEnds(LoadRows(entries, pages[0].value.rows, trustDomain).value, pages[1..], trustDomain);
      n := n + 1;
    }
  }

  /** It succeeds if and only if every page up to such a one was answered and the pages before it hold no malformed
      row. */
  lemma LoadsExactly(entries: map<string, Entry>, pages: seq<Option<Page>>, trustDomain: string)
    ensures LoadPages(entries, pages, trustDomain).Some? <==>
            exists n: nat :: EndsAt(pages, n) && forall r :: r in RowsOf(pages, n) ==> r.stored.WellFormed?
  {
    if LoadPages(entries, pages, trustDomain).Some? {
      var n := LoadEnds(entries, pages, trustDomain);
      LoadPagesIsLoadRows(entries, pages, n, trustDomain);
      WellFormedLoads(entries, RowsOf(pages, n), trustDomain);
    }
    if n: nat :| EndsAt(pages, n) && forall r :: r in RowsOf(pages, n) ==> r.stored.WellFormed? {
      LoadPagesIsLoadRows(entries, pages, n, trustDomain);
      WellFormedLoads(entries, RowsOf(pages, n), trustDomain);
    }
  }
}
