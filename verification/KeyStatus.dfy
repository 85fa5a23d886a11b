/** The paged listing of key states (controller/channel.go:1596-1708). */
module KeyStatus {
  import opened Basics
  import opened MultiKey

  datatype Row = Row(index: int, view: KeyView, preview: string)

  datatype Listing = Listing(
    rows: seq<Row>, total: nat, page: int, pageSize: int, totalPages: int,
    enabled: nat, manuallyDisabled: nat, autoDisabled: nat)

  const DEFAULT_PAGE_SIZE := 50

  /** The first ten characters of a key. */
  function Preview(key: string): string {
    if |key| > 10 then key[..10] + "..." else key
  }

  function RowAt(keys: Keys, info: Info, i: nat): Row
    requires i < |keys|
  {
    Row(i, ViewOf(info, i), Preview(keys[i]))
  }

  /** One row for each of the first n keys, in key order. */
  function Rows(keys: Keys, info: Info, n: nat): (r: seq<Row>)
    requires n <= |keys|
    ensures |r| == n && forall i :: 0 <= i < n ==> r[i] == RowAt(keys, info, i)
  {
    if n == 0 then [] else Rows(keys, info, n - 1) + [RowAt(keys, info, n - 1)]
  }

  function AllRows(keys: Keys, info: Info): seq<Row> {
    Rows(keys, info, |keys|)
  }

  function WithStatus(rows: seq<Row>, wanted: Option<int>): (r: seq<Row>)
    ensures forall x :: x in r <==> x in rows && (wanted.Some? ==> x.view.status == wanted.value)
    ensures |r| <= |rows|
  {
    if rows == [] then []
    else
      var init, last := WithStatus(rows[..|rows| - 1], wanted), rows[|rows| - 1];
      if wanted.Some? && last.view.status != wanted.value then init else init + [last]
  }

  /** How many rows have a status. */
  function CountOf(rows: seq<Row>, status: int): nat {
    if rows == [] then 0
    else CountOf(rows[..|rows| - 1], status) + if rows[|rows| - 1].view.status == status then 1 else 0
  }

  lemma {:induction false} CountIsLength(rows: seq<Row>, status: int)
    ensures CountOf(rows, status) == |WithStatus(rows, Some(status))|
  {
    if rows == [] {
    } else {
      CountIsLength(rows[..|rows| - 1], status);
    }
  }

  function PageCount(n: nat, size: int): int
    requires size > 0
  {
    if n == 0 then 1 else (n + size - 1) / size
  }

  /** The rows of one page, numbered from one. */
  function Page(rows: seq<Row>, page: int, size: int): seq<Row>
    requires page >= 1 && size > 0
  {
    var start := (page - 1) * size;
    StartNonNegative(page, size);
    if start < |rows| then rows[start..if start + size > |rows| then |rows| else start + size] else []
  }

  lemma StartNonNegative(page: int, size: int)
    requires page >= 1 && size > 0
    ensures (page - 1) * size >= 0
  {
  }

  /** A row shows a key's own entries: its status, enabled if there is none, and the time and reason of a key
      that is not enabled, empty if there are none. */
  ghost predicate Shows(row: Row, keys: Keys, info: Info, i: nat)
    requires i < |keys|
  {
    && row.index == i && row.preview == (if |keys[i]| <= 10 then keys[i] else keys[i][..10] + "...")
    && (i in info.status ==> row.view.status == info.status[i])
    && (i !in info.status ==> row.view.status == 1)
    && (row.view.status == 1 ==> row.view.time == 0 && row.view.reason == "")
    && (row.view.status != 1 ==> row.view.time == if i in info.time then info.time[i] else 0)
    && (row.view.status != 1 ==> row.view.reason == if i in info.reason then info.reason[i] else "")
  }

  lemma RowShows(keys: Keys, info: Info, i: nat)
    requires i < |keys|
    ensures Shows(AllRows(keys, info)[i], keys, info, i)
  {
  }

  /** The counts are those that the key actions use. */
  lemma {:induction false} CountsAgree(keys: Keys, info: Info, n: nat, status: int)
    requires n <= |keys|
    ensures CountOf(Rows(keys, info, n), status) == CountStatus(info, n, status)
  {
    if n == 0 {
    } else {
      CountsAgree(keys, info, n - 1, status);
      assert Rows(keys, info, n)[..n - 1] == Rows(keys, info, n - 1);
    }
  }

  /** Rows in the order of their keys. */
  ghost predicate InKeyOrder(rows: seq<Row>) {
    forall i, j :: 0 <= i < j < |rows| ==> rows[i].index < rows[j].index
  }

  /** Filtering keeps the order of the keys. */
  lemma {:induction false} FilterKeepsOrder(rows: seq<Row>, wanted: Option<int>)
    requires InKeyOrder(rows)
    ensures InKeyOrder(WithStatus(rows, wanted))
  {
    if rows == [] {
    } else {
      var init, last := rows[..|rows| - 1], rows[|rows| - 1];
      FilterKeepsOrder(init, wanted);
      var kept := WithStatus(init, wanted);
      forall i | 0 <= i < |kept| ensures kept[i].index < last.index {
        assert kept[i] in kept;
        var k :| 0 <= k < |init| && init[k] == kept[i];
        assert rows[k] == init[k];
      }
      LastInOrder(kept, last);
    }
  }

  lemma LastInOrder(rows: seq<Row>, last: Row)
    requires InKeyOrder(rows) && forall i :: 0 <= i < |rows| ==> rows[i].index < last.index
    ensures InKeyOrder(rows + [last])
  {
  }

  /** The loop that builds the rows and counts them by status. */
  method BuildRows(keys: Keys, info: Info) returns (all: seq<Row>, enabled: nat, manual: nat, auto: nat)
    ensures all == AllRows(keys, info)
    ensures forall i :: 0 <= i < |keys| ==> Shows(all[i], keys, info, i)
    ensures enabled == CountOf(all, 1) && manual == CountOf(all, 2) && auto == CountOf(all, 3)
  {
    all, enabled, manual, auto := [], 0, 0, 0;
    for i := 0 to |keys|
      invariant all == Rows(keys, info, i)
      invariant enabled == CountOf(all, ENABLED)
      invariant manual == CountOf(all, MANUALLY_DISABLED)
      invariant auto == CountOf(all, AUTO_DISABLED)
    {
      var row := Row(i, ViewOf(info, i), Preview(keys[i]));
      enabled, manual, auto := CountRow(all, row, enabled, manual, auto);
      all := all + [row];
    }
    forall i | 0 <= i < |keys| ensures Shows(all[i], keys, info, i) { RowShows(keys, info, i); }
  }

  method CountRow(ghost rows: seq<Row>, row: Row, enabled: nat, manual: nat, auto: nat)
    returns (enabled': nat, manual': nat, auto': nat)
    requires enabled == CountOf(rows, ENABLED)
    requires manual == CountOf(rows, MANUALLY_DISABLED)
    requires auto == CountOf(rows, AUTO_DISABLED)
    ensures enabled' == CountOf(rows + [row], ENABLED)
    ensures manual' == CountOf(rows + [row], MANUALLY_DISABLED)
    ensures auto' == CountOf(rows + [row], AUTO_DISABLED)
  {
    enabled', manual', auto' := enabled, manual, auto;
    if row.view.status == ENABLED { enabled' := enabled + 1; }
    if row.view.status == MANUALLY_DISABLED { manual' := manual + 1; }
    if row.view.status == AUTO_DISABLED { auto' := auto + 1; }
    assert (rows + [row])[..|rows|] == rows;
  }

  /** The `get_key_status` action. */
  method GetKeyStatus(keys: Keys, info: Info, requestedPage: int, requestedSize: int, wanted: Option<int>)
    returns (r: Listing)
    ensures r.pageSize == if requestedSize <= 0 then 50 else requestedSize
    ensures var rows := WithStatus(AllRows(keys, info), wanted);
            && r.total == |rows| && r.totalPages == PageCount(|rows|, r.pageSize)
            && r.page == Nearest(requestedPage, r.totalPages) && 1 <= r.page <= r.totalPages
            && r.rows == Page(rows, r.page, r.pageSize) && InKeyOrder(rows)
    ensures r.enabled == |WithStatus(AllRows(keys, info), Some(1))|
    ensures r.manuallyDisabled == |WithStatus(AllRows(keys, info), Some(2))|
    ensures r.autoDisabled == |WithStatus(AllRows(keys, info), Some(3))|
  {
    var size := if requestedSize <= 0 then DEFAULT_PAGE_SIZE else requestedSize;
    var all, enabled, manual, auto := BuildRows(keys, info);
    CountIsLength(all, ENABLED);
    CountIsLength(all, MANUALLY_DISABLED);
    CountIsLength(all, AUTO_DISABLED);
    var filtered := WithStatus(all, wanted);
    FilterKeepsOrder(all, wanted);
    var page, totalPages, rows := Paginate(filtered, requestedPage, size);
    r := Listing(rows, |filtered|, page, size, totalPages, enabled, manual, auto);
  }

  /** The page a request is moved to. */
  function Nearest(requested: int, totalPages: int): int {
    if requested < 1 then 1 else if requested > totalPages then totalPages else requested
  }

  /** No page is closer to the one that was asked for. */
  lemma NearestIsNearest(requested: int, totalPages: int, page: int)
    requires 1 <= page <= totalPages
    ensures var near := Nearest(requested, totalPages);
            && 1 <= near <= totalPages && (1 <= requested <= totalPages ==> near == requested)
            && (requested <= near <= page || page <= near <= requested || near == requested)
  {
  }

  /** The page arithmetic: out-of-range requests are moved to the nearest page. */
  method Paginate(filtered: seq<Row>, requestedPage: int, size: int)
    returns (page: int, totalPages: int, rows: seq<Row>)
    requires size > 0
    ensures totalPages == PageCount(|filtered|, size) && 1 <= page <= totalPages
    ensures page == Nearest(requestedPage, totalPages)
    ensures rows == Page(filtered, page, size)
  {
    page := if requestedPage <= 0 then 1 else requestedPage;
    totalPages := (|filtered| + size - 1) / size;
    PageCountPositive(|filtered|, size);
    if totalPages == 0 { totalPages := 1; }
    if page > totalPages { page := totalPages; }
    var start := (page - 1) * size;
    StartNonNegative(page, size);
    var end := start + size;
    if end > |filtered| { end := |filtered|; }
    rows := [];
    if start < |filtered| {
      rows := filtered[start..end];
    }
  }

  lemma PageCountPositive(n: nat, size: int)
    requires size > 0
    ensures n > 0 ==> (n + size - 1) / size >= 1
    ensures n == 0 ==> (n + size - 1) / size == 0
  {
  }

  /** The pages from one to k, one after the other. */
  function Pages(rows: seq<Row>, k: nat, size: int): seq<Row>
    requires size > 0
  {
    if k == 0 then [] else Pages(rows, k - 1, size) + Page(rows, k, size)
  }

  function UpTo(rows: seq<Row>, n: nat): seq<Row> {
    if n > |rows| then rows else rows[..n]
  }

  lemma PageFollows(rows: seq<Row>, start: nat, size: int)
    requires size > 0
    ensures UpTo(rows, start + size) ==
            UpTo(rows, start)
            + if start < |rows| then rows[start..if start + size > |rows| then |rows| else start + size] else []
  {
  }

  lemma {:induction false} PagesArePrefix(rows: seq<Row>, k: nat, size: int)
    requires size > 0
    ensures k * size >= 0
    ensures Pages(rows, k, size) == UpTo(rows, k * size)
  {
    if k == 0 {
    } else {
      PagesArePrefix(rows, k - 1, size);
      assert k * size == (k - 1) * size + size;
      PageFollows(rows, (k - 1) * size, size);
    }
  }

  /** Reading every page in turn yields every row of the filtered list once, in order, and no page is there
      in vain: each has a row, except the one page of an empty list. */
  lemma PagesCoverEverything(rows: seq<Row>, size: int)
    requires size > 0
    ensures PageCount(|rows|, size) >= 1
    ensures Pages(rows, PageCount(|rows|, size), size) == rows
    ensures rows == [] ==> PageCount(|rows|, size) == 1
    ensures rows != [] ==> (PageCount(|rows|, size) - 1) * size < |rows|
  {
    var k := PageCount(|rows|, size);
    PageCountPositive(|rows|, size);
    EnoughPages(|rows|, size);
    PagesArePrefix(rows, k, size);
    assert rows[..|rows|] == rows;
  }

  lemma EnoughPages(n: nat, size: int)
    requires size > 0
    ensures PageCount(n, size) * size >= n
    ensures n > 0 ==> (PageCount(n, size) - 1) * size < n
  {
    var q := (n + size - 1) / size;
    assert q * size + (n + size - 1) % size == n + size - 1;
    assert (q - 1) * size == q * size - size;
  }
}
