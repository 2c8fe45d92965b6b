/** Keyset pagination over a table that may change between pages
    (services/resolution/internal/db/db.go, ListMismatched; .../api/handler.go, listMismatches). */
module Paging {
  import opened Wrappers
  import opened Rules
  import opened Matcher
  import opened Cases

  /** Sizes outside 1..100 fall back to 20. */
  function PageSize(requested: int): (n: nat)
    ensures 1 <= n <= 100
    ensures n == requested || (n == 20 && !(1 <= requested <= 100))
  {
    if requested <= 0 || requested > 100 then 20 else requested
  }

  predicate Past(token: Option<Ref>, ref: Ref) { token.Some? ==> token.value < ref }

  /** The rows behind the cursor. */
  function Behind(keys: set<Ref>, token: Option<Ref>): set<Ref> {
    set k | k in keys && Past(token, k)
  }

  predicate Ascending(page: seq<Ref>) { forall i, j :: 0 <= i < j < |page| ==> page[i] < page[j] }

  /** ORDER BY … LIMIT: ascending, from the smallest on, and short only when nothing is left. */
  ghost predicate IsPage(keys: set<Ref>, limit: nat, page: seq<Ref>) {
    && Ascending(page) && |page| <= limit
    && (forall i :: 0 <= i < |page| ==> page[i] in keys)
    && (forall k :: k in keys && k !in page ==> |page| == limit && forall i :: 0 <= i < |page| ==> page[i] < k)
  }

  method Smallest(keys: set<Ref>) returns (least: Ref)
    requires keys != {}
    ensures least in keys && forall k :: k in keys ==> least <= k
  {
    least :| least in keys;
    var left := keys - {least};
    while left != {}
      invariant left <= keys && least in keys
      invariant forall k :: k in keys && k !in left ==> least <= k
      decreases left
    {
      var k :| k in left;
      left := left - {k};
      if k < least { least := k; }
    }
  }

  method SelectPage(keys: set<Ref>, limit: nat) returns (page: seq<Ref>)
    ensures IsPage(keys, limit, page)
  {
    page := [];
    var left := keys;
    while left != {} && |page| < limit
      invariant left <= keys && |page| <= limit && Ascending(page)
      invariant forall i :: 0 <= i < |page| ==> page[i] in keys && page[i] !in left
      invariant forall k :: k in keys && k !in left ==> k in page
      invariant forall k, i :: k in left && 0 <= i < |page| ==> page[i] < k
      decreases left
    {
      var least := Smallest(left);
      ghost var was := page;
      page := page + [least];
      left := left - {least};
      assert forall k :: k in was ==> k in page;
      assert page[|was|] == least;
    }
  }

  /** A page is determined by the table, the cursor and the limit. */
  lemma PageUnique(keys: set<Ref>, limit: nat, page: seq<Ref>, other: seq<Ref>)
    requires IsPage(keys, limit, page) && IsPage(keys, limit, other)
    ensures page == other
  {
    if |page| <= |other| {
      SameStart(keys, limit, page, other, |page|);
      SameLength(keys, limit, page, other);
    } else {
      SameStart(keys, limit, other, page, |other|);
      SameLength(keys, limit, other, page);
    }
  }

  lemma {:induction false} SameStart(keys: set<Ref>, limit: nat, page: seq<Ref>, other: seq<Ref>, n: nat)
    requires IsPage(keys, limit, page) && IsPage(keys, limit, other) && n <= |page| && n <= |other|
    ensures page[..n] == other[..n]
  {
    hide IsPage;
    if 0 < n {
      SameStart(keys, limit, page, other, n - 1);
      assert forall i :: 0 <= i < n - 1 ==> page[i] == page[..n - 1][i] == other[i];
      NextOf(keys, limit, page, other, n - 1);
      NextOf(keys, limit, other, page, n - 1);
    }
  }

  lemma NextOf(keys: set<Ref>, limit: nat, page: seq<Ref>, other: seq<Ref>, m: nat)
    requires IsPage(keys, limit, page) && IsPage(keys, limit, other) && m < |page| && m < |other|
    requires forall i :: 0 <= i < m ==> page[i] == other[i]
    ensures page[m] <= other[m]
  {}

  lemma SameLength(keys: set<Ref>, limit: nat, page: seq<Ref>, other: seq<Ref>)
    requires IsPage(keys, limit, page) && IsPage(keys, limit, other) && page <= other
    ensures page == other
  {
    if page < other { FirstBeyond(page, other); }
  }

  lemma FirstBeyond(page: seq<Ref>, other: seq<Ref>)
    requires page < other && Ascending(other)
    ensures other[|page|] !in page
  {}

  // ---------------------------------------------------------------- walking through the pages

  /** The next token is the last ref of the page; a page without rows carries none. */
  function NextToken(page: seq<Ref>): Option<Ref> {
    if page == [] then None else Some(page[|page| - 1])
  }

  /** Each page is read from the table as it then is, with the token of the page before; the walk
      goes on as long as there is a token. */
  ghost predicate IsWalk(tables: seq<set<Ref>>, pages: seq<seq<Ref>>, size: nat, token: Option<Ref>)
    decreases |pages|
  {
    && |tables| == |pages|
    && (pages != [] ==>
      && IsPage(Behind(tables[0], token), size, pages[0])
      && (pages[0] == [] ==> |pages| == 1)
      && (pages[0] != [] ==> IsWalk(tables[1..], pages[1..], size, NextToken(pages[0]))))
  }

  function Listed(pages: seq<seq<Ref>>): seq<Ref> {
    if pages == [] then [] else pages[0] + Listed(pages[1..])
  }

  /** Whatever is listed was in the table when its page was read. */
  lemma {:induction false} ListedFrom(tables: seq<set<Ref>>, pages: seq<seq<Ref>>, size: nat, token: Option<Ref>, r: Ref)
    requires IsWalk(tables, pages, size, token) && r in Listed(pages)
    ensures exists n :: 0 <= n < |pages| && r in pages[n] && r in tables[n]
    decreases |pages|
  {
    assert |pages| == 1 ==> pages[1..] == [];
    if r in pages[0] {
      var i :| 0 <= i < |pages[0]| && pages[0][i] == r;
      assert r in Behind(tables[0], token);
    } else {
      ListedFrom(tables[1..], pages[1..], size, NextToken(pages[0]), r);
      var n :| 0 <= n < |pages[1..]| && r in pages[1..][n] && r in tables[1..][n];
      assert r in pages[n + 1] && r in tables[n + 1];
    }
  }

  /** Refs come strictly increasing over the whole walk, so none is repeated, and each was in the
      table when its page was read. */
  lemma {:induction false} WalkAscends(tables: seq<set<Ref>>, pages: seq<seq<Ref>>, size: nat, token: Option<Ref>)
    requires IsWalk(tables, pages, size, token)
    ensures Ascending(Listed(pages))
    ensures forall i :: 0 <= i < |Listed(pages)| ==> Past(token, Listed(pages)[i])
    ensures forall r :: r in Listed(pages) ==> exists n :: 0 <= n < |pages| && r in pages[n] && r in tables[n]
    decreases |pages|
  {
    forall r | r in Listed(pages) ensures exists n :: 0 <= n < |pages| && r in pages[n] && r in tables[n] {
      ListedFrom(tables, pages, size, token, r);
    }
    if pages != [] && pages[0] != [] {
      var page, next := pages[0], NextToken(pages[0]);
      WalkAscends(tables[1..], pages[1..], size, next);
      JoinAscends(tables[0], size, token, page, Listed(pages[1..]));
    } else if pages != [] {
      assert pages[1..] == [];
    }
  }

  lemma JoinAscends(keys: set<Ref>, size: nat, token: Option<Ref>, page: seq<Ref>, rest: seq<Ref>)
    requires IsPage(Behind(keys, token), size, page) && page != []
    requires Ascending(rest) && forall i :: 0 <= i < |rest| ==> Past(NextToken(page), rest[i])
    ensures Ascending(page + rest) && forall i :: 0 <= i < |page + rest| ==> Past(token, (page + rest)[i])
  {
    var last := page[|page| - 1];
    forall i | 0 <= i < |page| ensures page[i] <= last && Past(token, page[i]) {
      assert page[i] in Behind(keys, token);
    }
    forall i | 0 <= i < |rest| ensures last < rest[i] {}
  }

  ghost predicate InAll(tables: seq<set<Ref>>, r: Ref) { forall n :: 0 <= n < |tables| ==> r in tables[n] }

  predicate Complete(pages: seq<seq<Ref>>) { pages != [] && pages[|pages| - 1] == [] }

  /** A ref that is in the table throughout a walk that ends with an empty page is listed. */
  lemma {:induction false} NothingSkipped(tables: seq<set<Ref>>, pages: seq<seq<Ref>>, size: nat, token: Option<Ref>,
                                          r: Ref)
    requires IsWalk(tables, pages, size, token) && Complete(pages) && 0 < size
    requires InAll(tables, r) && Past(token, r)
    ensures r in Listed(pages)
    decreases |pages|
  {
    assert r in Behind(tables[0], token);
    if r !in pages[0] {
      assert pages[0] != [];
      assert pages[0][|pages[0]| - 1] < r;
      forall n | 0 <= n < |tables[1..]| ensures r in tables[1..][n] { assert r in tables[n + 1]; }
      NothingSkipped(tables[1..], pages[1..], size, NextToken(pages[0]), r);
    }
  }

  /** Exactly-once listing over a changing table. */
  lemma ExactlyOnce(tables: seq<set<Ref>>, pages: seq<seq<Ref>>, size: nat, r: Ref) returns (at: nat)
    requires IsWalk(tables, pages, size, None) && Complete(pages) && 0 < size && InAll(tables, r)
    ensures at < |Listed(pages)| && Listed(pages)[at] == r
    ensures forall i :: 0 <= i < |Listed(pages)| && i != at ==> Listed(pages)[i] != r
  {
    WalkAscends(tables, pages, size, None);
    NothingSkipped(tables, pages, size, None, r);
    at :| at < |Listed(pages)| && Listed(pages)[at] == r;
  }

  // ---------------------------------------------------------------- a table that does not change

  ghost predicate Fixed(tables: seq<set<Ref>>, keys: set<Ref>) { forall n :: 0 <= n < |tables| ==> tables[n] == keys }

  /** On a fixed table a complete walk lists the whole table in order. */
  lemma FixedWalkIsTable(tables: seq<set<Ref>>, pages: seq<seq<Ref>>, size: nat, keys: set<Ref>)
    requires IsWalk(tables, pages, size, None) && Complete(pages) && 0 < size && Fixed(tables, keys)
    ensures Ascending(Listed(pages)) && forall r :: r in keys <==> r in Listed(pages)
  {
    WalkAscends(tables, pages, size, None);
    forall r | r in keys ensures r in Listed(pages) { NothingSkipped(tables, pages, size, None, r); }
    forall r | r in Listed(pages) ensures r in keys {
      var n :| 0 <= n < |pages| && r in pages[n] && r in tables[n];
    }
  }

  /** And the walk gets there: it has at most one page more than the table has rows behind the
      cursor. */
  lemma {:induction false} FixedWalkEnds(tables: seq<set<Ref>>, pages: seq<seq<Ref>>, size: nat, token: Option<Ref>,
                                         keys: set<Ref>)
    requires IsWalk(tables, pages, size, token) && 0 < size && Fixed(tables, keys)
    ensures |pages| - 1 <= |Listed(pages)| <= |Behind(keys, token)|
    decreases |pages|
  {
    if pages != [] && pages[0] != [] {
      assert tables[0] == keys && Fixed(tables[1..], keys);
      assert IsWalk(tables[1..], pages[1..], size, NextToken(pages[0]));
      PageSplits(keys, size, token, pages[0]);
      hide IsWalk, IsPage, Behind, Fixed;
      FixedWalkEnds(tables[1..], pages[1..], size, NextToken(pages[0]), keys);
    } else if pages != [] {
      assert pages[1..] == [];
    }
  }

  /** All its pages with rows are full, except the last. */
  lemma {:induction false} FixedPagesFull(tables: seq<set<Ref>>, pages: seq<seq<Ref>>, size: nat, token: Option<Ref>,
                                          keys: set<Ref>, n: nat)
    requires IsWalk(tables, pages, size, token) && 0 < size && Fixed(tables, keys)
    requires n + 1 < |pages| && pages[n + 1] != []
    ensures |pages[n]| == size
    decreases n
  {
    var next := NextToken(pages[0]);
    assert pages[0] != [] && IsWalk(tables[1..], pages[1..], size, next);
    if n == 0 {
      var r := pages[1..][0][0];
      assert tables[1..][0] == keys && r in Behind(keys, next);
      BehindTheNext(keys, token, size, pages[0], r);
    } else {
      FixedPagesFull(tables[1..], pages[1..], size, next, keys, n - 1);
    }
  }

  lemma BehindTheNext(keys: set<Ref>, token: Option<Ref>, size: nat, page: seq<Ref>, r: Ref)
    requires IsPage(Behind(keys, token), size, page) && page != [] && r in Behind(keys, NextToken(page))
    ensures |page| == size
  {
    assert page[|page| - 1] < r;
    assert r !in page;
    assert Past(token, page[0]) && page[0] < r;
  }

  /** The rows behind the cursor are those of the page and those behind the next cursor. */
  lemma PageSplits(keys: set<Ref>, size: nat, token: Option<Ref>, page: seq<Ref>)
    requires IsPage(Behind(keys, token), size, page) && page != []
    ensures |Behind(keys, token)| == |page| + |Behind(keys, NextToken(page))|
  {
    var next := NextToken(page);
    var shown := set r | r in page;
    assert Behind(keys, token) == shown + Behind(keys, next) by {
      forall r | r in Behind(keys, token) ensures r in shown + Behind(keys, next) {}
    }
    assert shown !! Behind(keys, next) by {
      forall r | r in shown ensures r !in Behind(keys, next) {
        var i :| 0 <= i < |page| && page[i] == r;
        assert page[i] <= next.value;
      }
    }
    DistinctCount(page, shown);
  }

  lemma {:induction false} DistinctCount(page: seq<Ref>, shown: set<Ref>)
    requires Ascending(page) && shown == set r | r in page
    ensures |shown| == |page|
    decreases |page|
  {
    if page != [] {
      var n := |page| - 1;
      var before := set r | r in page[..n];
      assert shown == before + {page[n]};
      assert page[n] !in before;
      DistinctCount(page[..n], before);
    }
  }

  // ---------------------------------------------------------------- the pages of mismatches

  /** The two tables that the listing reads, at one moment. */
  datatype Snapshot = Snapshot(states: map<Ref, StateRow>, details: map<Ref, map<Source, DetailRow>>)

  /** The transaction is MISMATCHED and, with a filter, that source has a detail row. */
  predicate Mismatch(s: Snapshot, filter: Option<Source>, r: Ref) {
    && r in s.states && s.states[r].status == MISMATCHED
    && (filter.Some? ==> r in s.details && filter.value in s.details[r])
  }

  /** The mismatches behind the token, smallest first: all of them, or a full page. */
  ghost predicate IsMismatchPage(s: Snapshot, requested: int, token: Option<Ref>, filter: Option<Source>, page: seq<Ref>) {
    var size := if 1 <= requested <= 100 then requested else 20;
    && (forall i, j :: 0 <= i < j < |page| ==> page[i] < page[j]) && |page| <= size
    && (forall i :: 0 <= i < |page| ==> Mismatch(s, filter, page[i]) && (token.Some? ==> token.value < page[i]))
    && (forall r :: Mismatch(s, filter, r) && (token.Some? ==> token.value < r) && r !in page ==>
      |page| == size && forall i :: 0 <= i < |page| ==> page[i] < r)
  }

  function MismatchesIn(s: Snapshot, filter: Option<Source>): set<Ref> {
    set r | r in s.states && Mismatch(s, filter, r)
  }

  lemma MismatchPageIff(s: Snapshot, requested: int, token: Option<Ref>, filter: Option<Source>, page: seq<Ref>)
    ensures IsMismatchPage(s, requested, token, filter, page)
      <==> IsPage(Behind(MismatchesIn(s, filter), token), PageSize(requested), page)
  {
    var keys := Behind(MismatchesIn(s, filter), token);
    assert forall r :: r in keys <==> Mismatch(s, filter, r) && (token.Some? ==> token.value < r);
    hide Mismatch, MismatchesIn, Behind;
  }

  /** Each page is read at its own moment, with the last ref of the page before as token. */
  ghost predicate IsMismatchWalk(snaps: seq<Snapshot>, pages: seq<seq<Ref>>, requested: int, filter: Option<Source>,
                                 token: Option<Ref>)
    decreases |pages|
  {
    && |snaps| == |pages|
    && (pages != [] ==>
      && IsMismatchPage(snaps[0], requested, token, filter, pages[0])
      && (pages[0] == [] ==> |pages| == 1)
      && (pages[0] != [] ==>
        IsMismatchWalk(snaps[1..], pages[1..], requested, filter, Some(pages[0][|pages[0]| - 1]))))
  }

  function TablesOf(snaps: seq<Snapshot>, filter: Option<Source>): (tables: seq<set<Ref>>)
    ensures |tables| == |snaps| && forall n :: 0 <= n < |tables| ==> tables[n] == MismatchesIn(snaps[n], filter)
  {
    seq(|snaps|, n requires 0 <= n < |snaps| => MismatchesIn(snaps[n], filter))
  }

  lemma {:induction false} MismatchWalkIsWalk(snaps: seq<Snapshot>, pages: seq<seq<Ref>>, requested: int,
                                              filter: Option<Source>, token: Option<Ref>)
    requires IsMismatchWalk(snaps, pages, requested, filter, token)
    ensures IsWalk(TablesOf(snaps, filter), pages, PageSize(requested), token)
    decreases |pages|
  {
    if pages != [] {
      MismatchPageIff(snaps[0], requested, token, filter, pages[0]);
      if pages[0] != [] {
        assert TablesOf(snaps, filter)[1..] == TablesOf(snaps[1..], filter);
        MismatchWalkIsWalk(snaps[1..], pages[1..], requested, filter, Some(pages[0][|pages[0]| - 1]));
      }
    }
  }

  /** A transaction that is MISMATCHED, and keeps the filtered source, throughout a complete walk is
      listed by it exactly once, whatever happens to others in between. */
  lemma MismatchListedOnce(snaps: seq<Snapshot>, pages: seq<seq<Ref>>, requested: int, filter: Option<Source>, r: Ref)
    returns (at: nat)
    requires IsMismatchWalk(snaps, pages, requested, filter, None) && Complete(pages)
    requires forall n :: 0 <= n < |snaps| ==> r in snaps[n].states && snaps[n].states[r].status == MISMATCHED
    requires filter.Some? ==>
      forall n :: 0 <= n < |snaps| ==> r in snaps[n].details && filter.value in snaps[n].details[r]
    ensures at < |Listed(pages)| && Listed(pages)[at] == r
    ensures forall i :: 0 <= i < |Listed(pages)| && i != at ==> Listed(pages)[i] != r
  {
    MismatchWalkIsWalk(snaps, pages, requested, filter, None);
    at := ExactlyOnce(TablesOf(snaps, filter), pages, PageSize(requested), r);
  }

  /** And whatever it lists was such a transaction when its page was read. */
  lemma ListedWasMismatch(snaps: seq<Snapshot>, pages: seq<seq<Ref>>, requested: int, filter: Option<Source>, r: Ref)
    returns (n: nat)
    requires IsMismatchWalk(snaps, pages, requested, filter, None) && r in Listed(pages)
    ensures n < |snaps| && r in pages[n] && r in snaps[n].states && snaps[n].states[r].status == MISMATCHED
    ensures filter.Some? ==> r in snaps[n].details && filter.value in snaps[n].details[r]
  {
    MismatchWalkIsWalk(snaps, pages, requested, filter, None);
    WalkAscends(TablesOf(snaps, filter), pages, PageSize(requested), None);
    n :| n < |pages| && r in pages[n] && r in TablesOf(snaps, filter)[n];
  }

  // ---------------------------------------------------------------- the rows of a page

  datatype MatchDetail = MatchDetail(source: Source, discrepancy: bool)

  datatype MismatchedRow = MismatchedRow(ref: Ref, details: seq<MatchDetail>)

  function RefsOf(rows: seq<MismatchedRow>): (refs: seq<Ref>)
    ensures |refs| == |rows| && forall i :: 0 <= i < |rows| ==> refs[i] == rows[i].ref
  {
    seq(|rows|, i requires 0 <= i < |rows| => rows[i].ref)
  }

  /** What a page of mismatches says of its rows. */
  lemma MismatchRows(s: Snapshot, requested: int, token: Option<Ref>, filter: Option<Source>, rows: seq<MismatchedRow>)
    requires IsMismatchPage(s, requested, token, filter, RefsOf(rows))
    ensures forall i, j :: 0 <= i < j < |rows| ==> rows[i].ref < rows[j].ref
    ensures forall i :: 0 <= i < |rows| ==>
      && rows[i].ref in s.states && s.states[rows[i].ref].status == MISMATCHED
      && (token.Some? ==> token.value < rows[i].ref)
      && (filter.Some? ==> rows[i].ref in s.details && filter.value in s.details[rows[i].ref])
    ensures forall r ::
      (&& r in s.states && s.states[r].status == MISMATCHED && (token.Some? ==> token.value < r)
       && (filter.Some? ==> r in s.details && filter.value in s.details[r])
       && (forall i :: 0 <= i < |rows| ==> rows[i].ref != r)) ==>
      |rows| == PageSize(requested) && forall i :: 0 <= i < |rows| ==> rows[i].ref < r
  {
    var page := RefsOf(rows);
    forall i | 0 <= i < |rows| ensures Mismatch(s, filter, rows[i].ref) && (token.Some? ==> token.value < rows[i].ref) {
      assert page[i] == rows[i].ref;
    }
    forall r |
      && r in s.states && s.states[r].status == MISMATCHED && (token.Some? ==> token.value < r)
      && (filter.Some? ==> r in s.details && filter.value in s.details[r])
      && (forall i :: 0 <= i < |rows| ==> rows[i].ref != r)
      ensures |rows| == PageSize(requested) && forall i :: 0 <= i < |rows| ==> rows[i].ref < r
    {
      assert Mismatch(s, filter, r) && r !in page;
      forall i | 0 <= i < |rows| ensures rows[i].ref < r { assert page[i] < r; }
    }
  }

  /** One row of the second query. */
  datatype Scanned = Scanned(ref: Ref, detail: MatchDetail)

  /** The scanned details of one ref, in scan order. */
  function DetailsIn(scan: seq<Scanned>, ref: Ref): seq<MatchDetail>
    decreases |scan|
  {
    if scan == [] then [] else
      var last := scan[|scan| - 1];
      DetailsIn(scan[..|scan| - 1], ref) + if last.ref == ref then [last.detail] else []
  }

  /** Scanning more appends the details of the ref, in scan order. */
  lemma {:induction false} DetailsJoin(a: seq<Scanned>, b: seq<Scanned>, ref: Ref)
    ensures DetailsIn(a + b, ref) == DetailsIn(a, ref) + DetailsIn(b, ref)
    decreases |b|
  {
    if b == [] {
      assert a + b == a;
      assert DetailsIn(a, ref) + [] == DetailsIn(a, ref);
    } else {
      var n := |b| - 1;
      var all := a + b;
      var mine := if b[n].ref == ref then [b[n].detail] else [];
      DetailsJoin(a, b[..n], ref);
      assert all[..|all| - 1] == a + b[..n] && all[|all| - 1] == b[n];
      assert DetailsIn(all, ref) == DetailsIn(a + b[..n], ref) + mine;
      hide DetailsIn;
      assert (DetailsIn(a, ref) + DetailsIn(b[..n], ref)) + mine == DetailsIn(a, ref) + (DetailsIn(b[..n], ref) + mine);
    }
  }

  /** A scanned detail belongs to its own ref alone. */
  lemma DetailsOfOne(row: Scanned, ref: Ref)
    ensures DetailsIn([row], ref) == if row.ref == ref then [row.detail] else []
  {}

  /** Distribute the scanned details over the page's rows through an index of the refs; rows of
      other refs are dropped. */
  method Assemble(page: seq<Ref>, scan: seq<Scanned>) returns (rows: seq<MismatchedRow>)
    requires Ascending(page)
    ensures |rows| == |page|
    ensures forall i :: 0 <= i < |rows| ==> rows[i] == MismatchedRow(page[i], DetailsIn(scan, page[i]))
  {
    rows := seq(|page|, i requires 0 <= i < |page| => MismatchedRow(page[i], []));
    var index: map<Ref, nat> := map[];
    for i := 0 to |page|
      invariant forall r :: r in index <==> r in page[..i]
      invariant forall r :: r in index ==> index[r] < i && page[index[r]] == r
    {
      index := index[page[i] := i];
    }
    for n := 0 to |scan|
      invariant |rows| == |page|
      invariant forall i :: 0 <= i < |rows| ==> rows[i] == MismatchedRow(page[i], DetailsIn(scan[..n], page[i]))
    {
      assert scan[..n + 1][..n] == scan[..n];
      if scan[n].ref in index {
        var i := index[scan[n].ref];
        rows := rows[i := rows[i].(details := rows[i].details + [scan[n].detail])];
      } else {
        assert forall i :: 0 <= i < |page| ==> page[i] != scan[n].ref;
      }
    }
    assert scan[..|scan|] == scan;
  }
}
