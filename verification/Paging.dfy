/** The usage log of the window: the app's own hint rows above the store's rows, paged as one list. */
module Paging {
  import opened Wrappers

  const HINT_BASE: int := 0x4000_0000_0000_0000
  const HINT_MAX: nat := 20
  const I64_MAX: int := 0x7FFF_FFFF_FFFF_FFFF
  const USIZE_MAX: nat := 0xFFFF_FFFF_FFFF_FFFF

  datatype Row = Row(id: int, text: string)

  ghost predicate Ascending(rows: seq<Row>) {
    forall i, j :: 0 <= i < j < |rows| ==> rows[i].id < rows[j].id
  }

  ghost predicate Descending(rows: seq<Row>) {
    forall i, j :: 0 <= i < j < |rows| ==> rows[j].id < rows[i].id
  }

  /** The rows below a number, in their order; all of them for none. */
  function Below(rows: seq<Row>, before: Option<int>): seq<Row> {
    if rows == [] then []
    else (if before.None? || rows[0].id < before.value then [rows[0]] else []) + Below(rows[1..], before)
  }

  function Take(rows: seq<Row>, count: nat): seq<Row> {
    rows[..Min(count, |rows|)]
  }

  function Reversed(rows: seq<Row>): (r: seq<Row>)
    ensures |r| == |rows|
    ensures forall i :: 0 <= i < |rows| ==> r[i] == rows[|rows| - 1 - i]
  {
    seq(|rows|, i requires 0 <= i < |rows| => rows[|rows| - 1 - i])
  }

  // ---- The hint rows -------------------------------------------------------------------------------

  /** The rows that exist only in this session, the oldest first. */
  class Hints {
    var rows: seq<Row>
    var next: int

    constructor ()
      ensures rows == [] && next == HINT_BASE && Valid()
    {
      rows, next := [], HINT_BASE;
    }

    ghost predicate Valid()
      reads this
    {
      && Ascending(rows)
      && |rows| <= HINT_MAX
      && HINT_BASE <= next <= I64_MAX
      && forall i :: 0 <= i < |rows| ==> HINT_BASE <= rows[i].id < next
    }

    /** The newest `HINT_MAX` rows stay. The numbers are distinct until the last of 2^62 is used up. */
    method Insert(text: string)
      requires Valid()
      modifies this
      ensures next == Min(old(next) + 1, I64_MAX)
      ensures var all := old(rows) + [Row(old(next), text)]; rows == all[Max(0, |all| - HINT_MAX)..]
      ensures old(next) < I64_MAX ==> Valid()
    {
      rows, next := rows + [Row(next, text)], Min(next + 1, I64_MAX);
      ghost var all := rows;
      NewestAscend(old(rows), Row(old(next), text), Max(0, |all| - HINT_MAX));
      while |rows| > HINT_MAX
        invariant |all| - |rows| == 0 || |rows| >= HINT_MAX
        invariant |rows| <= |all| && rows == all[|all| - |rows|..]
        modifies this`rows
      {
        rows := rows[1..];
      }
    }
  }

  lemma NewestAscend(rows: seq<Row>, row: Row, from: nat)
    requires Ascending(rows) && from <= |rows|
    requires forall i :: 0 <= i < |rows| ==> HINT_BASE <= rows[i].id < row.id
    ensures Ascending((rows + [row])[from..])
    ensures HINT_BASE <= row.id ==>
      forall i :: 0 <= i <= |rows| - from ==> HINT_BASE <= (rows + [row])[from..][i].id <= row.id
  {
  }

  // ---- The merged log ------------------------------------------------------------------------------

  /** What the window pages through: the hints, newest first, and the store's rows below them. */
  function Merged(hints: seq<Row>, store: seq<Row>): seq<Row> {
    Reversed(hints) + store
  }

  ghost predicate Separate(hints: seq<Row>, store: seq<Row>) {
    && Ascending(hints) && Descending(store)
    && (forall i :: 0 <= i < |hints| ==> HINT_BASE <= hints[i].id)
    && (forall i :: 0 <= i < |store| ==> 0 < store[i].id < HINT_BASE)
  }

  lemma MergedDescends(hints: seq<Row>, store: seq<Row>)
    requires Separate(hints, store)
    ensures Descending(Merged(hints, store))
  {
  }

  lemma {:induction false} BelowBoth(a: seq<Row>, b: seq<Row>, before: Option<int>)
    ensures Below(a + b, before) == Below(a, before) + Below(b, before)
  {
    if a == [] {
      assert a + b == b;
    } else {
      BelowBoth(a[1..], b, before);
      assert (a + b)[1..] == a[1..] + b;
    }
  }

  lemma {:induction false} BelowAll(rows: seq<Row>, before: Option<int>)
    requires before.Some? ==> forall i :: 0 <= i < |rows| ==> rows[i].id < before.value
    ensures Below(rows, before) == rows
  {
    if rows != [] { BelowAll(rows[1..], before); }
  }

  lemma {:induction false} BelowNone(rows: seq<Row>, before: Option<int>)
    requires before.Some? && forall i :: 0 <= i < |rows| ==> rows[i].id >= before.value
    ensures Below(rows, before) == []
  {
    if rows != [] { BelowNone(rows[1..], before); }
  }

  lemma TakeBoth(a: seq<Row>, b: seq<Row>, count: nat)
    ensures Take(a + b, count) == Take(a, count) + Take(b, Max(count - |Take(a, count)|, 0))
  {
  }

  /** The hint rows, newest first, below `before`. */
  function RowBefore(hints: seq<Row>, before: Option<int>, count: nat): seq<Row> {
    Take(Below(Reversed(hints), before), count)
  }

  /** One page of the store's own log; the store is not part of this model beyond this. */
  function StorePage(store: seq<Row>, before: Option<int>, count: nat): seq<Row> {
    Take(Below(store, before), count)
  }

  /** Below a hint row is all of the store, and below a number that is none of its rows nothing. */
  lemma StoreBelow(hints: seq<Row>, store: seq<Row>, before: Option<int>)
    requires Separate(hints, store)
    ensures before.Some? && before.value >= HINT_BASE ==> Below(store, before) == Below(store, None)
    ensures before.Some? && before.value < 0 ==> Below(store, before) == []
  {
    if before.Some? && before.value >= HINT_BASE {
      BelowAll(store, before);
      BelowAll(store, None);
    } else if before.Some? && before.value < 0 {
      BelowNone(store, before);
    }
  }

  /** The page of the two lists that is the page of the one. */
  method Log(hints: seq<Row>, store: seq<Row>, before: Option<int>, count: nat) returns (rows: seq<Row>)
    requires Separate(hints, store)
    ensures rows == Take(Below(Merged(hints, store), before), count)
  {
    rows := RowBefore(hints, before, count);
    var rest := Max(count - |rows|, 0);
    PageOfBoth(Reversed(hints), store, before, count);
    if rest == 0 { return; }
    var storeBefore := before;
    StoreBelow(hints, store, before);
    if before.Some? && before.value >= HINT_BASE {
      storeBefore := None;
    } else if before.Some? && before.value < 0 {
      return;
    }
    rows := Extended(rows, StorePage(store, storeBefore, rest));
  }

  method Extended(rows: seq<Row>, page: seq<Row>) returns (all: seq<Row>)
    ensures all == rows + page
  {
    all := rows;
    for i := 0 to |page|
      invariant all == rows + page[..i]
    {
      all := all + [page[i]];
    }
  }

  lemma PageOfBoth(a: seq<Row>, b: seq<Row>, before: Option<int>, count: nat)
    ensures var front := Take(Below(a, before), count);
      Take(Below(a + b, before), count) == front + Take(Below(b, before), Max(count - |front|, 0))
  {
    BelowBoth(a, b, before);
    TakeBoth(Below(a, before), Below(b, before), count);
  }

  // ---- One page for the window ---------------------------------------------------------------------

  datatype Notice = Notice(rows: seq<Row>, append: bool, more: bool)

  /** One row more than asked for is fetched, so that "there are older ones" needs no second question. */
  method RowNotice(hints: seq<Row>, store: seq<Row>, before: Option<int>, count: nat, append: bool)
    returns (notice: Notice)
    requires Separate(hints, store)
    requires count <= USIZE_MAX
    ensures notice.append == append
    ensures notice.rows == Take(Below(Merged(hints, store), before), count)
    ensures count < USIZE_MAX ==> (notice.more <==> |Below(Merged(hints, store), before)| > count)
  {
    var entries := Log(hints, store, before, Min(count + 1, USIZE_MAX));
    notice := Notice(entries[..Min(count, |entries|)], append, |entries| > count);
  }

  // ---- The paging loop over a log that changes ------------------------------------------------------

  datatype Paged = Paged(rows: seq<Row>, finished: bool)

  /** What a reader gathers who asks page by page, each page from the log as it is then. */
  function PageThrough(logs: seq<seq<Row>>, before: Option<int>, count: nat): Paged
    requires count > 0
    decreases |logs|
  {
    if logs == [] then Paged([], false)
    else
      var open := Below(logs[0], before);
      if |open| <= count then Paged(open, true)
      else
        var page := open[..count];
        var rest := PageThrough(logs[1..], Some(page[count - 1].id), count);
        Paged(page + rest.rows, rest.finished)
  }

  lemma {:induction false} BelowIsOfThem(rows: seq<Row>, before: Option<int>, i: nat)
    requires i < |Below(rows, before)|
    ensures Below(rows, before)[i] in rows
    ensures before.Some? ==> Below(rows, before)[i].id < before.value
  {
    var rest := Below(rows[1..], before);
    var skipped := |Below(rows, before)| - |rest|;
    if i >= skipped {
      BelowIsOfThem(rows[1..], before, i - skipped);
      assert rest[i - skipped] in rows[1..];
    }
  }

  lemma {:induction false} BelowDescends(rows: seq<Row>, before: Option<int>)
    requires Descending(rows)
    ensures Descending(Below(rows, before))
    ensures forall i :: 0 <= i < |Below(rows, before)| ==>
              Below(rows, before)[i] in rows && (before.Some? ==> Below(rows, before)[i].id < before.value)
  {
    forall i | 0 <= i < |Below(rows, before)|
      ensures Below(rows, before)[i] in rows && (before.Some? ==> Below(rows, before)[i].id < before.value)
    {
      BelowIsOfThem(rows, before, i);
    }
    if rows != [] {
      var rest := Below(rows[1..], before);
      BelowDescends(rows[1..], before);
      BehindTheFirst(rows[0], rest, rows);
    }
  }

  lemma BehindTheFirst(first: Row, rest: seq<Row>, rows: seq<Row>)
    requires rows != [] && first == rows[0] && Descending(rows) && Descending(rest)
    requires forall i :: 0 <= i < |rest| ==> rest[i] in rows[1..]
    ensures Descending([first] + rest)
  {
    forall i | 0 <= i < |rest| ensures rest[i].id < first.id { assert rest[i] in rows[1..]; }
  }

  lemma {:induction false} BelowKeeps(rows: seq<Row>, before: Option<int>, row: Row)
    requires row in rows && (before.Some? ==> row.id < before.value)
    ensures row in Below(rows, before)
  {
    if rows[0] != row { BelowKeeps(rows[1..], before, row); }
  }

  /** The rows gathered descend strictly, so no row is delivered twice. */
  lemma {:induction false} PagesDescend(logs: seq<seq<Row>>, before: Option<int>, count: nat)
    requires count > 0 && forall i :: 0 <= i < |logs| ==> Descending(logs[i])
    ensures var rows := PageThrough(logs, before, count).rows;
      Descending(rows) && (before.Some? ==> forall i :: 0 <= i < |rows| ==> rows[i].id < before.value)
    decreases |logs|
  {
    if logs != [] {
      var open := Below(logs[0], before);
      BelowDescends(logs[0], before);
      if |open| > count {
        PagesDescend(logs[1..], Some(open[count - 1].id), count);
      }
    }
  }

  /** A row that stays in the log while the reader pages is delivered, whatever comes and goes around it. */
  lemma {:induction false} StayingRowIsDelivered(logs: seq<seq<Row>>, before: Option<int>, count: nat, row: Row)
    requires count > 0 && forall i :: 0 <= i < |logs| ==> Descending(logs[i]) && row in logs[i]
    requires before.Some? ==> row.id < before.value
    requires PageThrough(logs, before, count).finished
    ensures row in PageThrough(logs, before, count).rows
    decreases |logs|
  {
    var open := Below(logs[0], before);
    BelowDescends(logs[0], before);
    BelowKeeps(logs[0], before, row);
    if |open| > count {
      var at :| 0 <= at < |open| && open[at] == row;
      if at >= count {
        StayingRowIsDelivered(logs[1..], Some(open[count - 1].id), count, row);
      } else {
        assert open[..count][at] == row;
      }
    }
  }
}
