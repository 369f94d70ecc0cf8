// The page of rows returned by a specific query: the catalog delivers all rows, and
// offset and count are applied by counting.

module SpecificQuery {
  import opened Basics

  function ClampOffset(offset: int): (o: nat)
    ensures o == Max(0, offset)
  {
    Max(0, offset)
  }

  function ClampCount(count: Option<int>, maxRows: nat): (c: nat)
    requires maxRows >= 1
    ensures 1 <= c <= maxRows
    ensures count.Some? && 1 <= count.value <= maxRows ==> c == count.value
    ensures count.None? ==> c == maxRows
    ensures count.Some? && count.value < 1 ==> c == 1
    ensures count.Some? && count.value > maxRows ==> c == maxRows
  {
    var n := if count.Some? then count.value else maxRows;
    if n < 1 then 1 else if n > maxRows then maxRows else n
  }

  // Rows offset up to offset + count, as far as there are rows.
  function Page<T>(rows: seq<T>, offset: nat, count: nat): seq<T> {
    var lo := Min(offset, |rows|);
    rows[lo..Min(lo + count, |rows|)]
  }

  method Execute<T>(all: seq<T>, offset: int, count: Option<int>, maxRows: nat) returns (rows: seq<T>)
    requires maxRows >= 1
    ensures rows == Page(all, ClampOffset(offset), ClampCount(count, maxRows))
    ensures |rows| <= maxRows
  {
    var skip := ClampOffset(offset);
    var limit := ClampCount(count, maxRows);
    rows := [];
    var offsetCounter, countCounter := 0, 0;
    for i := 0 to |all|
      invariant offsetCounter == Min(i, skip)
      invariant countCounter == |rows| == i - offsetCounter
      invariant countCounter < limit
      invariant rows == all[offsetCounter..i]
    {
      if offsetCounter < skip {
        offsetCounter := offsetCounter + 1;
        continue;
      }
      rows := rows + [all[i]];
      countCounter := countCounter + 1;
      if countCounter == limit {
        break;
      }
    }
  }

  // The pages at offsets start, start + count, start + 2 * count, ... until there are no more rows.
  function AllPages<T>(rows: seq<T>, start: nat, count: nat): seq<seq<T>>
    requires count >= 1
    decreases |rows| - start
  {
    if start >= |rows| then [] else [Page(rows, start, count)] + AllPages(rows, start + count, count)
  }

  function Concat<T>(pages: seq<seq<T>>): seq<T> {
    if pages == [] then [] else pages[0] + Concat(pages[1..])
  }

  // Successive pages tile the rows: nothing is lost, repeated or reordered.
  lemma {:induction false} PagesTileRows<T>(rows: seq<T>, start: nat, count: nat)
    requires count >= 1 && start <= |rows|
    ensures Concat(AllPages(rows, start, count)) == rows[start..]
    decreases |rows| - start
  {
    if start < |rows| {
      var next := start + count;
      assert AllPages(rows, start, count)[1..] == AllPages(rows, next, count);
      if next <= |rows| {
        PagesTileRows(rows, next, count);
        assert rows[start..next] + rows[next..] == rows[start..];
      }
    }
  }

  lemma {:induction false} PageNumber<T>(rows: seq<T>, start: nat, count: nat, k: nat)
    requires count >= 1 && k < |AllPages(rows, start, count)|
    ensures AllPages(rows, start, count)[k] == Page(rows, start + k * count, count) != []
    decreases k
  {
    if k > 0 {
      PageNumber(rows, start + count, count, k - 1);
      assert start + count + (k - 1) * count == start + k * count;
    }
  }

  // A client that asks for pages of any size, in or out of range, and steps by the size
  // the server grants, collects all rows, the k-th page being the one at offset k times
  // that size; no page is empty before the end, and all are after it.
  lemma {:induction false} ClientCollectsAllRows<T>(rows: seq<T>, asked: Option<int>, maxRows: nat)
    requires maxRows >= 1
    ensures Concat(AllPages(rows, 0, ClampCount(asked, maxRows))) == rows
    ensures forall offset :: offset >= |rows| ==> Page(rows, offset, ClampCount(asked, maxRows)) == []
    ensures var c := ClampCount(asked, maxRows);
            forall k :: 0 <= k < |AllPages(rows, 0, c)| ==>
              AllPages(rows, 0, c)[k] == Page(rows, k * c, c) && AllPages(rows, 0, c)[k] != []
  {
    var c := ClampCount(asked, maxRows);
    PagesTileRows(rows, 0, c);
    forall k | 0 <= k < |AllPages(rows, 0, c)|
      ensures AllPages(rows, 0, c)[k] == Page(rows, k * c, c) && AllPages(rows, 0, c)[k] != []
    {
      PageNumber(rows, 0, c, k);
    }
  }
}
