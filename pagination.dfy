/** The pagination arithmetic shared by `getAllMedicines` and
    `getAllAppointments`: the skip, the `skip`/`limit` cut of the sorted
    result, `Math.ceil(total / perPage)`, and the sort direction. */
module Pagination {
  import opened Common

  /** `(pageNumber - 1) * itemsPerPage`. */
  function Skip(page: int, perPage: int): int {
    (page - 1) * perPage
  }

  /** A JavaScript number that `Math.ceil(total / perPage)` can produce:
      dividing by zero gives `Infinity`, or `NaN` for `0 / 0`. */
  datatype PageCount = Pages(n: int) | Infinity | NotANumber

  /** `Math.ceil(total / perPage)` for a document count `total`. */
  function TotalPages(total: nat, perPage: int): (r: PageCount)
    ensures perPage == 0 ==> (r.NotANumber? <==> total == 0) && (r.Infinity? <==> total > 0)
    ensures perPage > 0 ==> r.Pages? && r.n >= 0 && total <= r.n * perPage
                            && (r.n > 0 ==> (r.n - 1) * perPage < total)
    ensures perPage < 0 ==> r.Pages? && r.n <= 0 && -r.n * -perPage <= total < (-r.n + 1) * -perPage
  {
    if perPage == 0 then (if total == 0 then NotANumber else Infinity)
    else if perPage > 0 then Pages((total + perPage - 1) / perPage)
    else Pages(-(total / -perPage))
  }

  function Min(a: int, b: int): int {
    if a <= b then a else b
  }

  /** `.skip(skip).limit(limit)` on a sorted result: a negative skip is
      refused by the server (`None`); a zero limit means no limit, and a
      negative one is taken by its magnitude. */
  function PageOf<T>(items: seq<T>, skip: int, limit: int): (r: Option<seq<T>>)
    ensures r.Some? <==> skip >= 0
    ensures r.Some? && limit == 0 ==> |r.value| == if skip <= |items| then |items| - skip else 0
    ensures r.Some? && limit != 0 ==>
              |r.value| == Min(if limit < 0 then -limit else limit, if skip <= |items| then |items| - skip else 0)
    ensures r.Some? ==> (forall k :: 0 <= k < |r.value| ==> r.value[k] == items[skip + k])
  {
    if skip < 0 then None
    else
      var from := Min(skip, |items|);
      var n := if limit < 0 then -limit else limit;
      var to := if limit == 0 then |items| else Min(skip + n, |items|);
      Some(items[from..to])
  }

  /** Pages `from .. from + count - 1` (one-based) of `perPage` items, laid end to end. */
  function PagesFrom<T>(items: seq<T>, perPage: nat, from: nat, count: nat): seq<T>
    requires perPage > 0 && from >= 1
    decreases count
  {
    if count == 0 then []
    else PageOf(items, Skip(from, perPage), perPage).value + PagesFrom(items, perPage, from + 1, count - 1)
  }

  /** Consecutive pages cover the items between their bounds, in order. */
  lemma {:induction false} PagesFromSlice<T>(items: seq<T>, perPage: nat, from: nat, count: nat)
    requires perPage > 0 && from >= 1
    ensures PagesFrom(items, perPage, from, count)
            == items[Min((from - 1) * perPage, |items|)..Min((from - 1 + count) * perPage, |items|)]
    decreases count
  {
    if count > 0 {
      var lo := (from - 1) * perPage;
      var mid := (from + 1 - 1) * perPage;
      var hi := (from - 1 + count) * perPage;
      PageBounds(from, count, perPage);
      assert hi == (from + 1 - 1 + (count - 1)) * perPage;
      PagesFromSlice(items, perPage, from + 1, count - 1);
      assert Skip(from, perPage) == lo;
      var a := Min(lo, |items|);
      var b := Min(mid, |items|);
      var c := Min(hi, |items|);
      assert PageOf(items, lo, perPage).value == items[a..b];
      assert items[a..b] + items[b..c] == items[a..c];
    }
  }

  /** The bounds of page `from` and of the pages after it. */
  lemma PageBounds(from: nat, count: nat, perPage: nat)
    requires from >= 1 && count >= 1
    ensures 0 <= (from - 1) * perPage
    ensures (from - 1) * perPage + perPage == (from + 1 - 1) * perPage
    ensures (from + 1 - 1) * perPage <= (from - 1 + count) * perPage
    ensures (from - 1 + count) * perPage == (from + 1 - 1 + (count - 1)) * perPage
  {
    assert (from - 1 + count) * perPage == from * perPage + (count - 1) * perPage;
  }

  /** With a positive page size, the pages `1 .. total_pages` hold every item
      exactly once and in order. */
  lemma PagesCoverAll<T>(items: seq<T>, perPage: nat)
    requires perPage > 0
    ensures PagesFrom(items, perPage, 1, TotalPages(|items|, perPage).n) == items
  {
    var n := TotalPages(|items|, perPage).n;
    PagesFromSlice(items, perPage, 1, n);
    assert Min(n * perPage, |items|) == |items|;
  }

  /** The medicine listing's direction: ascending exactly for `asc`. */
  function SortDirection(orderBy: Option<string>): (r: int)
    ensures r == 1 || r == -1
    ensures r == 1 <==> orderBy == Some("asc")
  {
    if orderBy == Some("asc") then 1 else -1
  }

  /** The appointment listing's direction as written: ascending exactly for `desc`. */
  function AppointmentSortDirectionAsWritten(orderBy: Option<string>): (r: int)
    ensures r == 1 || r == -1
    ensures r == 1 <==> orderBy == Some("desc")
  {
    if orderBy == Some("desc") then 1 else -1
  }

  /** As written, asking for descending order sorts ascending and the other
      way round; `SortDirection`, the medicine listing's rule, is the intended one. */
  lemma AppointmentSortInverted()
    ensures AppointmentSortDirectionAsWritten(Some("desc")) == 1 && SortDirection(Some("desc")) == -1
    ensures AppointmentSortDirectionAsWritten(Some("asc")) == -1 && SortDirection(Some("asc")) == 1
    ensures forall o :: o != Some("asc") && o != Some("desc")
                        ==> AppointmentSortDirectionAsWritten(o) == SortDirection(o)
  {
  }
}
