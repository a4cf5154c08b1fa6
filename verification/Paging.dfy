/** Page requests, offsets and page metadata, and the pages they cut out of one ordered list. */
module Paging {
  import opened Common

  const MAX_SIZE := 100
  const MAX_INT32 := 0x7FFF_FFFF

  datatype Request = Request(page: int, size: int)

  datatype PageError = BadPage | BadSize | BadTotal | PageTooLarge

  function NewRequest(page: int, size: int): (r: Result<Request, PageError>)
    ensures r.Ok? <==> page >= 1 && 1 <= size <= MAX_SIZE
    ensures r.Ok? ==> r.value == Request(page, size)
  {
    if page < 1 then Err(BadPage) else if size < 1 || size > MAX_SIZE then Err(BadSize) else Ok(Request(page, size))
  }

  function Offset(r: Request): int { (r.page - 1) * r.size }

  /** The offset as a 32-bit integer. The test divides, so nothing can wrap. */
  function PageOffset(r: Request): Result<int, PageError> {
    if r.page < 1 || r.size < 1 then Err(BadPage)
    else if r.page - 1 > MAX_INT32 / r.size then Err(PageTooLarge)
    else Ok((r.page - 1) * r.size)
  }

  /** The offset is accepted exactly when it fits 32 bits, and then it is Offset. */
  lemma PageOffsetExact(r: Request)
    requires r.page >= 1 && r.size >= 1
    ensures PageOffset(r).Ok? <==> Offset(r) <= MAX_INT32
    ensures PageOffset(r).Ok? ==> PageOffset(r).value == Offset(r) && 0 <= Offset(r)
  {
    DivideBound(r.page - 1, r.size, MAX_INT32);
    ProductNonNegative(r.page - 1, r.size);
  }

  lemma ProductNonNegative(a: int, b: int)
    requires a >= 0 && b >= 0
    ensures a * b >= 0
  {
  }

  lemma DivideBound(a: int, d: int, m: int)
    requires a >= 0 && d >= 1 && m >= 0
    ensures a > m / d <==> a * d > m
  {
    var q := m / d;
    assert q * d <= m < q * d + d;
    if a > q {
      MulMonotone(q + 1, a, d);
    } else {
      MulMonotone(a, q, d);
    }
  }

  lemma MulMonotone(a: int, b: int, d: int)
    requires a <= b && d >= 0
    ensures a * d <= b * d
  {
    ProductNonNegative(b - a, d);
    assert b * d - a * d == (b - a) * d;
  }

  function CalculateTotalPages(total: nat, size: int): int
    requires size >= 1
  {
    if total == 0 then 0 else (total + size - 1) / size
  }

  datatype Response<T> = Response(
    items: seq<T>, page: int, size: int, total: int, totalPages: int, hasNext: bool, hasPrevious: bool)

  function NewResponse<T>(items: seq<T>, r: Request, total: int): Result<Response<T>, PageError> {
    if r.page < 1 then Err(BadPage)
    else if r.size < 1 || r.size > MAX_SIZE then Err(BadSize)
    else if total < 0 then Err(BadTotal)
    else
      var pages := CalculateTotalPages(total, r.size);
      Ok(Response(items, r.page, r.size, total, pages, r.page < pages, pages > 0 && r.page > 1 && r.page <= pages))
  }

  /** A response is refused for its page, its size or its total, in this order; otherwise it carries what it
      was given. */
  lemma NewResponseExactly<T>(items: seq<T>, r: Request, total: int)
    ensures var resp := NewResponse(items, r, total);
            if r.page < 1 then resp == Err(BadPage)
            else if !(1 <= r.size <= 100) then resp == Err(BadSize)
            else if total < 0 then resp == Err(BadTotal)
            else resp.Ok? && resp.value.items == items && resp.value.page == r.page && resp.value.size == r.size
                 && resp.value.total == total
  {
  }

  function Min(a: int, b: int): int { if a <= b then a else b }

  /** LIMIT limit OFFSET offset on an ordered list. */
  function Limited<T>(list: seq<T>, limit: nat, offset: nat): seq<T> {
    list[Min(offset, |list|)..Min(offset + limit, |list|)]
  }

  /** Page k of a list, k counting from 1. */
  function Page<T>(list: seq<T>, size: nat, k: nat): seq<T>
    requires k >= 1
  {
    ProductNonNegative(k - 1, size);
    Limited(list, size, (k - 1) * size)
  }

  /** An empty list needs no page query. */
  lemma PageIsWindow<T>(list: seq<T>, size: nat, k: nat)
    requires k >= 1
    ensures (k - 1) * size >= 0 && Page(list, size, k) == Limited(list, size, (k - 1) * size)
    ensures list == [] ==> Page(list, size, k) == []
  {
    ProductNonNegative(k - 1, size);
  }

  /** Where the elements of a page are in the list. */
  lemma PageAt<T>(list: seq<T>, size: nat, k: nat, i: nat) returns (n: nat)
    requires k >= 1 && i < |Page(list, size, k)|
    ensures i < size && n == (k - 1) * size + i < |list| && Page(list, size, k)[i] == list[n]
  {
    ProductNonNegative(k - 1, size);
    n := (k - 1) * size + i;
    assert Limited(list, size, (k - 1) * size)[i] == list[n];
  }

  /** A page holds elements of the list only. */
  lemma PageWithin<T>(list: seq<T>, size: nat, k: nat, i: nat)
    requires k >= 1 && i < |Page(list, size, k)|
    ensures Page(list, size, k)[i] in list
  {
    var n := PageAt(list, size, k, i);
  }

  function Pages<T>(list: seq<T>, size: nat, k: nat): seq<T> {
    if k == 0 then [] else Pages(list, size, k - 1) + Page(list, size, k)
  }

  lemma {:induction false} PagesArePrefix<T>(list: seq<T>, size: nat, k: nat)
    ensures k * size >= 0
    ensures Pages(list, size, k) == list[..Min(k * size, |list|)]
  {
    ProductNonNegative(k, size);
    if k > 0 {
      PagesArePrefix(list, size, k - 1);
      ProductNonNegative(k - 1, size);
      assert k * size == (k - 1) * size + size;
      var lo, hi := Min((k - 1) * size, |list|), Min(k * size, |list|);
      assert Page(list, size, k) == list[lo..hi];
      assert list[..lo] + list[lo..hi] == list[..hi];
    }
  }

  /** The number of pages is the number that covers the list: the first k pages are too few for any
      smaller k. */
  lemma TotalPagesCover(total: nat, size: int, k: nat)
    requires size >= 1
    ensures k >= CalculateTotalPages(total, size) <==> k * size >= total
  {
    var pages := CalculateTotalPages(total, size);
    if total > 0 {
      assert pages * size <= total + size - 1 < pages * size + size;
      if k >= pages {
        MulMonotone(pages, k, size);
      } else {
        MulMonotone(k, pages - 1, size);
        assert (pages - 1) * size == pages * size - size;
      }
    } else {
      ProductNonNegative(k, size);
    }
  }

  /** Pages 1 to TotalPages, concatenated, are the whole list. */
  lemma PagesCoverList<T>(list: seq<T>, size: int)
    requires size >= 1
    ensures CalculateTotalPages(|list|, size) >= 0
    ensures Pages(list, size, CalculateTotalPages(|list|, size)) == list
  {
    var pages := CalculateTotalPages(|list|, size);
    TotalPagesCover(|list|, size, pages);
    PagesArePrefix(list, size, pages);
  }

  /** A page is empty exactly when it lies past the last one. */
  lemma PageEmptiness<T>(list: seq<T>, size: int, k: nat)
    requires size >= 1 && k >= 1
    ensures Page(list, size, k) == [] <==> k > CalculateTotalPages(|list|, size)
    ensures |Page(list, size, k)| <= size
  {
    TotalPagesCover(|list|, size, k - 1);
    ProductNonNegative(k - 1, size);
  }

  /** The metadata of a page says whether its neighbours hold anything. */
  lemma MetadataIsTruthful<T>(list: seq<T>, r: Request)
    requires NewRequest(r.page, r.size).Ok?
    ensures var resp := NewResponse(Page(list, r.size, r.page), r, |list|);
            && resp.Ok?
            && (resp.value.hasNext <==> Page(list, r.size, r.page + 1) != [])
            && (resp.value.hasPrevious <==> r.page > 1 && Page(list, r.size, r.page) != [])
  {
    PageEmptiness(list, r.size, r.page);
    PageEmptiness(list, r.size, r.page + 1);
  }

  /** Every page that holds something can be asked for exactly when the last page's offset fits. */
  lemma AllPagesReachable(total: nat, size: int)
    requires 1 <= size <= MAX_SIZE && total > 0
    ensures (forall k :: 1 <= k <= CalculateTotalPages(total, size) ==> PageOffset(Request(k, size)).Ok?)
            <==> (CalculateTotalPages(total, size) - 1) * size <= MAX_INT32
  {
    var pages := CalculateTotalPages(total, size);
    TotalPagesCover(total, size, 0);
    forall k | 1 <= k <= pages
      ensures PageOffset(Request(k, size)).Ok? <==> (k - 1) * size <= MAX_INT32
      ensures (pages - 1) * size <= MAX_INT32 ==> PageOffset(Request(k, size)).Ok?
    {
      OffsetGrows(k, pages, size);
    }
    assert PageOffset(Request(pages, size)).Ok? <==> (pages - 1) * size <= MAX_INT32;
  }

  lemma OffsetGrows(k: int, last: int, size: int)
    requires 1 <= k <= last && size >= 1
    ensures PageOffset(Request(k, size)).Ok? <==> (k - 1) * size <= MAX_INT32
    ensures (k - 1) * size <= (last - 1) * size
  {
    PageOffsetExact(Request(k, size));
    MulMonotone(k - 1, last - 1, size);
  }
}
