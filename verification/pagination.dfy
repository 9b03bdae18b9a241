/** Page arithmetic shared by the history and reports tables: `Math.max(1, Math.ceil(n / per))`
    pages, `slice((page - 1) * per, page * per)` for the rows of a page, and the clamped
    previous/next buttons. */
module Pagination {

  function Max(a: int, b: int): int {
    if a >= b then a else b
  }

  function Min(a: int, b: int): int {
    if a <= b then a else b
  }

  /** `Math.max(1, Math.ceil(n / per))`: the fewest pages of `per` rows holding `n` rows,
      and at least one page for an empty list. */
  function TotalPages(n: nat, per: nat): (t: nat)
    requires per > 0
    ensures t >= 1
    ensures n <= t * per
    ensures t == 1 || (t - 1) * per < n
  {
    var q := (n + per - 1) / per;
    assert q * per <= n + per - 1 < q * per + per;
    Max(1, q)
  }

  /** JavaScript `slice` index normalisation: a negative index counts from the end. */
  function SliceIndex(i: int, len: nat): (k: nat)
    ensures k <= len
    ensures 0 <= i <= len ==> k == i
  {
    if i < 0 then Max(len + i, 0) else Min(i, len)
  }

  /** `s.slice(start, end)` */
  function JsSlice<T>(s: seq<T>, start: int, end: int): (r: seq<T>)
    ensures |r| <= |s|
    ensures 0 <= start <= end <= |s| ==> r == s[start..end]
    ensures 0 <= start && |s| <= start ==> r == []
  {
    var a := SliceIndex(start, |s|);
    var b := SliceIndex(end, |s|);
    if a >= b then [] else s[a..b]
  }

  /** The rows shown on page `page` (counted from 1). */
  function PageItems<T>(s: seq<T>, page: int, per: nat): (r: seq<T>)
    requires per > 0
    ensures page >= 1 ==> |r| <= per
    ensures page >= 1 ==> |r| == Max(0, Min(per, |s| - (page - 1) * per))
    ensures page >= 1 ==> forall i :: 0 <= i < |r| ==> r[i] == s[(page - 1) * per + i]
  {
    var start := (page - 1) * per;
    var r := JsSlice(s, start, start + per);
    assert page >= 1 && start < |s| ==> r == s[start..Min(start + per, |s|)];
    r
  }

  /** `setCurrentPage(prev => Math.max(1, prev - 1))` */
  function PreviousPage(page: int): (p: int)
    ensures p >= 1
    ensures page > 1 ==> p == page - 1
    ensures page <= 1 ==> p == 1
  {
    Max(1, page - 1)
  }

  /** `setCurrentPage(prev => Math.min(totalPages, prev + 1))` */
  function NextPage(page: int, totalPages: int): (p: int)
    ensures p <= totalPages
    ensures page < totalPages ==> p == page + 1
    ensures page >= totalPages ==> p == totalPages
  {
    Min(totalPages, page + 1)
  }

  predicate PageInRange(page: int, totalPages: int) {
    1 <= page <= totalPages
  }

  /** The buttons keep a page that is in range in range. */
  lemma StepsStayInRange(page: int, totalPages: int)
    requires PageInRange(page, totalPages)
    ensures PageInRange(PreviousPage(page), totalPages)
    ensures PageInRange(NextPage(page, totalPages), totalPages)
  {
  }

  /** Pages 1 to `k` laid end to end. */
  function FirstPages<T>(s: seq<T>, per: nat, k: nat): seq<T>
    requires per > 0
  {
    if k == 0 then [] else FirstPages(s, per, k - 1) + PageItems(s, k, per)
  }

  /** Page `k` is the slice between the ends of pages `k - 1` and `k`, cut at the list's end. */
  lemma PageIsSlice<T>(s: seq<T>, per: nat, k: nat)
    requires per > 0 && k >= 1
    ensures Min((k - 1) * per, |s|) <= Min(k * per, |s|)
    ensures PageItems(s, k, per) == s[Min((k - 1) * per, |s|)..Min(k * per, |s|)]
  {
    var a := Min((k - 1) * per, |s|);
    var b := Min(k * per, |s|);
    assert k * per == (k - 1) * per + per;
    var page := PageItems(s, k, per);
    assert |page| == b - a;
    forall i | 0 <= i < |page| ensures page[i] == s[a..b][i] {
      assert page[i] == s[(k - 1) * per + i];
    }
  }

  lemma {:induction false} FirstPagesArePrefix<T>(s: seq<T>, per: nat, k: nat)
    requires per > 0
    ensures FirstPages(s, per, k) == s[..Min(k * per, |s|)]
  {
    if k > 0 {
      FirstPagesArePrefix(s, per, k - 1);
      PageIsSlice(s, per, k);
      var a := Min((k - 1) * per, |s|);
      var b := Min(k * per, |s|);
      assert s[..a] + s[a..b] == s[..b];
    }
  }

  /** The pages partition the list: read in order, pages 1 to `TotalPages` give back every
      row exactly once. */
  lemma PagesTile<T>(s: seq<T>, per: nat)
    requires per > 0
    ensures FirstPages(s, per, TotalPages(|s|, per)) == s
  {
    FirstPagesArePrefix(s, per, TotalPages(|s|, per));
  }

  /** Past the last page nothing is shown. */
  lemma PagesBeyondAreEmpty<T>(s: seq<T>, per: nat, page: int)
    requires per > 0
    requires page > TotalPages(|s|, per)
    ensures PageItems(s, page, per) == []
  {
    var t := TotalPages(|s|, per);
    assert (page - 1) * per >= t * per;
  }
}
