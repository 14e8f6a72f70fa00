/** Cutting a listing into pages of ten, as the Django paginator does for
    every feed view (page size 10, one page even for an empty listing, no
    orphans). A page number outside 1..NumPages yields no page. */
module Paging {
  import opened Wrappers

  const PerPage: nat := 10

  /** Number of pages for `count` rows: at least one, and just enough to hold them all. */
  function NumPages(count: nat): (n: nat)
    ensures n >= 1
    ensures count <= n * PerPage
    ensures n == 1 || (n - 1) * PerPage < count
  {
    if count == 0 then 1 else (count + PerPage - 1) / PerPage
  }

  function Min(a: int, b: int): int { if a <= b then a else b }

  /** Page `number` (1-based) of `s`, or None when the number is out of range. */
  function Page<T>(s: seq<T>, number: int): (r: Option<seq<T>>)
    ensures r.Some? <==> 1 <= number <= NumPages(|s|)
    ensures r.Some? ==> |r.value| <= PerPage
    ensures r.Some? ==> forall j :: 0 <= j < |r.value| ==>
      (number - 1) * PerPage + j < |s| && r.value[j] == s[(number - 1) * PerPage + j]
    ensures r.Some? && number < NumPages(|s|) ==> |r.value| == PerPage
    ensures r.Some? && |s| > 0 ==> |r.value| > 0
  {
    if 1 <= number <= NumPages(|s|) then
      Some(s[(number - 1) * PerPage .. Min(number * PerPage, |s|)])
    else None
  }

  /** Every row of the listing appears on page i / 10 + 1, at slot i % 10,
      so the pages together cover the listing. */
  lemma PageOf<T>(s: seq<T>, i: nat)
    requires i < |s|
    ensures Page(s, i / PerPage + 1).Some?
    ensures i % PerPage < |Page(s, i / PerPage + 1).value|
    ensures Page(s, i / PerPage + 1).value[i % PerPage] == s[i]
  {
    var k := i / PerPage + 1;
    assert (k - 1) * PerPage + i % PerPage == i;
  }

  /** Thirteen rows make two pages: ten rows, then three. */
  lemma ThirteenRows<T>(s: seq<T>)
    requires |s| == 13
    ensures NumPages(|s|) == 2
    ensures Page(s, 1).Some? && |Page(s, 1).value| == 10
    ensures Page(s, 2).Some? && |Page(s, 2).value| == 3
    ensures Page(s, 3).None?
  {
  }
}
