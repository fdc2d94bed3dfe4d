/** The page ranges below a list and the previous and next buttons. */
module Pagination {

  function CeilDiv(a: nat, b: nat): nat
    requires b > 0
  {
    if a % b == 0 then a / b else a / b + 1
  }

  function TotalPages(total: nat, limit: nat): nat
    requires limit > 0
  {
    var pages := CeilDiv(total, limit);
    if pages > 1 then pages else 1
  }

  function First(page: int, limit: nat, total: nat): int {
    if total == 0 then 0 else (page - 1) * limit + 1
  }

  function Last(page: int, limit: nat, total: nat): int {
    if page * limit < total then page * limit else total
  }

  predicate OnPage(k: int, page: int, limit: nat, total: nat) {
    First(page, limit, total) <= k <= Last(page, limit, total)
  }

  lemma TotalPagesBounds(total: nat, limit: nat)
    requires total > 0 && limit > 0
    ensures (TotalPages(total, limit) - 1) * limit < total <= TotalPages(total, limit) * limit
  {
    var q, r := total / limit, total % limit;
    assert total == q * limit + r && 0 <= r < limit;
    if r == 0 {
      assert q > 0;
      assert (q - 1) * limit == q * limit - limit;
    } else {
      assert (q + 1) * limit == q * limit + limit;
    }
  }

  lemma MulMonotone(a: int, b: int, c: nat)
    requires a <= b
    ensures a * c <= b * c
  {
    assert (b - a) * c >= 0;
    assert (b - a) * c == b * c - a * c;
  }

  /** Pages follow one another without a gap, none is empty, and they run from 1 to the total; an
      empty list has one page, shown as 0 to 0. */
  lemma PagesTile(total: nat, limit: nat, page: int)
    requires limit > 0 && page >= 1 && (total > 0 ==> page <= TotalPages(total, limit))
    ensures total == 0 ==> TotalPages(total, limit) == 1 && First(page, limit, total) == Last(page, limit, total) == 0
    ensures total > 0 ==> First(1, limit, total) == 1 && First(page, limit, total) <= Last(page, limit, total)
    ensures Last(TotalPages(total, limit), limit, total) == total
    ensures total > 0 && page < TotalPages(total, limit) ==> First(page + 1, limit, total) == Last(page, limit, total) + 1
    ensures page < TotalPages(total, limit) ==> Last(page, limit, total) == page * limit
  {
    var n := TotalPages(total, limit);
    if total == 0 {
      return;
    }
    TotalPagesBounds(total, limit);
    MulMonotone(page - 1, n - 1, limit);
    assert page * limit == (page - 1) * limit + limit;
    if page < n {
      MulMonotone(page, n - 1, limit);
    }
  }

  function PageOf(k: nat, limit: nat): nat
    requires limit > 0 && k > 0
  {
    (k - 1) / limit + 1
  }

  /** Every row is on exactly one page. */
  lemma EveryRowOnOnePage(total: nat, limit: nat, k: nat, page: int)
    requires total > 0 && limit > 0 && 1 <= k <= total
    ensures 1 <= PageOf(k, limit) <= TotalPages(total, limit) && OnPage(k, PageOf(k, limit), limit, total)
    ensures 1 <= page <= TotalPages(total, limit) && OnPage(k, page, limit, total) ==> page == PageOf(k, limit)
  {
    var p := PageOf(k, limit);
    var n := TotalPages(total, limit);
    TotalPagesBounds(total, limit);
    assert k - 1 == (p - 1) * limit + (k - 1) % limit;
    assert p * limit == (p - 1) * limit + limit;
    if p > n {
      MulMonotone(n, p - 1, limit);
    }
    if page < p {
      MulMonotone(page, p - 1, limit);
    } else if page > p {
      MulMonotone(p, page - 1, limit);
    }
  }

  datatype Click = Previous | Next

  /** The page after a click; a disabled button does nothing. */
  function AfterClick(page: int, click: Click, total: nat, limit: nat): int
    requires limit > 0
  {
    match click
    case Previous => if page <= 1 then page else page - 1
    case Next => if page >= TotalPages(total, limit) then page else page + 1
  }

  function AfterClicks(page: int, clicks: seq<Click>, total: nat, limit: nat): int
    requires limit > 0
    decreases |clicks|
  {
    if clicks == [] then page else AfterClicks(AfterClick(page, clicks[0], total, limit), clicks[1..], total, limit)
  }

  lemma {:induction false} ClicksStayInRange(page: int, clicks: seq<Click>, total: nat, limit: nat)
    requires limit > 0 && 1 <= page <= TotalPages(total, limit)
    ensures 1 <= AfterClicks(page, clicks, total, limit) <= TotalPages(total, limit)
    decreases |clicks|
  {
    if clicks != [] {
      ClicksStayInRange(AfterClick(page, clicks[0], total, limit), clicks[1..], total, limit);
    }
  }

  function Clicks(click: Click, k: nat): seq<Click> {
    if k == 0 then [] else [click] + Clicks(click, k - 1)
  }

  /** Clicking on moves one page a click and stops at the last page, or at the first. */
  lemma {:induction false} ClicksReach(page: int, k: nat, total: nat, limit: nat)
    requires limit > 0 && 1 <= page <= TotalPages(total, limit)
    ensures AfterClicks(page, Clicks(Next, k), total, limit)
         == if page + k < TotalPages(total, limit) then page + k else TotalPages(total, limit)
    ensures AfterClicks(page, Clicks(Previous, k), total, limit) == if page - k > 1 then page - k else 1
    decreases k
  {
    if k > 0 {
      assert Clicks(Next, k)[1..] == Clicks(Next, k - 1) && Clicks(Previous, k)[1..] == Clicks(Previous, k - 1);
      ClicksReach(AfterClick(page, Next, total, limit), k - 1, total, limit);
      ClicksReach(AfterClick(page, Previous, total, limit), k - 1, total, limit);
    }
  }
}
