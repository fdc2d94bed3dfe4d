/** Half-up rounding to cents and the totals of a document, over exact reals. */
module Money {
  import opened Common

  /** `Math.round(n * 100)`: the nearest integer number of cents, halves upwards. */
  function Cents(n: real): int {
    (n * 100.0 + 0.5).Floor
  }

  function Round2(n: real): real {
    Cents(n) as real / 100.0
  }

  datatype Item = Item(quantity: real, unitPrice: real, discount: Option<real>, taxRate: Option<real>)

  datatype Totals = Totals(subtotal: real, discount: real, tax: real, total: real)

  function OrZero(x: Option<real>): real {
    if x.Some? then x.value else 0.0
  }

  function LineNet(i: Item): real {
    i.quantity * i.unitPrice - OrZero(i.discount)
  }

  function LineTax(i: Item): real {
    i.quantity * i.unitPrice * OrZero(i.taxRate)
  }

  /** The left fold of `reduce` from an accumulated sum. */
  function FoldNet(sum: real, items: seq<Item>): real
    decreases |items|
  {
    if items == [] then sum else FoldNet(sum + LineNet(items[0]), items[1..])
  }

  function FoldTax(sum: real, items: seq<Item>): real
    decreases |items|
  {
    if items == [] then sum else FoldTax(sum + LineTax(items[0]), items[1..])
  }

  function ComputeTotals(items: seq<Item>, globalDiscount: real): Totals {
    var subtotal := Round2(FoldNet(0.0, items));
    var tax := Round2(FoldTax(0.0, items));
    Totals(subtotal, Round2(globalDiscount), tax, Round2(subtotal + tax - globalDiscount))
  }

  // ---------- Rounding ----------

  /** The discount falls on a half cent. */
  predicate HalfCent(d: real) {
    d * 100.0 - (d * 100.0).Floor as real == 0.5
  }

  /** `Cents` is characterised by the half-open interval it rounds. */
  lemma CentsIff(n: real, k: int)
    ensures Cents(n) == k <==> k as real - 0.5 <= n * 100.0 < k as real + 0.5
  {
  }

  lemma CentsShift(n: real, k: int)
    ensures Cents(k as real / 100.0 + n) == k + Cents(n)
  {
    var m := Cents(n);
    CentsIff(n, m);
    CentsIff(k as real / 100.0 + n, k + m);
    assert (k as real / 100.0 + n) * 100.0 == k as real + n * 100.0;
    assert (k + m) as real == k as real + m as real;
  }

  lemma Round2Near(n: real)
    ensures n - 0.005 < Round2(n) <= n + 0.005
  {
    CentsIff(n, Cents(n));
  }

  lemma CentsNegated(d: real)
    ensures Cents(-d) + Cents(d) == (if HalfCent(d) then 1 else 0)
  {
    var k := (d * 100.0).Floor;
    var frac := d * 100.0 - k as real;
    assert (-d) * 100.0 == -(d * 100.0);
    if frac < 0.5 {
      CentsIff(d, k);
      CentsIff(-d, -k);
    } else if frac == 0.5 {
      CentsIff(d, k + 1);
      CentsIff(-d, -k);
    } else {
      CentsIff(d, k + 1);
      CentsIff(-d, -k - 1);
    }
  }

  /** The cents of a document balance, except that a discount on a half cent is rounded up on
      its own line and up again in the total: then the document is off by one cent. */
  lemma RoundedConservation(items: seq<Item>, discount: real)
    ensures var t := ComputeTotals(items, discount);
      t.total + t.discount - (t.subtotal + t.tax) == (if HalfCent(discount) then 0.01 else 0.0)
  {
    var s, x := Cents(FoldNet(0.0, items)), Cents(FoldTax(0.0, items));
    CentsShift(-discount, s + x);
    CentsNegated(discount);
    var t := ComputeTotals(items, discount);
    assert t.subtotal + t.tax - discount == (s + x) as real / 100.0 + -discount;
    assert Cents(t.subtotal + t.tax - discount) == s + x + Cents(-discount);
  }

  // ---------- Drift ----------

  /** The exact amounts, before any rounding. */
  function Net(items: seq<Item>): real {
    if items == [] then 0.0 else LineNet(items[0]) + Net(items[1..])
  }

  function Tax(items: seq<Item>): real {
    if items == [] then 0.0 else LineTax(items[0]) + Tax(items[1..])
  }

  lemma {:induction false} FoldsAdd(sum: real, items: seq<Item>)
    ensures FoldNet(sum, items) == sum + Net(items) && FoldTax(sum, items) == sum + Tax(items)
    decreases |items|
  {
    if items != [] {
      FoldsAdd(sum + LineNet(items[0]), items[1..]);
      FoldsAdd(sum + LineTax(items[0]), items[1..]);
    }
  }

  lemma {:induction false} SumsAppend(a: seq<Item>, b: seq<Item>)
    ensures Net(a + b) == Net(a) + Net(b) && Tax(a + b) == Tax(a) + Tax(b)
    decreases |a|
  {
    if a == [] {
      assert a + b == b;
    } else {
      assert (a + b)[1..] == a[1..] + b;
      SumsAppend(a[1..], b);
    }
  }

  function Flatten(groups: seq<seq<Item>>): seq<Item> {
    if groups == [] then [] else groups[0] + Flatten(groups[1..])
  }

  function GroupSubtotals(groups: seq<seq<Item>>): real {
    if groups == [] then 0.0 else ComputeTotals(groups[0], 0.0).subtotal + GroupSubtotals(groups[1..])
  }

  function GroupTaxes(groups: seq<seq<Item>>): real {
    if groups == [] then 0.0 else ComputeTotals(groups[0], 0.0).tax + GroupTaxes(groups[1..])
  }

  function Abs(x: real): real {
    if x < 0.0 then -x else x
  }

  lemma {:induction false} GroupsNear(groups: seq<seq<Item>>)
    ensures Abs(GroupSubtotals(groups) - Net(Flatten(groups))) <= 0.005 * |groups| as real
    ensures Abs(GroupTaxes(groups) - Tax(Flatten(groups))) <= 0.005 * |groups| as real
    decreases |groups|
  {
    if groups != [] {
      GroupsNear(groups[1..]);
      SumsAppend(groups[0], Flatten(groups[1..]));
      TotalsOfSums(groups[0], 0.0);
      Round2Near(Net(groups[0]));
      Round2Near(Tax(groups[0]));
      assert |groups| as real == 1.0 + |groups[1..]| as real;
    }
  }

  lemma TotalsOfSums(items: seq<Item>, discount: real)
    ensures ComputeTotals(items, discount).subtotal == Round2(Net(items))
    ensures ComputeTotals(items, discount).tax == Round2(Tax(items))
  {
    FoldsAdd(0.0, items);
  }

  lemma OneMoreHalfCent(a: real, exact: real, n: real)
    requires Abs(a - exact) <= 0.005 * n
    ensures Abs(a - Round2(exact)) <= 0.005 * (n + 1.0)
  {
    Round2Near(exact);
  }

  lemma RoundedNetNear(groups: seq<seq<Item>>)
    ensures Abs(GroupSubtotals(groups) - Round2(Net(Flatten(groups)))) <= 0.005 * (|groups| as real + 1.0)
  {
    GroupsNear(groups);
    OneMoreHalfCent(GroupSubtotals(groups), Net(Flatten(groups)), |groups| as real);
  }

  lemma RoundedTaxNear(groups: seq<seq<Item>>)
    ensures Abs(GroupTaxes(groups) - Round2(Tax(Flatten(groups)))) <= 0.005 * (|groups| as real + 1.0)
  {
    GroupsNear(groups);
    OneMoreHalfCent(GroupTaxes(groups), Tax(Flatten(groups)), |groups| as real);
  }

  /** Splitting an order into n documents moves the subtotal, and the tax, by at most half a
      cent for each document and half a cent for the order. */
  lemma SplitDrift(groups: seq<seq<Item>>, discount: real)
    ensures var whole, n := ComputeTotals(Flatten(groups), discount), |groups| as real;
      && Abs(GroupSubtotals(groups) - whole.subtotal) <= 0.005 * (n + 1.0)
      && Abs(GroupTaxes(groups) - whole.tax) <= 0.005 * (n + 1.0)
  {
    RoundedNetNear(groups);
    RoundedTaxNear(groups);
    TotalsOfSums(Flatten(groups), discount);
  }

  lemma TotalDrift(items: seq<Item>, discount: real)
    ensures Abs(ComputeTotals(items, discount).total - (Net(items) + Tax(items) - discount)) <= 0.015
  {
    var t := ComputeTotals(items, discount);
    FoldsAdd(0.0, items);
    Round2Near(Net(items));
    Round2Near(Tax(items));
    Round2Near(t.subtotal + t.tax - discount);
  }

  lemma {:induction false} SumsMoveToFront(items: seq<Item>, k: nat)
    requires k < |items|
    ensures Net(items) == LineNet(items[k]) + Net(items[..k] + items[k + 1..])
    ensures Tax(items) == LineTax(items[k]) + Tax(items[..k] + items[k + 1..])
  {
    assert items == items[..k] + items[k..];
    SumsAppend(items[..k], items[k..]);
    SumsAppend(items[..k], items[k + 1..]);
  }

  lemma RemoveAt(items: seq<Item>, k: nat)
    requires k < |items|
    ensures multiset(items[..k] + items[k + 1..]) == multiset(items) - multiset{items[k]}
  {
    assert items == items[..k] + [items[k]] + items[k + 1..];
  }

  lemma PlaceOf(item: Item, items: seq<Item>) returns (k: nat)
    requires item in multiset(items)
    ensures k < |items| && items[k] == item
  {
    k :| 0 <= k < |items| && items[k] == item;
  }

  /** Taking the first of `a` out of both leaves permutations. */
  lemma FirstTaken(a: seq<Item>, b: seq<Item>, k: nat)
    requires a != [] && multiset(a) == multiset(b) && k < |b| && b[k] == a[0]
    ensures multiset(a[1..]) == multiset(b[..k] + b[k + 1..])
  {
    RemoveAt(a, 0);
    RemoveAt(b, k);
    assert a[..0] + a[1..] == a[1..];
  }

  lemma {:induction false} SumsPermute(a: seq<Item>, b: seq<Item>)
    requires multiset(a) == multiset(b)
    ensures Net(a) == Net(b) && Tax(a) == Tax(b)
    decreases |a|
  {
    if a == [] {
      assert |multiset(b)| == 0;
    } else {
      assert a[0] in multiset(a);
      var k := PlaceOf(a[0], b);
      FirstTaken(a, b, k);
      SumsMoveToFront(b, k);
      SumsPermute(a[1..], b[..k] + b[k + 1..]);
    }
  }

  /** The totals do not depend on the order of the items. */
  lemma TotalsPermute(a: seq<Item>, b: seq<Item>, discount: real)
    requires multiset(a) == multiset(b)
    ensures ComputeTotals(a, discount) == ComputeTotals(b, discount)
  {
    SumsPermute(a, b);
    FoldsAdd(0.0, a);
    FoldsAdd(0.0, b);
  }

  function LineDiscounts(items: seq<Item>): real {
    if items == [] then 0.0 else OrZero(items[0].discount) + LineDiscounts(items[1..])
  }

  function WithoutDiscounts(items: seq<Item>): seq<Item> {
    seq(|items|, i requires 0 <= i < |items| => items[i].(discount := None))
  }

  /** Line discounts lower the net amount by exactly their sum and leave the tax as it was: tax
      is charged on the price before the discount. */
  lemma {:induction false} DiscountsLeaveTax(items: seq<Item>)
    ensures Tax(items) == Tax(WithoutDiscounts(items))
    ensures Net(items) == Net(WithoutDiscounts(items)) - LineDiscounts(items)
    decreases |items|
  {
    if items != [] {
      assert WithoutDiscounts(items)[1..] == WithoutDiscounts(items[1..]);
      DiscountsLeaveTax(items[1..]);
    } else {
      assert WithoutDiscounts(items) == [];
    }
  }

  lemma TaxIgnoresDiscounts(items: seq<Item>, discount: real, discount': real)
    ensures ComputeTotals(items, discount).tax == ComputeTotals(WithoutDiscounts(items), discount').tax
  {
    FoldsAdd(0.0, items);
    FoldsAdd(0.0, WithoutDiscounts(items));
    DiscountsLeaveTax(items);
  }
}
