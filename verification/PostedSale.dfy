/** The sale a ticket is posted as: what the server accepts, the prices and tax rates it fills
    in, and how its totals relate to the ones shown at the till. */
module PostedSale {
  import opened Common
  import opened Money
  import opened PosTicket
  import SalesTax

  datatype PostedItem = PostedItem(
    productId: string, variantId: Option<string>, quantity: real, unitPrice: Option<real>, taxRate: Option<real>)

  function PostedOf(line: Line): PostedItem {
    PostedItem(line.productId, line.variantId, ToNumber(line.quantity),
               if line.unitPrice.Blank? then None else Some(ToNumber(line.unitPrice)),
               if line.taxRate.Blank? then None else Some(ToNumber(line.taxRate) / 100.0))
  }

  function PostedItems(lines: seq<Line>): seq<PostedItem> {
    seq(|lines|, i requires 0 <= i < |lines| => PostedOf(lines[i]))
  }

  function PostedDiscount(discount: Entry): Option<real> {
    if discount.Blank? then None else Some(discount.value)
  }

  // ---------- The server ----------

  datatype Variant = Variant(productId: string, salePrice: real)

  /** The sale prices of the tenant's products and the variants of its products. */
  datatype Catalogue = Catalogue(products: map<string, real>, variants: map<string, Variant>)

  datatype Refusal = BadRequest | NotFound

  predicate ValidItem(item: PostedItem) {
    && item.quantity >= 0.0001
    && (item.unitPrice.Some? ==> item.unitPrice.value >= 0.0)
    && (item.taxRate.Some? ==> item.taxRate.value >= 0.0)
  }

  predicate ValidSale(items: seq<PostedItem>, discount: Option<real>) {
    && items != []
    && (forall i :: 0 <= i < |items| ==> ValidItem(items[i]))
    && (discount.Some? ==> discount.value >= 0.0)
  }

  function PriceOf(catalogue: Catalogue, item: PostedItem): Result<real, Refusal> {
    if item.productId !in catalogue.products then Err(NotFound)
    else if item.variantId.None? then
      Ok(if item.unitPrice.Some? then item.unitPrice.value else catalogue.products[item.productId])
    else if item.variantId.value !in catalogue.variants then Err(NotFound)
    else
      var variant := catalogue.variants[item.variantId.value];
      if variant.productId != item.productId then Err(BadRequest)
      else Ok(if item.unitPrice.Some? then item.unitPrice.value else variant.salePrice)
  }

  /** `rate` is the sales tax rate resolved for the customer, for items that post none. */
  function InvoiceItem(catalogue: Catalogue, rate: real, item: PostedItem): Result<Item, Refusal> {
    match PriceOf(catalogue, item)
    case Err(e) => Err(e)
    case Ok(price) =>
      Ok(Item(item.quantity, price, Some(0.0), Some(if item.taxRate.Some? then item.taxRate.value else rate)))
  }

  /** The first item that is refused refuses the sale. */
  function InvoiceItems(catalogue: Catalogue, rate: real, items: seq<PostedItem>): Result<seq<Item>, Refusal> {
    if items == [] then Ok([])
    else
      match InvoiceItem(catalogue, rate, items[0])
      case Err(e) => Err(e)
      case Ok(first) =>
        match InvoiceItems(catalogue, rate, items[1..])
        case Err(e) => Err(e)
        case Ok(rest) => Ok([first] + rest)
  }

  function CreateDirect(catalogue: Catalogue, rate: real, items: seq<PostedItem>, discount: Option<real>)
    : Result<Totals, Refusal>
  {
    if !ValidSale(items, discount) then Err(BadRequest)
    else
      match InvoiceItems(catalogue, rate, items)
      case Err(e) => Err(e)
      case Ok(sold) => Ok(ComputeTotals(sold, OrZero(discount)))
  }

  /** The rate the server resolves for a customer of a tenant. */
  function SaleRate(country: string, table: SalesTax.Rates, config: SalesTax.TaxConfig,
                    customerState: Option<string>, taxExempt: bool): (rate: real)
    ensures taxExempt || customerState.None? || country != "US" ==> rate == 0.0
    ensures SalesTax.Stored(table, config) && (forall code :: code in table ==> table[code] >= 0.0) ==> rate >= 0.0
  {
    if country != "US" then 0.0 else SalesTax.ResolveRate(table, Some(config), customerState, taxExempt)
  }

  /** The sale of a ticket. */
  function Sale(catalogue: Catalogue, rate: real, lines: seq<Line>, discount: Entry): Result<Totals, Refusal> {
    CreateDirect(catalogue, rate, PostedItems(lines), PostedDiscount(discount))
  }

  // ---------- What is accepted and what is charged ----------

  /** The product exists, and the variant when there is one exists and is the product's. */
  predicate Sellable(catalogue: Catalogue, item: PostedItem) {
    && item.productId in catalogue.products
    && (item.variantId.Some? ==>
          item.variantId.value in catalogue.variants && catalogue.variants[item.variantId.value].productId == item.productId)
  }

  lemma {:induction false} InvoiceItemsIff(catalogue: Catalogue, rate: real, items: seq<PostedItem>)
    ensures InvoiceItems(catalogue, rate, items).Ok? <==> forall i :: 0 <= i < |items| ==> Sellable(catalogue, items[i])
    decreases |items|
  {
    if items != [] {
      assert InvoiceItem(catalogue, rate, items[0]).Ok? <==> Sellable(catalogue, items[0]);
      InvoiceItemsIff(catalogue, rate, items[1..]);
      assert forall i :: 0 < i < |items| ==> items[i] == items[1..][i - 1];
    }
  }

  /** A sale is accepted exactly when it has an item, each item has a quantity of at least 0.0001,
      no negative price or rate, a known product and a variant of it or none, and the discount is
      not negative. */
  lemma AcceptedIff(catalogue: Catalogue, rate: real, items: seq<PostedItem>, discount: Option<real>)
    ensures CreateDirect(catalogue, rate, items, discount).Ok? <==>
            && items != [] && (discount.Some? ==> discount.value >= 0.0)
            && (forall i :: 0 <= i < |items| ==>
                  && Sellable(catalogue, items[i]) && items[i].quantity >= 0.0001
                  && (items[i].unitPrice.Some? ==> items[i].unitPrice.value >= 0.0)
                  && (items[i].taxRate.Some? ==> items[i].taxRate.value >= 0.0))
  {
    InvoiceItemsIff(catalogue, rate, items);
    if items != [] && (discount.Some? ==> discount.value >= 0.0) && forall i :: 0 <= i < |items| ==> ValidItem(items[i]) {
      assert ValidSale(items, discount);
    }
  }

  lemma {:induction false} FirstRefusal(catalogue: Catalogue, rate: real, items: seq<PostedItem>, i: nat)
    requires i < |items| && !Sellable(catalogue, items[i]) && forall j :: 0 <= j < i ==> Sellable(catalogue, items[j])
    ensures InvoiceItems(catalogue, rate, items) == Err(RefusalOf(catalogue, items[i]))
    decreases i
  {
    if i > 0 {
      assert Sellable(catalogue, items[0]);
      assert forall j :: 0 <= j < i ==> items[1..][j] == items[j + 1];
      FirstRefusal(catalogue, rate, items[1..], i - 1);
    }
  }

  /** Unknown products and variants are not found; a variant of another product is a bad request. */
  function RefusalOf(catalogue: Catalogue, item: PostedItem): Refusal {
    if item.productId in catalogue.products && (item.variantId.Some? ==> item.variantId.value in catalogue.variants)
    then BadRequest else NotFound
  }

  /** A sale out of bounds is a bad request; otherwise the first item that cannot be sold decides
      the refusal. */
  lemma RefusedAs(catalogue: Catalogue, rate: real, items: seq<PostedItem>, discount: Option<real>, i: nat)
    requires i < |items| && !Sellable(catalogue, items[i]) && forall j :: 0 <= j < i ==> Sellable(catalogue, items[j])
    ensures CreateDirect(catalogue, rate, items, discount)
         == Err(if ValidSale(items, discount) then RefusalOf(catalogue, items[i]) else BadRequest)
  {
    FirstRefusal(catalogue, rate, items, i);
  }

  /** What a line is charged at: its own price and rate where it has them; otherwise the price of
      the variant, or of the product when it has no variant, and the customer's rate. */
  ghost predicate Charged(catalogue: Catalogue, rate: real, line: Line, item: Item) {
    && Sellable(catalogue, PostedOf(line))
    && item.quantity == ToNumber(line.quantity) && OrZero(item.discount) == 0.0
    && item.unitPrice == (match line.unitPrice
                          case Number(price) => price
                          case Blank =>
                            if line.variantId.Some? then catalogue.variants[line.variantId.value].salePrice
                            else catalogue.products[line.productId])
    && item.taxRate == Some(match line.taxRate case Number(percent) => percent / 100.0 case Blank => rate)
  }

  lemma InvoiceItemsCons(catalogue: Catalogue, rate: real, lines: seq<Line>, sold: seq<Item>)
    requires lines != [] && InvoiceItems(catalogue, rate, PostedItems(lines)) == Ok(sold)
    ensures sold != [] && InvoiceItem(catalogue, rate, PostedOf(lines[0])) == Ok(sold[0])
    ensures InvoiceItems(catalogue, rate, PostedItems(lines[1..])) == Ok(sold[1..])
  {
    assert PostedItems(lines)[1..] == PostedItems(lines[1..]);
  }

  lemma {:induction false} ChargedLines(catalogue: Catalogue, rate: real, lines: seq<Line>, sold: seq<Item>)
    requires InvoiceItems(catalogue, rate, PostedItems(lines)) == Ok(sold)
    ensures |sold| == |lines| && forall i :: 0 <= i < |lines| ==> Charged(catalogue, rate, lines[i], sold[i])
    decreases |lines|
  {
    if lines != [] {
      InvoiceItemsCons(catalogue, rate, lines, sold);
      ChargedLines(catalogue, rate, lines[1..], sold[1..]);
      assert Charged(catalogue, rate, lines[0], sold[0]);
      assert forall i :: 0 < i < |lines| ==> lines[i] == lines[1..][i - 1] && sold[i] == sold[1..][i - 1];
    }
  }

  /** An accepted sale has the totals of its lines as they are charged, one item for each. */
  lemma SaleIsCharged(catalogue: Catalogue, rate: real, lines: seq<Line>, discount: Entry) returns (sold: seq<Item>)
    requires Sale(catalogue, rate, lines, discount).Ok?
    ensures |sold| == |lines| && forall i :: 0 <= i < |lines| ==> Charged(catalogue, rate, lines[i], sold[i])
    ensures Sale(catalogue, rate, lines, discount).value
         == ComputeTotals(sold, if discount.Number? then discount.value else 0.0)
  {
    sold := InvoiceItems(catalogue, rate, PostedItems(lines)).value;
    ChargedLines(catalogue, rate, lines, sold);
  }

  // ---------- What the till leaves out ----------

  /** The amount the server charges for a line, 0 for one it refuses. */
  function SoldNet(catalogue: Catalogue, line: Line): real {
    match PriceOf(catalogue, PostedOf(line))
    case Ok(price) => ToNumber(line.quantity) * price
    case Err(_) => 0.0
  }

  /** The amount charged on lines without a price, which the till counts as 0. */
  function BlankPriceNet(catalogue: Catalogue, lines: seq<Line>): real {
    if lines == [] then 0.0
    else (if lines[0].unitPrice.Blank? then SoldNet(catalogue, lines[0]) else 0.0) + BlankPriceNet(catalogue, lines[1..])
  }

  /** The tax charged on a line and not shown: all of it without a rate on the line, and without
      a price the rate on the price filled in. */
  function LineExtraTax(catalogue: Catalogue, rate: real, line: Line): real {
    if line.taxRate.Blank? then rate * SoldNet(catalogue, line)
    else if line.unitPrice.Blank? then line.taxRate.value / 100.0 * SoldNet(catalogue, line)
    else 0.0
  }

  function ExtraTax(catalogue: Catalogue, rate: real, lines: seq<Line>): real {
    if lines == [] then 0.0
    else LineExtraTax(catalogue, rate, lines[0]) + ExtraTax(catalogue, rate, lines[1..])
  }

  lemma LineDiffers(catalogue: Catalogue, rate: real, line: Line, item: Item)
    requires InvoiceItem(catalogue, rate, PostedOf(line)) == Ok(item)
    ensures LineNet(item) == ShownNet(line) + if line.unitPrice.Blank? then SoldNet(catalogue, line) else 0.0
    ensures LineTax(item) == ShownTax(line) + LineExtraTax(catalogue, rate, line)
  {
  }

  lemma {:induction false} NetDiffers(
      catalogue: Catalogue, rate: real, lines: seq<Line>, sold: seq<Item>, shown: real, charged: real)
    requires InvoiceItems(catalogue, rate, PostedItems(lines)) == Ok(sold)
    ensures FoldNet(charged, sold) == FoldShown(shown, lines) + (charged - shown) + BlankPriceNet(catalogue, lines)
    decreases |lines|
  {
    if lines != [] {
      InvoiceItemsCons(catalogue, rate, lines, sold);
      LineDiffers(catalogue, rate, lines[0], sold[0]);
      NetDiffers(catalogue, rate, lines[1..], sold[1..], shown + ShownNet(lines[0]), charged + LineNet(sold[0]));
    }
  }

  lemma {:induction false} TaxDiffers(
      catalogue: Catalogue, rate: real, lines: seq<Line>, sold: seq<Item>, shown: real, charged: real)
    requires InvoiceItems(catalogue, rate, PostedItems(lines)) == Ok(sold)
    ensures FoldTax(charged, sold) == FoldShownTax(shown, lines) + (charged - shown) + ExtraTax(catalogue, rate, lines)
    decreases |lines|
  {
    if lines != [] {
      InvoiceItemsCons(catalogue, rate, lines, sold);
      LineDiffers(catalogue, rate, lines[0], sold[0]);
      TaxDiffers(catalogue, rate, lines[1..], sold[1..], shown + ShownTax(lines[0]), charged + LineTax(sold[0]));
    }
  }

  // ---------- The two totals ----------

  function Rounded(net: real, tax: real, discount: real): Totals {
    Totals(Round2(net), Round2(discount), Round2(tax), Round2(Round2(net) + Round2(tax) - discount))
  }

  /** The total in cents: subtotal and tax are rounded first, the discount comes off after. */
  lemma TotalCents(net: real, tax: real, discount: real)
    ensures Rounded(net, tax, discount).total == (Cents(net) + Cents(tax) + Cents(-discount)) as real / 100.0
  {
    CentsShift(-discount, Cents(net) + Cents(tax));
    assert Round2(net) + Round2(tax) - discount == (Cents(net) + Cents(tax)) as real / 100.0 + -discount;
  }

  lemma CompareRounded(net: real, tax: real, net': real, tax': real, discount: real)
    ensures var a, b := Rounded(net, tax, discount), Rounded(net', tax', discount);
      && (a.subtotal == b.subtotal <==> Cents(net) == Cents(net'))
      && (a.tax == b.tax <==> Cents(tax) == Cents(tax'))
      && (a.total == b.total <==> Cents(net) + Cents(tax) == Cents(net') + Cents(tax'))
      && (a.subtotal <= b.subtotal <==> Cents(net) <= Cents(net'))
      && (a.tax <= b.tax <==> Cents(tax) <= Cents(tax'))
      && (a.total <= b.total <==> Cents(net) + Cents(tax) <= Cents(net') + Cents(tax'))
  {
    TotalCents(net, tax, discount);
    TotalCents(net', tax', discount);
  }

  lemma TillRounded(lines: seq<Line>, discount: Entry)
    requires discount.Number? ==> discount.value >= 0.0
    ensures ShownTotals(lines, discount)
         == Rounded(FoldShown(0.0, lines), FoldShownTax(0.0, lines), OrZero(PostedDiscount(discount)))
  {
  }

  lemma SaleRounded(catalogue: Catalogue, rate: real, lines: seq<Line>, discount: Entry)
    requires Sale(catalogue, rate, lines, discount).Ok?
    ensures Sale(catalogue, rate, lines, discount).value
         == Rounded(FoldShown(0.0, lines) + BlankPriceNet(catalogue, lines),
                    FoldShownTax(0.0, lines) + ExtraTax(catalogue, rate, lines), OrZero(PostedDiscount(discount)))
  {
    var sold := InvoiceItems(catalogue, rate, PostedItems(lines)).value;
    NetDiffers(catalogue, rate, lines, sold, 0.0, 0.0);
    TaxDiffers(catalogue, rate, lines, sold, 0.0, 0.0);
  }

  /** For every ticket the server accepts, the till and the sale show the same discount, and each
      other amount agrees exactly when what the server fills in does not move its cents. */
  lemma TwoTotalsAgreeIff(catalogue: Catalogue, rate: real, lines: seq<Line>, discount: Entry)
    requires Sale(catalogue, rate, lines, discount).Ok?
    ensures var till, sale := ShownTotals(lines, discount), Sale(catalogue, rate, lines, discount).value;
      var net, tax := FoldShown(0.0, lines), FoldShownTax(0.0, lines);
      var net', tax' := net + BlankPriceNet(catalogue, lines), tax + ExtraTax(catalogue, rate, lines);
      && till.discount == sale.discount
      && (till.subtotal == sale.subtotal <==> Cents(net) == Cents(net'))
      && (till.tax == sale.tax <==> Cents(tax) == Cents(tax'))
      && (till.total == sale.total <==> Cents(net) + Cents(tax) == Cents(net') + Cents(tax'))
  {
    var net, tax := FoldShown(0.0, lines), FoldShownTax(0.0, lines);
    TillRounded(lines, discount);
    SaleRounded(catalogue, rate, lines, discount);
    CompareRounded(net, tax, net + BlankPriceNet(catalogue, lines), tax + ExtraTax(catalogue, rate, lines),
                   OrZero(PostedDiscount(discount)));
  }

  // ---------- Never more than charged ----------

  /** No price in the catalogue is negative. */
  ghost predicate Priced(catalogue: Catalogue) {
    && (forall p :: p in catalogue.products ==> catalogue.products[p] >= 0.0)
    && (forall v :: v in catalogue.variants ==> catalogue.variants[v].salePrice >= 0.0)
  }

  lemma CentsMonotone(a: real, b: real)
    requires b >= 0.0
    ensures Cents(a) <= Cents(a + b)
    ensures b >= 0.01 ==> Cents(a) < Cents(a + b)
  {
    CentsIff(a, Cents(a));
    CentsIff(a + b, Cents(a + b));
  }

  lemma LineExtraNonNegative(catalogue: Catalogue, rate: real, line: Line)
    requires Priced(catalogue) && rate >= 0.0 && ValidItem(PostedOf(line))
    ensures SoldNet(catalogue, line) >= 0.0 && LineExtraTax(catalogue, rate, line) >= 0.0
  {
  }

  lemma {:induction false} ExtraNonNegative(catalogue: Catalogue, rate: real, lines: seq<Line>)
    requires Priced(catalogue) && rate >= 0.0
    requires forall i :: 0 <= i < |lines| ==> ValidItem(PostedOf(lines[i]))
    ensures BlankPriceNet(catalogue, lines) >= 0.0 && ExtraTax(catalogue, rate, lines) >= 0.0
    decreases |lines|
  {
    if lines != [] {
      LineExtraNonNegative(catalogue, rate, lines[0]);
      ExtraNonNegative(catalogue, rate, lines[1..]);
    }
  }

  lemma FilledInNonNegative(catalogue: Catalogue, rate: real, lines: seq<Line>, discount: Entry)
    requires Priced(catalogue) && rate >= 0.0 && Sale(catalogue, rate, lines, discount).Ok?
    ensures BlankPriceNet(catalogue, lines) >= 0.0 && ExtraTax(catalogue, rate, lines) >= 0.0
  {
    forall i | 0 <= i < |lines| ensures ValidItem(PostedOf(lines[i])) {
      assert ValidItem(PostedItems(lines)[i]);
    }
    ExtraNonNegative(catalogue, rate, lines);
  }

  lemma MoreIsNotLess(net: real, tax: real, net': real, tax': real, discount: real)
    requires net <= net' && tax <= tax'
    ensures var a, b := Rounded(net, tax, discount), Rounded(net', tax', discount);
      a.subtotal <= b.subtotal && a.tax <= b.tax && a.total <= b.total
  {
    CentsMonotone(net, net' - net);
    CentsMonotone(tax, tax' - tax);
    CompareRounded(net, tax, net', tax', discount);
  }

  /** The till never shows more than the sale: what the server fills in is not negative. */
  lemma TillNeverShowsMore(catalogue: Catalogue, rate: real, lines: seq<Line>, discount: Entry)
    requires Sale(catalogue, rate, lines, discount).Ok?
    ensures var till, sale := ShownTotals(lines, discount), Sale(catalogue, rate, lines, discount).value;
      Priced(catalogue) && rate >= 0.0 ==>
        till.subtotal <= sale.subtotal && till.tax <= sale.tax && till.total <= sale.total
  {
    var net, tax := FoldShown(0.0, lines), FoldShownTax(0.0, lines);
    if Priced(catalogue) && rate >= 0.0 {
      FilledInNonNegative(catalogue, rate, lines, discount);
      TillRounded(lines, discount);
      SaleRounded(catalogue, rate, lines, discount);
      MoreIsNotLess(net, tax, net + BlankPriceNet(catalogue, lines), tax + ExtraTax(catalogue, rate, lines),
                    OrZero(PostedDiscount(discount)));
    }
  }

  // ---------- Tickets with all prices filled in ----------

  predicate AllPriced(lines: seq<Line>) {
    forall i :: 0 <= i < |lines| ==> lines[i].unitPrice.Number?
  }

  predicate AllRated(lines: seq<Line>) {
    forall i :: 0 <= i < |lines| ==> lines[i].taxRate.Number?
  }

  /** The amount on lines without a tax rate. */
  function BlankRateNet(lines: seq<Line>): real {
    if lines == [] then 0.0
    else (if lines[0].taxRate.Blank? then ShownNet(lines[0]) else 0.0) + BlankRateNet(lines[1..])
  }

  lemma {:induction false} PricedSums(catalogue: Catalogue, rate: real, lines: seq<Line>, sold: seq<Item>)
    requires AllPriced(lines) && InvoiceItems(catalogue, rate, PostedItems(lines)) == Ok(sold)
    ensures BlankPriceNet(catalogue, lines) == 0.0
    ensures ExtraTax(catalogue, rate, lines) == rate * BlankRateNet(lines)
    ensures AllRated(lines) ==> BlankRateNet(lines) == 0.0
    decreases |lines|
  {
    if lines != [] {
      InvoiceItemsCons(catalogue, rate, lines, sold);
      PricedSums(catalogue, rate, lines[1..], sold[1..]);
      assert SoldNet(catalogue, lines[0]) == ShownNet(lines[0]);
      Distributes(rate, if lines[0].taxRate.Blank? then ShownNet(lines[0]) else 0.0, BlankRateNet(lines[1..]));
    }
  }

  lemma Distributes(rate: real, a: real, b: real)
    ensures rate * (a + b) == rate * a + rate * b
  {
  }

  /** Tax and total agree exactly when `extra` does not move the cents of the tax. */
  ghost predicate TaxMoves(till: Totals, sale: Totals, tax: real, extra: real) {
    && (till.tax == sale.tax <==> Cents(tax) == Cents(tax + extra))
    && (till.total == sale.total <==> Cents(tax) == Cents(tax + extra))
    && (extra == 0.0 ==> till == sale)
    && (extra >= 0.01 ==> till.tax < sale.tax && till.total < sale.total)
  }

  lemma ExtraMoves(net: real, tax: real, extra: real, discount: real)
    ensures TaxMoves(Rounded(net, tax, discount), Rounded(net, tax + extra, discount), tax, extra)
  {
    CompareRounded(net, tax, net, tax + extra, discount);
    if extra >= 0.01 {
      CentsMonotone(tax, extra);
    }
  }

  lemma PricedTaxMoves(catalogue: Catalogue, rate: real, lines: seq<Line>, discount: Entry)
    requires AllPriced(lines) && Sale(catalogue, rate, lines, discount).Ok?
    ensures var till, sale := ShownTotals(lines, discount), Sale(catalogue, rate, lines, discount).value;
      && till.subtotal == sale.subtotal && till.discount == sale.discount
      && TaxMoves(till, sale, FoldShownTax(0.0, lines), ExtraTax(catalogue, rate, lines))
  {
    PricedSums(catalogue, rate, lines, InvoiceItems(catalogue, rate, PostedItems(lines)).value);
    TillRounded(lines, discount);
    SaleRounded(catalogue, rate, lines, discount);
    ExtraMoves(FoldShown(0.0, lines), FoldShownTax(0.0, lines), ExtraTax(catalogue, rate, lines),
               OrZero(PostedDiscount(discount)));
  }

  /** With every price filled in, subtotal and discount always agree; tax and total agree exactly
      when the default rate on the lines without one does not move the cents of the tax. No such
      line, or no default rate, is enough; a whole cent of it is too much. */
  lemma PricedTotalsAgreeIff(catalogue: Catalogue, rate: real, lines: seq<Line>, discount: Entry)
    requires AllPriced(lines) && Sale(catalogue, rate, lines, discount).Ok?
    ensures var till, sale := ShownTotals(lines, discount), Sale(catalogue, rate, lines, discount).value;
      var tax, extra := FoldShownTax(0.0, lines), rate * BlankRateNet(lines);
      && till.subtotal == sale.subtotal && till.discount == sale.discount
      && (till.tax == sale.tax <==> Cents(tax) == Cents(tax + extra))
      && (till.total == sale.total <==> Cents(tax) == Cents(tax + extra))
      && (rate == 0.0 || AllRated(lines) ==> till == sale)
      && (extra >= 0.01 ==> till.tax < sale.tax && till.total < sale.total)
  {
    PricedTaxMoves(catalogue, rate, lines, discount);
    PricedSums(catalogue, rate, lines, InvoiceItems(catalogue, rate, PostedItems(lines)).value);
  }

  // ---------- Tickets made of taps ----------

  /** The product is in the catalogue at the price it is shown with. */
  predicate Offered(catalogue: Catalogue, product: Product) {
    && product.salePrice >= 0.0 && product.id in catalogue.products
    && match product.variantId
       case None => catalogue.products[product.id] == product.salePrice
       case Some(v) => v in catalogue.variants && catalogue.variants[v] == Variant(product.id, product.salePrice)
  }

  /** A line that taps alone have made. */
  predicate TapLine(catalogue: Catalogue, line: Line) {
    && line.quantity.Number? && line.quantity.value >= 1.0 && line.taxRate.Blank?
    && line.unitPrice.Number? && line.unitPrice.value >= 0.0
    && PriceOf(catalogue, PostedOf(line)) == Ok(line.unitPrice.value)
  }

  lemma TapsMakeTapLines(catalogue: Catalogue, taps: seq<Product>, i: nat)
    requires forall p :: p in taps ==> Offered(catalogue, p)
    requires i < |Tapped(taps)|
    ensures TapLine(catalogue, Tapped(taps)[i])
  {
    TicketCountsTaps(taps);
    FirstTapsAreTaps(taps);
    var first, line := FirstTaps(taps)[i], Tapped(taps)[i];
    assert LineCounts(taps, i) && first in FirstTaps(taps);
    assert LineKey(line) == ProductKey(first);
    assert HasKey(Tapped(taps), ProductKey(first));
  }

  lemma {:induction false} TapLinesSell(catalogue: Catalogue, rate: real, lines: seq<Line>)
    requires forall i :: 0 <= i < |lines| ==> TapLine(catalogue, lines[i])
    ensures InvoiceItems(catalogue, rate, PostedItems(lines)).Ok?
    decreases |lines|
  {
    if lines != [] {
      assert PostedItems(lines)[0] == PostedOf(lines[0]) && PostedItems(lines)[1..] == PostedItems(lines[1..]);
      TapLinesSell(catalogue, rate, lines[1..]);
    }
  }

  lemma {:induction false} UnratedSums(lines: seq<Line>, net: real, tax: real)
    requires forall i :: 0 <= i < |lines| ==> lines[i].taxRate.Blank?
    ensures FoldShownTax(tax, lines) == tax && FoldShown(net, lines) == net + BlankRateNet(lines)
    decreases |lines|
  {
    if lines != [] {
      assert ShownTax(lines[0]) == 0.0;
      UnratedSums(lines[1..], net + ShownNet(lines[0]), tax);
    }
  }

  lemma OfferedPricesConstant(catalogue: Catalogue, taps: seq<Product>)
    requires forall p :: p in taps ==> Offered(catalogue, p)
    ensures ConstantPrices(taps)
  {
    forall i, j | 0 <= i < |taps| && 0 <= j < |taps| && ProductKey(taps[i]) == ProductKey(taps[j])
      ensures taps[i].salePrice == taps[j].salePrice
    {
      assert Offered(catalogue, taps[i]) && Offered(catalogue, taps[j]);
    }
  }

  lemma TapsAccepted(catalogue: Catalogue, rate: real, taps: seq<Product>, discount: Entry)
    requires taps != [] && forall p :: p in taps ==> Offered(catalogue, p)
    requires discount.Number? ==> discount.value >= 0.0
    ensures AllPriced(Tapped(taps)) && Sale(catalogue, rate, Tapped(taps), discount).Ok?
  {
    var lines := Tapped(taps);
    forall i | 0 <= i < |lines| ensures TapLine(catalogue, lines[i]) {
      TapsMakeTapLines(catalogue, taps, i);
    }
    assert lines == AddProduct(Tapped(taps[..|taps| - 1]), taps[|taps| - 1]);
    TapLinesSell(catalogue, rate, lines);
  }

  lemma TapsSums(catalogue: Catalogue, taps: seq<Product>)
    requires forall p :: p in taps ==> Offered(catalogue, p)
    ensures FoldShown(0.0, Tapped(taps)) == BlankRateNet(Tapped(taps)) == TapsNet(taps)
    ensures FoldShownTax(0.0, Tapped(taps)) == 0.0
  {
    forall i | 0 <= i < |Tapped(taps)| ensures Tapped(taps)[i].taxRate.Blank? {
      TapsMakeTapLines(catalogue, taps, i);
    }
    UnratedSums(Tapped(taps), 0.0, 0.0);
    OfferedPricesConstant(catalogue, taps);
    NetOfTaps(taps);
    FoldShownIsNet(0.0, [], Tapped(taps));
    assert [] + Tapped(taps) == Tapped(taps);
  }

  lemma DefaultTax(catalogue: Catalogue, rate: real, lines: seq<Line>, net: real, tax: real)
    requires AllPriced(lines) && InvoiceItems(catalogue, rate, PostedItems(lines)).Ok?
    requires BlankRateNet(lines) == net && tax == rate * net
    ensures BlankPriceNet(catalogue, lines) == 0.0 && ExtraTax(catalogue, rate, lines) == tax
  {
    PricedSums(catalogue, rate, lines, InvoiceItems(catalogue, rate, PostedItems(lines)).value);
  }

  lemma SaleOfAmounts(catalogue: Catalogue, rate: real, lines: seq<Line>, discount: Entry, net: real, tax: real)
    requires Sale(catalogue, rate, lines, discount).Ok?
    requires FoldShown(0.0, lines) == net && FoldShownTax(0.0, lines) == 0.0
    requires BlankPriceNet(catalogue, lines) == 0.0 && ExtraTax(catalogue, rate, lines) == tax
    ensures Sale(catalogue, rate, lines, discount).value == Rounded(net, tax, OrZero(PostedDiscount(discount)))
  {
    SaleRounded(catalogue, rate, lines, discount);
  }

  /** Whatever offered products are tapped, the sale is accepted; the till shows no tax, and the
      server charges the default rate on the sum of the prices tapped. */
  lemma TapsSale(catalogue: Catalogue, rate: real, taps: seq<Product>, discount: Entry, net: real, tax: real)
    requires taps != [] && forall p :: p in taps ==> Offered(catalogue, p)
    requires discount.Number? ==> discount.value >= 0.0
    requires net == TapsNet(taps) && tax == rate * net
    ensures Sale(catalogue, rate, Tapped(taps), discount).Ok?
    ensures var d := OrZero(PostedDiscount(discount));
      && ShownTotals(Tapped(taps), discount) == Rounded(net, 0.0, d)
      && Sale(catalogue, rate, Tapped(taps), discount).value == Rounded(net, tax, d)
  {
    TapsAccepted(catalogue, rate, taps, discount);
    TapsSums(catalogue, taps);
    TillRounded(Tapped(taps), discount);
    DefaultTax(catalogue, rate, Tapped(taps), net, tax);
    SaleOfAmounts(catalogue, rate, Tapped(taps), discount, net, tax);
  }

  lemma CaliforniaRate(table: SalesTax.Rates)
    requires table == map["CA" := 0.0725]
    ensures SaleRate("US", table, SalesTax.TaxConfig(["CA"], Some(map[])), Some("CA"), false) == 0.0725
  {
    assert SalesTax.UpperAll(["CA"])[0] == "CA";
  }

  lemma TenAtSevenAndAQuarter()
    ensures Rounded(10.0, 0.0, 0.0).total == 10.0 && Rounded(10.0, 0.725, 0.0).total == 10.73
  {
    CentsIff(10.0, 1000);
    CentsIff(0.0, 0);
    CentsIff(0.725, 73);
    TotalCents(10.0, 0.0, 0.0);
    TotalCents(10.0, 0.725, 0.0);
  }

  /** One tap of a product at 10.00, sold to a customer in a nexus state at 7.25 percent: the till
      shows 10.00 and the sale is 10.73. */
  lemma OneTapDiffers(product: Product, table: SalesTax.Rates, catalogue: Catalogue)
    requires product == Product("p", None, "sku", "name", 10.0)
    requires table == map["CA" := 0.0725] && catalogue == Catalogue(map["p" := 10.0], map[])
    ensures var rate := SaleRate("US", table, SalesTax.TaxConfig(["CA"], Some(map[])), Some("CA"), false);
      && ShownTotals(Tapped([product]), Blank).total == 10.0
      && Sale(catalogue, rate, Tapped([product]), Blank).Ok?
      && Sale(catalogue, rate, Tapped([product]), Blank).value.total == 10.73
  {
    CaliforniaRate(table);
    assert TapsNet([product]) == TapsNet([product][..0]) + 10.0;
    TapsSale(catalogue, 0.0725, [product], Blank, 10.0, 0.725);
    TenAtSevenAndAQuarter();
  }
}
