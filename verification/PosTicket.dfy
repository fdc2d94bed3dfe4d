/** The ticket of the point of sale: product taps and edits on its lines, and the totals shown
    at the till. */
module PosTicket {
  import opened Common
  import opened Money

  /** The text of a numeric input: empty or a number. */
  datatype Entry = Blank | Number(value: real)

  datatype Line = Line(
    productId: string, variantId: Option<string>, sku: string, name: string,
    quantity: Entry, unitPrice: Entry, taxRate: Entry)

  datatype Product = Product(id: string, variantId: Option<string>, sku: string, name: string, salePrice: real)

  datatype Field = Quantity | UnitPrice | TaxRate

  type Key = (string, Option<string>)

  function LineKey(line: Line): Key {
    (line.productId, line.variantId)
  }

  function ProductKey(product: Product): Key {
    (product.id, product.variantId)
  }

  /** `Number` of the text: empty text counts as 0. */
  function ToNumber(e: Entry): real {
    if e.Blank? then 0.0 else e.value
  }

  predicate HasKey(lines: seq<Line>, key: Key) {
    exists i :: 0 <= i < |lines| && (lines[i].productId, lines[i].variantId) == key
  }

  function AddOne(line: Line, key: Key): Line {
    if LineKey(line) == key then line.(quantity := Number(ToNumber(line.quantity) + 1.0)) else line
  }

  function NewLine(product: Product): Line {
    Line(product.id, product.variantId, product.sku, product.name, Number(1.0), Number(product.salePrice), Blank)
  }

  function AddProduct(lines: seq<Line>, product: Product): seq<Line> {
    if HasKey(lines, ProductKey(product)) then
      seq(|lines|, i requires 0 <= i < |lines| => AddOne(lines[i], ProductKey(product)))
    else lines + [NewLine(product)]
  }

  function SetField(line: Line, field: Field, value: Entry): Line {
    match field
    case Quantity => line.(quantity := value)
    case UnitPrice => line.(unitPrice := value)
    case TaxRate => line.(taxRate := value)
  }

  function SetLineField(lines: seq<Line>, index: nat, field: Field, value: Entry): seq<Line> {
    if index < |lines| then lines[index := SetField(lines[index], field, value)] else lines
  }

  function RemoveLine(lines: seq<Line>, index: nat): seq<Line> {
    if index < |lines| then lines[..index] + lines[index + 1..] else lines
  }

  datatype Op = Tap(product: Product) | Edit(index: nat, field: Field, value: Entry) | Remove(index: nat)

  function Apply(lines: seq<Line>, op: Op): seq<Line> {
    match op
    case Tap(product) => AddProduct(lines, product)
    case Edit(index, field, value) => SetLineField(lines, index, field, value)
    case Remove(index) => RemoveLine(lines, index)
  }

  function ApplyAll(lines: seq<Line>, ops: seq<Op>): seq<Line>
    decreases |ops|
  {
    if ops == [] then lines else ApplyAll(Apply(lines, ops[0]), ops[1..])
  }

  // ---------- One line for each product ----------

  ghost predicate DistinctKeys(lines: seq<Line>) {
    forall i, j :: 0 <= i < j < |lines| ==>
      lines[i].productId != lines[j].productId || lines[i].variantId != lines[j].variantId
  }

  lemma TapKeepsDistinct(lines: seq<Line>, product: Product)
    requires DistinctKeys(lines)
    ensures DistinctKeys(AddProduct(lines, product))
  {
    if HasKey(lines, ProductKey(product)) {
      var more := AddProduct(lines, product);
      assert forall i :: 0 <= i < |lines| ==> LineKey(more[i]) == LineKey(lines[i]);
    }
  }

  lemma EditKeepsDistinct(lines: seq<Line>, index: nat, field: Field, value: Entry)
    requires DistinctKeys(lines)
    ensures DistinctKeys(SetLineField(lines, index, field, value))
  {
    var edited := SetLineField(lines, index, field, value);
    assert forall i :: 0 <= i < |lines| ==> LineKey(edited[i]) == LineKey(lines[i]);
  }

  lemma RemoveKeepsDistinct(lines: seq<Line>, index: nat)
    requires DistinctKeys(lines)
    ensures DistinctKeys(RemoveLine(lines, index))
  {
    var fewer := RemoveLine(lines, index);
    forall i, j | 0 <= i < j < |fewer| ensures LineKey(fewer[i]) != LineKey(fewer[j]) {
      var i', j' := if i < index then i else i + 1, if j < index then j else j + 1;
      assert index < |lines| ==> fewer[i] == lines[i'] && fewer[j] == lines[j'];
    }
  }

  lemma OpKeepsDistinct(lines: seq<Line>, op: Op)
    requires DistinctKeys(lines)
    ensures DistinctKeys(Apply(lines, op))
  {
    match op {
      case Tap(product) => TapKeepsDistinct(lines, product);
      case Edit(index, field, value) => EditKeepsDistinct(lines, index, field, value);
      case Remove(index) => RemoveKeepsDistinct(lines, index);
    }
  }

  /** Whatever is tapped, edited and removed, no two lines are for the same product and variant. */
  lemma {:induction false} KeysStayDistinct(lines: seq<Line>, ops: seq<Op>)
    requires DistinctKeys(lines)
    ensures DistinctKeys(ApplyAll(lines, ops))
    decreases |ops|
  {
    if ops != [] {
      OpKeepsDistinct(lines, ops[0]);
      KeysStayDistinct(Apply(lines, ops[0]), ops[1..]);
    }
  }

  // ---------- Taps only ----------

  /** The ticket after a sequence of taps on an empty one. */
  function Tapped(taps: seq<Product>): seq<Line> {
    if taps == [] then [] else AddProduct(Tapped(taps[..|taps| - 1]), taps[|taps| - 1])
  }

  /** The taps that were the first for their product and variant, in order. */
  function FirstTaps(taps: seq<Product>): seq<Product> {
    if taps == [] then []
    else
      var n := |taps| - 1;
      FirstTaps(taps[..n]) + if TapCount(taps[..n], (taps[n].id, taps[n].variantId)) == 0 then [taps[n]] else []
  }

  function TapCount(taps: seq<Product>, key: Key): nat {
    if taps == [] then 0
    else TapCount(taps[..|taps| - 1], key) + if (taps[|taps| - 1].id, taps[|taps| - 1].variantId) == key then 1 else 0
  }

  /** The line that `count` taps on a product make: the product's fields, its price, and no tax
      rate. */
  predicate IsLineOf(line: Line, product: Product, count: nat) {
    && line.productId == product.id && line.variantId == product.variantId
    && line.sku == product.sku && line.name == product.name
    && line.quantity == Number(count as real) && line.unitPrice == Number(product.salePrice) && line.taxRate == Blank
  }

  /** One line for each first tap, in that order, with the number of taps as its quantity. */
  ghost predicate CountsTaps(taps: seq<Product>) {
    && |Tapped(taps)| == |FirstTaps(taps)|
    && forall i :: 0 <= i < |FirstTaps(taps)| ==> LineCounts(taps, i)
  }

  ghost predicate LineCounts(taps: seq<Product>, i: nat)
    requires i < |FirstTaps(taps)|
  {
    i < |Tapped(taps)| &&
    var first := FirstTaps(taps)[i];
    IsLineOf(Tapped(taps)[i], first, TapCount(taps, (first.id, first.variantId)))
  }

  lemma OneMoreTap(before: seq<Product>, last: Product, key: Key)
    ensures var taps := before + [last];
      && Tapped(taps) == AddProduct(Tapped(before), last)
      && TapCount(taps, key) == TapCount(before, key) + (if ProductKey(last) == key then 1 else 0)
      && FirstTaps(taps) == FirstTaps(before) + if TapCount(before, ProductKey(last)) == 0 then [last] else []
  {
    var taps := before + [last];
    assert taps[..|taps| - 1] == before && taps[|taps| - 1] == last;
  }

  lemma CountsTapsOld(before: seq<Product>, last: Product, i: nat)
    requires CountsTaps(before) && i < |FirstTaps(before)|
    ensures i < |FirstTaps(before + [last])| && LineCounts(before + [last], i)
  {
    var first := FirstTaps(before)[i];
    assert LineCounts(before, i);
    OneMoreTap(before, last, ProductKey(first));
    assert LineKey(Tapped(before)[i]) == ProductKey(first);
    if ProductKey(first) == ProductKey(last) {
      assert HasKey(Tapped(before), ProductKey(last));
    }
  }

  lemma NewLineIs(lines: seq<Line>, product: Product)
    requires !HasKey(lines, ProductKey(product))
    ensures AddProduct(lines, product) == lines + [NewLine(product)] && IsLineOf(NewLine(product), product, 1)
  {
  }

  lemma CountsTapsNew(before: seq<Product>, last: Product)
    requires |Tapped(before)| == |FirstTaps(before)|
    requires TapCount(before, ProductKey(last)) == 0 && !HasKey(Tapped(before), ProductKey(last))
    ensures var taps, n := before + [last], |FirstTaps(before)|;
      |FirstTaps(taps)| == n + 1 == |Tapped(taps)| && LineCounts(taps, n)
  {
    OneMoreTap(before, last, (last.id, last.variantId));
    NewLineIs(Tapped(before), last);
  }

  lemma CountsTapsAgain(before: seq<Product>, last: Product)
    requires TapCount(before, ProductKey(last)) > 0 && HasKey(Tapped(before), ProductKey(last))
    ensures |Tapped(before + [last])| == |Tapped(before)| && FirstTaps(before + [last]) == FirstTaps(before)
  {
    OneMoreTap(before, last, ProductKey(last));
  }

  lemma CountsTapsStep(before: seq<Product>, last: Product)
    requires CountsTaps(before)
    requires TapCount(before, ProductKey(last)) > 0 <==> HasKey(Tapped(before), ProductKey(last))
    ensures CountsTaps(before + [last])
  {
    if TapCount(before, ProductKey(last)) == 0 {
      CountsTapsNew(before, last);
    } else {
      CountsTapsAgain(before, last);
    }
    forall i | 0 <= i < |FirstTaps(before + [last])| ensures LineCounts(before + [last], i) {
      if i < |FirstTaps(before)| {
        CountsTapsOld(before, last, i);
      }
    }
  }

  lemma {:induction false} KeysAreTapped(taps: seq<Product>, key: Key)
    ensures TapCount(taps, key) > 0 <==> HasKey(Tapped(taps), key)
    decreases |taps|
  {
    if taps != [] {
      KeysAreTapped(taps[..|taps| - 1], key);
      TapKeepsKeys(Tapped(taps[..|taps| - 1]), taps[|taps| - 1], key);
    }
  }

  lemma {:induction false} TicketCountsTaps(taps: seq<Product>)
    ensures CountsTaps(taps)
    ensures forall key :: TapCount(taps, key) > 0 <==> HasKey(Tapped(taps), key)
    decreases |taps|
  {
    forall key ensures TapCount(taps, key) > 0 <==> HasKey(Tapped(taps), key) {
      KeysAreTapped(taps, key);
    }
    if taps != [] {
      var before, last := taps[..|taps| - 1], taps[|taps| - 1];
      assert taps == before + [last];
      TicketCountsTaps(before);
      CountsTapsStep(before, last);
    }
  }

  lemma TapKeepsKeys(lines: seq<Line>, product: Product, key: Key)
    ensures HasKey(AddProduct(lines, product), key) <==> HasKey(lines, key) || key == ProductKey(product)
  {
    var more := AddProduct(lines, product);
    if i :| 0 <= i < |lines| && LineKey(lines[i]) == key {
      assert LineKey(more[i]) == key;
    }
    if i :| 0 <= i < |more| && LineKey(more[i]) == key && i < |lines| {
      assert LineKey(lines[i]) == key;
    }
    if !HasKey(lines, ProductKey(product)) {
      assert LineKey(more[|lines|]) == ProductKey(product);
    }
  }

  function TapOps(taps: seq<Product>): seq<Op> {
    if taps == [] then [] else TapOps(taps[..|taps| - 1]) + [Tap(taps[|taps| - 1])]
  }

  lemma {:induction false} ApplyLast(lines: seq<Line>, ops: seq<Op>, op: Op)
    ensures ApplyAll(lines, ops + [op]) == Apply(ApplyAll(lines, ops), op)
    decreases |ops|
  {
    if ops == [] {
      assert [op][1..] == [] && ops + [op] == [op];
    } else {
      assert (ops + [op])[1..] == ops[1..] + [op];
      ApplyLast(Apply(lines, ops[0]), ops[1..], op);
    }
  }

  /** `Tapped` is what the taps make of an empty ticket, one after the other. */
  lemma {:induction false} TappedIsApplied(taps: seq<Product>)
    ensures ApplyAll([], TapOps(taps)) == Tapped(taps)
    decreases |taps|
  {
    if taps != [] {
      TappedIsApplied(taps[..|taps| - 1]);
      ApplyLast([], TapOps(taps[..|taps| - 1]), Tap(taps[|taps| - 1]));
    }
  }

  // ---------- The totals at the till ----------

  function ShownNet(line: Line): real {
    ToNumber(line.quantity) * ToNumber(line.unitPrice)
  }

  function ShownTax(line: Line): real {
    ToNumber(line.quantity) * ToNumber(line.unitPrice) *
    if line.taxRate.Blank? then 0.0 else ToNumber(line.taxRate) / 100.0
  }

  function FoldShown(sum: real, lines: seq<Line>): real
    decreases |lines|
  {
    if lines == [] then sum else FoldShown(sum + ShownNet(lines[0]), lines[1..])
  }

  function FoldShownTax(sum: real, lines: seq<Line>): real
    decreases |lines|
  {
    if lines == [] then sum else FoldShownTax(sum + ShownTax(lines[0]), lines[1..])
  }

  function ShownTotals(lines: seq<Line>, discount: Entry): Totals {
    var subtotal := Round2(FoldShown(0.0, lines));
    var tax := Round2(FoldShownTax(0.0, lines));
    var d := if discount.Blank? then 0.0 else if discount.value > 0.0 then discount.value else 0.0;
    Totals(subtotal, Round2(d), tax, Round2(subtotal + tax - d))
  }

  /** The sum of quantity times price. */
  function LinesNet(lines: seq<Line>): real {
    if lines == [] then 0.0
    else LinesNet(lines[..|lines| - 1]) + ShownNet(lines[|lines| - 1])
  }

  lemma {:induction false} NetAppend(a: seq<Line>, b: seq<Line>)
    ensures LinesNet(a + b) == LinesNet(a) + LinesNet(b)
    decreases |b|
  {
    if b == [] {
      assert a + b == a;
    } else {
      var n := |b| - 1;
      assert (a + b)[..|a| + n] == a + b[..n];
      NetAppend(a, b[..n]);
    }
  }

  lemma NetAround(lines: seq<Line>, index: nat)
    requires index < |lines|
    ensures LinesNet(lines) == LinesNet(lines[..index]) + ShownNet(lines[index]) + LinesNet(lines[index + 1..])
  {
    SplitAt(lines, index);
    NetAppend(lines[..index] + [lines[index]], lines[index + 1..]);
    NetAppend(lines[..index], [lines[index]]);
    assert [lines[index]][..0] == [];
  }

  lemma NetOfReplaced(lines: seq<Line>, index: nat, line: Line)
    requires index < |lines|
    ensures LinesNet(lines[index := line]) == LinesNet(lines) - ShownNet(lines[index]) + ShownNet(line)
  {
    var replaced := lines[index := line];
    NetAround(lines, index);
    NetAround(replaced, index);
    assert replaced[..index] == lines[..index] && replaced[index + 1..] == lines[index + 1..];
  }

  /** Removing a line takes exactly its amount off the sum. */
  lemma NetAfterRemoval(lines: seq<Line>, index: nat)
    requires index < |lines|
    ensures LinesNet(RemoveLine(lines, index)) == LinesNet(lines) - ShownNet(lines[index])
  {
    NetAround(lines, index);
    NetAppend(lines[..index], lines[index + 1..]);
  }

  /** The amount of a line whose inputs are filled in is its quantity times its price; with one of
      them empty it is nothing. */
  lemma LineAmount(line: Line, quantity: real, price: real)
    ensures line.quantity == Number(quantity) && line.unitPrice == Number(price) ==> ShownNet(line) == quantity * price
    ensures line.quantity.Blank? || line.unitPrice.Blank? ==> ShownNet(line) == 0.0
  {
  }

  /** An edit replaces one field of one line by the value. */
  lemma EditedLine(lines: seq<Line>, index: nat, field: Field, value: Entry)
    requires index < |lines|
    ensures var edited, line := Apply(lines, Edit(index, field, value)), lines[index];
      && |edited| == |lines| && (forall i :: 0 <= i < |lines| && i != index ==> edited[i] == lines[i])
      && edited[index] == match field
                          case Quantity => line.(quantity := value)
                          case UnitPrice => line.(unitPrice := value)
                          case TaxRate => line.(taxRate := value)
  {
  }

  lemma NetOfEdit(lines: seq<Line>, index: nat, field: Field, value: Entry)
    requires index < |lines|
    ensures var edited := Apply(lines, Edit(index, field, value));
      LinesNet(edited) == LinesNet(lines) - ShownNet(lines[index]) + ShownNet(SetField(lines[index], field, value))
  {
    NetOfReplaced(lines, index, SetField(lines[index], field, value));
  }

  lemma EditedAmount(line: Line, value: Entry, quantity: real, price: real)
    requires quantity == ToNumber(line.quantity) && price == ToNumber(line.unitPrice)
    ensures ShownNet(SetField(line, Quantity, value)) == ShownNet(line) + (ToNumber(value) - quantity) * price
    ensures ShownNet(SetField(line, UnitPrice, value)) == ShownNet(line) + quantity * (ToNumber(value) - price)
    ensures ShownNet(SetField(line, TaxRate, value)) == ShownNet(line)
  {
  }

  /** Editing the quantity moves the sum by the change times the price, editing the price by the
      quantity times the change, and editing the rate not at all. */
  lemma NetAfterChange(lines: seq<Line>, index: nat, field: Field, value: Entry, quantity: real, price: real, moved: real)
    requires index < |lines| && quantity == ToNumber(lines[index].quantity) && price == ToNumber(lines[index].unitPrice)
    requires moved == match field
                      case Quantity => (ToNumber(value) - quantity) * price
                      case UnitPrice => quantity * (ToNumber(value) - price)
                      case TaxRate => 0.0
    ensures LinesNet(Apply(lines, Edit(index, field, value))) == LinesNet(lines) + moved
  {
    NetOfEdit(lines, index, field, value);
    EditedAmount(lines[index], value, quantity, price);
  }

  /** An empty quantity or price counts as nothing: such a line could as well be removed. */
  lemma EmptyInputsCountNothing(lines: seq<Line>, index: nat)
    requires index < |lines| && (lines[index].quantity.Blank? || lines[index].unitPrice.Blank?)
    ensures LinesNet(RemoveLine(lines, index)) == LinesNet(lines)
  {
    NetAfterRemoval(lines, index);
    LineAmount(lines[index], 0.0, 0.0);
  }

  lemma {:induction false} TaxOfReplaced(sum: real, sum': real, lines: seq<Line>, index: nat, line: Line)
    requires index < |lines|
    ensures FoldShownTax(sum', lines[index := line])
         == FoldShownTax(sum, lines) + (sum' - sum) - ShownTax(lines[index]) + ShownTax(line)
    decreases |lines|
  {
    var replaced := lines[index := line];
    if index == 0 {
      assert replaced[1..] == lines[1..];
      TaxFromSum(sum + ShownTax(lines[0]), sum' + ShownTax(line), lines[1..]);
    } else {
      assert replaced[1..] == lines[1..][index - 1 := line];
      TaxOfReplaced(sum + ShownTax(lines[0]), sum' + ShownTax(lines[0]), lines[1..], index - 1, line);
    }
  }

  lemma {:induction false} TaxFromSum(sum: real, sum': real, lines: seq<Line>)
    ensures FoldShownTax(sum', lines) == FoldShownTax(sum, lines) + (sum' - sum)
    decreases |lines|
  {
    if lines != [] {
      TaxFromSum(sum + ShownTax(lines[0]), sum' + ShownTax(lines[0]), lines[1..]);
    }
  }

  lemma LineTaxMoves(line: Line, value: Entry, amount: real, move: real)
    requires amount == ToNumber(line.quantity) * ToNumber(line.unitPrice)
    requires move == amount * (ToNumber(value) - ToNumber(line.taxRate)) / 100.0
    ensures ShownTax(line.(taxRate := value)) == ShownTax(line) + move
  {
    assert ShownTax(line) == amount * (ToNumber(line.taxRate) / 100.0);
    assert ShownTax(line.(taxRate := value)) == amount * (ToNumber(value) / 100.0);
  }

  /** Editing the rate of a line moves the tax by the change of the rate on the line's amount, in
      percent. */
  lemma TaxAfterRate(lines: seq<Line>, index: nat, value: Entry, amount: real)
    requires index < |lines| && amount == ToNumber(lines[index].quantity) * ToNumber(lines[index].unitPrice)
    ensures FoldShownTax(0.0, Apply(lines, Edit(index, TaxRate, value)))
         == FoldShownTax(0.0, lines) + amount * (ToNumber(value) - ToNumber(lines[index].taxRate)) / 100.0
  {
    var move := amount * (ToNumber(value) - ToNumber(lines[index].taxRate)) / 100.0;
    LineTaxMoves(lines[index], value, amount, move);
    TaxOfReplaced(0.0, 0.0, lines, index, lines[index].(taxRate := value));
  }

  lemma {:induction false} FoldShownIsNet(sum: real, done: seq<Line>, lines: seq<Line>)
    requires sum == LinesNet(done)
    ensures FoldShown(sum, lines) == LinesNet(done + lines)
    decreases |lines|
  {
    if lines == [] {
      assert done + lines == done;
    } else {
      assert (done + [lines[0]])[..|done|] == done;
      FoldShownIsNet(sum + ShownNet(lines[0]), done + [lines[0]], lines[1..]);
      assert done + [lines[0]] + lines[1..] == done + lines;
    }
  }

  lemma {:induction false} NetUnchanged(lines: seq<Line>, key: Key)
    requires !HasKey(lines, key)
    ensures LinesNet(seq(|lines|, i requires 0 <= i < |lines| => AddOne(lines[i], key))) == LinesNet(lines)
  {
    forall i | 0 <= i < |lines| ensures AddOne(lines[i], key) == lines[i] {}
    assert seq(|lines|, i requires 0 <= i < |lines| => AddOne(lines[i], key)) == lines;
  }

  /** One more of a product adds its line's price. */
  lemma {:induction false} NetPlusOne(lines: seq<Line>, key: Key, price: real)
    requires DistinctKeys(lines) && HasKey(lines, key)
    requires forall i :: 0 <= i < |lines| && LineKey(lines[i]) == key ==> ToNumber(lines[i].unitPrice) == price
    ensures LinesNet(seq(|lines|, i requires 0 <= i < |lines| => AddOne(lines[i], key))) == LinesNet(lines) + price
    decreases |lines|
  {
    var more := seq(|lines|, i requires 0 <= i < |lines| => AddOne(lines[i], key));
    var n := |lines| - 1;
    var before := lines[..n];
    assert more[..n] == seq(|before|, i requires 0 <= i < |before| => AddOne(before[i], key));
    if LineKey(lines[n]) == key {
      NetUnchanged(before, key);
      var q := ToNumber(lines[n].quantity);
      assert ShownNet(more[n]) == (q + 1.0) * price == q * price + price;
    } else {
      var i :| 0 <= i < |lines| && LineKey(lines[i]) == key;
      assert before[i] == lines[i];
      NetPlusOne(before, key, price);
    }
  }

  ghost predicate ConstantPrices(taps: seq<Product>) {
    forall i, j :: 0 <= i < |taps| && 0 <= j < |taps| && ProductKey(taps[i]) == ProductKey(taps[j]) ==>
      taps[i].salePrice == taps[j].salePrice
  }

  function TapsNet(taps: seq<Product>): real {
    if taps == [] then 0.0 else TapsNet(taps[..|taps| - 1]) + taps[|taps| - 1].salePrice
  }

  lemma {:induction false} FirstTapsAreTaps(taps: seq<Product>)
    ensures forall p :: p in FirstTaps(taps) ==> p in taps
    decreases |taps|
  {
    if taps != [] {
      FirstTapsAreTaps(taps[..|taps| - 1]);
    }
  }

  lemma {:induction false} TappedDistinct(taps: seq<Product>)
    ensures DistinctKeys(Tapped(taps))
    decreases |taps|
  {
    if taps != [] {
      TappedDistinct(taps[..|taps| - 1]);
      assert Apply(Tapped(taps[..|taps| - 1]), Tap(taps[|taps| - 1])) == Tapped(taps);
    }
  }

  /** A line on the ticket has the price of every tap of its product. */
  lemma TappedPrice(before: seq<Product>, last: Product, i: nat)
    requires ConstantPrices(before + [last]) && i < |Tapped(before)|
    requires LineKey(Tapped(before)[i]) == ProductKey(last)
    ensures ToNumber(Tapped(before)[i].unitPrice) == last.salePrice
  {
    TicketCountsTaps(before);
    FirstTapsAreTaps(before);
    var first := FirstTaps(before)[i];
    assert LineCounts(before, i) && first in before;
    var j :| 0 <= j < |before| && before[j] == first;
    assert (before + [last])[j] == first && (before + [last])[|before|] == last;
  }

  lemma NetOfTap(before: seq<Product>, last: Product)
    requires ConstantPrices(before + [last])
    ensures LinesNet(AddProduct(Tapped(before), last)) == LinesNet(Tapped(before)) + last.salePrice
  {
    var lines := Tapped(before);
    if HasKey(lines, ProductKey(last)) {
      TappedDistinct(before);
      forall i | 0 <= i < |lines| && LineKey(lines[i]) == ProductKey(last)
        ensures ToNumber(lines[i].unitPrice) == last.salePrice
      {
        TappedPrice(before, last, i);
      }
      NetPlusOne(lines, ProductKey(last), last.salePrice);
    } else {
      assert AddProduct(lines, last)[..|lines|] == lines;
    }
  }

  /** With constant prices the lines sum to what was tapped. */
  lemma {:induction false} NetOfTaps(taps: seq<Product>)
    requires ConstantPrices(taps)
    ensures LinesNet(Tapped(taps)) == TapsNet(taps)
    decreases |taps|
  {
    if taps != [] {
      var before, last := taps[..|taps| - 1], taps[|taps| - 1];
      assert taps == before + [last];
      assert ConstantPrices(before) by {
        assert forall i :: 0 <= i < |before| ==> before[i] == taps[i];
      }
      NetOfTaps(before);
      NetOfTap(before, last);
    }
  }

  /** With taps only and constant prices the subtotal at the till is the rounded sum of the
      prices tapped. */
  lemma TapsSubtotal(taps: seq<Product>, discount: Entry)
    requires ConstantPrices(taps)
    ensures ShownTotals(Tapped(taps), discount).subtotal == Round2(TapsNet(taps))
  {
    NetOfTaps(taps);
    FoldShownIsNet(0.0, [], Tapped(taps));
    assert [] + Tapped(taps) == Tapped(taps);
  }

  /** The till shows a discount below zero as none. */
  lemma NegativeDiscountShownAsNone(lines: seq<Line>, discount: real)
    ensures ShownTotals(lines, Number(discount)).subtotal == ShownTotals(lines, Blank).subtotal
    ensures discount <= 0.0 ==> ShownTotals(lines, Number(discount)) == ShownTotals(lines, Blank)
    ensures discount > 0.0 ==> ShownTotals(lines, Number(discount)).discount == Round2(discount)
  {
  }

  // ---------- The page ----------

  /** A line for the product and its variant. */
  predicate IsFor(line: Line, product: Product) {
    line.productId == product.id && line.variantId == product.variantId
  }

  /** One tap: every line stays where it was, the lines for other products as they were, and the
      one for the product has one more; without one there is a new last line. */
  ghost predicate AddsOne(lines: seq<Line>, product: Product, more: seq<Line>) {
    && |lines| <= |more|
    && (forall i :: 0 <= i < |lines| ==>
          more[i] == if IsFor(lines[i], product) then lines[i].(quantity := Number(ToNumber(lines[i].quantity) + 1.0)) else lines[i])
    && if exists i :: 0 <= i < |lines| && IsFor(lines[i], product) then |more| == |lines|
       else |more| == |lines| + 1 && IsLineOf(more[|lines|], product, 1)
  }

  lemma TapAddsOne(lines: seq<Line>, product: Product)
    ensures AddsOne(lines, product, AddProduct(lines, product))
  {
    var key := ProductKey(product);
    forall i | 0 <= i < |lines| ensures LineKey(lines[i]) == key <==> IsFor(lines[i], product) {}
    assert HasKey(lines, key) <==> exists i :: 0 <= i < |lines| && IsFor(lines[i], product);
  }

  /** One line is gone, and the others follow one another as before. */
  ghost predicate OneLess(lines: seq<Line>, index: nat, fewer: seq<Line>)
    requires index < |lines|
  {
    && |fewer| == |lines| - 1
    && (forall i :: 0 <= i < index ==> fewer[i] == lines[i])
    && (forall i :: index <= i < |fewer| ==> fewer[i] == lines[i + 1])
  }

  /** The lines of a product carry its price. */
  ghost predicate PricedAs(lines: seq<Line>, product: Product) {
    forall i :: 0 <= i < |lines| && IsFor(lines[i], product) ==> ToNumber(lines[i].unitPrice) == product.salePrice
  }

  lemma TapAddsPrice(lines: seq<Line>, product: Product)
    requires DistinctKeys(lines) && PricedAs(lines, product)
    ensures LinesNet(AddProduct(lines, product)) == LinesNet(lines) + product.salePrice
  {
    if HasKey(lines, ProductKey(product)) {
      NetPlusOne(lines, ProductKey(product), product.salePrice);
    } else {
      assert AddProduct(lines, product)[..|lines|] == lines;
    }
  }

  /** At most one line for each product and variant is what every method keeps. */
  class PosPage {
    var ticket: seq<Line>
    var discount: Entry

    ghost predicate Valid()
      reads this
    {
      DistinctKeys(ticket)
    }

    constructor ()
      ensures Valid() && ticket == [] && discount == Blank
    {
      ticket, discount := [], Blank;
    }

    method TapProduct(product: Product)
      requires Valid()
      modifies this`ticket
      ensures Valid() && ticket == Apply(old(ticket), Tap(product))
      ensures AddsOne(old(ticket), product, ticket)
      ensures PricedAs(old(ticket), product) ==> LinesNet(ticket) == LinesNet(old(ticket)) + product.salePrice
    {
      var key := ProductKey(product);
      TapKeepsDistinct(ticket, product);
      TapAddsOne(ticket, product);
      if PricedAs(ticket, product) {
        TapAddsPrice(ticket, product);
      }
      if exists i :: 0 <= i < |ticket| && (ticket[i].productId, ticket[i].variantId) == key {
        ticket := seq(|ticket|, i requires 0 <= i < |ticket| reads this => AddOne(ticket[i], key));
      } else {
        ticket := ticket + [NewLine(product)];
      }
    }

    method EditLine(index: nat, field: Field, value: Entry)
      requires Valid()
      modifies this`ticket
      ensures Valid() && ticket == Apply(old(ticket), Edit(index, field, value))
      ensures |ticket| == |old(ticket)|
      ensures forall i :: 0 <= i < |ticket| && i != index ==> ticket[i] == old(ticket)[i]
      ensures index < |ticket| ==>
        ticket[index] == match field
                         case Quantity => old(ticket)[index].(quantity := value)
                         case UnitPrice => old(ticket)[index].(unitPrice := value)
                         case TaxRate => old(ticket)[index].(taxRate := value)
      ensures index < |ticket| ==>
        LinesNet(ticket) == LinesNet(old(ticket)) - ShownNet(old(ticket)[index]) + ShownNet(ticket[index])
    {
      EditKeepsDistinct(ticket, index, field, value);
      if index < |ticket| {
        EditedLine(ticket, index, field, value);
        NetOfEdit(ticket, index, field, value);
        ticket := ticket[index := SetField(ticket[index], field, value)];
      }
    }

    method RemoveLineAt(index: nat)
      requires Valid()
      modifies this`ticket
      ensures Valid() && ticket == Apply(old(ticket), Remove(index))
      ensures index >= |old(ticket)| ==> ticket == old(ticket)
      ensures index < |old(ticket)| ==> OneLess(old(ticket), index, ticket)
      ensures index < |old(ticket)| ==>
        LinesNet(ticket) == LinesNet(old(ticket)) - ShownNet(old(ticket)[index])
    {
      RemoveKeepsDistinct(ticket, index);
      if index < |ticket| {
        NetAfterRemoval(ticket, index);
        ticket := ticket[..index] + ticket[index + 1..];
      }
    }
  }
}
