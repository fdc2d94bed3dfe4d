/** The sortable table: its comparator with the blanks-last rule, the sorted rows in both
    directions, and the header button that cycles the sort. */
module DataTable {
  import opened Common
  import opened StableSort

  /** A value to sort by. `Other` is a value that is neither text nor number, with its text. */
  datatype Cell = Undefined | Null | Num(n: real) | Str(s: string) | Other(id: int, text: string)

  datatype Row = Row(id: int, cells: map<string, Cell>)

  datatype Column = Column(key: string, sortValue: Option<Row -> Cell>)

  datatype Direction = Asc | Desc

  datatype SortSpec = SortSpec(key: string, dir: Direction)

  /** The host's string order and its text for a number. */
  datatype Locale = Locale(collate: (string, string) -> int, show: real -> string)

  ghost predicate Lawful(locale: Locale) {
    && (forall a, b :: locale.collate(a, b) < 0 <==> locale.collate(b, a) > 0)
    && (forall a, b, c :: locale.collate(a, b) <= 0 && locale.collate(b, c) <= 0 ==> locale.collate(a, c) <= 0)
  }

  predicate IsBlank(c: Cell) {
    c.Undefined? || c.Null?
  }

  function SortCellValue(row: Row, col: Column): Cell {
    if col.sortValue.Some? then col.sortValue.value(row)
    else if col.key in row.cells then row.cells[col.key]
    else Undefined
  }

  function TextOf(c: Cell, locale: Locale): string {
    match c
    case Undefined => "undefined"
    case Null => "null"
    case Num(n) => locale.show(n)
    case Str(s) => s
    case Other(_, text) => text
  }

  function Compare(a: Cell, b: Cell, dir: Direction, locale: Locale): real {
    var sign := if dir.Desc? then -1.0 else 1.0;
    if a == b then 0.0
    else if IsBlank(a) then 1.0
    else if IsBlank(b) then -1.0
    else if a.Num? && b.Num? then (a.n - b.n) * sign
    else locale.collate(TextOf(a, locale), TextOf(b, locale)) as real * sign
  }

  /** The order the sort works with: the comparator does not answer "after". */
  function RowLe(col: Column, dir: Direction, locale: Locale): (Row, Row) -> bool {
    (a: Row, b: Row) => Compare(SortCellValue(a, col), SortCellValue(b, col), dir, locale) <= 0.0
  }

  function FindColumn(columns: seq<Column>, key: string): Option<Column> {
    if columns == [] then None
    else if columns[0].key == key then Some(columns[0])
    else FindColumn(columns[1..], key)
  }

  function SortedRows(rows: seq<Row>, columns: seq<Column>, sort: Option<SortSpec>, locale: Locale): seq<Row> {
    if sort.None? || FindColumn(columns, sort.value.key).None? then rows
    else Sort(RowLe(FindColumn(columns, sort.value.key).value, sort.value.dir, locale), rows)
  }

  // ---------- When the comparator is an order ----------

  /** A column of numbers, or one without numbers, which is compared by the texts of its values. */
  ghost predicate Homogeneous(u: set<Row>, col: Column) {
    || (forall r :: r in u ==> var c := SortCellValue(r, col); IsBlank(c) || c.Num?)
    || (forall r :: r in u ==> !SortCellValue(r, col).Num?)
  }

  ghost predicate OneKindOfBlank(u: set<Row>, col: Column) {
    !exists r, s :: r in u && s in u && SortCellValue(r, col).Undefined? && SortCellValue(s, col).Null?
  }

  ghost predicate Comparable(cells: set<Cell>) {
    && ((forall c :: c in cells ==> IsBlank(c) || c.Num?) || (forall c :: c in cells ==> !c.Num?))
    && !(Undefined in cells && Null in cells)
  }

  /** Two different texts compared either way round. */
  lemma CollateBothWays(a: string, b: string, locale: Locale)
    requires Lawful(locale)
    ensures locale.collate(a, b) < 0 <==> locale.collate(b, a) > 0
    ensures locale.collate(a, b) <= 0 <==> locale.collate(b, a) >= 0
    ensures locale.collate(a, a) == 0
  {
  }

  lemma CompareTotal(a: Cell, b: Cell, dir: Direction, locale: Locale)
    requires Lawful(locale) && Comparable({a, b})
    ensures Compare(a, b, dir, locale) <= 0.0 || Compare(b, a, dir, locale) <= 0.0
  {
    assert a in {a, b} && b in {a, b};
    CollateBothWays(TextOf(a, locale), TextOf(b, locale), locale);
  }

  lemma CompareTransitive(a: Cell, b: Cell, c: Cell, dir: Direction, locale: Locale)
    requires Lawful(locale) && Comparable({a, b, c})
    requires Compare(a, b, dir, locale) <= 0.0 && Compare(b, c, dir, locale) <= 0.0
    ensures Compare(a, c, dir, locale) <= 0.0
  {
    assert a in {a, b, c} && b in {a, b, c} && c in {a, b, c};
    var x, y, z := TextOf(a, locale), TextOf(b, locale), TextOf(c, locale);
    CollateBothWays(x, y, locale);
    CollateBothWays(y, z, locale);
    CollateBothWays(x, z, locale);
  }

  /** On a column of numbers, or one without numbers, the comparator is a total preorder, in
      either direction, exactly when null and undefined do not both occur. */
  lemma ComparatorLawfulIff(u: set<Row>, col: Column, dir: Direction, locale: Locale)
    requires Lawful(locale) && Homogeneous(u, col)
    ensures PreorderOn(RowLe(col, dir, locale), u) <==> OneKindOfBlank(u, col)
  {
    var le := RowLe(col, dir, locale);
    if OneKindOfBlank(u, col) {
      forall x, y | x in u && y in u ensures le(x, y) || le(y, x) {
        CompareTotal(SortCellValue(x, col), SortCellValue(y, col), dir, locale);
      }
      forall x, y, z | x in u && y in u && z in u && le(x, y) && le(y, z) ensures le(x, z) {
        CompareTransitive(SortCellValue(x, col), SortCellValue(y, col), SortCellValue(z, col), dir, locale);
      }
    } else {
      var r, s :| r in u && s in u && SortCellValue(r, col).Undefined? && SortCellValue(s, col).Null?;
      assert !le(r, s) && !le(s, r);
    }
  }

  // ---------- The sorted rows ----------

  ghost predicate Sortable(u: set<Row>, col: Column, locale: Locale) {
    Lawful(locale) && Homogeneous(u, col) && OneKindOfBlank(u, col)
  }

  /** `columns[k]` is the first column with the key. */
  predicate IsColumn(columns: seq<Column>, key: string, k: nat) {
    k < |columns| && columns[k].key == key && forall j :: 0 <= j < k ==> columns[j].key != key
  }

  /** The value of a row in a column: what the column's `sortValue` makes of it when there is one,
      the row's own cell otherwise. */
  predicate HasValue(row: Row, col: Column, value: Cell) {
    match col.sortValue
    case Some(sortValue) => value == sortValue(row)
    case None => if col.key in row.cells then value == row.cells[col.key] else value == Undefined
  }

  lemma {:induction false} FindsFirst(columns: seq<Column>, key: string, k: nat)
    requires IsColumn(columns, key, k)
    ensures FindColumn(columns, key) == Some(columns[k])
    decreases k
  {
    if k > 0 {
      assert columns[0].key != key;
      assert forall j :: 0 <= j < k - 1 ==> columns[1..][j] == columns[j + 1];
      FindsFirst(columns[1..], key, k - 1);
    }
  }

  lemma {:induction false} FindsNone(columns: seq<Column>, key: string)
    requires forall j :: 0 <= j < |columns| ==> columns[j].key != key
    ensures FindColumn(columns, key) == None
    decreases |columns|
  {
    if columns != [] {
      FindsNone(columns[1..], key);
    }
  }

  /** Without a sort, or with a sort on a key that no column has, the rows come as they were. */
  lemma UnsortedRows(rows: seq<Row>, columns: seq<Column>, sort: Option<SortSpec>, locale: Locale)
    requires sort.Some? ==> forall j :: 0 <= j < |columns| ==> columns[j].key != sort.value.key
    ensures SortedRows(rows, columns, sort, locale) == rows
  {
    if sort.Some? {
      FindsNone(columns, sort.value.key);
    }
  }

  lemma RowsOfColumn(rows: seq<Row>, columns: seq<Column>, sort: SortSpec, locale: Locale, k: nat)
    requires IsColumn(columns, sort.key, k)
    ensures SortedRows(rows, columns, Some(sort), locale) == Sort(RowLe(columns[k], sort.dir, locale), rows)
  {
    FindsFirst(columns, sort.key, k);
  }

  /** Whatever stable sort the host uses, the rows come out in one order, a permutation of the
      rows. */
  lemma SortedRowsUnique(
      rows: seq<Row>, columns: seq<Column>, sort: SortSpec, locale: Locale, u: set<Row>, out: seq<Row>, k: nat)
    requires IsColumn(columns, sort.key, k) && Within(rows, u) && Sortable(u, columns[k], locale)
    ensures var sorted := SortedRows(rows, columns, Some(sort), locale);
      && (IsStableSort(RowLe(columns[k], sort.dir, locale), u, rows, out) <==> out == sorted)
      && multiset(sorted) == multiset(rows)
  {
    var col := columns[k];
    var le := RowLe(col, sort.dir, locale);
    RowsOfColumn(rows, columns, sort, locale, k);
    ComparatorLawfulIff(u, col, sort.dir, locale);
    SortIsStable(le, u, rows);
    SameBlocksPermute(le, u, rows, Sort(le, rows));
    if IsStableSort(le, u, rows, out) {
      StableSortUnique(le, u, out, Sort(le, rows));
    }
  }

  lemma BlanksLast(rows: seq<Row>, col: Column, dir: Direction, locale: Locale, u: set<Row>)
    requires Within(rows, u) && Sortable(u, col, locale)
    ensures var sorted := Sort(RowLe(col, dir, locale), rows);
      forall i, j :: 0 <= i < j < |sorted| && IsBlank(SortCellValue(sorted[i], col)) ==> IsBlank(SortCellValue(sorted[j], col))
  {
    var le := RowLe(col, dir, locale);
    var sorted := Sort(le, rows);
    ComparatorLawfulIff(u, col, dir, locale);
    SortIsStable(le, u, rows);
    forall i, j | 0 <= i < j < |sorted| && IsBlank(SortCellValue(sorted[i], col))
      ensures IsBlank(SortCellValue(sorted[j], col))
    {
      assert le(sorted[i], sorted[j]);
    }
  }

  /** What the comparator says of two values that are not blank. */
  lemma CompareValues(a: Cell, b: Cell, dir: Direction, locale: Locale)
    requires Lawful(locale) && !IsBlank(a) && !IsBlank(b)
    ensures a.Num? && b.Num? ==> (Compare(a, b, dir, locale) <= 0.0 <==> if dir.Asc? then a.n <= b.n else a.n >= b.n)
    ensures var x, y := TextOf(a, locale), TextOf(b, locale);
      !a.Num? && !b.Num? ==>
        (Compare(a, b, dir, locale) <= 0.0 <==> if dir.Asc? then locale.collate(x, y) <= 0 else locale.collate(y, x) <= 0)
  {
    CollateBothWays(TextOf(a, locale), TextOf(b, locale), locale);
  }

  /** Upwards really is upwards in the column asked for: numbers by value and everything else by
      the host's order of its text, and downwards the other way round; blanks last in both. */
  lemma SortedByValue(
      rows: seq<Row>, columns: seq<Column>, sort: SortSpec, locale: Locale, u: set<Row>, k: nat, i: nat, j: nat, a: Cell, b: Cell)
    requires IsColumn(columns, sort.key, k) && Within(rows, u) && Sortable(u, columns[k], locale)
    requires i < j < |SortedRows(rows, columns, Some(sort), locale)|
    requires HasValue(SortedRows(rows, columns, Some(sort), locale)[i], columns[k], a)
    requires HasValue(SortedRows(rows, columns, Some(sort), locale)[j], columns[k], b)
    ensures IsBlank(a) ==> IsBlank(b)
    ensures a.Num? && b.Num? ==> if sort.dir.Asc? then a.n <= b.n else a.n >= b.n
    ensures (a.Str? || a.Other?) && (b.Str? || b.Other?) ==>
              var x, y := if a.Str? then a.s else a.text, if b.Str? then b.s else b.text;
              if sort.dir.Asc? then locale.collate(x, y) <= 0 else locale.collate(y, x) <= 0
  {
    RowsOfColumn(rows, columns, sort, locale, k);
    SortedRow(rows, columns[k], sort.dir, locale, u, i, j);
    BlanksLast(rows, columns[k], sort.dir, locale, u);
    if !IsBlank(a) && !IsBlank(b) {
      CompareValues(a, b, sort.dir, locale);
    }
  }

  /** The rows with one value in a column, in order. */
  function RowsWith(col: Column, value: Cell, s: seq<Row>): seq<Row> {
    if s == [] then []
    else (if HasValue(s[0], col, value) then [s[0]] else []) + RowsWith(col, value, s[1..])
  }

  lemma {:induction false} RowsWithInBlock(le: (Row, Row) -> bool, col: Column, value: Cell, x: Row, s: seq<Row>)
    requires forall y :: y in s && HasValue(y, col, value) ==> Tied(le, x, y)
    ensures RowsWith(col, value, Block(le, x, s)) == RowsWith(col, value, s)
    decreases |s|
  {
    if s != [] {
      RowsWithInBlock(le, col, value, x, s[1..]);
      var rest := Block(le, x, s[1..]);
      assert ([s[0]] + rest)[1..] == rest && [] + rest == rest;
    }
  }

  lemma {:induction false} NoRowsWith(col: Column, value: Cell, s: seq<Row>)
    requires forall y :: y in s ==> !HasValue(y, col, value)
    ensures RowsWith(col, value, s) == []
    decreases |s|
  {
    if s != [] {
      NoRowsWith(col, value, s[1..]);
    }
  }

  /** Rows with the same value in the sorted column keep the order they had, in both directions. */
  lemma EqualValuesKeepOrder(
      rows: seq<Row>, columns: seq<Column>, sort: SortSpec, locale: Locale, u: set<Row>, k: nat, value: Cell)
    requires IsColumn(columns, sort.key, k) && Within(rows, u) && Sortable(u, columns[k], locale)
    ensures RowsWith(columns[k], value, SortedRows(rows, columns, Some(sort), locale)) == RowsWith(columns[k], value, rows)
  {
    var col := columns[k];
    var le := RowLe(col, sort.dir, locale);
    RowsOfColumn(rows, columns, sort, locale, k);
    ComparatorLawfulIff(u, col, sort.dir, locale);
    SortIsStable(le, u, rows);
    if x :| x in u && HasValue(x, col, value) {
      RowsWithInBlock(le, col, value, x, rows);
      RowsWithInBlock(le, col, value, x, Sort(le, rows));
    } else {
      NoRowsWith(col, value, rows);
      NoRowsWith(col, value, Sort(le, rows));
    }
  }

  lemma SortedRow(rows: seq<Row>, col: Column, dir: Direction, locale: Locale, u: set<Row>, i: nat, j: nat)
    requires Within(rows, u) && Sortable(u, col, locale)
    requires i < j < |Sort(RowLe(col, dir, locale), rows)|
    ensures var sorted := Sort(RowLe(col, dir, locale), rows);
      Compare(SortCellValue(sorted[i], col), SortCellValue(sorted[j], col), dir, locale) <= 0.0
  {
    var le := RowLe(col, dir, locale);
    ComparatorLawfulIff(u, col, dir, locale);
    SortIsStable(le, u, rows);
    assert le(Sort(le, rows)[i], Sort(le, rows)[j]);
  }

  lemma FlippedCompare(a: Cell, b: Cell, locale: Locale)
    requires Lawful(locale) && (a.Num? == b.Num?) && !IsBlank(a) && !IsBlank(b)
    ensures Compare(a, b, Desc, locale) <= 0.0 <==> Compare(b, a, Asc, locale) <= 0.0
  {
    CompareValues(a, b, Desc, locale);
    CompareValues(b, a, Asc, locale);
  }

  lemma FlippedLe(x: Row, y: Row, col: Column, locale: Locale, u: set<Row>)
    requires Sortable(u, col, locale) && x in u && y in u
    ensures !IsBlank(SortCellValue(x, col)) && !IsBlank(SortCellValue(y, col)) ==>
              RowLe(col, Desc, locale)(x, y) == RowLe(col, Asc, locale)(y, x)
    ensures IsBlank(SortCellValue(x, col)) || IsBlank(SortCellValue(y, col)) ==>
              RowLe(col, Desc, locale)(x, y) == RowLe(col, Asc, locale)(x, y)
    ensures Tied(RowLe(col, Desc, locale), x, y) == Tied(RowLe(col, Asc, locale), x, y)
  {
    var a, b := SortCellValue(x, col), SortCellValue(y, col);
    if !IsBlank(a) && !IsBlank(b) {
      FlippedCompare(a, b, locale);
      FlippedCompare(b, a, locale);
    }
  }

  lemma {:induction false} SameTiesSameBlocks(le: (Row, Row) -> bool, le': (Row, Row) -> bool, x: Row, s: seq<Row>)
    requires forall y :: y in s ==> Tied(le, x, y) == Tied(le', x, y)
    ensures Block(le, x, s) == Block(le', x, s)
    decreases |s|
  {
    if s != [] {
      SameTiesSameBlocks(le, le', x, s[1..]);
    }
  }

  ghost predicate SplitsAtBlanks(s: seq<Row>, col: Column, k: nat) {
    && k <= |s|
    && (forall i :: 0 <= i < k ==> !IsBlank(SortCellValue(s[i], col)))
    && (forall i :: k <= i < |s| ==> IsBlank(SortCellValue(s[i], col)))
  }

  /** The ascending rows with the order of the equal-value blocks reversed and the blanks kept
      last are sorted for the descending comparison. */
  lemma MirrorSorted(asc: seq<Row>, col: Column, locale: Locale, u: set<Row>, k: nat)
    requires Within(asc, u) && Sortable(u, col, locale) && SplitsAtBlanks(asc, col, k)
    requires Sorted(RowLe(col, Asc, locale), asc)
    ensures Sorted(RowLe(col, Desc, locale), ReverseBlocks(RowLe(col, Asc, locale), asc[..k]) + asc[k..])
  {
    var le, le' := RowLe(col, Asc, locale), RowLe(col, Desc, locale);
    var back := ReverseBlocks(le, asc[..k]);
    var d := back + asc[k..];
    ComparatorLawfulIff(u, col, Asc, locale);
    ReverseBlocksKeeps(le, u, asc[..k]);
    forall i | 0 <= i < k ensures d[i] in u && !IsBlank(SortCellValue(d[i], col)) {
      assert back[i] in asc[..k];
    }
    forall i | k <= i < |asc| ensures d[i] == asc[i] && d[i] in u {}
    forall i, j | 0 <= i < j < |d| ensures le'(d[i], d[j]) {
      FlippedLe(d[i], d[j], col, locale, u);
      if j < k {
        assert le(back[j], back[i]);
      } else if i >= k {
        assert le(asc[i], asc[j]);
      }
    }
  }

  function NonBlankPrefix(s: seq<Row>, col: Column): (k: nat)
    ensures k <= |s|
    ensures forall i :: 0 <= i < k ==> !IsBlank(SortCellValue(s[i], col))
    ensures k < |s| ==> IsBlank(SortCellValue(s[k], col))
  {
    if s == [] || IsBlank(SortCellValue(s[0], col)) then 0 else 1 + NonBlankPrefix(s[1..], col)
  }

  /** Sorting a column downwards is sorting it upwards with the blocks of equal values reversed,
      each block as it was, and the blanks still last. */
  lemma DescendingMirrorsAscending(
      rows: seq<Row>, columns: seq<Column>, key: string, locale: Locale, u: set<Row>, k: nat)
    requires IsColumn(columns, key, k) && Within(rows, u) && Sortable(u, columns[k], locale)
    ensures var asc := SortedRows(rows, columns, Some(SortSpec(key, Asc)), locale);
      var n := NonBlankPrefix(asc, columns[k]);
      && SplitsAtBlanks(asc, columns[k], n)
      && SortedRows(rows, columns, Some(SortSpec(key, Desc)), locale)
         == ReverseBlocks(RowLe(columns[k], Asc, locale), asc[..n]) + asc[n..]
  {
    RowsOfColumn(rows, columns, SortSpec(key, Asc), locale, k);
    RowsOfColumn(rows, columns, SortSpec(key, Desc), locale, k);
    BlanksLast(rows, columns[k], Asc, locale, u);
    MirrorsAt(rows, columns[k], locale, u, NonBlankPrefix(Sort(RowLe(columns[k], Asc, locale), rows), columns[k]));
  }

  /** The mirrored list has the blocks that every stable sort of the rows has. */
  lemma MirroredBlock(
      le: (Row, Row) -> bool, le': (Row, Row) -> bool, u: set<Row>, rows: seq<Row>, asc: seq<Row>, k: nat, x: Row)
    requires PreorderOn(le, u) && x in u && Within(rows, u) && IsStableSort(le, u, rows, asc) && k <= |asc|
    requires forall y :: y in u ==> Tied(le, x, y) == Tied(le', x, y)
    ensures Block(le', x, rows) == Block(le', x, ReverseBlocks(le, asc[..k]) + asc[k..])
  {
    var back := ReverseBlocks(le, asc[..k]);
    assert asc == asc[..k] + asc[k..];
    ReverseBlocksKeeps(le, u, asc[..k]);
    BlockAppend(le, x, asc[..k], asc[k..]);
    BlockAppend(le, x, back, asc[k..]);
    SameTiesSameBlocks(le, le', x, rows);
    SameTiesSameBlocks(le, le', x, back + asc[k..]);
  }

  lemma MirrorsAt(rows: seq<Row>, col: Column, locale: Locale, u: set<Row>, k: nat)
    requires Within(rows, u) && Sortable(u, col, locale)
    requires SplitsAtBlanks(Sort(RowLe(col, Asc, locale), rows), col, k)
    ensures var asc := Sort(RowLe(col, Asc, locale), rows);
      Sort(RowLe(col, Desc, locale), rows) == ReverseBlocks(RowLe(col, Asc, locale), asc[..k]) + asc[k..]
  {
    var le, le' := RowLe(col, Asc, locale), RowLe(col, Desc, locale);
    ComparatorLawfulIff(u, col, Asc, locale);
    ComparatorLawfulIff(u, col, Desc, locale);
    SortIsStable(le, u, rows);
    SortIsStable(le', u, rows);
    var asc, desc := Sort(le, rows), Sort(le', rows);
    var d := ReverseBlocks(le, asc[..k]) + asc[k..];
    MirrorSorted(asc, col, locale, u, k);
    assert Within(d, u);
    forall x | x in u ensures Block(le', x, desc) == Block(le', x, d) {
      forall y | y in u ensures Tied(le, x, y) == Tied(le', x, y) {
        FlippedLe(x, y, col, locale, u);
      }
      MirroredBlock(le, le', u, rows, asc, k, x);
    }
    StableSortUnique(le', u, desc, d);
  }

  // ---------- The header button ----------

  function NextSort(active: Option<SortSpec>, key: string): Option<SortSpec> {
    if active.None? || active.value.key != key then Some(SortSpec(key, Asc))
    else if active.value.dir.Asc? then Some(SortSpec(key, Desc))
    else None
  }

  function Pressed(start: Option<SortSpec>, k: nat, key: string): Option<SortSpec> {
    if k == 0 then start else NextSort(Pressed(start, k - 1, key), key)
  }

  /** From no sort or a sort on another column, presses of one header go round ascending,
      descending and no sort. */
  lemma {:induction false} PressesCycle(start: Option<SortSpec>, k: nat, key: string)
    requires k > 0 && (start.Some? ==> start.value.key != key)
    ensures Pressed(start, k, key)
         == if k % 3 == 0 then None else Some(SortSpec(key, if k % 3 == 1 then Asc else Desc))
    decreases k
  {
    if k > 1 {
      PressesCycle(start, k - 1, key);
    } else {
      assert Pressed(start, 0, key) == start;
    }
  }

  /** Every third press of a header shows the rows as they came. */
  lemma ThreePressesRestore(rows: seq<Row>, columns: seq<Column>, start: Option<SortSpec>, key: string, locale: Locale, k: nat)
    requires k > 0 && (start.Some? ==> start.value.key != key)
    ensures SortedRows(rows, columns, Pressed(start, 3 * k, key), locale) == rows
  {
    PressesCycle(start, 3 * k, key);
  }

  class SortState {
    var internalSort: Option<SortSpec>

    constructor ()
      ensures internalSort == None
    {
      internalSort := None;
    }

    function ActiveSort(externalSort: Option<SortSpec>): Option<SortSpec>
      reads this
    {
      if externalSort.Some? then externalSort else internalSort
    }

    /** `sent` is what the owner of the sort is told when it listens. */
    method ToggleSort(rows: seq<Row>, col: Column, externalSort: Option<SortSpec>, listens: bool)
      returns (sent: Option<Option<SortSpec>>)
      modifies this
      ensures var pressed := rows != [] && (col.sortValue.Some? || col.key in rows[0].cells);
        var next := NextSort(old(ActiveSort(externalSort)), col.key);
        && internalSort == (if pressed && !listens then next else old(internalSort))
        && sent == (if pressed && listens then Some(next) else None)
      ensures rows != [] && (col.sortValue.Some? || col.key in rows[0].cells) && listens && externalSort.Some? ==>
        sent == Some(NextSort(externalSort, col.key))
      ensures rows != [] && (col.sortValue.Some? || col.key in rows[0].cells) && externalSort.None? && !listens ==>
        forall start, k: nat :: old(internalSort) == Pressed(start, k, col.key) ==>
          internalSort == Pressed(start, k + 1, col.key)
    {
      if |rows| == 0 || !(col.sortValue.Some? || col.key in rows[0].cells) {
        return None;
      }
      var active := ActiveSort(externalSort);
      var next: Option<SortSpec>;
      if active.None? || active.value.key != col.key {
        next := Some(SortSpec(col.key, Asc));
      } else if active.value.dir.Asc? {
        next := Some(SortSpec(col.key, Desc));
      } else {
        next := None;
      }
      if listens {
        return Some(next);
      }
      internalSort := next;
      sent := None;
    }
  }
}
