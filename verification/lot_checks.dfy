/** The lot rules of `TestContext` (categories "ЗУ", "ЕНК" and "ОКС"): each
    visits only the rows of its object kinds that are not archived and not
    part of a single lot, and checks which price and area columns are
    filled for the way the lot was priced. */
module LotChecks {
  import opened Basics
  import opened Text
  import opened MetaTable
  import opened Results
  import opened Asserts
  import opened RuleKit

  /** The three columns of the row filter: the object kind, the additional
      filter and the single-lot marker. */
  datatype Filter = Filter(kind: Column, extra: Column, single: Column)

  /** The row filter: the object kind is one of `kinds`, the additional
      filter is not "АРХИВ", and the single-lot column is empty. A null
      kind matches nothing. */
  predicate Selected(a: Assert, kinds: set<string>, f: Filter) {
    && Cell(a, f.kind).Some? && Cell(a, f.kind).value in kinds
    && IsNotEqual(a, f.extra, "АРХИВ")
    && IsEmpty(a, f.single)
  }

  const LandKinds: set<string> := {"ZU", "Rnt"}

  /** The filter columns of a lot rule, which looks them up first. */
  function FilterOf(cs: seq<Column>): (f: Filter)
    requires |cs| >= 3
    ensures [f.kind, f.extra, f.single] == cs[..3]
  {
    Filter(cs[0], cs[1], cs[2])
  }

  /** A lot rule whose rows all pass when unselected records nothing when
      no row of the table is selected. */
  lemma UnselectedRowsPass(a: Assert, kinds: set<string>, f: Filter, body: Assert -> Log)
    requires forall b: Assert :: !Selected(b, kinds, f) ==> body(b) == Pass
    requires forall y: nat :: y < a.t.rows ==> !Selected(a.(y := y), kinds, f)
    ensures EachRow(a, body, 0) == Pass
  {
    EachRowQuiet(a, body, 0);
  }

  /** The names of the filter columns, looked up first by every lot rule. */
  const FilterNames: seq<string> := ["Вид ОН", "Дополн. фильтр", "Единый лот"]

  /** `NotZeroOrEmpty` when `filled`, `ZeroOrEmpty` otherwise. */
  function Expect(a: Assert, filled: bool, column: Column): (r: Log)
    ensures !r.threw && |r.notes| <= 1
    ensures r.notes == [] <==> IsNotZeroOrEmpty(a, column) == filled
    ensures forall n :: n in r.notes ==> n.y == a.y && n.column == column
  {
    if filled then NotZeroOrEmpty(a, column) else ZeroOrEmpty(a, column)
  }

  /** A run of `Expect` assertions over `columns`, in order: it records one
      problem for each column that is not filled (or not blank) as
      expected, and nothing else. */
  function Sweep(a: Assert, filled: bool, columns: seq<Column>): (r: Log)
    ensures !r.threw && |r.notes| <= |columns|
    ensures forall n :: n in r.notes ==> n.y == a.y && n.column in columns
    ensures r.notes == [] <==> forall c :: c in columns ==> IsNotZeroOrEmpty(a, c) == filled
    ensures !filled ==> (r.notes == [] <==> forall c :: c in columns ==> IsZeroOrEmpty(a, c))
    decreases |columns|
  {
    if |columns| == 0 then Pass
    else
      var rest := Sweep(a, filled, columns[1..]);
      assert columns == [columns[0]] + columns[1..];
      Then(Expect(a, filled, columns[0]), rest)
  }

  /** `NotEmpty` when `present`, `Empty` otherwise. */
  function ExpectText(a: Assert, present: bool, column: Column): (r: Log)
    ensures !r.threw && |r.notes| <= 1
    ensures r.notes == [] <==> IsNotEmpty(a, column) == present
    ensures forall n :: n in r.notes ==> n.y == a.y && n.column == column
  {
    if present then NotEmpty(a, column) else Empty(a, column)
  }

  /** A run of `ExpectText` assertions over `columns`, in order: one
      problem for each column that is not filled (or not empty) as
      expected. */
  function SweepText(a: Assert, present: bool, columns: seq<Column>): (r: Log)
    ensures !r.threw && |r.notes| <= |columns|
    ensures forall n :: n in r.notes ==> n.y == a.y && n.column in columns
    ensures r.notes == [] <==> forall c :: c in columns ==> IsNotEmpty(a, c) == present
    ensures !present ==> (r.notes == [] <==> forall c :: c in columns ==> IsEmpty(a, c))
    decreases |columns|
  {
    if |columns| == 0 then Pass
    else
      var rest := SweepText(a, present, columns[1..]);
      assert columns == [columns[0]] + columns[1..];
      Then(ExpectText(a, present, columns[0]), rest)
  }

  // -------------------------------------------------------------- ZuRnt

  const ZuRntNames: seq<string> := FilterNames + [
    "Цена продажи ЗУ", "Уд. цена на  1 кв.м ЗУ", "Площадь лота",
    "Площадь ЗУ", "Доля ЗУ", "Площадь доли ЗУ"]

  /** ZuRnt for one row: a selected land or rent row needs every price and
      area of the land filled with a non-zero value. */
  function ZuRntRow(a: Assert, f: Filter, land: seq<Column>): (r: Log)
    ensures !Selected(a, LandKinds, f) ==> r == Pass
    ensures !r.threw && |r.notes| <= |land|
    ensures forall n :: n in r.notes ==> n.y == a.y && n.column in land
    ensures r.notes == [] <==>
              !Selected(a, LandKinds, f) || forall c :: c in land ==> IsNotZeroOrEmpty(a, c)
  {
    if !Selected(a, LandKinds, f) then Pass else Sweep(a, true, land)
  }

  /** A ZuRnt row passes: it is outside the filter, or every land column
      holds a non-zero value. */
  predicate ZuRntPasses(b: Assert, f: Filter, land: seq<Column>) {
    !Selected(b, LandKinds, f) || forall c :: c in land ==> IsNotZeroOrEmpty(b, c)
  }

  /** What ZuRnt does over the whole table: it never throws, records
      nothing exactly when every visited row passes, and records only in
      visited rows at the land columns. */
  predicate ZuRntOutcome(r: Log, a: Assert, f: Filter, land: seq<Column>) {
    && !r.threw
    && (r.notes == [] <==> forall y: nat :: y < a.t.rows ==> ZuRntPasses(a.(y := y), f, land))
    && forall n :: n in r.notes ==> n.y < a.t.rows && n.column in land
  }

  function ZuRntBody(f: Filter, land: seq<Column>): Assert -> Log {
    b => ZuRntRow(b, f, land)
  }

  lemma ZuRntLoop(a: Assert, f: Filter, land: seq<Column>)
    ensures ZuRntOutcome(EachRow(a, ZuRntBody(f, land), 0), a, f, land)
  {
    var body := ZuRntBody(f, land);
    var columns := set c | c in land;
    forall y: nat | y < a.t.rows
      ensures !body(a.(y := y)).threw
      ensures body(a.(y := y)).notes == [] <==> ZuRntPasses(a.(y := y), f, land)
      ensures Within(body(a.(y := y)), y, columns)
    {
      var r := ZuRntRow(a.(y := y), f, land);
    }
    EachRowWithin(a, body, columns);
    EachRowPasses(a, body, b => ZuRntPasses(b, f, land));
  }

  function ZuRnt(a: Assert, s: Shared): (r: Log)
    ensures GetColumns(a.t, ZuRntNames).Threw? ==> r == Abort
    ensures GetColumns(a.t, ZuRntNames).Done? ==>
              var cs := GetColumns(a.t, ZuRntNames).value;
              ZuRntOutcome(r, a, FilterOf(cs), cs[3..9])
  {
    match GetColumns(a.t, ZuRntNames)
    case Threw => Abort
    case Done(cs) =>
      ZuRntLoop(a, FilterOf(cs), cs[3..9]);
      EachRow(a, ZuRntBody(FilterOf(cs), cs[3..9]), 0)
  }

  // ---------------------------------------------- the building columns

  /** The building columns the rules ZuRnt2, ZuRnt3 and ZuRnt4 read. */
  datatype Building = Building(
    unitPrice: Column, priceZu: Column, priceLot: Column, onePrice: Column,
    fact: Column, area: Column, cadastral: Column, separate: Column)

  /** The columns of a `Building`. */
  function BuildingColumns(o: Building): set<Column> {
    {o.unitPrice, o.priceZu, o.priceLot, o.onePrice, o.fact, o.area, o.cadastral, o.separate}
  }

  /** The message when one of the two building prices is empty. */
  function NumbersMessage(a: Assert, o: Building): string {
    "Ожидалось, что столбцы '" + o.priceZu.name + "' и '" + o.priceLot.name
      + "' будут содержать числа, но получены '" + ShownAt(a, o.priceZu) + "' и '" + ShownAt(a, o.priceLot) + "'"
  }

  /** The message when one building price is zero or empty and the other
      is not. */
  function MismatchMessage(o: Building): string {
    "Исключительный случай: f('" + o.priceZu.name + "') != f('" + o.priceLot.name + "')"
  }

  /** Both building prices given: an empty one is reported on the land
      price column; otherwise both are read as numbers (a read throws on
      text that is not a number), and when neither is at most `LowPrice`
      the given columns must all be filled with non-zero values. */
  function PricedCheck(a: Assert, o: Building, columns: seq<Column>): (r: Log)
    requires |columns| >= 1
    ensures r.threw <==>
              !IsEmpty(a, o.priceZu) && !IsEmpty(a, o.priceLot) && MayBeZero(a, o.priceZu, o.priceLot).Threw?
    ensures r.threw ==> r == Abort
    ensures |r.notes| <= |columns|
    ensures forall n :: n in r.notes ==> n.y == a.y && (n.column == o.priceZu || n.column in columns)
    ensures IsEmpty(a, o.priceZu) || IsEmpty(a, o.priceLot) ==>
              r.notes == [Note(o.priceZu, a.y, Some(NumbersMessage(a, o)))]
    ensures !IsEmpty(a, o.priceZu) && !IsEmpty(a, o.priceLot) && MayBeZero(a, o.priceZu, o.priceLot) == Done(true) ==>
              r == Pass
    ensures !IsEmpty(a, o.priceZu) && !IsEmpty(a, o.priceLot) && MayBeZero(a, o.priceZu, o.priceLot) == Done(false) ==>
              !r.threw && (r.notes == [] <==> forall c :: c in columns ==> IsNotZeroOrEmpty(a, c))
    ensures !r.threw ==> (r.notes == [] <==> PricedPasses(a, o, columns))
  {
    if IsEmpty(a, o.priceZu) || IsEmpty(a, o.priceLot) then Explain(a, o.priceZu, NumbersMessage(a, o))
    else match MayBeZero(a, o.priceZu, o.priceLot)
      case Threw => Abort
      case Done(low) => if low then Pass else Sweep(a, true, columns)
  }

  /** A `PricedCheck` that returns normally records nothing exactly when
      both building prices are given and, unless one of them is low, every
      one of `columns` holds a non-zero value. */
  predicate PricedPasses(a: Assert, o: Building, columns: seq<Column>) {
    && !IsEmpty(a, o.priceZu) && !IsEmpty(a, o.priceLot)
    && (MayBeZero(a, o.priceZu, o.priceLot) == Done(false) ==> forall c :: c in columns ==> IsNotZeroOrEmpty(a, c))
  }

  // ------------------------------------------------------------- ZuRnt2

  const ZuRnt2Names: seq<string> := FilterNames + [
    "Цена продажи ОКС (лот)", "Стоимость ОКС указана отдельно", "Уд. цена на 1 кв. м ОКС",
    "Цена продажи ОКС (ЗУ)", "Цена 1 кв.м ОКС", "Факт. использование ОКС",
    "Кад. номер ОКС", "Площадь ОКС"]

  /** ZuRnt2 for one row. A building priced within the lot needs the
      separate-price mark "V" and, unless a price is low, every building
      detail; otherwise the mark and the building prices stay blank, and
      the details are filled exactly when the building's unit price is. */
  function ZuRnt2Row(a: Assert, f: Filter, o: Building): (r: Log)
    ensures !Selected(a, LandKinds, f) ==> r == Pass
    ensures r.threw <==>
              && Selected(a, LandKinds, f) && IsNotZeroOrEmpty(a, o.priceLot)
              && !IsEmpty(a, o.priceZu) && MayBeZero(a, o.priceZu, o.priceLot).Threw?
    ensures Confined(r, a, 7, BuildingColumns(o))
    ensures Selected(a, LandKinds, f) && IsNotZeroOrEmpty(a, o.priceLot) && IsEmpty(a, o.priceZu) ==>
              Note(o.priceZu, a.y, Some(NumbersMessage(a, o))) in r.notes
    ensures Selected(a, LandKinds, f) && IsZeroOrEmpty(a, o.priceLot) && !IsEmpty(a, o.separate) ==>
              Note(o.separate, a.y, Some(EmptyMessage(Cell(a, o.separate)))) in r.notes
    ensures !r.threw ==> (r.notes == [] <==> ZuRnt2Passes(a, f, o))
  {
    if !Selected(a, LandKinds, f) then Pass
    else if IsNotZeroOrEmpty(a, o.priceLot) then WithinLot(a, o)
    else OutsideLot(a, o)
  }

  /** A ZuRnt2 building priced within the lot: the mark "V", then
      `PricedCheck` over its details. */
  function WithinLot(a: Assert, o: Building): (r: Log)
    ensures r.threw <==> !IsEmpty(a, o.priceZu) && !IsEmpty(a, o.priceLot) && MayBeZero(a, o.priceZu, o.priceLot).Threw?
    ensures Confined(r, a, 7, BuildingColumns(o))
    ensures IsEmpty(a, o.priceZu) ==> Note(o.priceZu, a.y, Some(NumbersMessage(a, o))) in r.notes
    ensures !r.threw ==> (r.notes == [] <==> IsEqual(a, o.separate, "V") && PricedPasses(a, o, ZuRnt2Details(o)))
  {
    var mark := Equal(a, o.separate, "V");
    var priced := PricedCheck(a, o, ZuRnt2Details(o));
    ThenConfined(a, mark, 1, priced, 6, BuildingColumns(o));
    Then(mark, priced)
  }

  /** A ZuRnt2 building not priced within the lot: no mark and no building
      prices, and its details filled exactly when its unit price is. */
  function OutsideLot(a: Assert, o: Building): (r: Log)
    ensures Bounded(r, a, 6, BuildingColumns(o))
    ensures !IsEmpty(a, o.separate) ==> Note(o.separate, a.y, Some(EmptyMessage(Cell(a, o.separate)))) in r.notes
    ensures r.notes == [] <==> OutsideLotFine(a, o)
  {
    var mark := Empty(a, o.separate);
    var rest := OutsideLotPrices(a, o);
    ThenConfined(a, mark, 1, rest, 5, BuildingColumns(o));
    Then(mark, rest)
  }

  /** The price part of `OutsideLot`: zero-or-empty building prices, then
      the details paired with the unit price. */
  function OutsideLotPrices(a: Assert, o: Building): (r: Log)
    ensures Bounded(r, a, 5, BuildingColumns(o))
    ensures r.notes == [] <==>
              && IsZeroOrEmpty(a, o.priceZu) && IsZeroOrEmpty(a, o.onePrice)
              && IsNotZeroOrEmpty(a, o.cadastral) == IsNotZeroOrEmpty(a, o.unitPrice)
              && IsNotZeroOrEmpty(a, o.area) == IsNotZeroOrEmpty(a, o.unitPrice)
              && IsNotZeroOrEmpty(a, o.fact) == IsNotZeroOrEmpty(a, o.unitPrice)
  {
    Then(Sweep(a, false, [o.priceZu, o.onePrice]),
         Sweep(a, IsNotZeroOrEmpty(a, o.unitPrice), [o.cadastral, o.area, o.fact]))
  }

  /** A ZuRnt2 building outside the lot price has neither the mark nor
      building prices, and its cadastral number, area and actual use are
      non-zero exactly when its unit price is. */
  predicate OutsideLotFine(b: Assert, o: Building) {
    && IsEmpty(b, o.separate) && IsZeroOrEmpty(b, o.priceZu) && IsZeroOrEmpty(b, o.onePrice)
    && IsNotZeroOrEmpty(b, o.cadastral) == IsNotZeroOrEmpty(b, o.unitPrice)
    && IsNotZeroOrEmpty(b, o.area) == IsNotZeroOrEmpty(b, o.unitPrice)
    && IsNotZeroOrEmpty(b, o.fact) == IsNotZeroOrEmpty(b, o.unitPrice)
  }

  /** The building details ZuRnt2 needs of a building priced within the
      lot. */
  function ZuRnt2Details(o: Building): seq<Column> {
    [o.unitPrice, o.priceZu, o.onePrice, o.fact, o.cadastral, o.area]
  }

  /** A ZuRnt2 row passes: it is outside the filter; or its building is
      priced within the lot, carries the mark "V" and passes
      `PricedPasses` over its details; or it is not priced within the lot,
      has neither the mark nor building prices, and has its cadastral
      number, area and actual use non-zero exactly when its unit price
      is. */
  predicate ZuRnt2Passes(b: Assert, f: Filter, o: Building) {
    || !Selected(b, LandKinds, f)
    || (if IsNotZeroOrEmpty(b, o.priceLot) then
          IsEqual(b, o.separate, "V") && PricedPasses(b, o, ZuRnt2Details(o))
        else OutsideLotFine(b, o))
  }

  /** The building columns of ZuRnt2, from its resolved columns. */
  function ZuRnt2Building(cs: seq<Column>): Building
    requires |cs| >= 11
  {
    Building(cs[5], cs[6], cs[3], cs[7], cs[8], cs[10], cs[9], cs[4])
  }

  /** A ZuRnt2 row throws: a selected row with a non-zero lot
      price and a filled land price, one of whose prices is not a number. */
  predicate ZuRnt2Throws(b: Assert, f: Filter, o: Building) {
    && Selected(b, LandKinds, f) && IsNotZeroOrEmpty(b, o.priceLot)
    && !IsEmpty(b, o.priceZu) && MayBeZero(b, o.priceZu, o.priceLot).Threw?
  }

  /** What ZuRnt2 does over the whole table: it throws exactly when a
      visited row throws, otherwise records nothing exactly when every row
      passes, and records only in visited rows at the building
      columns. */
  predicate ZuRnt2Outcome(r: Log, a: Assert, f: Filter, o: Building) {
    && (r.threw <==> exists y: nat :: y < a.t.rows && ZuRnt2Throws(a.(y := y), f, o))
    && (!r.threw ==> (r.notes == [] <==> forall y: nat :: y < a.t.rows ==> ZuRnt2Passes(a.(y := y), f, o)))
    && forall n :: n in r.notes ==> n.y < a.t.rows && n.column in BuildingColumns(o)
  }

  function ZuRnt2Body(f: Filter, o: Building): Assert -> Log {
    b => ZuRnt2Row(b, f, o)
  }

  lemma ZuRnt2RowFacts(b: Assert, f: Filter, o: Building)
    ensures ZuRnt2Body(f, o)(b).threw <==> ZuRnt2Throws(b, f, o)
    ensures !ZuRnt2Body(f, o)(b).threw ==> (ZuRnt2Body(f, o)(b).notes == [] <==> ZuRnt2Passes(b, f, o))
    ensures Within(ZuRnt2Body(f, o)(b), b.y, BuildingColumns(o))
  {
    var r := ZuRnt2Row(b, f, o);
  }

  lemma ZuRnt2Loop(a: Assert, f: Filter, o: Building)
    ensures ZuRnt2Outcome(EachRow(a, ZuRnt2Body(f, o), 0), a, f, o)
  {
    var body := ZuRnt2Body(f, o);
    forall y: nat | y < a.t.rows
      ensures body(a.(y := y)).threw <==> ZuRnt2Throws(a.(y := y), f, o)
      ensures Within(body(a.(y := y)), y, BuildingColumns(o))
    {
      ZuRnt2RowFacts(a.(y := y), f, o);
    }
    EachRowWithin(a, body, BuildingColumns(o));
    EachRowThrows(a, body, b => ZuRnt2Throws(b, f, o));
    forall y: nat | y < a.t.rows && !body(a.(y := y)).threw
      ensures body(a.(y := y)).notes == [] <==> ZuRnt2Passes(a.(y := y), f, o)
    {
      ZuRnt2RowFacts(a.(y := y), f, o);
    }
    EachRowPassesUnlessThrown(a, body, b => ZuRnt2Passes(b, f, o));
  }

  function ZuRnt2(a: Assert, s: Shared): (r: Log)
    ensures GetColumns(a.t, ZuRnt2Names).Threw? ==> r == Abort
    ensures GetColumns(a.t, ZuRnt2Names).Done? ==>
              var cs := GetColumns(a.t, ZuRnt2Names).value;
              ZuRnt2Outcome(r, a, FilterOf(cs), ZuRnt2Building(cs))
  {
    match GetColumns(a.t, ZuRnt2Names)
    case Threw => Abort
    case Done(cs) =>
      ZuRnt2Loop(a, FilterOf(cs), ZuRnt2Building(cs));
      EachRow(a, ZuRnt2Body(FilterOf(cs), ZuRnt2Building(cs)), 0)
  }

  // ------------------------------------------------------------- ZuRnt3

  const ZuRnt3Names: seq<string> := FilterNames + [
    "Уд. цена на 1 кв. м ОКС", "Цена продажи ОКС (ЗУ)", "Цена продажи ОКС (лот)",
    "Цена 1 кв.м ОКС", "Факт. использование ОКС", "Площадь ОКС",
    "Кад. номер ОКС", "Стоимость ОКС указана отдельно"]

  /** ZuRnt3 for one row, by the building's unit price. Without one, every
      building column stays blank. With one, both building prices given
      lead to `PricedCheck`; both blank need the building described but
      no per-metre price or mark; one of each is an exceptional case
      reported on the land price column. */
  function ZuRnt3Row(a: Assert, f: Filter, o: Building): (r: Log)
    ensures !Selected(a, LandKinds, f) ==> r == Pass
    ensures r.threw <==>
              && Selected(a, LandKinds, f) && IsNotZeroOrEmpty(a, o.unitPrice)
              && IsNotZeroOrEmpty(a, o.priceZu) && IsNotZeroOrEmpty(a, o.priceLot)
              && MayBeZero(a, o.priceZu, o.priceLot).Threw?
    ensures Confined(r, a, 7, BuildingColumns(o))
    ensures Selected(a, LandKinds, f) && IsZeroOrEmpty(a, o.unitPrice) ==> (r.notes == [] <==> UnpricedFine(a, o))
    ensures Selected(a, LandKinds, f) && IsNotZeroOrEmpty(a, o.unitPrice)
            && IsNotZeroOrEmpty(a, o.priceZu) != IsNotZeroOrEmpty(a, o.priceLot) ==>
              r == Explain(a, o.priceZu, MismatchMessage(o))
    ensures !r.threw ==> (r.notes == [] <==> ZuRnt3Passes(a, f, o))
  {
    if !Selected(a, LandKinds, f) then Pass
    else if IsZeroOrEmpty(a, o.unitPrice) then Unpriced(a, o)
    else if IsNotZeroOrEmpty(a, o.priceZu) && IsNotZeroOrEmpty(a, o.priceLot) then
      PricedCheck(a, o, ZuRnt3Details(o))
    else if IsZeroOrEmpty(a, o.priceZu) && IsZeroOrEmpty(a, o.priceLot) then Described(a, o)
    else Explain(a, o.priceZu, MismatchMessage(o))
  }

  /** A building without a unit price: every other building column is
      zero or empty. */
  function Unpriced(a: Assert, o: Building): (r: Log)
    ensures Bounded(r, a, 7, {o.priceZu, o.priceLot, o.onePrice, o.fact, o.area, o.cadastral, o.separate})
    ensures r.notes == [] <==> UnpricedFine(a, o)
  {
    Sweep(a, false, [o.priceZu, o.priceLot, o.onePrice, o.fact, o.area, o.cadastral, o.separate])
  }

  /** A building with a unit price but no sale prices: it is described
      (use, area, cadastral number) but has no per-metre price or mark. */
  function Described(a: Assert, o: Building): (r: Log)
    ensures Bounded(r, a, 5, {o.fact, o.area, o.cadastral, o.onePrice, o.separate})
    ensures r.notes == [] <==>
              && IsNotZeroOrEmpty(a, o.fact) && IsNotZeroOrEmpty(a, o.area) && IsNotZeroOrEmpty(a, o.cadastral)
              && IsZeroOrEmpty(a, o.onePrice) && IsZeroOrEmpty(a, o.separate)
  {
    Then(Sweep(a, true, [o.fact, o.area, o.cadastral]), Sweep(a, false, [o.onePrice, o.separate]))
  }

  /** The building details ZuRnt3 needs of a building with both sale
      prices. */
  function ZuRnt3Details(o: Building): seq<Column> {
    [o.fact, o.area, o.cadastral, o.onePrice, o.separate]
  }

  /** A building without a unit price has every other building column zero
      or empty. */
  predicate UnpricedFine(b: Assert, o: Building) {
    && IsZeroOrEmpty(b, o.priceZu) && IsZeroOrEmpty(b, o.priceLot) && IsZeroOrEmpty(b, o.onePrice)
    && IsZeroOrEmpty(b, o.fact) && IsZeroOrEmpty(b, o.area) && IsZeroOrEmpty(b, o.cadastral)
    && IsZeroOrEmpty(b, o.separate)
  }

  /** A ZuRnt3 row passes: it is outside the filter; or its building has
      no unit price and nothing else; or it has one and both sale prices,
      and passes `PricedPasses` over its details; or it has one and
      neither sale price, and is described without a per-metre price or
      mark. A building with exactly one sale price never passes. */
  predicate ZuRnt3Passes(b: Assert, f: Filter, o: Building) {
    || !Selected(b, LandKinds, f)
    || (if IsZeroOrEmpty(b, o.unitPrice) then UnpricedFine(b, o)
        else if IsNotZeroOrEmpty(b, o.priceZu) && IsNotZeroOrEmpty(b, o.priceLot) then
          PricedPasses(b, o, ZuRnt3Details(o))
        else
          && IsZeroOrEmpty(b, o.priceZu) && IsZeroOrEmpty(b, o.priceLot)
          && IsNotZeroOrEmpty(b, o.fact) && IsNotZeroOrEmpty(b, o.area) && IsNotZeroOrEmpty(b, o.cadastral)
          && IsZeroOrEmpty(b, o.onePrice) && IsZeroOrEmpty(b, o.separate))
  }

  /** The building columns of ZuRnt3, from its resolved columns. */
  function ZuRnt3Building(cs: seq<Column>): Building
    requires |cs| >= 11
  {
    Building(cs[3], cs[4], cs[5], cs[6], cs[7], cs[8], cs[9], cs[10])
  }

  /** A ZuRnt3 row throws: a selected row with a non-zero unit
      price and both prices non-zero, one of which is not a number. */
  predicate ZuRnt3Throws(b: Assert, f: Filter, o: Building) {
    && Selected(b, LandKinds, f) && IsNotZeroOrEmpty(b, o.unitPrice)
    && IsNotZeroOrEmpty(b, o.priceZu) && IsNotZeroOrEmpty(b, o.priceLot)
    && MayBeZero(b, o.priceZu, o.priceLot).Threw?
  }

  /** What ZuRnt3 does over the whole table: it throws exactly when a
      visited row throws, otherwise records nothing exactly when every row
      passes, and records only in visited rows at the building
      columns. */
  predicate ZuRnt3Outcome(r: Log, a: Assert, f: Filter, o: Building) {
    && (r.threw <==> exists y: nat :: y < a.t.rows && ZuRnt3Throws(a.(y := y), f, o))
    && (!r.threw ==> (r.notes == [] <==> forall y: nat :: y < a.t.rows ==> ZuRnt3Passes(a.(y := y), f, o)))
    && forall n :: n in r.notes ==> n.y < a.t.rows && n.column in BuildingColumns(o)
  }

  function ZuRnt3Body(f: Filter, o: Building): Assert -> Log {
    b => ZuRnt3Row(b, f, o)
  }

  lemma ZuRnt3RowFacts(b: Assert, f: Filter, o: Building)
    ensures ZuRnt3Body(f, o)(b).threw <==> ZuRnt3Throws(b, f, o)
    ensures !ZuRnt3Body(f, o)(b).threw ==> (ZuRnt3Body(f, o)(b).notes == [] <==> ZuRnt3Passes(b, f, o))
    ensures Within(ZuRnt3Body(f, o)(b), b.y, BuildingColumns(o))
  {
    var r := ZuRnt3Row(b, f, o);
  }

  lemma ZuRnt3Loop(a: Assert, f: Filter, o: Building)
    ensures ZuRnt3Outcome(EachRow(a, ZuRnt3Body(f, o), 0), a, f, o)
  {
    var body := ZuRnt3Body(f, o);
    forall y: nat | y < a.t.rows
      ensures body(a.(y := y)).threw <==> ZuRnt3Throws(a.(y := y), f, o)
      ensures Within(body(a.(y := y)), y, BuildingColumns(o))
    {
      ZuRnt3RowFacts(a.(y := y), f, o);
    }
    EachRowWithin(a, body, BuildingColumns(o));
    EachRowThrows(a, body, b => ZuRnt3Throws(b, f, o));
    forall y: nat | y < a.t.rows && !body(a.(y := y)).threw
      ensures body(a.(y := y)).notes == [] <==> ZuRnt3Passes(a.(y := y), f, o)
    {
      ZuRnt3RowFacts(a.(y := y), f, o);
    }
    EachRowPassesUnlessThrown(a, body, b => ZuRnt3Passes(b, f, o));
  }

  function ZuRnt3(a: Assert, s: Shared): (r: Log)
    ensures GetColumns(a.t, ZuRnt3Names).Threw? ==> r == Abort
    ensures GetColumns(a.t, ZuRnt3Names).Done? ==>
              var cs := GetColumns(a.t, ZuRnt3Names).value;
              ZuRnt3Outcome(r, a, FilterOf(cs), ZuRnt3Building(cs))
  {
    match GetColumns(a.t, ZuRnt3Names)
    case Threw => Abort
    case Done(cs) =>
      ZuRnt3Loop(a, FilterOf(cs), ZuRnt3Building(cs));
      EachRow(a, ZuRnt3Body(FilterOf(cs), ZuRnt3Building(cs)), 0)
  }

  // ------------------------------------------------------------- ZuRnt4

  const ZuRnt4Names: seq<string> := FilterNames + [
    "Цена 1 кв.м ОКС", "Уд. цена на 1 кв. м ОКС", "Цена продажи ОКС (ЗУ)",
    "Цена продажи ОКС (лот)", "Стоимость ОКС указана отдельно", "Кад. номер ОКС",
    "Факт. использование ОКС", "Площадь ОКС"]

  /** ZuRnt4 for one row, by the price per square metre. Without one, the
      building prices and mark stay blank and the building is described
      exactly when it has a unit price. With one, `PricedCheck` applies to
      every other building column. (The source defaults an empty price to
      0 before comparing it with `LowPrice`, but that branch is reached
      only when both prices are non-empty.) */
  function ZuRnt4Row(a: Assert, f: Filter, o: Building): (r: Log)
    ensures !Selected(a, LandKinds, f) ==> r == Pass
    ensures r.threw <==>
              && Selected(a, LandKinds, f) && !IsEmpty(a, o.onePrice)
              && !IsEmpty(a, o.priceZu) && !IsEmpty(a, o.priceLot)
              && MayBeZero(a, o.priceZu, o.priceLot).Threw?
    ensures Confined(r, a, 7, BuildingColumns(o))
    ensures Selected(a, LandKinds, f) && IsEmpty(a, o.onePrice) ==>
              (r.notes == [] <==>
                 && IsZeroOrEmpty(a, o.priceZu) && IsZeroOrEmpty(a, o.priceLot) && IsZeroOrEmpty(a, o.separate)
                 && (IsNotEmpty(a, o.unitPrice) <==> IsNotZeroOrEmpty(a, o.cadastral))
                 && (IsNotEmpty(a, o.unitPrice) <==> IsNotZeroOrEmpty(a, o.fact))
                 && (IsNotEmpty(a, o.unitPrice) <==> IsNotZeroOrEmpty(a, o.area)))
    ensures Selected(a, LandKinds, f) && !IsEmpty(a, o.onePrice) && (IsEmpty(a, o.priceZu) || IsEmpty(a, o.priceLot)) ==>
              r == Explain(a, o.priceZu, NumbersMessage(a, o))
    ensures !r.threw ==> (r.notes == [] <==> ZuRnt4Passes(a, f, o))
  {
    if !Selected(a, LandKinds, f) then Pass
    else if IsEmpty(a, o.onePrice) then SinglePriceless(a, o)
    else
      PricedCheck(a, o, ZuRnt4Details(o))
  }

  /** A ZuRnt4 building without a single price: no sale prices or mark,
      and the cadastral number, actual use and area are non-zero exactly
      when the unit price is given. */
  function SinglePriceless(a: Assert, o: Building): (r: Log)
    ensures Bounded(r, a, 6, {o.priceZu, o.priceLot, o.separate, o.cadastral, o.fact, o.area})
    ensures r.notes == [] <==>
              && IsZeroOrEmpty(a, o.priceZu) && IsZeroOrEmpty(a, o.priceLot) && IsZeroOrEmpty(a, o.separate)
              && (IsNotEmpty(a, o.unitPrice) <==> IsNotZeroOrEmpty(a, o.cadastral))
              && (IsNotEmpty(a, o.unitPrice) <==> IsNotZeroOrEmpty(a, o.fact))
              && (IsNotEmpty(a, o.unitPrice) <==> IsNotZeroOrEmpty(a, o.area))
  {
    Then(Sweep(a, false, [o.priceZu, o.priceLot, o.separate]),
         Sweep(a, IsNotEmpty(a, o.unitPrice), [o.cadastral, o.fact, o.area]))
  }

  /** The building details ZuRnt4 needs of a building with a price per
      square metre. */
  function ZuRnt4Details(o: Building): seq<Column> {
    [o.priceZu, o.priceLot, o.unitPrice, o.fact, o.area, o.cadastral, o.separate]
  }

  /** A ZuRnt4 row passes: it is outside the filter; or its building has
      no price per square metre, no sale prices or mark, and a cadastral
      number, actual use and area non-zero exactly when its unit price is
      given; or it has a price per square metre and passes `PricedPasses`
      over its details. */
  predicate ZuRnt4Passes(b: Assert, f: Filter, o: Building) {
    || !Selected(b, LandKinds, f)
    || (if IsEmpty(b, o.onePrice) then
          && IsZeroOrEmpty(b, o.priceZu) && IsZeroOrEmpty(b, o.priceLot) && IsZeroOrEmpty(b, o.separate)
          && (IsNotEmpty(b, o.unitPrice) <==> IsNotZeroOrEmpty(b, o.cadastral))
          && (IsNotEmpty(b, o.unitPrice) <==> IsNotZeroOrEmpty(b, o.fact))
          && (IsNotEmpty(b, o.unitPrice) <==> IsNotZeroOrEmpty(b, o.area))
        else PricedPasses(b, o, ZuRnt4Details(o)))
  }

  /** The building columns of ZuRnt4, from its resolved columns. */
  function ZuRnt4Building(cs: seq<Column>): Building
    requires |cs| >= 11
  {
    Building(cs[4], cs[5], cs[6], cs[3], cs[9], cs[10], cs[8], cs[7])
  }

  /** A ZuRnt4 row throws: a selected row with a filled price per
      square metre and both prices filled, one of which is not a number. */
  predicate ZuRnt4Throws(b: Assert, f: Filter, o: Building) {
    && Selected(b, LandKinds, f) && !IsEmpty(b, o.onePrice)
    && !IsEmpty(b, o.priceZu) && !IsEmpty(b, o.priceLot)
    && MayBeZero(b, o.priceZu, o.priceLot).Threw?
  }

  /** What ZuRnt4 does over the whole table: it throws exactly when a
      visited row throws, otherwise records nothing exactly when every row
      passes, and records only in visited rows at the building
      columns. */
  predicate ZuRnt4Outcome(r: Log, a: Assert, f: Filter, o: Building) {
    && (r.threw <==> exists y: nat :: y < a.t.rows && ZuRnt4Throws(a.(y := y), f, o))
    && (!r.threw ==> (r.notes == [] <==> forall y: nat :: y < a.t.rows ==> ZuRnt4Passes(a.(y := y), f, o)))
    && forall n :: n in r.notes ==> n.y < a.t.rows && n.column in BuildingColumns(o)
  }

  function ZuRnt4Body(f: Filter, o: Building): Assert -> Log {
    b => ZuRnt4Row(b, f, o)
  }

  lemma ZuRnt4RowFacts(b: Assert, f: Filter, o: Building)
    ensures ZuRnt4Body(f, o)(b).threw <==> ZuRnt4Throws(b, f, o)
    ensures !ZuRnt4Body(f, o)(b).threw ==> (ZuRnt4Body(f, o)(b).notes == [] <==> ZuRnt4Passes(b, f, o))
    ensures Within(ZuRnt4Body(f, o)(b), b.y, BuildingColumns(o))
  {
    var r := ZuRnt4Row(b, f, o);
  }

  lemma ZuRnt4Loop(a: Assert, f: Filter, o: Building)
    ensures ZuRnt4Outcome(EachRow(a, ZuRnt4Body(f, o), 0), a, f, o)
  {
    var body := ZuRnt4Body(f, o);
    forall y: nat | y < a.t.rows
      ensures body(a.(y := y)).threw <==> ZuRnt4Throws(a.(y := y), f, o)
      ensures Within(body(a.(y := y)), y, BuildingColumns(o))
    {
      ZuRnt4RowFacts(a.(y := y), f, o);
    }
    EachRowWithin(a, body, BuildingColumns(o));
    EachRowThrows(a, body, b => ZuRnt4Throws(b, f, o));
    forall y: nat | y < a.t.rows && !body(a.(y := y)).threw
      ensures body(a.(y := y)).notes == [] <==> ZuRnt4Passes(a.(y := y), f, o)
    {
      ZuRnt4RowFacts(a.(y := y), f, o);
    }
    EachRowPassesUnlessThrown(a, body, b => ZuRnt4Passes(b, f, o));
  }

  function ZuRnt4(a: Assert, s: Shared): (r: Log)
    ensures GetColumns(a.t, ZuRnt4Names).Threw? ==> r == Abort
    ensures GetColumns(a.t, ZuRnt4Names).Done? ==>
              var cs := GetColumns(a.t, ZuRnt4Names).value;
              ZuRnt4Outcome(r, a, FilterOf(cs), ZuRnt4Building(cs))
  {
    match GetColumns(a.t, ZuRnt4Names)
    case Threw => Abort
    case Done(cs) =>
      ZuRnt4Loop(a, FilterOf(cs), ZuRnt4Building(cs));
      EachRow(a, ZuRnt4Body(FilterOf(cs), ZuRnt4Building(cs)), 0)
  }

  // ---------------------------------------------------------------- Enk

  /** The columns the ENC rule reads besides the filter. */
  datatype Complex = Complex(
    priceZu: Column, unitZu: Column, unitOks: Column, areaOks: Column,
    oksLot: Column, oksZu: Column, onePrice: Column, separate: Column, cadastral: Column)

  function ComplexColumns(e: Complex): set<Column> {
    {e.priceZu, e.unitZu, e.unitOks, e.areaOks, e.oksLot, e.oksZu, e.onePrice, e.separate, e.cadastral}
  }

  const EnkNames: seq<string> := FilterNames + [
    "Цена продажи ЗУ", "Уд. цена на  1 кв.м ЗУ", "Уд. цена на 1 кв. м ОКС",
    "Площадь ОКС", "Цена продажи ОКС (лот)", "Цена продажи ОКС (ЗУ)",
    "Цена 1 кв.м ОКС", "Стоимость ОКС указана отдельно", "Кад. номер ОКС"]

  /** The message when the building's unit price is empty without excuse;
      a null cell shows as nothing. */
  function UnitPriceMessage(a: Assert, extra: Column, e: Complex): string {
    "Колонка '" + e.unitOks.name + "' пуста, а '" + extra.name + "' = '" + ShownAt(a, extra)
      + "' и '" + e.areaOks.name + "' = '" + ShownAt(a, e.areaOks) + "'"
  }

  /** The explanation when a building that is not a fictitious number has
      no area. */
  function AreaMessage(area: Column, actual: Option<string>): string {
    "Для НЕ 'Фиктивный КН' ожидалось, что '" + area.name + "' будет НЕ равна 0, но получено '" + Shown(actual) + "'"
  }

  /** The unit price of the building: an empty one is excused only for a
      fictitious number with zero or empty area; a filled one needs a
      non-zero area unless the number is fictitious. */
  function UnitPriceCheck(a: Assert, extra: Column, e: Complex): (r: Log)
    ensures Bounded(r, a, 1, {e.unitOks, e.areaOks})
    ensures IsEmpty(a, e.unitOks) ==>
              (r.notes == [] <==> IsEqual(a, extra, "Фиктивный КН") && IsZeroOrEmpty(a, e.areaOks))
    ensures IsEmpty(a, e.unitOks) && !(IsEqual(a, extra, "Фиктивный КН") && IsZeroOrEmpty(a, e.areaOks)) ==>
              r.notes == [Note(e.unitOks, a.y, Some(UnitPriceMessage(a, extra, e)))]
    ensures !IsEmpty(a, e.unitOks) ==>
              (r.notes == [] <==> IsEqual(a, extra, "Фиктивный КН") || IsNotZeroOrEmpty(a, e.areaOks))
    ensures !IsEmpty(a, e.unitOks) && !IsEqual(a, extra, "Фиктивный КН") && IsZeroOrEmpty(a, e.areaOks) ==>
              r.notes == [Note(e.areaOks, a.y, Some(AreaMessage(e.areaOks, Cell(a, e.areaOks))))]
  {
    if IsEmpty(a, e.unitOks) then
      if !(IsEqual(a, extra, "Фиктивный КН") && IsZeroOrEmpty(a, e.areaOks))
      then Explain(a, e.unitOks, UnitPriceMessage(a, extra, e))
      else Pass
    else if !IsEqual(a, extra, "Фиктивный КН") then
      NotZeroOrEmptyWith(a, e.areaOks, Some(c => AreaMessage(e.areaOks, c)))
    else Pass
  }

  /** The checks of a selected ENC row: a land price and land unit price,
      `UnitPriceCheck`, no separate building prices or mark, and a
      cadastral number. */
  function ComplexDetails(a: Assert, extra: Column, e: Complex): (r: Log)
    ensures Bounded(r, a, 8, ComplexColumns(e))
    ensures r.notes == [] <==>
              && IsNotEmpty(a, e.priceZu) && IsNotEmpty(a, e.unitZu)
              && UnitPriceCheck(a, extra, e).notes == []
              && IsEmpty(a, e.oksLot) && IsEmpty(a, e.oksZu) && IsEmpty(a, e.onePrice) && IsEmpty(a, e.separate)
              && IsNotEmpty(a, e.cadastral)
  {
    Then(ComplexLand(a, extra, e), ComplexBuilding(a, e))
  }

  /** The price part of a selected ENC row: a land price and land unit
      price, then `UnitPriceCheck`. */
  function ComplexLand(a: Assert, extra: Column, e: Complex): (r: Log)
    ensures Bounded(r, a, 3, {e.priceZu, e.unitZu, e.unitOks, e.areaOks})
    ensures r.notes == [] <==>
              IsNotEmpty(a, e.priceZu) && IsNotEmpty(a, e.unitZu) && UnitPriceCheck(a, extra, e).notes == []
  {
    Then(SweepText(a, true, [e.priceZu, e.unitZu]), UnitPriceCheck(a, extra, e))
  }

  /** The building part of a selected ENC row: no separate building
      prices or mark, and a cadastral number. */
  function ComplexBuilding(a: Assert, e: Complex): (r: Log)
    ensures Bounded(r, a, 5, {e.oksLot, e.oksZu, e.onePrice, e.separate, e.cadastral})
    ensures r.notes == [] <==>
              IsEmpty(a, e.oksLot) && IsEmpty(a, e.oksZu) && IsEmpty(a, e.onePrice) && IsEmpty(a, e.separate)
              && IsNotEmpty(a, e.cadastral)
  {
    Then(SweepText(a, false, [e.oksLot, e.oksZu, e.onePrice, e.separate]), NotEmpty(a, e.cadastral))
  }

  /** Enk for one row: rows outside the filter pass; a selected ENC row
      runs `ComplexDetails`. It never throws. */
  function EnkRow(a: Assert, f: Filter, e: Complex): (r: Log)
    ensures !Selected(a, {"ENC"}, f) ==> r == Pass
    ensures Bounded(r, a, 8, ComplexColumns(e))
    ensures Selected(a, {"ENC"}, f) ==>
              (r.notes == [] <==>
                 && IsNotEmpty(a, e.priceZu) && IsNotEmpty(a, e.unitZu)
                 && UnitPriceCheck(a, f.extra, e).notes == []
                 && IsEmpty(a, e.oksLot) && IsEmpty(a, e.oksZu) && IsEmpty(a, e.onePrice) && IsEmpty(a, e.separate)
                 && IsNotEmpty(a, e.cadastral))
  {
    if !Selected(a, {"ENC"}, f) then Pass else ComplexDetails(a, f.extra, e)
  }

  /** The columns of Enk besides the filter, from its resolved columns. */
  function EnkComplex(cs: seq<Column>): Complex
    requires |cs| >= 12
  {
    Complex(cs[3], cs[4], cs[5], cs[6], cs[7], cs[8], cs[9], cs[10], cs[11])
  }

  /** An Enk row passes: it is outside the filter, or the land prices are
      filled, the unit price check passes, the building prices are empty
      and the cadastral number is filled. */
  predicate EnkPasses(b: Assert, f: Filter, e: Complex) {
    || !Selected(b, {"ENC"}, f)
    || (&& IsNotEmpty(b, e.priceZu) && IsNotEmpty(b, e.unitZu)
        && UnitPriceCheck(b, f.extra, e).notes == []
        && IsEmpty(b, e.oksLot) && IsEmpty(b, e.oksZu) && IsEmpty(b, e.onePrice) && IsEmpty(b, e.separate)
        && IsNotEmpty(b, e.cadastral))
  }

  /** What Enk does over the whole table: it never throws, records nothing
      exactly when every visited row passes, and records only in visited
      rows at its own columns. */
  predicate EnkOutcome(r: Log, a: Assert, f: Filter, e: Complex) {
    && !r.threw
    && (r.notes == [] <==> forall y: nat :: y < a.t.rows ==> EnkPasses(a.(y := y), f, e))
    && forall n :: n in r.notes ==> n.y < a.t.rows && n.column in ComplexColumns(e)
  }

  function EnkBody(f: Filter, e: Complex): Assert -> Log {
    b => EnkRow(b, f, e)
  }

  lemma EnkRowFacts(b: Assert, f: Filter, e: Complex)
    ensures !EnkBody(f, e)(b).threw
    ensures EnkBody(f, e)(b).notes == [] <==> EnkPasses(b, f, e)
    ensures Within(EnkBody(f, e)(b), b.y, ComplexColumns(e))
  {
    var r := EnkRow(b, f, e);
  }

  lemma EnkLoop(a: Assert, f: Filter, e: Complex)
    ensures EnkOutcome(EachRow(a, EnkBody(f, e), 0), a, f, e)
  {
    var body := EnkBody(f, e);
    forall y: nat | y < a.t.rows
      ensures !body(a.(y := y)).threw
      ensures body(a.(y := y)).notes == [] <==> EnkPasses(a.(y := y), f, e)
      ensures Within(body(a.(y := y)), y, ComplexColumns(e))
    {
      EnkRowFacts(a.(y := y), f, e);
    }
    EachRowWithin(a, body, ComplexColumns(e));
    EachRowPasses(a, body, b => EnkPasses(b, f, e));
  }

  function Enk(a: Assert, s: Shared): (r: Log)
    ensures GetColumns(a.t, EnkNames).Threw? ==> r == Abort
    ensures GetColumns(a.t, EnkNames).Done? ==>
              var cs := GetColumns(a.t, EnkNames).value;
              EnkOutcome(r, a, FilterOf(cs), EnkComplex(cs))
  {
    match GetColumns(a.t, EnkNames)
    case Threw => Abort
    case Done(cs) =>
      EnkLoop(a, FilterOf(cs), EnkComplex(cs));
      EachRow(a, EnkBody(FilterOf(cs), EnkComplex(cs)), 0)
  }

  // ---------------------------------------------------------------- Oks

  /** The columns the OKS rule reads besides the filter. */
  datatype Sale = Sale(
    priceZu: Column, unitZu: Column, priceLot: Column, oksLot: Column, oksZu: Column,
    unitOks: Column, areaLot: Column, areaOks: Column, fact: Column,
    fract: Column, areaFract: Column, separate: Column)

  function SaleColumns(o: Sale): set<Column> {
    {o.priceZu, o.unitZu, o.priceLot, o.oksLot, o.oksZu, o.unitOks, o.areaLot, o.areaOks,
     o.fact, o.fract, o.areaFract, o.separate}
  }

  const OksNames: seq<string> := FilterNames + [
    "Цена продажи ЗУ", "Уд. цена на  1 кв.м ЗУ", "Цена продажи ЛОТ",
    "Цена продажи ОКС (лот)", "Цена продажи ОКС (ЗУ)", "Уд. цена на 1 кв. м ОКС",
    "Площадь лота", "Площадь ОКС", "Факт. использование ОКС",
    "Доля ЗУ", "Площадь доли ЗУ", "Стоимость ОКС указана отдельно"]

  const PricesDifferMessage: string := "Цены продажи лота, ОКС (лот) и ОКС (ЗУ) не совпадают"

  /** Reads the three sale prices as numbers, in order, and asks whether
      they are all equal; a read throws on text that is not a number. */
  function SamePrices(a: Assert, x: Column, y: Column, z: Column): (r: Try<bool>)
    ensures r.Threw? <==> FloatAt(a, x).Threw? || FloatAt(a, y).Threw? || FloatAt(a, z).Threw?
    ensures r.Done? ==> (r.value <==> FloatAt(a, x).value == FloatAt(a, y).value == FloatAt(a, z).value)
  {
    match FloatAt(a, x)
    case Threw => Threw
    case Done(p) =>
      match FloatAt(a, y)
      case Threw => Threw
      case Done(q) =>
        match FloatAt(a, z)
        case Threw => Threw
        case Done(w) => Done(p == q && q == w)
  }

  /** What the OKS rule asserts after comparing the prices. */
  function SaleDetails(a: Assert, o: Sale): (r: Log)
    ensures Bounded(r, a, 10, SaleColumns(o))
    ensures r.notes == [] <==> SaleFine(a, o)
  {
    Then(PriceDetails(a, o), AreaDetails(a, o))
  }

  /** An OKS sale is complete: the lot price, both building prices, the
      building's unit price, both areas, the actual use and the share area
      are non-zero, there is no land share and no separate-price mark. */
  predicate SaleFine(b: Assert, o: Sale) {
    && IsNotZeroOrEmpty(b, o.priceLot) && IsNotZeroOrEmpty(b, o.oksLot) && IsNotZeroOrEmpty(b, o.oksZu)
    && IsNotZeroOrEmpty(b, o.unitOks) && IsNotZeroOrEmpty(b, o.areaLot) && IsNotZeroOrEmpty(b, o.areaOks)
    && IsNotZeroOrEmpty(b, o.fact) && IsZeroOrEmpty(b, o.fract) && IsNotZeroOrEmpty(b, o.areaFract)
    && IsEmpty(b, o.separate)
  }

  /** The price columns of an OKS sale: lot price, both building prices
      and the building's unit price filled. */
  function PriceDetails(a: Assert, o: Sale): (r: Log)
    ensures Bounded(r, a, 4, {o.priceLot, o.oksLot, o.oksZu, o.unitOks})
    ensures r.notes == [] <==>
              IsNotZeroOrEmpty(a, o.priceLot) && IsNotZeroOrEmpty(a, o.oksLot) && IsNotZeroOrEmpty(a, o.oksZu)
              && IsNotZeroOrEmpty(a, o.unitOks)
  {
    Sweep(a, true, [o.priceLot, o.oksLot, o.oksZu, o.unitOks])
  }

  /** The area columns of an OKS sale: lot area, building area and actual
      use filled, then `ShareDetails`. */
  function AreaDetails(a: Assert, o: Sale): (r: Log)
    ensures Bounded(r, a, 6, {o.areaLot, o.areaOks, o.fact, o.fract, o.areaFract, o.separate})
    ensures r.notes == [] <==>
              && IsNotZeroOrEmpty(a, o.areaLot) && IsNotZeroOrEmpty(a, o.areaOks) && IsNotZeroOrEmpty(a, o.fact)
              && IsZeroOrEmpty(a, o.fract) && IsNotZeroOrEmpty(a, o.areaFract) && IsEmpty(a, o.separate)
  {
    Then(Sweep(a, true, [o.areaLot, o.areaOks, o.fact]), ShareDetails(a, o))
  }

  /** The share and mark columns of an OKS sale: no land share, a share
      area, and no separate-price mark. */
  function ShareDetails(a: Assert, o: Sale): (r: Log)
    ensures Bounded(r, a, 3, {o.fract, o.areaFract, o.separate})
    ensures r.notes == [] <==> IsZeroOrEmpty(a, o.fract) && IsNotZeroOrEmpty(a, o.areaFract) && IsEmpty(a, o.separate)
  {
    Then(ZeroOrEmpty(a, o.fract), Then(NotZeroOrEmpty(a, o.areaFract), Empty(a, o.separate)))
  }

  /** Oks for one row: a selected OKS row has no land prices; the lot
      price and the two building prices must be equal numbers (a read
      that fails throws), a difference being reported on the lot price;
      then `SaleDetails`. */
  function OksRow(a: Assert, f: Filter, o: Sale): (r: Log)
    ensures !Selected(a, {"OKS"}, f) ==> r == Pass
    ensures r.threw <==> Selected(a, {"OKS"}, f) && SamePrices(a, o.priceLot, o.oksLot, o.oksZu).Threw?
    ensures Confined(r, a, 13, SaleColumns(o))
    ensures Selected(a, {"OKS"}, f) && SamePrices(a, o.priceLot, o.oksLot, o.oksZu) == Done(false) ==>
              Note(o.priceLot, a.y, Some(PricesDifferMessage)) in r.notes
    ensures Selected(a, {"OKS"}, f) && SamePrices(a, o.priceLot, o.oksLot, o.oksZu) == Done(true) ==>
              (r.notes == [] <==> IsZeroOrEmpty(a, o.priceZu) && IsZeroOrEmpty(a, o.unitZu) && SaleDetails(a, o).notes == [])
    ensures !r.threw ==> (r.notes == [] <==> OksPasses(a, f, o))
  {
    if !Selected(a, {"OKS"}, f) then Pass
    else
      Then(Sweep(a, false, [o.priceZu, o.unitZu]),
        match SamePrices(a, o.priceLot, o.oksLot, o.oksZu)
        case Threw => Abort
        case Done(same) => PricedSale(a, o, same))
  }

  /** A selected OKS row once its prices are read: a difference between
      them is reported on the lot price, then `SaleDetails`. */
  function PricedSale(a: Assert, o: Sale, same: bool): (r: Log)
    ensures Bounded(r, a, 11, SaleColumns(o))
    ensures !same ==> |r.notes| > 0 && r.notes[0] == Note(o.priceLot, a.y, Some(PricesDifferMessage))
    ensures r.notes == [] <==> same && SaleDetails(a, o).notes == []
  {
    Then(if same then Pass else Explain(a, o.priceLot, PricesDifferMessage), SaleDetails(a, o))
  }

  /** The columns of Oks besides the filter, from its resolved columns. */
  function OksSale(cs: seq<Column>): Sale
    requires |cs| >= 15
  {
    Sale(cs[3], cs[4], cs[5], cs[6], cs[7], cs[8], cs[9], cs[10], cs[11], cs[12], cs[13], cs[14])
  }

  /** An Oks row passes: it is outside the filter, or it has no land
      prices, its three sale prices read as equal numbers, and its sale is
      complete. */
  predicate OksPasses(b: Assert, f: Filter, o: Sale) {
    || !Selected(b, {"OKS"}, f)
    || (&& IsZeroOrEmpty(b, o.priceZu) && IsZeroOrEmpty(b, o.unitZu)
        && SamePrices(b, o.priceLot, o.oksLot, o.oksZu) == Done(true) && SaleFine(b, o))
  }

  /** An Oks row throws: it is selected and one of the three sale prices is
      not a number. */
  predicate OksThrows(b: Assert, f: Filter, o: Sale) {
    Selected(b, {"OKS"}, f) && SamePrices(b, o.priceLot, o.oksLot, o.oksZu).Threw?
  }

  /** What Oks does over the whole table: it throws exactly when a visited
      row throws, otherwise records nothing exactly when every row passes,
      and records only in visited rows at its own columns. */
  predicate OksOutcome(r: Log, a: Assert, f: Filter, o: Sale) {
    && (r.threw <==> exists y: nat :: y < a.t.rows && OksThrows(a.(y := y), f, o))
    && (!r.threw ==> (r.notes == [] <==> forall y: nat :: y < a.t.rows ==> OksPasses(a.(y := y), f, o)))
    && forall n :: n in r.notes ==> n.y < a.t.rows && n.column in SaleColumns(o)
  }

  function OksBody(f: Filter, o: Sale): Assert -> Log {
    b => OksRow(b, f, o)
  }

  lemma OksRowFacts(b: Assert, f: Filter, o: Sale)
    ensures OksBody(f, o)(b).threw <==> OksThrows(b, f, o)
    ensures !OksBody(f, o)(b).threw ==> (OksBody(f, o)(b).notes == [] <==> OksPasses(b, f, o))
    ensures Within(OksBody(f, o)(b), b.y, SaleColumns(o))
  {
    var r := OksRow(b, f, o);
  }

  lemma OksLoop(a: Assert, f: Filter, o: Sale)
    ensures OksOutcome(EachRow(a, OksBody(f, o), 0), a, f, o)
  {
    var body := OksBody(f, o);
    forall y: nat | y < a.t.rows
      ensures body(a.(y := y)).threw <==> OksThrows(a.(y := y), f, o)
      ensures Within(body(a.(y := y)), y, SaleColumns(o))
    {
      OksRowFacts(a.(y := y), f, o);
    }
    EachRowWithin(a, body, SaleColumns(o));
    EachRowThrows(a, body, b => OksThrows(b, f, o));
    forall y: nat | y < a.t.rows && !body(a.(y := y)).threw
      ensures body(a.(y := y)).notes == [] <==> OksPasses(a.(y := y), f, o)
    {
      OksRowFacts(a.(y := y), f, o);
    }
    EachRowPassesUnlessThrown(a, body, b => OksPasses(b, f, o));
  }

  function Oks(a: Assert, s: Shared): (r: Log)
    ensures GetColumns(a.t, OksNames).Threw? ==> r == Abort
    ensures GetColumns(a.t, OksNames).Done? ==>
              var cs := GetColumns(a.t, OksNames).value;
              OksOutcome(r, a, FilterOf(cs), OksSale(cs))
  {
    match GetColumns(a.t, OksNames)
    case Threw => Abort
    case Done(cs) =>
      OksLoop(a, FilterOf(cs), OksSale(cs));
      EachRow(a, OksBody(FilterOf(cs), OksSale(cs)), 0)
  }

  // ------------------------------------------------ rows outside the filter

  /** Each lot rule records nothing on a table none of whose rows passes
      its filter. */
  lemma ZuRntOutsideFilter(a: Assert, s: Shared)
    requires GetColumns(a.t, ZuRntNames).Done?
    requires forall y: nat :: y < a.t.rows ==> !Selected(a.(y := y), LandKinds, FilterOf(GetColumns(a.t, ZuRntNames).value))
    ensures ZuRnt(a, s) == Pass
  {
    var cs := GetColumns(a.t, ZuRntNames).value;
    UnselectedRowsPass(a, LandKinds, FilterOf(cs), ZuRntBody(FilterOf(cs), cs[3..9]));
  }

  lemma ZuRnt2OutsideFilter(a: Assert, s: Shared)
    requires GetColumns(a.t, ZuRnt2Names).Done?
    requires forall y: nat :: y < a.t.rows ==> !Selected(a.(y := y), LandKinds, FilterOf(GetColumns(a.t, ZuRnt2Names).value))
    ensures ZuRnt2(a, s) == Pass
  {
    var cs := GetColumns(a.t, ZuRnt2Names).value;
    UnselectedRowsPass(a, LandKinds, FilterOf(cs), ZuRnt2Body(FilterOf(cs), ZuRnt2Building(cs)));
  }

  lemma ZuRnt3OutsideFilter(a: Assert, s: Shared)
    requires GetColumns(a.t, ZuRnt3Names).Done?
    requires forall y: nat :: y < a.t.rows ==> !Selected(a.(y := y), LandKinds, FilterOf(GetColumns(a.t, ZuRnt3Names).value))
    ensures ZuRnt3(a, s) == Pass
  {
    var cs := GetColumns(a.t, ZuRnt3Names).value;
    UnselectedRowsPass(a, LandKinds, FilterOf(cs), ZuRnt3Body(FilterOf(cs), ZuRnt3Building(cs)));
  }

  lemma ZuRnt4OutsideFilter(a: Assert, s: Shared)
    requires GetColumns(a.t, ZuRnt4Names).Done?
    requires forall y: nat :: y < a.t.rows ==> !Selected(a.(y := y), LandKinds, FilterOf(GetColumns(a.t, ZuRnt4Names).value))
    ensures ZuRnt4(a, s) == Pass
  {
    var cs := GetColumns(a.t, ZuRnt4Names).value;
    UnselectedRowsPass(a, LandKinds, FilterOf(cs), ZuRnt4Body(FilterOf(cs), ZuRnt4Building(cs)));
  }

  lemma EnkOutsideFilter(a: Assert, s: Shared)
    requires GetColumns(a.t, EnkNames).Done?
    requires forall y: nat :: y < a.t.rows ==> !Selected(a.(y := y), {"ENC"}, FilterOf(GetColumns(a.t, EnkNames).value))
    ensures Enk(a, s) == Pass
  {
    var cs := GetColumns(a.t, EnkNames).value;
    UnselectedRowsPass(a, {"ENC"}, FilterOf(cs), EnkBody(FilterOf(cs), EnkComplex(cs)));
  }

  lemma OksOutsideFilter(a: Assert, s: Shared)
    requires GetColumns(a.t, OksNames).Done?
    requires forall y: nat :: y < a.t.rows ==> !Selected(a.(y := y), {"OKS"}, FilterOf(GetColumns(a.t, OksNames).value))
    ensures Oks(a, s) == Pass
  {
    var cs := GetColumns(a.t, OksNames).value;
    UnselectedRowsPass(a, {"OKS"}, FilterOf(cs), OksBody(FilterOf(cs), OksSale(cs)));
  }
}
