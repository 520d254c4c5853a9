/** The rules of the category "Общие" (TestContext.cs): one function per
    rule, and for each a row function holding the body of its row loop.
    Rule functions first resolve their own columns, then run the row loop. */
module GeneralChecks {
  import opened Basics
  import opened Text
  import opened MetaTable
  import opened Results
  import opened Asserts
  import opened RuleKit

  // ------------------------------------------------------------ Check1

  const CodeNames: seq<string> := ["Код лота", "Лот", "Код ОН", "Уник №"]

  /** The inner loop of Check1: every code column must contain the year
      text (ordinal search); the first null code cell throws. Failures
      carry no explanation. */
  function YearInCodes(a: Assert, codes: seq<Column>, year: string): (r: Log)
    ensures r.threw <==> exists i :: 0 <= i < |codes| && Cell(a, codes[i]).None?
    ensures |r.notes| <= |codes|
    ensures forall n :: n in r.notes ==> n.y == a.y && n.explanation.None? && n.column in codes
    ensures !r.threw ==> forall i :: 0 <= i < |codes| ==>
              (Note(codes[i], a.y, None) in r.notes <==> !Contains(Cell(a, codes[i]).value, year))
  {
    if |codes| == 0 then Pass
    else
      var head := ThatHere(a, codes[0], c => HasTextTest(year, c), None);
      var rest := YearInCodes(a, codes[1..], year);
      assert forall i :: 1 <= i < |codes| ==> codes[i] == codes[1..][i - 1];
      Then(head, rest)
  }

  /** Check1 for one row: a null year throws; a blank year records the one
      fixed problem at the year column and skips the codes; otherwise each
      code column must contain the year. */
  function Check1Row(a: Assert, s: Shared, codes: seq<Column>): (r: Log)
    ensures Cell(a, s.year).None? ==> r == Abort
    ensures Cell(a, s.year).Some? && AllWhiteSpace(Cell(a, s.year).value) ==>
              r == Log([Note(s.year, a.y, Some("'Год' не заполнен"))], false)
    ensures Cell(a, s.year).Some? && !AllWhiteSpace(Cell(a, s.year).value) ==>
              r == YearInCodes(a, codes, Cell(a, s.year).value)
  {
    match Cell(a, s.year)
    case None => Abort
    case Some(year) =>
      if AllWhiteSpace(year) then MarkOnce(s.year, a.y, "'Год' не заполнен")
      else YearInCodes(a, codes, year)
  }

  /** A Check1 row throws: its year is null, or it is filled and some code
      cell is null. */
  predicate Check1Throws(a: Assert, s: Shared, codes: seq<Column>) {
    || Cell(a, s.year).None?
    || (!AllWhiteSpace(Cell(a, s.year).value) && exists i :: 0 <= i < |codes| && Cell(a, codes[i]).None?)
  }

  /** A Check1 row passes: its year is filled and every code contains it. */
  predicate Check1Passes(a: Assert, s: Shared, codes: seq<Column>) {
    && Cell(a, s.year).Some? && !AllWhiteSpace(Cell(a, s.year).value)
    && forall i :: 0 <= i < |codes| ==> Cell(a, codes[i]).Some? && Contains(Cell(a, codes[i]).value, Cell(a, s.year).value)
  }

  /** What Check1 does over the whole table once its code columns are
      found: it throws exactly when a visited row throws; when it returns
      normally it has recorded nothing exactly when every row passes; and
      it records only in visited rows, at the year or a code column. */
  predicate Check1Outcome(r: Log, a: Assert, s: Shared, codes: seq<Column>) {
    && (r.threw <==> exists y: nat :: y < a.t.rows && Check1Throws(a.(y := y), s, codes))
    && (!r.threw ==> (r.notes == [] <==> forall y: nat :: y < a.t.rows ==> Check1Passes(a.(y := y), s, codes)))
    && forall n :: n in r.notes ==> n.y < a.t.rows && (n.column == s.year || n.column in codes)
  }

  function Check1Body(s: Shared, codes: seq<Column>): Assert -> Log {
    b => Check1Row(b, s, codes)
  }

  lemma Check1Loop(a: Assert, s: Shared, codes: seq<Column>)
    ensures Check1Outcome(EachRow(a, Check1Body(s, codes), 0), a, s, codes)
  {
    var body := Check1Body(s, codes);
    forall y: nat | y < a.t.rows
      ensures body(a.(y := y)).threw <==> Check1Throws(a.(y := y), s, codes)
      ensures !body(a.(y := y)).threw ==> (body(a.(y := y)).notes == [] <==> Check1Passes(a.(y := y), s, codes))
      ensures forall n :: n in body(a.(y := y)).notes ==> n.y == y && (n.column == s.year || n.column in codes)
    {
      var b := a.(y := y);
      var r := Check1Row(b, s, codes);
      if Cell(b, s.year).Some? && !AllWhiteSpace(Cell(b, s.year).value) && !r.threw {
        if r.notes != [] {
          var n := r.notes[0];
          assert n in r.notes;
          var i :| 0 <= i < |codes| && codes[i] == n.column;
          assert Note(codes[i], y, None) in r.notes;
        }
      }
    }
    EachRowSpec(a, body, 0);
  }

  function Check1(a: Assert, s: Shared): (r: Log)
    ensures GetColumns(a.t, CodeNames).Threw? ==> r == Abort
    ensures GetColumns(a.t, CodeNames).Done? ==> Check1Outcome(r, a, s, GetColumns(a.t, CodeNames).value)
  {
    match GetColumns(a.t, CodeNames)
    case Threw => Abort
    case Done(codes) => Check1Loop(a, s, codes); EachRow(a, Check1Body(s, codes), 0)
  }

  // ------------------------------------------------------------ Check2

  /** The cell is one of the known trading websites. */
  predicate OnWebsite(a: Assert, column: Column) {
    Cell(a, column).Some? && Cell(a, column).value in Websites
  }

  /** An auction row is in order: collected by the service "ГБУ КО" from a
      known website, with non-zero document and screenshot counts. */
  predicate AuctionFine(a: Assert, s: Shared) {
    && IsEqual(a, s.src2, "ГБУ КО")
    && OnWebsite(a, s.src3)
    && IsNotZeroOrEmpty(a, s.doc)
    && IsNotZeroOrEmpty(a, s.screens)
  }

  /** A market row is in order: registered by Rosreestr, with no third
      source, as a deal. */
  predicate MarketFine(a: Assert, s: Shared) {
    && IsEqual(a, s.src2, "Росреестр")
    && IsEmpty(a, s.src3)
    && IsEqual(a, s.deal, "Сделка")
  }

  /** Check2 for an auction source: the second source "ГБУ КО", a known
      website as third source, and non-zero document and screenshot counts. */
  function Check2Auction(a: Assert, s: Shared): (r: Log)
    ensures Bounded(r, a, 4, {s.src2, s.src3, s.doc, s.screens})
    ensures r.notes == [] <==> AuctionFine(a, s)
  {
    var logs := [
      EqualAt(a, s.src2, a.y, "ГБУ КО"),
      That(a, s.src3, a.y, c => InSetTest(Websites, c), None),
      NotZeroOrEmpty(a, s.doc),
      NotZeroOrEmpty(a, s.screens)];
    ChainBounded(a, logs, {s.src2, s.src3, s.doc, s.screens});
    ChainQuiet(logs);
    Chain(logs)
  }

  /** Check2 for a market source: the second source "Росреестр", no third
      source, and the deal kind "Сделка". */
  function Check2Market(a: Assert, s: Shared): (r: Log)
    ensures Bounded(r, a, 3, {s.src2, s.src3, s.deal})
    ensures r.notes == [] <==> MarketFine(a, s)
  {
    var logs := [
      EqualAt(a, s.src2, a.y, "Росреестр"),
      EmptyAt(a, s.src3, a.y),
      EqualAt(a, s.deal, a.y, "Сделка")];
    ChainBounded(a, logs, {s.src2, s.src3, s.deal});
    ChainQuiet(logs);
    Chain(logs)
  }

  /** A Check2 row passes: its "other property" cell is empty, or its first
      source is filled and, for an auction or market source, the row is in
      order for that source. */
  predicate Check2Passes(a: Assert, s: Shared, other: Column) {
    || !IsNotEmpty(a, other)
    || (&& Cell(a, s.src1).Some?
        && ("Торги " <= Cell(a, s.src1).value ==> AuctionFine(a, s))
        && (Cell(a, s.src1).value == "Рынок" ==> MarketFine(a, s)))
  }

  /** Check2 for one row. Rows with an empty "other property" cell pass;
      otherwise a null first source throws; an auction source ("Торги ...")
      checks the second and third sources, documents and screenshots; a
      market source checks the second and third sources and the deal kind;
      any other source passes. */
  function Check2Row(a: Assert, s: Shared, other: Column): (r: Log)
    ensures !IsNotEmpty(a, other) ==> r == Pass
    ensures r.threw <==> IsNotEmpty(a, other) && Cell(a, s.src1).None?
    ensures r.threw ==> r == Abort
    ensures !r.threw ==> Bounded(r, a, 4, {s.src2, s.src3, s.doc, s.screens, s.deal})
    ensures !r.threw ==> (r.notes == [] <==> Check2Passes(a, s, other))
    ensures IsNotEmpty(a, other) && Cell(a, s.src1) == Some("Рынок") ==> Bounded(r, a, 3, {s.src2, s.src3, s.deal})
    ensures Cell(a, s.src1).Some? && !("Торги " <= Cell(a, s.src1).value) && Cell(a, s.src1).value != "Рынок" ==> r == Pass
  {
    if !IsNotEmpty(a, other) then Pass
    else match Cell(a, s.src1)
      case None => Abort
      case Some(v) =>
        if "Торги " <= v then Check2Auction(a, s)
        else if v == "Рынок" then Check2Market(a, s)
        else Pass
  }

  const Check2Names: seq<string> := ["Прочее имущество, руб."]

  /** A Check2 row throws: its "other property" cell is filled and its
      first source is null. */
  predicate Check2Throws(b: Assert, s: Shared, other: Column) {
    IsNotEmpty(b, other) && Cell(b, s.src1).None?
  }

  /** What Check2 does over the whole table: it throws exactly when a
      visited row throws; when it returns normally it has recorded nothing
      exactly when every row passes; and it records only in visited rows
      and in the columns its branches check. */
  predicate Check2Outcome(r: Log, a: Assert, s: Shared, other: Column) {
    && (r.threw <==> exists y: nat :: y < a.t.rows && Check2Throws(a.(y := y), s, other))
    && (!r.threw ==> (r.notes == [] <==> forall y: nat :: y < a.t.rows ==> Check2Passes(a.(y := y), s, other)))
    && forall n :: n in r.notes ==> n.y < a.t.rows && n.column in {s.src2, s.src3, s.doc, s.screens, s.deal}
  }

  function Check2Body(s: Shared, other: Column): Assert -> Log {
    b => Check2Row(b, s, other)
  }

  lemma Check2RowFacts(b: Assert, s: Shared, other: Column)
    ensures Check2Body(s, other)(b).threw <==> Check2Throws(b, s, other)
    ensures !Check2Body(s, other)(b).threw ==> (Check2Body(s, other)(b).notes == [] <==> Check2Passes(b, s, other))
    ensures Within(Check2Body(s, other)(b), b.y, {s.src2, s.src3, s.doc, s.screens, s.deal})
  {
    var r := Check2Row(b, s, other);
    assert r.threw ==> r.notes == [];
  }

  lemma Check2LoopThrows(a: Assert, s: Shared, other: Column)
    ensures var r := EachRow(a, Check2Body(s, other), 0);
      && (r.threw <==> exists y: nat :: y < a.t.rows && Check2Throws(a.(y := y), s, other))
      && forall n :: n in r.notes ==> n.y < a.t.rows && n.column in {s.src2, s.src3, s.doc, s.screens, s.deal}
  {
    var body := Check2Body(s, other);
    var columns := {s.src2, s.src3, s.doc, s.screens, s.deal};
    forall y: nat | y < a.t.rows
      ensures body(a.(y := y)).threw <==> Check2Throws(a.(y := y), s, other)
      ensures Within(body(a.(y := y)), y, columns)
    {
      Check2RowFacts(a.(y := y), s, other);
    }
    EachRowWithin(a, body, columns);
    EachRowThrows(a, body, b => Check2Throws(b, s, other));
  }

  lemma Check2Loop(a: Assert, s: Shared, other: Column)
    ensures Check2Outcome(EachRow(a, Check2Body(s, other), 0), a, s, other)
  {
    var body := Check2Body(s, other);
    forall y: nat | y < a.t.rows && !body(a.(y := y)).threw
      ensures body(a.(y := y)).notes == [] <==> Check2Passes(a.(y := y), s, other)
    {
      Check2RowFacts(a.(y := y), s, other);
    }
    EachRowPassesUnlessThrown(a, body, b => Check2Passes(b, s, other));
    Check2LoopThrows(a, s, other);
  }

  function Check2(a: Assert, s: Shared): (r: Log)
    ensures GetColumns(a.t, Check2Names).Threw? ==> r == Abort
    ensures GetColumns(a.t, Check2Names).Done? ==> Check2Outcome(r, a, s, GetColumns(a.t, Check2Names).value[0])
  {
    match GetColumns(a.t, Check2Names)
    case Threw => Abort
    case Done(cs) => Check2Loop(a, s, cs[0]); EachRow(a, Check2Body(s, cs[0]), 0)
  }

  // ------------------------------------------------------ Check3, Check4

  /** The common row body of Check3 and Check4: when `gate` is filled, the
      `partner` value must be non-zero and the first source an auction,
      and then the row is checked as an auction row of Check2 (the second
      source "ГБУ КО", a known website as third source, non-zero document
      and screenshot counts). A null first source throws after the partner
      check. */
  function AuctionRow(a: Assert, s: Shared, gate: Column, partner: Column): (r: Log)
    ensures !IsNotEmpty(a, gate) ==> r == Pass
    ensures r.threw <==> IsNotEmpty(a, gate) && Cell(a, s.src1).None?
    ensures Confined(r, a, 6, {partner, s.src1, s.src2, s.src3, s.doc, s.screens})
    ensures !r.threw ==> (r.notes == [] <==> AuctionRowPasses(a, s, gate, partner))
  {
    if !IsNotEmpty(a, gate) then Pass
    else
      var columns := {partner, s.src1, s.src2, s.src3, s.doc, s.screens};
      var first := NotZeroOrEmpty(a, partner);
      var source := ThatHere(a, s.src1, c => StartsWithTest("Торги ", c), None);
      var rest := Check2Auction(a, s);
      ThenConfined(a, source, 1, rest, 4, columns);
      ThenConfined(a, first, 1, Then(source, rest), 5, columns);
      Then(first, Then(source, rest))
  }

  /** A row of Check3 or Check4 passes: its `gate` is empty, or its
      `partner` is non-zero and it is an auction row in order. */
  predicate AuctionRowPasses(a: Assert, s: Shared, gate: Column, partner: Column) {
    || !IsNotEmpty(a, gate)
    || (&& IsNotZeroOrEmpty(a, partner)
        && Cell(a, s.src1).Some? && "Торги " <= Cell(a, s.src1).value
        && AuctionFine(a, s))
  }

  /** The row body of Check3 and Check4 as a value. */
  function AuctionBody(s: Shared, gate: Column, partner: Column): Assert -> Log {
    b => AuctionRow(b, s, gate, partner)
  }

  /** What Check3 and Check4 do over the whole table: they throw exactly
      when a row with a filled `gate` has a null first source; when they
      return normally they have recorded nothing exactly when every row
      passes; and they record only in visited rows and in the columns the
      row body asserts on. */
  predicate AuctionRowThrows(b: Assert, s: Shared, gate: Column) {
    IsNotEmpty(b, gate) && Cell(b, s.src1).None?
  }

  predicate AuctionOutcome(r: Log, a: Assert, s: Shared, gate: Column, partner: Column) {
    && (r.threw <==> exists y: nat :: y < a.t.rows && AuctionRowThrows(a.(y := y), s, gate))
    && (!r.threw ==> (r.notes == [] <==> forall y: nat :: y < a.t.rows ==> AuctionRowPasses(a.(y := y), s, gate, partner)))
    && forall n :: n in r.notes ==> n.y < a.t.rows && n.column in {partner, s.src1, s.src2, s.src3, s.doc, s.screens}
  }

  lemma AuctionRowFacts(b: Assert, s: Shared, gate: Column, partner: Column)
    ensures Within(AuctionBody(s, gate, partner)(b), b.y, {partner, s.src1, s.src2, s.src3, s.doc, s.screens})
    ensures AuctionBody(s, gate, partner)(b).threw <==> AuctionRowThrows(b, s, gate)
    ensures !AuctionBody(s, gate, partner)(b).threw ==>
              (AuctionBody(s, gate, partner)(b).notes == [] <==> AuctionRowPasses(b, s, gate, partner))
  {
    var r := AuctionRow(b, s, gate, partner);
    assert Confined(r, b, 6, {partner, s.src1, s.src2, s.src3, s.doc, s.screens});
  }

  lemma AuctionLoopThrows(a: Assert, s: Shared, gate: Column, partner: Column)
    ensures var r := EachRow(a, AuctionBody(s, gate, partner), 0);
      && (r.threw <==> exists y: nat :: y < a.t.rows && AuctionRowThrows(a.(y := y), s, gate))
      && forall n :: n in r.notes ==> n.y < a.t.rows && n.column in {partner, s.src1, s.src2, s.src3, s.doc, s.screens}
  {
    var body := AuctionBody(s, gate, partner);
    var columns := {partner, s.src1, s.src2, s.src3, s.doc, s.screens};
    forall y: nat | y < a.t.rows
      ensures Within(body(a.(y := y)), y, columns)
      ensures body(a.(y := y)).threw <==> AuctionRowThrows(a.(y := y), s, gate)
    {
      AuctionRowFacts(a.(y := y), s, gate, partner);
    }
    EachRowWithin(a, body, columns);
    EachRowThrows(a, body, b => AuctionRowThrows(b, s, gate));
  }

  lemma AuctionLoop(a: Assert, s: Shared, gate: Column, partner: Column)
    ensures AuctionOutcome(EachRow(a, AuctionBody(s, gate, partner), 0), a, s, gate, partner)
  {
    var body := AuctionBody(s, gate, partner);
    forall y: nat | y < a.t.rows && !body(a.(y := y)).threw
      ensures body(a.(y := y)).notes == [] <==> AuctionRowPasses(a.(y := y), s, gate, partner)
    {
      AuctionRowFacts(a.(y := y), s, gate, partner);
    }
    EachRowPassesUnlessThrown(a, body, b => AuctionRowPasses(b, s, gate, partner));
    AuctionLoopThrows(a, s, gate, partner);
  }

  /** Check3: rows with a starting lot price. */
  function Check3(a: Assert, s: Shared): (r: Log)
    ensures AuctionOutcome(r, a, s, s.price, s.coef)
  {
    AuctionLoop(a, s, s.price, s.coef);
    EachRow(a, AuctionBody(s, s.price, s.coef), 0)
  }

  /** Check4: rows with an excess coefficient; the row body of Check3 with
      the two columns swapped. */
  function Check4(a: Assert, s: Shared): (r: Log)
    ensures AuctionOutcome(r, a, s, s.coef, s.price)
  {
    AuctionLoop(a, s, s.coef, s.price);
    EachRow(a, AuctionBody(s, s.coef, s.price), 0)
  }

  // ------------------------------------------------------------ Check5

  const Check5Names: seq<string> := ["Факт. использование ЗУ"]

  function Check5(a: Assert, s: Shared): (r: Log)
    ensures GetColumns(a.t, Check5Names).Threw? ==> r == Abort
  {
    match GetColumns(a.t, Check5Names)
    case Threw => Abort
    case Done(cs) => var fact := cs[0]; EachRow(a, b => NotEmpty(b, fact), 0)
  }

  /** Reference definition: one problem per row from `from` on whose cell
      in `fact` is empty, at that row, in row order. */
  function BlankRowNotes(a: Assert, fact: Column, from: nat): seq<Note>
    decreases a.t.rows - from
  {
    if from < a.t.rows then
      (if IsNullOrWhiteSpace(At(a.t, fact, from)) then [Note(fact, from, Some(NotEmptyMessage(At(a.t, fact, from))))] else [])
      + BlankRowNotes(a, fact, from + 1)
    else []
  }

  lemma {:induction false} NotEmptyRows(a: Assert, fact: Column, from: nat)
    ensures EachRow(a, b => NotEmpty(b, fact), from) == Log(BlankRowNotes(a, fact, from), false)
    decreases a.t.rows - from
  {
    if from < a.t.rows {
      NotEmptyRows(a, fact, from + 1);
      var b := a.(y := from);
      assert Cell(b, fact) == At(a.t, fact, from);
    }
  }

  /** Check5 never throws once its column is found, and records exactly one
      problem per row whose fact cell is empty, at (fact, row), in row order. */
  lemma Check5Spec(a: Assert, s: Shared)
    requires GetColumn(a.t, "Факт. использование ЗУ").Done?
    ensures Check5(a, s) == Log(BlankRowNotes(a, GetColumn(a.t, "Факт. использование ЗУ").value, 0), false)
  {
    var fact := GetColumn(a.t, "Факт. использование ЗУ").value;
    assert GetColumns(a.t, Check5Names).Done?;
    assert GetColumns(a.t, Check5Names).value[0] == fact;
    NotEmptyRows(a, fact, 0);
  }

  // ------------------------------------------------------------ Check6

  /** Check6 for one row: a zero or empty land share is allowed only for the
      object kind "OKS". */
  function Check6Row(a: Assert, share: Column, kind: Column): (r: Log)
    ensures !r.threw && |r.notes| <= 1
    ensures r.notes != [] <==> IsZeroOrEmpty(a, share) && !IsEqual(a, kind, "OKS")
    ensures r.notes != [] ==> r.notes[0] == Note(kind, a.y, Some(EqualMessage("OKS", Cell(a, kind))))
  {
    if IsZeroOrEmpty(a, share) then Equal(a, kind, "OKS") else Pass
  }

  const Check6Names: seq<string> := ["Доля ЗУ", "Вид ОН"]

  /** What Check6 does over the whole table: it never throws, records
      nothing exactly when every row with a zero or empty share has the kind
      "OKS", and records only at the kind column of visited rows. */
  predicate Check6Outcome(r: Log, a: Assert, share: Column, kind: Column) {
    && !r.threw
    && (r.notes == [] <==> forall y: nat :: y < a.t.rows && IsZeroOrEmpty(a.(y := y), share) ==> IsEqual(a.(y := y), kind, "OKS"))
    && forall n :: n in r.notes ==> n.y < a.t.rows && n.column == kind
  }

  function Check6Body(share: Column, kind: Column): Assert -> Log {
    b => Check6Row(b, share, kind)
  }

  lemma Check6Loop(a: Assert, share: Column, kind: Column)
    ensures Check6Outcome(EachRow(a, Check6Body(share, kind), 0), a, share, kind)
  {
    var body := Check6Body(share, kind);
    forall y: nat | y < a.t.rows
      ensures !body(a.(y := y)).threw
      ensures body(a.(y := y)).notes == [] <==> !(IsZeroOrEmpty(a.(y := y), share) && !IsEqual(a.(y := y), kind, "OKS"))
      ensures Within(body(a.(y := y)), y, {kind})
    {
      var r := Check6Row(a.(y := y), share, kind);
      assert forall n :: n in r.notes ==> n == r.notes[0];
    }
    EachRowSpec(a, body, 0);
  }

  function Check6(a: Assert, s: Shared): (r: Log)
    ensures GetColumns(a.t, Check6Names).Threw? ==> r == Abort
    ensures GetColumns(a.t, Check6Names).Done? ==>
              Check6Outcome(r, a, GetColumns(a.t, Check6Names).value[0], GetColumns(a.t, Check6Names).value[1])
  {
    match GetColumns(a.t, Check6Names)
    case Threw => Abort
    case Done(cs) => Check6Loop(a, cs[0], cs[1]); EachRow(a, Check6Body(cs[0], cs[1]), 0)
  }

  // ------------------------------------------------------------ Check7

  /** The test of Check7: filled with something other than "нет". */
  predicate FilledNotNo(c: Option<string>) {
    c.Some? && c.value != "нет" && !AllWhiteSpace(c.value)
  }

  /** Check7 for one row: the zone and the code must each be filled and not
      "нет"; each failure is one problem without explanation. */
  function Check7Row(a: Assert, zone: Column, code: Column): (r: Log)
    ensures !r.threw
    ensures r.notes == (if FilledNotNo(Cell(a, zone)) then [] else [Note(zone, a.y, None)])
                     + (if FilledNotNo(Cell(a, code)) then [] else [Note(code, a.y, None)])
  {
    Then(ThatHere(a, zone, FilledNotNoTest, None), ThatHere(a, code, FilledNotNoTest, None))
  }

  const Check7Names: seq<string> := ["Зона ПЗЗ", "Код СЭР"]

  /** What Check7 does over the whole table: it never throws, records
      nothing exactly when every visited row has both cells filled and not
      "нет", and records only unexplained problems at those two columns. */
  predicate Check7Outcome(r: Log, a: Assert, zone: Column, code: Column) {
    && !r.threw
    && (r.notes == [] <==> forall y: nat :: y < a.t.rows ==> FilledNotNo(At(a.t, zone, y)) && FilledNotNo(At(a.t, code, y)))
    && forall n :: n in r.notes ==> n.y < a.t.rows && n.explanation.None? && (n.column == zone || n.column == code)
  }

  function Check7Body(zone: Column, code: Column): Assert -> Log {
    b => Check7Row(b, zone, code)
  }

  lemma Check7Loop(a: Assert, zone: Column, code: Column)
    ensures Check7Outcome(EachRow(a, Check7Body(zone, code), 0), a, zone, code)
  {
    var body := Check7Body(zone, code);
    forall y: nat | y < a.t.rows
      ensures !body(a.(y := y)).threw
      ensures body(a.(y := y)).notes == [] <==> FilledNotNo(At(a.t, zone, y)) && FilledNotNo(At(a.t, code, y))
      ensures forall n :: n in body(a.(y := y)).notes ==> n.y == y && n.explanation.None? && (n.column == zone || n.column == code)
    {
      var r := Check7Row(a.(y := y), zone, code);
    }
    EachRowSpec(a, body, 0);
  }

  function Check7(a: Assert, s: Shared): (r: Log)
    ensures GetColumns(a.t, Check7Names).Threw? ==> r == Abort
    ensures GetColumns(a.t, Check7Names).Done? ==>
              Check7Outcome(r, a, GetColumns(a.t, Check7Names).value[0], GetColumns(a.t, Check7Names).value[1])
  {
    match GetColumns(a.t, Check7Names)
    case Threw => Abort
    case Done(cs) => Check7Loop(a, cs[0], cs[1]); EachRow(a, Check7Body(cs[0], cs[1]), 0)
  }

  // ----------------------------------------------------------- Check10

  /** The note of a row says it was a sale without auction or a direct
      sale (and so is not null). */
  predicate DirectSale(a: Assert, note: Column) {
    DirectSaleTest(a.env, Cell(a, note)) == Done(true)
  }

  /** A sale on a trading website must say in its note that it was a
      direct sale; the note test throws on a null note. */
  function WebsiteSale(a: Assert, site: Column, note: Column): (r: Log)
    ensures r.threw <==> OnWebsite(a, site) && Cell(a, note).None?
    ensures Confined(r, a, 1, {note})
    ensures !OnWebsite(a, site) ==> r == Pass
    ensures !r.threw ==> (r.notes == [] <==> (OnWebsite(a, site) ==> DirectSale(a, note)))
  {
    if IsHere(a, site, c => InSetTest(Websites, c)) == Done(true)
    then ThatHere(a, note, c => DirectSaleTest(a.env, c), None) else Pass
  }

  /** A database row names the service, the dispute commission and no link
      or portal. */
  predicate DatabaseOriginFine(a: Assert, s: Shared) {
    && IsEqual(a, s.src2, "ГБУ КО")
    && IsEqual(a, s.src3, "Комиссия/Суд по оспариванию КС")
    && IsEqual(a, s.link, "---")
    && IsEqual(a, s.portal, "---")
  }

  /** The database source must name the service, the dispute commission
      and no link or portal. */
  function DatabaseOrigin(a: Assert, s: Shared): (r: Log)
    ensures Bounded(r, a, 4, {s.src2, s.src3, s.link, s.portal})
    ensures r.notes == [] <==> DatabaseOriginFine(a, s)
  {
    var checks := [
      Equal(a, s.src2, "ГБУ КО"),
      Equal(a, s.src3, "Комиссия/Суд по оспариванию КС"),
      Equal(a, s.link, "---"),
      Equal(a, s.portal, "---")];
    ChainBounded(a, checks, {s.src2, s.src3, s.link, s.portal});
    ChainQuiet(checks);
    Chain(checks)
  }

  /** A database row has documents and screenshots and is a deal. */
  predicate DatabaseEvidenceFine(a: Assert, s: Shared) {
    && IsNotZeroOrEmpty(a, s.doc)
    && IsNotZeroOrEmpty(a, s.screens)
    && IsEqual(a, s.deal, "Сделка")
  }

  /** The database source must have documents, screenshots and a deal. */
  function DatabaseEvidence(a: Assert, s: Shared): (r: Log)
    ensures Bounded(r, a, 3, {s.doc, s.screens, s.deal})
    ensures r.notes == [] <==> DatabaseEvidenceFine(a, s)
  {
    var checks := [
      NotZeroOrEmpty(a, s.doc),
      NotZeroOrEmpty(a, s.screens),
      Equal(a, s.deal, "Сделка")];
    ChainBounded(a, checks, {s.doc, s.screens, s.deal});
    ChainQuiet(checks);
    Chain(checks)
  }

  /** A database row is in order, its right not being a lease. */
  predicate DatabaseFine(a: Assert, s: Shared, right: Column) {
    && DatabaseOriginFine(a, s)
    && DatabaseEvidenceFine(a, s)
    && Cell(a, right).Some? && IsContains(a, right, "Аренда") == Done(false)
  }

  /** Check10, first source "База данных": a ruling on the cadastral value;
      the right test throws on a null right. */
  function DatabaseSource(a: Assert, s: Shared, right: Column): (r: Log)
    ensures r.threw <==> Cell(a, right).None?
    ensures Confined(r, a, 8, {s.src2, s.src3, s.link, s.portal, s.doc, s.screens, s.deal, right})
    ensures !r.threw ==> (r.notes == [] <==> DatabaseFine(a, s, right))
  {
    Then(DatabaseOrigin(a, s), Then(DatabaseEvidence(a, s), NotContains(a, right, "Аренда")))
  }

  /** An auction row of Check10 is in order as one of Check2, and has a
      price and a coefficient. */
  predicate AuctionSourceFine(a: Assert, s: Shared) {
    AuctionFine(a, s) && IsNotEmpty(a, s.price) && IsNotEmpty(a, s.coef)
  }

  /** Check10, an auction ("Торги ..."): the checks of an auction row of
      Check2, then a price and a coefficient. */
  function AuctionSource(a: Assert, s: Shared): (r: Log)
    ensures Bounded(r, a, 6, {s.src2, s.src3, s.doc, s.screens, s.price, s.coef})
    ensures r.notes == [] <==> AuctionSourceFine(a, s)
  {
    var columns := {s.src2, s.src3, s.doc, s.screens, s.price, s.coef};
    var head := Check2Auction(a, s);
    var tail := Then(NotEmpty(a, s.price), NotEmpty(a, s.coef));
    ThenConfined(a, NotEmpty(a, s.price), 1, NotEmpty(a, s.coef), 1, columns);
    ThenConfined(a, head, 4, tail, 2, columns);
    Then(head, tail)
  }

  /** A market row collected by the service is in order: documents, a
      third source, a direct-sale note when that source is a website, and
      screenshots. */
  predicate MarketServiceFine(a: Assert, s: Shared, note: Column) {
    && IsNotEmpty(a, s.doc)
    && IsNotEmpty(a, s.src3)
    && (OnWebsite(a, s.src3) ==> DirectSale(a, note))
    && IsNotZeroOrEmpty(a, s.screens)
  }

  /** The market collected by the service: documents and a third source;
      a sale on a known website must be a direct sale; screenshots. */
  function MarketService(a: Assert, s: Shared, note: Column): (r: Log)
    ensures r.threw <==> OnWebsite(a, s.src3) && Cell(a, note).None?
    ensures Confined(r, a, 4, {s.doc, s.src3, note, s.screens})
    ensures !r.threw ==> (r.notes == [] <==> MarketServiceFine(a, s, note))
  {
    var logs := [
      NotEmpty(a, s.doc),
      NotEmpty(a, s.src3),
      WebsiteSale(a, s.src3, note),
      NotZeroOrEmpty(a, s.screens)];
    ChainConfined(a, logs, {s.doc, s.src3, note, s.screens});
    ChainThrowsAt(logs, 2);
    if logs[2].threw then Chain(logs) else ChainQuiet(logs); Chain(logs)
  }

  /** A market row registered by Rosreestr is in order: no third source, a
      Rosreestr link and portal, and a deal. */
  predicate MarketRegistryFine(a: Assert, s: Shared) {
    && IsEmpty(a, s.src3)
    && IsContains(a, s.link, "rosreestr") == Done(true)
    && IsEqual(a, s.portal, "rosreestr.gov.ru")
    && IsEqual(a, s.deal, "Сделка")
  }

  /** The market as registered by Rosreestr: no third source, a Rosreestr
      link and portal, and a deal; the link test throws on a null link. */
  function MarketRegistry(a: Assert, s: Shared): (r: Log)
    ensures r.threw <==> Cell(a, s.link).None?
    ensures Confined(r, a, 4, {s.src3, s.link, s.portal, s.deal})
    ensures !r.threw ==> (r.notes == [] <==> MarketRegistryFine(a, s))
  {
    var logs := [
      Empty(a, s.src3),
      ContainsAssert(a, s.link, "rosreestr"),
      Equal(a, s.portal, "rosreestr.gov.ru"),
      Equal(a, s.deal, "Сделка")];
    ChainConfined(a, logs, {s.src3, s.link, s.portal, s.deal});
    if Cell(a, s.link).None? then Chain(logs) else ChainQuiet(logs); Chain(logs)
  }

  /** A Check10 row passes: it is in order for the branch its sources
      select, and rows of any other source pass. */
  predicate Check10Passes(b: Assert, s: Shared, right: Column, note: Column) {
    if IsEqual(b, s.src1, "База данных") then DatabaseFine(b, s, right)
    else if Cell(b, s.src1).None? then false
    else if "Торги " <= Cell(b, s.src1).value then AuctionSourceFine(b, s)
    else if IsEqual(b, s.src1, "Рынок") && IsEqual(b, s.src2, "ГБУ КО") then MarketServiceFine(b, s, note)
    else if IsEqual(b, s.src1, "Рынок") && IsEqual(b, s.src2, "Росреестр") then MarketRegistryFine(b, s)
    else true
  }

  /** The branches of Check10 by first source: the database, an auction,
      the market with "ГБУ КО", the market with "Росреестр", and anything
      else (which passes). A null first source that is not "База данных"
      throws in the auction test. */
  function Check10Row(a: Assert, s: Shared, right: Column, note: Column): (r: Log)
    ensures r.threw <==>
              || (IsEqual(a, s.src1, "База данных") && Cell(a, right).None?)
              || Cell(a, s.src1).None?
              || (IsEqual(a, s.src1, "Рынок") && IsEqual(a, s.src2, "ГБУ КО") && OnWebsite(a, s.src3) && Cell(a, note).None?)
              || (IsEqual(a, s.src1, "Рынок") && IsEqual(a, s.src2, "Росреестр") && Cell(a, s.link).None?)
    ensures Confined(r, a, 8, {s.src2, s.src3, s.link, s.portal, s.doc, s.screens, s.deal, right, s.price, s.coef, note})
    ensures !r.threw ==> (r.notes == [] <==> Check10Passes(a, s, right, note))
    ensures Cell(a, s.src1).Some? && Cell(a, s.src1).value !in {"База данных", "Рынок"} && !("Торги " <= Cell(a, s.src1).value) ==> r == Pass
  {
    if IsEqual(a, s.src1, "База данных") then DatabaseSource(a, s, right)
    else match IsHere(a, s.src1, c => StartsWithTest("Торги ", c))
      case Threw => Abort
      case Done(auction) =>
        if auction then AuctionSource(a, s)
        else if IsEqual(a, s.src1, "Рынок") && IsEqual(a, s.src2, "ГБУ КО") then MarketService(a, s, note)
        else if IsEqual(a, s.src1, "Рынок") && IsEqual(a, s.src2, "Росреестр") then MarketRegistry(a, s)
        else Pass
  }

  const Check10Names: seq<string> := ["Право ЗУ", "Примечание (ЗУ)"]

  /** A Check10 row throws: a database source with a null right, a null
      first source, a website sale without a note, or a Rosreestr market
      without a link. */
  predicate Check10Throws(b: Assert, s: Shared, right: Column, note: Column) {
    || (IsEqual(b, s.src1, "База данных") && Cell(b, right).None?)
    || Cell(b, s.src1).None?
    || (IsEqual(b, s.src1, "Рынок") && IsEqual(b, s.src2, "ГБУ КО") && OnWebsite(b, s.src3) && Cell(b, note).None?)
    || (IsEqual(b, s.src1, "Рынок") && IsEqual(b, s.src2, "Росреестр") && Cell(b, s.link).None?)
  }

  /** The columns the branches of Check10 assert on. */
  function Check10Columns(s: Shared, right: Column, note: Column): set<Column> {
    {s.src2, s.src3, s.link, s.portal, s.doc, s.screens, s.deal, right, s.price, s.coef, note}
  }

  /** What Check10 does over the whole table: it throws exactly when a
      visited row throws; when it returns normally it has recorded nothing
      exactly when every row passes; and it records only in visited rows
      and in the columns its branches check. */
  predicate Check10Outcome(r: Log, a: Assert, s: Shared, right: Column, note: Column) {
    && (r.threw <==> exists y: nat :: y < a.t.rows && Check10Throws(a.(y := y), s, right, note))
    && (!r.threw ==> (r.notes == [] <==> forall y: nat :: y < a.t.rows ==> Check10Passes(a.(y := y), s, right, note)))
    && forall n :: n in r.notes ==> n.y < a.t.rows && n.column in Check10Columns(s, right, note)
  }

  function Check10Body(s: Shared, right: Column, note: Column): Assert -> Log {
    b => Check10Row(b, s, right, note)
  }

  lemma Check10RowFacts(b: Assert, s: Shared, right: Column, note: Column)
    ensures Check10Body(s, right, note)(b).threw <==> Check10Throws(b, s, right, note)
    ensures !Check10Body(s, right, note)(b).threw ==> (Check10Body(s, right, note)(b).notes == [] <==> Check10Passes(b, s, right, note))
    ensures Within(Check10Body(s, right, note)(b), b.y, Check10Columns(s, right, note))
  {
    var r := Check10Row(b, s, right, note);
  }

  lemma Check10Loop(a: Assert, s: Shared, right: Column, note: Column)
    ensures Check10Outcome(EachRow(a, Check10Body(s, right, note), 0), a, s, right, note)
  {
    var body := Check10Body(s, right, note);
    forall y: nat | y < a.t.rows
      ensures body(a.(y := y)).threw <==> Check10Throws(a.(y := y), s, right, note)
      ensures Within(body(a.(y := y)), y, Check10Columns(s, right, note))
    {
      Check10RowFacts(a.(y := y), s, right, note);
    }
    EachRowWithin(a, body, Check10Columns(s, right, note));
    EachRowThrows(a, body, b => Check10Throws(b, s, right, note));
    forall y: nat | y < a.t.rows && !body(a.(y := y)).threw
      ensures body(a.(y := y)).notes == [] <==> Check10Passes(a.(y := y), s, right, note)
    {
      Check10RowFacts(a.(y := y), s, right, note);
    }
    EachRowPassesUnlessThrown(a, body, b => Check10Passes(b, s, right, note));
  }

  function Check10(a: Assert, s: Shared): (r: Log)
    ensures GetColumns(a.t, Check10Names).Threw? ==> r == Abort
    ensures GetColumns(a.t, Check10Names).Done? ==>
              Check10Outcome(r, a, s, GetColumns(a.t, Check10Names).value[0], GetColumns(a.t, Check10Names).value[1])
  {
    match GetColumns(a.t, Check10Names)
    case Threw => Abort
    case Done(cs) => Check10Loop(a, s, cs[0], cs[1]); EachRow(a, Check10Body(s, cs[0], cs[1]), 0)
  }

  // ----------------------------------------------------------- Check11

  /** The registry row before its link: a market first source and no third
      source. */
  function RegistryOpening(a: Assert, s: Shared): (r: Log)
    ensures Bounded(r, a, 2, {s.src1, s.src3})
    ensures r.notes == [] <==> IsEqual(a, s.src1, "Рынок") && IsEmpty(a, s.src3)
  {
    Then(Equal(a, s.src1, "Рынок"), Empty(a, s.src3))
  }

  /** The registry row after its link: the Rosreestr portal, a deal, and no
      screenshots. */
  function RegistryClosing(a: Assert, s: Shared): (r: Log)
    ensures Bounded(r, a, 3, {s.portal, s.deal, s.screens})
    ensures r.notes == [] <==> IsEqual(a, s.portal, "rosreestr.gov.ru") && IsEqual(a, s.deal, "Сделка") && IsZeroOrEmpty(a, s.screens)
  {
    var checks := [Equal(a, s.portal, "rosreestr.gov.ru"), Equal(a, s.deal, "Сделка"), ZeroOrEmpty(a, s.screens)];
    ChainBounded(a, checks, {s.portal, s.deal, s.screens});
    ChainQuiet(checks);
    Chain(checks)
  }

  /** A row with second source "Росреестр" is in order: a market deal with
      no third source, a Rosreestr link and portal, and no screenshots. */
  predicate RegistryFine(a: Assert, s: Shared) {
    && IsEqual(a, s.src1, "Рынок") && IsEmpty(a, s.src3)
    && IsContains(a, s.link, "rosreestr") == Done(true)
    && IsEqual(a, s.portal, "rosreestr.gov.ru") && IsEqual(a, s.deal, "Сделка") && IsZeroOrEmpty(a, s.screens)
  }

  /** Check11, second source "Росреестр": a market deal registered by
      Rosreestr, with no screenshots; the link test throws on a null link. */
  function RegistrySecond(a: Assert, s: Shared): (r: Log)
    ensures r.threw <==> Cell(a, s.link).None?
    ensures Confined(r, a, 6, {s.src1, s.src3, s.link, s.portal, s.deal, s.screens})
    ensures !r.threw ==> (r.notes == [] <==> RegistryFine(a, s))
  {
    Then(RegistryOpening(a, s), Then(ContainsAssert(a, s.link, "rosreestr"), RegistryClosing(a, s)))
  }

  /** A row with second source "ГБУ КО" is in order: documents and
      screenshots, and a direct-sale note for a market sale on a website. */
  predicate ServiceFine(a: Assert, s: Shared, note: Column) {
    && IsNotEmpty(a, s.doc)
    && IsNotZeroOrEmpty(a, s.screens)
    && (IsEqual(a, s.src1, "Рынок") && OnWebsite(a, s.src3) ==> DirectSale(a, note))
  }

  /** Check11, second source "ГБУ КО": documents and screenshots, and a
      market sale on a known website must be a direct sale. */
  function ServiceSecond(a: Assert, s: Shared, note: Column): (r: Log)
    ensures r.threw <==> IsEqual(a, s.src1, "Рынок") && OnWebsite(a, s.src3) && Cell(a, note).None?
    ensures Confined(r, a, 3, {s.doc, s.screens, note})
    ensures !r.threw ==> (r.notes == [] <==> ServiceFine(a, s, note))
  {
    var logs := [
      NotEmpty(a, s.doc),
      NotZeroOrEmpty(a, s.screens),
      if IsEqual(a, s.src1, "Рынок") then WebsiteSale(a, s.src3, note) else Pass];
    ChainConfined(a, logs, {s.doc, s.screens, note});
    ChainThrowsAt(logs, 2);
    if logs[2].threw then Chain(logs) else ChainQuiet(logs); Chain(logs)
  }

  /** A Check11 row passes: it is in order for its second source, and rows
      of any other second source pass. */
  predicate Check11Passes(b: Assert, s: Shared, note: Column) {
    if IsEqual(b, s.src2, "Росреестр") then RegistryFine(b, s)
    else if IsEqual(b, s.src2, "ГБУ КО") then ServiceFine(b, s, note)
    else true
  }

  /** The branches of Check11 by second source: "Росреестр", "ГБУ КО", and
      anything else (which passes). */
  function Check11Row(a: Assert, s: Shared, note: Column): (r: Log)
    ensures r.threw <==>
              || (IsEqual(a, s.src2, "Росреестр") && Cell(a, s.link).None?)
              || (IsEqual(a, s.src2, "ГБУ КО") && IsEqual(a, s.src1, "Рынок") && OnWebsite(a, s.src3) && Cell(a, note).None?)
    ensures Confined(r, a, 6, {s.src1, s.src3, s.link, s.portal, s.deal, s.screens, s.doc, note})
    ensures !r.threw ==> (r.notes == [] <==> Check11Passes(a, s, note))
    ensures !IsEqual(a, s.src2, "Росреестр") && !IsEqual(a, s.src2, "ГБУ КО") ==> r == Pass
  {
    if IsEqual(a, s.src2, "Росреестр") then RegistrySecond(a, s)
    else if IsEqual(a, s.src2, "ГБУ КО") then ServiceSecond(a, s, note)
    else Pass
  }

  const Check11Names: seq<string> := ["Примечание (ЗУ)"]

  /** A Check11 row throws: a Rosreestr second source without a link, or a
      market website sale without a note. */
  predicate Check11Throws(b: Assert, s: Shared, note: Column) {
    || (IsEqual(b, s.src2, "Росреестр") && Cell(b, s.link).None?)
    || (IsEqual(b, s.src2, "ГБУ КО") && IsEqual(b, s.src1, "Рынок") && OnWebsite(b, s.src3) && Cell(b, note).None?)
  }

  /** The columns the branches of Check11 assert on. */
  function Check11Columns(s: Shared, note: Column): set<Column> {
    {s.src1, s.src3, s.link, s.portal, s.deal, s.screens, s.doc, note}
  }

  /** What Check11 does over the whole table: it throws exactly when a
      visited row throws; when it returns normally it has recorded nothing
      exactly when every row passes; and it records only in visited rows
      and in the columns its branches check. */
  predicate Check11Outcome(r: Log, a: Assert, s: Shared, note: Column) {
    && (r.threw <==> exists y: nat :: y < a.t.rows && Check11Throws(a.(y := y), s, note))
    && (!r.threw ==> (r.notes == [] <==> forall y: nat :: y < a.t.rows ==> Check11Passes(a.(y := y), s, note)))
    && forall n :: n in r.notes ==> n.y < a.t.rows && n.column in Check11Columns(s, note)
  }

  function Check11Body(s: Shared, note: Column): Assert -> Log {
    b => Check11Row(b, s, note)
  }

  lemma Check11RowFacts(b: Assert, s: Shared, note: Column)
    ensures Check11Body(s, note)(b).threw <==> Check11Throws(b, s, note)
    ensures !Check11Body(s, note)(b).threw ==> (Check11Body(s, note)(b).notes == [] <==> Check11Passes(b, s, note))
    ensures Within(Check11Body(s, note)(b), b.y, Check11Columns(s, note))
  {
    var r := Check11Row(b, s, note);
  }

  lemma Check11Loop(a: Assert, s: Shared, note: Column)
    ensures Check11Outcome(EachRow(a, Check11Body(s, note), 0), a, s, note)
  {
    var body := Check11Body(s, note);
    forall y: nat | y < a.t.rows
      ensures body(a.(y := y)).threw <==> Check11Throws(a.(y := y), s, note)
      ensures Within(body(a.(y := y)), y, Check11Columns(s, note))
    {
      Check11RowFacts(a.(y := y), s, note);
    }
    EachRowWithin(a, body, Check11Columns(s, note));
    EachRowThrows(a, body, b => Check11Throws(b, s, note));
    forall y: nat | y < a.t.rows && !body(a.(y := y)).threw
      ensures body(a.(y := y)).notes == [] <==> Check11Passes(a.(y := y), s, note)
    {
      Check11RowFacts(a.(y := y), s, note);
    }
    EachRowPassesUnlessThrown(a, body, b => Check11Passes(b, s, note));
  }

  function Check11(a: Assert, s: Shared): (r: Log)
    ensures GetColumns(a.t, Check11Names).Threw? ==> r == Abort
    ensures GetColumns(a.t, Check11Names).Done? ==> Check11Outcome(r, a, s, GetColumns(a.t, Check11Names).value[0])
  {
    match GetColumns(a.t, Check11Names)
    case Threw => Abort
    case Done(cs) => Check11Loop(a, s, cs[0]); EachRow(a, Check11Body(s, cs[0]), 0)
  }

  // -------------------------------------------------- Check12, Check13

  /** The common row body of Check12 and Check13: a row whose second source
      is a state service records nothing; any other row records at most one
      problem, from `NotZeroOrEmpty` on `column`. */
  function ExcusedRow(a: Assert, s: Shared, column: Column): (r: Log)
    ensures Cell(a, s.src2).Some? && Cell(a, s.src2).value in GosServices ==> r == Pass
    ensures !(Cell(a, s.src2).Some? && Cell(a, s.src2).value in GosServices) ==>
              Verdict(r, IsNotZeroOrEmpty(a, column), Note(column, a.y, Some(NotZeroOrEmptyMessage(Cell(a, column)))))
  {
    if IsHere(a, s.src2, c => InSetTest(GosServices, c)) == Done(true) then Pass
    else NotZeroOrEmpty(a, column)
  }

  /** A row whose second source is a state service is excused. */
  predicate Excused(b: Assert, s: Shared) {
    Cell(b, s.src2).Some? && Cell(b, s.src2).value in GosServices
  }

  /** What Check12 and Check13 do over the whole table: they never throw,
      record nothing exactly when every visited row is excused or has a
      non-zero value in `column`, and record only at `column`. */
  predicate ExcusedOutcome(r: Log, a: Assert, s: Shared, column: Column) {
    && !r.threw
    && (r.notes == [] <==> forall y: nat :: y < a.t.rows ==> Excused(a.(y := y), s) || IsNotZeroOrEmpty(a.(y := y), column))
    && forall n :: n in r.notes ==> n.y < a.t.rows && n.column == column
  }

  function ExcusedBody(s: Shared, column: Column): Assert -> Log {
    b => ExcusedRow(b, s, column)
  }

  lemma ExcusedRowFacts(b: Assert, s: Shared, column: Column)
    ensures !ExcusedBody(s, column)(b).threw
    ensures ExcusedBody(s, column)(b).notes == [] <==> Excused(b, s) || IsNotZeroOrEmpty(b, column)
    ensures Within(ExcusedBody(s, column)(b), b.y, {column})
  {
    var r := ExcusedRow(b, s, column);
  }

  lemma ExcusedLoop(a: Assert, s: Shared, column: Column)
    ensures ExcusedOutcome(EachRow(a, ExcusedBody(s, column), 0), a, s, column)
  {
    var body := ExcusedBody(s, column);
    forall y: nat | y < a.t.rows
      ensures !body(a.(y := y)).threw
      ensures body(a.(y := y)).notes == [] <==> Excused(a.(y := y), s) || IsNotZeroOrEmpty(a.(y := y), column)
      ensures Within(body(a.(y := y)), y, {column})
    {
      ExcusedRowFacts(a.(y := y), s, column);
    }
    EachRowWithin(a, body, {column});
    EachRowPasses(a, body, b => Excused(b, s) || IsNotZeroOrEmpty(b, column));
  }

  /** Check12: document counts. */
  function Check12(a: Assert, s: Shared): (r: Log)
    ensures ExcusedOutcome(r, a, s, s.doc)
  {
    ExcusedLoop(a, s, s.doc);
    EachRow(a, ExcusedBody(s, s.doc), 0)
  }

  /** Check13: screenshot counts. */
  function Check13(a: Assert, s: Shared): (r: Log)
    ensures ExcusedOutcome(r, a, s, s.screens)
  {
    ExcusedLoop(a, s, s.screens);
    EachRow(a, ExcusedBody(s, s.screens), 0)
  }

  /** When every row names a state service as its second source, the
      document and screenshot rules record nothing. */
  lemma ExcusedRulesQuiet(a: Assert, s: Shared)
    requires forall y: nat :: y < a.t.rows ==>
               At(a.t, s.src2, y).Some? && At(a.t, s.src2, y).value in GosServices
    ensures Check12(a, s) == Pass && Check13(a, s) == Pass
  {
    forall y: nat | y < a.t.rows ensures Excused(a.(y := y), s) {
      assert Cell(a.(y := y), s.src2) == At(a.t, s.src2, y);
    }
  }

  // ----------------------------------------------------------- Check14

  /** `uni.Equals("Единый лот")`: `Object.Equals` between a `Column` and a
      string. `Column` is not part of this model; as a class that does not
      override `Equals`, it equals no string. */
  predicate ColumnEqualsText(c: Column, text: string) {
    false
  }

  /** Check14 for demolition: a purpose and a non-zero area; a zero or
      empty area also needs the fictitious-number marker, whose test throws
      on a null filter cell. The row passes exactly when the purpose is
      filled and the area is non-zero. */
  function Demolition(a: Assert, purpose: Column, area: Column, extra: Column): (r: Log)
    ensures r.threw <==> IsZeroOrEmpty(a, area) && Cell(a, extra).None?
    ensures Confined(r, a, 3, {purpose, area, extra})
    ensures !r.threw ==> (r.notes == [] <==> IsNotEmpty(a, purpose) && IsNotZeroOrEmpty(a, area))
  {
    Then(NotEmpty(a, purpose),
    Then(NotZeroOrEmpty(a, area),
         if IsZeroOrEmpty(a, area) then ContainsAssert(a, extra, "Фиктивный КН") else Pass))
  }

  /** Check14 for reconstruction or repair: an empty purpose, and a zero or
      empty area for "ONS" objects but a non-zero area for any other. */
  function Rebuild(a: Assert, purpose: Column, area: Column, kind: Column, single: Column): (r: Log)
    ensures Bounded(r, a, 2, {purpose, area})
    ensures r.notes == [] <==>
              IsEmpty(a, purpose) && (if IsEqual(a, kind, "ONS") then IsZeroOrEmpty(a, area) else IsNotZeroOrEmpty(a, area))
  {
    Then(Empty(a, purpose),
         if IsEqual(a, kind, "ONS") || (IsEqual(a, kind, "ENC") && ColumnEqualsText(single, "Единый лот"))
         then ZeroOrEmpty(a, area) else NotZeroOrEmpty(a, area))
  }

  /** Check14 for one row: demolition, reconstruction or repair, or any
      other value (which passes). */
  function Check14Row(a: Assert, dem: Column, purpose: Column, area: Column, kind: Column, single: Column, extra: Column): (r: Log)
    ensures r.threw <==> IsEqual(a, dem, "Снос") && IsZeroOrEmpty(a, area) && Cell(a, extra).None?
    ensures Confined(r, a, 3, {purpose, area, extra})
    ensures IsEqual(a, dem, "Снос") ==> r == Demolition(a, purpose, area, extra)
    ensures !IsEqual(a, dem, "Снос") && Cell(a, dem) != Some("Реконструкция") && Cell(a, dem) != Some("Ремонт") ==> r == Pass
    ensures !IsEqual(a, dem, "Снос") && Cell(a, dem) in {Some("Реконструкция"), Some("Ремонт")} ==>
              r == Rebuild(a, purpose, area, kind, single)
  {
    if IsEqual(a, dem, "Снос") then Demolition(a, purpose, area, extra)
    else if IsHere(a, dem, RebuildTest) == Done(true) then Rebuild(a, purpose, area, kind, single)
    else Pass
  }

  const Check14Names: seq<string> := [
    "Снос", "Назнач. дома под снос", "Площадь ОКС", "Факт. использование ОКС",
    "Вид ОН", "Единый лот", "Дополн. фильтр"]

  /** A Check14 row throws: demolition with a zero or empty area and a
      null filter cell. */
  predicate Check14Throws(b: Assert, dem: Column, area: Column, extra: Column) {
    IsEqual(b, dem, "Снос") && IsZeroOrEmpty(b, area) && Cell(b, extra).None?
  }

  /** A Check14 row passes: demolition with a purpose and a non-zero area;
      reconstruction or repair with an empty purpose and an area that is
      zero or empty for "ONS" objects and non-zero otherwise; or any other
      value. */
  predicate Check14Passes(b: Assert, dem: Column, purpose: Column, area: Column, kind: Column) {
    if IsEqual(b, dem, "Снос") then IsNotEmpty(b, purpose) && IsNotZeroOrEmpty(b, area)
    else if Cell(b, dem) == Some("Реконструкция") || Cell(b, dem) == Some("Ремонт") then
      IsEmpty(b, purpose) && (if IsEqual(b, kind, "ONS") then IsZeroOrEmpty(b, area) else IsNotZeroOrEmpty(b, area))
    else true
  }

  /** What Check14 does over the whole table: it throws exactly when a
      visited row throws; when it returns normally it records nothing
      exactly when every row passes; it records only in visited rows at the
      purpose, area or filter column. */
  predicate Check14Outcome(r: Log, a: Assert, dem: Column, purpose: Column, area: Column, kind: Column, extra: Column) {
    && (r.threw <==> exists y: nat :: y < a.t.rows && Check14Throws(a.(y := y), dem, area, extra))
    && (!r.threw ==> (r.notes == [] <==> forall y: nat :: y < a.t.rows ==> Check14Passes(a.(y := y), dem, purpose, area, kind)))
    && forall n :: n in r.notes ==> n.y < a.t.rows && n.column in {purpose, area, extra}
  }

  function Check14Body(dem: Column, purpose: Column, area: Column, kind: Column, single: Column, extra: Column): Assert -> Log {
    b => Check14Row(b, dem, purpose, area, kind, single, extra)
  }

  lemma Check14RowFacts(b: Assert, dem: Column, purpose: Column, area: Column, kind: Column, single: Column, extra: Column)
    ensures Check14Body(dem, purpose, area, kind, single, extra)(b).threw <==> Check14Throws(b, dem, area, extra)
    ensures !Check14Body(dem, purpose, area, kind, single, extra)(b).threw ==>
              (Check14Body(dem, purpose, area, kind, single, extra)(b).notes == [] <==> Check14Passes(b, dem, purpose, area, kind))
    ensures Within(Check14Body(dem, purpose, area, kind, single, extra)(b), b.y, {purpose, area, extra})
  {
    var r := Check14Row(b, dem, purpose, area, kind, single, extra);
  }

  lemma Check14LoopThrows(a: Assert, dem: Column, purpose: Column, area: Column, kind: Column, single: Column, extra: Column)
    ensures var r := EachRow(a, Check14Body(dem, purpose, area, kind, single, extra), 0);
      && (r.threw <==> exists y: nat :: y < a.t.rows && Check14Throws(a.(y := y), dem, area, extra))
      && forall n :: n in r.notes ==> n.y < a.t.rows && n.column in {purpose, area, extra}
  {
    var body := Check14Body(dem, purpose, area, kind, single, extra);
    forall y: nat | y < a.t.rows
      ensures body(a.(y := y)).threw <==> Check14Throws(a.(y := y), dem, area, extra)
      ensures Within(body(a.(y := y)), y, {purpose, area, extra})
    {
      Check14RowFacts(a.(y := y), dem, purpose, area, kind, single, extra);
    }
    EachRowWithin(a, body, {purpose, area, extra});
    EachRowThrows(a, body, b => Check14Throws(b, dem, area, extra));
  }

  lemma Check14Loop(a: Assert, dem: Column, purpose: Column, area: Column, kind: Column, single: Column, extra: Column)
    ensures Check14Outcome(EachRow(a, Check14Body(dem, purpose, area, kind, single, extra), 0), a, dem, purpose, area, kind, extra)
  {
    var body := Check14Body(dem, purpose, area, kind, single, extra);
    forall y: nat | y < a.t.rows && !body(a.(y := y)).threw
      ensures body(a.(y := y)).notes == [] <==> Check14Passes(a.(y := y), dem, purpose, area, kind)
    {
      Check14RowFacts(a.(y := y), dem, purpose, area, kind, single, extra);
    }
    EachRowPassesUnlessThrown(a, body, b => Check14Passes(b, dem, purpose, area, kind));
    Check14LoopThrows(a, dem, purpose, area, kind, single, extra);
  }

  function Check14(a: Assert, s: Shared): (r: Log)
    ensures GetColumns(a.t, Check14Names).Threw? ==> r == Abort
    ensures GetColumns(a.t, Check14Names).Done? ==>
              var cs := GetColumns(a.t, Check14Names).value;
              Check14Outcome(r, a, cs[0], cs[1], cs[2], cs[4], cs[6])
  {
    match GetColumns(a.t, Check14Names)
    case Threw => Abort
    case Done(cs) =>
      Check14Loop(a, cs[0], cs[1], cs[2], cs[4], cs[5], cs[6]);
      EachRow(a, Check14Body(cs[0], cs[1], cs[2], cs[4], cs[5], cs[6]), 0)
  }

  // ----------------------------------------------------------- FactOKS

  function FactMessage(fact: Column, cadastral: Column, extra: Column): string {
    "Для пустого '" + fact.name + "' ожидалось, что '" + cadastral.name + "' = <пусто> или '"
      + extra.name + "' будет содержать 'Фиктивный КН'"
  }

  /** The fictitious-number marker test, as `IsContains`. */
  function Fictitious(a: Assert, extra: Column): (r: Try<bool>)
    ensures r == IsContains(a, extra, "Фиктивный КН")
  {
    IsContains(a, extra, "Фиктивный КН")
  }

  /** FactOKS for one row: a filled actual use needs a cadastral number; an
      empty actual use needs an empty cadastral number or the fictitious
      marker, checked only when the number is filled (and throwing then on
      a null filter cell). */
  function FactOksRow(a: Assert, fact: Column, cadastral: Column, extra: Column): (r: Log)
    ensures r.threw <==> IsEmpty(a, fact) && !IsEmpty(a, cadastral) && Cell(a, extra).None?
    ensures r.threw ==> r == Abort
    ensures !r.threw ==> |r.notes| <= 1 && forall n :: n in r.notes ==> n.column == cadastral && n.y == a.y
    ensures !r.threw ==> (r.notes != [] <==>
              || (IsNotEmpty(a, fact) && IsEmpty(a, cadastral))
              || (IsEmpty(a, fact) && !IsEmpty(a, cadastral) && Fictitious(a, extra) == Done(false)))
  {
    if IsNotEmpty(a, fact) then NotEmpty(a, cadastral)
    else if IsEmpty(a, cadastral) then Pass
    else match Fictitious(a, extra)
      case Threw => Abort
      case Done(marked) => if marked then Pass else MarkOnce(cadastral, a.y, FactMessage(fact, cadastral, extra))
  }

  const FactOksNames: seq<string> := ["Факт. использование ОКС", "Кад. номер ОКС", "Дополн. фильтр"]

  /** A FactOKS row throws: empty actual use, a filled cadastral number and
      a null filter cell. */
  predicate FactOksThrows(b: Assert, fact: Column, cadastral: Column, extra: Column) {
    IsEmpty(b, fact) && !IsEmpty(b, cadastral) && Cell(b, extra).None?
  }

  /** A FactOKS row passes: a filled actual use has a cadastral number, and
      an empty actual use has no number or the fictitious marker. */
  predicate FactOksPasses(b: Assert, fact: Column, cadastral: Column, extra: Column) {
    && !(IsNotEmpty(b, fact) && IsEmpty(b, cadastral))
    && !(IsEmpty(b, fact) && !IsEmpty(b, cadastral) && Fictitious(b, extra) == Done(false))
  }

  /** What FactOKS does over the whole table: it throws exactly when a
      visited row throws; when it returns normally it records nothing
      exactly when every row passes; it records only at the cadastral
      number of visited rows. */
  predicate FactOksOutcome(r: Log, a: Assert, fact: Column, cadastral: Column, extra: Column) {
    && (r.threw <==> exists y: nat :: y < a.t.rows && FactOksThrows(a.(y := y), fact, cadastral, extra))
    && (!r.threw ==> (r.notes == [] <==> forall y: nat :: y < a.t.rows ==> FactOksPasses(a.(y := y), fact, cadastral, extra)))
    && forall n :: n in r.notes ==> n.y < a.t.rows && n.column == cadastral
  }

  function FactOksBody(fact: Column, cadastral: Column, extra: Column): Assert -> Log {
    b => FactOksRow(b, fact, cadastral, extra)
  }

  lemma FactOksLoop(a: Assert, fact: Column, cadastral: Column, extra: Column)
    ensures FactOksOutcome(EachRow(a, FactOksBody(fact, cadastral, extra), 0), a, fact, cadastral, extra)
  {
    var body := FactOksBody(fact, cadastral, extra);
    forall y: nat | y < a.t.rows
      ensures body(a.(y := y)).threw <==> FactOksThrows(a.(y := y), fact, cadastral, extra)
      ensures !body(a.(y := y)).threw ==> (body(a.(y := y)).notes == [] <==> FactOksPasses(a.(y := y), fact, cadastral, extra))
      ensures Within(body(a.(y := y)), y, {cadastral})
    {
      var r := FactOksRow(a.(y := y), fact, cadastral, extra);
    }
    EachRowWithin(a, body, {cadastral});
    EachRowThrows(a, body, b => FactOksThrows(b, fact, cadastral, extra));
    EachRowPassesUnlessThrown(a, body, b => FactOksPasses(b, fact, cadastral, extra));
  }

  function FactOks(a: Assert, s: Shared): (r: Log)
    ensures GetColumns(a.t, FactOksNames).Threw? ==> r == Abort
    ensures GetColumns(a.t, FactOksNames).Done? ==>
              var cs := GetColumns(a.t, FactOksNames).value;
              FactOksOutcome(r, a, cs[0], cs[1], cs[2])
  {
    match GetColumns(a.t, FactOksNames)
    case Threw => Abort
    case Done(cs) => FactOksLoop(a, cs[0], cs[1], cs[2]); EachRow(a, FactOksBody(cs[0], cs[1], cs[2]), 0)
  }

  // ----------------------------------------------------------- AreaOKS

  /** AreaOKS for one row: a filled cadastral number without the fictitious
      marker needs a non-zero area. */
  function AreaOksRow(a: Assert, area: Column, cadastral: Column, extra: Column): (r: Log)
    ensures r.threw <==> !IsEmpty(a, cadastral) && Cell(a, extra).None?
    ensures r.threw ==> r == Abort
    ensures IsEmpty(a, cadastral) ==> r == Pass
    ensures !r.threw ==> |r.notes| <= 1
    ensures !r.threw ==> (r.notes != [] <==> !IsEmpty(a, cadastral) && Fictitious(a, extra) == Done(false) && IsZeroOrEmpty(a, area))
    ensures r.notes != [] ==> r.notes == [Note(area, a.y, Some(NotZeroOrEmptyMessage(Cell(a, area))))]
  {
    if IsEmpty(a, cadastral) then Pass
    else match Fictitious(a, extra)
      case Threw => Abort
      case Done(marked) => if marked then Pass else NotZeroOrEmpty(a, area)
  }

  const AreaOksNames: seq<string> := ["Площадь ОКС", "Кад. номер ОКС", "Дополн. фильтр"]

  /** An AreaOKS row throws: a filled cadastral number and a null filter
      cell. */
  predicate AreaOksThrows(b: Assert, cadastral: Column, extra: Column) {
    !IsEmpty(b, cadastral) && Cell(b, extra).None?
  }

  /** An AreaOKS row passes: no cadastral number, the fictitious marker, or
      a non-zero area. */
  predicate AreaOksPasses(b: Assert, area: Column, cadastral: Column, extra: Column) {
    !(!IsEmpty(b, cadastral) && Fictitious(b, extra) == Done(false) && IsZeroOrEmpty(b, area))
  }

  /** What AreaOKS does over the whole table: it throws exactly when a
      visited row throws; when it returns normally it records nothing
      exactly when every row passes; it records only at the area column of
      visited rows. */
  predicate AreaOksOutcome(r: Log, a: Assert, area: Column, cadastral: Column, extra: Column) {
    && (r.threw <==> exists y: nat :: y < a.t.rows && AreaOksThrows(a.(y := y), cadastral, extra))
    && (!r.threw ==> (r.notes == [] <==> forall y: nat :: y < a.t.rows ==> AreaOksPasses(a.(y := y), area, cadastral, extra)))
    && forall n :: n in r.notes ==> n.y < a.t.rows && n.column == area
  }

  function AreaOksBody(area: Column, cadastral: Column, extra: Column): Assert -> Log {
    b => AreaOksRow(b, area, cadastral, extra)
  }

  lemma AreaOksLoop(a: Assert, area: Column, cadastral: Column, extra: Column)
    ensures AreaOksOutcome(EachRow(a, AreaOksBody(area, cadastral, extra), 0), a, area, cadastral, extra)
  {
    var body := AreaOksBody(area, cadastral, extra);
    forall y: nat | y < a.t.rows
      ensures body(a.(y := y)).threw <==> AreaOksThrows(a.(y := y), cadastral, extra)
      ensures !body(a.(y := y)).threw ==> (body(a.(y := y)).notes == [] <==> AreaOksPasses(a.(y := y), area, cadastral, extra))
      ensures Within(body(a.(y := y)), y, {area})
    {
      var r := AreaOksRow(a.(y := y), area, cadastral, extra);
    }
    EachRowWithin(a, body, {area});
    EachRowThrows(a, body, b => AreaOksThrows(b, cadastral, extra));
    EachRowPassesUnlessThrown(a, body, b => AreaOksPasses(b, area, cadastral, extra));
  }

  function AreaOks(a: Assert, s: Shared): (r: Log)
    ensures GetColumns(a.t, AreaOksNames).Threw? ==> r == Abort
    ensures GetColumns(a.t, AreaOksNames).Done? ==>
              var cs := GetColumns(a.t, AreaOksNames).value;
              AreaOksOutcome(r, a, cs[0], cs[1], cs[2])
  {
    match GetColumns(a.t, AreaOksNames)
    case Threw => Abort
    case Done(cs) => AreaOksLoop(a, cs[0], cs[1], cs[2]); EachRow(a, AreaOksBody(cs[0], cs[1], cs[2]), 0)
  }

  // -------------------------------------------------------- Subsegment

  /** Subsegment for one row: a kitchen-garden subsegment needs the object
      kind "ZU". */
  function SubsegmentRow(a: Assert, sub: Column, kind: Column): (r: Log)
    ensures !r.threw && |r.notes| <= 1
    ensures r.notes != [] <==> IsEqual(a, sub, "ОГОРОД") && !IsEqual(a, kind, "ZU")
    ensures forall n :: n in r.notes ==> n.y == a.y && n.column == kind
  {
    if IsEqual(a, sub, "ОГОРОД") then Equal(a, kind, "ZU") else Pass
  }

  const SubsegmentNames: seq<string> := ["Подсегмент", "Вид ОН"]

  /** What Subsegment does over the whole table: it never throws, records
      nothing exactly when every kitchen-garden row has the kind "ZU", and
      records only at the kind column of visited rows. */
  predicate SubsegmentOutcome(r: Log, a: Assert, sub: Column, kind: Column) {
    && !r.threw
    && (r.notes == [] <==> forall y: nat :: y < a.t.rows && IsEqual(a.(y := y), sub, "ОГОРОД") ==> IsEqual(a.(y := y), kind, "ZU"))
    && forall n :: n in r.notes ==> n.y < a.t.rows && n.column == kind
  }

  function SubsegmentBody(sub: Column, kind: Column): Assert -> Log {
    b => SubsegmentRow(b, sub, kind)
  }

  lemma SubsegmentLoop(a: Assert, sub: Column, kind: Column)
    ensures SubsegmentOutcome(EachRow(a, SubsegmentBody(sub, kind), 0), a, sub, kind)
  {
    var body := SubsegmentBody(sub, kind);
    forall y: nat | y < a.t.rows
      ensures !body(a.(y := y)).threw
      ensures body(a.(y := y)).notes == [] <==> (IsEqual(a.(y := y), sub, "ОГОРОД") ==> IsEqual(a.(y := y), kind, "ZU"))
      ensures Within(body(a.(y := y)), y, {kind})
    {
      var r := SubsegmentRow(a.(y := y), sub, kind);
    }
    EachRowWithin(a, body, {kind});
    EachRowPasses(a, body, b => IsEqual(b, sub, "ОГОРОД") ==> IsEqual(b, kind, "ZU"));
  }

  function Subsegment(a: Assert, s: Shared): (r: Log)
    ensures GetColumns(a.t, SubsegmentNames).Threw? ==> r == Abort
    ensures GetColumns(a.t, SubsegmentNames).Done? ==>
              SubsegmentOutcome(r, a, GetColumns(a.t, SubsegmentNames).value[0], GetColumns(a.t, SubsegmentNames).value[1])
  {
    match GetColumns(a.t, SubsegmentNames)
    case Threw => Abort
    case Done(cs) => SubsegmentLoop(a, cs[0], cs[1]); EachRow(a, SubsegmentBody(cs[0], cs[1]), 0)
  }
}
