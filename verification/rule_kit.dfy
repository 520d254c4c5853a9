/** What every rule body shares (`TestContext`): the thirteen columns the
    constructor resolves, the constant sets and threshold, the row loop,
    and the cell reads the bodies make outside the assertion language. */
module RuleKit {
  import opened Basics
  import opened Text
  import opened MetaTable
  import opened Results
  import opened Asserts

  /** The columns every context resolves when it is constructed. */
  datatype Shared = Shared(
    year: Column, src1: Column, src2: Column, src3: Column,
    doc: Column, screens: Column, deal: Column,
    com: Column, jud: Column, link: Column, portal: Column,
    coef: Column, price: Column)

  /** The names of the shared columns, in the order they are looked up. */
  const SharedNames: seq<string> := [
    "Год", "Источник 1", "Источник 2", "Источник 3",
    "Докум.", "Кол-во основных скринов", "Вид сделки",
    "Комиссия", "Суд", "Ссылка", "Портал",
    "Коэф. превышения", "Нач. общ. стоим. лота"]

  /** The constructor's lookups, in order: the first missing name throws. */
  function ResolveShared(t: Table): Try<Shared> {
    match GetColumns(t, SharedNames)
    case Threw => Threw
    case Done(c) =>
      Done(Shared(c[0], c[1], c[2], c[3], c[4], c[5], c[6], c[7], c[8], c[9], c[10], c[11], c[12]))
  }

  /** The lookups throw exactly when some shared name has no column;
      otherwise each field is the leftmost column of its name. */
  lemma ResolveSharedSpec(t: Table)
    ensures ResolveShared(t).Threw? <==> exists i :: 0 <= i < |SharedNames| && GetColumn(t, SharedNames[i]).Threw?
    ensures ResolveShared(t).Done? ==>
              var r := ResolveShared(t).value;
              && Done(r.year) == GetColumn(t, "Год")
              && Done(r.src1) == GetColumn(t, "Источник 1")
              && Done(r.src2) == GetColumn(t, "Источник 2")
              && Done(r.src3) == GetColumn(t, "Источник 3")
              && Done(r.doc) == GetColumn(t, "Докум.")
              && Done(r.screens) == GetColumn(t, "Кол-во основных скринов")
              && Done(r.deal) == GetColumn(t, "Вид сделки")
              && Done(r.com) == GetColumn(t, "Комиссия")
              && Done(r.jud) == GetColumn(t, "Суд")
              && Done(r.link) == GetColumn(t, "Ссылка")
              && Done(r.portal) == GetColumn(t, "Портал")
              && Done(r.coef) == GetColumn(t, "Коэф. превышения")
              && Done(r.price) == GetColumn(t, "Нач. общ. стоим. лота")
  {
    if GetColumns(t, SharedNames).Done? {
      var c := GetColumns(t, SharedNames).value;
      assert GetColumn(t, SharedNames[0]) == Done(c[0]);
      assert GetColumn(t, SharedNames[1]) == Done(c[1]);
      assert GetColumn(t, SharedNames[2]) == Done(c[2]);
      assert GetColumn(t, SharedNames[3]) == Done(c[3]);
      assert GetColumn(t, SharedNames[4]) == Done(c[4]);
      assert GetColumn(t, SharedNames[5]) == Done(c[5]);
      assert GetColumn(t, SharedNames[6]) == Done(c[6]);
      assert GetColumn(t, SharedNames[7]) == Done(c[7]);
      assert GetColumn(t, SharedNames[8]) == Done(c[8]);
      assert GetColumn(t, SharedNames[9]) == Done(c[9]);
      assert GetColumn(t, SharedNames[10]) == Done(c[10]);
      assert GetColumn(t, SharedNames[11]) == Done(c[11]);
      assert GetColumn(t, SharedNames[12]) == Done(c[12]);
    }
  }

  /** The trading platforms a market source may name. */
  const Websites: set<string> := {
    "РАД", "Торги России", "ДОМ.РФ", "Фонд Имущества", "Балтийская электронная площадка", "другое"}

  /** The state services that excuse an empty document or screenshot count. */
  const GosServices: set<string> := {"Петербургская недвижимость", "Росреестр", "ГУИОН"}

  /** `LOW_PRICE`: prices at or below it may leave the detail columns empty. */
  const LowPrice: real := 10.0

  /** `EachRow` from row `from`: the body runs for rows `from`,
      `from + 1`, ... below `t.rows`, with the cursor set to the row first,
      and the loop ends at the first row whose body throws. */
  function EachRow(base: Assert, body: Assert -> Log, from: nat): (r: Log)
    ensures base.t.rows <= from ==> r == Pass
    decreases base.t.rows - from
  {
    if from < base.t.rows then Then(body(base.(y := from)), EachRow(base, body, from + 1)) else Pass
  }

  /** The row count as a natural number: rows at or below zero run nothing. */
  function RowsOf(t: Table): nat {
    if t.rows < 0 then 0 else t.rows
  }

  /** Reference definition: the logs of the rows from `from` on, in order. */
  function RowLogs(base: Assert, body: Assert -> Log, from: nat): (logs: seq<Log>)
    ensures |logs| == if from < RowsOf(base.t) then RowsOf(base.t) - from else 0
    ensures forall k :: 0 <= k < |logs| ==> logs[k] == body(base.(y := from + k))
  {
    seq(if from < RowsOf(base.t) then RowsOf(base.t) - from else 0, k requires 0 <= k => body(base.(y := from + k)))
  }

  /** The row loop is the block of its rows' bodies, in increasing order. */
  lemma {:induction false} EachRowIsChain(base: Assert, body: Assert -> Log, from: nat)
    ensures EachRow(base, body, from) == Chain(RowLogs(base, body, from))
    decreases base.t.rows - from
  {
    if from < base.t.rows {
      EachRowIsChain(base, body, from + 1);
      var logs := RowLogs(base, body, from);
      assert logs[0] == body(base.(y := from));
      assert logs[1..] == RowLogs(base, body, from + 1);
      assert Chain(logs) == Then(logs[0], Chain(logs[1..]));
    }
  }

  /** A loop whose rows all pass records nothing and does not throw. */
  lemma {:induction false} EachRowQuiet(base: Assert, body: Assert -> Log, from: nat)
    requires forall y: nat :: from <= y < base.t.rows ==> body(base.(y := y)) == Pass
    ensures EachRow(base, body, from) == Pass
    decreases base.t.rows - from
  {
    if from < base.t.rows {
      EachRowQuiet(base, body, from + 1);
    }
  }

  /** The loop as a whole: it throws exactly when the body of a visited row
      throws; every problem it records was recorded by a visited row; and
      when it returns normally it has recorded every problem of every row,
      so it records nothing exactly when no row records anything. */
  lemma {:induction false} EachRowSpec(base: Assert, body: Assert -> Log, from: nat)
    ensures EachRow(base, body, from).threw <==> exists y: nat :: from <= y < base.t.rows && body(base.(y := y)).threw
    ensures forall n :: n in EachRow(base, body, from).notes ==>
              exists y: nat :: from <= y < base.t.rows && n in body(base.(y := y)).notes
    ensures !EachRow(base, body, from).threw ==>
              forall y: nat, n :: from <= y < base.t.rows && n in body(base.(y := y)).notes ==> n in EachRow(base, body, from).notes
    ensures !EachRow(base, body, from).threw ==>
              (EachRow(base, body, from).notes == [] <==> forall y: nat :: from <= y < base.t.rows ==> body(base.(y := y)).notes == [])
    decreases base.t.rows - from
  {
    if from < base.t.rows {
      EachRowSpec(base, body, from + 1);
    }
  }

  /** Problems only in their own row and only in the given columns. */
  predicate Within(r: Log, y: nat, columns: set<Column>) {
    forall n :: n in r.notes ==> n.y == y && n.column in columns
  }

  /** A loop whose rows record problems only in their own row and in
      `columns` records problems only in visited rows and in `columns`. */
  lemma EachRowWithin(base: Assert, body: Assert -> Log, columns: set<Column>)
    requires forall y: nat :: y < base.t.rows ==> Within(body(base.(y := y)), y, columns)
    ensures forall n :: n in EachRow(base, body, 0).notes ==> n.y < base.t.rows && n.column in columns
  {
    EachRowSpec(base, body, 0);
  }

  /** A loop throws exactly when a visited row satisfies `throws`, given
      that each visited row's body throws exactly when `throws` holds. */
  lemma EachRowThrows(base: Assert, body: Assert -> Log, throws: Assert -> bool)
    requires forall y: nat :: y < base.t.rows ==> (body(base.(y := y)).threw <==> throws(base.(y := y)))
    ensures EachRow(base, body, 0).threw <==> exists y: nat :: y < base.t.rows && throws(base.(y := y))
  {
    EachRowSpec(base, body, 0);
  }

  /** A loop records nothing exactly when every visited row satisfies
      `passes`, given that no row throws and each row's body records
      nothing exactly when `passes` holds. */
  lemma EachRowPasses(base: Assert, body: Assert -> Log, passes: Assert -> bool)
    requires forall y: nat :: y < base.t.rows ==> !body(base.(y := y)).threw
    requires forall y: nat :: y < base.t.rows ==> (body(base.(y := y)).notes == [] <==> passes(base.(y := y)))
    ensures !EachRow(base, body, 0).threw
    ensures EachRow(base, body, 0).notes == [] <==> forall y: nat :: y < base.t.rows ==> passes(base.(y := y))
  {
    EachRowSpec(base, body, 0);
  }

  /** A loop that returns normally records nothing exactly when every
      visited row satisfies `passes`, given that each row whose body returns
      normally records nothing exactly when `passes` holds. */
  lemma EachRowPassesUnlessThrown(base: Assert, body: Assert -> Log, passes: Assert -> bool)
    requires forall y: nat :: y < base.t.rows && !body(base.(y := y)).threw ==>
               (body(base.(y := y)).notes == [] <==> passes(base.(y := y)))
    ensures !EachRow(base, body, 0).threw ==>
              (EachRow(base, body, 0).notes == [] <==> forall y: nat :: y < base.t.rows ==> passes(base.(y := y)))
  {
    EachRowSpec(base, body, 0);
  }

  /** A loop whose rows never throw records the notes of every row, in row
      order, and returns normally. */
  lemma EachRowNoThrow(base: Assert, body: Assert -> Log)
    requires forall y: nat :: y < base.t.rows ==> !body(base.(y := y)).threw
    ensures EachRow(base, body, 0) == Log(Flatten(RowLogs(base, body, 0)), false)
  {
    EachRowIsChain(base, body, 0);
    ChainNoThrow(RowLogs(base, body, 0));
  }

  /** `t.At<string>(column, y)` in the cursor row, shown in a message. */
  function ShownAt(a: Assert, column: Column): (r: string)
    ensures Cell(a, column).Some? ==> r == Cell(a, column).value
  {
    Shown(Cell(a, column))
  }

  /** `t.AtFloat(column, y)` in the cursor row. */
  function FloatAt(a: Assert, column: Column): (r: Try<real>)
    ensures r.Done? <==> Cell(a, column).Some? && a.env.parse(RemoveSpaces(Cell(a, column).value)).Some?
    ensures r.Done? ==> a.env.parse(RemoveSpaces(Cell(a, column).value)) == Some(r.value)
  {
    AtFloat(a.t, a.env.parse, column, a.y)
  }

  /** `mayBeZero`: reads both prices as numbers and asks whether either is
      at most `LowPrice`; either read throws when its text is not a number. */
  function MayBeZero(a: Assert, first: Column, second: Column): (r: Try<bool>)
    ensures r.Threw? <==> FloatAt(a, first).Threw? || FloatAt(a, second).Threw?
    ensures r.Done? ==> (r.value <==> FloatAt(a, first).value <= LowPrice || FloatAt(a, second).value <= LowPrice)
  {
    match FloatAt(a, first)
    case Threw => Threw
    case Done(u) =>
      match FloatAt(a, second)
      case Threw => Threw
      case Done(v) => Done(u <= LowPrice || v <= LowPrice)
  }

  /** A row log that never throws and records at most `k` problems, all in
      the cursor row and all in the given columns. */
  predicate Bounded(r: Log, a: Assert, k: nat, columns: set<Column>) {
    && !r.threw
    && |r.notes| <= k
    && forall n :: n in r.notes ==> n.y == a.y && n.column in columns
  }

  /** Like `Bounded`, but the log may end in a throw. */
  predicate Confined(r: Log, a: Assert, k: nat, columns: set<Column>) {
    && |r.notes| <= k
    && forall n :: n in r.notes ==> n.y == a.y && n.column in columns
  }

  /** Sequencing adds the bounds of its parts. */
  lemma ThenConfined(a: Assert, l1: Log, k1: nat, l2: Log, k2: nat, columns: set<Column>)
    requires Confined(l1, a, k1, columns) && Confined(l2, a, k2, columns)
    ensures Confined(Then(l1, l2), a, k1 + k2, columns)
  {
  }

  /** Sequencing throws exactly when one of its parts throws. */
  lemma ThenThrew(l1: Log, l2: Log)
    ensures Then(l1, l2).threw <==> l1.threw || l2.threw
  {
  }

  /** A block of statements that never throw and each record at most one
      problem in the cursor row, in the given columns, never throws and
      records at most one per statement. */
  lemma {:induction false} ChainBounded(a: Assert, logs: seq<Log>, columns: set<Column>)
    requires forall i :: 0 <= i < |logs| ==> Bounded(logs[i], a, 1, columns)
    ensures Bounded(Chain(logs), a, |logs|, columns)
  {
    if |logs| > 0 {
      ChainBounded(a, logs[1..], columns);
      assert forall i :: 1 <= i < |logs| ==> logs[i] == logs[1..][i - 1];
    }
  }

  /** A block of statements that never throw records nothing exactly when
      none of its statements records anything. */
  lemma {:induction false} ChainQuiet(logs: seq<Log>)
    requires forall l :: l in logs ==> !l.threw
    ensures Chain(logs).notes == [] <==> forall l :: l in logs ==> l.notes == []
  {
    if |logs| > 0 {
      assert logs == [logs[0]] + logs[1..];
      ChainQuiet(logs[1..]);
    }
  }

  /** A block in which only statement `j` can throw throws exactly when
      that statement does. */
  lemma {:induction false} ChainThrowsAt(logs: seq<Log>, j: nat)
    requires j < |logs|
    requires forall i :: 0 <= i < |logs| && i != j ==> !logs[i].threw
    ensures Chain(logs).threw == logs[j].threw
  {
    if j == 0 {
      if !logs[0].threw {
        ChainNoThrowTail(logs[1..]);
      }
    } else {
      assert forall i :: 0 <= i < |logs| - 1 && i != j - 1 ==> logs[1..][i] == logs[i + 1];
      ChainThrowsAt(logs[1..], j - 1);
    }
  }

  lemma {:induction false} ChainNoThrowTail(logs: seq<Log>)
    requires forall i :: 0 <= i < |logs| ==> !logs[i].threw
    ensures !Chain(logs).threw
  {
    if |logs| > 0 {
      assert forall i :: 0 <= i < |logs| - 1 ==> logs[1..][i] == logs[i + 1];
      ChainNoThrowTail(logs[1..]);
    }
  }

  /** A block of statements that each record at most one problem in the
      cursor row, in the given columns, records at most one per statement;
      it throws exactly when one of its statements throws. */
  lemma {:induction false} ChainConfined(a: Assert, logs: seq<Log>, columns: set<Column>)
    requires forall i :: 0 <= i < |logs| ==> Confined(logs[i], a, 1, columns)
    ensures Confined(Chain(logs), a, |logs|, columns)
    ensures Chain(logs).threw <==> exists i :: 0 <= i < |logs| && logs[i].threw
  {
    if |logs| > 0 {
      ChainConfined(a, logs[1..], columns);
      assert forall i :: 1 <= i < |logs| ==> logs[i] == logs[1..][i - 1];
    }
  }
}
