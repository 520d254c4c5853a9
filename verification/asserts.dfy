/** The assertion language of the rules (`Assert`, `Context`): probes that
    read one cell and answer a question about it, and assertions that
    record one problem when a probe fails. Probes take no problem store
    at all, so they cannot change one; assertions return a `Log`. */
module Asserts {
  import opened Basics
  import opened Text
  import opened MetaTable
  import opened Results

  /** The parts of the .NET runtime the assertions call and this model
      does not define. `parse` is `float.Parse` / `float.TryParse` with
      `NumberStyles.Any` and the invariant culture: the number a text
      denotes, rounded to single precision, or `None` where parsing fails.
      `lower` is `string.ToLower` in the current culture. */
  datatype Env = Env(parse: string -> Option<real>, lower: string -> string)

  /** The `Assert` object of one context: the table, the runtime, and the
      row cursor `Context.y` that the row loop moves. */
  datatype Assert = Assert(t: Table, env: Env, y: nat)

  /** A cell test, as the lambdas the rules pass: it may throw. */
  type CellTest = Option<string> -> Try<bool>

  /** A callback building an explanation from a cell. */
  type Explainer = Option<string> -> string

  /** The cell of `column` in the cursor row. */
  function Cell(a: Assert, column: Column): Option<string> {
    At(a.t, column, a.y)
  }

  /** A cell as string interpolation shows it: null shows as nothing. */
  function Shown(c: Option<string>): (r: string)
    ensures c.Some? ==> r == c.value
    ensures c.None? ==> r == ""
  {
    c.GetOr("")
  }

  // ---------------------------------------------------------------- probes

  /** `Is(column, y, predicate)`: the test applied to the cell at row `y`. */
  function Is(a: Assert, column: Column, y: nat, p: CellTest): (r: Try<bool>)
    ensures r == p(At(a.t, column, y))
  {
    p(At(a.t, column, y))
  }

  /** `Is(column, predicate)`: the test applied at the cursor row. */
  function IsHere(a: Assert, column: Column, p: CellTest): (r: Try<bool>)
    ensures r == p(Cell(a, column))
  {
    Is(a, column, a.y, p)
  }

  /** `IsEmpty`: `string.IsNullOrWhiteSpace` of the cell. Never throws. */
  predicate IsEmpty(a: Assert, column: Column) {
    IsNullOrWhiteSpace(Cell(a, column))
  }

  /** `IsNotEmpty`: the exact negation of `IsEmpty`. */
  predicate IsNotEmpty(a: Assert, column: Column) {
    !IsEmpty(a, column)
  }

  /** A cell is empty exactly when it is null or trims to nothing, and it
      is not empty exactly when it holds a character that is not white
      space; the empty text is empty, and so is a null cell. */
  lemma EmptinessSpec(a: Assert, column: Column)
    ensures IsEmpty(a, column) <==> Cell(a, column).None? || Trim(Cell(a, column).value) == ""
    ensures IsNotEmpty(a, column) <==>
              Cell(a, column).Some? && exists i :: 0 <= i < |Cell(a, column).value| && !IsWhiteSpace(Cell(a, column).value[i])
    ensures Cell(a, column) == Some("") ==> IsEmpty(a, column)
    ensures Cell(a, column).None? ==> IsEmpty(a, column)
  {
    if Cell(a, column).Some? {
      var _ := Trim(Cell(a, column).value);
    }
  }

  /** The test behind `IsZeroOrEmpty`: blank text, exactly "0", or text
      that parses to zero. Text that is not blank and does not parse is
      not zero-or-empty. The text is parsed as it stands, spaces included. */
  function ZeroOrEmptyText(env: Env, c: Option<string>): (b: bool)
    ensures IsNullOrWhiteSpace(c) ==> b
    ensures c == Some("0") ==> b
    ensures c.Some? && !IsNullOrWhiteSpace(c) && c.value != "0" ==> (b <==> env.parse(c.value) == Some(0.0))
    ensures c.Some? && !IsNullOrWhiteSpace(c) && env.parse(c.value).None? ==> (b <==> c.value == "0")
  {
    if IsNullOrWhiteSpace(c) then true
    else if c.value == "0" then true
    else match env.parse(c.value)
      case Some(v) => v == 0.0
      case None => false
  }

  /** `IsZeroOrEmpty` at the cursor row. Never throws. */
  predicate IsZeroOrEmpty(a: Assert, column: Column) {
    ZeroOrEmptyText(a.env, Cell(a, column))
  }

  /** `IsNotZeroOrEmpty`: the exact negation. */
  predicate IsNotZeroOrEmpty(a: Assert, column: Column) {
    !IsZeroOrEmpty(a, column)
  }

  /** An empty cell is zero-or-empty, so a cell that is not zero-or-empty
      is not empty; a cell holding exactly "0" is zero-or-empty. */
  lemma ZeroOrEmptySpec(a: Assert, column: Column)
    ensures IsEmpty(a, column) ==> IsZeroOrEmpty(a, column)
    ensures IsNotZeroOrEmpty(a, column) ==> IsNotEmpty(a, column)
    ensures Cell(a, column) == Some("0") ==> IsZeroOrEmpty(a, column)
  {
  }

  /** `IsEqual`: exact, untrimmed, case-sensitive equality, so a null cell
      equals no text, not even "". */
  function IsEqual(a: Assert, column: Column, value: string): (b: bool)
    ensures b <==> Cell(a, column).Some? && Cell(a, column).value == value
    ensures Cell(a, column).None? ==> !b
  {
    Cell(a, column) == Some(value)
  }

  /** `IsNotEqual`: the exact negation, so it holds for a null cell. */
  function IsNotEqual(a: Assert, column: Column, value: string): (b: bool)
    ensures Cell(a, column).None? ==> b
    ensures b <==> !IsEqual(a, column, value)
  {
    !IsEqual(a, column, value)
  }

  /** `IsContains`: the lower-cased cell contains the lower-cased value;
      lower-casing a null cell throws. */
  function IsContains(a: Assert, column: Column, value: string): (r: Try<bool>)
    ensures r.Threw? <==> Cell(a, column).None?
    ensures r.Done? ==> (r.value <==> exists i :: OccursAt(a.env.lower(Cell(a, column).value), a.env.lower(value), i))
  {
    match Cell(a, column)
    case None => Threw
    case Some(s) => Done(Contains(a.env.lower(s), a.env.lower(value)))
  }

  // ------------------------------------------------------------ cell tests

  /** `s.StartsWith(prefix)`; a null cell throws. */
  function StartsWithTest(prefix: string, c: Option<string>): (r: Try<bool>)
    ensures r.Threw? <==> c.None?
    ensures r.Done? ==> (r.value <==> OccursAt(c.value, prefix, 0))
  {
    if c.None? then Threw else Done(prefix <= c.value)
  }

  /** `s.Contains(sub)`, ordinal; a null cell throws. */
  function HasTextTest(sub: string, c: Option<string>): (r: Try<bool>)
    ensures r.Threw? <==> c.None?
    ensures r.Done? ==> (r.value <==> exists i :: OccursAt(c.value, sub, i))
  {
    if c.None? then Threw else Done(Contains(c.value, sub))
  }

  /** `HashSet<string>.Contains(s)`: a null cell is in no set. */
  function InSetTest(members: set<string>, c: Option<string>): (r: Try<bool>)
    ensures r.Done?
    ensures r.value <==> c.Some? && c.value in members
  {
    Done(c.Some? && c.value in members)
  }

  /** `s != "нет" && !string.IsNullOrWhiteSpace(s)`. */
  function FilledNotNoTest(c: Option<string>): (r: Try<bool>)
    ensures r.Done?
    ensures r.value <==> c.Some? && c.value != "нет" && !AllWhiteSpace(c.value)
  {
    Done(c != Some("нет") && !IsNullOrWhiteSpace(c))
  }

  /** `s == "Реконструкция" || s == "Ремонт"`. */
  function RebuildTest(c: Option<string>): (r: Try<bool>)
    ensures r.Done?
    ensures r.value <==> c == Some("Реконструкция") || c == Some("Ремонт")
  {
    Done(c == Some("Реконструкция") || c == Some("Ремонт"))
  }

  /** The lower-cased note mentions a sale without auction or a direct
      sale; lower-casing a null cell throws. */
  function DirectSaleTest(env: Env, c: Option<string>): (r: Try<bool>)
    ensures r.Threw? <==> c.None?
    ensures r.Done? ==> (r.value <==>
              (exists i :: OccursAt(env.lower(c.value), "продажа без торгов", i)) || (exists i :: OccursAt(env.lower(c.value), "прямая продажа", i)))
  {
    if c.None? then Threw
    else
      var sl := env.lower(c.value);
      Done(Contains(sl, "продажа без торгов") || Contains(sl, "прямая продажа"))
  }

  // ------------------------------------------------------------ assertions

  /** The explanation a failing assertion stores: the callback applied to
      the cell, or null without a callback. */
  function Explanation(a: Assert, column: Column, y: nat, cb: Option<Explainer>): Option<string> {
    if cb.Some? then Some(cb.value(At(a.t, column, y))) else None
  }

  /** `That(column, y, goodPredicate, explainCallback)`: nothing when the
      test holds at row `y`; exactly one problem at (`column`, `y`) when it
      fails; a throw when the test throws. */
  function That(a: Assert, column: Column, y: nat, p: CellTest, cb: Option<Explainer>): (r: Log)
    ensures Is(a, column, y, p).Threw? ==> r == Abort
    ensures Is(a, column, y, p) == Done(true) ==> r == Pass
    ensures Is(a, column, y, p) == Done(false) ==> r == Log([Note(column, y, Explanation(a, column, y, cb))], false)
    ensures r.threw <==> Is(a, column, y, p).Threw?
    ensures |r.notes| <= 1
    ensures !r.threw ==> (r.notes == [] <==> Is(a, column, y, p) == Done(true))
    ensures forall n :: n in r.notes ==> n.column == column && n.y == y
  {
    match Is(a, column, y, p)
    case Threw => Abort
    case Done(ok) => if ok then Pass else Log([Note(column, y, Explanation(a, column, y, cb))], false)
  }

  /** `That(column, goodPredicate, explainCallback)` at the cursor row. */
  function ThatHere(a: Assert, column: Column, p: CellTest, cb: Option<Explainer>): (r: Log)
    ensures IsHere(a, column, p).Threw? <==> r.threw
    ensures r.threw ==> r == Abort
    ensures |r.notes| <= 1
    ensures !r.threw ==> (r.notes == [] <==> IsHere(a, column, p) == Done(true))
    ensures forall n :: n in r.notes ==> n == Note(column, a.y, Explanation(a, column, a.y, cb))
  {
    That(a, column, a.y, p, cb)
  }

  /** `That(column, explanation)`: one problem at the cursor row, always. */
  function Explain(a: Assert, column: Column, explanation: string): (r: Log)
    ensures r == Log([Note(column, a.y, Some(explanation))], false)
  {
    MarkOnce(column, a.y, explanation)
  }

  /** The outcome of an assertion that cannot throw: nothing when `ok`,
      otherwise exactly `note`. */
  predicate Verdict(r: Log, ok: bool, note: Note) {
    && !r.threw
    && (ok ==> r.notes == [])
    && (!ok ==> r.notes == [note])
  }

  function EqualMessage(value: string, actual: Option<string>): string {
    "Ожидалось '" + value + "', но получено '" + Shown(actual) + "'"
  }

  function NotEqualMessage(value: string, actual: Option<string>): string {
    "Ожидалось НЕ '" + value + "', но получено '" + Shown(actual) + "'"
  }

  function EmptyMessage(actual: Option<string>): string {
    "Ожидалось <пусто>, но получено '" + Shown(actual) + "'"
  }

  function NotEmptyMessage(actual: Option<string>): string {
    "Ожидалось НЕ <пусто>, но получено '" + Shown(actual) + "'"
  }

  function ZeroOrEmptyMessage(actual: Option<string>): string {
    "Ожидалось 0 или <пусто>, но получено '" + Shown(actual) + "'"
  }

  function NotZeroOrEmptyMessage(actual: Option<string>): string {
    "Ожидалось НЕ 0 и НЕ <пусто>, но получено '" + Shown(actual) + "'"
  }

  function ContainsMessage(str: string): string {
    "Ожидалось, что ячейка будет содержать '" + str + "'"
  }

  function NotContainsMessage(str: string): string {
    "Ожидалось, что ячейка НЕ будет содержать '" + str + "'"
  }

  /** `Equal(column, y, value)`: the verdict is taken at the cursor row,
      but the problem and the cell shown in its explanation are at row `y`. */
  function EqualAt(a: Assert, column: Column, y: nat, value: string): (r: Log)
    ensures Verdict(r, IsEqual(a, column, value), Note(column, y, Some(EqualMessage(value, At(a.t, column, y)))))
  {
    That(a, column, y, _ => Done(IsEqual(a, column, value)), Some(c => EqualMessage(value, c)))
  }

  /** `Equal(column, value)` at the cursor row. */
  function Equal(a: Assert, column: Column, value: string): (r: Log)
    ensures Verdict(r, IsEqual(a, column, value), Note(column, a.y, Some(EqualMessage(value, Cell(a, column)))))
  {
    EqualAt(a, column, a.y, value)
  }

  /** `NotEqual(column, y, value)`: verdict at the cursor, problem at `y`. */
  function NotEqualAt(a: Assert, column: Column, y: nat, value: string): (r: Log)
    ensures Verdict(r, IsNotEqual(a, column, value), Note(column, y, Some(NotEqualMessage(value, At(a.t, column, y)))))
  {
    That(a, column, y, _ => Done(IsNotEqual(a, column, value)), Some(c => NotEqualMessage(value, c)))
  }

  function NotEqual(a: Assert, column: Column, value: string): (r: Log)
    ensures Verdict(r, IsNotEqual(a, column, value), Note(column, a.y, Some(NotEqualMessage(value, Cell(a, column)))))
  {
    NotEqualAt(a, column, a.y, value)
  }

  /** `Empty(column, y)`: verdict at the cursor, problem at `y`. */
  function EmptyAt(a: Assert, column: Column, y: nat): (r: Log)
    ensures Verdict(r, IsEmpty(a, column), Note(column, y, Some(EmptyMessage(At(a.t, column, y)))))
  {
    That(a, column, y, _ => Done(IsEmpty(a, column)), Some(c => EmptyMessage(c)))
  }

  function Empty(a: Assert, column: Column): (r: Log)
    ensures Verdict(r, IsEmpty(a, column), Note(column, a.y, Some(EmptyMessage(Cell(a, column)))))
  {
    EmptyAt(a, column, a.y)
  }

  function NotEmpty(a: Assert, column: Column): (r: Log)
    ensures Verdict(r, IsNotEmpty(a, column), Note(column, a.y, Some(NotEmptyMessage(Cell(a, column)))))
  {
    ThatHere(a, column, _ => Done(IsNotEmpty(a, column)), Some(c => NotEmptyMessage(c)))
  }

  function ZeroOrEmpty(a: Assert, column: Column): (r: Log)
    ensures Verdict(r, IsZeroOrEmpty(a, column), Note(column, a.y, Some(ZeroOrEmptyMessage(Cell(a, column)))))
  {
    That(a, column, a.y, _ => Done(IsZeroOrEmpty(a, column)), Some(c => ZeroOrEmptyMessage(c)))
  }

  /** `NotZeroOrEmpty(column, explanation)`: the given callback explains a
      failure, the standard message when none is given. */
  function NotZeroOrEmptyWith(a: Assert, column: Column, cb: Option<Explainer>): (r: Log)
    ensures Verdict(r, IsNotZeroOrEmpty(a, column),
                    Note(column, a.y, Some(if cb.Some? then cb.value(Cell(a, column)) else NotZeroOrEmptyMessage(Cell(a, column)))))
  {
    var explain: Explainer := if cb.Some? then cb.value else c => NotZeroOrEmptyMessage(c);
    That(a, column, a.y, _ => Done(IsNotZeroOrEmpty(a, column)), Some(explain))
  }

  function NotZeroOrEmpty(a: Assert, column: Column): (r: Log)
    ensures Verdict(r, IsNotZeroOrEmpty(a, column), Note(column, a.y, Some(NotZeroOrEmptyMessage(Cell(a, column)))))
  {
    NotZeroOrEmptyWith(a, column, None)
  }

  /** `Contains(column, str)`: throws on a null cell, like `IsContains`. */
  function ContainsAssert(a: Assert, column: Column, str: string): (r: Log)
    ensures r.threw <==> Cell(a, column).None?
    ensures r.threw ==> r == Abort
    ensures !r.threw ==> Verdict(r, IsContains(a, column, str).value, Note(column, a.y, Some(ContainsMessage(str))))
  {
    That(a, column, a.y, _ => IsContains(a, column, str), Some(_ => ContainsMessage(str)))
  }

  /** `NotContains(column, str)`: its test is `IsContains(...) == false`,
      so it throws on a null cell too. */
  function NotContains(a: Assert, column: Column, str: string): (r: Log)
    ensures r.threw <==> Cell(a, column).None?
    ensures r.threw ==> r == Abort
    ensures !r.threw ==> Verdict(r, !IsContains(a, column, str).value, Note(column, a.y, Some(NotContainsMessage(str))))
  {
    That(a, column, a.y, _ => match IsContains(a, column, str) case Threw => Threw case Done(b) => Done(!b), Some(_ => NotContainsMessage(str)))
  }

  // ---------------------------------------------------- properties

  /** Every assertion with an explicit row decides from the cursor row
      only: moving `y` changes where a problem is recorded, never whether. */
  lemma ExplicitRowDecidesAtCursor(a: Assert, column: Column, y1: nat, y2: nat, value: string)
    ensures (EqualAt(a, column, y1, value).notes == []) == (EqualAt(a, column, y2, value).notes == [])
    ensures (NotEqualAt(a, column, y1, value).notes == []) == (NotEqualAt(a, column, y2, value).notes == [])
    ensures (EmptyAt(a, column, y1).notes == []) == (EmptyAt(a, column, y2).notes == [])
  {
  }

  /** The cursor reads of an assertion are those of the matching probe:
      each assertion passes exactly when its probe says so, and fails with
      one problem otherwise; the negated pairs fail on opposite cells. */
  lemma AssertionsFollowProbes(a: Assert, column: Column, value: string)
    ensures Equal(a, column, value).notes == [] <==> IsEqual(a, column, value)
    ensures NotEqual(a, column, value).notes == [] <==> !IsEqual(a, column, value)
    ensures Empty(a, column).notes == [] <==> IsEmpty(a, column)
    ensures NotEmpty(a, column).notes == [] <==> !IsEmpty(a, column)
    ensures ZeroOrEmpty(a, column).notes == [] <==> IsZeroOrEmpty(a, column)
    ensures NotZeroOrEmpty(a, column).notes == [] <==> !IsZeroOrEmpty(a, column)
    ensures |Equal(a, column, value).notes| + |NotEqual(a, column, value).notes| == 1
    ensures |Empty(a, column).notes| + |NotEmpty(a, column).notes| == 1
    ensures |ZeroOrEmpty(a, column).notes| + |NotZeroOrEmpty(a, column).notes| == 1
  {
  }

  /** On a non-null cell exactly one of `Contains` and `NotContains` fails. */
  lemma ContainsPair(a: Assert, column: Column, str: string)
    requires Cell(a, column).Some?
    ensures |ContainsAssert(a, column, str).notes| + |NotContains(a, column, str).notes| == 1
  {
  }

  /** A zero that parses is zero-or-empty however it is written, and a
      blank cell is zero-or-empty whatever the parser does with it. */
  lemma ZeroOrEmptyCases(env: Env, text: string)
    ensures env.parse(text) == Some(0.0) ==> ZeroOrEmptyText(env, Some(text))
    ensures AllWhiteSpace(text) ==> ZeroOrEmptyText(env, Some(text))
    ensures ZeroOrEmptyText(env, None)
  {
  }
}
