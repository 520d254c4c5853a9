/** `Program.ExportProblems` without the sheet writes: the report adds a
    count column and a description column after the table's columns, and
    for every sheet row with problems it fills in the number of problems,
    a description listing them, and one comment per column that has
    problems in that row. Here the report is the text those writes would
    put in the sheet. */
module Export {
  import opened Basics
  import opened Text
  import opened MetaTable
  import opened Grouping
  import opened Results
  import opened Asserts
  import opened Contexts

  const CountHeader: string := "Количество проблем"
  const DescriptionHeader: string := "Описание проблем"

  /** The table already has a column the export would write. */
  predicate HasExportColumns(t: Table) {
    exists i :: 0 <= i < |t.columns| && (t.columns[i].name == CountHeader || t.columns[i].name == DescriptionHeader)
  }

  /** The text written for one sheet row: the row, its problem count, its
      description, and the comment placed on each column with problems. */
  datatype RowReport = RowReport(row: nat, count: string, description: string, comments: map<nat, string>)

  /** Where the two new columns go, and what goes in each row. */
  datatype Report = Report(countX: nat, descriptionX: nat, rows: seq<RowReport>)

  // ------------------------------------------------------------ buckets

  /** The problems of a context that ran; a context still ready to run
      contributes nothing. */
  function Contribution(c: Context): seq<Problem> {
    if c.status == ReadyToRun then [] else c.result.problems
  }

  /** The reported problems: those of every context that ran, in context
      order and then in recording order. */
  function Reported(cs: seq<Context>): seq<Problem> {
    if |cs| == 0 then [] else Reported(cs[..|cs| - 1]) + Contribution(cs[|cs| - 1])
  }

  /** A problem is reported exactly when a context that ran recorded it;
      contexts still ready to run contribute nothing. */
  lemma {:induction false} ReportedSpec(cs: seq<Context>)
    ensures forall p :: p in Reported(cs) <==> exists i :: 0 <= i < |cs| && cs[i].status != ReadyToRun && p in cs[i].result.problems
  {
    if |cs| > 0 {
      var prefix := cs[..|cs| - 1];
      ReportedSpec(prefix);
      assert forall i :: 0 <= i < |cs| - 1 ==> prefix[i] == cs[i];
    }
  }

  /** The sheet row of every reported problem: the table row plus one. */
  function Rows(ps: seq<Problem>): seq<nat> {
    seq(|ps|, k requires 0 <= k < |ps| => ps[k].y + 1)
  }

  /** `problemsByRow`: the reported problems' positions grouped by sheet
      row, rows in order of first appearance. */
  function Buckets(ps: seq<Problem>): (gs: seq<Group<nat>>)
    ensures forall j, k :: 0 <= j < |gs| && 0 <= k < |gs[j].members| ==> gs[j].members[k] < |ps|
  {
    GroupByInRange(Rows(ps));
    GroupBy(Rows(ps))
  }

  /** Adding a problem adds its row at the end. */
  lemma RowsAppend(ps: seq<Problem>, p: Problem)
    ensures Rows(ps + [p]) == Rows(ps) + [p.y + 1]
  {
    assert (ps + [p])[..|ps|] == ps;
  }

  /** Every reported problem lands in exactly one bucket, the one of its
      row, and no two buckets share a row. */
  lemma BucketsPartition(cs: seq<Context>)
    ensures Distinct(Keys(Buckets(Reported(cs))))
    ensures forall j, k :: 0 <= j < |Buckets(Reported(cs))| && 0 <= k < |Reported(cs)| ==>
              (k in Buckets(Reported(cs))[j].members <==> Reported(cs)[k].y + 1 == Buckets(Reported(cs))[j].key)
    ensures forall k :: 0 <= k < |Reported(cs)| ==>
              exists j :: 0 <= j < |Buckets(Reported(cs))| && Buckets(Reported(cs))[j].key == Reported(cs)[k].y + 1
  {
    var ps := Reported(cs);
    var ks := Rows(ps);
    var gs := Buckets(ps);
    assert gs == GroupBy(ks);
    if |ps| == 0 {
      assert gs == [];
    }
    forall k | 0 <= k < |ps|
      ensures exists j :: 0 <= j < |gs| && gs[j].key == ps[k].y + 1
      ensures forall j :: 0 <= j < |gs| ==> (k in gs[j].members <==> ps[k].y + 1 == gs[j].key)
    {
      assert ks[k] == ps[k].y + 1;
      EachPositionInOneGroup(ks, k);
    }
    if |ps| > 0 {
      EachPositionInOneGroup(ks, 0);
    }
  }

  /** The bucket sizes add up to the number of reported problems, and there
      is one bucket per distinct row. */
  lemma BucketsCount(cs: seq<Context>)
    ensures SumSizes(Buckets(Reported(cs))) == |Reported(cs)|
    ensures |Buckets(Reported(cs))| == |set p | p in Reported(cs) :: p.y + 1|
  {
    var ps := Reported(cs);
    var ks := Rows(ps);
    assert Buckets(ps) == GroupBy(ks);
    GroupByTotal(ks);
    GroupByCount(ks);
    var b: set<nat> := set p | p in ps :: p.y + 1;
    forall k | k in ks ensures k in b {
      var i :| 0 <= i < |ks| && ks[i] == k;
      assert ps[i] in ps;
    }
    forall k | k in b ensures k in ks {
      var p :| p in ps && k == p.y + 1;
      var i :| 0 <= i < |ps| && ps[i] == p;
      assert ks[i] == k;
    }
    GroupByCountOf<nat>(ks, b);
  }

  // ------------------------------------------------------------ text

  /** One line of a row's description: the rule, the column, the
      explanation (nothing for a null one), and a line break. */
  function DescriptionLine(p: Problem, nl: string): (line: string)
    ensures |line| > |p.rule| + 2 && line[..|p.rule| + 2] == "[" + p.rule + ":"
  {
    "[" + p.rule + ":'" + p.column.name + "']: " + Shown(p.explanation) + nl
  }

  /** One line of a column's comment: the rule, the explanation, and a
      line break. */
  function CommentLine(p: Problem, nl: string): (line: string)
    ensures |line| > |p.rule| + 2 && line[..|p.rule| + 2] == "[" + p.rule + "]"
  {
    "[" + p.rule + "] " + Shown(p.explanation) + nl
  }

  /** The description of the problems at positions `ms`, in order. */
  function Description(ps: seq<Problem>, ms: seq<nat>, nl: string): string
    requires forall k :: 0 <= k < |ms| ==> ms[k] < |ps|
  {
    if |ms| == 0 then ""
    else Description(ps, ms[..|ms| - 1], nl) + DescriptionLine(ps[ms[|ms| - 1]], nl)
  }

  /** The comment text of column `x` for the problems at positions `ms`:
      the lines of those in column `x`, in order. */
  function CommentFor(ps: seq<Problem>, ms: seq<nat>, x: nat, nl: string): string
    requires forall k :: 0 <= k < |ms| ==> ms[k] < |ps|
  {
    if |ms| == 0 then ""
    else
      var p := ps[ms[|ms| - 1]];
      CommentFor(ps, ms[..|ms| - 1], x, nl) + (if p.column.x == x then CommentLine(p, nl) else "")
  }

  /** The columns of the problems at positions `ms`. */
  function ColumnsOf(ps: seq<Problem>, ms: seq<nat>): (xs: set<nat>)
    requires forall k :: 0 <= k < |ms| ==> ms[k] < |ps|
    ensures forall x :: x in xs <==> exists k :: 0 <= k < |ms| && ps[ms[k]].column.x == x
  {
    set k | 0 <= k < |ms| :: ps[ms[k]].column.x
  }

  /** The columns a row's problems sit in are exactly the columns whose
      comment text is not empty, so every comment written lands in one of
      them and none of them is left without one. */
  lemma ColumnsOfComments(ps: seq<Problem>, ms: seq<nat>, nl: string)
    requires forall k :: 0 <= k < |ms| ==> ms[k] < |ps|
    ensures forall x :: x in ColumnsOf(ps, ms) <==> CommentFor(ps, ms, x, nl) != ""
  {
    forall x ensures x in ColumnsOf(ps, ms) <==> CommentFor(ps, ms, x, nl) != "" {
      CommentForEmpty(ps, ms, x, nl);
    }
  }

  /** A column's comment is empty exactly when none of the problems is in
      that column. */
  lemma {:induction false} CommentForEmpty(ps: seq<Problem>, ms: seq<nat>, x: nat, nl: string)
    requires forall k :: 0 <= k < |ms| ==> ms[k] < |ps|
    ensures CommentFor(ps, ms, x, nl) == "" <==> forall k :: 0 <= k < |ms| ==> ps[ms[k]].column.x != x
  {
    if |ms| > 0 {
      var prefix := ms[..|ms| - 1];
      CommentForEmpty(ps, prefix, x, nl);
      assert forall k :: 0 <= k < |ms| - 1 ==> prefix[k] == ms[k];
    }
  }

  /** Descriptions of consecutive runs of problems concatenate. */
  lemma {:induction false} DescriptionAppend(ps: seq<Problem>, a: seq<nat>, b: seq<nat>, nl: string)
    requires forall k :: 0 <= k < |a| ==> a[k] < |ps|
    requires forall k :: 0 <= k < |b| ==> b[k] < |ps|
    ensures forall k :: 0 <= k < |a + b| ==> (a + b)[k] < |ps|
    ensures Description(ps, a + b, nl) == Description(ps, a, nl) + Description(ps, b, nl)
    decreases |b|
  {
    if |b| > 0 {
      var b' := b[..|b| - 1];
      DescriptionAppend(ps, a, b', nl);
      assert (a + b)[..|a + b| - 1] == a + b';
    } else {
      assert a + b == a;
    }
  }

  /** The text of one bucket: its row, its size in decimal, its
      description, and a comment for each column it has problems in. */
  function RowOf(ps: seq<Problem>, g: Group<nat>, nl: string): (r: RowReport)
    requires forall k :: 0 <= k < |g.members| ==> g.members[k] < |ps|
    ensures r.row == g.key
    ensures ParseNat(r.count) == Some(|g.members|)
    ensures forall x :: x in r.comments <==> exists k :: 0 <= k < |g.members| && ps[g.members[k]].column.x == x
  {
    NatTextRoundTrip(|g.members|);
    RowReport(g.key, NatText(|g.members|), Description(ps, g.members, nl),
              map x | x in ColumnsOf(ps, g.members) :: CommentFor(ps, g.members, x, nl))
  }

  /** The report the export writes, or `Threw` when the table already has
      one of its columns. */
  function ReportOf(cs: seq<Context>, t: Table, nl: string): (r: Try<Report>)
    ensures r.Threw? <==> HasExportColumns(t)
    ensures r.Done? ==> r.value.countX == |t.columns| && r.value.descriptionX == |t.columns| + 1
    ensures r.Done? ==> |r.value.rows| == |Buckets(Reported(cs))|
    ensures r.Done? ==> forall j :: 0 <= j < |r.value.rows| ==>
              r.value.rows[j] == RowOf(Reported(cs), Buckets(Reported(cs))[j], nl)
  {
    if HasExportColumns(t) then Threw
    else
      var ps := Reported(cs);
      var gs := Buckets(ps);
      Done(Report(|t.columns|, |t.columns| + 1, seq(|gs|, j requires 0 <= j < |gs| => RowOf(ps, gs[j], nl))))
  }

  // ------------------------------------------------------------ the loops

  /** The inner bucketing loop: each problem of one context goes to the
      bucket of its row. */
  method AddProblems(ps: seq<Problem>, byRow: seq<Group<nat>>, problems: seq<Problem>)
    returns (ps': seq<Problem>, byRow': seq<Group<nat>>)
    requires byRow == GroupBy(Rows(ps))
    ensures ps' == ps + problems
    ensures byRow' == GroupBy(Rows(ps'))
  {
    ps', byRow' := ps, byRow;
    for k := 0 to |problems|
      invariant ps' == ps + problems[..k]
      invariant byRow' == GroupBy(Rows(ps'))
    {
      var p := problems[k];
      BucketOne(ps', p);
      byRow' := Insert(byRow', p.y + 1, |ps'|);
      ps' := ps' + [p];
      assert problems[..k + 1] == problems[..k] + [p];
    }
    assert problems[..|problems|] == problems;
  }

  /** One more problem joins the bucket of its row, at the next position. */
  lemma BucketOne(ps: seq<Problem>, p: Problem)
    ensures GroupBy<nat>(Rows(ps + [p])) == Insert<nat>(GroupBy<nat>(Rows(ps)), p.y + 1, |ps|)
  {
    var ks: seq<nat> := Rows(ps);
    var y: nat := p.y + 1;
    RowsAppend(ps, p);
    assert Rows(ps + [p]) == ks + [y];
    GroupByAppend<nat>(ks, y);
  }

  /** The bucketing loop: every problem of every context that ran goes to
      the bucket of its row. */
  method BucketProblems(cs: seq<Context>) returns (ps: seq<Problem>, byRow: seq<Group<nat>>)
    ensures ps == Reported(cs)
    ensures byRow == Buckets(ps)
  {
    ps, byRow := [], [];
    for i := 0 to |cs|
      invariant ps == Reported(cs[..i])
      invariant byRow == GroupBy(Rows(ps))
    {
      assert cs[..i + 1][..i] == cs[..i];
      if cs[i].status != ReadyToRun {
        ps, byRow := AddProblems(ps, byRow, cs[i].result.problems);
      }
    }
    assert cs[..|cs|] == cs;
  }

  /** One pass of the report loop: the description is built afresh, the
      comment builders collect this row's lines by column, the non-empty
      ones become comments, and then every builder is emptied. */
  method WriteRow(ps: seq<Problem>, g: Group<nat>, builders: map<nat, string>, nl: string)
    returns (row: RowReport, builders': map<nat, string>)
    requires forall k :: 0 <= k < |g.members| ==> g.members[k] < |ps|
    requires forall x :: x in builders ==> builders[x] == ""
    ensures row == RowOf(ps, g, nl)
    ensures forall x :: x in builders' ==> builders'[x] == ""
  {
    var b;
    b, builders' := CollectRow(ps, g.members, builders, nl);
    var comments := map x | x in builders' && builders'[x] != "" :: builders'[x];
    forall x ensures x in comments <==> x in ColumnsOf(ps, g.members) {
      CommentForEmpty(ps, g.members, x, nl);
    }
    row := RowReport(g.key, NatText(|g.members|), b, comments);
    builders' := map x | x in builders' :: "";
  }

  /** The inner loop of a row: the description gets one line per problem,
      and each problem's line is added to the builder of its column, a
      builder being created the first time its column is met. */
  method CollectRow(ps: seq<Problem>, ms: seq<nat>, builders: map<nat, string>, nl: string)
    returns (b: string, builders': map<nat, string>)
    requires forall k :: 0 <= k < |ms| ==> ms[k] < |ps|
    requires forall x :: x in builders ==> builders[x] == ""
    ensures b == Description(ps, ms, nl)
    ensures forall x :: x in builders' ==> builders'[x] == CommentFor(ps, ms, x, nl)
    ensures forall x :: CommentFor(ps, ms, x, nl) != "" ==> x in builders'
  {
    b := "";
    builders' := builders;
    for k := 0 to |ms|
      invariant b == Description(ps, ms[..k], nl)
      invariant forall x :: x in builders' ==> builders'[x] == CommentFor(ps, ms[..k], x, nl)
      invariant forall x :: CommentFor(ps, ms[..k], x, nl) != "" ==> x in builders'
    {
      assert ms[..k + 1][..k] == ms[..k];
      var p := ps[ms[k]];
      b := b + DescriptionLine(p, nl);
      if p.column.x !in builders' {
        builders' := builders'[p.column.x := ""];
      }
      builders' := builders'[p.column.x := builders'[p.column.x] + CommentLine(p, nl)];
    }
    assert ms[..|ms|] == ms;
  }

  /** The overwrite guard: a scan of the header row for either name. */
  method FindExportColumn(t: Table) returns (found: bool)
    ensures found <==> HasExportColumns(t)
  {
    for i := 0 to |t.columns|
      invariant forall j :: 0 <= j < i ==> t.columns[j].name != CountHeader && t.columns[j].name != DescriptionHeader
    {
      if t.columns[i].name == CountHeader || t.columns[i].name == DescriptionHeader {
        return true;
      }
    }
    return false;
  }

  /** The report loop: one row per bucket, in bucket order, with the
      comment builders carried from row to row. */
  method WriteRows(ps: seq<Problem>, byRow: seq<Group<nat>>, nl: string) returns (rows: seq<RowReport>)
    requires forall j, k :: 0 <= j < |byRow| && 0 <= k < |byRow[j].members| ==> byRow[j].members[k] < |ps|
    ensures |rows| == |byRow|
    ensures forall j :: 0 <= j < |byRow| ==> rows[j] == RowOf(ps, byRow[j], nl)
  {
    rows := [];
    var builders: map<nat, string> := map[];
    for j := 0 to |byRow|
      invariant |rows| == j
      invariant forall q :: 0 <= q < j ==> rows[q] == RowOf(ps, byRow[q], nl)
      invariant forall x :: x in builders ==> builders[x] == ""
    {
      var row;
      row, builders := WriteRow(ps, byRow[j], builders, nl);
      rows := rows + [row];
    }
  }

  /** `ExportProblems`: the overwrite guard, the bucketing loop, and the
      report loop. */
  method ExportProblems(cs: seq<Context>, t: Table, nl: string) returns (r: Try<Report>)
    ensures r.Threw? <==> HasExportColumns(t)
    ensures r.Done? ==> ReportOf(cs, t, nl) == r
  {
    var found := FindExportColumn(t);
    if found {
      return Threw;
    }
    var ps, byRow := BucketProblems(cs);
    var rows := WriteRows(ps, byRow, nl);
    r := Done(Report(|t.columns|, |t.columns| + 1, rows));
    assert ReportOf(cs, t, nl).value.rows == rows;
  }
}
