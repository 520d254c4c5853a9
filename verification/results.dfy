/** The problem store (`Result`, `Problem`) and the record a rule body
    leaves behind when it runs. A rule body is a pure function here: it
    returns the `Mark` calls it made, in order, and whether it then threw.
    Running the body replays those calls against the context's `Result`. */
module Results {
  import opened Basics
  import opened Text
  import opened MetaTable

  /** The arguments of one `Result.Mark` call: the column, the table row,
      and the explanation (`None` for a null explanation). */
  datatype Note = Note(column: Column, y: nat, explanation: Option<string>)

  /** What a rule body (or any part of one) did: the problems it recorded,
      in order, and whether it ended by throwing. Problems recorded before
      a throw are part of the log. */
  datatype Log = Log(notes: seq<Note>, threw: bool)

  /** Nothing recorded, nothing thrown. */
  const Pass := Log([], false)

  /** A throw before anything was recorded. */
  const Abort := Log([], true)

  /** A record of exactly one `Mark` call. */
  function MarkOnce(column: Column, y: nat, explanation: string): (r: Log)
    ensures !r.threw && |r.notes| == 1
    ensures r.notes[0].column == column && r.notes[0].y == y
    ensures r.notes[0].explanation == Some(explanation)
  {
    Log([Note(column, y, Some(explanation))], false)
  }

  /** Statement sequencing: `b` runs only when `a` returned normally. */
  function Then(a: Log, b: Log): (r: Log)
    ensures a.threw ==> r == a
    ensures !a.threw ==> r.notes == a.notes + b.notes && r.threw == b.threw
  {
    if a.threw then a else Log(a.notes + b.notes, b.threw)
  }

  /** Sequencing is a monoid with `Pass` as its unit, and an exception
      discards whatever would have run after it. */
  lemma ThenLaws(a: Log, b: Log, c: Log)
    ensures Then(Pass, a) == a && Then(a, Pass) == a
    ensures Then(Abort, a) == Abort
    ensures Then(Then(a, b), c) == Then(a, Then(b, c))
  {
    assert a.notes + [] == a.notes;
    if !a.threw && !b.threw {
      assert (a.notes + b.notes) + c.notes == a.notes + (b.notes + c.notes);
    }
  }

  /** A block of statements run one after another. */
  function Chain(logs: seq<Log>): Log {
    if |logs| == 0 then Pass else Then(logs[0], Chain(logs[1..]))
  }

  /** Running two blocks one after the other is running the block made of
      both: the statements' grouping does not matter. */
  lemma {:induction false} ChainAppend(a: seq<Log>, b: seq<Log>)
    ensures Chain(a + b) == Then(Chain(a), Chain(b))
  {
    if |a| == 0 {
      assert a + b == b;
      ThenLaws(Chain(b), Pass, Pass);
    } else {
      ChainAppend(a[1..], b);
      assert (a + b)[0] == a[0] && (a + b)[1..] == a[1..] + b;
      ThenLaws(a[0], Chain(a[1..]), Chain(b));
    }
  }

  /** The notes of several logs, one after another. */
  function Flatten(logs: seq<Log>): (r: seq<Note>)
    ensures |logs| == 0 ==> r == []
  {
    if |logs| == 0 then [] else logs[0].notes + Flatten(logs[1..])
  }

  lemma {:induction false} FlattenAppend(a: seq<Log>, b: seq<Log>)
    ensures Flatten(a + b) == Flatten(a) + Flatten(b)
  {
    if |a| > 0 {
      FlattenAppend(a[1..], b);
      assert (a + b)[1..] == a[1..] + b;
      assert Flatten(a + b) == a[0].notes + Flatten(a[1..] + b);
    } else {
      assert a + b == b;
    }
  }

  /** A block that runs to its end records everything its statements record. */
  lemma {:induction false} ChainNoThrow(logs: seq<Log>)
    requires forall i :: 0 <= i < |logs| ==> !logs[i].threw
    ensures Chain(logs) == Log(Flatten(logs), false)
  {
    if |logs| > 0 {
      ChainNoThrow(logs[1..]);
    }
  }

  /** A block whose statement `i` is the first to throw records what the
      statements up to and including `i` recorded, and then throws. */
  lemma {:induction false} ChainFirstThrow(logs: seq<Log>, i: nat)
    requires i < |logs| && logs[i].threw
    requires forall j :: 0 <= j < i ==> !logs[j].threw
    ensures Chain(logs) == Log(Flatten(logs[..i + 1]), true)
  {
    if i == 0 {
      assert logs[..1] == [logs[0]];
      assert Flatten(logs[..1]) == logs[0].notes + Flatten([]);
    } else {
      ChainFirstThrow(logs[1..], i - 1);
      assert logs[1..][..i] == logs[1..i + 1];
      assert logs[..i + 1] == [logs[0]] + logs[1..i + 1];
      assert Flatten(logs[..i + 1]) == logs[0].notes + Flatten(logs[1..i + 1]);
    }
  }

  /** One recorded problem. `rule` names the context that recorded it. */
  datatype Problem = Problem(column: Column, y: nat, explanation: Option<string>, rule: string)

  /** `Problem.ToString`: the quoted column name, the 1-based sheet row
      (table row `y` is sheet row `y + 1` counting from 0, so `y + 2`
      counting from 1), and the explanation after " - " when there is one. */
  function ProblemText(p: Problem): (r: string)
    ensures var head := "'" + p.column.name + "':";
            && |r| > |head| && r[..|head|] == head
            && IsDigit(r[|head|])
  {
    "'" + p.column.name + "':" + NatText(p.y + 2)
      + (if p.explanation.Some? then " - " + p.explanation.value else "")
  }

  /** The display text can be read back: after the quoted name come the
      decimal digits of the 1-based row and then exactly the explanation
      suffix. */
  lemma ProblemTextReadsBack(p: Problem)
    ensures var head := "'" + p.column.name + "':";
            var digits := NatText(p.y + 2);
            var r := ProblemText(p);
            && |r| >= |head| + |digits|
            && ParseNat(r[|head|..|head| + |digits|]) == Some(p.y + 2)
            && r[|head| + |digits|..] == (if p.explanation.Some? then " - " + p.explanation.value else "")
  {
    var head := "'" + p.column.name + "':";
    var digits := NatText(p.y + 2);
    var tail := if p.explanation.Some? then " - " + p.explanation.value else "";
    var r := ProblemText(p);
    assert r == head + digits + tail;
    assert r[|head|..|head| + |digits|] == digits;
    NatTextRoundTrip(p.y + 2);
  }

  /** The length of the leading run of decimal digits of `s`. */
  function DigitRun(s: string): (n: nat)
    ensures n <= |s|
  {
    if |s| > 0 && IsDigit(s[0]) then 1 + DigitRun(s[1..]) else 0
  }

  /** Digits followed by text that does not start with a digit: the digit
      run is exactly the digits, so the two can be told apart. */
  lemma {:induction false} DigitRunOf(d: string, t: string)
    requires forall i :: 0 <= i < |d| ==> IsDigit(d[i])
    requires |t| > 0 ==> !IsDigit(t[0])
    ensures DigitRun(d + t) == |d|
  {
    if |d| > 0 {
      assert (d + t)[1..] == d[1..] + t;
      DigitRunOf(d[1..], t);
    }
  }

  /** Problems of the same column with the same display text sit on the
      same row and carry the same explanation: the text determines both. */
  lemma ProblemTextInjective(p: Problem, q: Problem)
    requires ProblemText(p) == ProblemText(q)
    requires p.column.name == q.column.name
    ensures p.y == q.y && p.explanation == q.explanation
  {
    var head := "'" + p.column.name + "':";
    var dp, dq := NatText(p.y + 2), NatText(q.y + 2);
    var tp := if p.explanation.Some? then " - " + p.explanation.value else "";
    var tq := if q.explanation.Some? then " - " + q.explanation.value else "";
    assert ProblemText(p) == head + (dp + tp);
    assert ProblemText(q) == head + (dq + tq);
    assert dp + tp == ProblemText(p)[|head|..];
    assert dq + tq == ProblemText(q)[|head|..];
    DigitRunOf(dp, tp);
    DigitRunOf(dq, tq);
    assert dp == (dp + tp)[..|dp|];
    assert dq == (dq + tq)[..|dq|];
    NatTextInjective(p.y + 2, q.y + 2);
    assert tp == (dp + tp)[|dp|..];
    assert tq == (dq + tq)[|dq|..];
    if p.explanation.Some? {
      assert p.explanation.value == tp[3..];
      assert q.explanation.value == tq[3..];
    }
  }

  /** The problem store of one context: the owning rule's name, the
      recorded problems in order, and whether an exception was stored. */
  datatype Result = Result(owner: string, problems: seq<Problem>, exception: bool)

  /** `Result.IsGood`. */
  predicate IsGood(r: Result) {
    |r.problems| == 0
  }

  /** A fresh store: no problems, no exception. */
  function NewResult(owner: string): (r: Result)
    ensures IsGood(r) && !r.exception && r.owner == owner
  {
    Result(owner, [], false)
  }

  /** `b` is `a` with problems appended and nothing else changed. */
  predicate Extends(a: Result, b: Result) {
    && b.owner == a.owner
    && b.exception == a.exception
    && |a.problems| <= |b.problems|
    && b.problems[..|a.problems|] == a.problems
  }

  /** `Result.Mark`: appends one problem stamped with the owner, leaving
      the earlier problems as they were. */
  function Mark(r: Result, column: Column, y: nat, explanation: Option<string>): (r': Result)
    ensures Extends(r, r') && |r'.problems| == |r.problems| + 1
    ensures r'.problems[|r.problems|] == Problem(column, y, explanation, r.owner)
    ensures !IsGood(r')
  {
    r.(problems := r.problems + [Problem(column, y, explanation, r.owner)])
  }

  /** The problems a run of notes becomes in the store of `owner`. */
  function Stamp(notes: seq<Note>, owner: string): seq<Problem> {
    seq(|notes|, i requires 0 <= i < |notes| => Problem(notes[i].column, notes[i].y, notes[i].explanation, owner))
  }

  lemma StampCons(notes: seq<Note>, owner: string)
    requires |notes| > 0
    ensures Stamp(notes, owner) == [Problem(notes[0].column, notes[0].y, notes[0].explanation, owner)] + Stamp(notes[1..], owner)
  {
  }

  lemma StampAppend(a: seq<Note>, b: seq<Note>, owner: string)
    ensures Stamp(a + b, owner) == Stamp(a, owner) + Stamp(b, owner)
  {
  }

  /** Replays the `Mark` calls of a log, in order. */
  function MarkAll(r: Result, notes: seq<Note>): (r': Result)
    ensures Extends(r, r')
    ensures r'.problems == r.problems + Stamp(notes, r.owner)
    ensures IsGood(r') <==> IsGood(r) && |notes| == 0
    decreases |notes|
  {
    if |notes| == 0 then
      assert r.problems + Stamp(notes, r.owner) == r.problems;
      r
    else
      var n := notes[0];
      var m := Mark(r, n.column, n.y, n.explanation);
      StampCons(notes, r.owner);
      var r' := MarkAll(m, notes[1..]);
      assert r'.problems == r.problems + Stamp(notes, r.owner);
      r'
  }

  /** Appending is transitive, so a store only ever grows. */
  lemma ExtendsTransitive(a: Result, b: Result, c: Result)
    requires Extends(a, b) && Extends(b, c)
    ensures Extends(a, c)
  {
    assert c.problems[..|a.problems|] == c.problems[..|b.problems|][..|a.problems|];
  }

  /** Replaying two logs one after the other is replaying their notes
      together. */
  lemma {:induction false} MarkAllAppend(r: Result, a: seq<Note>, b: seq<Note>)
    ensures MarkAll(MarkAll(r, a), b) == MarkAll(r, a + b)
  {
    StampAppend(a, b, r.owner);
    var x := MarkAll(MarkAll(r, a), b);
    var y := MarkAll(r, a + b);
    assert x.problems == y.problems;
  }
}
