/** `Rules.Check` without the console: the contexts are grouped by
    category in first-seen order, the typed line picks categories by their
    1-based number, and the picked contexts run in order. A blank line runs
    every context. Any throw ends the check. */
module Selection {
  import opened Basics
  import opened Text
  import opened MetaTable
  import opened Grouping
  import opened Asserts
  import opened RuleKit
  import opened Contexts

  // ------------------------------------------------------------ categories

  /** The category of every context, in order. */
  function CategoriesOf(cs: seq<Context>): (ks: seq<string>)
    ensures |ks| == |cs|
    ensures forall i :: 0 <= i < |cs| ==> ks[i] == cs[i].rule.attr.category
  {
    seq(|cs|, i requires 0 <= i < |cs| => cs[i].rule.attr.category)
  }

  /** `testsByCategory`: the contexts' positions grouped by category. */
  function Categories(cs: seq<Context>): (gs: seq<Group<string>>)
    ensures |gs| <= |cs|
  {
    GroupByMatchesReference(CategoriesOf(cs));
    assert |GroupBy(CategoriesOf(cs))| == |Keys(GroupBy(CategoriesOf(cs)))|;
    GroupBy(CategoriesOf(cs))
  }

  /** Every group lists positions of `n` contexts. */
  ghost predicate InRange(gs: seq<Group<string>>, n: nat) {
    forall j, k :: 0 <= j < |gs| && 0 <= k < |gs[j].members| ==> gs[j].members[k] < n
  }

  /** No position is listed by two groups. */
  ghost predicate Disjoint(gs: seq<Group<string>>) {
    forall a, b, m :: 0 <= a < |gs| && 0 <= b < |gs| && a != b && m in gs[a].members ==> m !in gs[b].members
  }

  /** The category menu: one group per distinct category, in order of
      first appearance; each lists, in order, the positions of exactly the
      contexts of its category, and no group is empty. */
  lemma CategoriesSpec(cs: seq<Context>)
    ensures Keys(Categories(cs)) == FirstSeen(CategoriesOf(cs))
    ensures Distinct(Keys(Categories(cs)))
    ensures forall j, i :: 0 <= j < |Categories(cs)| && 0 <= i < |cs| ==>
              (i in Categories(cs)[j].members <==> cs[i].rule.attr.category == Categories(cs)[j].key)
    ensures forall j :: 0 <= j < |Categories(cs)| ==> |Categories(cs)[j].members| > 0
    ensures forall j :: 0 <= j < |Categories(cs)| ==> Distinct(Categories(cs)[j].members)
    ensures InRange(Categories(cs), |cs|)
    ensures Disjoint(Categories(cs))
  {
    var ks := CategoriesOf(cs);
    var gs := Categories(cs);
    GroupByMatchesReference(ks);
    FirstSeenSpec(ks);
    forall j | 0 <= j < |gs|
      ensures forall i :: i in gs[j].members <==> 0 <= i < |ks| && ks[i] == gs[j].key
      ensures |gs[j].members| > 0
      ensures forall k :: 0 <= k < |gs[j].members| ==> gs[j].members[k] < |cs|
      ensures Distinct(gs[j].members)
    {
      IndicesOfSpec(ks, gs[j].key);
      assert forall k :: 0 <= k < |gs[j].members| ==> gs[j].members[k] in gs[j].members;
      assert Keys(gs)[j] == gs[j].key;
      assert gs[j].key in ks;
      var i :| 0 <= i < |ks| && ks[i] == gs[j].key;
      assert i in gs[j].members;
    }
    forall a, b, m | 0 <= a < |gs| && 0 <= b < |gs| && a != b && m in gs[a].members
      ensures m !in gs[b].members
    {
      assert Keys(gs)[a] != Keys(gs)[b];
    }
  }

  // ------------------------------------------------------------ running

  /** Running the contexts at `order`, in order, meets no refusal: no
      position repeats and every one is ready. */
  ghost predicate Runnable(cs: seq<Context>, order: seq<nat>) {
    && Distinct(order)
    && forall k :: 0 <= k < |order| && order[k] < |cs| ==> cs[order[k]].status == ReadyToRun
  }

  /** After running the first position, the rest is runnable against the
      updated contexts exactly when the whole was runnable before. */
  lemma RunnableStep(cs: seq<Context>, order: seq<nat>, d: Context)
    requires |order| > 0 && order[0] < |cs| && cs[order[0]].status == ReadyToRun
    requires d.status != ReadyToRun
    ensures Runnable(cs, order) <==> Runnable(cs[order[0] := d], order[1..])
    ensures Runnable(cs, order) ==> order[0] !in order[1..]
  {
    var rest := order[1..];
    var cs' := cs[order[0] := d];
    if Runnable(cs', rest) {
      forall k | 0 <= k < |rest| ensures rest[k] != order[0] {
        if rest[k] < |cs| {
          assert cs'[rest[k]].status == ReadyToRun;
        }
      }
      forall a, b | 0 <= a < b < |order| ensures order[a] != order[b] {
        if a > 0 {
          assert rest[a - 1] != rest[b - 1];
        } else {
          assert rest[b - 1] != order[0];
        }
      }
    }
    if Runnable(cs, order) {
      forall k | 0 <= k < |rest| ensures rest[k] != order[0] {
        assert order[k + 1] != order[0];
      }
    }
  }

  /** `RunSingle` for each position of `order`, in order; the first refusal
      ends it. Positions not in `order` are left as they were, and each
      position in it ends as one run of its context. */
  function RunList(cs: seq<Context>, order: seq<nat>, env: Env): (r: Try<seq<Context>>)
    requires forall k :: 0 <= k < |order| ==> order[k] < |cs|
    ensures r.Threw? <==> !Runnable(cs, order)
    ensures r.Done? ==> |r.value| == |cs|
    ensures r.Done? ==> forall i :: 0 <= i < |cs| ==> r.value[i] == if i in order then After(cs[i], env) else cs[i]
    decreases |order|
  {
    if |order| == 0 then Done(cs)
    else
      match Run(cs[order[0]], env)
      case Threw => Threw
      case Done(d) =>
        var cs' := cs[order[0] := d];
        RunnableStep(cs, order, d);
        var r := RunList(cs', order[1..], env);
        assert r.Done? ==> forall i :: 0 <= i < |cs| ==> (i in order <==> i == order[0] || i in order[1..]);
        r
  }

  /** The positions `0 .. n - 1`, ascending. */
  function Positions(n: nat): (ps: seq<nat>)
    ensures |ps| == n
    ensures forall i :: 0 <= i < n ==> ps[i] == i
  {
    seq(n, i requires 0 <= i < n => i)
  }

  /** `RunAll`: every context once, in list order. It throws exactly when
      some context is not ready, and otherwise every context has run. */
  function RunAll(cs: seq<Context>, env: Env): (r: Try<seq<Context>>)
    ensures r.Threw? <==> exists i :: 0 <= i < |cs| && cs[i].status != ReadyToRun
    ensures r.Done? ==> |r.value| == |cs| && forall i :: 0 <= i < |cs| ==> r.value[i] == After(cs[i], env)
  {
    PositionsCover(|cs|);
    RunList(cs, Positions(|cs|), env)
  }

  /** Every position below `n` occurs in `Positions(n)`, once. */
  lemma PositionsCover(n: nat)
    ensures Distinct(Positions(n))
    ensures forall i :: 0 <= i < n ==> i in Positions(n)
  {
    forall i | 0 <= i < n ensures i in Positions(n) {
      assert Positions(n)[i] == i;
    }
  }

  /** Running a context is idempotent once it ran: a finished context is
      refused and stays as it is. */
  lemma AfterIdempotent(c: Context, env: Env)
    ensures After(After(c, env), env) == After(c, env)
  {
  }

  // ------------------------------------------------------------ the line

  /** The typed line cut at commas, each piece trimmed. */
  function Tokens(input: string): (ts: seq<string>)
    ensures |ts| == |Split(input, ',')| && |ts| >= 1
    ensures forall k :: 0 <= k < |ts| ==> ts[k] == Trim(Split(input, ',')[k])
  {
    var parts := Split(input, ',');
    seq(|parts|, k requires 0 <= k < |parts| => Trim(parts[k]))
  }

  /** The line asks for every rule: it is one blank piece. */
  predicate RunsAll(ts: seq<string>) {
    |ts| == 1 && IsNullOrWhiteSpace(Some(ts[0]))
  }

  /** The line asks for every rule exactly when it is white space only. */
  lemma RunsAllWhenBlank(input: string)
    ensures RunsAll(Tokens(input)) <==> AllWhiteSpace(input)
  {
    var parts := Split(input, ',');
    if AllWhiteSpace(input) {
      SplitNoSeparator(input, ',');
    }
    if |parts| == 1 {
      JoinSplit(input, ',');
      assert parts[0] == input;
    }
  }

  /** The category a piece names: `int.Parse(piece) - 1`, taken with 32-bit
      wrap-around, must be a position of the menu; any other piece throws,
      shown as `None`. */
  function Choice(count: nat, token: string): (r: Option<nat>)
    requires count <= Int32Max
    ensures r.Some? <==> ParseInt32(token).Some? && 1 <= ParseInt32(token).value <= count
    ensures r.Some? ==> r.value == ParseInt32(token).value - 1
  {
    match ParseInt32(token)
    case None => None
    case Some(n) =>
      var index := if n == Int32Min then Int32Max else n - 1;
      if 0 <= index < count then Some(index) else None
  }

  /** Typing the number the menu shows for a category picks that category. */
  lemma ChoiceOfMenuNumber(count: nat, j: nat)
    requires j < count <= Int32Max
    ensures Choice(count, NatText(j + 1)) == Some(j)
  {
    ParseInt32OfNatText(j + 1);
    ChoiceOfNumber(count, NatText(j + 1), j + 1);
  }

  /** A piece that parses to a menu number picks the category below it. */
  lemma ChoiceOfNumber(count: nat, token: string, v: int)
    requires count <= Int32Max
    requires ParseInt32(token) == Some(v) && 1 <= v <= count
    ensures Choice(count, token) == Some(v - 1)
  {
  }

  /** The category each piece of the line names, in order, `None` for a
      piece that throws. The loop parses a piece only when it reaches it,
      but a throw ends the whole check, so choosing up front changes
      nothing. */
  function Picks(count: nat, ts: seq<string>): (ps: seq<Option<nat>>)
    requires count <= Int32Max
    ensures |ps| == |ts|
    ensures forall k :: 0 <= k < |ts| ==> ps[k] == Choice(count, ts[k])
    ensures ValidPicks(count, ps)
  {
    seq(|ts|, k requires 0 <= k < |ts| => Choice(count, ts[k]))
  }

  /** Every choice is a position of a menu of `count` categories. */
  predicate ValidPicks(count: nat, ps: seq<Option<nat>>) {
    forall k :: 0 <= k < |ps| && ps[k].Some? ==> ps[k].value < count
  }

  /** Position `i` belongs to a category that some piece of the line picks. */
  ghost predicate Picked(gs: seq<Group<string>>, ps: seq<Option<nat>>, i: nat) {
    exists k :: 0 <= k < |ps| && ps[k].Some? && ps[k].value < |gs| && i in gs[ps[k].value].members
  }

  /** Picking from a line is picking from its first piece or from the rest. */
  lemma PickedCons(gs: seq<Group<string>>, ps: seq<Option<nat>>, i: nat)
    requires |ps| > 0 && ps[0].Some? && ps[0].value < |gs|
    ensures Picked(gs, ps, i) <==> i in gs[ps[0].value].members || Picked(gs, ps[1..], i)
  {
    if Picked(gs, ps[1..], i) {
      var k :| 0 <= k < |ps[1..]| && ps[1..][k].Some? && ps[1..][k].value < |gs| && i in gs[ps[1..][k].value].members;
      assert ps[k + 1] == ps[1..][k];
    }
    if Picked(gs, ps, i) {
      var k :| 0 <= k < |ps| && ps[k].Some? && ps[k].value < |gs| && i in gs[ps[k].value].members;
      if k > 0 {
        assert ps[1..][k - 1] == ps[k];
      }
    }
  }

  /** The loop over the pieces: each piece picks a category whose contexts
      then run in order. A piece that names no category throws, and so does
      a refused run. */
  function RunPicked(cs: seq<Context>, gs: seq<Group<string>>, ps: seq<Option<nat>>, env: Env): (r: Try<seq<Context>>)
    requires InRange(gs, |cs|) && ValidPicks(|gs|, ps)
    ensures r.Done? ==> forall k :: 0 <= k < |ps| ==> ps[k].Some?
    ensures r.Done? ==> |r.value| == |cs|
    ensures r.Done? ==> forall i :: 0 <= i < |cs| ==> r.value[i] == if Picked(gs, ps, i) then After(cs[i], env) else cs[i]
    decreases |ps|
  {
    if |ps| == 0 then Done(cs)
    else
      match ps[0]
      case None => Threw
      case Some(g) =>
        match RunList(cs, gs[g].members, env)
        case Threw => Threw
        case Done(cs') =>
          assert ValidPicks(|gs|, ps[1..]) by {
            assert forall k :: 0 <= k < |ps[1..]| ==> ps[1..][k] == ps[k + 1];
          }
          var r := RunPicked(cs', gs, ps[1..], env);
          if r.Done? then
            assert forall k :: 1 <= k < |ps| ==> ps[k] == ps[1..][k - 1];
            forall i | 0 <= i < |cs|
              ensures r.value[i] == if Picked(gs, ps, i) then After(cs[i], env) else cs[i]
            {
              PickedCons(gs, ps, i);
              AfterIdempotent(cs[i], env);
            }
            r
          else r
  }

  /** `Rules.Check` once the contexts exist: a blank line runs them all,
      otherwise the picked categories run in the order typed. */
  function Select(cs: seq<Context>, env: Env, input: string): (r: Try<seq<Context>>)
    requires |cs| <= Int32Max
    ensures r.Done? ==> |r.value| == |cs|
    ensures r.Done? ==> forall i :: 0 <= i < |cs| ==> r.value[i] == cs[i] || r.value[i] == After(cs[i], env)
  {
    Dispatch(cs, env, Tokens(input))
  }

  /** What the check does with the trimmed pieces of the line: one blank
      piece runs every context, otherwise each piece in turn runs the
      category it names. */
  function Dispatch(cs: seq<Context>, env: Env, ts: seq<string>): (r: Try<seq<Context>>)
    requires |cs| <= Int32Max
    ensures r.Done? ==> |r.value| == |cs|
    ensures r.Done? ==> forall i :: 0 <= i < |cs| ==> r.value[i] == cs[i] || r.value[i] == After(cs[i], env)
  {
    if RunsAll(ts) then RunAll(cs, env)
    else
      CategoriesSpec(cs);
      RunPicked(cs, Categories(cs), Picks(|Categories(cs)|, ts), env)
  }

  /** A blank line runs every context once, in order; it throws exactly when
      some context was not ready. */
  lemma BlankLineRunsAll(cs: seq<Context>, env: Env, input: string)
    requires |cs| <= Int32Max
    requires AllWhiteSpace(input)
    ensures Select(cs, env, input).Threw? <==> exists i :: 0 <= i < |cs| && cs[i].status != ReadyToRun
    ensures Select(cs, env, input).Done? ==> forall i :: 0 <= i < |cs| ==> Select(cs, env, input).value[i] == After(cs[i], env)
  {
    RunsAllWhenBlank(input);
  }

  /** Otherwise a piece that names no category makes the check throw. */
  lemma BadPieceThrows(cs: seq<Context>, env: Env, input: string, k: nat)
    requires |cs| <= Int32Max
    requires !RunsAll(Tokens(input))
    requires k < |Tokens(input)| && Choice(|Categories(cs)|, Tokens(input)[k]).None?
    ensures Select(cs, env, input).Threw?
  {
    CategoriesSpec(cs);
    assert Picks(|Categories(cs)|, Tokens(input))[k].None?;
  }

  /** The loop after its first piece, when that piece picks a category
      whose contexts all run. */
  lemma RunPickedStep(cs: seq<Context>, gs: seq<Group<string>>, ps: seq<Option<nat>>, env: Env)
    requires InRange(gs, |cs|) && ValidPicks(|gs|, ps)
    requires |ps| > 0 && ps[0].Some?
    requires RunList(cs, gs[ps[0].value].members, env).Done?
    ensures ValidPicks(|gs|, ps[1..])
    ensures RunPicked(cs, gs, ps, env) == RunPicked(RunList(cs, gs[ps[0].value].members, env).value, gs, ps[1..], env)
  {
    assert forall k :: 0 <= k < |ps[1..]| ==> ps[1..][k] == ps[k + 1];
  }

  /** After a run of a list, no context in the list is ready to run. */
  lemma RunListLeavesStale(cs: seq<Context>, order: seq<nat>, env: Env, m: nat)
    requires forall k :: 0 <= k < |order| ==> order[k] < |cs|
    requires RunList(cs, order, env).Done? && m in order
    ensures m < |cs| && RunList(cs, order, env).value[m].status != ReadyToRun
  {
    var p :| 0 <= p < |order| && order[p] == m;
  }

  /** Piece `k` picks a category of `gs` that lists position `m`. */
  predicate PicksAt(gs: seq<Group<string>>, ps: seq<Option<nat>>, k: nat, m: nat) {
    k < |ps| && ps[k].Some? && ps[k].value < |gs| && m in gs[ps[k].value].members
  }

  /** A context that is no longer ready in a picked category makes the
      pieces from that one on throw. */
  lemma {:induction false} StaleThrows(cs: seq<Context>, gs: seq<Group<string>>, ps: seq<Option<nat>>, env: Env, k: nat, m: nat)
    requires InRange(gs, |cs|) && ValidPicks(|gs|, ps) && PicksAt(gs, ps, k, m)
    requires m < |cs| && cs[m].status != ReadyToRun
    ensures RunPicked(cs, gs, ps, env).Threw?
    decreases k
  {
    var g := ps[0];
    if k == 0 {
      assert !Runnable(cs, gs[g.value].members) by {
        var p :| 0 <= p < |gs[g.value].members| && gs[g.value].members[p] == m;
      }
    } else if g.Some? {
      var run := RunList(cs, gs[g.value].members, env);
      if run.Done? {
        RunPickedStep(cs, gs, ps, env);
        assert PicksAt(gs, ps[1..], k - 1, m) by {
          assert ps[1..][k - 1] == ps[k];
        }
        StaleThrows(run.value, gs, ps[1..], env, k - 1, m);
      }
    }
  }

  /** Pieces `k1` and `k2`, in that order, pick the same category. */
  predicate PickedTwice(ps: seq<Option<nat>>, k1: nat, k2: nat) {
    k1 < k2 < |ps| && ps[k1].Some? && ps[k1] == ps[k2]
  }

  /** Picking the same category twice makes the check throw: the second
      run of its contexts is refused. */
  lemma {:induction false} PickedTwiceThrows(cs: seq<Context>, gs: seq<Group<string>>, ps: seq<Option<nat>>, env: Env, k1: nat, k2: nat)
    requires InRange(gs, |cs|) && ValidPicks(|gs|, ps)
    requires forall j :: 0 <= j < |gs| ==> |gs[j].members| > 0
    requires PickedTwice(ps, k1, k2)
    ensures RunPicked(cs, gs, ps, env).Threw?
    decreases k1
  {
    var g := ps[0];
    if g.Some? {
      var run := RunList(cs, gs[g.value].members, env);
      if run.Done? {
        RunPickedStep(cs, gs, ps, env);
        if k1 == 0 {
          var m := gs[g.value].members[0];
          assert m in gs[g.value].members;
          RunListLeavesStale(cs, gs[g.value].members, env, m);
          assert PicksAt(gs, ps[1..], k2 - 1, m) by {
            assert ps[1..][k2 - 1] == ps[k2];
          }
          StaleThrows(run.value, gs, ps[1..], env, k2 - 1, m);
        } else {
          assert PickedTwice(ps[1..], k1 - 1, k2 - 1) by {
            assert ps[1..][k1 - 1] == ps[k1] && ps[1..][k2 - 1] == ps[k2];
          }
          PickedTwiceThrows(run.value, gs, ps[1..], env, k1 - 1, k2 - 1);
        }
      }
    }
  }

  /** With the contexts of the picked categories all ready, a line whose
      pieces all name categories, none twice, runs to its end. */
  lemma {:induction false} DistinctPicksRun(cs: seq<Context>, gs: seq<Group<string>>, ps: seq<Option<nat>>, env: Env)
    requires InRange(gs, |cs|) && ValidPicks(|gs|, ps) && Disjoint(gs)
    requires forall j :: 0 <= j < |gs| ==> Distinct(gs[j].members)
    requires forall k :: 0 <= k < |ps| ==> ps[k].Some?
    requires forall k1, k2 :: 0 <= k1 < k2 < |ps| ==> ps[k1] != ps[k2]
    requires forall k, m :: 0 <= k < |ps| && m in gs[ps[k].value].members ==> cs[m].status == ReadyToRun
    ensures RunPicked(cs, gs, ps, env).Done?
    decreases |ps|
  {
    if |ps| > 0 {
      var g := ps[0].value;
      var members := gs[g].members;
      assert Runnable(cs, members) by {
        forall p | 0 <= p < |members| ensures cs[members[p]].status == ReadyToRun {
          assert members[p] in members;
        }
      }
      var run := RunList(cs, members, env);
      var rest := ps[1..];
      forall k, m | 0 <= k < |rest| && m in gs[rest[k].value].members
        ensures run.value[m].status == ReadyToRun
      {
        assert rest[k] == ps[k + 1];
        assert m !in members;
      }
      forall k1, k2 | 0 <= k1 < k2 < |rest| ensures rest[k1] != rest[k2] {
        assert rest[k1] == ps[k1 + 1] && rest[k2] == ps[k2 + 1];
      }
      RunPickedStep(cs, gs, ps, env);
      DistinctPicksRun(run.value, gs, rest, env);
    }
  }

  /** With every context ready, a line that names distinct categories runs
      exactly the contexts of those categories, each once, and leaves the
      others ready. */
  lemma SelectNamedCategories(cs: seq<Context>, env: Env, ts: seq<string>)
    requires |cs| <= Int32Max
    requires forall i :: 0 <= i < |cs| ==> cs[i].status == ReadyToRun
    requires !RunsAll(ts)
    requires forall k :: 0 <= k < |ts| ==> Choice(|Categories(cs)|, ts[k]).Some?
    requires forall k1, k2 :: 0 <= k1 < k2 < |ts| ==> Choice(|Categories(cs)|, ts[k1]) != Choice(|Categories(cs)|, ts[k2])
    ensures Dispatch(cs, env, ts).Done?
    ensures forall i :: 0 <= i < |cs| ==>
              Dispatch(cs, env, ts).value[i]
                == if exists k :: 0 <= k < |ts| && Categories(cs)[Choice(|Categories(cs)|, ts[k]).value].key == cs[i].rule.attr.category
                   then After(cs[i], env) else cs[i]
  {
    var gs := Categories(cs);
    var ps := Picks(|gs|, ts);
    CategoriesSpec(cs);
    DistinctPicksRun(cs, gs, ps, env);
    forall i | 0 <= i < |cs|
      ensures Picked(gs, ps, i) <==> exists k :: 0 <= k < |ts| && gs[Choice(|gs|, ts[k]).value].key == cs[i].rule.attr.category
    {
      PickedByCategory(cs, ts, i);
    }
  }

  /** With every piece naming a category, a position is picked exactly
      when some piece names its context's category. */
  lemma PickedByCategory(cs: seq<Context>, ts: seq<string>, i: nat)
    requires |cs| <= Int32Max && i < |cs|
    requires forall k :: 0 <= k < |ts| ==> Choice(|Categories(cs)|, ts[k]).Some?
    ensures var gs := Categories(cs);
            Picked(gs, Picks(|gs|, ts), i) <==>
              exists k :: 0 <= k < |ts| && gs[Choice(|gs|, ts[k]).value].key == cs[i].rule.attr.category
  {
    var gs := Categories(cs);
    var ps := Picks(|gs|, ts);
    CategoriesSpec(cs);
    if exists k :: 0 <= k < |ts| && gs[Choice(|gs|, ts[k]).value].key == cs[i].rule.attr.category {
      var k :| 0 <= k < |ts| && gs[Choice(|gs|, ts[k]).value].key == cs[i].rule.attr.category;
      assert i in gs[ps[k].value].members;
    }
    if Picked(gs, ps, i) {
      var k :| 0 <= k < |ps| && ps[k].Some? && ps[k].value < |gs| && i in gs[ps[k].value].members;
      assert gs[Choice(|gs|, ts[k]).value].key == cs[i].rule.attr.category;
    }
  }

  /** Naming one category twice in the line makes the check throw. */
  lemma SameCategoryTwiceThrows(cs: seq<Context>, env: Env, ts: seq<string>, k1: nat, k2: nat)
    requires |cs| <= Int32Max
    requires !RunsAll(ts)
    requires k1 < k2 < |ts|
    requires Choice(|Categories(cs)|, ts[k1]).Some?
    requires Choice(|Categories(cs)|, ts[k1]) == Choice(|Categories(cs)|, ts[k2])
    ensures Dispatch(cs, env, ts).Threw?
  {
    CategoriesSpec(cs);
    PickedTwiceThrows(cs, Categories(cs), Picks(|Categories(cs)|, ts), env, k1, k2);
  }

  /** What the selection leaves of freshly built contexts: the same rules
      over the same table, the ones that did not run still fresh; after a
      blank line none is left ready. */
  lemma SelectFromFresh(cs: seq<Context>, t: Table, rules: seq<Rule>, env: Env, input: string)
    requires |cs| <= Int32Max && FreshFor(cs, t, rules)
    ensures Select(cs, env, input).Done? ==> forall i :: 0 <= i < |rules| ==>
              var c := Select(cs, env, input).value[i];
              && c.rule == rules[i] && c.t == t
              && (c.status == ReadyToRun ==> Fresh(c))
    ensures AllWhiteSpace(input) ==>
              Select(cs, env, input).Done? && forall i :: 0 <= i < |rules| ==> Select(cs, env, input).value[i].status !in {ReadyToRun, Running}
  {
    if AllWhiteSpace(input) {
      BlankLineRunsAll(cs, env, input);
      forall i | 0 <= i < |rules| ensures Select(cs, env, input).value[i].status !in {ReadyToRun, Running} {
        RunOnce(cs[i], env);
      }
    }
  }

  /** `Rules.Check`: the contexts are built, one per rule, and the line
      picks which of them run. All of them are returned, the ones that did
      not run still fresh. A blank line runs every one of them. */
  method Check(t: Table, rules: seq<Rule>, env: Env, input: string) returns (r: Try<seq<Context>>)
    requires |rules| <= Int32Max
    ensures |rules| > 0 && ResolveShared(t).Threw? ==> r.Threw?
    ensures r.Done? ==> |r.value| == |rules|
    ensures r.Done? ==> forall i :: 0 <= i < |rules| ==>
              && r.value[i].rule == rules[i] && r.value[i].t == t
              && (r.value[i].status == ReadyToRun ==> Fresh(r.value[i]))
    ensures AllWhiteSpace(input) && (|rules| == 0 || ResolveShared(t).Done?) ==>
              r.Done? && forall i :: 0 <= i < |rules| ==> r.value[i].status !in {ReadyToRun, Running}
  {
    var created := CreateContexts(t, rules);
    if created.Threw? {
      return Threw;
    }
    SelectFromFresh(created.value, t, rules, env, input);
    r := Select(created.value, env, input);
  }
}
