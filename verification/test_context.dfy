/** A rule's run (`TestContext`): the context is built against a table,
    resolving the shared columns, starts out ready to run, and may run
    once. Running replays the body's `Mark` calls into the context's
    store and sets the final status from how the body ended. */
module Contexts {
  import opened Basics
  import opened MetaTable
  import opened Results
  import opened Asserts
  import opened RuleKit
  import GeneralChecks
  import LotChecks

  /** `TestContext.Status`. `Running` only holds while a body runs. */
  datatype Status = ReadyToRun | Running | Ok | Failed | Exception

  /** `TestAttribute`: the rule's display name and its category. */
  datatype Attr = Attr(name: string, category: string)

  /** A `[Test]` method: its attribute and its body. */
  datatype Rule = Rule(attr: Attr, body: (Assert, Shared) -> Log)

  /** The `[Test]` methods of `TestContext`, in declaration order. */
  const Catalog: seq<Rule> := [
    Rule(Attr("Год, коды, лоты (1.)", "Общие"), GeneralChecks.Check1),
    Rule(Attr("Прочее имущество (2.)", "Общие"), GeneralChecks.Check2),
    Rule(Attr("Нач. общ. стоим. лота (3.)", "Общие"), GeneralChecks.Check3),
    Rule(Attr("Коэф. превышения (4.)", "Общие"), GeneralChecks.Check4),
    Rule(Attr("Фактическое использование ЗУ (5.)", "Общие"), GeneralChecks.Check5),
    Rule(Attr("Доля ЗУ (6.)", "Общие"), GeneralChecks.Check6),
    Rule(Attr("Зона ПЗЗ и СЭР (7. и 8.)", "Общие"), GeneralChecks.Check7),
    Rule(Attr("Источник 1 (9.)", "Общие"), GeneralChecks.Check10),
    Rule(Attr("Источник 2 (10.)", "Общие"), GeneralChecks.Check11),
    Rule(Attr("Докум. (11.)", "Общие"), GeneralChecks.Check12),
    Rule(Attr("Скрины (12.)", "Общие"), GeneralChecks.Check13),
    Rule(Attr("Снос (13.)", "Общие"), GeneralChecks.Check14),
    Rule(Attr("Факт. исп. ОКС (14.)", "Общие"), GeneralChecks.FactOks),
    Rule(Attr("Площадь ОКС (15.)", "Общие"), GeneralChecks.AreaOks),
    Rule(Attr("Подсегмент (16.)", "Общие"), GeneralChecks.Subsegment),
    Rule(Attr("ЗУ и Rnt (1.-6.)", "ЗУ"), LotChecks.ZuRnt),
    Rule(Attr("ЗУ и Rnt (7.)", "ЗУ"), LotChecks.ZuRnt2),
    Rule(Attr("ЗУ и Rnt (8.)", "ЗУ"), LotChecks.ZuRnt3),
    Rule(Attr("ЗУ и Rnt (9.)", "ЗУ"), LotChecks.ZuRnt4),
    Rule(Attr("ЕНК", "ЕНК"), LotChecks.Enk),
    Rule(Attr("ОКС", "ОКС"), LotChecks.Oks)]

  /** One context: its rule, the table, the shared columns its constructor
      resolved, its status and its problem store. */
  datatype Context = Context(rule: Rule, t: Table, shared: Shared, status: Status, result: Result)

  /** A context as construction leaves it: ready, with an empty store owned
      by its rule. */
  predicate Fresh(c: Context) {
    && c.status == ReadyToRun
    && c.result == NewResult(c.rule.attr.name)
  }

  /** The constructor: it resolves the shared columns and throws when one
      of them is missing. */
  function NewContext(t: Table, rule: Rule): (r: Try<Context>)
    ensures r.Threw? <==> ResolveShared(t).Threw?
    ensures r.Done? ==> Fresh(r.value) && r.value.rule == rule && r.value.t == t
  {
    match ResolveShared(t)
    case Threw => Threw
    case Done(s) => Done(Context(rule, t, s, ReadyToRun, NewResult(rule.attr.name)))
  }

  /** A context can be built exactly when every shared name has a column,
      and its shared columns are the leftmost columns of those names. */
  lemma NewContextColumns(t: Table, rule: Rule)
    ensures NewContext(t, rule).Threw? <==> exists i :: 0 <= i < |SharedNames| && GetColumn(t, SharedNames[i]).Threw?
    ensures NewContext(t, rule).Done? ==>
              && Done(NewContext(t, rule).value.shared.year) == GetColumn(t, "Год")
              && Done(NewContext(t, rule).value.shared.src2) == GetColumn(t, "Источник 2")
              && Done(NewContext(t, rule).value.shared.price) == GetColumn(t, "Нач. общ. стоим. лота")
  {
    ResolveSharedSpec(t);
  }

  /** What the body does when invoked on the context: it starts with the
      row cursor at 0. */
  function Body(c: Context, env: Env): Log {
    c.rule.body(Assert(c.t, env, 0), c.shared)
  }

  /** `Run`: refuses a context that is not ready; otherwise replays the
      body's problems into the store and ends `Ok` when the store is still
      empty, `Failed` when it is not, and `Exception`, with the exception
      stored, when the body threw. */
  function Run(c: Context, env: Env): (r: Try<Context>)
    ensures r.Threw? <==> c.status != ReadyToRun
    ensures r.Done? ==>
              && r.value.rule == c.rule && r.value.t == c.t && r.value.shared == c.shared
              && r.value.result.owner == c.result.owner
              && r.value.result.problems == c.result.problems + Stamp(Body(c, env).notes, c.result.owner)
              && (r.value.status == Exception <==> Body(c, env).threw)
              && (r.value.status == Ok <==> !Body(c, env).threw && IsGood(r.value.result))
              && (r.value.status == Failed <==> !Body(c, env).threw && !IsGood(r.value.result))
              && r.value.result.exception == (c.result.exception || Body(c, env).threw)
  {
    if c.status != ReadyToRun then Threw
    else
      var log := Body(c, env);
      var stored := MarkAll(c.result, log.notes);
      if log.threw then Done(c.(status := Exception, result := stored.(exception := true)))
      else Done(c.(status := if IsGood(stored) then Ok else Failed, result := stored))
  }

  /** A context that ran is finished: it is neither ready nor running, so a
      second `Run` throws. */
  lemma RunOnce(c: Context, env: Env)
    requires Run(c, env).Done?
    ensures Run(c, env).value.status !in {ReadyToRun, Running}
    ensures Run(Run(c, env).value, env).Threw?
  {
  }

  /** A fresh context that runs keeps exactly its body's problems, stamped
      with its rule's name; it is `Ok` exactly when the body neither threw
      nor recorded anything. */
  lemma RunFresh(c: Context, env: Env)
    requires Fresh(c)
    ensures Run(c, env).Done?
    ensures Run(c, env).value.result.problems == Stamp(Body(c, env).notes, c.rule.attr.name)
    ensures Run(c, env).value.status == Ok <==> Body(c, env) == Pass
  {
    assert Run(c, env).value.result.problems == [] + Stamp(Body(c, env).notes, c.rule.attr.name);
  }

  /** The context after a run, or unchanged when the run was refused. */
  function After(c: Context, env: Env): (d: Context)
    ensures d.rule == c.rule && d.t == c.t && d.shared == c.shared
    ensures c.status == ReadyToRun ==> d.status != ReadyToRun
    ensures c.status != ReadyToRun ==> d == c
  {
    match Run(c, env)
    case Done(d) => d
    case Threw => c
  }

  /** The contexts `cs` are fresh contexts over `t` for the rules, in order. */
  ghost predicate FreshFor(cs: seq<Context>, t: Table, rules: seq<Rule>) {
    && |cs| == |rules|
    && forall i :: 0 <= i < |cs| ==> Fresh(cs[i]) && cs[i].rule == rules[i] && cs[i].t == t
  }

  /** `CreateTestsContexts`: one fresh context per rule, in order; the first
      constructor that throws ends it. */
  method CreateContexts(t: Table, rules: seq<Rule>) returns (r: Try<seq<Context>>)
    ensures r.Threw? <==> |rules| > 0 && ResolveShared(t).Threw?
    ensures r.Done? ==> FreshFor(r.value, t, rules)
  {
    var tests: seq<Context> := [];
    for i := 0 to |rules|
      invariant i > 0 ==> ResolveShared(t).Done?
      invariant FreshFor(tests, t, rules[..i])
    {
      var c := NewContext(t, rules[i]);
      if c.Threw? {
        return Threw;
      }
      assert rules[..i + 1] == rules[..i] + [rules[i]];
      tests := tests + [c.value];
    }
    assert rules[..|rules|] == rules;
    return Done(tests);
  }

}
