/**
 * The registry `registry_t`: the two-level test map, the `passed`/`failed`
 * counters and the replaceable `stat_handler`, with the bodies of
 * `src/Automation/Core.cpp` and the declarations of `include/Eightest/Core.hpp`
 * (a `stat_handler` member and a `bool stat()` that reports `failed == 0`).
 *
 * A handler is named by a `Sink`; every string handed to the current handler
 * is appended to `out` together with the sink that received it, so replacing
 * the handler sends later lines to the new sink only.
 */
module Core {
  import opened Wrappers
  import opened LexOrder
  import opened Expressions
  import opened Formats
  import opened Runs

  /** `default_stat_handler` (print to standard output) or a handler installed by the client. */
  datatype Sink = Stdout | Custom(id: nat)

  /** One call of the stat handler with one string. */
  datatype Emission = Emission(sink: Sink, text: string)

  /** The emissions made by handing `lines`, in order, to `sink`. */
  function Deliver(sink: Sink, lines: seq<string>): seq<Emission>
    decreases |lines|
  {
    if lines == [] then [] else Deliver(sink, lines[..|lines| - 1]) + [Emission(sink, lines[|lines| - 1])]
  }

  /** What sink `s` received, in order. */
  function Written(out: seq<Emission>, s: Sink): seq<string>
    decreases |out|
  {
    if out == [] then []
    else Written(out[..|out| - 1], s) + (if out[|out| - 1].sink == s then [out[|out| - 1].text] else [])
  }

  lemma {:induction false} DeliverAppend(sink: Sink, a: seq<string>, b: seq<string>)
    ensures Deliver(sink, a + b) == Deliver(sink, a) + Deliver(sink, b)
    decreases |b|
  {
    if b == [] {
      assert a + b == a;
    } else {
      assert (a + b)[..|a + b| - 1] == a + b[..|b| - 1];
      DeliverAppend(sink, a, b[..|b| - 1]);
    }
  }

  lemma {:induction false} WrittenAppend(a: seq<Emission>, b: seq<Emission>, s: Sink)
    ensures Written(a + b, s) == Written(a, s) + Written(b, s)
    decreases |b|
  {
    if b == [] {
      assert a + b == a;
    } else {
      assert (a + b)[..|a + b| - 1] == a + b[..|b| - 1];
      WrittenAppend(a, b[..|b| - 1], s);
    }
  }

  /** A handler receives exactly the lines delivered to it. */
  lemma {:induction false} WrittenOfDeliver(sink: Sink, lines: seq<string>, s: Sink)
    ensures Written(Deliver(sink, lines), s) == if s == sink then lines else []
    decreases |lines|
  {
    if lines != [] {
      var front, last := lines[..|lines| - 1], lines[|lines| - 1];
      var before := Deliver(sink, front);
      assert Deliver(sink, lines) == before + [Emission(sink, last)];
      assert (before + [Emission(sink, last)])[..|before|] == before;
      WrittenOfDeliver(sink, front, s);
      assert lines == front + [last];
    }
  }

  /**
   * Lines delivered to the current handler reach that handler, all of them
   * and in order, after what it had received, and reach no other handler.
   */
  lemma WrittenDeliver(out: seq<Emission>, sink: Sink, lines: seq<string>, s: Sink)
    ensures Written(out + Deliver(sink, lines), s) == Written(out, s) + (if s == sink then lines else [])
  {
    WrittenAppend(out, Deliver(sink, lines), s);
    WrittenOfDeliver(sink, lines, s);
  }

  /** The part of a registry that running tests changes: counters, emissions and the run trace. */
  datatype Snapshot = Snapshot(passed: nat, failed: nat, out: seq<Emission>, trace: seq<TestId>)

  /** State `s` followed by effect `e`, whose lines go to `sink`. */
  function Applied(s: Snapshot, sink: Sink, e: Effect): Snapshot {
    Snapshot(s.passed + e.passed, s.failed + e.failed, s.out + Deliver(sink, e.lines), s.trace + e.ran)
  }

  lemma AppliedNone(s: Snapshot, sink: Sink)
    ensures Applied(s, sink, NoEffect) == s
  {
    assert s.out + [] == s.out && s.trace + [] == s.trace;
  }

  /** Applying two effects one after the other is applying their sequence. */
  lemma AppliedThen(s: Snapshot, sink: Sink, a: Effect, b: Effect)
    ensures Applied(Applied(s, sink, a), sink, b) == Applied(s, sink, a.Then(b))
  {
    DeliverAppend(sink, a.lines, b.lines);
    assert s.out + Deliver(sink, a.lines) + Deliver(sink, b.lines) == s.out + (Deliver(sink, a.lines) + Deliver(sink, b.lines));
    assert s.trace + a.ran + b.ran == s.trace + (a.ran + b.ran);
  }

  /** One more check of a body: the step of `run()`. */
  lemma RunStep(s: Snapshot, sink: Sink, t: Test, i: nat)
    requires i < |t.body|
    ensures var entered := Effect(0, 0, [], [t.Id()]);
      Applied(Applied(s, sink, entered.Then(StepsEffect(t, t.body[..i]))), sink, CheckEffect(t, t.body[i].msg, t.body[i].cond))
      == Applied(s, sink, entered.Then(StepsEffect(t, t.body[..i + 1])))
  {
    var entered := Effect(0, 0, [], [t.Id()]);
    var check := CheckEffect(t, t.body[i].msg, t.body[i].cond);
    StepsEffectSnoc(t, t.body, i);
    ThenAssociative(entered, StepsEffect(t, t.body[..i]), check);
    AppliedThen(s, sink, entered.Then(StepsEffect(t, t.body[..i])), check);
  }

  /** One more test of a module: the step of `RunModule`'s loop. */
  lemma ModuleStep(s: Snapshot, sink: Sink, m: map<string, Test>, ks: seq<string>, i: nat)
    requires forall k :: 0 <= k < |ks| ==> ks[k] in m
    requires i < |ks|
    ensures Applied(Applied(s, sink, TestsEffect(TestsAt(m, ks[..i]))), sink, TestEffect(m[ks[i]]))
      == Applied(s, sink, TestsEffect(TestsAt(m, ks[..i + 1])))
  {
    var done := TestsAt(m, ks[..i]);
    assert ks[..i + 1][..i] == ks[..i];
    assert TestsAt(m, ks[..i + 1]) == done + [m[ks[i]]];
    TestsEffectSnoc(done, m[ks[i]]);
    AppliedThen(s, sink, TestsEffect(done), TestEffect(m[ks[i]]));
  }

  /** One more module: the step of `execute_test`'s loop. */
  lemma MatchingStep(s: Snapshot, sink: Sink, all: Tests, ks: seq<string>, i: nat, name: string)
    requires forall k :: 0 <= k < |ks| ==> ks[k] in all
    requires i < |ks|
    ensures var e := if name in all[ks[i]] then TestEffect(all[ks[i]][name]) else NoEffect;
      Applied(Applied(s, sink, TestsEffect(Matching(all, ks[..i], name))), sink, e)
      == Applied(s, sink, TestsEffect(Matching(all, ks[..i + 1], name)))
  {
    var done := Matching(all, ks[..i], name);
    assert ks[..i + 1][..i] == ks[..i];
    if name in all[ks[i]] {
      var t := all[ks[i]][name];
      assert Matching(all, ks[..i + 1], name) == done + [t];
      TestsEffectSnoc(done, t);
      AppliedThen(s, sink, TestsEffect(done), TestEffect(t));
    } else {
      assert Matching(all, ks[..i + 1], name) == done + [];
      assert done + [] == done;
      AppliedNone(Applied(s, sink, TestsEffect(done)), sink);
    }
  }

  /** One more module: the step of `execute_all`'s loop. */
  lemma ModulesStep(s: Snapshot, sink: Sink, all: Tests, ks: seq<string>, i: nat)
    requires forall k :: 0 <= k < |ks| ==> ks[k] in all
    requires i < |ks|
    ensures Applied(Applied(s, sink, TestsEffect(ModulesRuns(all, ks[..i]))), sink, TestsEffect(ModuleRuns(all[ks[i]])))
      == Applied(s, sink, TestsEffect(ModulesRuns(all, ks[..i + 1])))
  {
    var done := ModulesRuns(all, ks[..i]);
    var block := ModuleRuns(all[ks[i]]);
    assert ks[..i + 1][..i] == ks[..i];
    assert ModulesRuns(all, ks[..i + 1]) == done + block;
    TestsEffectAppend(done, block);
    AppliedThen(s, sink, TestsEffect(done), TestsEffect(block));
  }

  /** `update_stat`: `passed += ok; failed += !ok`. */
  method UpdateStat(passed: nat, failed: nat, ok: bool) returns (p: nat, f: nat)
    ensures p + f == passed + failed + 1
    ensures p >= passed && f >= failed
    ensures p > passed <==> ok
  {
    p := passed + (if ok then 1 else 0);
    f := failed + (if ok then 0 else 1);
  }

  class Registry {
    /** `all`: module name to test name to test. */
    var all: Tests
    var statHandler: Sink
    var passed: nat
    var failed: nat
    /** Everything handed to a stat handler so far. */
    var out: seq<Emission>
    /** The tests whose `run()` was entered, in order; it exists only in the model. */
    ghost var trace: seq<TestId>

    ghost predicate Valid()
      reads this
    {
      WellFormed(all)
    }

    /** A fresh registry: no tests, zero counters, the default handler. */
    constructor ()
      ensures Valid()
      ensures all == map[] && statHandler == Stdout && passed == 0 && failed == 0
      ensures out == [] && trace == []
    {
      all := map[];
      statHandler := Stdout;
      passed := 0;
      failed := 0;
      out := [];
      trace := [];
    }

    /** The counters, the emissions and the trace, as one value. */
    ghost function Now(): Snapshot
      reads this
    {
      Snapshot(passed, failed, out, trace)
    }

    /** Hands one string to the current stat handler. */
    method Emit(text: string)
      modifies this
      ensures out == old(out) + [Emission(statHandler, text)]
      ensures all == old(all) && statHandler == old(statHandler)
      ensures passed == old(passed) && failed == old(failed) && trace == old(trace)
    {
      out := out + [Emission(statHandler, text)];
    }

    /** `STAT_HANDLER(h)`: later strings go to `s`. */
    method SetStatHandler(s: Sink)
      modifies this
      ensures statHandler == s
      ensures all == old(all) && out == old(out)
      ensures passed == old(passed) && failed == old(failed) && trace == old(trace)
    {
      statHandler := s;
    }

    /** `add(t)`: `all[t.module][t.name] = t`. */
    method Add(t: Test)
      requires Valid()
      modifies this
      ensures Valid()
      ensures all == Inserted(old(all), t)
      ensures forall m, n :: Lookup(all, m, n) == if m == t.moduleName && n == t.testName then Some(t) else Lookup(old(all), m, n)
      ensures statHandler == old(statHandler) && out == old(out)
      ensures passed == old(passed) && failed == old(failed) && trace == old(trace)
    {
      InsertedLookup(all, t);
      var inner := if t.moduleName in all then all[t.moduleName] else map[];
      all := all[t.moduleName := inner[t.testName := t]];
    }

    /** `check(expression, test, msg)`: one counter, one line, and the condition returned. */
    method CheckExpr(e: BoolExpr, t: Test, msg: string) returns (ok: bool)
      modifies this
      ensures ok == Truth(e.value)
      ensures Now() == Applied(old(Now()), statHandler, CheckEffect(t, msg, Captured(e)))
      ensures all == old(all) && statHandler == old(statHandler)
    {
      ok := Truth(e.value);
      passed, failed := UpdateStat(passed, failed, ok);
      var line := InfoFormat(t.moduleName, t.testName, msg, e.text, ok);
      Emit(line);
      assert Deliver(statHandler, [line]) == [Emission(statHandler, line)];
    }

    /** `check(bool, test, msg)`: forwards `expression(condition)`. */
    method CheckBool(c: bool, t: Test, msg: string) returns (ok: bool)
      modifies this
      ensures ok == c
      ensures Now() == Applied(old(Now()), statHandler, CheckEffect(t, msg, Plain(c)))
      ensures all == old(all) && statHandler == old(statHandler)
    {
      ok := CheckExpr(Capture(Bool(c)), t, msg);
    }

    /** The overload of `check` that the argument selects. */
    method Check(c: Condition, t: Test, msg: string) returns (ok: bool)
      modifies this
      ensures ok == Holds(c)
      ensures Now() == Applied(old(Now()), statHandler, CheckEffect(t, msg, c))
      ensures all == old(all) && statHandler == old(statHandler)
    {
      match c
      case Plain(b) =>
        ok := CheckBool(b, t, msg);
      case Captured(e) =>
        ok := CheckExpr(e, t, msg);
    }

    /** `test->run()`: the body's checks in order, returning after the first failed `ASSERT`. */
    method Run(t: Test)
      modifies this
      ensures Now() == Applied(old(Now()), statHandler, TestEffect(t))
      ensures all == old(all) && statHandler == old(statHandler)
    {
      ghost var s0 := Now();
      ghost var entered := Effect(0, 0, [], [t.Id()]);
      trace := trace + [t.Id()];
      assert Deliver(statHandler, []) == [];
      assert Now() == Applied(s0, statHandler, entered);
      assert entered.Then(StepsEffect(t, t.body[..0])) == entered by {
        assert t.body[..0] == [];
      }
      var i := 0;
      while i < |t.body|
        invariant 0 <= i <= |t.body|
        invariant forall j :: 0 <= j < i ==> !Stops(t.body[j])
        invariant Now() == Applied(s0, statHandler, entered.Then(StepsEffect(t, t.body[..i])))
        invariant all == old(all) && statHandler == old(statHandler)
        decreases |t.body| - i
      {
        var step := t.body[i];
        var ok := Check(step.cond, t, step.msg);
        RunStep(s0, statHandler, t, i);
        if step.kind == Assert && !ok {
          TestEffectStopped(t, i);
          return;
        }
        i := i + 1;
      }
      TestEffectFinished(t);
    }

    /** The tests of one module, by ascending name (the inner loop of `execute_module` and `execute_all`). */
    method RunModule(m: map<string, Test>)
      modifies this
      ensures Now() == Applied(old(Now()), statHandler, TestsEffect(ModuleRuns(m)))
      ensures all == old(all) && statHandler == old(statHandler)
    {
      ghost var s0 := Now();
      var ks := KeysInOrder(m);
      SortedKeysSpec(m.Keys);
      assert ks[..0] == [];
      AppliedNone(s0, statHandler);
      var i := 0;
      while i < |ks|
        invariant 0 <= i <= |ks|
        invariant forall j :: 0 <= j < |ks| ==> ks[j] in m
        invariant Now() == Applied(s0, statHandler, TestsEffect(TestsAt(m, ks[..i])))
        invariant all == old(all) && statHandler == old(statHandler)
      {
        Run(m[ks[i]]);
        ModuleStep(s0, statHandler, m, ks, i);
        i := i + 1;
      }
      assert ks[..i] == ks;
    }

    /** `execute_module(name)`: nothing when `name` is not a module, its tests by name otherwise. */
    method ExecuteModule(name: string)
      modifies this
      ensures Now() == Applied(old(Now()), statHandler,
        if name in old(all) then TestsEffect(ModuleRuns(old(all)[name])) else NoEffect)
      ensures all == old(all) && statHandler == old(statHandler)
    {
      if name !in all {
        AppliedNone(Now(), statHandler);
        return;
      }
      RunModule(all[name]);
    }

    /** `execute_test(name)`: the test `name` of every module that has one, by ascending module. */
    method ExecuteTest(name: string)
      modifies this
      ensures Now() == Applied(old(Now()), statHandler, TestsEffect(NamedRuns(old(all), name)))
      ensures all == old(all) && statHandler == old(statHandler)
    {
      ghost var s0 := Now();
      var tests := all;
      var ks := KeysInOrder(tests);
      SortedKeysSpec(tests.Keys);
      assert ks[..0] == [];
      AppliedNone(s0, statHandler);
      var i := 0;
      while i < |ks|
        invariant 0 <= i <= |ks|
        invariant forall j :: 0 <= j < |ks| ==> ks[j] in tests
        invariant Now() == Applied(s0, statHandler, TestsEffect(Matching(tests, ks[..i], name)))
        invariant all == tests && statHandler == old(statHandler)
      {
        var inner := tests[ks[i]];
        ghost var before := Now();
        if name in inner {
          Run(inner[name]);
        } else {
          AppliedNone(before, statHandler);
        }
        MatchingStep(s0, statHandler, tests, ks, i, name);
        i := i + 1;
      }
      assert ks[..i] == ks;
    }

    /** `execute_all`: every module by ascending name, each module's tests by ascending name. */
    method ExecuteAll()
      modifies this
      ensures Now() == Applied(old(Now()), statHandler, TestsEffect(AllRuns(old(all))))
      ensures all == old(all) && statHandler == old(statHandler)
    {
      ghost var s0 := Now();
      var tests := all;
      var ks := KeysInOrder(tests);
      SortedKeysSpec(tests.Keys);
      assert ks[..0] == [];
      AppliedNone(s0, statHandler);
      var i := 0;
      while i < |ks|
        invariant 0 <= i <= |ks|
        invariant forall j :: 0 <= j < |ks| ==> ks[j] in tests
        invariant Now() == Applied(s0, statHandler, TestsEffect(ModulesRuns(tests, ks[..i])))
        invariant all == tests && statHandler == old(statHandler)
      {
        RunModule(tests[ks[i]]);
        ModulesStep(s0, statHandler, tests, ks, i);
        i := i + 1;
      }
      assert ks[..i] == ks;
    }

    /** `stat()`: hands the summary line to the handler and reports whether nothing failed. */
    method Stat() returns (ok: bool)
      modifies this
      ensures ok <==> failed == 0
      ensures out == old(out) + [Emission(statHandler, StatFormat(passed, failed))]
      ensures all == old(all) && statHandler == old(statHandler)
      ensures passed == old(passed) && failed == old(failed) && trace == old(trace)
    {
      Emit(StatFormat(passed, failed));
      ok := failed == 0;
    }

    /** `try_catch(call)`, given how `call` ended: at most one diagnostic string. */
    method TryCatch(o: Outcome)
      modifies this
      ensures out == old(out) + match Diagnostic(o) case None => [] case Some(line) => [Emission(statHandler, line)]
      ensures all == old(all) && statHandler == old(statHandler)
      ensures passed == old(passed) && failed == old(failed) && trace == old(trace)
    {
      match Diagnostic(o)
      case None =>
      case Some(line) =>
        Emit(line);
    }
  }

  /**
   * The launcher's `main`: `TRY_CATCH(EXECUTE_ALL()); return !TESTING_STAT();`.
   * Checks report outcomes instead of throwing, so the call always returns.
   */
  method Launch(r: Registry) returns (status: int)
    modifies r
    ensures var s := Applied(old(r.Now()), r.statHandler, TestsEffect(AllRuns(old(r.all))));
      && r.passed == s.passed && r.failed == s.failed && r.trace == s.trace
      && r.out == s.out + [Emission(r.statHandler, StatFormat(s.passed, s.failed))]
      && (status == 0 <==> s.failed == 0)
      && (status == 0 || status == 1)
    ensures r.all == old(r.all) && r.statHandler == old(r.statHandler)
  {
    r.ExecuteAll();
    r.TryCatch(Returned);
    var ok := r.Stat();
    status := if ok then 0 else 1;
  }
}
