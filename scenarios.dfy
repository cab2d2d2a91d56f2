/**
 * Client programs: a fresh registry driven through one documented situation
 * each, with the exact counters and handler output that result. The lemmas
 * beside them work out, as plain values, what each situation runs and emits.
 */
module Scenarios {
  import opened Wrappers
  import opened LexOrder
  import opened Decimal
  import opened Expressions
  import opened Formats
  import opened Runs
  import opened Core

  // ---------------------------------------------------------------------
  // Values the situations are built from

  /** A body of one passing `EXPECT`. */
  function Passing(msg: string): seq<Step> {
    [Step(Expect, msg, Plain(true))]
  }

  /** `check(b, t, msg)`: the boolean is shown as `expression(bool)` shows it. */
  lemma PlainCheckEffect(t: Test, msg: string, b: bool)
    ensures CheckEffect(t, msg, Plain(b))
      == Effect(if b then 1 else 0, if b then 0 else 1, [InfoFormat(t.moduleName, t.testName, msg, if b then "true" else "false", b)], [])
  {
    CaptureText(Bool(b));
  }

  /** A test whose body is one `EXPECT` of `true`: one pass and its OK line. */
  lemma PassingEffect(t: Test, msg: string)
    requires t.body == Passing(msg)
    ensures TestEffect(t) == Effect(1, 0, [InfoFormat(t.moduleName, t.testName, msg, "true", true)], [t.Id()])
  {
    ExpectNeverStops(t.body);
    assert t.body[..0] == [];
    PlainCheckEffect(t, msg, true);
    NoEffectThen(CheckEffect(t, msg, Plain(true)));
    assert StepsEffect(t, t.body) == CheckEffect(t, msg, Plain(true));
  }

  /** A test whose body is one `ASSERT` of `false`: one failure, and the body ends there. */
  lemma FailingAssertEffect(t: Test, msg: string)
    requires t.body == [Step(Assert, msg, Plain(false))]
    ensures TestEffect(t) == Effect(0, 1, [InfoFormat(t.moduleName, t.testName, msg, "false", false)], [t.Id()])
  {
    PlainCheckEffect(t, msg, false);
    assert Stops(t.body[0]);
    assert Executed(t.body) == t.body;
    assert t.body[..0] == [];
    NoEffectThen(CheckEffect(t, msg, Plain(false)));
    assert StepsEffect(t, t.body) == CheckEffect(t, msg, Plain(false));
  }

  lemma TwoTestsEffect(a: Test, b: Test)
    ensures TestsEffect([a, b]) == TestEffect(a).Then(TestEffect(b))
  {
    calc {
      TestsEffect([a, b]);
      { assert [a, b][..1] == [a]; }
      TestsEffect([a]).Then(TestEffect(b));
      { assert [a][..0] == []; NoEffectThen(TestEffect(a)); }
      TestEffect(a).Then(TestEffect(b));
    }
  }

  lemma TwoPassingEffect(a: Test, b: Test, msg: string)
    requires a.body == Passing(msg) && b.body == Passing(msg)
    ensures TestsEffect([a, b]) == Effect(2, 0,
      [InfoFormat(a.moduleName, a.testName, msg, "true", true), InfoFormat(b.moduleName, b.testName, msg, "true", true)],
      [a.Id(), b.Id()])
  {
    TwoTestsEffect(a, b);
    PassingEffect(a, msg);
    PassingEffect(b, msg);
  }

  lemma FailingThenPassingEffect(a: Test, b: Test, msg: string)
    requires a.body == [Step(Assert, msg, Plain(false))] && b.body == Passing(msg)
    ensures TestsEffect([a, b]) == Effect(1, 1,
      [InfoFormat(a.moduleName, a.testName, msg, "false", false), InfoFormat(b.moduleName, b.testName, msg, "true", true)],
      [a.Id(), b.Id()])
  {
    TwoTestsEffect(a, b);
    FailingAssertEffect(a, msg);
    PassingEffect(b, msg);
  }

  lemma OnePassingEffect(t: Test, msg: string)
    requires t.body == Passing(msg)
    ensures TestsEffect([t]) == Effect(1, 0, [InfoFormat(t.moduleName, t.testName, msg, "true", true)], [t.Id()])
  {
    TestsEffectSnoc([], t);
    assert [] + [t] == [t];
    NoEffectThen(TestEffect(t));
    PassingEffect(t, msg);
  }

  lemma DeliverOne(sink: Sink, x: string)
    ensures Deliver(sink, [x]) == [Emission(sink, x)]
  {
    assert [x][..0] == [];
  }

  lemma DeliverTwo(sink: Sink, x: string, y: string)
    ensures Deliver(sink, [x, y]) == [Emission(sink, x), Emission(sink, y)]
  {
    assert [x, y][..1] == [x];
    DeliverOne(sink, x);
  }

  /** The run order over two modules `A < B` that have one test each. */
  lemma TwoModulesKeys<V>(all: map<string, V>)
    requires all.Keys == {"A", "B"}
    ensures SortedKeys(all.Keys) == ["A", "B"]
  {
    assert Less("A", "B");
    SortedKeysUnique(["A", "B"], all.Keys);
  }

  lemma OneKey<V>(m: map<string, V>, k: string)
    requires m.Keys == {k}
    ensures SortedKeys(m.Keys) == [k]
  {
    SortedKeysUnique([k], m.Keys);
  }

  // ---------------------------------------------------------------------
  // Single checks

  lemma CheckTrueEffect()
    ensures CheckEffect(Test("Math", "add", []), "m", Plain(true)) == Effect(1, 0, ["[   OK   ] Math::add.m\n"], [])
  {
    PlainCheckEffect(Test("Math", "add", []), "m", true);
    assert InfoFormat("Math", "add", "m", "true", true) == "[   OK   ] Math::add.m\n";
  }

  /** `check(true, t, "m")` on a fresh registry: one pass and the OK line. */
  method CheckTrueLine() returns (ok: bool, passed: nat, failed: nat, out: seq<Emission>)
    ensures ok && passed == 1 && failed == 0
    ensures out == [Emission(Stdout, "[   OK   ] Math::add.m\n")]
  {
    var r := new Registry();
    ghost var s0 := r.Now();
    ok := r.CheckBool(true, Test("Math", "add", []), "m");
    CheckTrueEffect();
    DeliverOne(Stdout, "[   OK   ] Math::add.m\n");
    assert r.Now() == Applied(s0, Stdout, Effect(1, 0, ["[   OK   ] Math::add.m\n"], []));
    passed, failed, out := r.passed, r.failed, r.out;
  }

  lemma FalseLine()
    ensures InfoFormat("Math", "add", "m", "false", false) == "[ FAILED ] Math::add.m [  WITH  ] false\n"
  {
  }

  lemma CheckFalseEffect()
    ensures CheckEffect(Test("Math", "add", []), "m", Plain(false))
      == Effect(0, 1, ["[ FAILED ] Math::add.m [  WITH  ] false\n"], [])
  {
    PlainCheckEffect(Test("Math", "add", []), "m", false);
    FalseLine();
  }

  /** `check(false, t, "m")` on a fresh registry: one failure and the FAILED line ending in `false`. */
  method CheckFalseLine() returns (ok: bool, passed: nat, failed: nat, out: seq<Emission>)
    ensures !ok && passed == 0 && failed == 1
    ensures out == [Emission(Stdout, "[ FAILED ] Math::add.m [  WITH  ] false\n")]
  {
    var r := new Registry();
    ghost var s0 := r.Now();
    ok := r.CheckBool(false, Test("Math", "add", []), "m");
    CheckFalseEffect();
    DeliverOne(Stdout, "[ FAILED ] Math::add.m [  WITH  ] false\n");
    assert r.Now() == Applied(s0, Stdout, Effect(0, 1, ["[ FAILED ] Math::add.m [  WITH  ] false\n"], []));
    passed, failed, out := r.passed, r.failed, r.out;
  }

  lemma ComparisonLine()
    ensures InfoFormat("Math", "cmp", "order", "4 > 5", false) == "[ FAILED ] Math::cmp.order [  WITH  ] 4 > 5\n"
  {
  }

  lemma CheckExpressionEffect(x: BoolExpr)
    requires x == Expr(Bool(false), "4 > 5")
    ensures CheckEffect(Test("Math", "cmp", []), "order", Captured(x))
      == Effect(0, 1, ["[ FAILED ] Math::cmp.order [  WITH  ] 4 > 5\n"], [])
  {
    ComparisonLine();
  }

  /** A failed captured comparison puts the comparison's text in the line. */
  method CheckExpressionLine() returns (ok: bool, out: seq<Emission>)
    ensures !ok
    ensures out == [Emission(Stdout, "[ FAILED ] Math::cmp.order [  WITH  ] 4 > 5\n")]
  {
    var r := new Registry();
    ghost var s0 := r.Now();
    GreaterExample();
    ok := r.CheckExpr(Binary(Gt, Capture(Int(4)), Capture(Int(5))), Test("Math", "cmp", []), "order");
    CheckExpressionEffect(Binary(Gt, Capture(Int(4)), Capture(Int(5))));
    DeliverOne(Stdout, "[ FAILED ] Math::cmp.order [  WITH  ] 4 > 5\n");
    assert r.Now() == Applied(s0, Stdout, Effect(0, 1, ["[ FAILED ] Math::cmp.order [  WITH  ] 4 > 5\n"], []));
    out := r.out;
  }

  // ---------------------------------------------------------------------
  // Selecting tests

  /** `execute_module("NoSuchModule")` runs nothing: counters and output stay as they were. */
  method UnknownModuleIsNoOp() returns (passed: nat, failed: nat, out: seq<Emission>)
    ensures passed == 0 && failed == 0 && out == []
  {
    var r := new Registry();
    r.Add(Test("Math", "add", Passing("m")));
    assert "NoSuchModule" !in r.all;
    ghost var s0 := r.Now();
    r.ExecuteModule("NoSuchModule");
    AppliedNone(s0, Stdout);
    passed, failed, out := r.passed, r.failed, r.out;
  }

  /** Registered `B` first and `A` second, `execute_test("shared")` still reaches `A` first. */
  lemma SharedRuns(a: Test, b: Test)
    requires a.moduleName == "A" && a.testName == "shared"
    requires b.moduleName == "B" && b.testName == "shared"
    ensures NamedRuns(Inserted(Inserted(map[], b), a), "shared") == [a, b]
  {
    var all := Inserted(Inserted(map[], b), a);
    assert all == map["B" := map["shared" := b], "A" := map["shared" := a]];
    TwoModulesKeys(all);
    var ks := ["A", "B"];
    assert ks[..1] == ["A"] && ks[..1][..0] == [];
    assert Matching(all, ks[..1], "shared") == [a];
  }

  lemma SharedLines()
    ensures InfoFormat("A", "shared", "m", "true", true) == "[   OK   ] A::shared.m\n"
    ensures InfoFormat("B", "shared", "m", "true", true) == "[   OK   ] B::shared.m\n"
  {
  }

  lemma SharedEffect(a: Test, b: Test)
    requires a.moduleName == "A" && a.testName == "shared" && a.body == Passing("m")
    requires b.moduleName == "B" && b.testName == "shared" && b.body == Passing("m")
    ensures TestsEffect(NamedRuns(Inserted(Inserted(map[], b), a), "shared"))
      == Effect(2, 0, ["[   OK   ] A::shared.m\n", "[   OK   ] B::shared.m\n"], [a.Id(), b.Id()])
  {
    SharedRuns(a, b);
    TwoPassingEffect(a, b, "m");
    SharedLines();
  }

  /** What `execute_test("shared")` leaves behind on a fresh registry holding `B::shared` and `A::shared`. */
  lemma SharedOutcome(a: Test, b: Test)
    requires a.moduleName == "A" && a.testName == "shared" && a.body == Passing("m")
    requires b.moduleName == "B" && b.testName == "shared" && b.body == Passing("m")
    ensures Applied(Snapshot(0, 0, [], []), Stdout, TestsEffect(NamedRuns(Inserted(Inserted(map[], b), a), "shared")))
      == Snapshot(2, 0, [Emission(Stdout, "[   OK   ] A::shared.m\n"), Emission(Stdout, "[   OK   ] B::shared.m\n")], [a.Id(), b.Id()])
  {
    SharedEffect(a, b);
    DeliverTwo(Stdout, "[   OK   ] A::shared.m\n", "[   OK   ] B::shared.m\n");
  }

  /** Two modules with a test called `shared`: `execute_test("shared")` runs both, module `A` first. */
  method SharedNameRunsBoth() returns (passed: nat, failed: nat, out: seq<Emission>)
    ensures passed == 2 && failed == 0
    ensures out == [Emission(Stdout, "[   OK   ] A::shared.m\n"), Emission(Stdout, "[   OK   ] B::shared.m\n")]
  {
    var a := Test("A", "shared", Passing("m"));
    var b := Test("B", "shared", Passing("m"));
    var r := new Registry();
    r.Add(b);
    r.Add(a);
    r.ExecuteTest("shared");
    SharedOutcome(a, b);
    passed, failed, out := r.passed, r.failed, r.out;
  }

  lemma OverwriteRuns(first: Test, second: Test)
    requires first.moduleName == "Math" && first.testName == "add"
    requires second.moduleName == "Math" && second.testName == "add"
    ensures NamedRuns(Inserted(Inserted(map[], first), second), "add") == [second]
  {
    OverwriteLeavesLatest(map[], first, second);
    var all := Inserted(map[], second);
    assert all == map["Math" := map["add" := second]];
    OneKey(all, "Math");
    assert ["Math"][..0] == [];
  }

  lemma OverwriteLine()
    ensures InfoFormat("Math", "add", "second", "true", true) == "[   OK   ] Math::add.second\n"
  {
  }

  lemma OverwriteEffect(first: Test, second: Test)
    requires first.moduleName == "Math" && first.testName == "add"
    requires second.moduleName == "Math" && second.testName == "add" && second.body == Passing("second")
    ensures TestsEffect(NamedRuns(Inserted(Inserted(map[], first), second), "add"))
      == Effect(1, 0, ["[   OK   ] Math::add.second\n"], [second.Id()])
  {
    OverwriteRuns(first, second);
    OnePassingEffect(second, "second");
    OverwriteLine();
  }

  /** What `execute_test("add")` leaves behind after `Math::add` was registered twice. */
  lemma OverwriteOutcome(first: Test, second: Test)
    requires first.moduleName == "Math" && first.testName == "add"
    requires second.moduleName == "Math" && second.testName == "add" && second.body == Passing("second")
    ensures Applied(Snapshot(0, 0, [], []), Stdout, TestsEffect(NamedRuns(Inserted(Inserted(map[], first), second), "add")))
      == Snapshot(1, 0, [Emission(Stdout, "[   OK   ] Math::add.second\n")], [second.Id()])
  {
    OverwriteEffect(first, second);
    DeliverOne(Stdout, "[   OK   ] Math::add.second\n");
  }

  /** Registering twice under one key: only the second test is run by name. */
  method OverwriteScenario() returns (passed: nat, failed: nat, out: seq<Emission>)
    ensures passed == 1 && failed == 0
    ensures out == [Emission(Stdout, "[   OK   ] Math::add.second\n")]
  {
    var first := Test("Math", "add", [Step(Expect, "first", Plain(false))]);
    var second := Test("Math", "add", Passing("second"));
    var r := new Registry();
    r.Add(first);
    r.Add(second);
    r.ExecuteTest("add");
    OverwriteOutcome(first, second);
    passed, failed, out := r.passed, r.failed, r.out;
  }

  // ---------------------------------------------------------------------
  // Summary, guarded calls and handlers

  lemma StatLine(passed: nat, failed: nat)
    requires passed <= 9 && failed <= 9 && passed + failed <= 9
    ensures StatFormat(passed, failed)
      == "\nOK: " + [DigitChar(passed)] + " FAILED: " + [DigitChar(failed)] + " TOTAL: " + [DigitChar(passed + failed)] + "\n"
  {
  }

  lemma StatOneZero()
    ensures StatFormat(1, 0) == "\nOK: 1 FAILED: 0 TOTAL: 1\n"
  {
    StatLine(1, 0);
  }

  lemma StatOneOne()
    ensures StatFormat(1, 1) == "\nOK: 1 FAILED: 1 TOTAL: 2\n"
  {
    StatLine(1, 1);
  }

  /** Two `stat()` calls in a row hand the same summary to the handler twice. */
  method StatTwice() returns (first: bool, second: bool, out: seq<Emission>)
    ensures first && second
    ensures out == [
      Emission(Stdout, "[   OK   ] Math::add.m\n"),
      Emission(Stdout, "\nOK: 1 FAILED: 0 TOTAL: 1\n"),
      Emission(Stdout, "\nOK: 1 FAILED: 0 TOTAL: 1\n")]
  {
    var r := new Registry();
    ghost var s0 := r.Now();
    var ok := r.CheckBool(true, Test("Math", "add", []), "m");
    CheckTrueEffect();
    DeliverOne(Stdout, "[   OK   ] Math::add.m\n");
    assert r.Now() == Applied(s0, Stdout, Effect(1, 0, ["[   OK   ] Math::add.m\n"], []));
    first := r.Stat();
    second := r.Stat();
    StatOneZero();
    out := r.out;
  }

  /** `try_catch` of a call that throws `"boom"`: exactly `boom`; of one that returns: nothing. */
  method TryCatchScenario() returns (thrown: seq<Emission>, returned: seq<Emission>)
    ensures thrown == [Emission(Stdout, "boom")]
    ensures returned == []
  {
    var r := new Registry();
    r.TryCatch(ThrewText("boom"));
    thrown := r.out;
    var q := new Registry();
    q.TryCatch(Returned);
    returned := q.out;
  }

  lemma WrittenTwo(x: Emission, y: Emission, s: Sink)
    ensures Written([x, y], s) == (if x.sink == s then [x.text] else []) + (if y.sink == s then [y.text] else [])
  {
    assert [x, y][..1] == [x] && [x][..0] == [];
    assert Written([x], s) == [] + (if x.sink == s then [x.text] else []);
  }

  /** After `STAT_HANDLER`, later lines reach the new handler and earlier ones stay where they went. */
  method HandlerSwitch() returns (toStdout: seq<string>, toCustom: seq<string>)
    ensures toStdout == ["[   OK   ] Math::add.m\n"]
    ensures toCustom == ["[   OK   ] Math::add.m\n"]
  {
    var r := new Registry();
    var t := Test("Math", "add", []);
    CheckTrueEffect();
    DeliverOne(Stdout, "[   OK   ] Math::add.m\n");
    DeliverOne(Custom(1), "[   OK   ] Math::add.m\n");
    ghost var s0 := r.Now();
    var ok := r.CheckBool(true, t, "m");
    assert r.Now() == Applied(s0, Stdout, Effect(1, 0, ["[   OK   ] Math::add.m\n"], []));
    r.SetStatHandler(Custom(1));
    ghost var s1 := r.Now();
    ok := r.CheckBool(true, t, "m");
    assert r.Now() == Applied(s1, Custom(1), Effect(1, 0, ["[   OK   ] Math::add.m\n"], []));
    assert r.out == [Emission(Stdout, "[   OK   ] Math::add.m\n"), Emission(Custom(1), "[   OK   ] Math::add.m\n")];
    WrittenTwo(r.out[0], r.out[1], Stdout);
    WrittenTwo(r.out[0], r.out[1], Custom(1));
    toStdout := Written(r.out, Stdout);
    toCustom := Written(r.out, Custom(1));
  }

  // ---------------------------------------------------------------------
  // The launcher

  lemma OneTest(m: map<string, Test>, t: Test)
    requires m == map[t.testName := t]
    ensures ModuleRuns(m) == [t]
  {
    OneKey(m, t.testName);
    var ks := [t.testName];
    assert ks[..0] == [];
    assert TestsAt(m, ks) == TestsAt(m, []) + [m[t.testName]];
  }

  lemma LaunchRuns(bad: Test, good: Test)
    requires bad.moduleName == "A" && good.moduleName == "B"
    ensures AllRuns(Inserted(Inserted(map[], good), bad)) == [bad, good]
  {
    var all := Inserted(Inserted(map[], good), bad);
    assert all == map["B" := map[good.testName := good], "A" := map[bad.testName := bad]];
    TwoModulesKeys(all);
    OneTest(all["A"], bad);
    OneTest(all["B"], good);
    var ks := ["A", "B"];
    assert ks[..1] == ["A"] && ks[..1][..0] == [];
    assert ModulesRuns(all, ks[..1]) == [bad];
  }

  lemma LaunchLines()
    ensures InfoFormat("A", "bad", "m", "false", false) == "[ FAILED ] A::bad.m [  WITH  ] false\n"
    ensures InfoFormat("B", "good", "m", "true", true) == "[   OK   ] B::good.m\n"
  {
  }

  lemma LaunchEffect(bad: Test, good: Test)
    requires bad.moduleName == "A" && bad.testName == "bad" && bad.body == [Step(Assert, "m", Plain(false))]
    requires good.moduleName == "B" && good.testName == "good" && good.body == Passing("m")
    ensures TestsEffect(AllRuns(Inserted(Inserted(map[], good), bad)))
      == Effect(1, 1, ["[ FAILED ] A::bad.m [  WITH  ] false\n", "[   OK   ] B::good.m\n"], [bad.Id(), good.Id()])
  {
    LaunchRuns(bad, good);
    FailingThenPassingEffect(bad, good, "m");
    LaunchLines();
  }

  /** What running every test leaves behind on a fresh registry holding `B::good` and `A::bad`. */
  lemma LaunchOutcome(bad: Test, good: Test)
    requires bad.moduleName == "A" && bad.testName == "bad" && bad.body == [Step(Assert, "m", Plain(false))]
    requires good.moduleName == "B" && good.testName == "good" && good.body == Passing("m")
    ensures Applied(Snapshot(0, 0, [], []), Stdout, TestsEffect(AllRuns(Inserted(Inserted(map[], good), bad))))
      == Snapshot(1, 1, [Emission(Stdout, "[ FAILED ] A::bad.m [  WITH  ] false\n"), Emission(Stdout, "[   OK   ] B::good.m\n")],
                  [bad.Id(), good.Id()])
  {
    LaunchEffect(bad, good);
    DeliverTwo(Stdout, "[ FAILED ] A::bad.m [  WITH  ] false\n", "[   OK   ] B::good.m\n");
  }

  /** The launcher on a registry holding one failing and one passing test: exit status 1. */
  method LaunchScenario() returns (status: int, out: seq<Emission>)
    ensures status == 1
    ensures out == [
      Emission(Stdout, "[ FAILED ] A::bad.m [  WITH  ] false\n"),
      Emission(Stdout, "[   OK   ] B::good.m\n"),
      Emission(Stdout, "\nOK: 1 FAILED: 1 TOTAL: 2\n")]
  {
    var bad := Test("A", "bad", [Step(Assert, "m", Plain(false))]);
    var good := Test("B", "good", Passing("m"));
    var r := new Registry();
    r.Add(good);
    r.Add(bad);
    LaunchOutcome(bad, good);
    StatOneOne();
    status := Launch(r);
    out := r.out;
  }
}
