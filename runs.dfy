/**
 * What running tests does, as values: a test's body as the checks its
 * `run()` performs, the `ASSERT`/`EXPECT` convention that decides how much of
 * it runs, the effect of a run on the counters and the handler's output, and
 * the order in which `execute_module`, `execute_test` and `execute_all` reach
 * the tests of the two-level map `module -> name -> test`.
 */
module Runs {
  import opened Wrappers
  import opened LexOrder
  import opened Expressions
  import opened Formats

  /** `EXPECT` carries on after a failed check; `ASSERT` returns from `run()`. */
  datatype Kind = Expect | Assert

  /** A captured `expression_t<bool>`: the only captured kind `check` accepts. */
  type BoolExpr = e: Expr | e.value.Bool? witness Expr(Bool(false), "false")

  /** The argument of `check`: a plain `bool`, or a captured `expression_t<bool>`. */
  datatype Condition = Plain(b: bool) | Captured(e: BoolExpr)

  /** One `EXPECT(msg, cond)` or `ASSERT(msg, cond)` of a test body. */
  datatype Step = Step(kind: Kind, msg: string, cond: Condition)

  datatype TestId = TestId(moduleName: string, testName: string)

  /** A `test_t`: its module and name, and the checks its `run()` performs. */
  datatype Test = Test(moduleName: string, testName: string, body: seq<Step>) {
    function Id(): TestId {
      TestId(moduleName, testName)
    }
  }

  /** The registry's map: module name to test name to test. */
  type Tests = map<string, map<string, Test>>

  /** `check(bool c, ...)` passes `expression(c)` on to the expression overload. */
  function AsExpr(c: Condition): Expr {
    match c
    case Plain(b) => Capture(Bool(b))
    case Captured(e) => e
  }

  /** The outcome `check` computes: `static_cast<bool>(expression.value)`. */
  function Holds(c: Condition): bool {
    Truth(AsExpr(c).value)
  }

  /** A failed `ASSERT` ends the body. */
  predicate Stops(s: Step) {
    s.kind == Assert && !Holds(s.cond)
  }

  /** The steps of a body that run: all of them, or up to and including the first failed `ASSERT`. */
  function Executed(body: seq<Step>): seq<Step>
    decreases |body|
  {
    if body == [] then []
    else if Stops(body[0]) then [body[0]]
    else [body[0]] + Executed(body[1..])
  }

  // ---------------------------------------------------------------------
  // Effects

  /** What a sequence of runs adds to the counters, the handler's lines and the run trace. */
  datatype Effect = Effect(passed: nat, failed: nat, lines: seq<string>, ran: seq<TestId>) {
    function Then(next: Effect): Effect {
      Effect(passed + next.passed, failed + next.failed, lines + next.lines, ran + next.ran)
    }
  }

  const NoEffect := Effect(0, 0, [], [])

  /** One check of test `t`: one counter, one line. */
  function CheckEffect(t: Test, msg: string, c: Condition): Effect {
    var ok := Holds(c);
    Effect(if ok then 1 else 0, if ok then 0 else 1, [InfoFormat(t.moduleName, t.testName, msg, AsExpr(c).text, ok)], [])
  }

  function StepsEffect(t: Test, steps: seq<Step>): Effect
    decreases |steps|
  {
    if steps == [] then NoEffect
    else
      var last := steps[|steps| - 1];
      StepsEffect(t, steps[..|steps| - 1]).Then(CheckEffect(t, last.msg, last.cond))
  }

  /** One `run()`: the test is entered, then its executed steps are checked in order. */
  function TestEffect(t: Test): Effect {
    Effect(0, 0, [], [t.Id()]).Then(StepsEffect(t, Executed(t.body)))
  }

  function TestsEffect(ts: seq<Test>): Effect
    decreases |ts|
  {
    if ts == [] then NoEffect else TestsEffect(ts[..|ts| - 1]).Then(TestEffect(ts[|ts| - 1]))
  }

  function Ids(ts: seq<Test>): seq<TestId>
    decreases |ts|
  {
    if ts == [] then [] else Ids(ts[..|ts| - 1]) + [ts[|ts| - 1].Id()]
  }

  /** The number of lines whose tag reports outcome `ok`. */
  function CountVerdict(lines: seq<string>, ok: bool): nat
    decreases |lines|
  {
    if lines == [] then 0
    else CountVerdict(lines[..|lines| - 1], ok) + (if Verdict(lines[|lines| - 1]) == Some(ok) then 1 else 0)
  }

  // ---------------------------------------------------------------------
  // Run order

  /** The tests of module map `m` under the names `ks`, in that order. */
  ghost function TestsAt(m: map<string, Test>, ks: seq<string>): seq<Test>
    requires forall i :: 0 <= i < |ks| ==> ks[i] in m
    decreases |ks|
  {
    if ks == [] then [] else TestsAt(m, ks[..|ks| - 1]) + [m[ks[|ks| - 1]]]
  }

  /** The tests of one module, by ascending name. */
  ghost function ModuleRuns(m: map<string, Test>): seq<Test> {
    SortedKeysSpec(m.Keys);
    TestsAt(m, SortedKeys(m.Keys))
  }

  /** The tests of the modules `ks`, module after module. */
  ghost function ModulesRuns(all: Tests, ks: seq<string>): seq<Test>
    requires forall i :: 0 <= i < |ks| ==> ks[i] in all
    decreases |ks|
  {
    if ks == [] then [] else ModulesRuns(all, ks[..|ks| - 1]) + ModuleRuns(all[ks[|ks| - 1]])
  }

  /** What `execute_all` runs. */
  ghost function AllRuns(all: Tests): seq<Test> {
    SortedKeysSpec(all.Keys);
    ModulesRuns(all, SortedKeys(all.Keys))
  }

  /** The test called `name` in each of the modules `ks` that has one. */
  ghost function Matching(all: Tests, ks: seq<string>, name: string): seq<Test>
    requires forall i :: 0 <= i < |ks| ==> ks[i] in all
    decreases |ks|
  {
    if ks == [] then []
    else
      var m := all[ks[|ks| - 1]];
      Matching(all, ks[..|ks| - 1], name) + (if name in m then [m[name]] else [])
  }

  /** What `execute_test(name)` runs. */
  ghost function NamedRuns(all: Tests, name: string): seq<Test> {
    SortedKeysSpec(all.Keys);
    Matching(all, SortedKeys(all.Keys), name)
  }

  /** Every stored test sits under its own module and name, and no module is empty. */
  ghost predicate WellFormed(all: Tests) {
    forall m :: m in all ==>
      && all[m] != map[]
      && forall n :: n in all[m] ==> all[m][n].moduleName == m && all[m][n].testName == n
  }

  /** `add(t)`: `all[t.module][t.name] = t`, creating the module's map when absent. */
  function Inserted(all: Tests, t: Test): Tests {
    var inner := if t.moduleName in all then all[t.moduleName] else map[];
    all[t.moduleName := inner[t.testName := t]]
  }

  /** The test stored under `(m, n)`, if any. */
  function Lookup(all: Tests, m: string, n: string): Option<Test> {
    if m in all && n in all[m] then Some(all[m][n]) else None
  }

  /** The lexicographic order on `(module, name)` that `execute_all` follows. */
  predicate Before(a: TestId, b: TestId) {
    Less(a.moduleName, b.moduleName) || (a.moduleName == b.moduleName && Less(a.testName, b.testName))
  }

  /** Each test comes strictly before every later one in `(module, name)` order. */
  predicate InRunOrder(ts: seq<Test>) {
    forall i, j :: 0 <= i < j < |ts| ==> Before(ts[i].Id(), ts[j].Id())
  }

  // ---------------------------------------------------------------------
  // The ASSERT / EXPECT convention

  /**
   * A body runs as a prefix of itself, never empty unless the body is: no
   * step before the last executed one stopped it, and it is cut short only
   * right after a failed `ASSERT`.
   */
  lemma {:induction false} ExecutedPrefix(body: seq<Step>)
    ensures |Executed(body)| <= |body| && Executed(body) == body[..|Executed(body)|]
    ensures body != [] ==> |Executed(body)| > 0
    ensures forall j :: 0 <= j < |Executed(body)| - 1 ==> !Stops(body[j])
    ensures |Executed(body)| < |body| ==> Stops(body[|Executed(body)| - 1])
    decreases |body|
  {
    if body != [] && !Stops(body[0]) {
      ExecutedPrefix(body[1..]);
      var rest := Executed(body[1..]);
      assert Executed(body) == [body[0]] + rest;
      assert body[..|rest| + 1] == [body[0]] + body[1..][..|rest|];
      forall j | 0 <= j < |Executed(body)| - 1
        ensures !Stops(body[j])
      {
        if j > 0 {
          assert body[j] == body[1..][j - 1];
        }
      }
      if |Executed(body)| < |body| {
        assert body[|Executed(body)| - 1] == body[1..][|rest| - 1];
      }
    }
  }

  /** A body of `EXPECT`s only always runs to its end. */
  lemma {:induction false} ExpectNeverStops(body: seq<Step>)
    requires forall j :: 0 <= j < |body| ==> body[j].kind == Expect
    ensures Executed(body) == body
    decreases |body|
  {
    if body != [] {
      ExpectNeverStops(body[1..]);
      assert body == [body[0]] + body[1..];
    }
  }

  /** Steps that did not stop the body pass control to the rest of it. */
  lemma {:induction false} ExecutedUpTo(body: seq<Step>, i: nat)
    requires i <= |body|
    requires forall j :: 0 <= j < i ==> !Stops(body[j])
    ensures Executed(body) == body[..i] + Executed(body[i..])
    decreases i
  {
    if i > 0 {
      ExecutedUpTo(body[1..], i - 1);
      assert body[1..][i - 1..] == body[i..];
      assert body[..i] == [body[0]] + body[1..][..i - 1];
    }
  }

  // ---------------------------------------------------------------------
  // Accounting

  lemma ThenAssociative(a: Effect, b: Effect, c: Effect)
    ensures a.Then(b).Then(c) == a.Then(b.Then(c))
  {
    assert (a.lines + b.lines) + c.lines == a.lines + (b.lines + c.lines);
    assert (a.ran + b.ran) + c.ran == a.ran + (b.ran + c.ran);
  }

  lemma NoEffectThen(e: Effect)
    ensures NoEffect.Then(e) == e
  {
    assert [] + e.lines == e.lines && [] + e.ran == e.ran;
  }

  lemma {:induction false} TestsEffectAppend(a: seq<Test>, b: seq<Test>)
    ensures TestsEffect(a + b) == TestsEffect(a).Then(TestsEffect(b))
    decreases |b|
  {
    if b == [] {
      assert a + b == a;
      assert TestsEffect(b) == NoEffect;
      assert TestsEffect(a).lines + [] == TestsEffect(a).lines;
      assert TestsEffect(a).ran + [] == TestsEffect(a).ran;
    } else {
      var b', last := b[..|b| - 1], b[|b| - 1];
      var ab := a + b;
      assert ab[..|ab| - 1] == a + b' && ab[|ab| - 1] == last;
      assert TestsEffect(ab) == TestsEffect(a + b').Then(TestEffect(last));
      TestsEffectAppend(a, b');
      assert TestsEffect(b) == TestsEffect(b').Then(TestEffect(last));
      ThenAssociative(TestsEffect(a), TestsEffect(b'), TestEffect(last));
    }
  }

  lemma {:induction false} CountVerdictAppend(a: seq<string>, b: seq<string>, ok: bool)
    ensures CountVerdict(a + b, ok) == CountVerdict(a, ok) + CountVerdict(b, ok)
    decreases |b|
  {
    if b == [] {
      assert a + b == a;
    } else {
      var b' := b[..|b| - 1];
      assert (a + b)[..|a + b| - 1] == a + b';
      CountVerdictAppend(a, b', ok);
    }
  }

  /** Each counted check has exactly one line, tagged with its outcome. */
  ghost predicate Accounted(e: Effect) {
    && e.passed + e.failed == |e.lines|
    && e.passed == CountVerdict(e.lines, true)
    && e.failed == CountVerdict(e.lines, false)
  }

  lemma ThenAccounted(a: Effect, b: Effect)
    requires Accounted(a) && Accounted(b)
    ensures Accounted(a.Then(b))
  {
    CountVerdictAppend(a.lines, b.lines, true);
    CountVerdictAppend(a.lines, b.lines, false);
  }

  /** One check bumps exactly one counter by one and emits one line carrying its outcome. */
  lemma CheckEffectExact(t: Test, msg: string, c: Condition)
    ensures var e := CheckEffect(t, msg, c);
      && e.passed + e.failed == 1 && (e.passed == 1 <==> Holds(c))
      && |e.lines| == 1 && Verdict(e.lines[0]) == Some(Holds(c))
      && (!Holds(c) ==> e.lines[0] == FailedTag + t.moduleName + "::" + t.testName + "." + msg + WithTag + AsExpr(c).text + "\n")
      && e.ran == []
  {
    InfoFormatShape(t.moduleName, t.testName, msg, AsExpr(c).text, Holds(c));
  }

  lemma CheckAccounted(t: Test, msg: string, c: Condition)
    ensures Accounted(CheckEffect(t, msg, c)) && CheckEffect(t, msg, c).ran == []
    ensures |CheckEffect(t, msg, c).lines| == 1
  {
    CheckEffectExact(t, msg, c);
    var e := CheckEffect(t, msg, c);
    assert e.lines[..0] == [];
  }

  /** Appending one accounted check to an accounted effect keeps it accounted. */
  lemma AccountedStep(before: Effect, check: Effect)
    requires Accounted(before) && before.ran == []
    requires Accounted(check) && check.ran == [] && |check.lines| == 1
    ensures Accounted(before.Then(check)) && before.Then(check).ran == []
    ensures |before.Then(check).lines| == |before.lines| + 1
  {
    ThenAccounted(before, check);
  }

  lemma {:induction false} StepsAccounted(t: Test, steps: seq<Step>)
    ensures Accounted(StepsEffect(t, steps)) && StepsEffect(t, steps).ran == []
    ensures |StepsEffect(t, steps).lines| == |steps|
    decreases |steps|
  {
    if steps != [] {
      var front, last := steps[..|steps| - 1], steps[|steps| - 1];
      StepsAccounted(t, front);
      CheckAccounted(t, last.msg, last.cond);
      AccountedStep(StepsEffect(t, front), CheckEffect(t, last.msg, last.cond));
    }
  }

  /**
   * Running tests changes the counters only through their checks: every
   * check adds one line, the passed count is the number of OK lines, the
   * failed count the number of FAILED lines, and the trace lists the tests run.
   */
  lemma {:induction false} TestsAccounted(ts: seq<Test>)
    ensures Accounted(TestsEffect(ts))
    ensures TestsEffect(ts).ran == Ids(ts)
    decreases |ts|
  {
    if ts != [] {
      var last := ts[|ts| - 1];
      TestsAccounted(ts[..|ts| - 1]);
      StepsAccounted(last, Executed(last.body));
      assert Accounted(Effect(0, 0, [], [last.Id()]));
      ThenAccounted(Effect(0, 0, [], [last.Id()]), StepsEffect(last, Executed(last.body)));
      ThenAccounted(TestsEffect(ts[..|ts| - 1]), TestEffect(last));
    }
  }

  /** The effect of a body grows by one check per step. */
  lemma StepsEffectSnoc(t: Test, body: seq<Step>, i: nat)
    requires i < |body|
    ensures StepsEffect(t, body[..i + 1]) == StepsEffect(t, body[..i]).Then(CheckEffect(t, body[i].msg, body[i].cond))
  {
    assert body[..i + 1][..i] == body[..i];
  }

  /** When step `i` is the first to stop the body, the run ends with its check. */
  lemma TestEffectStopped(t: Test, i: nat)
    requires i < |t.body| && Stops(t.body[i])
    requires forall j :: 0 <= j < i ==> !Stops(t.body[j])
    ensures TestEffect(t) == Effect(0, 0, [], [t.Id()]).Then(StepsEffect(t, t.body[..i + 1]))
  {
    ExecutedUpTo(t.body, i);
    assert Executed(t.body[i..]) == [t.body[i]];
    assert t.body[..i] + [t.body[i]] == t.body[..i + 1];
  }

  /** When no step stops the body, the run performs every check. */
  lemma TestEffectFinished(t: Test)
    requires forall j :: 0 <= j < |t.body| ==> !Stops(t.body[j])
    ensures TestEffect(t) == Effect(0, 0, [], [t.Id()]).Then(StepsEffect(t, t.body[..|t.body|]))
  {
    ExecutedUpTo(t.body, |t.body|);
    assert t.body[|t.body|..] == [];
    assert t.body[..|t.body|] + [] == t.body[..|t.body|];
  }

  lemma TestsEffectSnoc(ts: seq<Test>, t: Test)
    ensures TestsEffect(ts + [t]) == TestsEffect(ts).Then(TestEffect(t))
  {
    assert (ts + [t])[..|ts|] == ts;
  }

  // ---------------------------------------------------------------------
  // Run order

  lemma {:induction false} TestsAtSpec(m: map<string, Test>, ks: seq<string>)
    requires forall i :: 0 <= i < |ks| ==> ks[i] in m
    ensures |TestsAt(m, ks)| == |ks|
    ensures forall i :: 0 <= i < |ks| ==> TestsAt(m, ks)[i] == m[ks[i]]
    decreases |ks|
  {
    if ks != [] {
      TestsAtSpec(m, ks[..|ks| - 1]);
    }
  }

  /**
   * `execute_module(m)` reaches each test of module `m` once, by strictly
   * ascending name, and nothing outside that module.
   */
  lemma ModuleRunsOrder(all: Tests, m: string)
    requires WellFormed(all) && m in all
    ensures var ts := ModuleRuns(all[m]);
      && |ts| == |all[m]|
      && (forall i :: 0 <= i < |ts| ==> ts[i].moduleName == m && Lookup(all, m, ts[i].testName) == Some(ts[i]))
      && (forall i, j :: 0 <= i < j < |ts| ==> Less(ts[i].testName, ts[j].testName))
      && (forall n :: n in all[m] ==> all[m][n] in ts)
  {
    var ks := SortedKeys(all[m].Keys);
    SortedKeysSpec(all[m].Keys);
    TestsAtSpec(all[m], ks);
    var ts := ModuleRuns(all[m]);
    assert ts == TestsAt(all[m], ks);
    forall n | n in all[m]
      ensures all[m][n] in ts
    {
      var i :| 0 <= i < |ks| && ks[i] == n;
      assert ts[i] == all[m][n];
    }
  }

  lemma StrictlyIncreasingFront(front: seq<string>, k: string)
    requires StrictlyIncreasing(front + [k])
    ensures StrictlyIncreasing(front)
    ensures forall x :: x in front ==> Less(x, k)
  {
    var ks := front + [k];
    assert forall i, j :: 0 <= i < j < |front| ==> front[i] == ks[i] && front[j] == ks[j];
    forall x | x in front
      ensures Less(x, k)
    {
      var i :| 0 <= i < |front| && front[i] == x;
      assert ks[i] == x && ks[|front|] == k;
    }
  }

  lemma {:induction false} ModulesRunsStored(all: Tests, ks: seq<string>)
    requires WellFormed(all)
    requires forall i :: 0 <= i < |ks| ==> ks[i] in all
    ensures forall t :: t in ModulesRuns(all, ks) ==> t.moduleName in ks && Lookup(all, t.moduleName, t.testName) == Some(t)
    decreases |ks|
  {
    if ks != [] {
      var front, k := ks[..|ks| - 1], ks[|ks| - 1];
      assert ks == front + [k];
      ModulesRunsStored(all, front);
      ModuleRunsOrder(all, k);
      var done, block := ModulesRuns(all, front), ModuleRuns(all[k]);
      assert ModulesRuns(all, ks) == done + block;
      forall t: Test | t in done + block
        ensures t.moduleName in ks && Lookup(all, t.moduleName, t.testName) == Some(t)
      {
        if t in done {
          assert t.moduleName in front;
        } else {
          var i :| 0 <= i < |block| && block[i] == t;
        }
      }
    }
  }

  lemma {:induction false} ModulesRunsSorted(all: Tests, ks: seq<string>)
    requires WellFormed(all) && StrictlyIncreasing(ks)
    requires forall i :: 0 <= i < |ks| ==> ks[i] in all
    ensures InRunOrder(ModulesRuns(all, ks))
    decreases |ks|
  {
    if ks != [] {
      var front, k := ks[..|ks| - 1], ks[|ks| - 1];
      assert ks == front + [k];
      StrictlyIncreasingFront(front, k);
      ModulesRunsSorted(all, front);
      ModulesRunsStored(all, front);
      ModuleRunsOrder(all, k);
      var done, block := ModulesRuns(all, front), ModuleRuns(all[k]);
      assert ModulesRuns(all, ks) == done + block;
      assert forall t :: t in done ==> Less(t.moduleName, k);
      BlocksInRunOrder(done, block, k);
    }
  }

  /** Runs of earlier modules, then the runs of module `k` by ascending name, stay in run order. */
  lemma BlocksInRunOrder(done: seq<Test>, block: seq<Test>, k: string)
    requires InRunOrder(done)
    requires forall t :: t in done ==> Less(t.moduleName, k)
    requires forall i :: 0 <= i < |block| ==> block[i].moduleName == k
    requires forall i, j :: 0 <= i < j < |block| ==> Less(block[i].testName, block[j].testName)
    ensures InRunOrder(done + block)
  {
    var ts := done + block;
    forall i, j | 0 <= i < j < |ts|
      ensures Before(ts[i].Id(), ts[j].Id())
    {
      if j < |done| {
        assert ts[i] == done[i] && ts[j] == done[j];
      } else if i >= |done| {
        assert ts[i] == block[i - |done|] && ts[j] == block[j - |done|];
      } else {
        assert ts[i] == done[i] && ts[j] == block[j - |done|];
        assert done[i] in done;
      }
    }
  }

  lemma {:induction false} ModulesRunsCover(all: Tests, ks: seq<string>)
    requires WellFormed(all)
    requires forall i :: 0 <= i < |ks| ==> ks[i] in all
    ensures forall m, n :: m in ks && n in all[m] ==> all[m][n] in ModulesRuns(all, ks)
    decreases |ks|
  {
    if ks != [] {
      var front, k := ks[..|ks| - 1], ks[|ks| - 1];
      ModulesRunsCover(all, front);
      ModuleRunsOrder(all, k);
      var done, block := ModulesRuns(all, front), ModuleRuns(all[k]);
      var ts := ModulesRuns(all, ks);
      assert ts == done + block;
      forall m, n | m in ks && n in all[m]
        ensures all[m][n] in ts
      {
        if m == k {
          assert all[m][n] in block;
        } else {
          assert m in front by {
            var i :| 0 <= i < |ks| && ks[i] == m;
            assert front[i] == m;
          }
          assert all[m][n] in done;
        }
      }
    }
  }

  /**
   * `execute_all` reaches every stored test exactly once, in strictly
   * ascending lexicographic `(module, name)` order, and nothing else.
   */
  lemma AllRunsOrder(all: Tests)
    requires WellFormed(all)
    ensures var ts := AllRuns(all);
      && (forall i :: 0 <= i < |ts| ==> Lookup(all, ts[i].moduleName, ts[i].testName) == Some(ts[i]))
      && InRunOrder(ts)
      && (forall m, n :: m in all && n in all[m] ==> all[m][n] in ts)
  {
    SortedKeysSpec(all.Keys);
    var ks := SortedKeys(all.Keys);
    ModulesRunsStored(all, ks);
    ModulesRunsSorted(all, ks);
    ModulesRunsCover(all, ks);
  }

  /** Strictly ascending module names. */
  predicate ByModule(ts: seq<Test>) {
    forall i, j :: 0 <= i < j < |ts| ==> Less(ts[i].moduleName, ts[j].moduleName)
  }

  lemma {:induction false} MatchingStored(all: Tests, ks: seq<string>, name: string)
    requires WellFormed(all)
    requires forall i :: 0 <= i < |ks| ==> ks[i] in all
    ensures forall t :: t in Matching(all, ks, name) ==> t.moduleName in ks && t.testName == name && Lookup(all, t.moduleName, name) == Some(t)
    decreases |ks|
  {
    if ks != [] {
      var front, k := ks[..|ks| - 1], ks[|ks| - 1];
      assert ks == front + [k];
      MatchingStored(all, front, name);
      var done := Matching(all, front, name);
      var ts := Matching(all, ks, name);
      assert ts == done + (if name in all[k] then [all[k][name]] else []);
      forall t | t in ts
        ensures t.moduleName in ks && t.testName == name && Lookup(all, t.moduleName, name) == Some(t)
      {
        if t in done {
          assert t.moduleName in front;
        }
      }
    }
  }

  lemma {:induction false} MatchingSorted(all: Tests, ks: seq<string>, name: string)
    requires WellFormed(all) && StrictlyIncreasing(ks)
    requires forall i :: 0 <= i < |ks| ==> ks[i] in all
    ensures ByModule(Matching(all, ks, name))
    decreases |ks|
  {
    if ks != [] {
      var front, k := ks[..|ks| - 1], ks[|ks| - 1];
      assert ks == front + [k];
      StrictlyIncreasingFront(front, k);
      MatchingSorted(all, front, name);
      MatchingStored(all, front, name);
      var done := Matching(all, front, name);
      var ts := Matching(all, ks, name);
      assert ts == done + (if name in all[k] then [all[k][name]] else []);
      forall i, j | 0 <= i < j < |ts|
        ensures Less(ts[i].moduleName, ts[j].moduleName)
      {
        if j < |done| {
          assert ts[i] == done[i] && ts[j] == done[j];
        } else {
          assert ts[i] == done[i] && done[i] in done && done[i].moduleName in front;
        }
      }
    }
  }

  lemma {:induction false} MatchingCover(all: Tests, ks: seq<string>, name: string)
    requires WellFormed(all)
    requires forall i :: 0 <= i < |ks| ==> ks[i] in all
    ensures forall m :: m in ks && name in all[m] ==> all[m][name] in Matching(all, ks, name)
    decreases |ks|
  {
    if ks != [] {
      var front, k := ks[..|ks| - 1], ks[|ks| - 1];
      assert ks == front + [k];
      MatchingCover(all, front, name);
      var done := Matching(all, front, name);
      var ts := Matching(all, ks, name);
      assert ts == done + (if name in all[k] then [all[k][name]] else []);
      forall m | m in ks && name in all[m]
        ensures all[m][name] in ts
      {
        if m != k {
          assert m in front by {
            var i :| 0 <= i < |ks| && ks[i] == m;
            assert front[i] == m;
          }
        }
      }
    }
  }

  lemma MatchingSpec(all: Tests, ks: seq<string>, name: string)
    requires WellFormed(all) && StrictlyIncreasing(ks)
    requires forall i :: 0 <= i < |ks| ==> ks[i] in all
    ensures var ts := Matching(all, ks, name);
      && (forall i :: 0 <= i < |ts| ==> ts[i].moduleName in ks && ts[i].testName == name && Lookup(all, ts[i].moduleName, name) == Some(ts[i]))
      && (forall i, j :: 0 <= i < j < |ts| ==> Less(ts[i].moduleName, ts[j].moduleName))
      && (forall m :: m in ks && name in all[m] ==> all[m][name] in ts)
  {
    MatchingStored(all, ks, name);
    MatchingSorted(all, ks, name);
    MatchingCover(all, ks, name);
  }

  /**
   * `execute_test(name)` reaches, by strictly ascending module, the test
   * `name` of every module that has one, and no other test.
   */
  lemma NamedRunsSpec(all: Tests, name: string)
    requires WellFormed(all)
    ensures var ts := NamedRuns(all, name);
      && (forall i :: 0 <= i < |ts| ==> ts[i].testName == name && Lookup(all, ts[i].moduleName, name) == Some(ts[i]))
      && (forall i, j :: 0 <= i < j < |ts| ==> Less(ts[i].moduleName, ts[j].moduleName))
      && (forall m :: m in all && name in all[m] ==> all[m][name] in ts)
  {
    SortedKeysSpec(all.Keys);
    var ks := SortedKeys(all.Keys);
    assert NamedRuns(all, name) == Matching(all, ks, name);
    MatchingSpec(all, ks, name);
  }

  // ---------------------------------------------------------------------
  // Registration

  /** `add(t)` stores `t` under its key, replacing what was there, and leaves every other entry alone. */
  lemma InsertedLookup(all: Tests, t: Test)
    requires WellFormed(all)
    ensures WellFormed(Inserted(all, t))
    ensures Inserted(all, t).Keys == all.Keys + {t.moduleName}
    ensures forall m, n ::
      Lookup(Inserted(all, t), m, n) == if m == t.moduleName && n == t.testName then Some(t) else Lookup(all, m, n)
  {
    var after: Tests := Inserted(all, t);
    forall m | m in after
      ensures after[m] != map[]
      ensures forall n :: n in after[m] ==> after[m][n].moduleName == m && after[m][n].testName == n
    {
      if m == t.moduleName {
        assert t.testName in after[m];
      }
    }
  }

  /**
   * Registering a second test under the same `(module, name)` is the same as
   * registering only the second: the first is no longer reachable by `execute_test`.
   */
  lemma OverwriteLeavesLatest(all: Tests, first: Test, second: Test)
    requires WellFormed(all) && first.Id() == second.Id()
    ensures Inserted(Inserted(all, first), second) == Inserted(all, second)
    ensures second in NamedRuns(Inserted(all, second), second.testName)
    ensures first != second ==> first !in NamedRuns(Inserted(all, second), second.testName)
  {
    var after := Inserted(all, second);
    var twice := Inserted(Inserted(all, first), second);
    var inner := if first.moduleName in all then all[first.moduleName] else map[];
    assert twice[first.moduleName] == inner[first.testName := first][second.testName := second];
    assert inner[first.testName := first][second.testName := second] == inner[second.testName := second];
    assert twice == after;
    InsertedLookup(all, second);
    NamedRunsSpec(after, second.testName);
  }
}
