# Eightest / Automation core in Dafny

This project models the core of a C++ unit-testing framework that ships as two header
copies, `Automation/Core.hpp` and `include/Eightest/Core.hpp`, with one implementation
file, `src/Automation/Core.cpp`:

- **Expression capture** (`expression_t`). A checked value is paired with a text that
  describes it. The lifted operators `!`, `==`, `!=`, `<`, `<=`, `>`, `>=`, `&&` and `||`
  build the combined value and the combined text together.
- **The registry** (`registry_t`). A two-level map `module -> name -> test`, the
  `passed`/`failed` counters and a replaceable `stat_handler`. Its operations are
  `add`, both `check` overloads, `execute_module`, `execute_test`, `execute_all`,
  `stat` and `try_catch`. The text they hand to the handler comes from
  `info_format` and `stat_format`.
- **The launcher's `main`.** It runs every test under `try_catch`, prints the summary
  and exits with status 0 exactly when nothing failed.

Modules:

| module | file | what it holds |
|---|---|---|
| `Wrappers` | wrappers.dfy | `Option` |
| `LexOrder` | lexorder.dfy | `std::string`'s `<` and the ascending key order that `std::map` iterates in |
| `Decimal` | decimal.dfy | `std::to_string` and `stream << int` as decimal text, and reading it back |
| `Expressions` | expressions.dfy | `expression_t`, the `expression` helpers, `operator!` and the eight lifted operators |
| `Formats` | formats.dfy | `info_format`, `stat_format` and what `try_catch` forwards |
| `Runs` | runs.dfy | test bodies as sequences of checks, the `ASSERT`/`EXPECT` convention, a run's effect as a value, and the order the `execute_*` operations reach tests |
| `Core` | core.dfy | class `Registry` (the registry object) and `Launch` (the launcher) |
| `Scenarios` | scenarios.dfy | client programs that drive a fresh registry through one documented situation each, with their exact counters and output |

Modelling choices:

- **Combined registry.** `Registry` follows the declarations of include/Eightest/Core.hpp:
  a global object, a `stat_handler` member and `bool stat()`. It uses the bodies in
  src/Automation/Core.cpp.
  - The .cpp's `stat` is `void`. The model's `Stat` also returns `failed == 0`, which
    the launcher's `return !TESTING_STAT()` needs.
  - Automation/Core.hpp declares `expression(bool const&)`, `expression(std::nullptr_t const&)`
    and a function `registry_t& global()`. The .cpp defines by-value overloads and an
    object `global`. The model follows the .cpp and the Eightest header.
- **`nullptr` text.** `expression(nullptr)` has the text `nullptr`, as src/Automation/Core.cpp:10 writes it.
- **Values.** Captured values are integers, `bool` and `nullptr` (`Value`).
  - `Comparable` admits exactly the operand pairs C++ would compile.
  - `bool` is promoted to `int` in comparisons.
  - `Truth` is `static_cast<bool>`.
  - `expression(v)` streams the value and reads back its first whitespace-delimited
    token (`FirstToken`).
- **Tests.** A test's `run()` is a sequence of `Step`s, each an `EXPECT` or an `ASSERT`
  of a plain `bool` or of a captured `expression_t<bool>` (`BoolExpr`, an `Expr` whose
  value is a `bool`, since `check` accepts no other captured type). A failed `ASSERT`
  ends the body.
- **Handlers.** Every string handed to the handler is recorded as an `Emission(sink, text)`
  in `out`. `Stdout` stands for `default_stat_handler`; `Custom(n)` stands for a handler
  installed with `STAT_HANDLER`.
- **Specification by snapshot.** The class methods are proved against pure functions.
  `Now()` is the registry's observable state: counters, output and the trace of tests
  entered, a ghost field kept as instrumentation. Each method's contract is
  `Now() == Applied(old(Now()), statHandler, E)`, where `E` is a value-level effect:
  - `CheckEffect` for one check;
  - `TestEffect` for one test;
  - `TestsEffect` applied to `ModuleRuns`, `NamedRuns` or `AllRuns` for the `execute_*`
    operations.

  The lemmas in `Runs` then prove what those functions mean: which tests run, in what
  order, and that the counters agree with the tags of the lines.

## Model

| member | source | states |
|---|---|---|
| LexOrder.Less | include/Eightest/Core.hpp:113 | `std::string`'s `<`, the key order of both maps; proved a strict total order by the four lemmas below |
| LexOrder.SortedKeys | src/Automation/Core.cpp:83 | the order `std::map` iteration visits the keys in; proved in `LexOrder.SortedKeysSpec` and `LexOrder.SortedKeysUnique` |
| LexOrder.LessIrreflexive | include/Eightest/Core.hpp:113 | no key string is below itself in the map's string order |
| LexOrder.LessAsymmetric | include/Eightest/Core.hpp:113 | the string order never puts two keys below each other |
| LexOrder.LessTransitive | include/Eightest/Core.hpp:113 | the string order is transitive |
| LexOrder.LessTrichotomy | include/Eightest/Core.hpp:113 | any two strings are equal or ordered one way round, so the map order is total |
| LexOrder.LeastExists | include/Eightest/Core.hpp:113 | every non-empty key set has a least key, so there is always a next key to visit |
| LexOrder.LeastUnique | include/Eightest/Core.hpp:113 | the least key of a set is unique |
| LexOrder.SortedKeysUnfold | src/Automation/Core.cpp:83 | the visit order starts with the least key, followed by the order of the remaining keys |
| LexOrder.SortedKeysSpec | src/Automation/Core.cpp:83 | the map's keys are visited in strictly ascending order, each key exactly once |
| LexOrder.SortedKeysUnique | src/Automation/Core.cpp:83 | a strictly ascending listing of exactly the keys is the visit order, so that order is determined by the key set |
| LexOrder.KeysInOrder | src/Automation/Core.cpp:70 | the loop that walks a map's keys yields exactly the ascending visit order |
| Decimal.DigitChar | src/Automation/Core.cpp:93 | a digit value below 10 is written as a decimal digit character |
| Decimal.DigitValue | src/Automation/Core.cpp:93 | reading a digit character gives a value below 10 that is written back as the same character |
| Decimal.NatText | src/Automation/Core.cpp:93 | `std::to_string` of an `unsigned` count; proved in `Decimal.NatTextShape`, `Decimal.ParseNatText` and `Decimal.NatTextParse` |
| Decimal.IntText | include/Eightest/Core.hpp:82 | `stream << int`: an optional `-` and the decimal digits; proved in `Decimal.ParseIntText` and `Decimal.IntTextChars` |
| Decimal.NatTextShape | src/Automation/Core.cpp:93 | `std::to_string` of a count is non-empty, all digits, and starts with `0` only for zero |
| Decimal.ParseNatText | src/Automation/Core.cpp:93 | reading back the decimal text of a count gives the count |
| Decimal.NatTextParse | src/Automation/Core.cpp:93 | a digit string without a leading zero is the decimal text of the value it denotes |
| Decimal.ParseIntText | include/Eightest/Core.hpp:82 | reading back the streamed text of an integer, sign included, gives the integer |
| Decimal.IntTextChars | include/Eightest/Core.hpp:82 | a streamed integer is non-empty and made only of digits and `-`, so it holds no whitespace |
| Decimal.DigitRun | src/Automation/Core.cpp:92-98 | the leading run of digits of a string is all digits and a prefix of the string |
| Decimal.DigitRunOf | src/Automation/Core.cpp:92-98 | digits followed by a non-digit give back exactly those digits |
| Expressions.Truth | include/Eightest/Core.hpp:92 | `static_cast<bool>` of a captured value: non-zero integers and `true` are true, `nullptr` is false; used by `Expressions.NotShape` and `Runs.CheckEffectExact` |
| Expressions.Comparable | include/Eightest/Core.hpp:144-171 | which operand pairs the lifted operators compile for: `&&`/`\|\|` on any values, comparisons between non-`nullptr` values, and `nullptr` only with `nullptr` under `==`/`!=`; the precondition of `Expressions.BinaryShape` |
| Expressions.Apply | include/Eightest/Core.hpp:149 | the built-in operator on two captured values, with `bool` promoted to `int`; its properties are in `Expressions.BinaryShape` |
| Expressions.Capture | include/Eightest/Core.hpp:78-87 | `expression(v)`: the value with its streamed first token, or `true`/`false`/`nullptr` for the non-template overloads (src/Automation/Core.cpp:8-16); proved in `Expressions.CaptureText` and `Expressions.CaptureReadBack` |
| Expressions.Not | include/Eightest/Core.hpp:89-93 | `operator!`; proved in `Expressions.NotShape` and `Expressions.NotGroupingKept` |
| Expressions.Joined | include/Eightest/Core.hpp:150 | the operator's text: left text, ` op `, right text, bracketed for `&&`/`\|\|`; proved in `Expressions.JoinedGrouping` |
| Expressions.Binary | include/Eightest/Core.hpp:144-152 | the operator on two `expression_t`s; proved in `Expressions.BinaryShape`, `Expressions.GroupingKept` and `Expressions.TextIgnoresValues` |
| Expressions.BinaryRawRight | include/Eightest/Core.hpp:153-157 | an `expression_t` on the left, a raw value on the right; proved in `Expressions.RawOperandWrappedOnce` |
| Expressions.BinaryRawLeft | include/Eightest/Core.hpp:158-162 | a raw value on the left, an `expression_t` on the right; proved in `Expressions.RawOperandWrappedOnce` |
| Expressions.Labeled | include/Eightest/Core.hpp:72-76 | `expression(v, s)` keeps both the value and the caller's text unchanged |
| Expressions.WordOfWord | include/Eightest/Core.hpp:82 | reading a word from a string without whitespace gives the whole string |
| Expressions.WordStops | include/Eightest/Core.hpp:82 | reading a word stops at the first whitespace |
| Expressions.FirstToken | include/Eightest/Core.hpp:82 | `stream >> s`: skip leading whitespace, then read one word; proved in `Expressions.FirstTokenOf` |
| Expressions.FirstTokenOf | include/Eightest/Core.hpp:82 | `stream >> s` skips leading whitespace and reads up to the next whitespace |
| Expressions.CaptureText | include/Eightest/Core.hpp:78-87 | `expression(v)` keeps `v`; its text is the decimal text of an integer, `true`/`false` for a bool, and `nullptr` for `nullptr` |
| Expressions.CaptureReadBack | src/Automation/Core.cpp:8-16 | the text `expression(v)` gives can be read back to `v`, so no two values share a text |
| Expressions.NotShape | include/Eightest/Core.hpp:89-93 | `!e` has value `!static_cast<bool>(e.value)` and text `!(` + e's text + `)` |
| Expressions.BinaryShape | include/Eightest/Core.hpp:144-152 | `l op r` has the built-in operator's result; its text is the operands' texts joined by ` op `, bracketed for `&&` and `\|\|` only |
| Expressions.RawOperandWrappedOnce | include/Eightest/Core.hpp:153-162 | a plain operand on either side is first wrapped by `expression(v)`, giving the same result as wrapping it by hand |
| Expressions.TextIgnoresValues | include/Eightest/Core.hpp:148-151 | the combined text depends only on the operands' texts, never on their values |
| Expressions.DepthAppend | include/Eightest/Core.hpp:150 | bracket depth adds up over concatenated texts |
| Expressions.NoBracketsBalanced | include/Eightest/Core.hpp:150 | a text without brackets is balanced at every prefix |
| Expressions.BalancedAppend | include/Eightest/Core.hpp:150 | balanced texts concatenate to a balanced text |
| Expressions.BracketEncloses | include/Eightest/Core.hpp:170-171 | bracketing a balanced text gives one group closing at its last character |
| Expressions.GroupingKept | include/Eightest/Core.hpp:164-171 | combining balanced texts stays balanced, and `&&`/`\|\|` results form one bracketed group |
| Expressions.JoinedGrouping | include/Eightest/Core.hpp:150 | the text joiner keeps balance and encloses `&&`/`\|\|` texts |
| Expressions.InfixGrouping | include/Eightest/Core.hpp:150 | `a op b`, bracketed or not, is balanced when `a`, `b` are and `op` has no brackets; bracketed it is one group |
| Expressions.NotGroupingKept | include/Eightest/Core.hpp:92 | `!e` keeps balance and is `!` followed by one bracketed group |
| Expressions.CaptureNoBrackets | src/Automation/Core.cpp:8-16 | the text `expression(v)` gives holds no brackets |
| Expressions.BuildKeepsGrouping | Automation/Core.hpp:123-150 | any expression built from captures, labels, `!` and the operators has a balanced text, one bracketed group when the outermost operator is `&&`/`\|\|` |
| Expressions.LessExample | Automation/Core.hpp:145 | `EXPR(2) < 3`-style capture is `true` with text `2 < 3` |
| Expressions.GreaterExample | include/Eightest/Core.hpp:168 | `4 > 5` captures `false` with text `4 > 5` |
| Expressions.AndExample | include/Eightest/Core.hpp:170 | `(2 < 3) && (4 > 5)` captures `false` with text `(2 < 3 && 4 > 5)` |
| Expressions.NotExample | Automation/Core.hpp:72-76 | `!expression(true, "x")` is `false` with text `!(x)` |
| Formats.InfoFormat | src/Automation/Core.cpp:24-33 | `info_format`; proved in `Formats.InfoFormatShape` |
| Formats.StatFormat | src/Automation/Core.cpp:90-99 | `stat_format`; proved in `Formats.StatFormatReadBack` |
| Formats.InfoFormatShape | src/Automation/Core.cpp:24-33 | the check line's tag reports its outcome; it names `module::name.msg`; a pass ends there and a failure adds ` [  WITH  ] text` |
| Formats.ReadCountOf | src/Automation/Core.cpp:92-98 | a tag followed by a count's decimal text reads back as that count and the rest |
| Formats.StatFormatReadBack | src/Automation/Core.cpp:90-99 | the summary line reads back as exactly the passed, failed and passed+failed counts |
| Formats.Diagnostic | src/Automation/Core.cpp:106-112 | `try_catch` forwards a line exactly when the call did not return normally |
| Runs.Executed | include/Eightest/Core.hpp:31-32 | the steps of a body that run: up to and including the first failed `ASSERT`; proved in `Runs.ExecutedPrefix` |
| Runs.ExecutedPrefix | include/Eightest/Core.hpp:31-32 | a body runs as a non-empty prefix of itself; only its last step can be a failed `ASSERT`, and the body stops early only with one |
| Runs.ExpectNeverStops | include/Eightest/Core.hpp:31 | a body of `EXPECT`s always runs to the end |
| Runs.ExecutedUpTo | include/Eightest/Core.hpp:32 | steps before the first failed `ASSERT` all run |
| Runs.TestEffectStopped | include/Eightest/Core.hpp:32 | a test whose `ASSERT` at step i fails performs steps 0..i and no more |
| Runs.TestEffectFinished | include/Eightest/Core.hpp:31-32 | a test without a failing `ASSERT` performs every step |
| Runs.TestsEffectAppend | src/Automation/Core.cpp:81-88 | running two lists of tests one after the other has the combined effect |
| Runs.CountVerdictAppend | src/Automation/Core.cpp:26 | counting OK or FAILED lines is additive over concatenation |
| Runs.CheckEffect | src/Automation/Core.cpp:46-57 | one check's effect: one counter and one `info_format` line; proved in `Runs.CheckEffectExact` and `Runs.CheckAccounted` |
| Runs.StepsEffect | include/Eightest/Core.hpp:31-32 | the checks of a run performed in order; proved in `Runs.StepsAccounted` |
| Runs.TestEffect | include/Eightest/Core.hpp:31-32 | a test's `run()`: entered, then its executed steps up to the first failed `ASSERT`; proved in `Runs.TestEffectStopped` and `Runs.TestEffectFinished` |
| Runs.TestsEffect | src/Automation/Core.cpp:81-88 | the loop bodies of `execute_*`: tests run one after another; proved in `Runs.TestsEffectAppend` and `Runs.TestsAccounted` |
| Runs.CheckEffectExact | src/Automation/Core.cpp:51-57 | one check moves exactly one counter, `passed` iff it holds, and emits one line whose tag agrees; a failure line shows the captured text |
| Runs.CheckAccounted | src/Automation/Core.cpp:35-39 | one check changes the counters by exactly the OK and FAILED lines it emits |
| Runs.StepsAccounted | src/Automation/Core.cpp:35-57 | any run of checks emits one line per check, and `passed`/`failed` equal the OK/FAILED line counts |
| Runs.TestsAccounted | src/Automation/Core.cpp:81-88 | any run of tests keeps `passed`/`failed` equal to the OK/FAILED line counts, and enters the tests in the order given |
| Runs.ModuleRuns | src/Automation/Core.cpp:64-65 | the tests of one module in map order; proved in `Runs.ModuleRunsOrder` |
| Runs.TestsAtSpec | src/Automation/Core.cpp:65 | walking a module by a key list reaches the tests stored under those keys, one per key |
| Runs.ModuleRunsOrder | src/Automation/Core.cpp:64-65 | a module runs each of its tests exactly once, by strictly ascending name |
| Runs.AllRuns | src/Automation/Core.cpp:83-87 | what `execute_all` runs: module after module, each in map order; proved in `Runs.AllRunsOrder` |
| Runs.ModulesRunsStored | src/Automation/Core.cpp:83-87 | walking modules reaches only tests stored under those modules |
| Runs.ModulesRunsSorted | src/Automation/Core.cpp:83-87 | tests of ascending modules are reached in ascending (module, name) order |
| Runs.ModulesRunsCover | src/Automation/Core.cpp:83-87 | every test of the walked modules is reached |
| Runs.AllRunsOrder | src/Automation/Core.cpp:81-88 | `execute_all` runs every stored test and only stored tests, in strictly ascending (module, name) order, so each exactly once |
| Runs.Matching | src/Automation/Core.cpp:70-78 | the test called `name` in each walked module that has one; proved in `Runs.MatchingSpec` |
| Runs.NamedRuns | src/Automation/Core.cpp:70-78 | what `execute_test(name)` runs: `Matching` over all modules in map order; proved in `Runs.NamedRunsSpec` |
| Runs.MatchingStored | src/Automation/Core.cpp:74-77 | the name search reaches only tests of that name stored in the walked modules |
| Runs.MatchingSorted | src/Automation/Core.cpp:70-78 | the name search reaches modules in strictly ascending order |
| Runs.MatchingCover | src/Automation/Core.cpp:70-78 | each walked module holding the name contributes its test |
| Runs.MatchingSpec | src/Automation/Core.cpp:70-78 | the name search over a key list: only stored tests of that name, ascending by module, every one |
| Runs.NamedRunsSpec | src/Automation/Core.cpp:68-79 | `execute_test(name)` runs exactly the test called `name` of every module that has one, by strictly ascending module |
| Runs.Inserted | src/Automation/Core.cpp:41-44 | `all[test->module][test->name] = test` on the map value; proved in `Runs.InsertedLookup` |
| Runs.InsertedLookup | src/Automation/Core.cpp:41-44 | `add` stores the test under its (module, name), adds its module, leaves every other entry unchanged, and keeps the map well formed |
| Runs.OverwriteLeavesLatest | src/Automation/Core.cpp:43 | adding a second test under the same (module, name) replaces the first, so only the second is run by name |
| Core.Deliver | src/Automation/Core.cpp:55 | consecutive `stat_handler(line)` calls, one emission per line to the current handler; proved in `Core.DeliverAppend` and `Core.WrittenOfDeliver` |
| Core.DeliverAppend | src/Automation/Core.cpp:55 | handing two lists of lines to the handler in turn emits them in order |
| Core.WrittenAppend | include/Eightest/Core.hpp:114 | what a handler received is additive over consecutive outputs |
| Core.WrittenOfDeliver | include/Eightest/Core.hpp:114 | a handler receives the lines handed to it and nothing handed to another handler |
| Core.WrittenDeliver | include/Eightest/Core.hpp:45 | after more lines go to the current handler, that handler has them appended and every other handler's output is unchanged |
| Core.AppliedThen | src/Automation/Core.cpp:81-88 | applying two effects in turn is applying their combination |
| Core.UpdateStat | src/Automation/Core.cpp:35-39 | exactly one counter goes up by one, `passed` iff the check held |
| Core.Registry.constructor | include/Eightest/Core.hpp:113-118 | a new registry is empty, prints through `default_stat_handler` and has zero counters |
| Core.Registry.Emit | src/Automation/Core.cpp:55 | one `stat_handler(text)` call: the text is appended to the output under the current handler, and nothing else changes |
| Core.Registry.SetStatHandler | include/Eightest/Core.hpp:45 | `STAT_HANDLER` replaces the handler and nothing else |
| Core.Registry.Add | src/Automation/Core.cpp:41-44 | the registry holds the test under its (module, name), overwriting any earlier one there, and nothing else changes |
| Core.Registry.CheckExpr | src/Automation/Core.cpp:51-57 | takes an `expression_t<bool>` only; returns the captured condition, moves one counter and hands the `info_format` line to the current handler |
| Core.Registry.CheckBool | src/Automation/Core.cpp:46-49 | the `bool` overload behaves as the expression overload on `expression(condition)` |
| Core.Registry.Check | include/Eightest/Core.hpp:124-125 | `EXPECT` dispatches to the matching overload, returning whether the check held |
| Core.Registry.Run | include/Eightest/Core.hpp:28-32 | a test's `run()` performs its executed checks in order, with the effect `TestEffect` |
| Core.Registry.RunModule | src/Automation/Core.cpp:64-65 | runs the tests of one module by ascending name |
| Core.Registry.ExecuteModule | src/Automation/Core.cpp:59-66 | an unknown module changes nothing; otherwise that module's tests run by ascending name |
| Core.Registry.ExecuteTest | src/Automation/Core.cpp:68-79 | runs the tests `NamedRuns` gives: the test of that name in each module, by ascending module |
| Core.Registry.ExecuteAll | src/Automation/Core.cpp:81-88 | runs the tests `AllRuns` gives: every test, by ascending (module, name) |
| Core.Registry.Stat | src/Automation/Core.cpp:101-104 | hands the summary line of the current counters to the handler and reports `failed == 0`; counters unchanged |
| Core.Registry.TryCatch | src/Automation/Core.cpp:106-112 | a call that returns emits nothing; a thrown C string (`const char*`) emits that string, a `std::exception` its `what()`, anything else (a thrown `std::string` included) `Unexpected error.` |
| Core.Launch | test/Launcher.cpp:15-20 | the launcher runs every test in order, then emits the summary of the resulting counters, and exits 0 exactly when no check failed (otherwise 1) |
| Scenarios.PlainCheckEffect | src/Automation/Core.cpp:46-57 | `check(b, t, msg)` counts one pass or failure and emits the OK line, or the FAILED line with text `true`/`false` |
| Scenarios.PassingEffect | include/Eightest/Core.hpp:31 | a test of one passing `EXPECT` is one pass and its OK line |
| Scenarios.FailingAssertEffect | include/Eightest/Core.hpp:32 | a test of one failing `ASSERT` is one failure and its FAILED line |
| Scenarios.TwoTestsEffect | src/Automation/Core.cpp:81-88 | two tests run in sequence have the combined effect of each |
| Scenarios.CheckTrueLine | src/Automation/Core.cpp:46-57 | `check(true, Math::add, "m")` on a fresh registry passes and emits `[   OK   ] Math::add.m` |
| Scenarios.CheckFalseLine | src/Automation/Core.cpp:24-33 | `check(false, ...)` fails and emits the FAILED line ending in ` [  WITH  ] false` |
| Scenarios.CheckExpressionLine | src/Automation/Core.cpp:51-57 | a failed captured `4 > 5` puts `4 > 5` in the FAILED line |
| Scenarios.UnknownModuleIsNoOp | src/Automation/Core.cpp:61-62 | `execute_module` of an unknown module leaves counters and output untouched |
| Scenarios.SharedRuns | src/Automation/Core.cpp:70-78 | with `B::shared` added before `A::shared`, the name search still reaches module `A` first |
| Scenarios.SharedNameRunsBoth | src/Automation/Core.cpp:68-79 | `execute_test("shared")` runs both tests, `A` then `B`, emitting two OK lines |
| Scenarios.OverwriteRuns | src/Automation/Core.cpp:43 | after adding `Math::add` twice only the second is found by name |
| Scenarios.OverwriteScenario | src/Automation/Core.cpp:41-44 | after re-registration only the second test runs |
| Scenarios.StatLine | src/Automation/Core.cpp:90-99 | for single-digit counts the summary is `\nOK: p FAILED: f TOTAL: p+f\n` |
| Scenarios.StatTwice | src/Automation/Core.cpp:101-104 | two `stat()` calls emit the same summary twice and both report success |
| Scenarios.TryCatchScenario | src/Automation/Core.cpp:109 | a thrown `"boom"` emits exactly `boom`; a returning call emits nothing |
| Scenarios.HandlerSwitch | include/Eightest/Core.hpp:45 | after `STAT_HANDLER`, later lines reach the new handler and earlier ones stay with the old |
| Scenarios.LaunchRuns | src/Automation/Core.cpp:83-87 | `execute_all` over `B::good` and `A::bad` runs `A::bad` first |
| Scenarios.LaunchScenario | test/Launcher.cpp:18-19 | with one failing and one passing test the launcher emits both lines, then `OK: 1 FAILED: 1 TOTAL: 2`, and exits 1 |

## Left out

- Loading the test library: `EIGHTEST_LOAD` / `dlopen` / `LoadLibraryA` in the launcher is a platform call.
- Macros and static registration: the `TEST` struct, its static instance, and `test_t`'s constructor calling `add`. `Registry.Add` is called explicitly instead. `EIGHTEST_REGISTRY` redirection is the choice of which `Registry` object is used.
- Pointers: the map stores `test_t*`. The model stores the test value, so tests are not aliased and their life time is not modelled.
- `Core.Registry.Emit`: `default_stat_handler` prints with `printf`. The model records the string in `out` and does no I/O.
- Test bodies: a test's `run()` is limited to a sequence of `EXPECT`/`ASSERT` checks. Arbitrary C++ in a body is not modelled. Neither is a body that throws, or a body that calls the registry itself.
- `Core.Registry.TryCatch`: the callable is given as its `Outcome`. Any effects it had before throwing are not modelled. `Launch` passes `Returned`, because a body of checks never throws.
- Value types: captured values are integers, `bool` and `nullptr`. Floating point, strings, pointers and user types with their own `operator<<` are not modelled. `Int` with its decimal text stands for the integer types other than the character types: `char` and its relatives are integer types but are streamed as characters (`stream << 'a'` gives `a`, and `' '` gives an empty token at include/Eightest/Core.hpp:82), which the model does not cover.
- `Expressions.Capture`: integers are unbounded. C++ integer widths, and the comparison rules for mixed signedness, are not modelled.
- `Core.UpdateStat`: `passed` and `failed` are `nat`. The source's `unsigned` counters would wrap at 2^32.
- `Formats.StatFormat`: TOTAL is the unbounded sum `passed + failed`. The source adds the two as `unsigned` (src/Automation/Core.cpp:97), so TOTAL wraps once the number of checks reaches 2^32, even when neither counter wraps on its own.
- References inside `expression_t`: Automation/Core.hpp's `expression_t` stores `T const&`, and in include/Eightest/Core.hpp `expression(T&&)` on an lvalue deduces `T = U&` and gives the by-reference specialisation `expression_t<T&>` (include/Eightest/Core.hpp:63-70); so do the raw operands wrapped by the mixed operators, except `bool` and `nullptr`, which take the non-template overloads. The model stores the value itself, which agrees with the reference as long as the check runs within the same full-expression; dangling references to temporaries are not modelled.
- `Expressions.Not`: `expression_t<T&>::operator!` is declared (include/Eightest/Core.hpp:69) but never defined (only the primary template's, :89-93), so in Eightest `!EXPR(x)` for an lvalue `int x` does not link. `Not` and `Build(Negate(..))` accept every operand, so the model also admits programs that C++ rejects at link time.
- `LexOrder.Less`: strings are sequences of Unicode code points and compare code point by code point. `std::string` compares bytes, as `unsigned char` (the `char_traits<char>` order). The two orders agree when the keys are UTF-8 encoded; keys in another encoding are not modelled.
- `Core.Registry.Run`: the ghost `trace` field has no counterpart in the source. It records which tests were entered, so the run order can be stated.
