/**
 * The text the registry hands to its stat handler (src/Automation/Core.cpp):
 * the line of one check (`info_format`), the summary (`stat_format`) and the
 * line `try_catch` forwards for each kind of escaped failure.
 */
module Formats {
  import opened Wrappers
  import opened Decimal

  const OkTag: string := "[   OK   ] "
  const FailedTag: string := "[ FAILED ] "
  const WithTag: string := " [  WITH  ] "

  /** `info_format`: the line a check emits; a failure also shows the captured text. */
  function InfoFormat(moduleName: string, testName: string, msg: string, text: string, ok: bool): string {
    (if ok then OkTag else FailedTag) + moduleName + "::" + testName + "." + msg
      + (if ok then "\n" else WithTag + text + "\n")
  }

  /** The outcome a check line reports, read from its leading tag. */
  function Verdict(line: string): Option<bool> {
    if |line| >= |OkTag| && line[..|OkTag|] == OkTag then Some(true)
    else if |line| >= |FailedTag| && line[..|FailedTag|] == FailedTag then Some(false)
    else None
  }

  /**
   * A check line starts with the tag of its outcome, names the test as
   * `module::name.msg`, and on failure ends with the captured text.
   */
  lemma InfoFormatShape(moduleName: string, testName: string, msg: string, text: string, ok: bool)
    ensures Verdict(InfoFormat(moduleName, testName, msg, text, ok)) == Some(ok)
    ensures var line := InfoFormat(moduleName, testName, msg, text, ok);
      var id := moduleName + "::" + testName + "." + msg;
      && line[|OkTag|..|OkTag| + |id|] == id
      && (ok ==> line == OkTag + id + "\n")
      && (!ok ==> line == FailedTag + id + WithTag + text + "\n")
  {
    var line := InfoFormat(moduleName, testName, msg, text, ok);
    var id := moduleName + "::" + testName + "." + msg;
    assert |OkTag| == |FailedTag| == 11;
    if ok {
      assert line == OkTag + id + "\n";
      assert line[..|OkTag|] == OkTag;
    } else {
      assert line == FailedTag + id + (WithTag + text + "\n");
      assert line[..|FailedTag|] == FailedTag;
      assert OkTag != FailedTag by { assert OkTag[2] != FailedTag[2]; }
    }
  }

  /** `stat_format`: passed, failed and their sum in one summary line. */
  function StatFormat(passed: nat, failed: nat): string {
    "\nOK: " + NatText(passed) + " FAILED: " + NatText(failed) + " TOTAL: " + NatText(passed + failed) + "\n"
  }

  /** The three counts a summary line shows. */
  datatype Summary = Summary(passed: nat, failed: nat, total: nat)

  /** Reads `tag` followed by a count off the front of `s`, giving the count and what follows. */
  function ReadCount(s: string, tag: string): Option<(nat, string)> {
    if !(|s| >= |tag| && s[..|tag|] == tag) then None
    else
      var digits := DigitRun(s[|tag|..]);
      match ParseNat(digits)
      case Some(n) => Some((n, s[|tag| + |digits|..]))
      case None => None
  }

  /** Reads a summary line back into its counts. */
  function ReadStat(s: string): Option<Summary> {
    match ReadCount(s, "\nOK: ")
    case None => None
    case Some((p, r1)) =>
      match ReadCount(r1, " FAILED: ")
      case None => None
      case Some((f, r2)) =>
        match ReadCount(r2, " TOTAL: ")
        case None => None
        case Some((t, r3)) => if r3 == "\n" then Some(Summary(p, f, t)) else None
  }

  lemma ReadCountOf(tag: string, n: nat, rest: string)
    requires rest == [] || !IsDigit(rest[0])
    ensures ReadCount(tag + NatText(n) + rest, tag) == Some((n, rest))
  {
    var s := tag + NatText(n) + rest;
    NatTextShape(n);
    assert s[..|tag|] == tag;
    assert s[|tag|..] == NatText(n) + rest;
    DigitRunOf(NatText(n), rest);
    ParseNatText(n);
    assert s[|tag| + |NatText(n)|..] == rest;
  }

  /** The summary line shows the two counters and their sum, and reads back to exactly those. */
  lemma StatFormatReadBack(passed: nat, failed: nat)
    ensures ReadStat(StatFormat(passed, failed)) == Some(Summary(passed, failed, passed + failed))
  {
    var tail2 := " TOTAL: " + NatText(passed + failed) + "\n";
    var tail1 := " FAILED: " + NatText(failed) + tail2;
    assert StatFormat(passed, failed) == "\nOK: " + NatText(passed) + tail1;
    ReadCountOf("\nOK: ", passed, tail1);
    ReadCountOf(" FAILED: ", failed, tail2);
    ReadCountOf(" TOTAL: ", passed + failed, "\n");
  }

  /**
   * What escaped the callable given to `try_catch`: a thrown C string
   * (`const char*`), a `std::exception` with its `what()`, or anything else.
   */
  datatype Outcome = Returned | ThrewText(text: string) | ThrewException(what: string) | ThrewOther

  /** The one line `try_catch` forwards for a caught failure, and none for a normal return. */
  function Diagnostic(o: Outcome): (line: Option<string>)
    ensures line.None? <==> o.Returned?
  {
    match o
    case Returned => None
    case ThrewText(text) => Some(text)
    case ThrewException(what) => Some(what)
    case ThrewOther => Some("Unexpected error.")
  }
}
