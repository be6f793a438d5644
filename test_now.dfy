/** test-now.js: run the suite; when it throws, decide from the first
    `fail <digits>` in its output whether all tests still passed, and
    otherwise list the lines that report a failing test. */
module TestNow {
  import opened Lines
  import opened Scan
  import opened Process

  const FailTag: string := "fail "

  /** The verdict, the failure lines, and whether "Failing tests:" is printed. */
  datatype Verdict = Verdict(pass: bool, failures: seq<string>, failuresPrinted: bool)

  function TestNow(result: Exec): (r: Verdict)
    ensures result.Returned? ==> r.pass
    ensures result.Threw? ==>
      (r.pass <==> FirstNumber(CaughtOutput(result.errorStdout), FailTag) == Some("0"))
    ensures r.pass ==> r.failures == [] && !r.failuresPrinted
    ensures !r.pass ==> r.failures == FailureLines(SplitLines(CaughtOutput(result.errorStdout)))
    ensures r.failuresPrinted <==> |r.failures| > 0
  {
    match result
    case Returned(_) => Verdict(true, [], false)
    case Threw(e) =>
      var output := CaughtOutput(e);
      if FirstNumber(output, FailTag) == Some("0") then Verdict(true, [], false)
      else
        var failures := FailureLines(SplitLines(output));
        Verdict(false, failures, |failures| > 0)
  }

  /** Read without the regular expression: the first `fail ` followed by a
      digit is followed by exactly one digit, `0`. */
  lemma {:induction false} FailZeroMeaning(output: string)
    ensures FirstNumber(output, FailTag) == Some("0") <==>
      exists p: nat ::
        && LabelAt(output, FailTag, p)
        && (forall q: nat :: q < p ==> !LabelAt(output, FailTag, q))
        && output[p + 5] == '0'
        && (p + 6 == |output| || !IsDigit(output[p + 6]))
  {
    var found := FindLabel(output, FailTag, 0);
    FindLabelSpec(output, FailTag, 0);
    if found.Some? {
      var p := found.value;
      var d := DigitRun(output, p + 5);
      assert |d| >= 1 && d[0] == output[p + 5];
      if output[p + 5] == '0' && (p + 6 == |output| || !IsDigit(output[p + 6])) {
        DigitRunUnique(output, p + 5, p + 6);
        assert output[p + 5..p + 6] == "0";
      }
      if d == "0" {
        assert |d| == 1;
      }
      forall p': nat | LabelAt(output, FailTag, p') && (forall q: nat :: q < p' ==> !LabelAt(output, FailTag, q))
        ensures p' == p
      {
        if p' < p {
          assert false;
        }
      }
    }
  }

  /** A count of "00" is not "0": the suite is reported as failing. */
  lemma {:induction false} DoubleZeroFails()
    ensures !TestNow(Threw(Some("fail 00"))).pass
  {
    var s := "fail 00";
    assert LabelAt(s, FailTag, 0) by {
      assert s[..5] == FailTag;
    }
    FindLabelFirst(s, FailTag, 0, 0);
    assert DigitRun(s, 5) == "00" by {
      DigitRunUnique(s, 5, 7);
      assert s[5..7] == "00";
    }
  }

  /** Output without any fail count is reported as failing. */
  lemma {:induction false} MissingCountFails(output: string)
    requires forall q: nat :: !LabelAt(output, FailTag, q)
    ensures !TestNow(Threw(Some(output))).pass
  {
    FirstNumberNone(output, FailTag);
  }
}
