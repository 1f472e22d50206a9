/**
 The result a registered matcher reports, as the library's tests observe it
 (src/matchers.spec.ts:95-241). The wrapper that turns a comparison into
 that result, `addTimeoutToAsyncMatcher`, is imported by src/matchers.ts:5
 but its definition is not part of this model: what follows is the shape
 the tests pin down, not a model of its code. Polling is abstracted away:
 `c` is the comparison at the last attempt.
 */
module TimeoutWrapper {
  import opened JsText
  import opened Matchers
  import opened Config
  import opened MatcherProperties

  datatype Option<T> = None | Some(value: T)

  /** What jasmine receives: a passing result has no message. */
  datatype MatcherResult = MatcherResult(pass: bool, message: Option<string>)

  /**
   The comparison a matcher without its own `negativeCompare` reports for a
   negated expectation: the outcome flips, the message stays.
   */
  function Negate(c: Comparison): (r: Comparison)
    ensures r.pass != c.pass && r.message == c.message
  {
    Comparison(!c.pass, c.message)
  }

  /**
   What a failure message ends with once the matcher waited `timeout`
   milliseconds. The tests fix it at 5000 and at 0 only (see
   `InitialSuffix`). The suffix for other positive timeouts, and no suffix
   for negative ones, is an assumption about the wrapper's code.
   */
  function WaitSuffix(timeout: int): (s: string)
    ensures s == [] <==> timeout <= 0
  {
    if timeout > 0 then " (waited for " + IntToString(timeout) + "ms)" else ""
  }

  /** The result reported for comparison `c` under the timeout `timeout`. */
  function Settle(c: Comparison, timeout: int): (r: MatcherResult)
    ensures r.pass == c.pass
    ensures r.message.None? <==> c.pass
    ensures r.message.Some? ==> r.message.value == c.message + WaitSuffix(timeout)
  {
    if c.pass then MatcherResult(true, None) else MatcherResult(false, Some(c.message + WaitSuffix(timeout)))
  }

  /** The result under the timeout the setting currently holds. */
  function SettleWith(setting: TimeoutSetting, c: Comparison): MatcherResult
    reads setting
  {
    Settle(c, setting.defaultTimeout)
  }

  /** A failure report starts with the comparator's own message, and adds nothing when the timeout is zero. */
  lemma FailureKeepsMessage(c: Comparison, timeout: int)
    requires !c.pass
    ensures var m := Settle(c, timeout).message.value;
      |c.message| <= |m| && m[..|c.message|] == c.message
    ensures timeout <= 0 ==> Settle(c, timeout).message == Some(c.message)
  {
    var m := Settle(c, timeout).message.value;
    assert m == c.message + WaitSuffix(timeout);
    assert m[..|c.message|] == c.message;
    if timeout <= 0 {
      assert c.message + "" == c.message;
    }
  }

  /** Under the assumed suffix, different positive timeouts give different failure messages. */
  lemma SuffixShowsTimeout(t1: int, t2: int)
    requires t1 > 0 && t2 > 0 && WaitSuffix(t1) == WaitSuffix(t2)
    ensures t1 == t2
  {
    var pre := " (waited for ";
    var a := IntToString(t1);
    var b := IntToString(t2);
    assert (pre + a) + "ms)" == (pre + b) + "ms)";
    assert pre + a == pre + b by {
      var s := (pre + a) + "ms)";
      assert pre + a == s[..|s| - 3];
      assert pre + b == s[..|s| - 3];
    }
    assert a == (pre + a)[|pre|..];
    assert b == (pre + b)[|pre|..];
    IntToStringInjective(t1, t2);
  }

  /** The suffix the tests expect under the initial setting. */
  lemma InitialSuffix()
    ensures WaitSuffix(InitialTimeout) == " (waited for 5000ms)"
    ensures WaitSuffix(0) == ""
  {
  }

  /**
   The four toBePresent cases of the tests (src/matchers.spec.ts:101-143),
   for any locator and timeout: only failures carry a message, and a negated
   expectation on a present element reports the "NOT" wording.
   */
  lemma PresentReports(locator: string, timeout: int)
    ensures Settle(ToBePresent(locator, true), timeout) == MatcherResult(true, None)
    ensures Settle(Negate(ToBePresent(locator, true)), timeout)
      == MatcherResult(false, Some("Expected " + locator + " NOT to be present" + WaitSuffix(timeout)))
    ensures Settle(ToBePresent(locator, false), timeout)
      == MatcherResult(false, Some("Expected " + locator + " to be present" + WaitSuffix(timeout)))
    ensures Settle(Negate(ToBePresent(locator, false)), timeout) == MatcherResult(true, None)
  {
    var head := "Expected " + locator;
    assert " " + "NOT " + "to be present" == " NOT to be present";
    assert " " + "" + "to be present" == " to be present";
    assert head + " " + "NOT " + "to be present" == head + (" " + "NOT " + "to be present");
    assert head + " " + "" + "to be present" == head + (" " + "" + "to be present");
  }

  /** The four toBeDisplayed cases of the tests (src/matchers.spec.ts:145-187). */
  lemma DisplayedReports(locator: string, timeout: int)
    ensures Settle(ToBeDisplayed(locator, true), timeout) == MatcherResult(true, None)
    ensures Settle(Negate(ToBeDisplayed(locator, true)), timeout)
      == MatcherResult(false, Some("Expected " + locator + " NOT to be displayed" + WaitSuffix(timeout)))
    ensures Settle(ToBeDisplayed(locator, false), timeout)
      == MatcherResult(false, Some("Expected " + locator + " to be displayed" + WaitSuffix(timeout)))
    ensures Settle(Negate(ToBeDisplayed(locator, false)), timeout) == MatcherResult(true, None)
  {
    var head := "Expected " + locator;
    assert " " + "NOT " + "to be displayed" == " NOT to be displayed";
    assert " " + "" + "to be displayed" == " to be displayed";
    assert head + " " + "NOT " + "to be displayed" == head + (" " + "NOT " + "to be displayed");
    assert head + " " + "" + "to be displayed" == head + (" " + "" + "to be displayed");
  }

  /**
   The toHaveClass cases of the tests (src/matchers.spec.ts:189-225), with
   `a`, `b` and `c` standing for "class1", "class2" and "class3": the
   element has classes `a b`.
   */
  lemma ClassReports(locator: string, a: string, b: string, c: string, timeout: int)
    requires NoWhitespace(a) && NoWhitespace(b) && NoWhitespace(c)
    requires c != a && c != b
    ensures Settle(HaveClass(locator, a + " " + b, a + " " + b), timeout) == MatcherResult(true, None)
    ensures Settle(HaveClass(locator, a + " " + b, a + " " + c), timeout) == MatcherResult(false, Some(
      "Expected " + locator + " to have classes [" + (a + ", " + c) + "] but does not have classes ["
      + c + "], actual classes are [" + (a + ", " + b) + "]" + WaitSuffix(timeout)))
    ensures Settle(NotHaveClass(locator, a + " " + b, c), timeout) == MatcherResult(true, None)
    ensures Settle(NotHaveClass(locator, a + " " + b, a), timeout) == MatcherResult(false, Some(
      "Expected " + locator + " to NOT have class [" + a + "], actual classes are [" + (a + ", " + b) + "]"
      + WaitSuffix(timeout)))
  {
    SplitTwoTokens(a, b);
    HaveClassOneMissing(locator, a, b, c);
    NotHaveClassAbsent(locator, a, b, c);
    NotHaveClassPresent(locator, a, b);
  }

  /**
   The library's tests run every matcher twice: once under the initial
   setting, where failures end with " (waited for 5000ms)", and once after
   setting the timeout to zero, where they end with nothing; afterwards the
   setting is restored (src/matchers.spec.ts:228-245).
   */
  method TimeoutScenarios(locator: string) returns (withWait: MatcherResult, withoutWait: MatcherResult, restored: int)
    ensures withWait == MatcherResult(false, Some("Expected " + locator + " to be present" + " (waited for 5000ms)"))
    ensures withoutWait == MatcherResult(false, Some("Expected " + locator + " to be present"))
    ensures restored == InitialTimeout
  {
    var setting := new TimeoutSetting();
    var failing := ToBePresent(locator, false);
    PresentReports(locator, setting.defaultTimeout);
    InitialSuffix();
    withWait := SettleWith(setting, failing);
    var saved := setting.defaultTimeout;
    setting.SetDefaultTimeout(0);
    PresentReports(locator, setting.defaultTimeout);
    withoutWait := SettleWith(setting, failing);
    assert "Expected " + locator + " to be present" + "" == "Expected " + locator + " to be present";
    setting.SetDefaultTimeout(saved);
    restored := setting.defaultTimeout;
  }
}
