/**
 Properties of the comparators: how the wording of a message follows the
 outcome, how the text matchers relate to each other, what the class
 matcher's token lists hold, and the exact results the library's own tests
 expect from the comparators.
 */
module MatcherProperties {
  import opened JsText
  import opened Lodash
  import opened Matchers

  // ---------------------------------------------------------------- the "NOT" marker

  /** "NOT" cannot appear in a message around a locator that does not contain it. */
  lemma NoNotMarker(pre: string, locator: string, post: string)
    requires 'N' !in pre && 'N' !in post && post != [] && post[0] == ' '
    requires !Contains(locator, "NOT")
    ensures !Contains(pre + locator + post, "NOT")
  {
    var s := pre + locator + post;
    if Contains(s, "NOT") {
      var i :| 0 <= i <= |s| && OccursAt(s, "NOT", i);
      var w := s[i..i + 3];
      assert w == "NOT";
      assert s[i] == w[0] == 'N';
      assert s[i + 1] == w[1] == 'O';
      assert s[i + 2] == w[2] == 'T';
      var end := |pre| + |locator|;
      if |pre| <= i && i + 3 <= end {
        var j := i - |pre|;
        assert locator[j..j + 3] == s[i..i + 3];
        assert OccursAt(locator, "NOT", j);
      }
    }
  }

  lemma HasNotMarker(pre: string, post: string)
    ensures Contains(pre + "NOT" + post, "NOT")
  {
    var s := pre + "NOT" + post;
    assert s[|pre|..|pre| + 3] == "NOT";
    assert OccursAt(s, "NOT", |pre|);
  }

  /**
   A message that puts a marker holding "NOT" between the locator and the
   rest exactly when `flag` holds says "NOT" exactly when `flag` holds.
   */
  lemma FlagMarker(locator: string, gap: string, mpre: string, mpost: string, rest: string, flag: bool)
    requires !Contains(locator, "NOT")
    requires gap != [] && gap[0] == ' ' && 'N' !in gap && 'N' !in rest
    ensures Contains("Expected " + locator + gap + (if flag then mpre + "NOT" + mpost else "") + rest, "NOT") <==> flag
  {
    if flag {
      var m := "Expected " + locator + gap + (mpre + "NOT" + mpost) + rest;
      assert m == ("Expected " + locator + gap + mpre) + "NOT" + (mpost + rest);
      HasNotMarker("Expected " + locator + gap + mpre, mpost + rest);
    } else {
      var m := "Expected " + locator + gap + "" + rest;
      assert m == "Expected " + locator + (gap + rest);
      NoNotMarker("Expected ", locator, gap + rest);
    }
  }

  /** toBePresent says "NOT" exactly when it passes: its message is then the one a negated assertion reports. */
  lemma PresentMessageMarksPass(locator: string, isPresent: bool)
    requires !Contains(locator, "NOT")
    ensures Contains(ToBePresent(locator, isPresent).message, "NOT") <==> isPresent
  {
    assert "NOT " == "" + "NOT" + " ";
    FlagMarker(locator, " ", "", " ", "to be present", isPresent);
  }

  /** toBeDisplayed says "NOT" exactly when it passes. */
  lemma DisplayedMessageMarksPass(locator: string, isDisplayed: bool)
    requires !Contains(locator, "NOT")
    ensures Contains(ToBeDisplayed(locator, isDisplayed).message, "NOT") <==> isDisplayed
  {
    assert "NOT " == "" + "NOT" + " ";
    FlagMarker(locator, " ", "", " ", "to be displayed", isDisplayed);
  }

  /** toBeSelected says "NOT" exactly when it passes. */
  lemma SelectedMessageMarksPass(locator: string, isSelected: bool)
    requires !Contains(locator, "NOT")
    ensures Contains(ToBeSelected(locator, isSelected).message, "NOT") <==> isSelected
  {
    assert " NOT " == " " + "NOT" + " ";
    FlagMarker(locator, " ", " ", " ", " to be selected", isSelected);
  }

  /** toBeChecked says "NOT" exactly when it passes, that is when the attribute is "true". */
  lemma CheckedMessageMarksPass(locator: string, checked: string)
    requires !Contains(locator, "NOT")
    ensures Contains(ToBeChecked(locator, checked).message, "NOT") <==> checked == "true"
  {
    assert " NOT " == " " + "NOT" + " ";
    FlagMarker(locator, " ", " ", " ", " to be checked", checked == "true");
  }

  /** A message that only shows numbers after the locator has no "NOT" in it. */
  lemma NoMarkerWithNumbers(locator: string, a: string, m: int, b: string, n: int)
    requires !Contains(locator, "NOT")
    requires 'N' !in a && 'N' !in b && a != [] && a[0] == ' '
    ensures !Contains("Expected " + locator + a + IntToString(m) + b + IntToString(n), "NOT")
  {
    var post := a + IntToString(m) + b + IntToString(n);
    assert "Expected " + locator + a + IntToString(m) + b + IntToString(n) == "Expected " + locator + post;
    NoNotMarker("Expected ", locator, post);
  }

  /** A message that puts " NOT" right after the locator has "NOT" in it. */
  lemma MarkerAfterLocator(locator: string, a: string, n: int)
    ensures Contains("Expected " + locator + (" " + "NOT" + a) + IntToString(n), "NOT")
  {
    var pre := "Expected " + locator + " ";
    var post := a + IntToString(n);
    assert "Expected " + locator + (" " + "NOT" + a) + IntToString(n) == pre + "NOT" + post;
    HasNotMarker(pre, post);
  }

  /** toHaveWidth says "NOT" exactly when it passes. */
  lemma WidthMessageMarksPass(locator: string, size: ElementSize, expectedWidth: int)
    requires !Contains(locator, "NOT")
    ensures Contains(ToHaveWidth(locator, size, expectedWidth).message, "NOT") <==> size.width == expectedWidth
  {
    if size.width == expectedWidth {
      assert " NOT to have width " == " " + "NOT" + " to have width ";
      MarkerAfterLocator(locator, " to have width ", expectedWidth);
    } else {
      NoMarkerWithNumbers(locator, " to have width ", expectedWidth, " BUT has width ", size.width);
    }
  }

  /** toBeAtLocationX has its two messages the other way round: it says "NOT" exactly when it fails. */
  lemma LocationXMessageMarksFailure(locator: string, location: ElementLocation, expectedX: int)
    requires !Contains(locator, "NOT")
    ensures Contains(ToBeAtLocationX(locator, location, expectedX).message, "NOT") <==> location.x != expectedX
  {
    if location.x == expectedX {
      NoMarkerWithNumbers(locator, " to be at location X ", expectedX, " but is at location X ", location.x);
    } else {
      assert " NOT to be at location X " == " " + "NOT" + " to be at location X ";
      MarkerAfterLocator(locator, " to be at location X ", expectedX);
    }
  }

  // ---------------------------------------------------------------- text

  /** An element whose text exactly matches also contains the text. */
  lemma ExactTextContainsText(wrap: string -> string, locator: string, actualText: string, expectedText: string)
    requires ToHaveExactText(wrap, locator, actualText, expectedText).pass
    ensures ToContainText(wrap, locator, actualText, expectedText).pass
  {
    var t := Trim(actualText);
    var pre, post := TrimRemovesPadding(actualText);
    assert actualText[|pre|..|pre| + |t|] == t;
    assert OccursAt(actualText, t, |pre|);
  }

  /** White space added around either text does not change whether toHaveExactText passes. */
  lemma ExactTextIgnoresPadding(wrap: string -> string, locator: string, actualText: string, expectedText: string,
                                p1: string, p2: string, q1: string, q2: string)
    requires AllWhitespace(p1) && AllWhitespace(p2) && AllWhitespace(q1) && AllWhitespace(q2)
    ensures ToHaveExactText(wrap, locator, p1 + actualText + p2, q1 + expectedText + q2).pass
        == ToHaveExactText(wrap, locator, actualText, expectedText).pass
  {
    TrimIgnoresPadding(p1, actualText, p2);
    TrimIgnoresPadding(q1, expectedText, q2);
  }

  /**
   White space around the expected text does not matter to toContainText,
   but the element's text is searched as it is.
   */
  lemma ContainTextIgnoresExpectedPadding(wrap: string -> string, locator: string, actualText: string, expectedText: string,
                                          q1: string, q2: string)
    requires AllWhitespace(q1) && AllWhitespace(q2)
    ensures ToContainText(wrap, locator, actualText, q1 + expectedText + q2).pass
        == ToContainText(wrap, locator, actualText, expectedText).pass
  {
    TrimIgnoresPadding(q1, expectedText, q2);
  }

  /** Contained text stays contained when the element's text grows on either side. */
  lemma ContainTextSurvivesExtension(wrap: string -> string, locator: string, actualText: string, expectedText: string,
                                     before: string, after: string)
    requires ToContainText(wrap, locator, actualText, expectedText).pass
    ensures ToContainText(wrap, locator, before + actualText + after, expectedText).pass
  {
    ContainsInMiddle(before, actualText, after, Trim(expectedText));
  }

  // ---------------------------------------------------------------- toHaveTextMatchedBy

  /**
   A pattern that is neither a string nor a RegExp is refused with the same
   error whatever the element's text is.
   */
  lemma TextMatchedByRefusesOtherValues(engine: RegExpEngine, wrap: string -> string, locator: string,
                                        shown: string, actualText: string)
    ensures ToHaveTextMatchedBy(engine, wrap, locator, OtherValue(shown), actualText)
         == Err(ArgumentError("toHaveTextMatchedBy expects either a RegExp or a string, given: " + shown))
  {
  }

  /** A string pattern behaves as the RegExp it compiles to, except in how the message quotes it. */
  lemma TextMatchedByStringAsRegExp(engine: RegExpEngine, wrap: string -> string, locator: string,
                                    source: string, actualText: string)
    requires engine.compiles(source)
    ensures ToHaveTextMatchedBy(engine, wrap, locator, StringPattern(source), actualText).Ok?
    ensures ToHaveTextMatchedBy(engine, wrap, locator, StringPattern(source), actualText).value.pass
         == ToHaveTextMatchedBy(engine, wrap, locator, RegExpPattern(RegExp(engine.escape(source), "")), actualText).value.pass
  {
  }

  // ---------------------------------------------------------------- toHaveClass

  /** Two adjacent white-space characters leave an empty token after the first one. */
  lemma {:induction false} EmptyTokenAt(s: string, i: nat)
    requires i + 1 < |s| && IsWhitespace(s[i]) && IsWhitespace(s[i + 1])
    ensures "" in Split(s)[1..]
  {
    if i == 0 {
      assert Split(s)[1..] == Split(s[1..]);
      assert Split(s[1..]) == [""] + Split(s[2..]);
    } else {
      EmptyTokenAt(s[1..], i - 1);
      var rest := Split(s[1..]);
      assert rest[1..] <= Split(s)[1..] || rest == Split(s)[1..];
    }
  }

  /**
   A class argument with two white-space characters in a row asks for the
   empty class token as well, so toHaveClass fails on an element whose class
   attribute has no empty token, whatever else it holds.
   */
  lemma HaveClassRejectsDoubleSpace(locator: string, actualClasses: string, expectedClasses: string, i: nat)
    requires i + 1 < |expectedClasses| && IsWhitespace(expectedClasses[i]) && IsWhitespace(expectedClasses[i + 1])
    requires "" !in Split(actualClasses)
    ensures !HaveClass(locator, actualClasses, expectedClasses).pass
  {
    EmptyTokenAt(expectedClasses, i);
    var tokens := Split(expectedClasses);
    var k :| 1 <= k < |tokens| && tokens[k] == "";
    assert tokens[k] in tokens;
  }

  /** The tokens toHaveClass reports missing: the expected ones absent from the actual ones, in order, repeats kept. */
  lemma HaveClassMissingTokens(actualClasses: string, expectedClasses: string)
    ensures var missing := Difference(Split(expectedClasses), Split(actualClasses));
      && IsSubsequence(missing, Split(expectedClasses))
      && (forall c :: c in missing <==> c in Split(expectedClasses) && c !in Split(actualClasses))
      && (forall c :: c !in Split(actualClasses) ==>
            multiset(missing)[c] == multiset(Split(expectedClasses))[c])
  {
  }

  /**
   The tokens the negative comparator reports found: the forbidden ones that
   are among the actual ones, each once, in the order they first appear
   among the forbidden ones.
   */
  lemma NotHaveClassFoundTokens(actualClasses: string, forbiddenClasses: string)
    ensures var found := Intersection(Split(forbiddenClasses), Split(actualClasses));
      && NoDuplicates(found)
      && (forall c :: c in found <==> c in Split(forbiddenClasses) && c in Split(actualClasses))
      && (forall i, j :: 0 <= i < j < |found| ==>
            FirstIndex(Split(forbiddenClasses), found[i]) < FirstIndex(Split(forbiddenClasses), found[j]))
  {
    IntersectionOrder(Split(forbiddenClasses), Split(actualClasses));
  }

  /**
   With a single class, the negative comparator is the exact opposite of the
   positive one, and both word their message in the singular.
   */
  lemma SingleClassDuality(locator: string, actualClasses: string, className: string)
    requires NoWhitespace(className)
    ensures HaveClass(locator, actualClasses, className).pass == !NotHaveClass(locator, actualClasses, className).pass
    ensures HaveClass(locator, actualClasses, className).message
         == "Expected " + locator + " to have class [" + className + "], actual classes are ["
            + Join(Split(actualClasses), ", ") + "]"
    ensures NotHaveClass(locator, actualClasses, className).message
         == "Expected " + locator + " to NOT have class [" + className + "], actual classes are ["
            + Join(Split(actualClasses), ", ") + "]"
  {
    SplitToken(className);
  }

  /**
   toHaveClass's `compare` words its message as an expectation that the
   classes be present whether it passes or not.
   */
  lemma HaveClassMessageIgnoresOutcome(locator: string, actualClasses: string, expectedClasses: string)
    ensures var m := HaveClass(locator, actualClasses, expectedClasses).message;
      var prefix := "Expected " + locator + " to have class";
      |prefix| <= |m| && m[..|prefix|] == prefix
  {
    var actual := Split(actualClasses);
    var expected := Split(expectedClasses);
    HaveClassMessageStart(locator, expected, Difference(expected, actual), actual);
  }

  lemma HaveClassMessageStart(locator: string, expected: seq<string>, missing: seq<string>, actual: seq<string>)
    requires expected != []
    ensures var m := HaveClassMessage(locator, expected, missing, actual);
      var prefix := "Expected " + locator + " to have class";
      |prefix| <= |m| && m[..|prefix|] == prefix
  {
    var head := "Expected " + locator;
    var prefix := head + " to have class";
    var m := HaveClassMessage(locator, expected, missing, actual);
    if |expected| == 1 {
      var q := head + " to have class [";
      PrefixUnderHead(head, " to have class", " to have class [");
      PrefixOfAppends(q, expected[0], "], actual classes are [", Join(actual, ", "), "]");
    } else {
      var q := head + " to have classes [";
      PrefixUnderHead(head, " to have class", " to have classes [");
      assert m == q + Join(expected, ", ") + "] but does not have classes [" + Join(missing, ", ")
        + "], actual classes are [" + Join(actual, ", ") + "]";
      PrefixOfAppends(q, Join(expected, ", ") + "] but does not have classes [" + Join(missing, ", "),
        "], actual classes are [", Join(actual, ", "), "]");
    }
    assert prefix <= m;
  }

  /** A literal that starts another literal still starts it after a common head. */
  lemma PrefixUnderHead(head: string, short: string, long: string)
    requires short <= long
    ensures head + short <= head + long
  {
    assert (head + long)[..|head + short|] == head + short;
  }

  /** A string starts every string built by appending to it. */
  lemma PrefixOfAppends(q: string, a: string, b: string, c: string, d: string)
    ensures q <= q + a + b + c + d
  {
    assert (q + a + b + c + d)[..|q|] == q;
  }

  lemma SplitTwoTokens(a: string, b: string)
    requires NoWhitespace(a) && NoWhitespace(b)
    ensures Split(a + " " + b) == [a, b]
  {
    SplitAfterToken(a, b);
    SplitToken(b);
  }

  /** toHaveClass passes when the element has all the expected classes (src/matchers.spec.ts:197-201). */
  lemma HaveClassTestSuccess()
    ensures HaveClass("[locator]", "class1 class2", "class1 class2").pass
  {
    SplitTwoTokens("class1", "class2");
  }

  lemma JoinTwo(a: string, b: string)
    ensures Join([a, b], ", ") == a + ", " + b
  {
    assert [a, b][1..] == [b];
  }

  /**
   toHaveClass on a two-class attribute and a two-class argument that share
   their first class and differ in the second: the shape of the library's
   failure test (src/matchers.spec.ts:203-208).
   */
  lemma HaveClassOneMissing(locator: string, a: string, b: string, c: string)
    requires NoWhitespace(a) && NoWhitespace(b) && NoWhitespace(c)
    requires c != a && c != b
    ensures HaveClass(locator, a + " " + b, a + " " + c) == Comparison(false,
      "Expected " + locator + " to have classes [" + (a + ", " + c) + "] but does not have classes ["
      + c + "], actual classes are [" + (a + ", " + b) + "]")
  {
    SplitTwoTokens(a, b);
    SplitTwoTokens(a, c);
    var actual := [a, b];
    var expected := [a, c];
    assert Difference(expected, actual) == [c] by {
      assert expected[1..] == [c];
      assert Difference(expected[1..], actual) == [c];
    }
    JoinTwo(a, b);
    JoinTwo(a, c);
  }

  /** The negative comparator on a two-class attribute and a third, absent class. */
  lemma NotHaveClassAbsent(locator: string, a: string, b: string, c: string)
    requires NoWhitespace(a) && NoWhitespace(b) && NoWhitespace(c)
    requires c != a && c != b
    ensures NotHaveClass(locator, a + " " + b, c).pass
  {
    SplitTwoTokens(a, b);
    SplitToken(c);
  }

  /**
   The negative comparator on a two-class attribute and its first class:
   the shape of the library's failure test (src/matchers.spec.ts:218-223).
   */
  lemma NotHaveClassPresent(locator: string, a: string, b: string)
    requires NoWhitespace(a) && NoWhitespace(b)
    ensures NotHaveClass(locator, a + " " + b, a) == Comparison(false,
      "Expected " + locator + " to NOT have class [" + a + "], actual classes are [" + (a + ", " + b) + "]")
  {
    SplitTwoTokens(a, b);
    SplitToken(a);
    assert a in [a, b];
    JoinTwo(a, b);
  }

  /** The negative comparator passes when the forbidden class is absent (src/matchers.spec.ts:212-216). */
  lemma NotHaveClassTestSuccess()
    ensures NotHaveClass("[locator]", "class1 class2", "class3").pass
  {
    assert "class3"[5] != "class1"[5] && "class3"[5] != "class2"[5];
    NotHaveClassAbsent("[locator]", "class1", "class2", "class3");
    assert "class1" + " " + "class2" == "class1 class2";
  }

  // ---------------------------------------------------------------- message quirks

  /**
   The messages of toBeChecked carry doubled spaces around the marker, and
   an attribute other than the exact text "true" counts as unchecked.
   */
  lemma CheckedMessages(locator: string, checked: string)
    ensures ToBeChecked(locator, "true") == Comparison(true, "Expected " + locator + "  NOT  to be checked")
    ensures checked != "true" ==> ToBeChecked(locator, checked) == Comparison(false, "Expected " + locator + "  to be checked")
  {
    assert " " + " NOT " + " to be checked" == "  NOT  to be checked";
    assert " " + "" + " to be checked" == "  to be checked";
  }

  /**
   The failure message of toHaveSize has a closing brace that no size
   rendering contains: it is a stray character of the template.
   */
  lemma SizeMessageHasStrayBrace(locator: string, actualSize: ElementSize, expectedSize: ElementSize)
    requires !ToHaveSize(locator, actualSize, expectedSize).pass
    ensures '}' in ToHaveSize(locator, actualSize, expectedSize).message
    ensures '}' !in SizeText(actualSize) && '}' !in SizeText(expectedSize)
  {
    var m := ToHaveSize(locator, actualSize, expectedSize).message;
    var pre := "Expected " + locator + " to have size " + SizeText(expectedSize);
    assert m == pre + "} BUT has size " + SizeText(actualSize);
    assert m[|pre|] == '}';
  }

  // ---------------------------------------------------------------- renderings

  /** `sizeToString` loses nothing: different sizes are written differently. */
  lemma SizeTextInjective(a: ElementSize, b: ElementSize)
    requires SizeText(a) == SizeText(b)
    ensures a == b
  {
    var w1, h1 := IntToString(a.width), IntToString(a.height);
    var w2, h2 := IntToString(b.width), IntToString(b.height);
    var tail := " Height: ";
    assert "Width: " + w1 + [','] + (tail + h1) == SizeText(a);
    assert "Width: " + w2 + [','] + (tail + h2) == SizeText(b);
    CutAtFirst("Width: " + w1, tail + h1, "Width: " + w2, tail + h2, ',');
    assert w1 == ("Width: " + w1)[7..] && w2 == ("Width: " + w2)[7..];
    assert h1 == (tail + h1)[|tail|..] && h2 == (tail + h2)[|tail|..];
    IntToStringInjective(a.width, b.width);
    IntToStringInjective(a.height, b.height);
  }

  /**
   `String(regex)` loses nothing either: flags are letters, so the last
   slash separates the source from the flags.
   */
  lemma RegExpTextInjective(a: RegExp, b: RegExp)
    requires '/' !in a.flags && '/' !in b.flags
    requires RegExpText(a) == RegExpText(b)
    ensures a == b
  {
    assert RegExpText(a) == ("/" + a.source) + ['/'] + a.flags;
    assert RegExpText(b) == ("/" + b.source) + ['/'] + b.flags;
    CutAtLast("/" + a.source, a.flags, "/" + b.source, b.flags, '/');
    assert a.source == ("/" + a.source)[1..] && b.source == ("/" + b.source)[1..];
  }
}
