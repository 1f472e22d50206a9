/**
 The comparators of the assertion matchers. In the library each comparator
 awaits one read of the element (presence, visibility, text, an attribute,
 size, location or a CSS value) and then decides synchronously; here the
 value read is a parameter, so every comparator is a function of the
 element's locator text, the observed value and the matcher's arguments.

 Every comparator returns a message whether it passes or not: the message
 for a pass is the one a negated assertion reports when it fails.
 */
module Matchers {
  import opened JsText
  import opened Lodash

  datatype Comparison = Comparison(pass: bool, message: string)

  datatype ElementSize = ElementSize(width: int, height: int)

  datatype ElementLocation = ElementLocation(x: int, y: int)

  /** A regular-expression object: its source text and its flags. */
  datatype RegExp = RegExp(source: string, flags: string)

  /**
   The JavaScript regular-expression engine, kept abstract: which pattern
   strings compile, how `new RegExp(s)` normalises `s` into its `source`,
   and what `test` answers.
   */
  datatype RegExpEngine = RegExpEngine(
    compiles: string -> bool,
    escape: string -> string,
    test: (RegExp, string) -> bool)

  /** An argument that should be a pattern: a string, a RegExp, or any other value (given by its string form). */
  datatype Pattern = StringPattern(text: string) | RegExpPattern(re: RegExp) | OtherValue(shown: string)

  /** The errors a comparator throws instead of returning a comparison. */
  datatype MatcherError = ArgumentError(message: string) | RegExpSyntaxError(pattern: string)

  datatype Result<T> = Ok(value: T) | Err(error: MatcherError)

  /** `String(re)`: the source between two slashes, then the flags. */
  function RegExpText(re: RegExp): (r: string)
    ensures |r| == |re.source| + |re.flags| + 2
    ensures r[0] == '/' && r[|re.source| + 1] == '/'
  {
    "/" + re.source + "/" + re.flags
  }

  /** `new RegExp(source)` for a string source. */
  function NewRegExp(engine: RegExpEngine, source: string): (r: Result<RegExp>)
    ensures r.Ok? <==> engine.compiles(source)
    ensures r.Ok? ==> r.value.flags == ""
  {
    if engine.compiles(source) then Ok(RegExp(engine.escape(source), "")) else Err(RegExpSyntaxError(source))
  }

  // ---------------------------------------------------------------- presence, visibility, selection

  /** toBePresent (src/matchers.ts:11-23). */
  function ToBePresent(locator: string, isPresent: bool): (r: Comparison)
    ensures r.pass == isPresent
  {
    var pass := isPresent;
    Comparison(pass, "Expected " + locator + " " + (if pass then "NOT " else "") + "to be present")
  }

  /** toBeDisplayed (src/matchers.ts:25-37). */
  function ToBeDisplayed(locator: string, isDisplayed: bool): (r: Comparison)
    ensures r.pass == isDisplayed
  {
    var pass := isDisplayed;
    Comparison(pass, "Expected " + locator + " " + (if pass then "NOT " else "") + "to be displayed")
  }

  /** toBeSelected (src/matchers.ts:195-211): the marker is padded with spaces on both sides. */
  function ToBeSelected(locator: string, isSelected: bool): (r: Comparison)
    ensures r.pass == isSelected
  {
    var pass := isSelected;
    Comparison(pass, "Expected " + locator + " " + (if pass then " NOT " else "") + " to be selected")
  }

  /**
   toBeChecked (src/matchers.ts:177-193): reads the `checked` attribute and
   passes only when it is exactly the text "true".
   */
  function ToBeChecked(locator: string, checked: string): (r: Comparison)
    ensures r.pass <==> checked == "true"
  {
    var pass := checked == "true";
    Comparison(pass, "Expected " + locator + " " + (if pass then " NOT " else "") + " to be checked")
  }

  // ---------------------------------------------------------------- text

  /**
   toContainText (src/matchers.ts:39-57): the trimmed expected text must
   occur in the untrimmed text of the element.
   */
  function ToContainText(wrap: string -> string, locator: string, actualText: string, expectedText: string): (r: Comparison)
    ensures r.pass <==> Contains(actualText, Trim(expectedText))
  {
    var pass := IndexOf(actualText, Trim(expectedText)) >= 0;
    var message :=
      if pass then "Expected " + locator + " NOT to contain text " + wrap(expectedText) + " BUT text is " + wrap(actualText)
      else "Expected " + locator + " to contain text " + wrap(expectedText) + " BUT text is " + wrap(actualText);
    Comparison(pass, message)
  }

  /** toHaveExactText (src/matchers.ts:59-78): both texts are compared trimmed. */
  function ToHaveExactText(wrap: string -> string, locator: string, actualText: string, expectedText: string): (r: Comparison)
    ensures r.pass <==> Trim(actualText) == Trim(expectedText)
  {
    var pass := Trim(actualText) == Trim(expectedText);
    var message :=
      if pass then "Expected " + locator + " NOT to have text " + wrap(expectedText)
      else "Expected " + locator + " to have text " + wrap(expectedText) + " BUT has text " + wrap(actualText);
    Comparison(pass, message)
  }

  /**
   The argument check and regular-expression construction of
   toHaveTextMatchedBy (src/matchers.ts:85-91): a value that is neither a
   string nor a RegExp is refused, a string is compiled, a RegExp is used
   as it is.
   */
  function TextPattern(engine: RegExpEngine, pattern: Pattern): (r: Result<RegExp>)
    ensures pattern.OtherValue? ==> r.Err? && r.error.ArgumentError?
    ensures pattern.RegExpPattern? ==> r == Ok(pattern.re)
    ensures pattern.StringPattern? ==> r == NewRegExp(engine, pattern.text)
  {
    match pattern
    case OtherValue(shown) =>
      Err(ArgumentError("toHaveTextMatchedBy expects either a RegExp or a string, given: " + shown))
    case StringPattern(text) => NewRegExp(engine, text)
    case RegExpPattern(re) => Ok(re)
  }

  /** How a pattern argument reads inside a template literal. */
  function PatternText(pattern: Pattern): string {
    match pattern
    case StringPattern(text) => text
    case RegExpPattern(re) => RegExpText(re)
    case OtherValue(shown) => shown
  }

  /** toHaveTextMatchedBy's message for the given outcome (src/matchers.ts:96-100). */
  function TextMatchedByMessage(wrap: string -> string, locator: string, pattern: Pattern,
                                actualText: string, pass: bool): string
  {
    if pass then "Expected " + locator + " NOT to have match " + PatternText(pattern) + ", BUT text is " + wrap(actualText)
    else "Expected " + locator + " to match " + PatternText(pattern) + ", BUT text is " + wrap(actualText)
  }

  /**
   toHaveTextMatchedBy (src/matchers.ts:80-108): fails with an error, without
   looking at the text, when the pattern is refused or does not compile;
   otherwise passes when the regular expression matches the text.
   */
  function ToHaveTextMatchedBy(engine: RegExpEngine, wrap: string -> string, locator: string,
                               pattern: Pattern, actualText: string): (r: Result<Comparison>)
    ensures r.Err? <==> TextPattern(engine, pattern).Err?
    ensures r.Err? ==> r.error == TextPattern(engine, pattern).error
    ensures r.Ok? ==> r.value.pass == engine.test(TextPattern(engine, pattern).value, actualText)
  {
    match TextPattern(engine, pattern)
    case Err(e) => Err(e)
    case Ok(regex) =>
      var pass := engine.test(regex, actualText);
      Ok(Comparison(pass, TextMatchedByMessage(wrap, locator, pattern, actualText, pass)))
  }

  // ---------------------------------------------------------------- attributes and CSS

  /** toHaveValue (src/matchers.ts:110-130): compares the `value` attribute. */
  function ToHaveValue(wrap: string -> string, locator: string, actualValue: string, expectedValue: string): (r: Comparison)
    ensures r.pass <==> actualValue == expectedValue
  {
    var pass := actualValue == expectedValue;
    var message :=
      if pass then "Expected " + locator + " NOT to have value " + wrap(expectedValue)
      else "Expected " + locator + " to have value " + wrap(expectedValue) + " BUT has value " + wrap(actualValue);
    Comparison(pass, message)
  }

  /** toHaveAttribute (src/matchers.ts:132-152): compares the named attribute. */
  function ToHaveAttribute(wrap: string -> string, locator: string, attribute: string,
                           actualValue: string, expectedValue: string): (r: Comparison)
    ensures r.pass <==> actualValue == expectedValue
  {
    var pass := actualValue == expectedValue;
    var message :=
      if pass then "Expected " + locator + " NOT to have " + attribute + " " + wrap(expectedValue)
      else "Expected " + locator + " to have " + attribute + " " + wrap(expectedValue) + " BUT has " + attribute + " " + wrap(actualValue);
    Comparison(pass, message)
  }

  /**
   `new RegExp(x)` as toMatchAttribute calls it: a string is compiled, a
   RegExp is copied, any other value is compiled from its string form.
   */
  function AttributePattern(engine: RegExpEngine, expectedMatch: Pattern): (r: Result<RegExp>)
    ensures expectedMatch.RegExpPattern? ==> r == Ok(expectedMatch.re)
    ensures !expectedMatch.RegExpPattern? ==> r == NewRegExp(engine, PatternText(expectedMatch))
  {
    match expectedMatch
    case RegExpPattern(re) => Ok(re)
    case StringPattern(text) => NewRegExp(engine, text)
    case OtherValue(shown) => NewRegExp(engine, shown)
  }

  /**
   toMatchAttribute (src/matchers.ts:154-175): passes when the regular
   expression matches the attribute's value. Its message names the
   attribute, not the element.
   */
  function ToMatchAttribute(engine: RegExpEngine, wrap: string -> string, attribute: string,
                            actualValue: string, expectedMatch: Pattern): (r: Result<Comparison>)
    ensures r.Err? <==> AttributePattern(engine, expectedMatch).Err?
    ensures r.Ok? ==> r.value.pass == engine.test(AttributePattern(engine, expectedMatch).value, actualValue)
  {
    match AttributePattern(engine, expectedMatch)
    case Err(e) => Err(e)
    case Ok(regex) =>
      var pass := engine.test(regex, actualValue);
      var message :=
        if pass then "Expected " + attribute + " NOT to match " + wrap(RegExpText(regex)) + " BUT it's value is " + wrap(actualValue)
        else "Expected " + attribute + " to match " + wrap(RegExpText(regex)) + " BUT it's value is " + wrap(actualValue);
      Ok(Comparison(pass, message))
  }

  /**
   toHaveCssValue (src/matchers.ts:362-399) without the `normalizeColor`
   option: the CSS value is compared as it is read.
   */
  function ToHaveCssValue(wrap: string -> string, locator: string, cssProperty: string,
                          actualValue: string, expectedValue: string): (r: Comparison)
    ensures r.pass <==> actualValue == expectedValue
  {
    var pass := actualValue == expectedValue;
    var message :=
      if pass then "Expected " + locator + " NOT to have value " + wrap(expectedValue) + " for CSS property " + cssProperty
      else "Expected " + locator + " to have value " + wrap(expectedValue) + " for CSS property " + cssProperty + " BUT has value " + wrap(actualValue);
    Comparison(pass, message)
  }

  // ---------------------------------------------------------------- geometry

  /** toHaveWidth (src/matchers.ts:213-233). */
  function ToHaveWidth(locator: string, size: ElementSize, expectedWidth: int): (r: Comparison)
    ensures r.pass <==> size.width == expectedWidth
  {
    var pass := size.width == expectedWidth;
    var message :=
      if pass then "Expected " + locator + " NOT to have width " + IntToString(expectedWidth)
      else "Expected " + locator + " to have width " + IntToString(expectedWidth) + " BUT has width " + IntToString(size.width);
    Comparison(pass, message)
  }

  /** `sizeToString` (src/matchers.ts:236-238). */
  function SizeText(size: ElementSize): (r: string)
    ensures '}' !in r
  {
    "Width: " + IntToString(size.width) + ", Height: " + IntToString(size.height)
  }

  /**
   toHaveSize (src/matchers.ts:235-260): width and height must both match.
   The failure message carries a stray closing brace after the expected size.
   */
  function ToHaveSize(locator: string, actualSize: ElementSize, expectedSize: ElementSize): (r: Comparison)
    ensures r.pass <==> actualSize.width == expectedSize.width && actualSize.height == expectedSize.height
  {
    var pass := actualSize.width == expectedSize.width && actualSize.height == expectedSize.height;
    var message :=
      if pass then "Expected " + locator + " NOT to have size " + SizeText(expectedSize)
      else "Expected " + locator + " to have size " + SizeText(expectedSize) + "} BUT has size " + SizeText(actualSize);
    Comparison(pass, message)
  }

  /**
   toBeAtLocationX (src/matchers.ts:262-282). Unlike every other matcher, it
   gives the positive wording when it passes and the "NOT" wording when it fails.
   */
  function ToBeAtLocationX(locator: string, location: ElementLocation, expectedX: int): (r: Comparison)
    ensures r.pass <==> location.x == expectedX
  {
    var pass := location.x == expectedX;
    var message :=
      if pass then "Expected " + locator + " to be at location X " + IntToString(expectedX) + " but is at location X " + IntToString(location.x)
      else "Expected " + locator + " NOT to be at location X " + IntToString(expectedX);
    Comparison(pass, message)
  }

  // ---------------------------------------------------------------- classes

  /**
   The message of toHaveClass's `compare` (src/matchers.ts:322-326), from the
   expected tokens, the missing ones and the actual ones.
   */
  function HaveClassMessage(locator: string, expected: seq<string>, missing: seq<string>, actual: seq<string>): string
    requires expected != []
  {
    if |expected| == 1 then
      "Expected " + locator + " to have class [" + expected[0] + "], actual classes are [" + Join(actual, ", ") + "]"
    else
      "Expected " + locator + " to have classes [" + Join(expected, ", ") + "] but does not have classes ["
      + Join(missing, ", ") + "], actual classes are [" + Join(actual, ", ") + "]"
  }

  /**
   toHaveClass, `compare` (src/matchers.ts:314-335): every expected token must
   be among the actual tokens. The message does not depend on the outcome,
   and uses the singular form when the argument is one token.
   */
  function HaveClass(locator: string, actualClasses: string, expectedClasses: string): (r: Comparison)
    ensures r.pass <==> AllIn(Split(expectedClasses), Split(actualClasses))
  {
    var actual := Split(actualClasses);
    var expected := Split(expectedClasses);
    var missing := Difference(expected, actual);
    DifferenceEmpty(expected, actual);
    Comparison(missing == [], HaveClassMessage(locator, expected, missing, actual))
  }

  /**
   The message of toHaveClass's `negativeCompare` (src/matchers.ts:345-349),
   from the forbidden tokens, the ones found and the actual ones.
   */
  function NotHaveClassMessage(locator: string, forbidden: seq<string>, found: seq<string>, actual: seq<string>): string
    requires forbidden != []
  {
    if |forbidden| == 1 then
      "Expected " + locator + " to NOT have class [" + forbidden[0] + "], actual classes are [" + Join(actual, ", ") + "]"
    else
      "Expected " + locator + " to NOT have classes [" + Join(forbidden, ", ") + "] but does have classes ["
      + Join(found, ", ") + "], actual classes are [" + Join(actual, ", ") + "]"
  }

  /**
   toHaveClass, `negativeCompare` (src/matchers.ts:337-357): no forbidden
   token may be among the actual tokens.
   */
  function NotHaveClass(locator: string, actualClasses: string, forbiddenClasses: string): (r: Comparison)
    ensures r.pass <==> NoneIn(Split(forbiddenClasses), Split(actualClasses))
  {
    var actual := Split(actualClasses);
    var forbidden := Split(forbiddenClasses);
    var found := Intersection(forbidden, actual);
    IntersectionEmpty(forbidden, actual);
    Comparison(found == [], NotHaveClassMessage(locator, forbidden, found, actual))
  }

  // ---------------------------------------------------------------- reading the element

  /**
   The element as toHaveTextMatchedBy sees it: its locator text, the text
   `getText` resolves to, and how many times `getText` has been called.
   */
  class Element {
    const locator: string
    const text: string
    var textReads: nat

    constructor (locator: string, text: string)
      ensures this.locator == locator && this.text == text && textReads == 0
    {
      this.locator := locator;
      this.text := text;
      textReads := 0;
    }

    method GetText() returns (t: string)
      modifies this
      ensures t == text && textReads == old(textReads) + 1
    {
      t := text;
      textReads := textReads + 1;
    }
  }

  /**
   toHaveTextMatchedBy's `compare` with its one read (src/matchers.ts:82-106):
   the pattern is checked and compiled first, and the text is read only if
   that succeeds.
   */
  method CompareTextMatchedBy(engine: RegExpEngine, wrap: string -> string, element: Element, pattern: Pattern)
    returns (r: Result<Comparison>)
    modifies element
    ensures r == ToHaveTextMatchedBy(engine, wrap, element.locator, pattern, element.text)
    ensures r.Err? ==> element.textReads == old(element.textReads)
    ensures r.Ok? ==> element.textReads == old(element.textReads) + 1
  {
    var regex := TextPattern(engine, pattern);
    if regex.Err? {
      return Err(regex.error);
    }
    var actualText := element.GetText();
    var pass := engine.test(regex.value, actualText);
    r := Ok(Comparison(pass, TextMatchedByMessage(wrap, element.locator, pattern, actualText, pass)));
  }
}
