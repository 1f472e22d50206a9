# jasmine-protractor-matchers: the comparators, their registration and the timeout setting, in Dafny

This project models the decision logic of the asynchronous jasmine matchers
that `jasmine-protractor-matchers` adds for protractor elements
(`src/matchers.ts`), and the one mutable setting of the library, the default
timeout (`src/config.ts`).

Each matcher's `compare` (and, for toHaveClass, `negativeCompare`) awaits one
read of the element and then decides. The read is an input of the model, so
each comparator becomes a function from the locator text, the observed value
and the matcher's arguments to a `Comparison(pass, message)`. The function
builds the same message as the source, character for character, quirks
included. Numbers in messages are integers of magnitude below 10^21, which
JavaScript writes as plain decimal digits (see "## Left out"):

- toBeChecked passes only on the attribute text `"true"`, and it pads its
  marker with doubled spaces. toBeSelected pads its marker the same way.
- toHaveSize's failure message has a stray `}`.
- toBeAtLocationX has its two messages the other way round.
- toHaveClass's `compare` words its message the same way whether it passes
  or not.

The modules:

- `JsText` (js_text.dfy): the JavaScript string built-ins the comparators
  use.
  - `trim` and the `\s` class, sharing one white-space set: ECMAScript
    WhiteSpace and LineTerminator.
  - `indexOf`, `split(/\s/)` (which keeps empty tokens) and `join`.
  - The decimal rendering of an integer inside a template literal.
- `Lodash` (lodash.dfy): lodash `difference`, which keeps order and repeats,
  and lodash `intersection`, which keeps first-occurrence order and has no
  repeats.
- `Matchers` (matchers.dfy): the comparators.
  - The regular-expression engine is an abstract `RegExpEngine` with three
    operations: which sources compile, how `new RegExp` normalises a source,
    and what `test` answers.
  - `wrapString` is a function parameter `wrap`.
  - The `Element` class and the `CompareTextMatchedBy` method model the one
    comparator whose order of effects is a stated property: toHaveTextMatchedBy
    validates its argument before reading the text.
- `MatcherProperties` (matcher_properties.dfy): properties of the comparators.
  - The "NOT" marker follows the outcome.
  - Trimming makes the text matchers insensitive to padding.
  - What the class lists hold.
  - The comparators' results in the library's own tests.
- `Config` (config.dfy): the timeout setting, as a class with one mutable
  field and its setter.
- `TimeoutWrapper` (timeout_wrapper.dfy): the result a registered matcher
  reports, in the shape the library's tests observe. The wrapper
  `addTimeoutToAsyncMatcher` is imported by src/matchers.ts:5, but its code is
  not part of this model. So this module states the result shape the tests
  observe, not what that code does:
  - a pass carries no message;
  - a negated expectation keeps the comparator's message;
  - a failure gets the suffix `" (waited for 5000ms)"` under a timeout of
    5000 and no suffix under a timeout of 0. These two cases are all the
    tests pin down (`InitialSuffix`).

  `WaitSuffix` extends this to other timeouts: `" (waited for Nms)"` for any
  positive N, and nothing for zero or a negative value. That extension is an
  assumption about the wrapper's code, not something the tests show. The
  same goes for `SuffixShowsTimeout`, which is built on it.
- `Registration` (registration.dfy): the loop that fills the exported table,
  each factory wrapped and stored under its own name.

## Model

| member | source | states |
|---|---|---|
| JsText.TrimStartShape | src/matchers.ts:65 | trimming the front keeps a suffix that does not start with white space, and what it drops is all white space |
| JsText.TrimEndShape | src/matchers.ts:65 | trimming the back keeps a prefix that does not end with white space, and what it drops is all white space |
| JsText.Trim | src/matchers.ts:45 | a trimmed string starts and ends with a non-white-space character (or is empty) |
| JsText.TrimRemovesPadding | src/matchers.ts:65 | every string is white space, then its trimmed form, then white space |
| JsText.TrimUnique | src/matchers.ts:65 | trimming a trimmed core padded with white space gives back exactly that core |
| JsText.TrimIdempotent | src/matchers.ts:65 | trimming twice is trimming once |
| JsText.TrimIgnoresPadding | src/matchers.ts:65 | extra white space on either side does not change the trimmed form |
| JsText.IndexOf | src/matchers.ts:45 | the index is non-negative exactly when the needle occurs; it is then the first occurrence, and otherwise -1 |
| JsText.ContainsInMiddle | src/matchers.ts:45 | a substring stays a substring when text is added on either side |
| JsText.Split | src/matchers.ts:318-319 | splitting on single white-space characters gives at least one token, and no token holds white space |
| JsText.JoinSplit | src/matchers.ts:318-326 | if a string's only white space is plain spaces, joining its tokens with a space gives it back |
| JsText.SplitToken | src/matchers.ts:319 | a string without white space is one token |
| JsText.SplitAfterToken | src/matchers.ts:318 | a token followed by one space is split off as the first token |
| JsText.SplitJoin | src/matchers.ts:318-319 | splitting white-space-free tokens joined by single spaces gives the tokens back |
| JsText.SplitInterleave | src/matchers.ts:318-319 | for every string, there is one token more than there are white-space characters, and putting each white-space character (space, tab, line break, NBSP, ...) back between its tokens gives the string again |
| JsText.JoinParts | src/matchers.ts:324-326 | `join` gives the empty string for no parts, the part itself for one part, and otherwise the parts with the separator between neighbours; the result starts with the first part and ends with the last |
| JsText.IntToString | src/matchers.ts:222-224 | a number is written as digits, led by a minus sign exactly when it is negative, and nothing else |
| JsText.NatToString | src/matchers.ts:222-224 | the decimal rendering is a non-empty string of digits, with no leading zero except for 0 |
| JsText.NatToStringValue | src/matchers.ts:222-224 | reading the rendered digits back gives the number |
| JsText.IntToStringInjective | src/matchers.ts:222-224 | different integers render differently |
| Lodash.Difference | src/matchers.ts:321 | the elements of the first list absent from the second, in order; each keeps its number of occurrences |
| Lodash.Intersection | src/matchers.ts:344 | the elements of the first list present in the second, each once |
| Lodash.DifferenceEmpty | src/matchers.ts:321-329 | the difference is empty exactly when every element of the first list is in the second |
| Lodash.IntersectionEmpty | src/matchers.ts:344-351 | the intersection is empty exactly when no element of the first list is in the second |
| Lodash.IntersectionOrder | src/matchers.ts:344 | the intersection lists its elements in the order of their first occurrence in the first list |
| Matchers.NewRegExp | src/matchers.ts:89-91 | compiling a string succeeds exactly when the engine accepts it, and gives no flags |
| Matchers.ToBePresent | src/matchers.ts:11-23 | passes exactly when the element is present |
| Matchers.ToBeDisplayed | src/matchers.ts:25-37 | passes exactly when the element is displayed |
| Matchers.ToContainText | src/matchers.ts:39-57 | passes exactly when the trimmed expected text occurs in the untrimmed element text |
| Matchers.ToHaveExactText | src/matchers.ts:59-78 | passes exactly when both texts are equal once trimmed |
| Matchers.TextPattern | src/matchers.ts:85-91 | a value that is neither a string nor a RegExp is refused with an argument error; a string is compiled; a RegExp is used as it is |
| Matchers.ToHaveTextMatchedBy | src/matchers.ts:80-108 | fails with the pattern's error exactly when the pattern is refused or does not compile; otherwise passes exactly when the regular expression matches the text |
| Matchers.ToHaveValue | src/matchers.ts:110-130 | passes exactly when the value attribute equals the expected value |
| Matchers.ToHaveAttribute | src/matchers.ts:132-152 | passes exactly when the attribute equals the expected value |
| Matchers.AttributePattern | src/matchers.ts:161 | `new RegExp` copies a RegExp and compiles anything else from its string form |
| Matchers.ToMatchAttribute | src/matchers.ts:154-175 | fails with an error exactly when the pattern does not compile; otherwise passes exactly when it matches the attribute |
| Matchers.ToBeChecked | src/matchers.ts:177-193 | passes exactly when the checked attribute is the text "true" |
| Matchers.ToBeSelected | src/matchers.ts:195-211 | passes exactly when the element is selected |
| Matchers.RegExpText | src/matchers.ts:164-166 | `String(regex)` is the source between two slashes, followed by the flags |
| MatcherProperties.RegExpTextInjective | src/matchers.ts:164-166 | when the flags hold no slash (they are letters), different regular expressions are written differently |
| Matchers.SizeText | src/matchers.ts:236-238 | `sizeToString` never writes a `}` |
| MatcherProperties.SizeTextInjective | src/matchers.ts:236-238 | different sizes are written differently: the width and the height can be read back |
| Matchers.ToHaveWidth | src/matchers.ts:213-233 | passes exactly when the width equals the expected width |
| Matchers.ToHaveSize | src/matchers.ts:235-260 | passes exactly when both width and height equal the expected ones |
| Matchers.ToBeAtLocationX | src/matchers.ts:262-282 | passes exactly when the x coordinate equals the expected one |
| Matchers.HaveClass | src/matchers.ts:312-335 | passes exactly when every expected token is among the actual tokens |
| Matchers.NotHaveClass | src/matchers.ts:337-357 | passes exactly when no forbidden token is among the actual tokens |
| Matchers.ToHaveCssValue | src/matchers.ts:362-399 | without colour normalisation, passes exactly when the CSS value equals the expected one |
| Matchers.Element.GetText | src/matchers.ts:93 | returns the element's text and counts one read |
| Matchers.CompareTextMatchedBy | src/matchers.ts:82-106 | returns what the comparator function gives; the text is read once on success and not at all when the pattern is refused |
| MatcherProperties.PresentMessageMarksPass | src/matchers.ts:14-16 | the message says "NOT" exactly when toBePresent passes |
| MatcherProperties.DisplayedMessageMarksPass | src/matchers.ts:28-30 | the message says "NOT" exactly when toBeDisplayed passes |
| MatcherProperties.SelectedMessageMarksPass | src/matchers.ts:200-203 | the message says "NOT" exactly when toBeSelected passes |
| MatcherProperties.CheckedMessageMarksPass | src/matchers.ts:182-185 | the message says "NOT" exactly when the checked attribute is "true" |
| MatcherProperties.WidthMessageMarksPass | src/matchers.ts:220-225 | the message says "NOT" exactly when toHaveWidth passes |
| MatcherProperties.LocationXMessageMarksFailure | src/matchers.ts:269-274 | toBeAtLocationX says "NOT" exactly when it fails, the opposite of every other matcher |
| MatcherProperties.CheckedMessages | src/matchers.ts:184-185 | the toBeChecked messages have doubled spaces around the marker, and any other attribute text counts as unchecked |
| MatcherProperties.SizeMessageHasStrayBrace | src/matchers.ts:251 | the toHaveSize failure message holds a `}` that no size rendering contains |
| MatcherProperties.ExactTextContainsText | src/matchers.ts:45-65 | whenever toHaveExactText passes, toContainText passes too |
| MatcherProperties.ExactTextIgnoresPadding | src/matchers.ts:65 | white space around either text does not change toHaveExactText's outcome |
| MatcherProperties.ContainTextIgnoresExpectedPadding | src/matchers.ts:45 | white space around the expected text does not change toContainText's outcome |
| MatcherProperties.ContainTextSurvivesExtension | src/matchers.ts:45 | contained text stays contained when the element text grows on either side |
| MatcherProperties.TextMatchedByRefusesOtherValues | src/matchers.ts:85-87 | a pattern that is neither a string nor a RegExp gives the same argument error whatever the text |
| MatcherProperties.TextMatchedByStringAsRegExp | src/matchers.ts:89-95 | a compilable string pattern passes exactly when the RegExp it compiles to would |
| MatcherProperties.EmptyTokenAt | src/matchers.ts:318-319 | two white-space characters in a row give an empty token |
| MatcherProperties.HaveClassRejectsDoubleSpace | src/matchers.ts:319-329 | a class argument with a double space fails on any element whose classes have no empty token |
| MatcherProperties.HaveClassMissingTokens | src/matchers.ts:321 | the "does not have" list holds the expected tokens absent from the actual ones, in order, repeats kept |
| MatcherProperties.NotHaveClassFoundTokens | src/matchers.ts:344 | the "does have" list holds the forbidden tokens present among the actual ones, each once, in forbidden order |
| MatcherProperties.SingleClassDuality | src/matchers.ts:323-347 | for one class, the negative comparator passes exactly when the positive one fails, and both use the singular wording |
| MatcherProperties.HaveClassMessageIgnoresOutcome | src/matchers.ts:322-327 | toHaveClass's `compare` message always starts "Expected L to have class", passing or not |
| MatcherProperties.HaveClassMessageStart | src/matchers.ts:322-326 | both wordings of the toHaveClass message start with "Expected L to have class" |
| MatcherProperties.HaveClassTestSuccess | src/matchers.spec.ts:197-201 | toHaveClass passes for classes "class1 class2" and argument "class1 class2" |
| MatcherProperties.HaveClassOneMissing | src/matchers.spec.ts:203-208 | for classes `a b` and argument `a c`, toHaveClass fails and reports `[a, c]`, `[c]` and `[a, b]`, as the test expects |
| MatcherProperties.NotHaveClassAbsent | src/matchers.spec.ts:212-216 | the negative comparator passes for a class the element does not have |
| MatcherProperties.NotHaveClassPresent | src/matchers.spec.ts:218-223 | the negative comparator fails for the element's first class, with the singular message the test expects |
| MatcherProperties.NotHaveClassTestSuccess | src/matchers.spec.ts:212-216 | the negative comparator passes for classes "class1 class2" and argument "class3" |
| Config.TimeoutSetting.constructor | src/config.ts:1 | the setting starts at 5000 |
| Config.TimeoutSetting.SetDefaultTimeout | src/config.ts:8-10 | after the call, the setting holds the new value, whatever it is; nothing else changes |
| Config.SetTwice | src/config.ts:8-10 | the last write wins |
| Config.WithTemporaryTimeout | src/matchers.spec.ts:232-245 | saving, setting and writing the saved value back shows the temporary value in between and restores the original |
| TimeoutWrapper.Negate | src/matchers.spec.ts:117-123 | a negated comparison flips the outcome and keeps the message |
| TimeoutWrapper.WaitSuffix | src/matchers.spec.ts:96-99 | the suffix is empty exactly when the timeout is not positive (the tests show 5000 and 0; other values are an assumption about the wrapper) |
| TimeoutWrapper.Settle | src/matchers.spec.ts:111-141 | the reported result passes exactly when the comparison does; a pass carries no message, and a failure carries the comparator's message followed by the suffix |
| TimeoutWrapper.FailureKeepsMessage | src/matchers.spec.ts:130-135 | a failure message starts with the comparator's message, and equals it when the timeout is zero |
| TimeoutWrapper.SuffixShowsTimeout | src/matchers.spec.ts:96-99 | under the assumed suffix for positive timeouts, different timeouts give different suffixes |
| TimeoutWrapper.InitialSuffix | src/matchers.spec.ts:96-99 | under the initial setting the suffix is " (waited for 5000ms)", and with 0 it is empty |
| TimeoutWrapper.PresentReports | src/matchers.spec.ts:101-143 | the four toBePresent results of the tests, for any locator and timeout |
| TimeoutWrapper.DisplayedReports | src/matchers.spec.ts:145-187 | the four toBeDisplayed results of the tests, for any locator and timeout |
| TimeoutWrapper.ClassReports | src/matchers.spec.ts:189-225 | the four toHaveClass results of the tests, suffix included |
| TimeoutWrapper.TimeoutScenarios | src/matchers.spec.ts:228-245 | a failure reports the 5000ms suffix under the initial setting and none after setting 0; the setting is restored afterwards |
| Registration.Register | src/matchers.ts:401-405 | the loop builds exactly the table the specification function describes |
| Registration.RegistryKeys | src/matchers.ts:402-405 | the table's keys are exactly the names of the entries |
| Registration.RegistryValues | src/matchers.ts:402-405 | every entry that no later entry overrides is stored, wrapped, under its name |
| Registration.NameOfInjective | src/matchers.ts:10-399 | different matchers have different names |
| Registration.TableNamesDistinct | src/matchers.ts:10-399 | no name occurs twice in the private table |
| Registration.ExportedTable | src/matchers.ts:401-405 | the exported table has a key for every matcher and no other key, and each key holds its own matcher wrapped |

## Left out

- toBeNearLocation (src/matchers.ts:284-310): its distance is a floating-point square root, and the float appears in the message. Floating point is not modelled.
- toHaveCssValue's `normalizeColor` option (src/matchers.ts:367-384): it relies on the Tinycolor2 library and logs to the console. Only the plain comparison is modelled.
- `addTimeoutToAsyncMatcher` and `wrapString`: their code is not part of this model.
  - `wrapString` is the parameter `wrap`, with no properties assumed.
  - The timeout wrapper is modelled only by the result shape the tests observe (`TimeoutWrapper`).
  - Its polling, its use of `protractor.browser.wait` and its error handling are not modelled; `Settle` takes the comparison of the last attempt.
- Regular-expression semantics: matching, the syntax check and source normalisation are the abstract `RegExpEngine`. `lastIndex` state of global or sticky expressions is not modelled.
- Element reads (`isPresent`, `getText`, `getAttribute`, `getSize`, `getLocation`, `getCssValue`) and `locator()` are inputs.
  - The one exception is `Element.GetText`, which counts its calls.
  - A `null` attribute is not modelled: attributes are strings. So `split` on a missing class attribute, which throws in the source, is not modelled.
- JavaScript numbers are integers here. `==` and `===` coincide on integers. The following are not modelled, nor how they are written in messages:
  - NaN, infinities, fractions and `-0`;
  - the loss of precision above 2^53;
  - the exponent form JavaScript uses from 10^21 upwards: `${1e21}` is `"1e+21"`, while `IntToString` writes 22 digits.

  So the messages of toHaveWidth, toHaveSize and toBeAtLocationX match the source only for sizes and coordinates below 10^21 in magnitude.
- `new RegExp(undefined)` and other non-string, non-RegExp arguments to toMatchAttribute are compiled from a caller-given string form (`OtherValue`). JavaScript's own conversion of such values to strings is not modelled.
- Strings are sequences of Unicode scalar values, not UTF-16 code units. Lone surrogates and the code-unit length of astral characters are not modelled.
- `catchMatcherErrors` (src/utils.ts) is not used by the matchers and is not modelled.
- src/types.ts holds declarations only. `IElementSize` and `IElementLocation` are the datatypes `ElementSize` and `ElementLocation`.
- gulpfile.ts and gulpfile.js are build tooling.
- The timeout setting accepts any integer, as src/config.ts:8-10 does: there is no check that it is non-negative. What the wrapper does with a negative timeout is not shown by any test. `WaitSuffix` assumes it gives no suffix, like zero.
- The toHaveClass test failure messages are proved for classes `a b` and arguments `a c` and `a` (`HaveClassOneMissing`, `NotHaveClassPresent`, `ClassReports`). The instance with the literal names class1, class2 and class3 is not stated separately: it only substitutes those names.
