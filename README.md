# jasmine-axe, modelled in Dafny

jasmine-axe is a small adapter between the axe-core accessibility engine
and Jasmine. `axe(html, options)` mounts an element or a markup string
into `document.body`, runs the engine with the configured options merged
with the per-call ones, and, once the engine calls back, restores the
body before the promise settles. Two matchers, `toHaveNoViolations` and
`toHaveLessThanXViolations`, turn an audit result into a pass/fail
verdict and a message built by `reporter`.

The model follows `index.ts`; the compiled `index.js` adds the `__rest`
helper and the default-parameter code, which are modelled from there.

| module (file) | what it models |
|---|---|
| `Text` (text.dfy) | `Array.prototype.join`, how an integral number prints in a template literal (with its parser as inverse), and one string occurring inside another |
| `JsValues` (jsvalues.dfy) | JavaScript values, truthiness, objects as ordered lists of own properties |
| `Markup` (markup.dfy) | `isHTMLString` (a scanner for `<[^>]+>`, proved equal to the regex's meaning) and `isHTMLElement` |
| `Mounting` (mounting.dfy) | the document body as a class with a `bodyHTML` field; `mount` and its `restore` closure as methods |
| `Options` (options.dfy) | `__rest` with its two loops, `configureAxe`, and the merge of runner and per-call options |
| `Results`, `Reporter` (results.dfy, reporter.dfy) | the violation records and `reporter` |
| `Matchers` (matchers.dfy) | the two `compare` functions |
| `Runner` (runner.dfy) | `axe`: mount, engine call, restore, settle |

Facts about the code that the model keeps:
- `impactLevels` (index.ts:53) is never read. It reaches the engine
  inside the runner options, and neither matcher looks at it.
- An engine error is thrown inside the engine's callback (`if (err) throw
  err`). No `reject` call is made, so the promise stays pending when the
  callback runs asynchronously.
- `restore()` runs only inside the engine's callback. An engine that
  throws without calling back rejects the promise with the mounted
  markup still in the body.

## Model

| member | source | states |
|---|---|---|
| `Markup.HasTag` | index.ts:16-18 | the pattern test is true exactly when the string has a `<`, one or more characters other than `>`, then a `>` |
| `Markup.IsHTMLString` | index.ts:16-18 | true exactly for a string value in which the pattern `<[^>]+>` matches |
| `Markup.IsHTMLElement` | index.ts:9-11 | true exactly for an object whose `tagName` is a string; every object is truthy, so `!!html` adds nothing |
| `Markup.ElementAndStringDisjoint` | index.js:42-50 | no value is both an element and a markup string |
| `Mounting.Mount` | index.ts:23-49 | the value returned (or thrown) and the new body markup are those of `MountTransition` on the old body |
| `Mounting.Restore` | index.ts:36-38 | a no-op restore keeps the body; a write-back restore puts the snapshot back |
| `Mounting.MountAttached` | index.ts:24-28 | an element already in the body is returned as is, the body is unchanged and its restore does nothing |
| `Mounting.MountDetached` | index.ts:29-31 | a detached element is mounted exactly as its `outerHTML` string would be |
| `Mounting.MountMarkup` | index.ts:33-41 | a string with a tag becomes the body markup; the root is the body and the restore writes the old markup back |
| `Mounting.MountThenRestore` | index.js:62-69 | after any successful mount, running its restore gives back the body markup from before the mount |
| `Mounting.MountFailureKeepsBody` | index.ts:44-48 | a mount that throws leaves the body unchanged |
| `Mounting.MountNoElements` | index.ts:44-46 | a string without a tag throws `html parameter ("<s>") has no elements` |
| `Mounting.MountNotHtml` | index.ts:48 | the generic error is thrown exactly for values that are neither an element nor a string |
| `Options.Rest` | index.js:21-31 | `__rest` builds, in two loops, the enumerable string-keyed copies not excluded, then the enumerable symbol-keyed copies |
| `Options.RestKeepsExactly` | index.js:21-24 | the object `__rest` returns holds under each key the own enumerable property of the source unless the key is excluded, and nothing else |
| `Options.ConfigureAxe` | index.js:80-85 | options default to `{}`; `globalOptions` defaults to `{}` when missing or undefined; the runner options are the options without `globalOptions` and never hold it |
| `Options.MergeOptions` | index.ts:73 | the engine options hold every key of either side, and the per-call value wins on a collision |
| `Options.GlobalOptionsNeverForwarded` | index.ts:61-73 | the engine options hold `globalOptions` only when the call's own options pass one |
| `Options.RunnerOptionsForwarded` | index.ts:61-73 | every other configured option reaches the engine unchanged unless the call overrides it |
| `Runner.Axe` | index.ts:71-82 | the outcome is a mount failure, a resolution, a throw in the callback, or a rejection when the engine throws first; whenever the engine calls back, the body holds its old markup when the call settles, and after an engine throw it keeps the mounted markup |
| `Runner.EngineSeesMarkup` | index.ts:72-79 | for a markup string the engine runs on the body holding exactly that string, with the merged options |
| `Runner.FalsyErrorResolves` | index.ts:76-79 | after any successful mount, a falsy `err` resolves the promise with the engine's results |
| `Reporter.Report` | index.ts:88-126 | the report is empty exactly when there are no violations |
| `Reporter.ReportCountReadable` | index.ts:96 | the report starts with the violation count in decimal, which reads back as that count |
| `Reporter.ReportBeginsWithSummary` | index.ts:96-98 | a non-empty report begins with "<n> violations found. \n\n Expect to have " + the threshold wording + " violations." and a blank line |
| `Reporter.ZeroThresholdSaysNo` | index.js:114 | a threshold of 0 gives the same report as none, and the report begins "<n> violations found. \n\n Expect to have no violations." |
| `Reporter.ThresholdStated` | index.ts:96 | a non-zero threshold K makes the report begin with "... Expect to have less than K violations.", and the printed K reads back as K |
| `Reporter.SectionAppend` | index.ts:98-125 | appending a violation appends its body after exactly one separator of blank line, eight box-drawing characters, blank line |
| `Reporter.BodyAppend` | index.ts:100-121 | appending a node appends its block after one blank line |
| `Reporter.TwoViolations` | index.ts:98-125 | two violations give summary, separator, first body, one separator, second body |
| `Reporter.ReportListsEveryNode` | index.ts:98-125 | every (violation, node) pair has its block in the report |
| `Reporter.NodeBlockParts` | index.ts:102-119 | a node block holds the locator, the help text and rule id, the failure summary, and the help-URL line when there is a URL |
| `Reporter.HelpLineOnlyWithUrl` | index.ts:116-118 | the help line is empty exactly when the help URL is empty, and it closes the block |
| `Reporter.ReportNamesEveryRule` | index.ts:106-119 | the report names the help text and id of every violation that has a node, and its help URL when present |
| `Matchers.ToHaveNoViolations` | index.ts:131-143 | throws "No violations found in aXe results object" exactly when `violations` is undefined; otherwise passes iff there are none, which is exactly when the message is empty |
| `Matchers.ToHaveLessThanXViolations` | index.ts:145-157 | same error case; otherwise passes iff the threshold is defined and the count is at most it; the message is the report with the threshold |
| `Matchers.ZeroThresholdIsNoViolations` | index.js:155-166 | with threshold 0 the bounded matcher gives the same result as `toHaveNoViolations` |
| `Matchers.ThresholdMonotone` | index.ts:154 | raising the threshold never turns a pass into a failure |
| `Matchers.FailureHasMessage` | index.ts:152-155 | a bounded failure with a non-negative threshold has a non-empty message |
| `Matchers.ThresholdExamples` | index.ts:154 | 3 violations pass a threshold of 5, fail a threshold of 2, and fail `toHaveNoViolations` |

## Left out

- The axe-core engine. `axeCore.run` is a function parameter from the root, the body markup and the options to the callback's `(err, results)`. `axeCore.configure` is recorded only as the `globalOptions` value kept in `AxeConfig`.
- Options.MergeOptions: the lodash deep merge is reduced to key override on the top-level enumerable string keys. Nested merging, array handling, skipping undefined source values and inherited properties are not modelled.
- Promises and callbacks. A call is modelled as one sequential run. The only ordering kept is that, when the engine calls back, restore runs before the call settles.
- Runner.Axe: an engine that calls back synchronously, inside the promise executor, would let `throw err` reject the promise after restore. The model assumes an asynchronous callback, where the throw escapes and the promise stays pending. An engine that throws before calling back is modelled (`EngineRejected`).
- Concurrent or overlapping `axe` calls. Each call is modelled alone.
- Real DOM behaviour. `document.body.contains` is the element's `attached` flag and `outerHTML` is a stored string. HTML parsing is not modelled, so an element that a body replacement detaches is not tracked.
- Numbers are integers. NaN, fractions, and the exponent notation JavaScript prints from 10^21 upward are not modelled.
- Objects carry only their own properties. The inherited properties that `for...in` visits and `hasOwnProperty` then rejects are not represented. `__rest`'s `s != null` and `getOwnPropertySymbols` availability guards are always true here.
- An absent `helpUrl` is represented by the empty string. Both are falsy, so the report is the same.
- A node's `target` is a flat list of selectors. Nested frame selectors are not modelled.
- Jasmine registration, the global type declarations and index.d.ts. These are type declarations and wiring only.
- The module-interop helpers of index.js. These are bundler boilerplate.
- The default instance `axe = configureAxe()` is `Options.ConfigureAxe(None)` and has no member of its own.
