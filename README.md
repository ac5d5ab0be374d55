# TypeScript playground: run pipeline and assistant sidebar

This project is a Dafny model of two parts of a browser TypeScript playground.

The first is the run pipeline of the playground component (`src/App.tsx`).
- `executeSimplePattern` answers three sample programs without running them.
- `executeCode` sends every other program down one of three paths:
  - a plain `console.log` program runs as it is;
  - a program with class syntax has its types stripped, then its access modifiers, and then its constructor rewritten: the parameters become bare names, and only a parameter still marked `readonly` becomes an assignment, because `public`, `private` and `protected` are already gone by then;
  - any other program has its types stripped by a fixed chain of regular-expression substitutions, and then is either answered by the greet harness or wrapped in an async function and run.
- For a wrapped program, a `checkCompletion` poll every 100 ms shows the captured logs or the stored error once the program completes, or after 3000 ms.
- `clearOutput` empties both panels.

The second is the assistant sidebar (`src/components/AICodeAssistant.tsx`):
- its width: the drag clamp, the window-resize bound, and the width reported to the page;
- `generateResponse` with its keyword fallback;
- `handleMessageSubmit`;
- `handleCodeAccept`, which takes the last fenced code block of a reply.

## Layout

| file | module | what it holds |
|---|---|---|
| `text.dfy` | `Text` | character classes, prefix and substring tests, `trim`, `toLowerCase`, `join` |
| `substitution.dfy` | `Substitution` | one matcher per regular expression of the pipeline; the left-to-right scan of a global `replace` |
| `stripping.dfy` | `Stripping` | the generic chain and the two halves of the class chain |
| `console.dfy` | `Console` | the `console.log` replacement: argument formatting and the log buffer |
| `fetch.dfy` | `Fetch` | the `fetch` replacement and its allow-list |
| `params.dfy` | `ParamList` | constructor parameter lists: cleaning and the `exec` loop that collects parameter properties |
| `ctor.dfy` | `Ctor` | the constructor rewrite of the class path |
| `classpath.dfy` | `ClassPath` | the class-path test and the whole class transformation |
| `patterns.dfy` | `Patterns` | the three sample programs and the greet harness |
| `runner.dfy` | `Runner` | `executeCode`, the polls and `clearOutput` as functions over the component's state |
| `playground.dfy` | `Playground` | the same state as an object whose methods update it in place |
| `sidebar.dfy` | `Sidebar` | the assistant sidebar |

How JavaScript runs is a parameter. An `Engine` maps a program text, the context it runs in, and the `fetch` it sees to one of two outcomes. The context is `Direct` for `new Function(code)()` on the plain and class paths (src/App.tsx:184, 307) and `Async` for the body of the wrapper's async function (src/App.tsx:425-446), where `await` is allowed and a `return` leaves the wrapper. The outcomes are a syntax error, or the `console.log` calls of its synchronous part, the exception that part throws, and how its asynchronous rest ends. A thrown value is told apart by what the `catch` blocks read of it: an `Error`, another object with a string `message`, any other value, or `null`/`undefined`, whose `message` cannot be read. Time advances in ticks of one poll interval (100 ms). The generation server is a parameter too (`ServerReply`).

## Model

| member | source | states |
|---|---|---|
| Substitution.MatchTriggered | src/App.tsx:322-342 | a substitution can only match where its trigger occurs: a colon, `<`, `type`, `interface`, `constructor`, a spaced `as`, or a modifier word |
| Substitution.ReplaceUntriggered | src/App.tsx:207-229 | a global `replace` whose pattern's trigger is absent returns the text unchanged |
| Substitution.ScanUntriggered | src/App.tsx:322-342 | the scan keeps every character of a text that lacks the rule's trigger |
| Substitution.ScanSkips | src/App.tsx:248-255 | where no match starts at any of the first `n` positions, a global scan copies those characters and resumes at `n` |
| Stripping.ChainUntriggered | src/App.tsx:279-283 | a chain leaves alone a text that lacks the trigger of each of its rules |
| Stripping.ChainAppend | src/App.tsx:207-283 | running two chains one after the other is running their concatenation |
| Stripping.GenericUntouched | src/App.tsx:322-342 | code with no colon, no `<`, no `type`, `interface` or `constructor` and no spaced `as` passes the generic chain unchanged |
| Stripping.StripGeneric | src/App.tsx:322-342 | the generic chain: the ten substitutions applied in source order; code none of them can fire on passes unchanged (`Stripping.GenericUntouched` names the triggers) |
| Stripping.ChainKeeps | src/App.tsx:207-283 | a chain that none of its rules can fire on returns its input |
| Console.ArrayBrackets | src/App.tsx:168-170 | an array argument is shown as its elements joined by `, ` between brackets |
| Console.SinglePrimitive | src/App.tsx:175-177 | a call with one primitive argument logs exactly that value's string |
| Console.MessageCons | src/App.tsx:166-178 | a call's line is its first argument, a space, then the line of the remaining arguments |
| Console.SplitLines | src/App.tsx:185 | when no logged line holds a newline, the output panel's text splits back into exactly the logged lines |
| Console.LogBuffer.Log | src/App.tsx:165-180 | every call, even one with no arguments, appends exactly one line: the message of its arguments |
| Fetch.FetcherFor | src/App.tsx:376 | the mock `fetch` is installed exactly when the stripped code contains both `fetch(` and `async` |
| Fetch.Request | src/App.tsx:380-393 | a mocked answer only happens under the mock and only for a URL without `joke-api`; a forwarded request keeps its URL |
| Fetch.JokeUrlIff | src/App.tsx:384 | the allow-list passes a URL exactly when it contains `joke-api`; the `official-joke-api` test adds nothing |
| Fetch.JokeRequestsUnchanged | src/App.tsx:384-387 | a joke-API request gets the same answer with or without the mock |
| Fetch.OtherRequestsMocked | src/App.tsx:389-392 | every other request gets the fixed mock message under the mock, and goes to the network without it |
| ParamList.AssignEachMatch | src/App.tsx:248-255 | the `exec` loop pushes one `this.x = x;` per match of the global pattern, in the order the scan finds them |
| ParamList.CollectAssignments | src/App.tsx:248-255 | with the parameter-property pattern, the loop yields the assignments of exactly the names the pattern captures |
| ParamList.CleanParamsRendered | src/App.tsx:240-242 | cleaning a rendered parameter list keeps every name in order and drops all modifiers and type annotations |
| ParamList.PropertyNamesRendered | src/App.tsx:248-255 | the loop captures exactly the names of the parameters that carry an access modifier, in order |
| ParamList.AccessListScan | src/App.tsx:240-255 | the modifier substitution strips exactly the modifiers, and its matches are the modified parameters |
| ParamList.ModifiedParamOne | src/App.tsx:241-255 | on a single parameter, the first substitution and the exec loop fire exactly when it carries an access modifier: the substitution then leaves only its name (modifier and type dropped), the loop captures that name; a parameter without modifier is left as it is and yields no property |
| Ctor.FindParams | src/App.tsx:232-237 | a match `exec` finds starts at or after the search position, is a match of the pattern where it starts, and its capture ends at a `)` |
| Ctor.EmptyIsBody | src/App.tsx:259-273 | wherever the empty-body pattern matches, the body pattern already does, so the `{}` fallback never applies |
| Ctor.SynthesizeProperties | src/App.tsx:232-275 | the rewrite, with its `exec` loop, computes the constructor rewrite function |
| Ctor.Synthesize | src/App.tsx:232-275 | defines the constructor rewrite; code without the word `constructor` is left as it is; `Ctor.SynthesizeRendered` states what it does to a constructor |
| Ctor.NoKeywordNoParams | src/App.tsx:232-237 | without the word `constructor` the parameter pattern finds no match |
| Ctor.SynthesizeRendered | src/App.tsx:232-275 | for the first constructor, when its body holds no `}`: the parameters are reduced to their names; with parameter properties, one assignment each is appended to the body, joined by newlines; otherwise the body is untouched |
| Ctor.NestedBodyCut | src/App.tsx:258-267 | as written, the lazy body pattern stops at the first `}`: in a constructor body that holds a block, the assignments are inserted before that block's closing brace, and the rest of the constructor body follows them |
| Ctor.SynthesizeBalanced | src/App.tsx:232-275 | the rewrite as evidently intended, with the assignments placed before the brace that closes the constructor body; code without the word `constructor` is left as it is; `Ctor.SynthesizeBalancedRendered` states what it does to a constructor |
| Ctor.SynthesizeBalancedRendered | src/App.tsx:232-275 | for the first constructor and any body whose braces balance: the parameters are reduced to their names; with parameter properties, one assignment each goes at the end of the whole body; otherwise the body is untouched |
| Ctor.NestedBodyKept | src/App.tsx:258-267 | with the intended rewrite, a constructor body holding a block gets its assignments after the rest of the body, outside the block |
| Ctor.FlatBodyAgrees | src/App.tsx:258-267 | on a constructor body without braces, the intended rewrite and the rewrite as written give the same text |
| Ctor.SynthesizeStep | src/App.tsx:232-245 | the parameter list is found and replaced by its cleaned form before any assignment is inserted |
| ClassPath.ClassCandidateIff | src/App.tsx:198-202 | class syntax is chosen for code with `class` and one of: a modified constructor parameter, `extends`, `static` or `private`; the `constructor` test adds nothing |
| ClassPath.ModifiedCtorMentions | src/App.tsx:198-202 | a match of the modified-constructor pattern implies the code contains `constructor` |
| ClassPath.ClassChainKeeps | src/App.tsx:207-283 | code that no rule of the class chain can fire on passes both its head and its tail unchanged |
| ClassPath.TransformClass | src/App.tsx:204-283 | the class path computed step by step, in the source's order (head of the chain, constructor rewrite, tail), is `ClassPath.TransformAsWritten` |
| ClassPath.TransformAsWritten | src/App.tsx:204-283 | defines the class transformation as the source orders it; code with no `constructor` that no rule of the chain can fire on passes unchanged; `ClassPath.TransformAsWrittenRendered` states what it does to a constructor |
| ClassPath.TransformAsWrittenRendered | src/App.tsx:204-283 | as written, on the domain it requires: untyped parameters with any access modifiers, a constructor body without `}`, no lowercase `p` anywhere outside the parameter list (so the member-modifier rule fires only on the parameters), none of the first seven rules of the chain (extends, the four annotation rules, `interface`, generics) firing on the input, and no rule of the tail firing on the result. There the class becomes the class with bare parameter names and one assignment per `readonly` parameter only, in order |
| ClassPath.MemberStrippedList | src/App.tsx:229 | the member-modifier substitution removes `public`, `private` and `protected` from every parameter of such a constructor and keeps `readonly` |
| ClassPath.ScanMemberList | src/App.tsx:229 | its global scan over a parameter list replaces each modified parameter by the parameter without its modifier, and copies the separators |
| ClassPath.KeptReadonly | src/App.tsx:229-255 | after that substitution, the parameters that still carry a modifier are exactly the `readonly` ones, in order |
| ClassPath.Transform | src/App.tsx:204-283 | defines the corrected order, the constructor rewrite before the chain; on code without `constructor` that no rule fires on it is the identity; `ClassPath.TransformRendered` states what it does to a constructor |
| ClassPath.TransformRendered | src/App.tsx:204-283 | with the rewrite done first (the corrected order), a class whose constructor declares parameter properties becomes the same class with bare parameters and one assignment per property |
| ClassPath.PublicParamAssigned | src/App.tsx:232-275 | in the corrected order, `constructor(public a) {}` becomes `constructor(a) {this.a = a;}` |
| ClassPath.PublicParamDropped | src/App.tsx:229 | as written, the member-modifier substitution removes `public` before the rewrite sees it, so no assignment is made |
| ClassPath.HeadIsMemberModifier | src/App.tsx:209-229 | when the first seven rules of the class head find nothing to act on, the head is the member-modifier substitution alone |
| ClassPath.PublicStripped | src/App.tsx:229 | the member-modifier substitution turns `public a` into `a` |
| Patterns.Recognize | src/App.tsx:97-145 | a recognised greet program greets `Alice` or a non-empty single-line captured name |
| Patterns.RecognizeOrder | src/App.tsx:97-145 | the greet test wins, then `tellJoke`, then the joke fetch; only code that fails all three is run |
| Patterns.ShortcutOutput | src/App.tsx:107-138 | the error panel is set exactly when the joke request fails |
| Patterns.GreetDeclared | src/App.tsx:104-107 | a greet program that declares `userName` before any other mention of it greets that name |
| Patterns.FindCapture | src/App.tsx:104 | a non-global `match` captures a non-empty single-line name |
| Patterns.HarnessName | src/App.tsx:399-413 | the harness greets `Alice` or a non-empty single-line captured name |
| Patterns.DirectCallFirst | src/App.tsx:399-409 | a literal `greet("X")` call outranks a `userName` declaration and gives `X` |
| Patterns.HarnessDefault | src/App.tsx:411-413 | with neither a `greet(` call nor a `userName`, the harness greets `Alice` |
| Patterns.GreetHarness | src/App.tsx:397 | defines the harness test, `const greet` and the greeting template both present; such code mentions `greet`; `Runner.HarnessGreets` states what a run then shows |
| Runner.Execute | src/App.tsx:147-489 | a run ends not executing, takes no time, and starts at most one poll, which begins at wait time 0 |
| Runner.PathOf | src/App.tsx:154-322 | a sample program short-cuts exactly when recognised; the plain path needs a trimmed text starting with `console.log(` and no colon; the class path needs `class` and a modified constructor parameter, `extends`, `static` or `private`; the rest is generic |
| Runner.Caught | src/App.tsx:186-188 | the direct paths (here and at src/App.tsx:311) show an `Error`'s message, the same text the wrapper shows, and `Unknown error` for anything else, even an object with a `message` |
| Runner.SlotText | src/App.tsx:436 | the stored error is non-empty only for a value with a string `message`, and is that message; any other value stores no message |
| Runner.MessageText | src/App.tsx:435 | the logged `error.message` is the stored message, or `undefined` for a value without one |
| Runner.WrappedCaught | src/App.tsx:425-440 | a throw the wrapper's `catch` can read logs `Error:` and the message, stores the message and sets the completion flag |
| Runner.NullishGivesUp | src/App.tsx:434-474 | a program that throws `null` or `undefined` makes the wrapper's `catch` throw in turn: the flag is never set, the poll still waits after 30 ticks, and then shows only the logs and no error |
| Runner.RunCode | src/App.tsx:160-446 | for code that is not a sample program, the path `Runner.PathOf` picks runs (plain log directly, the class path on `ClassPath.TransformAsWritten` of the code, otherwise the generic path); these paths leave the busy flag and the clock alone and start at most one poll |
| Runner.RunShortcut | src/App.tsx:154-157 | a sample program starts no poll and takes no time |
| Runner.RunDirect | src/App.tsx:182-193 | the direct paths start no poll and take no time |
| Runner.RunGeneric | src/App.tsx:322-446 | the generic path starts at most one poll, which begins at 0 |
| Runner.RunProgram | src/App.tsx:425-446 | the wrapped program starts at most one poll, which begins at 0 |
| Runner.Wrapped | src/App.tsx:425-474 | running a wrapped program's synchronous part starts exactly one poll, at 0 |
| Runner.Check | src/App.tsx:453-471 | a poll ends exactly when its run is complete or it has waited 3000 ms |
| Runner.Tick | src/App.tsx:453-474 | one tick advances the clock by one interval |
| Runner.CheckFromRaises | src/App.tsx:453-471 | each check ends a poll or makes it wait one interval more |
| Runner.TickRaises | src/App.tsx:453-474 | one tick raises the wait time of every pending poll by one interval |
| Runner.TicksRaise | src/App.tsx:453-474 | `n` ticks raise every wait time by `n` intervals |
| Runner.PollsDrain | src/App.tsx:449-474 | in a valid state, every poll has ended 31 ticks later |
| Runner.NoneBeyond | src/App.tsx:454-470 | no poll ever waits beyond 3000 ms |
| Runner.ExecuteValid | src/App.tsx:147-489 | Run keeps polls whole intervals, at most 3000 ms |
| Runner.TickValid | src/App.tsx:453-474 | a tick keeps polls whole intervals, at most 3000 ms |
| Runner.StartedValid | src/App.tsx:474 | a poll started at 0 joins valid ones |
| Runner.SettleNone | src/App.tsx:425-440 | when nothing is due, every pending program rest stays pending, in order |
| Runner.QuietTicks | src/App.tsx:453-471 | while its run has not completed, a lone poll only waits, and nothing else changes |
| Runner.ExecuteGeneric | src/App.tsx:147-489 | Run on code that takes the generic path is the generic path from the cleared, busy state |
| Runner.StartedWrapped | src/App.tsx:425-446 | Run on a wrapped program is its synchronous part from the cleared, busy state |
| Runner.StartedRun | src/App.tsx:425-474 | right after Run on a wrapped program that does not throw at once, one poll at 0 holds its logs and its rest is pending |
| Runner.WrappedNormal | src/App.tsx:425-446 | a synchronous part that ends normally starts its poll and schedules its rest |
| Runner.TicksSplit | src/App.tsx:453-474 | `n + m` ticks are `m` ticks after `n` |
| Runner.PollEnds | src/App.tsx:425-474 | the poll of a run whose rest completes after `d` ticks is still waiting at tick `d + 2` and shows at tick `d + 3` |
| Runner.LastCheck | src/App.tsx:454-466 | the check of a lone poll whose run is over moves a stored error to the error panel and clears it, or else shows the logs (or the no-output line); the completion flag is cleared either way |
| Runner.PollGivesUp | src/App.tsx:453-471 | the poll of a run that never completes is still waiting after 30 ticks and shows its logs at the 31st check |
| Runner.Completed | src/App.tsx:425-474 | a program that completes `d` ticks after its synchronous part shows its logs exactly `d + 3` ticks after Run, not earlier |
| Runner.GivenUp | src/App.tsx:449-474 | a program that never completes shows its logs at the 31st check, 3100 ms after the run, not earlier |
| Runner.SyncErrorShown | src/App.tsx:425-471 | a program that throws an `Error`, or any object with a non-empty string `message`, before its first `await` has that message shown at the first check, and its logs with the `Error:` line only when the output is live |
| Runner.ThrownPoll | src/App.tsx:454-466 | the first check after a synchronous throw moves the message to the error panel and clears both flags |
| Runner.StaleError | src/App.tsx:443-458 | an error message left behind by an earlier run is reported for the next run, because only the completion flag is reset |
| Runner.ShortcutShown | src/App.tsx:154-157 | a sample program shows its output without running anything and starts no poll |
| Runner.JokeFetchShown | src/App.tsx:119-141 | the joke fetch shows a loading line; once the request settles, the panels show the joke or the failure |
| Runner.PlainOutput | src/App.tsx:160-194 | a plain `console.log` program shows every line it logs, and starts no poll |
| Runner.DirectThrows | src/App.tsx:182-191 | on the direct paths, an exception empties the output and shows its message, or `Unknown error` |
| Runner.ClassConstructorRuns | src/App.tsx:197-318 | on the domain of `ClassPath.TransformAsWrittenRendered` (untyped parameters, body without `}`, no lowercase `p` outside the parameter list, none of the first seven chain rules firing, tail untouched), a class that takes the class path runs, directly and with the network `fetch`, as the class with bare parameters and one assignment per `readonly` parameter only |
| Runner.HarnessGreets | src/App.tsx:397-422 | the greet harness shows the greeting of the name it finds and runs nothing |
| Runner.SyntaxErrorShown | src/App.tsx:446-489 | wrapped code that does not compile shows the compiler's message and starts no poll |
| Runner.ClearedThenReported | src/App.tsx:492-495 | clearing the panels does not stop a poll, so a finished run's report still appears at the next check |
| Runner.Clear | src/App.tsx:492-495 | both panels are emptied and every other part of the state is kept |
| Runner.JokeArrives | src/App.tsx:128-138 | with a request outstanding, one settles: the joke replaces the output or the failure fills the error panel; with none outstanding nothing changes; runs and polls are untouched |
| Playground.Playground.constructor | src/App.tsx:31-33 | the object starts with empty panels, no polls, and nothing pending |
| Playground.Playground.ExecuteSimplePattern | src/App.tsx:97-145 | reports handled exactly for a recognised sample program and sets its output; otherwise changes nothing |
| Playground.Playground.Capture | src/App.tsx:349-372 | the buffer holds one line per call, and the output panel follows it only when live |
| Playground.Playground.RunDirect | src/App.tsx:182-193 | the fields change exactly as `Runner.RunDirect` says |
| Playground.Playground.RunWrapped | src/App.tsx:425-474 | the fields change exactly as `Runner.Wrapped` says |
| Playground.Playground.Execute | src/App.tsx:147-489 | the fields change exactly as `Runner.Execute` says |
| Playground.Playground.RunCode | src/App.tsx:160-446 | called once the sample check has failed, the source's chain of tests changes the fields exactly as `Runner.RunCode` says, the class path transforming the code as written |
| Playground.Playground.RunGeneric | src/App.tsx:322-446 | the fields change exactly as `Runner.RunGeneric` says |
| Playground.Playground.RunProgram | src/App.tsx:425-446 | the fields change exactly as `Runner.RunProgram` says |
| Playground.Playground.Tick | src/App.tsx:453-474 | the due program rests settle in order, then every poll fires: exactly `Runner.Tick` |
| Playground.Playground.CheckPolls | src/App.tsx:453-471 | every pending poll fires once, in the order it was started |
| Playground.Playground.ClearOutput | src/App.tsx:492-495 | both panels are emptied and nothing else changes |
| Playground.Playground.JokeArrives | src/App.tsx:128-138 | the joke request settles into the output or the error panel |
| Sidebar.MaxWidth | src/components/AICodeAssistant.tsx:47 | the bound is half the window, rounded down, and never more than 600 |
| Sidebar.Clamp | src/components/AICodeAssistant.tsx:44-48 | a dragged width is the distance from the right edge, raised to 250 and lowered to the bound; in a window under 500 px the bound wins |
| Sidebar.Resized | src/components/AICodeAssistant.tsx:82-89 | on resize, the width never grows, and is left alone exactly when it fits the new bound |
| Sidebar.ReportedWidth | src/components/AICodeAssistant.tsx:72-78 | the page is told the width while expanded, and 50 while collapsed |
| Sidebar.PressAsWritten | src/components/AICodeAssistant.tsx:32-37 | as written, a press sets the flag and keeps listeners only when a drag was already flagged |
| Sidebar.MoveAsWritten | src/components/AICodeAssistant.tsx:40-54 | as written, a move resizes only through a listener whose render saw the flag set |
| Sidebar.ReleaseAsWritten | src/components/AICodeAssistant.tsx:57-61 | as written, a release clears the flag only when its listener is still registered |
| Sidebar.FirstDragIgnored | src/components/AICodeAssistant.tsx:32-69 | as written, the first drag leaves the width alone and leaves the flag set |
| Sidebar.SecondDragFollows | src/components/AICodeAssistant.tsx:32-69 | as written, the drag after that one follows the pointer and ends at rest |
| Sidebar.Press | src/components/AICodeAssistant.tsx:32-37 | a press starts a drag and keeps the width |
| Sidebar.Move | src/components/AICodeAssistant.tsx:40-54 | a move during a drag sets the clamped width, and otherwise changes nothing |
| Sidebar.Release | src/components/AICodeAssistant.tsx:57-61 | a release ends the drag and keeps the width |
| Sidebar.EveryDragFollows | src/components/AICodeAssistant.tsx:32-61 | with the intended handlers, every drag follows the pointer and ends at rest |
| Sidebar.Reply | src/components/AICodeAssistant.tsx:96-136 | a non-empty server answer is the reply; an empty one gives the apology; a failed request gives the canned reply for the message |
| Sidebar.Classify | src/components/AICodeAssistant.tsx:123-135 | the topic's keywords occur in the lower-cased message, and no earlier rule's do |
| Sidebar.CannedReply | src/components/AICodeAssistant.tsx:125-135 | the canned text of each topic; a reply with an example program spells that program out |
| Sidebar.Example | src/components/AICodeAssistant.tsx:128-132 | an example reply contains its program, and when its prose has no backtick and no line of the program starts with one, accepting the reply hands over exactly that program |
| Sidebar.ExampleAccepted | src/components/AICodeAssistant.tsx:164-173 | accepting an example reply with such prose and program hands over the program |
| Sidebar.ExampleContains | src/components/AICodeAssistant.tsx:128-132 | an example reply contains its program verbatim |
| Sidebar.FirstRuleWins | src/components/AICodeAssistant.tsx:123-135 | a message gets a topic exactly when it mentions that topic's keywords and none of an earlier rule's |
| Sidebar.ClassifyIgnoresCase | src/components/AICodeAssistant.tsx:123 | the canned reply does not depend on letter case |
| Sidebar.HiGreets | src/components/AICodeAssistant.tsx:125 | any message with the letters `hi` anywhere, in any case, gets the greeting |
| Sidebar.WhichFunctionGreets | src/components/AICodeAssistant.tsx:125-127 | so `which function` gets the greeting rather than the function example |
| Sidebar.OpeningFence | src/components/AICodeAssistant.tsx:166 | the opening fence found is one of the three the pattern allows |
| Sidebar.ProseSkipped | src/components/AICodeAssistant.tsx:166-167 | text without backticks holds no block |
| Sidebar.ClosedAfter | src/components/AICodeAssistant.tsx:166 | the lazy capture stops at the first closing fence after the code |
| Sidebar.FenceTaken | src/components/AICodeAssistant.tsx:166-167 | a fenced block is captured whole, and the search resumes after it |
| Sidebar.BlocksOfRender | src/components/AICodeAssistant.tsx:166-167 | the blocks found in a well-formed reply are the code of its fenced segments, in order |
| Sidebar.Blocks | src/components/AICodeAssistant.tsx:166-167 | the code of every match of the global fence pattern, in order; a text with a block contains a closing fence (`Sidebar.BlocksOfRender` states what is found in a well-formed reply) |
| Sidebar.ProseOnly | src/components/AICodeAssistant.tsx:164-173 | accepting a reply without backticks hands nothing over |
| Sidebar.AcceptedOfRender | src/components/AICodeAssistant.tsx:164-174 | the code handed to the editor is the last fenced segment's, and nothing is handed over when there is none |
| Sidebar.AcceptedCode | src/components/AICodeAssistant.tsx:164-173 | code is handed over exactly when the reply has a block, and it is one of the reply's blocks, so the reply contains a closing fence |
| Sidebar.ExchangeKeeps | src/components/AICodeAssistant.tsx:139-153 | one exchange keeps the conversation's shape: the welcome, then non-blank user messages, each answered |
| Sidebar.Assistant.constructor | src/components/AICodeAssistant.tsx:16-24 | expanded, 300 wide, with the welcome message, and that width reported |
| Sidebar.Assistant.MouseDown | src/components/AICodeAssistant.tsx:32-37 | a drag starts and nothing else changes |
| Sidebar.Assistant.MouseMove | src/components/AICodeAssistant.tsx:40-54 | during a drag, the width becomes the clamped one and is reported |
| Sidebar.Assistant.MouseUp | src/components/AICodeAssistant.tsx:57-61 | the drag ends and nothing else changes |
| Sidebar.Assistant.Resize | src/components/AICodeAssistant.tsx:82-89 | a width over the new bound is lowered to it and reported; otherwise nothing changes |
| Sidebar.Assistant.Toggle | src/components/AICodeAssistant.tsx:237-241 | the sidebar expands or collapses, and the page is told the width it now shows |
| Sidebar.Assistant.Type | src/components/AICodeAssistant.tsx:436 | the input becomes the typed text |
| Sidebar.Assistant.Exchange | src/components/AICodeAssistant.tsx:145-153 | the input as the user's message, then the reply, join the conversation, the input is cleared, and the conversation keeps its shape |
| Sidebar.Assistant.Submit | src/components/AICodeAssistant.tsx:139-162 | a blank input changes nothing; otherwise the user message and the reply to it are appended, the input is cleared, and the conversation keeps its shape |

## Left out

- Evaluating JavaScript is not modelled. The `Engine` parameter returns the log calls, the exception and how the asynchronous rest ends.
- `JSON.stringify` of objects is not modelled. An object argument carries its JSON text as given.
- The network, the generation server and the joke API are parameters (`Fetcher`, `ServerReply`, `JokeReply`).
- Wall-clock time is not modelled. Time is counted in ticks of one poll interval.
- Regular expressions are modelled only for the patterns the pipeline uses, each by a hand-written matcher. `$` patterns inside captured text are not interpreted.
- `ToLower` folds only ASCII letters. `Trim` removes the whole ECMAScript set of white space and line terminators.
- The asynchronous rest of a wrapped program runs after `console.log` and `fetch` have been restored (src/App.tsx:478-484). Its lines therefore never reach the panel, and the engine decides which `fetch` its requests see.
- Within a tick, program rests that are due settle before the polls fire. The interleaving of timers registered in the same millisecond is not modelled further.
- The call to the original `console.log` (kept for the browser's developer tools) and `console.error` are not modelled.
- A thrown value is one of four cases (`Thrown`). Its class and its other properties are not modelled.
- Restoring the original `console.log` and `fetch` is not modelled as global state. The fetch a program sees is an argument of the engine.
- The class path's output is run by the engine, which gets the network `fetch`. Its own capturing `console.log` (src/App.tsx:286-318) is the same buffer as on the plain path.
- Runner.Execute: the joke fetch ends with `isExecuting` false immediately, as in the source. The request is counted in `jokeRequests` and settles later through `JokeArrives`.
- Fetch.Request: the mock is given a URL as a string. A `Request` object's `toString()` is `[object Request]`, which never contains `joke-api`, so the source always mocks it (src/App.tsx:381); the model has no such argument.
- ClassPath.TransformAsWrittenRendered: proved only on the domain its row names. Typed parameter properties (`readonly a: string`, whose type the annotation rule removes first), classes with other words starting with a lowercase `p` or with access modifiers on other members, and classes the extends, annotation, `interface` or generic rules rewrite elsewhere are defined by `ClassPath.TransformAsWritten` but not covered by a lemma. Covering them would need a scan lemma for each rule of the chain over arbitrary surrounding text.
- Runner.ClassConstructorRuns: proved only on the same domain as `ClassPath.TransformAsWrittenRendered`, for the same reason. Other classes on the class path run `ClassPath.TransformAsWritten` of their code (`Runner.ExecuteClass`).
- Ctor.SynthesizeBalanced: the brace-counting rewrite is proved about (`Ctor.SynthesizeBalancedRendered`, `Ctor.NestedBodyKept`) but nothing runs it. The class path runs `Ctor.Synthesize`, the rewrite as written, as the source does.
- ClassPath.Transform: the corrected order is proved about (`ClassPath.TransformRendered`, `ClassPath.PublicParamAssigned`) but nothing runs it. `executeCode` runs the class chain as written (`ClassPath.TransformAsWritten`), as the source does.
- Concurrent joke requests are only counted. The order in which they settle is the caller's.
- Sidebar.Assistant.Resize: the effect is registered again on every width change. Only its effect on the width and on the reported width is modelled.
- Sidebar.Assistant.Submit: the reply is appended in the same step as the user message. The `await` between them, the loading flag and interleaved submissions are not modelled.
- Sidebar.Assistant.Submit: the outer `catch` of `handleMessageSubmit` is not modelled, because `generateResponse` catches every failure itself.
- Sidebar.Assistant.MouseDown, MouseMove and MouseUp use the intended drag handlers. The handlers as written are `Sidebar.PressAsWritten`, `Sidebar.MoveAsWritten` and `Sidebar.ReleaseAsWritten` (see Findings).
- Handing the accepted code to the editor, the clipboard, scrolling, styling and themes are not modelled.
- The server files, `src/main.tsx` and the editor's own drag-resize are not part of this model.
- Sidebar.CannedReply: the canned replies are the source's exact strings. That accepting one hands over its example program is proved for any example reply whose prose has no backtick and whose program has no line starting with one (`Sidebar.Example`), not checked character by character on the three literal replies.

## Findings

| source | as written | input that shows it | evidently intended | confidence | as-written member | corrected member |
|---|---|---|---|---|---|---|
| src/App.tsx:229 | the member-modifier substitution of the class chain strips `public`, `private` and `protected` from constructor parameters before the parameter-property rewrite (src/App.tsx:232-275) looks for them, so only `readonly` parameters become assignments | `class A{constructor(public a) {}}` becomes `class A{constructor(a) {}}` | `class A{constructor(a) {this.a = a;}}` | high, not executed | ClassPath.PublicParamDropped | ClassPath.PublicParamAssigned |
| src/App.tsx:259 | the body pattern `constructor\s*\([\s\S]*?\)\s*{([\s\S]*?)}` captures up to the first `}`, so the assignments are appended inside the first nested block of the constructor body | `class A{constructor(readonly a) { if (x) { f(); } g(); }}` becomes `class A{constructor(a) { if (x) { f(); this.a = a;} g(); }}` | `class A{constructor(a) { if (x) { f(); } g(); this.a = a;}}` | high, not executed | Ctor.NestedBodyCut | Ctor.NestedBodyKept |
| src/components/AICodeAssistant.tsx:32-69 | `handleMouseDown` registers the handlers of the render in which `isDragging` is still false. The re-render that sets the flag runs the effect cleanup keyed on `isDragging`, which removes exactly those handlers. The first drag therefore does not resize and leaves `isDragging` set. The next drag resizes. Drags alternate. | with `innerWidth` 1000 and width 300: press on the handle, move to `clientX` 600, release | the width becomes 400 and the drag ends | medium (depends on React running the effect cleanup on the re-render), not executed | Sidebar.FirstDragIgnored | Sidebar.EveryDragFollows |
