# MDOK verification model

MDOK turns Markdown documents into executed HTTP workflows. This project models
the algorithms of its Rust command line tool and its Go port whose correctness
is not obvious from reading them, and proves for all inputs, all server
behaviours, all schedules and all runs what the program relies on.

| module | what it models |
|---|---|
| `Text`, `Json`, `Encoding` | text and UTF-8 bytes, JSON values and their printer, percent-, form- and base64 encoding |
| `Glob`, `Discovery` | the memoised glob matcher, ignore rules, the pruning directory walk |
| `Template`, `Render` | the `{{path\|filter}}` language: parsing, printing, lookup, filters under a byte budget |
| `Quoting`, `Spelling`, `Command`, `Shell` | the ways to spell a word, the Rust and Go tokenizers |
| `Normalize`, `Transient` | rendering tokens into an argv, and the way from an argv through a generated command line back to an argv |
| `CommandPolicy`, `DirectCall` | the planner's checks on commands, and which direct commands are executed |
| `Scheduler` | the worker pool that processes documents in parallel |
| `Transfer` | one curl execution: redirects inside retries, response bodies as owned resources |
| `Captures`, `Workflow`, `RustProgram` | the Rust run: steps, checks, all-or-nothing captures, the verdict, and direct commands run through it |
| `Planner`, `Runtime`, `GoProgram` | the Go planner, preflight, run loop and exit code |
| `QueryString` | the JavaScript `querystring` shim |
| `Calendar` | the timestamp of a record |

Code that changes state step by step is modelled by methods and classes whose
contracts equate the new state with a function of the old one; the properties
are lemmas about these functions. Strings are sequences of Unicode scalar
values; wherever the program counts or escapes bytes, the model goes through
UTF-8. The server, the clock, the expression language, the policy and the TOML
reader are arbitrary functions, so every statement holds for all of them. Loops
that do not look inside their parts (the template scanner, the rendering of an
argv, the loop over the steps) are proved for every such part and used with the
real one.

Some results are about code that does not do what one might expect:

- A direct curl call with two or more arguments is refused, because the planner
  counts every generated template as a URL; the call that
  docs/AGENT_INVOCATIONS.md gives as its example is one of them
  (`DirectCall.CurlArgumentsRefused`, `DirectCall.DocumentedCallRefused`). A
  variable of the configuration that is named like an argument takes its place.
  Exactly which argv are executed as given is `DirectCall.ExecutedExact`.
- A directory walk that prunes loses a document when a rule is both negated and
  directory-only (`Discovery.NegatedDirectoryRuleLosesDocument`); the exact
  conditions are `Discovery.PruningExact` for one tree and
  `Discovery.PruningOnEveryTree` for all.
- An invalid redirect location is raised with the redirect code E603 and
  reported with another one (`Transfer.InvalidLocationReported`); which
  executions do report E603 is `Transfer.RedirectErrorExact`.
- After a capture, a template can fail at run time although preflight accepted
  it (`GoProgram.ExampleDocument`); exactly the items after a capture with an
  expression in them can (`GoProgram.TemplateSafetyExact`).
- A check of a step that is nowhere defined would be skipped silently, which
  only the planner prevents (`Runtime.SkippedCheckPasses`).

## Model

| member | source | states |
|---|---|---|
| `Glob.GlobMatch` | crates/mdok-cli/src/main.rs:5252-5313 | for every pattern and value the memoised search answers true exactly when the token sequence of the pattern matches in the declarative semantics (literal, `?`, `*` within a segment, `**`, `**/`, character classes that never match `/`) |
| `Glob.ClassMatch` | crates/mdok-cli/src/main.rs:5319-5348 | a class is found exactly when it is well formed and the byte exists and is not `/`; its end and its answer are those of the declared ranges, negation included |
| `Glob.Search` | crates/mdok-cli/src/main.rs:5253-5311 | the recursion ends, answers for its two indices, and leaves every filled slot of the table right |
| `Glob.SlotInBounds` | crates/mdok-cli/src/main.rs:5260-5263 | every pair of indices has a slot inside the table |
| `Glob.SlotsApart` | crates/mdok-cli/src/main.rs:5260-5263 | no two pairs of indices share a slot |
| `Discovery.GitignoreRuleMatches` | crates/mdok-cli/src/main.rs:5239-5250 | a rule matches as declared: whole path with a slash in the pattern, some component without one, directories only where asked |
| `Discovery.IgnoredPathState` | crates/mdok-cli/src/main.rs:5169-5202 | the fold over all ignore files above a path decides by the last rule that matches |
| `Discovery.IgnoredByGitignore` | crates/mdok-cli/src/main.rs:5148-5167 | a path is ignored when an ancestor directory is, or itself |
| `Discovery.MovedRules` | crates/mdok-cli/src/main.rs:5169-5202 | ignore files that are moved below another directory, with everything they speak of, decide in the same way |
| `Discovery.Discover` | crates/mdok-cli/src/main.rs:5068-5139 | the recursive walk returns the documents of the pruned walk, in order |
| `Discovery.PrunedWalkFilters` | crates/mdok-cli/src/main.rs:5068-5139 | the pruned walk equals an unpruned walk followed by a filter per document |
| `Discovery.PruningExact` | crates/mdok-cli/src/main.rs:5068-5202 | pruning and per-file filtering agree if and only if no document that passes its own test lies below a pruned directory |
| `Discovery.PruningIsFiltering` | crates/mdok-cli/src/main.rs:5068-5202 | without a rule that is both negated and directory-only they agree on every tree |
| `Discovery.PruningOnEveryTree` | crates/mdok-cli/src/main.rs:5068-5202 | for given ignore files they agree on every tree if and only if the rules lose no document path |
| `Discovery.NegatedDirectoryRuleLosesDocument` | crates/mdok-cli/src/main.rs:5068-5202 | with the rules `a/b` and `!a/b/`, the walk of the tree that has only `a/b/c.md` finds nothing, although the document passes its own test |
| `Scheduler.EverySchedule` | crates/mdok-cli/src/main.rs:2563-2599 | every interleaving of at least one worker takes at most 3n + jobs steps, never gets stuck before that, and then each document was processed exactly once and the flattened output is the sequential map |
| `Scheduler.RunInvariant` | crates/mdok-cli/src/main.rs:2563-2599 | along every schedule the pool invariant holds and each step uses up exactly one of the steps left |
| `Scheduler.FinishedPool` | crates/mdok-cli/src/main.rs:2563-2599 | a pool that has stopped has every result in place, each index once |
| `Scheduler.NoWorkers` | crates/mdok-cli/src/main.rs:2563-2599 | with no worker nothing is processed |
| `Scheduler.WorkPool.Step` | crates/mdok-cli/src/main.rs:2563-2599 | one locked action of one worker changes the shared stack, result array and worker as the step relation says |
| `Scheduler.ProcessDocumentsParallel` | crates/mdok-cli/src/main.rs:687-748 | run under any choice of workers, the pool returns the sequential result |
| `Calendar.CivilFromDaysCorrect` | crates/mdok-cli/src/main.rs:2308-2333 | for every non-negative day the closed form gives a valid Gregorian date whose simple day count is that day |
| `Calendar.ConsecutiveDays` | crates/mdok-cli/src/main.rs:2308-2333 | the next day gives the next calendar date |
| `Calendar.FirstDay` | crates/mdok-cli/src/main.rs:2308-2333 | day zero is 1 January 1970 |
| `Calendar.TimestampCorrect` | crates/mdok-cli/src/main.rs:2308-2333 | date and time of day are in range and together are exactly the elapsed seconds |
| `Json.WriteValue` | go/template/template.go:427-479 | the printer appends the canonical text, keys sorted |
| `Json.WriteString` | go/template/template.go:481-510 | a string is appended in quotes with its escapes |
| `Json.EscapeLength` | go/template/template.go:481-510 | one character for most, two for the seven short escapes, six for the other control characters |
| `Json.SortedKeysAscending` | go/template/template.go:458-475 | object keys come out in ascending order, each once |
| `Json.EncodeRoundTrip` | go/template/template.go:427-510 | a reader of compact JSON, with the escapes of section 7 of RFC 8259, recovers every nested value from its printed text |
| `Json.EncodeInjective` | go/template/template.go:427-510 | different values have different texts |
| `Template.ParseTemplate` | go/template/template.go:91-141 | the cursor loop computes the parts of the source, or the first error |
| `Template.FormatExpression` | crates/mdok-cli/src/main.rs:4716-4734 | the printer writes the canonical text of an expression |
| `Template.ParsePrintedExpression` | go/template/template.go:146-221 | parsing a printed well-formed expression gives it back: default filter, dotted keys, indices, up to 32 segments |
| `Template.AcceptedExpression` | go/template/template.go:146-221 | every accepted expression is well formed, and its canonical text is no longer than what was read |
| `Template.FilterExact` | go/template/template.go:146-221 | an accepted expression has at most one filter, one of the six, written by its name; without one it is the default |
| `Template.AcceptedClean` | go/template/template.go:91-141 | the literals of an accepted source never hold a doubled brace, and there are at most 4096 parts from at most 1 MiB |
| `Template.AcceptedParts` | go/template/template.go:91-221 | every expression of every accepted source is well formed |
| `Template.ParsePrinted` | go/template/template.go:91-141 | a printed expression as a whole template is that one expression |
| `Template.Reparse` | go/template/template.go:91-221 | for every accepted source, printing its parts and parsing again gives the same parts |
| `Render.LookupPath` | go/template/template.go:234-261 | the loop walks the value along the path, or names the first missing part |
| `Render.PutGet` | go/template/template.go:234-261 | with a leaf put at the end of a path that exists, looking the path up gives the leaf |
| `Render.PutElsewhere` | go/template/template.go:234-261 | and every path that parts from it gives what it gave before, value or error |
| `Render.IndexCounts` | go/template/template.go:244-252 | index 0 is the first item, and index i + 1 is index i of the rest |
| `Render.WalkMissing` | go/template/template.go:234-261 | the reported missing part is the first that does not exist |
| `Render.ScalarReads` | go/template/template.go:329-352 | exactly the scalars have a text; a string is its own, and every other text reads as its scalar |
| `Render.ByteItemsExact` | go/template/template.go:384-425 | an array gives bytes exactly when each item is one, in order |
| `Render.FilterReads` | go/template/template.go:265-325 | what a filter writes reads back: JSON as the value, base64 as the bytes, percent-encoding as the text, the others as the text, and a header has no line break |
| `Render.ExpandTemplate` | go/template/template.go:64-86 | expansion renders part by part and never exceeds the rendered-byte limit |
| `Render.ApplyWithinBudget` | go/template/template.go:265-325 | each of the six filters stays within the bytes that are left |
| `Render.ExpandWithinLimit` | go/template/template.go:64-86 | for every source and all variables a successful expansion is at most 8 MiB |
| `Render.ApplyMeaning` | go/template/template.go:265-325 | a filter writes what it would write without a budget, and fails for the budget exactly when the bytes it asks for do not fit |
| `Render.ExpandMeaning` | go/template/template.go:64-86 | a successful expansion is the concatenation of what its parts mean |
| `Encoding.NeedsPercentEncodingExact` | go/template/template.go:532-542 | the escaped bytes are exactly those that section 2.3 of RFC 3986 does not call unreserved |
| `Encoding.PercentEncodeBytes` | go/template/template.go:517-530 | the loop writes one unreserved byte or one escape per byte |
| `Encoding.PercentEncodeCorrect` | go/template/template.go:517-542 | the output has only unreserved bytes and `%XX`, and decodes to the input |
| `Encoding.PercentEncodeLength` | go/template/template.go:517-542 | the output is at most three times as long |
| `Encoding.Base64RoundTrip` | go/template/template.go:277-285 | a decoder for section 4 of RFC 4648 recovers every byte string from its base64 text |
| `Encoding.Base64Length` | go/template/template.go:282-285 | base64 takes exactly four bytes for each started group of three |
| `Encoding.FormEncodeBytes` | go/httpx/httpx.go:175-189 | the loop writes the form encoding |
| `Encoding.FormEncodeCorrect` | go/httpx/httpx.go:175-189 | form encoding decodes to its input and never contains a separator |
| `Encoding.FormEncodeBytewise` | go/httpx/httpx.go:175-189 | byte by byte, letters and digits stay, a space is a plus sign, every other byte is an escape |
| `Encoding.ReadUrlencodeEntry` | go/httpx/httpx.go:167-173 | an entry decodes to its name and content, or to content without a name |
| `Encoding.BuildRequestTarget` | go/httpx/httpx.go:129-163 | data goes to the query with `--get` and to the body otherwise |
| `Encoding.TargetPieces` | go/httpx/httpx.go:129-163 | the pieces of query or body are those of the URL, then the raw data, then the encoded entries, in order |
| `Encoding.UrlencodeRoundTrip` | go/httpx/httpx.go:129-189 | for every non-empty list of entries, cutting the body at `&` and decoding returns all names and contents in order |
| `Quoting.AppendQuotedArgument` | crates/mdok-cli/src/transient.rs:254-263 | the word is appended in double quotes with the four special characters escaped |
| `Command.TokenizeCommand` | crates/mdok-cli/src/main.rs:4818-4907 | the character loop computes the tokens, or the first error, as the following rows pin them down |
| `Command.TokenizeSpelled` | crates/mdok-cli/src/main.rs:4818-4907 | a line of words, each made of double-quoted, single-quoted, backslashed, bare and template pieces in any order, reads as what the pieces say; in single quotes everything is literal |
| `Command.Ignored` | crates/mdok-cli/src/main.rs:4870-4886 | a backslash before a line break joins lines, and further spaces do not matter |
| `Command.UnclosedRefused` | crates/mdok-cli/src/main.rs:4900-4902 | after any such line, a quote that is not closed is refused |
| `Command.OperatorRefused` | crates/mdok-cli/src/main.rs:4887-4893 | an operator outside quotes is refused, unless it opens a template |
| `Command.NewlineRefused` | crates/mdok-cli/src/main.rs:4878-4880 | a line break outside quotes is refused |
| `Command.ExpansionRefused` | crates/mdok-cli/src/main.rs:4859-4861 | an expansion in double quotes is refused |
| `Command.TokenizeQuotedLine` | crates/mdok-cli/src/main.rs:4818-4907 | for every list of words, the tokenizer undoes double-quote printing |
| `Command.TokenizeTemplates` | crates/mdok-cli/src/main.rs:4818-4907 | a quoted program and template words read back as exactly these tokens |
| `Shell.Tokenize` | go/shell/shell.go:68-232 | the three-state loop computes the words, or the first error |
| `Shell.ParseSpelled` | go/shell/shell.go:68-232 | a curl command of at most 64 words, each made of quoted, backslashed, bare and template pieces, reads as what the pieces say |
| `Shell.CommentIgnored` | go/shell/shell.go:135-146 | a comment after the last word is left out |
| `Shell.Ignored` | go/shell/shell.go:123-164 | joined lines and further spaces do not matter |
| `Shell.AcceptedCommand` | go/shell/shell.go:68-232 | whatever is accepted is one curl command of 1 to 64 words within the source limit |
| `Shell.UnclosedRefused` | go/shell/shell.go:174-214 | a single quote that is not closed is refused |
| `Shell.OperatorRefused` | go/shell/shell.go:165-166 | a forbidden character outside quotes is refused, unless it opens a template |
| `Shell.ParseQuotedLine` | go/shell/shell.go:68-232 | the Go tokenizer undoes double-quote printing for up to 64 words from `curl` on, without `{{`, within the source limit |
| `Transient.ValidateArgv` | crates/mdok-cli/src/transient.rs:200-252 | the loop reports the first problem of an argv in the order of the checks |
| `Transient.AcceptedExact` | crates/mdok-cli/src/transient.rs:200-252 | an argv is accepted if and only if it has 1 to 64 arguments, its program is `curl` or not empty, and all limits and forbidden characters are respected |
| `Transient.CheckedArguments` | crates/mdok-cli/src/transient.rs:221-250 | an accepted argv is within 1 MiB in all and each argument within 64 KiB, without carriage returns |
| `Transient.WriteCommandLine` | crates/mdok-cli/src/transient.rs:158-168 | the generated line is the quoted program and one template per argument |
| `Normalize.RenderParsedTemplate` | crates/mdok-cli/src/main.rs:4440-4514 | the loop writes every part, with its markers for what is missing, invalid or secret, collects the diagnostics and stops at the limit |
| `Normalize.RenderCommand` | crates/mdok-cli/src/main.rs:4244-4308 | the loop renders on after a diagnostic and gives up only at a limit |
| `Normalize.TokenExpands` | crates/mdok-cli/src/main.rs:4387-4514 | for execution a template renders without a diagnostic if and only if it expands, and then to the expanded text |
| `Normalize.FaithfulNormalizes` | crates/mdok-cli/src/main.rs:4244-4308 | tokens that each render as their argument, within the limits, give exactly that argv |
| `Normalize.CleanIsFaithful` | crates/mdok-cli/src/main.rs:4244-4308 | without a diagnostic every token was rendered as its argument |
| `Normalize.NormalizedWithin` | crates/mdok-cli/src/main.rs:4244-4308 | a command that renders without a diagnostic has at most 256 arguments and 8 MiB |
| `Normalize.DisplayReparses` | crates/mdok-cli/src/main.rs:4440-4514 | what is displayed of a template whose variables are unknown parses to the same template |
| `Normalize.SecretFieldExact` | crates/mdok-cli/src/main.rs:4587-4595 | a value holds a secret field if and only if some path leads to an object with one |
| `Normalize.PathSecretExact` | crates/mdok-cli/src/main.rs:4548-4585 | a path touches a secret if and only if a key on it has a secret name or the value at its end holds one |
| `Normalize.SecretWordFound` | crates/mdok-cli/src/main.rs:4540-4546 | a secret word is found anywhere in a name, in any case and with separators inside |
| `Normalize.NotSecretName` | crates/mdok-cli/src/main.rs:4540-4546 | a name without the letters p, s and t is not a secret name |
| `Transient.TokenizeCommandLine` | crates/mdok-cli/src/main.rs:4818-4907 | the generated line reads back as the program and the templates |
| `Transient.RenderPlaceholder` | crates/mdok-cli/src/main.rs:4440-4514 | a template renders as the text of its variable, whatever that text is: it is not parsed again |
| `Transient.RoundTrip` | crates/mdok-cli/src/transient.rs:136-178 | for every accepted argv whose program name opens no template, tokenizing and rendering the generated line returns exactly that argv, and no render limit fires |
| `Transient.RoundTripExact` | crates/mdok-cli/src/main.rs:4244-4308 | a program name comes back with all accepted arguments if and only if it opens no template |
| `CommandPolicy.PositionalArgs` | crates/mdok-cli/src/main.rs:4310-4384 | the loop returns the tokens that are counted as URLs |
| `CommandPolicy.PositionalExact` | crates/mdok-cli/src/main.rs:4310-4384 | of a command written as flags, options with values and URLs, exactly the URLs are counted, in order |
| `CommandPolicy.ValidateCommand` | crates/mdok-cli/src/main.rs:4048-4142 | the loop reports every denied option, and more than one URL |
| `CommandPolicy.CommandExact` | crates/mdok-cli/src/main.rs:4048-4142 | a command passes if and only if every token after the program is allowed and at most one counts as a URL |
| `CommandPolicy.BracedDenials` | crates/mdok-cli/src/main.rs:4130-4140 | with nothing but templates after the program, the only denial is that there is more than one |
| `CommandPolicy.ShellsAreFound` | crates/mdok-cli/src/main.rs:4217-4236 | a shell is found in every directory |
| `DirectCall.ExecutedExact` | crates/mdok-cli/src/main.rs:3698-3902 | for every configuration an accepted argv is planned and executed as itself if and only if it is permitted: curl with at most one argument that passes the URL checks, or a literal trusted program that is no shell, and no variable of the configuration in the place of an argument |
| `DirectCall.CurlArgumentsRefused` | crates/mdok-cli/src/main.rs:3738-3743 | a direct curl call with two or more arguments is never executed |
| `DirectCall.DocumentedCallRefused` | crates/mdok-cli/src/main.rs:4130-4140 | the documented call `curl --fail https://api.example.com/health` is accepted by the printer and refused by the planner |
| `Transfer.RedirectErrorExact` | go/httpx/httpx.go:68-123 | an execution reports the redirect code if and only if its last exchange is a redirect to be followed with no hop left, no attempt follows, and it was not cancelled |
| `Transfer.InvalidLocationReported` | go/httpx/httpx.go:279-284 | an execution that meets an invalid location reports a failed transfer, or a TLS error, and not the redirect code it was raised with |
| `Transfer.EndsRightly` | go/httpx/httpx.go:97-123 | an error is returned only when the final response cannot be read, the last attempt failed and no other is allowed, or the context ended in the delay, with the code that the last request calls for; a retry is made only after an attempt that allows it |
| `Transfer.Client.DoOnce` | go/httpx/httpx.go:258-301 | the redirect loop produces the specified outcome and trace of requests and closes |
| `Transfer.Client.FinishTransfer` | go/httpx/httpx.go:364-404 | the response is closed once, whether or not reading it succeeds |
| `Transfer.Client.Attempts` | go/httpx/httpx.go:97-123 | the retry loop produces the specified verdict and trace |
| `Transfer.Execute` | go/httpx/httpx.go:68-123 | against any server: all responses closed once, the request bound, the lawfulness of every request, the finality of the result, the reason of every error and of every retry; nothing is sent when preparing fails |
| `Transfer.ResponsesClosed` | go/httpx/httpx.go:68-123 | when an execution returns, every response obtained was closed exactly once, after it was obtained, and nothing else was closed |
| `Transfer.RequestsBounded` | go/httpx/httpx.go:68-123 | at most (Retry+1)*(MaxRedirs+1) requests are sent |
| `Transfer.RequestsLawful` | go/httpx/httpx.go:258-301 | attempts are numbered 1 to Retry+1; at every hop method and body are the original ones, or GET without a body once a 303, or a 301 or 302 on an original POST, came before in the attempt; each hop goes where the redirect before it points |
| `Transfer.RetryRestarts` | go/httpx/httpx.go:97-123 | every attempt begins with the original request |
| `Transfer.TransferFinal` | go/httpx/httpx.go:97-123 | a returned transfer is the last response, is not retryable or used the last attempt, counts its hops, and everything before it was a followed redirect, a failure or retryable |
| `Captures.DepthExact` | crates/mdok-cli/src/main.rs:4658-4683 | the limited walk rejects exactly the values with a chain of more than 32 nested values |
| `Captures.LimitedWithin` | crates/mdok-cli/src/main.rs:4662-4683 | a walk with enough levels left decides every depth it can reach |
| `Captures.ObjectSize` | crates/mdok-cli/src/main.rs:3240-3246 | the members of an object together are no larger than its serialized text |
| `Captures.Variables.PublishCaptures` | crates/mdok-cli/src/main.rs:3229-3378 | the loop gathers, and extends the variables only when it reported nothing |
| `Captures.PublishExact` | crates/mdok-cli/src/main.rs:3229-3378 | a step publishes if and only if every capture gives an object within all limits with valid new names; then all objects are merged, otherwise nothing changes |
| `Captures.PublishKeeps` | crates/mdok-cli/src/main.rs:3340-3377 | no variable is rebound, and after a clean step every captured member has its own value |
| `Captures.PublishSize` | crates/mdok-cli/src/main.rs:3324-3339 | after a step that publishes, all variables together serialize to at most 8 MiB |
| `Workflow.EvaluateChecks` | crates/mdok-cli/src/main.rs:2898-2939 | the check loop, with and without stopping at the first failure |
| `Workflow.CheckExact` | crates/mdok-cli/src/main.rs:2898-2939 | the checks pass if and only if each of them evaluates to true; none is skipped |
| `Workflow.ReportExact` | crates/mdok-cli/src/main.rs:2771-2976 | a report has the name of its step and the results of exactly the checks that are evaluated: all, or with fail-fast all up to the first that is not true |
| `Workflow.PerformedExact` | crates/mdok-cli/src/main.rs:2785-2860 | a step is performed if and only if no secret would enter a command and the command renders, with what was rendered |
| `Workflow.RunStepExact` | crates/mdok-cli/src/main.rs:2771-2976 | a step passes if and only if it renders, is performed, does not fail, every check is true and every capture acceptable; otherwise it changes no variable |
| `Workflow.RunKeeps` | crates/mdok-cli/src/main.rs:2718-3013 | over the whole run no variable is ever rebound |
| `Workflow.RunBounded` | crates/mdok-cli/src/main.rs:2718-3013 | at every point of a run the variables are the initial ones or within 8 MiB |
| `Workflow.VerdictExact` | crates/mdok-cli/src/main.rs:2998-3012 | a document passes if and only if every one of its steps is done, stopping early or not |
| `Workflow.RunReports` | crates/mdok-cli/src/main.rs:2771-2997 | report i is the one of step i; without fail-fast there is one for every step, with it a failure is the last one and the only reason to stop |
| `Workflow.PassedMeans` | crates/mdok-cli/src/main.rs:2718-3013 | in a passing document every step was performed, every check is true in its context, and every captured member still has its value at the end |
| `Workflow.ExecutePlan` | crates/mdok-cli/src/main.rs:2718-3013 | the loop over the steps computes this run and stops exactly as fail-fast asks; offline, nothing is performed and the document is an error |
| `RustProgram.ExecutedPerformed` | crates/mdok-cli/src/main.rs:2788-2845 | what is executed of a direct command is what the run performs, with exactly its own argv |
| `RustProgram.DirectVerdict` | crates/mdok-cli/src/main.rs:2718-3013 | the run of a permitted direct command passes if and only if the command is performed and does not fail |
| `RustProgram.DirectRefused` | crates/mdok-cli/src/main.rs:2610-2652 | a direct curl call with two or more arguments does not run at all |
| `Planner.DocumentPlanner.ClassifyFence` | go/markdown/markdown.go:200-236 | a fence changes the planner as specified or is refused with its code |
| `Planner.DocumentPlanner.Request` | go/markdown/markdown.go:253-268 | a request defines a new step |
| `Planner.DocumentPlanner.CheckFence` | go/markdown/markdown.go:270-291 | a check is charged to the budget of a defined step |
| `Planner.DocumentPlanner.CaptureFence` | go/markdown/markdown.go:293-318 | a capture is charged to the budget of a defined step |
| `Planner.BodyLinesExact` | go/markdown/markdown.go:279-284 | the lines of a body are all that are not blank, without the white space at both ends, in order |
| `Planner.PlanItems` | go/markdown/markdown.go:200-318 | every marked fence that is not a variables block becomes its own item, in order and with its own text, and there are no other items |
| `Planner.PlanVars` | go/markdown/markdown.go:238-251 | the variables of a plan are exactly those that its blocks define |
| `Planner.ClassifyKeeps` | go/markdown/markdown.go:200-318 | every accepted fence keeps step names unique, references backward, and the table equal to what the items contain, within the limits |
| `Planner.DocumentPlanner.AddFence` | go/markdown/markdown.go:106-127 | the limits on fences, bodies and executable blocks, then the marked fences |
| `Planner.PlanDocument` | go/markdown/markdown.go:101-169 | a plan is accepted only when it is well planned |
| `Runtime.PreflightDocument` | go/runtime/runtime.go:450-497 | all items are validated, captured names get placeholders, and the worst finding wins |
| `Runtime.PreflightExact` | go/runtime/runtime.go:450-497 | preflight finds nothing if and only if every curl item is valid with what is known at its place and every check line and capture is a valid expression |
| `Runtime.PreflightError` | go/runtime/runtime.go:488-496 | the document is an error if and only if an item breaks the policy |
| `Runtime.ValidateCurlExact` | go/runtime/runtime.go:38-163 | when a curl item is valid: tokens, options, command, all words, and the policy for its URL or the part that is written out |
| `Runtime.KnownExact` | go/runtime/runtime.go:476-487 | known at an item are the given variables, and a placeholder for every name that an earlier capture is expected to define |
| `Runtime.PreflightSound` | go/runtime/runtime.go:38-163 | after a preflight without findings the shell-error branch is unreachable, and so is the template failure of every item before the first capture |
| `GoProgram.WithoutCaptures` | go/runtime/runtime.go:330-404 | in a document without captures, every source tokenizes and every word expands when the run reaches it |
| `GoProgram.ExtractKeys` | go/runtime/runtime.go:556-571 | the loop returns the names before the colons of a multiselect |
| `GoProgram.KeysExact` | go/runtime/runtime.go:556-571 | a multiselect gives the names of its segments, in order |
| `GoProgram.TemplateSafetyExact` | go/runtime/runtime.go:450-497 | for every planned document that passes a preflight, an item fails with a template error in no such world if and only if no capture stands before it or none of its words has an expression |
| `GoProgram.CaptureBreaksTemplate` | go/runtime/runtime.go:476-487 | for every host and name, the document that captures the name and then uses it passes preflight and can fail with a template error, with the real tokenizer and templates |
| `GoProgram.ExampleDocument` | go/runtime/runtime.go:476-487 | the same for the sources `curl http://localhost` and `curl {{v}}` |
| `GoProgram.FencesToVerdict` | go/markdown/markdown.go:74-169 | in a passing document planned from its fences every fence held: every request was transferred, every line of every check that is not blank was true, every capture was merged, each against the transfer of its own step |
| `Runtime.RunItems` | go/runtime/runtime.go:343-441 | the loop over the items, which a policy error ends |
| `Runtime.TransferredMeans` | go/runtime/runtime.go:350-400 | a transfer is made only of a source whose words all expand, each in its place, to a command that the policy allows |
| `Runtime.AbortsExactly` | go/runtime/runtime.go:343-376 | a run goes on exactly until an item is denied |
| `Runtime.ExitClassExact` | go/runtime/runtime.go:353-435 | the exit class is the worst of the items that are reached: 1 for a check or capture, 2 for a command that cannot be expanded or read, 3 for a transfer that fails or is denied |
| `Runtime.PassedExact` | go/runtime/runtime.go:330-444 | a planned document passes if and only if preflight finds nothing, every step is transferred, every check line is evaluated to true with none skipped, and every capture is merged |
| `Runtime.OwnTransfer` | go/runtime/runtime.go:405-440 | in a passing document a check or capture is evaluated against the transfer of the step that it names |
| `Runtime.SkippedCheckPasses` | go/runtime/runtime.go:405-409 | without the planner's order a check is skipped and the document passes |
| `Runtime.TestConsistent` | go/runtime/runtime.go:330-444 | a result passes exactly when its exit class is 0, an error has class 3, and a passing one has no diagnostics |
| `Runtime.TestDocument` | go/runtime/runtime.go:330-444 | the whole test returns that result, and a passing one means that everything in the document held |
| `Runtime.ExitCode` | go/report/report.go:60-77 | the exit code is the largest class of all documents, and 0 exactly when every document passed |
| `QueryString.EncodeComponentChars` | crates/mdok-quickjs/src/modules/querystring.js:10-16 | the three rewriting passes encode each character by itself |
| `QueryString.ComponentRoundTrip` | crates/mdok-quickjs/src/modules/querystring.js:10-23 | every text decodes back from its encoding, which contains no separator |
| `QueryString.Stringify` | crates/mdok-quickjs/src/modules/querystring.js:24-46 | the loops write one pair per text |
| `QueryString.ParseQuery` | crates/mdok-quickjs/src/modules/querystring.js:47-67 | the loop collects pairs, grouping repeated keys |
| `QueryString.RoundTripExact` | crates/mdok-quickjs/src/modules/querystring.js:24-67 | `parse(stringify(m))` is `m` if and only if every value is a text or a list of at least two texts, for any order of the keys |

## Left out

- Networking, TLS, gzip, clocks, file access and reading response bodies: the server, the retry timer, the context and the file tree are arbitrary inputs.
- TOML and the JMESPath library: the variables block and the expressions are arbitrary functions. A direct command starts at its command line, so the fence around it, its size limit after TOML encoding, a newline in a program name closing the fence, and the second planner in the Markdown crate are not covered.
- Markdown lines: the planner starts from fences with their info strings read; opening and closing fences, indentation and the limits on lines and nodes are not part of this model.
- Reading curl options and judging hosts, schemes and files: arbitrary functions, except for the options and the count of URLs that the Rust planner checks itself.
- Rust crates for templates, curl, Markdown and reports: the Go ports, which mirror them, are the definition of the template language used here.
- Redaction of reports, and secrets in captured values: whether an argument is secret is modelled for the display form of a command only.
- Lint: it repeats the preflight checks with placeholders for all names.
- Which reported step entry is marked failed in the Go run: the loop keeps references into a slice that later appends may move; the results are about the document's status and exit class.
- Rebinding of variables by Go captures: the Go loop overwrites, so only the Rust run is proved never to rebind.
- Text of an ignore file: rules are given as parsed.
- Invalid UTF-8 and lone surrogates; special property names of JavaScript objects.
- Negative day counts, which elapsed time never has, and the padding of the printed timestamp.
- Discovery.Discover: sorting, explicit files, removal of duplicates and the error for an empty result, because they are single steps after the walk.
- Discovery.PruningOnEveryTree: the condition quantifies over document paths; a condition on the text of the patterns would need to decide whether two patterns overlap.
- Json.WriteValue: floats, and the fallback for values that are not JSON.
- Json.EncodeRoundTrip: the reader knows no white space, fractions, exponents or surrogate pairs, which the printer never writes for the modelled values.
- Encoding.BuildRequestTarget: reading the URL and its error; `Transfer.Execute` takes the prepared request or the error.
- Transfer.RequestsLawful: headers, cookies and authentication of a request are not modelled.
- Captures.PublishExact: machine-word overflow of the running size, because a sum that overflows is far above the limit and rejected in the same way, and the nesting limit of the JSON reader, because such values are rejected for their depth.
- CommandPolicy.ShellsAreFound: file names are those of Unix paths.
- QueryString.Stringify: custom separators and the `encodeValuesOnly` option.
- QueryString.ParseQuery: custom separators and input that is not a string.
