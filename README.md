# Startup gate-and-extract decision

This project models the one piece of decision logic in the Spring Boot
startup runner `StartupRunner.run`. The runner runs once, at startup:

1. It POSTs the applicant's identity (`name`, `regNo`, `email`) to the
   generate endpoint.
2. It reads a webhook URL and an access token from the JSON reply. Each is
   known under two spellings.
3. It picks the SQL answer to submit.
4. It POSTs `{"finalQuery": …}` to the webhook with an
   `Authorization: Bearer <token>` header.

Any gate that fails ends the run without a submission.

Modules:

- `Strings` models the two string tests the runner uses. They are kept
  apart because they disagree.
  - `HasText` is Spring's `StringUtils.hasText`: the string is not null and
    some character is not `Character.isWhitespace`.
  - `Trim` is `String.trim`: it strips leading and trailing characters at or
    below U+0020.
- `Json` models the JSON the runner builds and reads.
  - A built object (`ObjectNode.put`) is an ordered list of named fields.
  - The parsed reply is `Malformed` (`readTree` threw) or, for each key, the
    text `path(key).asText(null)` yields. `None` stands for a missing key or
    a JSON null.
  - It also holds the reference reading of a field that has several
    spellings: the first key in order whose lookup is not null.
- `SqlSolver` holds the fixed SQL answer as a constant with text. Its SQL
  meaning is not modelled.
- `Startup` holds the decision itself.
  - `Decide` is the decision as one pure function. It takes the generate
    result, what `readTree` made of it, the solver's query and the fallback
    query. It returns `Aborted(reason)`, `ParseFailed` or
    `Submitted(url, authorization, body)`.
  - `RunGates` takes `run`'s steps in order, with its early returns and
    its reassignment of `finalQuery`. It is proved equal to `Decide`.
  - `Run` adds the two POSTs around the gates. It returns the requests
    issued, in order.
- `StartupProperties` holds what the decision guarantees, stated against its
  inputs.

Two consequences of the order in which `run` reads and checks its values:

- `run` tests `hasText` before `trim` (StartupRunner.java:76-82), so a value
  such as a single U+0000 passes the gate and is submitted as the empty
  string. `GateAdmitsUrlThatTrimsToEmpty` proves this.
- The second spelling is read only when the first lookup is null; a present
  but blank first value aborts the run. `BlankPrimaryBlocksFallback` proves
  this.

## Model

| member | source | states |
|---|---|---|
| `Strings.IsWhitespace` | demo/demo/src/main/java/com/example/demo/StartupRunner.java:65 | a character is whitespace exactly when `Character.isWhitespace` says so: U+0009..U+000D, U+001C..U+0020, U+1680, U+2000..U+2006, U+2008..U+200A, U+2028, U+2029, U+205F and U+3000 (the non-breaking spaces U+00A0, U+2007 and U+202F excluded) |
| `Strings.HasText` | demo/demo/src/main/java/com/example/demo/StartupRunner.java:65 | a value has text when it is not null and some character in it is not `Character.isWhitespace`, as `StringUtils.hasText` decides at every gate |
| `Strings.TrimStart` | demo/demo/src/main/java/com/example/demo/StartupRunner.java:81-82 | the front part of trim leaves a suffix that is empty or starts above U+0020, and everything dropped is at or below U+0020 |
| `Strings.TrimEnd` | demo/demo/src/main/java/com/example/demo/StartupRunner.java:81-82 | the back part of trim leaves a prefix that is empty or ends above U+0020, and everything dropped is at or below U+0020 |
| `Strings.Trim` | demo/demo/src/main/java/com/example/demo/StartupRunner.java:81-82 | trim gives a middle slice of the input that neither starts nor ends at or below U+0020, with only such characters cut off on either side |
| `Strings.TrimIdempotent` | demo/demo/src/main/java/com/example/demo/StartupRunner.java:81-82 | trimming a trimmed value changes nothing |
| `Strings.TrimKeepsVisible` | demo/demo/src/main/java/com/example/demo/StartupRunner.java:81-82 | a character above U+0020 always survives trim |
| `Strings.TrimmedTextHadText` | demo/demo/src/main/java/com/example/demo/StartupRunner.java:76-82 | if the trimmed value has text, the untrimmed one had text |
| `Strings.VisibleTextSurvivesTrim` | demo/demo/src/main/java/com/example/demo/StartupRunner.java:76-82 | a value whose text includes a character above U+0020 still has text after trim |
| `Strings.TrimPadded` | demo/demo/src/main/java/com/example/demo/StartupRunner.java:81-82 | a value with text and nothing to trim, padded with one space on each side, still has text and trims back to itself |
| `Strings.TextCanTrimToEmpty` | demo/demo/src/main/java/com/example/demo/StartupRunner.java:76-82 | the text test and trim differ: U+0000 counts as text, yet trim removes it |
| `Strings.BlankCanSurviveTrim` | demo/demo/src/main/java/com/example/demo/StartupRunner.java:76-82 | the text test and trim differ the other way: U+3000 is blank, yet trim keeps it |
| `Json.NamesAreFieldNames` | demo/demo/src/main/java/com/example/demo/StartupRunner.java:46-49 | the names of an object, in order, are exactly the names of its fields in insertion order |
| `Json.Put` | demo/demo/src/main/java/com/example/demo/StartupRunner.java:46-49 | putting a field makes it read back with the new value, and appends its name only if it is new |
| `Json.PutKeepsOthers` | demo/demo/src/main/java/com/example/demo/StartupRunner.java:46-49 | putting a field leaves every other field as it was |
| `Json.TextAt` | demo/demo/src/main/java/com/example/demo/StartupRunner.java:71-74 | a key's lookup is its text, and a missing key reads as null, as `path(key).asText(null)` gives |
| `Json.OrElse` | demo/demo/src/main/java/com/example/demo/StartupRunner.java:71-74 | the first lookup when it is not null, otherwise the second, as `Optional.ofNullable(..).orElse(..)` gives |
| `Json.FirstNonNull` | demo/demo/src/main/java/com/example/demo/StartupRunner.java:71-74 | reading a field under several spellings gives a result exactly when some spelling's lookup is not null, and that result is one of the lookups |
| `Json.FirstNonNullStopsAt` | demo/demo/src/main/java/com/example/demo/StartupRunner.java:71-74 | the first spelling whose lookup is not null decides the value, and later spellings are ignored |
| `Json.OrElseIsFirstNonNull` | demo/demo/src/main/java/com/example/demo/StartupRunner.java:71-74 | `Optional.ofNullable(a).orElse(b)` over two lookups is the two-spelling case of the reference reading |
| `SqlSolver.SolveHighestSalaryNotOnFirstDay` | demo/demo/src/main/java/com/example/demo/SQLSolver.java:10-22 | the fixed SQL answer has text |
| `Startup.Received` | demo/demo/src/main/java/com/example/demo/StartupRunner.java:53-63 | a POST result is non-null exactly when a body was delivered; a transport error or a missing body reads as null |
| `Startup.GenerateBody` | demo/demo/src/main/java/com/example/demo/StartupRunner.java:46-49 | the generate body has exactly the fields `name`, `regNo`, `email`, in that order, holding the configured values unchanged |
| `Startup.SubmitBody` | demo/demo/src/main/java/com/example/demo/StartupRunner.java:97 | the submission body has exactly the field `finalQuery`, holding the query |
| `Startup.Webhook` | demo/demo/src/main/java/com/example/demo/StartupRunner.java:71-72 | the webhook URL is the reference reading of the spellings `webhook` then `webHook` |
| `Startup.AccessToken` | demo/demo/src/main/java/com/example/demo/StartupRunner.java:73-74 | the access token is the reference reading of the spellings `accessToken` then `token` |
| `Startup.ChooseQuery` | demo/demo/src/main/java/com/example/demo/StartupRunner.java:87-95 | a query is chosen exactly when the solver's query or the fallback has text; a chosen query has text and is one of the two; the solver's query wins whenever it has text |
| `Startup.Decide` | demo/demo/src/main/java/com/example/demo/StartupRunner.java:65-70 | a generate result without text aborts; a parse failure happens exactly when the result has text and does not parse |
| `Startup.RunGates` | demo/demo/src/main/java/com/example/demo/StartupRunner.java:65-97 | the gates taken step by step, with their early returns and the fallback reassignment, reach the same outcome as `Decide` |
| `Startup.GeneratePost` | demo/demo/src/main/java/com/example/demo/StartupRunner.java:53-56 | the generate request goes to the trimmed generate URL, with no Authorization header and the identity body |
| `Startup.SubmitPost` | demo/demo/src/main/java/com/example/demo/StartupRunner.java:101-105 | the submission request goes to the submission's URL, with its `Bearer` header and its `finalQuery` body |
| `Startup.Run` | demo/demo/src/main/java/com/example/demo/StartupRunner.java:42-115 | the run always issues the generate POST to the trimmed generate URL first; it issues one more POST, the submission, exactly when the outcome is `Submitted`; the outcome does not depend on the submission's reply |
| `StartupProperties.FailedGenerateCallAborts` | demo/demo/src/main/java/com/example/demo/StartupRunner.java:59-68 | a failed generate call, or one with no body, aborts with `EmptyResponse` |
| `StartupProperties.BlankResponseIgnoresParse` | demo/demo/src/main/java/com/example/demo/StartupRunner.java:65-70 | when the generate result has no text, the parsed reply is never consulted |
| `StartupProperties.GateOrder` | demo/demo/src/main/java/com/example/demo/StartupRunner.java:65-95 | each abort reason and the parse failure, with its exact condition: blank result, then malformed JSON, then a URL or token without text, then no query with text |
| `StartupProperties.SubmittedIffAllGatesPass` | demo/demo/src/main/java/com/example/demo/StartupRunner.java:65-103 | a submission is made exactly when the result has text, parses, the URL and token have text, and one of the two queries has text |
| `StartupProperties.SubmissionContents` | demo/demo/src/main/java/com/example/demo/StartupRunner.java:81-103 | a submission goes to the trimmed URL, with header `"Bearer "` plus the trimmed token, and a body whose only field `finalQuery` holds the solver's query if it has text, else the fallback |
| `StartupProperties.BearerHeaderSplits` | demo/demo/src/main/java/com/example/demo/StartupRunner.java:82-103 | a header built from a trimmed token starts with `"Bearer "`, and the rest is that token with nothing left to trim |
| `StartupProperties.SubmittedValuesAreTrimmed` | demo/demo/src/main/java/com/example/demo/StartupRunner.java:81-103 | neither the submitted URL nor the token in the header has anything left to trim, and the header starts with `"Bearer "` |
| `StartupProperties.PrimaryKeyWins` | demo/demo/src/main/java/com/example/demo/StartupRunner.java:71-74 | a `webhook` (or `accessToken`) lookup that is not null is used as is |
| `StartupProperties.SecondKeyOnlyWhenPrimaryNull` | demo/demo/src/main/java/com/example/demo/StartupRunner.java:71-74 | when the `webhook` (or `accessToken`) lookup is null, the value is the `webHook` (or `token`) lookup |
| `StartupProperties.BlankPrimaryBlocksFallback` | demo/demo/src/main/java/com/example/demo/StartupRunner.java:71-79 | a present but blank `webhook` or `accessToken` aborts the run, whatever the second spelling holds |
| `StartupProperties.SecondSpellingsAgree` | demo/demo/src/main/java/com/example/demo/StartupRunner.java:71-74 | a reply that uses only `webHook` and `token` decides exactly like one with the same values under `webhook` and `accessToken` |
| `StartupProperties.QueryWithTextMakesFallbackIrrelevant` | demo/demo/src/main/java/com/example/demo/StartupRunner.java:87-95 | when the solver's query has text, the fallback does not affect the outcome, and the query gate never aborts |
| `StartupProperties.SolverAnswerMakesFallbackIrrelevant` | demo/demo/src/main/java/com/example/demo/StartupRunner.java:87-95 | with the program's own SQL answer, the fallback query is never used and the query gate never aborts |
| `StartupProperties.PaddedValuesScenario` | demo/demo/src/main/java/com/example/demo/StartupRunner.java:71-103 | a reply carrying `" " + url + " "` and `" " + token + " "` under the first spellings is submitted to `url` with header `"Bearer " + token` |
| `StartupProperties.GateAdmitsUrlThatTrimsToEmpty` | demo/demo/src/main/java/com/example/demo/StartupRunner.java:76-82 | a `webhook` of a single U+0000 passes the text gate, and the submission goes to the empty URL |

## Left out

- The two WebClient POSTs, `Mono`, `block`, `onErrorResume` and `doOnError` are network I/O. Each call's result is an input to `Run`: a `Reply` that `Received` maps to a nullable string.
- URI errors that WebClient raises while it builds a request (a malformed generate URL, or a webhook URL that is not a URI) are not modelled. The model treats every request as issued.
- Jackson's `readTree` is foreign library code. Its result is an input, consulted only once the reply has text. Non-text JSON values appear only as the text `asText` gives them. A JSON document that is not an object reads as having no keys.
- A malformed reply makes `readTree` throw out of `run`. The model reports this as the distinct outcome `ParseFailed`. What Spring does with the exception is not modelled.
- Logging has no effect on behaviour and is left out.
- Spring's `@Value` injection is configuration plumbing. The injected values are the plain fields of `Config`, with the fallback query defaulting to the empty string as configured.
- `SQLSolver`'s SQL is not given a meaning. Only the constant's text and the fact that it has text are modelled.
- Strings are sequences of Unicode scalar values. Java works on UTF-16 units, but no surrogate is whitespace or at most U+0020, so both tests agree on either view.
- `Character.isWhitespace` follows the Unicode tables of current JDKs. U+180E is not whitespace there.
- Startup.Run: takes SQLSolver's answer as a parameter instead of calling it. The program passes `SqlSolver.SolveHighestSalaryNotOnFirstDay()`, and `SolverAnswerMakesFallbackIrrelevant` states what that constant implies.
- Startup.Decide: its own contract covers only the first two gates. The later gates and the submission's contents are stated by `GateOrder`, `SubmittedIffAllGatesPass` and `SubmissionContents`.
