# Export dashboard client state, in Dafny

This project models the client-side state of the export-service dashboard in
`frontend/src/App.tsx`, and proves properties of that model. The dashboard:

- shows a health snapshot of the service;
- lets an operator submit export jobs for a comma-separated list of file ids;
- polls each job until it reaches a terminal status, merging the server's
  progress into the job list;
- keeps a bounded error log, newest entry first, whose entries may carry a
  trace id for the tracing UI.

The modules follow the component's structure:

- `Wrappers`: `Option` and `Result`.
- `Entities`: the TypeScript interfaces (`HealthStatus`, `ExportJob`, `ErrorLog`
  and the server replies). It also has the abstract outcome of one `fetch`: a
  response with status, status text and a body that decoded or failed to
  decode (`Fetch`, `Body`), or a thrown network error. `response.ok` is a
  status from 200 to 299.
- `Text`: the JavaScript built-ins the file-id field goes through:
  - `String.prototype.split` on one character;
  - `trim` over the ECMAScript whitespace and line-terminator set;
  - `parseInt(_, 10)`: leading whitespace, an optional sign, the longest
    run of decimal digits, and `NaN` (`None`) when there are no digits;
  - the decimal rendering of a status code.
- `ErrorLogs`: `addError`'s list update, `[error, ...prev].slice(0, 10)`.
- `Jobs`: the job created on success, the status-reply merge by `jobId`, the
  rule for whether polling continues, and polling driven by a sequence of
  replies.
- `Calls`: what each handler's `try` block makes of its `fetch` outcome. That
  is the value it goes on with, or the message of the error its `catch`
  receives. It also holds the file-id parse that builds the create request.
- `DashboardState`: class `Dashboard`, whose fields are the component's
  `useState` cells. Its methods are `addError`, the file-id field's
  `onChange`, `fetchHealth`, `createExportJob`, one `poll`, `pollJobStatus` and
  `triggerSentryTest`. Each method states the whole new state, `finally`
  resets included.
- `Scenarios`: short runs of several handler calls, showing the dashboard's
  documented behaviour for sequences of outcomes: the health toggle, the
  job-list order, the stop after a terminal status, and the silent stop after
  a server error.

Several things are parameters of the handlers: the `fetch` outcomes, the id
from `crypto.randomUUID()`, the timestamp from `new Date().toISOString()`, and
the span's trace id. Polling takes the replies the service would give, in
order, in place of the 2-second timer.

## Model

| member | source | states |
|---|---|---|
| ErrorLogs.Record | frontend/src/App.tsx:94-101 | the new entry is at index 0; the rest is the old log cut to at most 9 entries; the length is min(10, old length + 1) |
| ErrorLogs.RecordAll | frontend/src/App.tsx:94-101 | a sequence of addError calls from the empty log; specified by RecordAllKeepsNewest and ErrorLogCap |
| ErrorLogs.RecordAllKeepsNewest | frontend/src/App.tsx:101 | after recording any N entries the log holds min(10, N) entries; position k holds the k-th entry counted back from the last one |
| ErrorLogs.ErrorLogCap | frontend/src/App.tsx:101 | after N >= 10 entries the log holds exactly the last 10, newest first |
| Jobs.NewJob | frontend/src/App.tsx:122-129 | the created job has the reply's id and status, no progress, result or error, and the local creation time |
| Jobs.Merged | frontend/src/App.tsx:161-167 | the merged entry keeps its id and creation time and takes status, progress, result and error from the reply |
| Jobs.MergeStatus | frontend/src/App.tsx:158-170 | the merge keeps length and order; every entry with the polled id is merged; every other entry is unchanged |
| Jobs.MergeWithoutMatch | frontend/src/App.tsx:158-170 | when no entry has the polled id, the list is unchanged |
| Jobs.MergeKeepsIds | frontend/src/App.tsx:158-170 | the merge never changes the ids or their order |
| Jobs.MergeIdempotent | frontend/src/App.tsx:158-170 | merging the same reply twice equals merging it once |
| Jobs.StatusOf | frontend/src/App.tsx:153-156 | there is a reply to merge exactly when the response is ok and its body decoded |
| Jobs.IsTerminal | frontend/src/App.tsx:173 | "completed" and "failed" are the statuses after which polling stops; used by Poll, whose contract states the rule |
| Jobs.Continues | frontend/src/App.tsx:154-175 | whether a poll that gets a reply schedules another: ok, decoded and not terminal; specified by Poll, PollsUpToFirstStop and PollsWithoutStop |
| Jobs.Poll | frontend/src/App.tsx:151-178 | another poll is scheduled iff the reply is ok, decoded and non-terminal; a failed poll leaves the jobs unchanged; a decoded reply is merged |
| Jobs.RunPolls | frontend/src/App.tsx:150-182 | a run issues at most one poll per reply and never changes the number of jobs |
| Jobs.PollsUpToFirstStop | frontend/src/App.tsx:173-175 | the number of polls issued is the index of the first reply that stops polling, plus one |
| Jobs.PollsWithoutStop | frontend/src/App.tsx:173-175 | when no reply stops polling, there is one poll per reply |
| Jobs.RunPollsKeepsIds | frontend/src/App.tsx:150-182 | a whole polling run never adds, removes or reorders jobs |
| Calls.ParseFileIds | frontend/src/App.tsx:110 | the parse gives one id per comma-separated token: the number of commas plus one |
| Calls.FileIdsByToken | frontend/src/App.tsx:110 | for comma-free tokens joined by commas, id i is parseInt of trimmed token i, so a non-number stays in place as NaN |
| Calls.MalformedTokenStaysInPlace | frontend/src/App.tsx:110 | "10000, abc, 30000" parses to [10000, NaN, 30000] |
| Entities.IsOk | frontend/src/App.tsx:77 | `response.ok`: a status from 200 to 299; used by HealthCheck, CreateCall and StatusOf, whose contracts state when a call succeeds |
| Calls.HealthCheck | frontend/src/App.tsx:76-84 | the check succeeds iff the response is ok and the body decoded, and the value is the decoded body; a thrown network error, or an ok response whose body fails to decode, fails with that error's own message |
| Calls.HttpMessageCarriesStatus | frontend/src/App.tsx:77 | a non-ok health response, whatever its body, gives "HTTP " followed by the status, and parseInt reads that status back |
| Calls.CreateMessageCarriesStatus | frontend/src/App.tsx:117-119 | a non-ok create response, whatever its body, gives "HTTP ", the status, ": " and the status text |
| Calls.CreateCall | frontend/src/App.tsx:111-121 | the create call succeeds iff the response is ok and the body decoded, and the value is the decoded reply; a thrown network error, or an ok response whose body fails to decode, fails with that error's own message |
| Calls.CheckMessage | frontend/src/App.tsx:187-206 | a decoded reply gives its message when that is a non-empty string and the default text when it is missing or empty; a thrown network error or a body that fails to decode gives "Sentry test failed: " followed by the error's message |
| Calls.CheckMessageIgnoresStatus | frontend/src/App.tsx:196-200 | the logged message depends only on the body, never on the HTTP status |
| Text.Split | frontend/src/App.tsx:110 | the split gives one more part than there are separators, and no part contains the separator |
| Text.JoinSplit | frontend/src/App.tsx:110 | joining the parts with the separator gives back the input |
| Text.SplitJoin | frontend/src/App.tsx:110 | splitting a join of separator-free parts gives back those parts |
| Text.TrimStart | frontend/src/App.tsx:110 | the leading half of `trim`; specified by TrimStartSpec |
| Text.TrimEnd | frontend/src/App.tsx:110 | the trailing half of `trim`; specified by TrimEndSpec |
| Text.Trim | frontend/src/App.tsx:110 | `String.prototype.trim`; specified by TrimSlice |
| Text.TrimStartSpec | frontend/src/App.tsx:110 | trimStart removes a whitespace prefix, keeps the rest, and the result does not start with whitespace |
| Text.TrimEndSpec | frontend/src/App.tsx:110 | trimEnd removes a whitespace suffix, keeps the rest, and the result does not end with whitespace |
| Text.TrimSlice | frontend/src/App.tsx:110 | trim is a slice of the input, blank on both sides, and with non-whitespace at both of its ends |
| Text.DigitPrefixSpec | frontend/src/App.tsx:110 | the digit run is a prefix of the text, and the next character is not a digit |
| Text.ParseInt | frontend/src/App.tsx:110 | `parseInt(_, 10)`, with `NaN` as None; specified by ParseIntAccepts, ParseIntRejects and NatToStringRoundTrip |
| Text.ParseIntAccepts | frontend/src/App.tsx:110 | parseInt of whitespace, a sign, digits, then a non-digit gives the signed value of the digits |
| Text.ParseIntRejects | frontend/src/App.tsx:110 | parseInt of whitespace and an optional sign followed by no digit gives NaN |
| Text.NatToString | frontend/src/App.tsx:77 | the decimal rendering of a status code: non-empty, all digits, no leading zero; specified by DigitsValueOfNatToString and NatToStringRoundTrip |
| Text.DigitsValueOfNatToString | frontend/src/App.tsx:77 | the decimal rendering of a number has that number as its value |
| Text.NatToStringRoundTrip | frontend/src/App.tsx:77 | parseInt reads the decimal rendering of a number back as that number |
| DashboardState.Dashboard.constructor | frontend/src/App.tsx:63-69 | the initial state: no health, not loading, no jobs, no errors, not creating, the default file ids |
| DashboardState.Dashboard.AddError | frontend/src/App.tsx:94-102 | the log becomes Record of the old log and the new entry, and stays within 10 entries |
| DashboardState.Dashboard.SetFileIds | frontend/src/App.tsx:347 | the field holds the typed text |
| DashboardState.Dashboard.FetchHealth | frontend/src/App.tsx:72-91 | success replaces the snapshot and logs nothing; failure clears the snapshot and logs one entry with no trace id; the loading flag is off afterwards |
| DashboardState.Dashboard.CreateExportJob | frontend/src/App.tsx:105-147 | the request carries the parsed file ids and the fixed user; success prepends the new job and starts polling it; failure leaves the jobs alone and logs one entry with the trace id; the busy flag is off afterwards |
| DashboardState.Dashboard.PollOnce | frontend/src/App.tsx:151-179 | one poll changes the jobs as Poll says, schedules another poll iff Poll says so, and touches nothing else |
| DashboardState.Dashboard.PollJobStatus | frontend/src/App.tsx:150-182 | the loop's number of polls and its final job list are those of RunPolls |
| DashboardState.Dashboard.TriggerSentryTest | frontend/src/App.tsx:185-211 | the request carries the fixed file id 70000; every outcome logs exactly one entry, with CheckMessage's text and the trace id |
| Scenarios.HealthToggle | frontend/src/App.tsx:72-91 | a failed health check followed by a successful one shows the second snapshot and logs one entry |
| Scenarios.JobListIdentity | frontend/src/App.tsx:105-170 | creating J1, J2 and J3 lists [J3, J2, J1]; a poll reply for J2 changes J2's entry alone |
| Scenarios.TerminalStop | frontend/src/App.tsx:173-175 | replies pending, running, completed give exactly 3 polls, whatever comes after |
| Scenarios.DropOnServerError | frontend/src/App.tsx:154 | an HTTP 500 on the second poll ends polling after 2 polls, with the first reply merged |
| Scenarios.DropPolicy | frontend/src/App.tsx:150-182 | the same run on a dashboard logs no error and adds no job |

## Left out

- The initial `useEffect` and the 30-second health refresh interval are left
  out, as is its teardown. Timers are replaced by explicit calls, and polling by
  a sequence of replies.
- Polling that runs out of replies while it would continue ends there. The
  source would keep polling.
- Concurrency is left out. Each handler runs as one atomic step, so
  interleaved responses from different handlers or jobs are not modelled.
- The disabled state of the buttons and the rest of the JSX rendering are left
  out.
- Spans and span status, `Sentry.captureException`, `Sentry.captureMessage` and
  `console.error` are left out, because they are write-only sinks. The trace id
  of the current span is a parameter.
- `crypto.randomUUID()` and `new Date().toISOString()` are parameters, because
  they are randomness and the clock.
- `fetch`, the URLs and the JSON encoding of the request body are abstracted to
  the `Fetch` outcome. The create request is modelled as its field values. In
  particular, the rendering of `NaN` ids as `null` by `JSON.stringify` is not
  modelled.
- CheckMessage: the message is modelled only for a missing or string
  `message`. JavaScript truthiness of other JSON values is not modelled. A body
  that decodes to `null` is a thrown error, so it falls under `Malformed`.
- Text.ParseIntAccepts: the value is an unbounded integer. JavaScript number
  rounding above 2^53 and the distinction between `-0` and `0` are not
  modelled.
- Text.TrimSlice: characters outside the Basic Multilingual Plane are single
  `char`s. Whitespace is the fixed ECMAScript set, with no Unicode database
  lookup.
- `frontend/src/main.tsx` and `frontend/src/instrumentation.ts` are SDK
  bootstrap and are not part of this model.
