# HTTP latency measurement — phase-timing model

This project models the phase-timing core of `index.js`. That file times one
outbound HTTPS request and breaks its latency into five phases: DNS lookup,
TCP connection, TLS handshake, time to first byte and content transfer.
It also reports the total.

- `hrtime.dfy` (module `HrTimes`) covers `process.hrtime()` pairs
  `[seconds, nanoseconds]` and `getHrTimeDurationInMs`. Durations are exact
  `real` milliseconds, not IEEE doubles.
- `timings.dfy` (module `Timings`) covers the milestone record and
  `getTimings`. The breakdown has `Option` entries for the two optional
  phases, and a `Result` for the TypeError that JavaScript throws when it
  reads element 0 of an undefined milestone.
- `lifecycle.dfy` (module `Lifecycle`) covers `resetEventTimes` and the
  handlers that `sendHttpRequest` registers. They form the class `Attempt`,
  with one method per event: `lookup`, `connect`, `secureConnect`,
  `readable` (once only), `data` and `end`. Each method takes the clock
  reading as a parameter. The pure `Step`/`Replay` functions specify the
  methods. They also carry the proof that events in transport order give
  non-negative phases.
- `body.dfy` (module `RequestBody`) covers the branch that writes the
  request body before `request.end()`. `JSON.stringify` is a function
  parameter that the model does not interpret.
- `wrappers.dfy` (module `Wrappers`) holds `Option` (whose `OrElse` is
  JavaScript's `a || b` on an hrtime array or `undefined`) and `Result`.

Two behaviours of index.js worth stating:

- `getTimings` on an unfinished record throws. `GetTimings` returns
  `Failure(UndefinedMilestone(m))` for the first missing milestone in
  evaluation order: tcpConnectionAt, then firstByteAt, then endAt.
- A body is serialized only when it is truthy. A non-string body that is
  falsy (`false`, `0`) writes nothing, just like `null` and `""`. An empty
  object or array is truthy, so it is serialized.

## Model

| member | source | states |
|---|---|---|
| `HrTimes.DurationMs` | index.js:7-12 | the duration times 10^6 equals the difference of the two instants in nanoseconds |
| `HrTimes.DurationDependsOnlyOnInstants` | index.js:7-12 | pairs that denote the same instants give the same duration, however nanoseconds borrow across the seconds field |
| `HrTimes.DurationAdditive` | index.js:7-12 | d(a,b) + d(b,c) == d(a,c) |
| `HrTimes.DurationZeroAndAntisymmetric` | index.js:7-12 | d(a,a) == 0 and d(b,a) == -d(a,b) |
| `HrTimes.DurationNonNegativeIff` | index.js:7-12 | a duration is >= 0 exactly when its start is not after its end |
| `HrTimes.NotAfterIsLexicographic` | index.js:7-12 | for clock pairs, instant order is lexicographic order on [seconds, nanoseconds] |
| `HrTimes.TotalNanosInjective` | index.js:7-12 | distinct clock pairs denote distinct instants |
| `HrTimes.DurationZeroIffEqual` | index.js:7-12 | between clock pairs the duration is zero exactly when the pairs are equal |
| `HrTimes.DurationAcrossSecondBoundary` | index.js:8-11 | [1, 999999000] to [2, 1000] is 0.002 ms (negative nanosecond difference borrowed from seconds) |
| `Timings.GetTimings` | index.js:14-24 | a breakdown exists exactly when tcpConnectionAt, firstByteAt and endAt are set; otherwise the error names the first missing one in evaluation order |
| `Timings.AnchorIndex` | index.js:16-21 | the latest milestone before position k that is present: one exists, and none between it and k is present |
| `Timings.PhaseMeasuresFromLatestEarlierMilestone` | index.js:16-22 | each phase is present exactly when its milestone is, and then measures from the latest earlier recorded milestone |
| `Timings.OptionalPhases` | index.js:16-21 | dnsLookup/tlsHandshake are absent exactly when their milestone is undefined; then tcpConnection measures from startAt and firstByte from tcpConnectionAt |
| `Timings.PhasesSumToTotal` | index.js:14-24 | in all four present/absent combinations the present phases sum exactly to total, and total == d(startAt, endAt) |
| `Timings.PhasesNonNegative` | index.js:14-24 | if the present milestones are non-decreasing in lifecycle order, every present phase and the total are >= 0 |
| `Timings.FullHandshakeExample` | index.js:14-24 | milestones 0/5/15/45/120/200 ms give {5, 10, 30, 75, 80, 200} |
| `Timings.ReusedConnectionExample` | index.js:14-24 | no DNS and no TLS, milestones 0/2/10/50 ms give {absent, 2, absent, 8, 40, 50} |
| `Lifecycle.Step` | index.js:45-62 | the effect of one handler on the record: its own milestone is set afterwards, startAt never changes, and a complete record stays complete |
| `Lifecycle.Fresh` | index.js:28-37 | a fresh record has startAt set to the clock reading and every other milestone undefined |
| `Lifecycle.StepWritesOnlyItsMilestone` | index.js:45-62 | each handler sets its own milestone to the current reading (readable only if firstByteAt is still unset) and leaves every other milestone unchanged |
| `Lifecycle.StepKeepsMonotone` | index.js:45-62 | an event no earlier in position and time than everything recorded keeps the record monotone |
| `Lifecycle.ReplayStampedUpTo` | index.js:41-62 | events replayed in transport order on a fresh record leave it monotone, with every milestone at or before the last event |
| `Lifecycle.InOrderAttemptHasNonNegativePhases` | index.js:14-62 | an attempt whose events arrive in transport order yields, once complete, non-negative phases and total |
| `Lifecycle.FreshRecordHasNoBreakdown` | index.js:14-37 | no breakdown can be computed from a record that has only its start |
| `Lifecycle.ConcatAppend` | index.js:47-52 | appending a chunk to the buffers appends its bytes to the concatenated body |
| `Lifecycle.Concat` | index.js:52 | Buffer.concat of the chunks: the result is empty exactly when every chunk is empty |
| `Lifecycle.Attempt.constructor` | index.js:28-37 | a new attempt holds the fresh record and no response chunks |
| `Lifecycle.Attempt.OnLookup` | index.js:60 | sets dnsLookupAt to now; nothing else changes |
| `Lifecycle.Attempt.OnConnect` | index.js:61 | sets tcpConnectionAt to now; nothing else changes |
| `Lifecycle.Attempt.OnSecureConnect` | index.js:62 | sets tlsHandshakeAt to now; nothing else changes |
| `Lifecycle.Attempt.OnReadable` | index.js:45 | sets firstByteAt to now only on the first readable event; nothing else changes |
| `Lifecycle.Attempt.OnData` | index.js:47 | appends the chunk to the buffers; the body so far grows by exactly that chunk; the record is unchanged |
| `Lifecycle.Attempt.OnEnd` | index.js:48-54 | sets endAt to now and resolves with the status code and all chunks concatenated in arrival order |
| `RequestBody.ClientRequest.Write` | index.js:73-75 | request.write records one write call carrying the chunk |
| `RequestBody.ClientRequest.End` | index.js:78 | request.end records one end call |
| `RequestBody.Truthy` | index.js:71 | JavaScript truthiness of the body: null, false, 0 and "" are falsy; every other value, including an empty array or object, is truthy |
| `RequestBody.Framing` | index.js:71-78 | the calls the body branch makes: never empty, every call but the last is a write, and the last is request.end() |
| `RequestBody.SendBody` | index.js:71-78 | the calls made on the request are exactly the framing of the body: at most one write, then end |
| `RequestBody.FramingEndsOnce` | index.js:71-78 | at most one write; request.end() is called exactly once and last |
| `RequestBody.FramingWritesPayload` | index.js:71-78 | a falsy body writes nothing; a non-empty string is written verbatim; any other truthy body is written as its JSON text; only a falsy body leads to a bare end |
| `RequestBody.FalsyBodiesWriteNothing` | index.js:71 | null, false, 0 and "" all lead to a bare request.end() |
| `RequestBody.EmptyContainersAreSerialized` | index.js:71-73 | an empty object or array is truthy and is written as its JSON text |

## Left out

- `https.request`, sockets, the Promise and the event-emitter wiring (index.js:40-44, 56-58, 70). These are I/O and callback concurrency. Each handler's effect on the record is a method of `Attempt`, and the transport's event order is the `InTransportOrder` predicate.
- The socket `timeout` handler (index.js:63-68), `request.abort()` and the `ETIMEDOUT` rejection, and every `error` rejection. They change no milestone. The timeout handler also aborts the request, which tears down the connection; otherwise they only settle the Promise. Neither the abort nor the Promise is modelled.
- `process.hrtime()`: every clock reading is a parameter.
- IEEE floating-point division. Durations are exact reals, so the model claims exact sums where the program has floating-point rounding.
- `.toString('utf-8')` on the concatenated buffers (index.js:52). The response data is kept as bytes.
- The internals of `JSON.stringify`. It is a function parameter.
- `measure` and `measureLatency` (index.js:82-109): base64/JSON envelope decoding, logging, and the error message at index.js:89, which names variables that are out of scope there.
- The module-level shared `eventTimes` (index.js:27, 41). The record is scoped to one `Attempt`. Within one invocation this is the same behaviour. Interference between concurrent invocations sharing the global is not modelled.
- An absent body is modelled as JSON `null`, the default parameter value at index.js:39.
