# Healthcheck — a Dafny model of its decision logic

Healthcheck is a small command-line tool. It is started as `<program> <interval_seconds> <url>`.
It validates its arguments once (`Configuration::create`). Then, forever, it sends an HTTP GET
to the URL, prints one line saying whether a response came back and whether its status was a
success, and sleeps for the interval.

This project models that logic as pure Dafny functions and proves properties about them:

- `wrappers.dfy`: `Option` and `Result`, the shapes of the library calls' returns.
- `decimal.dfy`: digit strings. `DecValue` is the reference reading of a digit string as a number.
  `NatToString` is the decimal rendering that `{}` prints for an unsigned integer.
- `int_parse.dfy`: Rust's `str::parse::<u64>`. It accepts an optional leading `+`, then one or more
  ASCII digits, and rejects values above 2^64 − 1. It is written as the left-to-right scan with
  checked multiply and add that the standard library runs, and proved equal to a grammar
  (`ValidU64Text`) plus `DecValue`.
- `configuration.dfy`: `Configuration` and `Create`, the three checks in their fixed order, each
  with its exact message. `Url::parse` (section 4.4 of the WHATWG URL Standard) and `to_string`
  (section 4.5, URL serializing) are passed in as an abstract pair of functions. No rule of
  URL canonicalisation is assumed.
- `health_check.dfy`: the outcome of one request is abstracted as `TransportError` or
  `Response(status)`, with the status in 100..999. The outcome is classified: success is the 2xx
  class of section 15.3 of RFC 9110, which is what `StatusCode::is_success` tests. `ReportLine`
  builds the printed line. `ParseReportLine` is a decoder for report lines; it is proved to invert
  `ReportLine` in both directions, so every line identifies its host and outcome. The loop is
  modelled as `Trace`, over a finite sequence of outcomes: each iteration yields one report event,
  then one sleep event.

The configuration is an immutable datatype value. The loop receives it as a parameter and cannot
change it, which models the shared reference `&Configuration`.

The interval token may carry one leading `+`: `+5` is a valid interval of 5, because Rust's `u64`
parser accepts that sign. A `-` is always rejected, since the type is unsigned.

## Model

| member | source | states |
|---|---|---|
| `Config.Create` | src/main.rs:41-64 | A list whose length is not 3 gives the argument-count message, whatever it holds. For length 3, an invalid interval gives the interval message even when the URL is also bad. A valid interval with a URL the parser rejects gives the URL message. `Success` holds exactly when all three checks pass. Then the interval is the base-10 value of token 1 and the host is the serializer's string for the parsed token 2. |
| `Config.MessagesDistinct` | src/main.rs:45-57 | The three error messages are pairwise different, so the message identifies the check that failed. |
| `Config.ProgramNameIgnored` | src/main.rs:43-55 | Token 0 (the binary name) is counted but never read: lists that agree from token 1 on give the same result. |
| `Config.IntervalRoundTrip` | src/main.rs:49-50 | Any number up to 2^64 − 1, written in decimal with or without a leading `+`, becomes exactly that interval, given a URL that parses. |
| `Config.IntervalOverflowRejected` | src/main.rs:49-51 | An interval of 2^64 or more gives the interval message, whatever the URL token is. |
| `Config.NegativeIntervalRejected` | src/main.rs:49-51 | An interval written with a leading `-` gives the interval message, whatever the URL token is. |
| `Config.ExampleInvocation` | src/main.rs:41-64 | `prog 5 http://example.com` gives interval 5 and the parser's serialization of the URL, for any parser that accepts that URL. |
| `IntParse.ScanDigits` | src/main.rs:49 | The checked left-to-right digit scan succeeds exactly when every character is a digit and the final value fits in 64 bits. Its result is the accumulated value shifted by the remaining digits. It never reports `Empty`, and reports `InvalidDigit` only when some character is not a digit. |
| `IntParse.ParseU64` | src/main.rs:49-52 | `parse::<u64>` succeeds exactly on the texts of the grammar: an optional `+`, at least one digit, value at most 2^64 − 1. Its value is the base-10 value of the digits. The empty text is `Empty`. A lone sign, or a first character after the optional `+` that is not a digit, is `InvalidDigit`. An all-digit text that is too large is `PosOverflow`. |
| `IntParse.ParseRendering` | src/main.rs:49-50 | The decimal rendering of any number in range, with or without a `+`, parses back to that number. |
| `IntParse.ParseRejectsOverflow` | src/main.rs:49-51 | The decimal rendering of any number above 2^64 − 1 is refused with `PosOverflow`. |
| `IntParse.ParseRejectsMinus` | src/main.rs:49-51 | A text holding a `-` at any position never parses: the type is unsigned. |
| `IntParse.ParseIgnoresLeadingZero` | src/main.rs:49-50 | Prefixing a digit string with `0` does not change what it parses to. |
| `Decimal.NatToString` | src/main.rs:22-24 | The rendering of a code for printing is a non-empty digit string with no leading zero, and it reads back as the same number. |
| `Decimal.CanonicalUnique` | src/main.rs:22-24 | A digit string without a leading zero is the rendering of its own value, so the decimal spelling of a number is unique. |
| `HealthCheck.SuccessIsClassTwo` | src/main.rs:21 | `is_success` holds exactly for the codes whose class digit is 2. |
| `HealthCheck.Classify` | src/main.rs:19-29 | Exactly one of three cases applies to each outcome. No response at all is a host error. A response in the 2xx class is healthy. Any other response is unhealthy. A response's code is kept. |
| `HealthCheck.CodeText` | src/main.rs:22-24 | The printed status code is always three digits, the first not `0`, and reads back as the code. |
| `HealthCheck.ParseCode` | src/main.rs:22-24 | A three-character code text that decodes is exactly the printed text of the decoded code. |
| `HealthCheck.ReportLine` | src/main.rs:19-29 | The one line an iteration prints for a host and an outcome. Its format is stated by `ReportLineFormat`, and the decoder lemmas below prove it determines the host and outcome. |
| `HealthCheck.ReportLineFormat` | src/main.rs:20-29 | For every host and code: a 2xx response prints `Checking '<host>'. Result: OK(<code>)`, any other response prints `Checking '<host>'. Result: ERR(<code>)`, and a transport error prints `The '<host>' host error`. |
| `HealthCheck.ReportLineDecodes` | src/main.rs:19-29 | Decoding the printed line of any host and outcome gives back that host and outcome. Each line format is therefore fixed: `Checking '<host>'. Result: OK(<code>)`, `Checking '<host>'. Result: ERR(<code>)`, and `The '<host>' host error`. |
| `HealthCheck.ParseReportLineSound` | src/main.rs:19-29 | Any line that decodes is exactly the report line of the host and outcome it decodes to. |
| `HealthCheck.ReportLineInjective` | src/main.rs:19-29 | Two report lines are equal only when both their hosts and their outcomes are equal. |
| `HealthCheck.ExampleHealthyLine` | src/main.rs:22 | Status 200 for `http://ok.test/` prints `Checking 'http://ok.test/'. Result: OK(200)`. |
| `HealthCheck.ExampleUnhealthyLine` | src/main.rs:24 | Status 500 for `http://fail.test/` prints `Checking 'http://fail.test/'. Result: ERR(500)`. |
| `HealthCheck.ExampleHostErrorLine` | src/main.rs:28 | A transport error for `http://down.test/` prints `The 'http://down.test/' host error`. |
| `HealthCheck.Trace` | src/main.rs:18-32 | The finite loop yields exactly two events per iteration: one report and one sleep. |
| `HealthCheck.TraceAt` | src/main.rs:18-32 | Iteration `i` prints the report line of the `i`-th outcome for the configured host, then sleeps the configured interval. |
| `HealthCheck.TraceAppend` | src/main.rs:18-32 | No state crosses iterations: the trace of two stretches of outcomes run one after the other is the concatenation of their traces. |
| `HealthCheck.RepeatedOutcomeRepeatsLine` | src/main.rs:18-30 | Two iterations that see the same outcome print the same line. |
| `HealthCheck.StartupThenLoop` | src/main.rs:13-22 | When start-up succeeds, every report names the serialized URL and every sleep lasts the parsed interval. |

## Left out

- The HTTP client and the request (`reqwest::blocking::Client`, `send`). This is network I/O. Each request is replaced by its abstract outcome: a transport error, or a response with a status code in 100..999 (the range of the `http` crate's `StatusCode`).
- `thread::sleep` and the endless `loop`. Timing and divergence are not modelled. The model covers any finite number of iterations, and each sleep is an event carrying its duration.
- `env::args`, `println!` and `process::exit(1)` in `main`. These are process plumbing. The trailing newline and the stdout buffering of `println!` are not modelled.
- The internals of URL parsing and serialization in the `url` crate. They are parameters (`Config.UrlApi`), with no canonicalisation rule assumed. So, for example, rejecting a URL without a scheme is not proved.
- IntParse.ParseU64: states the `ParseIntError` kind only for the empty text (`Empty`), a lone sign or a non-digit first character (`InvalidDigit`), and an all-digit text that is too large (`PosOverflow`). For other invalid texts, such as `12a` or a non-digit after an overflowing prefix, it states only that parsing fails and that `InvalidDigit` implies a bad character. The scan reports whichever problem comes first, left to right, as the standard library does. `Configuration::create` discards the kind anyway.
