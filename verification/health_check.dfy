/** The check loop of `healthcheck`: each iteration's outcome is classified and
    reported as one line, then the loop sleeps for the configured interval. The
    HTTP request is replaced by its outcome, and the endless loop by a finite
    sequence of outcomes. */
module HealthCheck {
  import opened Wrappers
  import opened Decimal
  import opened IntParse
  import opened Config

  /** An HTTP status code as the `http` crate admits it: 100 ..= 999. */
  newtype StatusCode = n: int | 100 <= n <= 999 witness 100

  /** What one request produced: no response at all (DNS, connect, TLS, timeout)
      or a response carrying a status code. */
  datatype Outcome = TransportError | Response(status: StatusCode)

  /** The three cases the loop reports. */
  datatype Verdict = Healthy(code: StatusCode) | Unhealthy(code: StatusCode) | HostError

  /** `StatusCode::is_success`: the 2xx class of section 15.3 of RFC 9110. */
  predicate IsSuccess(code: StatusCode) {
    200 <= code <= 299
  }

  /** The 2xx range is exactly the codes whose class digit is 2. */
  lemma SuccessIsClassTwo(code: StatusCode)
    ensures IsSuccess(code) <==> (code as int) / 100 == 2
  {
  }

  /** How the loop sorts what a request produced: exactly one case applies to each outcome,
      and a response keeps its code. */
  function Classify(o: Outcome): (v: Verdict)
    ensures v.HostError? <==> o.TransportError?
    ensures v.Healthy? <==> o.Response? && (o.status as int) / 100 == 2
    ensures v.Unhealthy? <==> o.Response? && (o.status as int) / 100 != 2
    ensures !v.HostError? ==> v.code == o.status
  {
    match o
    case TransportError => HostError
    case Response(code) => if IsSuccess(code) then Healthy(code) else Unhealthy(code)
  }

  const CHECK_HEAD := "Checking '"
  const OK_TAIL := "'. Result: OK("
  const ERR_TAIL := "'. Result: ERR("
  const HOST_ERROR_HEAD := "The '"
  const HOST_ERROR_TAIL := "' host error"

  /** The status code as `{}` prints `as_u16()`; always three digits. */
  function CodeText(code: StatusCode): (t: string)
    ensures |t| == 3 && AllDigits(t) && t[0] != '0'
    ensures DecValue(t) == code as int
  {
    var t := NatToString(code as nat);
    ThreeDigits(code as nat);
    t
  }

  lemma ThreeDigits(n: nat)
    requires 100 <= n <= 999
    ensures |NatToString(n)| == 3
  {
    assert (n / 10) / 10 == n / 100;
    assert |NatToString(n / 100)| == 1;
    assert |NatToString(n / 10)| == 2;
  }

  /** The one line an iteration prints for `host` and outcome `o`. */
  function ReportLine(host: string, o: Outcome): string {
    match Classify(o)
    case Healthy(code) => CHECK_HEAD + host + OK_TAIL + CodeText(code) + ")"
    case Unhealthy(code) => CHECK_HEAD + host + ERR_TAIL + CodeText(code) + ")"
    case HostError => HOST_ERROR_HEAD + host + HOST_ERROR_TAIL
  }

  predicate IsPrefix(p: string, s: string) {
    |p| <= |s| && s[..|p|] == p
  }

  predicate IsSuffix(p: string, s: string) {
    |p| <= |s| && s[|s| - |p|..] == p
  }

  /** Reads a three-digit status code back from its text. */
  function ParseCode(t: string): (r: Option<StatusCode>)
    ensures r.Some? ==> CodeText(r.value) == t
  {
    if |t| == 3 && AllDigits(t) && t[0] != '0' && 100 <= DecValue(t) <= 999 then
      CanonicalUnique(t);
      Some(DecValue(t) as StatusCode)
    else None
  }

  /** The text between host and code: `OK(` for a success, `ERR(` otherwise. */
  function VerdictTail(code: StatusCode): string {
    if IsSuccess(code) then OK_TAIL else ERR_TAIL
  }

  predicate IsHostErrorLine(line: string) {
    IsPrefix(HOST_ERROR_HEAD, line) && IsSuffix(HOST_ERROR_TAIL, line)
    && |HOST_ERROR_HEAD| + |HOST_ERROR_TAIL| <= |line|
  }

  /** Reads a `Checking ...` line: head, host, verdict text, three-digit code, `)`. */
  function ParseResponseLine(line: string): Option<(string, Outcome)> {
    if IsPrefix(CHECK_HEAD, line) && |CHECK_HEAD| + 4 <= |line| && line[|line| - 1] == ')' then
      var rest := line[|CHECK_HEAD|..|line| - 4];
      match ParseCode(line[|line| - 4..|line| - 1])
      case None => None
      case Some(code) =>
        var tail := VerdictTail(code);
        if IsSuffix(tail, rest) then Some((rest[..|rest| - |tail|], Response(code))) else None
    else None
  }

  /** Recovers host and outcome from a report line: the reading a log consumer
      would apply. */
  function ParseReportLine(line: string): Option<(string, Outcome)> {
    if IsHostErrorLine(line) then
      Some((line[|HOST_ERROR_HEAD|..|line| - |HOST_ERROR_TAIL|], TransportError))
    else ParseResponseLine(line)
  }

  /** Slicing a three-part concatenation at the part boundaries gives the parts back. */
  lemma Split3(p: string, m: string, q: string)
    ensures var s := p + m + q;
      && IsPrefix(p, s) && IsSuffix(q, s) && s[|p|..|s| - |q|] == m
  {
    var s := p + m + q;
    assert s[..|p|] == p;
    assert s[|s| - |q|..] == q;
    assert s[|p|..|s| - |q|] == m;
  }

  /** A string with a known head and tail is head, middle and tail put back together. */
  lemma Join3(p: string, q: string, s: string)
    requires IsPrefix(p, s) && IsSuffix(q, s) && |p| + |q| <= |s|
    ensures s == p + s[|p|..|s| - |q|] + q
  {
    assert s == s[..|p|] + s[|p|..|s| - |q|] + s[|s| - |q|..];
  }

  /** A response line split as head, host and verdict text, code text. */
  lemma ResponseLineShape(host: string, code: StatusCode)
    ensures ReportLine(host, Response(code))
      == CHECK_HEAD + (host + VerdictTail(code)) + (CodeText(code) + ")")
  {
  }

  /** Cutting `head + host + tail + digits + ")"` where the response decoder cuts it
      gives back each part. */
  lemma SplitResponse(head: string, host: string, tail: string, digits: string)
    requires |digits| == 3
    ensures var line := head + (host + tail) + (digits + ")");
      var rest := line[|head|..|line| - 4];
      && IsPrefix(head, line) && |head| + 4 <= |line| && line[|line| - 1] == ')'
      && line[|line| - 4..|line| - 1] == digits
      && IsSuffix(tail, rest) && rest[..|rest| - |tail|] == host
  {
    var line := head + (host + tail) + (digits + ")");
    var q := digits + ")";
    Split3(head, host + tail, q);
    assert line[|line| - 4..] == q;
    assert line[|line| - 1] == q[3];
    assert line[|line| - 4..|line| - 1] == q[..3];
    var rest := line[|head|..|line| - 4];
    assert rest == host + tail;
    assert rest[|rest| - |tail|..] == tail;
    assert rest[..|rest| - |tail|] == host;
  }

  /** The converse: a line cut where the response decoder cuts it is the
      concatenation of its parts. */
  lemma JoinResponse(line: string, head: string, tail: string)
    requires IsPrefix(head, line) && |head| + 4 <= |line| && line[|line| - 1] == ')'
    requires IsSuffix(tail, line[|head|..|line| - 4])
    ensures var rest := line[|head|..|line| - 4];
      line == head + (rest[..|rest| - |tail|] + tail) + (line[|line| - 4..|line| - 1] + ")")
  {
    var rest := line[|head|..|line| - 4];
    assert rest == rest[..|rest| - |tail|] + tail by {
      assert rest == rest[..|rest| - |tail|] + rest[|rest| - |tail|..];
    }
    assert line[|line| - 4..] == line[|line| - 4..|line| - 1] + ")" by {
      assert line[|line| - 4..] == line[|line| - 4..|line| - 1] + [line[|line| - 1]];
    }
    assert line == line[..|head|] + rest + line[|line| - 4..];
  }

  /** A response line is not read as a host-error line, and the response decoder
      gives back its host and code. */
  lemma ResponseLineDecodes(host: string, code: StatusCode)
    ensures !IsHostErrorLine(ReportLine(host, Response(code)))
    ensures ParseResponseLine(ReportLine(host, Response(code))) == Some((host, Response(code)))
  {
    var line := ReportLine(host, Response(code));
    var digits := CodeText(code);
    ResponseLineShape(host, code);
    SplitResponse(CHECK_HEAD, host, VerdictTail(code), digits);
    assert line[0] == CHECK_HEAD[0];
    assert ParseCode(digits) == Some(code);
  }

  /** Every report line decodes back to the host and outcome that produced it. */
  lemma ReportLineDecodes(host: string, o: Outcome)
    ensures ParseReportLine(ReportLine(host, o)) == Some((host, o))
  {
    match o
    case TransportError =>
      Split3(HOST_ERROR_HEAD, host, HOST_ERROR_TAIL);
    case Response(code) =>
      ResponseLineDecodes(host, code);
  }

  /** A decoded `Checking ...` line is the report line of what it decodes to. */
  lemma ParseResponseLineSound(line: string)
    requires ParseResponseLine(line).Some?
    ensures ReportLine(ParseResponseLine(line).value.0, ParseResponseLine(line).value.1) == line
  {
    var code := ParseResponseLine(line).value.1.status;
    assert CodeText(code) == line[|line| - 4..|line| - 1];
    JoinResponse(line, CHECK_HEAD, VerdictTail(code));
    ResponseLineShape(ParseResponseLine(line).value.0, code);
  }

  /** Only report lines decode: a decoded line is exactly the line its host and
      outcome produce. */
  lemma ParseReportLineSound(line: string)
    requires ParseReportLine(line).Some?
    ensures ReportLine(ParseReportLine(line).value.0, ParseReportLine(line).value.1) == line
  {
    if IsHostErrorLine(line) {
      Join3(HOST_ERROR_HEAD, HOST_ERROR_TAIL, line);
    } else {
      ParseResponseLineSound(line);
    }
  }

  /** Different hosts or outcomes never print the same line. */
  lemma ReportLineInjective(h1: string, o1: Outcome, h2: string, o2: Outcome)
    requires ReportLine(h1, o1) == ReportLine(h2, o2)
    ensures h1 == h2 && o1 == o2
  {
    ReportLineDecodes(h1, o1);
    ReportLineDecodes(h2, o2);
  }

  /** The three line formats, for every host and code: a 2xx response prints
      `Checking '<host>'. Result: OK(<code>)`, any other response prints
      `Checking '<host>'. Result: ERR(<code>)`, and a transport error prints
      `The '<host>' host error`. */
  lemma ReportLineFormat(host: string, o: Outcome)
    ensures o.Response? && IsSuccess(o.status) ==>
      ReportLine(host, o) == "Checking '" + host + "'. Result: OK(" + CodeText(o.status) + ")"
    ensures o.Response? && !IsSuccess(o.status) ==>
      ReportLine(host, o) == "Checking '" + host + "'. Result: ERR(" + CodeText(o.status) + ")"
    ensures o.TransportError? ==> ReportLine(host, o) == "The '" + host + "' host error"
  {
  }

  /** The code text of two sample codes, digit by digit. */
  lemma SampleCodeTexts()
    ensures CodeText(200) == "200"
    ensures CodeText(500) == "500"
  {
    assert DigitChar(0) == '0' && DigitChar(2) == '2' && DigitChar(5) == '5';
    assert NatToString(200) == NatToString(20) + [DigitChar(0)];
    assert NatToString(20) == NatToString(2) + [DigitChar(0)];
    assert NatToString(500) == NatToString(50) + [DigitChar(0)];
    assert NatToString(50) == NatToString(5) + [DigitChar(0)];
  }

  /** The lines printed for three sample hosts, spelled with the format constants above. */
  lemma ExampleHealthyLine()
    ensures ReportLine("http://ok.test/", Response(200))
      == CHECK_HEAD + "http://ok.test/" + OK_TAIL + "200" + ")"
  {
    SampleCodeTexts();
    assert IsSuccess(200);
  }

  lemma ExampleUnhealthyLine()
    ensures ReportLine("http://fail.test/", Response(500))
      == CHECK_HEAD + "http://fail.test/" + ERR_TAIL + "500" + ")"
  {
    SampleCodeTexts();
    assert !IsSuccess(500);
  }

  lemma ExampleHostErrorLine()
    ensures ReportLine("http://down.test/", TransportError)
      == HOST_ERROR_HEAD + "http://down.test/" + HOST_ERROR_TAIL
  {
  }

  /** What the loop does, in order. */
  datatype Event = Report(line: string) | Sleep(seconds: u64)

  /** One pass of the loop body: report, then sleep. */
  function Iteration(cfg: Configuration, o: Outcome): seq<Event> {
    [Report(ReportLine(cfg.host, o)), Sleep(cfg.interval)]
  }

  /** The loop over finitely many iterations: for each outcome, print its line, then
      sleep `interval` seconds. The configuration is only read. */
  function Trace(cfg: Configuration, outcomes: seq<Outcome>): (t: seq<Event>)
    ensures |t| == 2 * |outcomes|
    decreases |outcomes|
  {
    if |outcomes| == 0 then []
    else
      var last := |outcomes| - 1;
      Trace(cfg, outcomes[..last]) + Iteration(cfg, outcomes[last])
  }

  /** Iteration `i` prints the line of the `i`-th outcome for the configured host,
      then sleeps the configured interval; nothing else appears in the trace. */
  lemma {:induction false} TraceAt(cfg: Configuration, outcomes: seq<Outcome>, i: nat)
    requires i < |outcomes|
    ensures Trace(cfg, outcomes)[2 * i] == Report(ReportLine(cfg.host, outcomes[i]))
    ensures Trace(cfg, outcomes)[2 * i + 1] == Sleep(cfg.interval)
    decreases |outcomes|
  {
    var last := |outcomes| - 1;
    var init := outcomes[..last];
    assert Trace(cfg, outcomes) == Trace(cfg, init) + Iteration(cfg, outcomes[last]);
    if i < last {
      TraceAt(cfg, init, i);
      assert init[i] == outcomes[i];
    }
  }

  /** No state crosses iterations: running two stretches of outcomes one after the
      other prints what running each alone prints. */
  lemma {:induction false} TraceAppend(cfg: Configuration, a: seq<Outcome>, b: seq<Outcome>)
    ensures Trace(cfg, a + b) == Trace(cfg, a) + Trace(cfg, b)
    decreases |b|
  {
    if |b| == 0 {
      assert a + b == a;
    } else {
      var b' := b[..|b| - 1];
      var step := Iteration(cfg, b[|b| - 1]);
      assert (a + b)[..|a + b| - 1] == a + b';
      assert (a + b)[|a + b| - 1] == b[|b| - 1];
      assert Trace(cfg, a + b) == Trace(cfg, a + b') + step;
      assert Trace(cfg, b) == Trace(cfg, b') + step;
      TraceAppend(cfg, a, b');
      assert Trace(cfg, a) + Trace(cfg, b') + step == Trace(cfg, a) + (Trace(cfg, b') + step);
    }
  }

  /** Two iterations that see the same outcome print the same line. */
  lemma RepeatedOutcomeRepeatsLine(cfg: Configuration, outcomes: seq<Outcome>, i: nat, j: nat)
    requires i < |outcomes| && j < |outcomes| && outcomes[i] == outcomes[j]
    ensures Trace(cfg, outcomes)[2 * i] == Trace(cfg, outcomes)[2 * j]
  {
    TraceAt(cfg, outcomes, i);
    TraceAt(cfg, outcomes, j);
  }

  /** The trace of a configuration produced at start-up reports the canonical URL
      on every line and sleeps the parsed interval. */
  lemma StartupThenLoop<U>(args: seq<string>, url: UrlApi<U>, outcomes: seq<Outcome>, i: nat)
    requires Create(args, url).Success? && i < |outcomes|
    ensures var t := Trace(Create(args, url).value, outcomes);
      && t[2 * i] == Report(ReportLine(url.serialize(url.parse(args[2]).value), outcomes[i]))
      && t[2 * i + 1].Sleep? && t[2 * i + 1].seconds as int == DecValue(Unsigned(args[1]))
  {
    TraceAt(Create(args, url).value, outcomes, i);
  }
}
