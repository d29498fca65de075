/** Start-up validation: `Configuration::create` turns the process arguments into
    the interval and the canonical host URL, or into one fixed error message. */
module Config {
  import opened Wrappers
  import opened Decimal
  import opened IntParse

  /** The URL library as the validator uses it, left abstract: `parse` is
      `Url::parse` (None when the text is not a valid URL) and `serialize` is the
      `to_string` of a parsed URL. Nothing is assumed about either. */
  datatype UrlApi<!U> = UrlApi(parse: string -> Option<U>, serialize: U -> string)

  /** The validated settings the check loop reads. */
  datatype Configuration = Configuration(interval: u64, host: string)

  const ARG_COUNT_ERROR := "You must pass 2 arguments: interval and hostname"
  const INTERVAL_ERROR := "Interval is not a number."
  const URL_ERROR := "URL parsing error. Hostname is not valid"

  /** Three checks in a fixed order: argument count, then the interval, then the URL;
      the first that fails decides the message. */
  function Create<U>(args: seq<string>, url: UrlApi<U>): (r: Result<Configuration, string>)
    ensures |args| != 3 ==> r == Failure(ARG_COUNT_ERROR)
    ensures |args| == 3 && !ValidU64Text(args[1]) ==> r == Failure(INTERVAL_ERROR)
    ensures |args| == 3 && ValidU64Text(args[1]) && url.parse(args[2]).None?
      ==> r == Failure(URL_ERROR)
    ensures r.Success? <==> |args| == 3 && ValidU64Text(args[1]) && url.parse(args[2]).Some?
    ensures r.Success? ==>
      && r.value.interval as int == DecValue(Unsigned(args[1]))
      && r.value.host == url.serialize(url.parse(args[2]).value)
  {
    if |args| != 3 then Failure(ARG_COUNT_ERROR)
    else
      match ParseU64(args[1])
      case Failure(_) => Failure(INTERVAL_ERROR)
      case Success(interval) =>
        match url.parse(args[2])
        case None => Failure(URL_ERROR)
        case Some(u) => Success(Configuration(interval, url.serialize(u)))
  }

  /** The three messages differ, so the message names the check that failed. */
  lemma MessagesDistinct()
    ensures ARG_COUNT_ERROR != INTERVAL_ERROR
    ensures ARG_COUNT_ERROR != URL_ERROR
    ensures INTERVAL_ERROR != URL_ERROR
  {
    assert |ARG_COUNT_ERROR| == 48 && |INTERVAL_ERROR| == 25 && |URL_ERROR| == 40;
  }

  /** The first token (the binary's name) is counted but never read. */
  lemma ProgramNameIgnored<U>(args: seq<string>, args': seq<string>, url: UrlApi<U>)
    requires |args| == |args'| && |args| > 0 && args[1..] == args'[1..]
    ensures Create(args, url) == Create(args', url)
  {
    if |args| == 3 {
      assert args[1] == args[1..][0] == args'[1];
      assert args[2] == args[1..][1] == args'[2];
    }
  }

  /** An interval written in decimal (with or without a `+`) is read back exactly,
      up to 2^64 - 1, whatever URL follows, as long as the URL parses. */
  lemma IntervalRoundTrip<U>(name: string, n: nat, host: string, url: UrlApi<U>)
    requires n <= U64_MAX && url.parse(host).Some?
    ensures Create([name, NatToString(n), host], url)
      == Success(Configuration(n as u64, url.serialize(url.parse(host).value)))
    ensures Create([name, "+" + NatToString(n), host], url)
      == Success(Configuration(n as u64, url.serialize(url.parse(host).value)))
  {
    ParseRendering(n);
  }

  /** An interval of 2^64 or more is an interval error, even when the URL is bad too. */
  lemma IntervalOverflowRejected<U>(name: string, n: nat, host: string, url: UrlApi<U>)
    requires n > U64_MAX
    ensures Create([name, NatToString(n), host], url) == Failure(INTERVAL_ERROR)
  {
  }

  /** A negative interval is an interval error. */
  lemma NegativeIntervalRejected<U>(name: string, n: nat, host: string, url: UrlApi<U>)
    ensures Create([name, "-" + NatToString(n), host], url) == Failure(INTERVAL_ERROR)
  {
    ParseRejectsMinus("-" + NatToString(n), 0);
  }

  /** The invocation `prog 5 http://example.com` yields interval 5 and
      the parser's serialization of the URL. */
  lemma ExampleInvocation<U>(url: UrlApi<U>)
    requires url.parse("http://example.com").Some?
    ensures Create(["prog", "5", "http://example.com"], url)
      == Success(Configuration(5, url.serialize(url.parse("http://example.com").value)))
  {
    assert DecValue("5") == 5;
  }
}
