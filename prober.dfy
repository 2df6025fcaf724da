/**
 * The HTTP prober, `test_shellshock`: one crafted GET per URL, whose answer
 * is classified by looking for the sentinel the payload makes a vulnerable
 * CGI shell print. The request itself is not modelled: its result is an input.
 */
module Prober {
  import opened Wrappers
  import opened Text

  /** The text a vulnerable handler echoes into the response body. */
  const Sentinel := "VULNERABLE"

  /** The `User-Agent` header value sent with every probe. */
  const Payload := "() { :; }; echo; echo; /bin/bash -c 'echo VULNERABLE'"

  /** What `requests.get` gave back: a response, or the text of a `RequestException`. */
  datatype Response =
    | Ok(status: int, body: string)
    | Err(message: string)

  /**
   * The tuple `(url, is_vulnerable, details)`; `verdict` is `None` exactly
   * when the request failed.
   */
  datatype Outcome = Outcome(url: string, verdict: Option<bool>, details: string)

  const StatusCodeLabel := "Status Code: "
  const LengthLabel := ", Content Length: "

  /**
   * The `details` text of a completed exchange. It loses nothing: the
   * status code and the body length can be read back from it.
   */
  function FormatDetails(status: int, length: nat): (d: string)
    ensures ParseDetails(d) == Some((status, length))
  {
    ParseIntToString(status);
    ParseNatToString(length);
    ParseDetailsOfParts(IntToString(status), NatToString(length), status, length);
    StatusCodeLabel + IntToString(status) + LengthLabel + NatToString(length)
  }

  /** Recovers the status code and body length from a `details` text, if it has that shape. */
  function ParseDetails(d: string): Option<(int, nat)> {
    if !IsPrefix(StatusCodeLabel, d) then None
    else
      var rest := d[|StatusCodeLabel|..];
      match IndexOf(rest, ',')
      case None => None
      case Some(k) =>
        var tail := rest[k..];
        if !IsPrefix(LengthLabel, tail) then None
        else
          match (ParseInt(rest[..k]), ParseNat(tail[|LengthLabel|..]))
          case (Some(code), Some(length)) => Some((code, length))
          case _ => None
  }

  /** The first comma after a numeral is the one that follows it. */
  lemma {:induction false} FirstCommaAfter(code: string, rest: string)
    requires forall k | 0 <= k < |code| :: code[k] != ','
    requires rest != [] && rest[0] == ','
    ensures IndexOf(code + rest, ',') == Some(|code|)
    decreases |code|
  {
    if code == [] {
      assert code + rest == rest;
    } else {
      assert (code + rest)[1..] == code[1..] + rest;
      FirstCommaAfter(code[1..], rest);
    }
  }

  lemma ParseDetailsOfParts(code: string, lengthText: string, status: int, length: nat)
    requires ParseInt(code) == Some(status) && ParseNat(lengthText) == Some(length)
    requires forall k | 0 <= k < |code| :: code[k] != ','
    ensures ParseDetails(StatusCodeLabel + code + LengthLabel + lengthText) == Some((status, length))
  {
    var tail := LengthLabel + lengthText;
    var rest := code + tail;
    assert StatusCodeLabel + code + LengthLabel + lengthText == StatusCodeLabel + rest;
    SplitAfterPrefix(StatusCodeLabel, rest);
    FirstCommaAfter(code, tail);
    assert rest[|code|..] == tail;
    assert rest[..|code|] == code;
    SplitAfterPrefix(LengthLabel, lengthText);
  }

  /** Splitting `p + s` after `p` gives back its two parts. */
  lemma SplitAfterPrefix(p: string, s: string)
    ensures IsPrefix(p, p + s)
    ensures (p + s)[..|p|] == p && (p + s)[|p|..] == s
  {
  }

  /**
   * Classifies the answer to the probe of `url`: vulnerable when the body
   * contains the sentinel, with the status code and body length as details;
   * on a transport failure no verdict and the failure's text as details.
   */
  function TestShellshock(url: string, response: Response): (r: Outcome)
    ensures r.url == url
    ensures r.verdict.None? <==> response.Err?
    ensures response.Ok? ==> r.verdict == Some(Occurs(Sentinel, response.body))
    ensures response.Ok? ==> ParseDetails(r.details) == Some((response.status, |response.body|))
    ensures response.Err? ==> r.details == response.message
  {
    match response
    case Ok(status, body) =>
      Outcome(url, Some(Contains(body, Sentinel)), FormatDetails(status, |body|))
    case Err(message) =>
      Outcome(url, None, message)
  }

  /**
   * A server that only reflects the request's `User-Agent` header into its
   * body is reported vulnerable: the payload itself carries the sentinel.
   */
  lemma ReflectedPayloadIsVulnerable(url: string, status: int, before: string, after: string)
    ensures TestShellshock(url, Ok(status, before + Payload + after)).verdict == Some(true)
  {
    assert IsPrefix(Sentinel, Payload[42..]);
    OccursInContext(Sentinel, Payload, before, after);
  }
}
