/**
 * What each of the dashboard's requests sends and what its `try` block
 * makes of the `fetch` outcome: the value it goes on with, or the message
 * of the error its `catch` receives.
 */
module Calls {
  import opened Wrappers
  import opened Text
  import opened Entities

  /** The identity every create request carries. */
  const UserId: string := "dashboard-user"

  /** The initial contents of the file-id field. */
  const DefaultFileIds: string := "10000, 20000, 30000"

  /** The file id the error-tracking test request sends. */
  const SentryTestFileId: int := 70000

  /** The log message used when the test reply carries no (or an empty) message. */
  const SentryTestDefaultMessage: string := "Sentry test error triggered"

  /**
   * `fileIds.split(",").map(id => parseInt(id.trim(), 10))`: one entry per
   * comma-separated token, in order, `None` standing for `NaN`.
   */
  function ParseFileIds(input: string): (ids: seq<Option<int>>)
    ensures |ids| == Count(input, ',') + 1
  {
    var parts := Split(input, ',');
    seq(|parts|, i requires 0 <= i < |parts| => ParseInt(Trim(parts[i])))
  }

  /**
   * The ids of a comma-joined list of comma-free tokens are the parses of
   * the trimmed tokens, position by position; a token that is not a number
   * stays in place as `NaN`.
   */
  lemma FileIdsByToken(tokens: seq<string>)
    requires |tokens| >= 1
    requires forall i :: 0 <= i < |tokens| ==> ',' !in tokens[i]
    ensures |ParseFileIds(Join(tokens, ','))| == |tokens|
    ensures forall i :: 0 <= i < |tokens| ==> ParseFileIds(Join(tokens, ','))[i] == ParseInt(Trim(tokens[i]))
  {
    SplitJoin(tokens, ',');
  }

  /** The try block of `fetchHealth`: the decoded status, or the error it throws. */
  function HealthCheck(f: Fetch<HealthStatus>): (r: Result<HealthStatus>)
    ensures r.Success? <==> f.Responded? && IsOk(f.status) && f.body.Parsed?
    ensures r.Success? ==> r.value == f.body.value
    ensures f.NetworkError? ==> r == Failure(f.reason)
    ensures f.Responded? && IsOk(f.status) && f.body.Malformed? ==> r == Failure(f.body.reason)
  {
    match f
    case NetworkError(reason) => Failure(reason)
    case Responded(status, _, body) =>
      if !IsOk(status) then Failure("HTTP " + NatToString(status))
      else match body
        case Malformed(reason) => Failure(reason)
        case Parsed(data) => Success(data)
  }

  /** The try block of `createExportJob` up to the reply: the decoded reply, or the error it throws. */
  function CreateCall(f: Fetch<CreateReply>): (r: Result<CreateReply>)
    ensures r.Success? <==> f.Responded? && IsOk(f.status) && f.body.Parsed?
    ensures r.Success? ==> r.value == f.body.value
    ensures f.NetworkError? ==> r == Failure(f.reason)
    ensures f.Responded? && IsOk(f.status) && f.body.Malformed? ==> r == Failure(f.body.reason)
  {
    match f
    case NetworkError(reason) => Failure(reason)
    case Responded(status, statusText, body) =>
      if !IsOk(status) then Failure("HTTP " + NatToString(status) + ": " + statusText)
      else match body
        case Malformed(reason) => Failure(reason)
        case Parsed(data) => Success(data)
  }

  /**
   * The message `triggerSentryTest` logs: the reply's message when it is a
   * non-empty string, the default when it is missing or empty, and
   * "Sentry test failed: " with the error when the call or the decoding
   * throws. The response status is never looked at.
   */
  function CheckMessage(f: Fetch<CheckReply>): (m: string)
    ensures f.NetworkError? ==> m == "Sentry test failed: " + f.reason
    ensures f.Responded? && f.body.Malformed? ==> m == "Sentry test failed: " + f.body.reason
    ensures f.Responded? && f.body.Parsed? && f.body.value.message.Some? && f.body.value.message.value != "" ==>
              m == f.body.value.message.value
    ensures f.Responded? && f.body.Parsed? && (f.body.value.message.None? || f.body.value.message.value == "") ==>
              m == SentryTestDefaultMessage
  {
    match f
    case NetworkError(reason) => "Sentry test failed: " + reason
    case Responded(_, _, body) =>
      match body
      case Malformed(reason) => "Sentry test failed: " + reason
      case Parsed(CheckReply(message)) =>
        if message.Some? && message.value != "" then message.value else SentryTestDefaultMessage
  }

  /** The logged message depends on the reply body alone, not on the HTTP status. */
  lemma CheckMessageIgnoresStatus(s1: nat, t1: string, s2: nat, t2: string, body: Body<CheckReply>)
    ensures CheckMessage(Responded(s1, t1, body)) == CheckMessage(Responded(s2, t2, body))
  {
  }

  /**
   * A non-ok health response fails with a message carrying the status code,
   * whatever its body, and the code parses back out of it.
   */
  lemma HttpMessageCarriesStatus(status: nat, statusText: string, body: Body<HealthStatus>)
    requires !IsOk(status)
    ensures HealthCheck(Responded(status, statusText, body)).error == "HTTP " + NatToString(status)
    ensures ParseInt(NatToString(status)) == Some(status)
  {
    NatToStringRoundTrip(status);
  }

  /**
   * A non-ok create response fails with a message carrying the status code
   * and the status text, whatever its body.
   */
  lemma CreateMessageCarriesStatus(status: nat, statusText: string, body: Body<CreateReply>)
    requires !IsOk(status)
    ensures CreateCall(Responded(status, statusText, body)).error == "HTTP " + NatToString(status) + ": " + statusText
    ensures ParseInt(NatToString(status)) == Some(status)
  {
    NatToStringRoundTrip(status);
  }

  /** The example input with a non-numeric token in the middle. */
  lemma MalformedTokenStaysInPlace(input: string)
    requires input == "10000, abc, 30000"
    ensures |ParseFileIds(input)| == 3
    ensures ParseFileIds(input)[0] == Some(10000)
    ensures ParseFileIds(input)[1] == None
    ensures ParseFileIds(input)[2] == Some(30000)
  {
    var tokens := ExampleTokens(input);
    ExampleIds(tokens);
  }

  lemma ExampleTokens(input: string) returns (tokens: seq<string>)
    requires input == "10000, abc, 30000"
    ensures |tokens| == 3
    ensures tokens[0] == "10000" && tokens[1] == " abc" && tokens[2] == " 30000"
    ensures Join(tokens, ',') == input
  {
    tokens := ["10000", " abc", " 30000"];
    assert Join(tokens[2..], ',') == " 30000";
    assert Join(tokens[1..], ',') == " abc" + [','] + " 30000";
    assert Join(tokens, ',') == "10000" + [','] + " abc, 30000";
    assert " abc" + [','] + " 30000" == " abc, 30000";
    assert "10000" + [','] + " abc, 30000" == "10000, abc, 30000";
  }

  lemma ExampleIds(tokens: seq<string>)
    requires |tokens| == 3
    requires tokens[0] == "10000" && tokens[1] == " abc" && tokens[2] == " 30000"
    ensures |ParseFileIds(Join(tokens, ','))| == 3
    ensures ParseFileIds(Join(tokens, ','))[0] == Some(10000)
    ensures ParseFileIds(Join(tokens, ','))[1] == None
    ensures ParseFileIds(Join(tokens, ','))[2] == Some(30000)
  {
    ExampleHasNoCommas(tokens);
    ExampleNumber(tokens, 0, [], "10000", 10000);
    ExampleNumber(tokens, 2, " ", "30000", 30000);
    NotANumberAt(tokens, 1);
  }

  lemma ExampleHasNoCommas(tokens: seq<string>)
    requires |tokens| == 3
    requires tokens[0] == "10000" && tokens[1] == " abc" && tokens[2] == " 30000"
    ensures forall k :: 0 <= k < |tokens| ==> ',' !in tokens[k]
  {
  }

  lemma ExampleNumber(tokens: seq<string>, i: nat, lead: string, ds: string, n: nat)
    requires i < |tokens|
    requires forall k :: 0 <= k < |tokens| ==> ',' !in tokens[k]
    requires lead == "" || lead == " "
    requires (ds == "10000" && n == 10000) || (ds == "30000" && n == 30000)
    requires tokens[i] == lead + ds
    ensures |ParseFileIds(Join(tokens, ','))| == |tokens|
    ensures ParseFileIds(Join(tokens, ','))[i] == Some(n)
  {
    assert AllDigits(ds);
    ExampleDigits(ds, n);
    NumberAt(tokens, i, lead, ds);
  }

  lemma NumberAt(tokens: seq<string>, i: nat, lead: string, ds: string)
    requires i < |tokens|
    requires forall k :: 0 <= k < |tokens| ==> ',' !in tokens[k]
    requires Blank(lead) && ds != [] && AllDigits(ds) && tokens[i] == lead + ds
    ensures |ParseFileIds(Join(tokens, ','))| == |tokens|
    ensures ParseFileIds(Join(tokens, ','))[i] == Some(DigitsValue(ds))
  {
    FileIdsByToken(tokens);
    NumberToken(lead, ds);
  }

  lemma ExampleDigits(ds: string, n: nat)
    requires (ds == "10000" && n == 10000) || (ds == "30000" && n == 30000)
    ensures AllDigits(ds) && DigitsValue(ds) == n
  {
    var p1 := [DigitChar(n / 10000)];
    assert DigitsValue(p1) == n / 10000;
    var p2 := AppendZero(p1);
    var p3 := AppendZero(p2);
    var p4 := AppendZero(p3);
    var p5 := AppendZero(p4);
    assert p5 == ds;
  }

  lemma AppendZero(p: string) returns (q: string)
    requires AllDigits(p)
    ensures q == p + "0" && AllDigits(q)
    ensures DigitsValue(q) == DigitsValue(p) * 10
  {
    q := p + "0";
    assert q[..|q| - 1] == p;
  }

  lemma NotANumberAt(tokens: seq<string>, i: nat)
    requires i < |tokens|
    requires forall k :: 0 <= k < |tokens| ==> ',' !in tokens[k]
    requires tokens[i] == " abc"
    ensures |ParseFileIds(Join(tokens, ','))| == |tokens|
    ensures ParseFileIds(Join(tokens, ','))[i] == None
  {
    FileIdsByToken(tokens);
    AbcToken(tokens[i]);
  }

  lemma AbcToken(t: string)
    requires t == " abc"
    ensures ParseInt(Trim(t)) == None
  {
    var u := "abc";
    assert TrimStart(t) == u;
    assert TrimEnd(u) == u;
    ParseIntRejects([], NoSign, u);
    assert [] + NoSign.Text() + u == u;
  }

  /** A token made of whitespace and then digits parses to the value of the digits. */
  lemma NumberToken(lead: string, ds: string)
    requires Blank(lead) && ds != [] && AllDigits(ds)
    ensures ParseInt(Trim(lead + ds)) == Some(DigitsValue(ds))
  {
    TrimOfDigits(lead, ds);
    ParseIntOfDigits(ds);
  }

  lemma TrimOfDigits(lead: string, ds: string)
    requires Blank(lead) && ds != [] && AllDigits(ds)
    ensures Trim(lead + ds) == ds
  {
    assert !IsWhitespace(ds[0]);
    TrimStartOfNonBlank(lead, ds);
    assert !IsWhitespace(ds[|ds| - 1]);
    assert TrimEnd(ds) == ds;
  }

  lemma ParseIntOfDigits(ds: string)
    requires ds != [] && AllDigits(ds)
    ensures ParseInt(ds) == Some(DigitsValue(ds))
  {
    ParseIntAccepts([], NoSign, ds, []);
    assert [] + NoSign.Text() + ds + [] == ds;
  }
}
