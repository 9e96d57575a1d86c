/**
 * StartupRunner.run: ask the generate endpoint for a webhook URL and an
 * access token, then submit the fixed SQL answer to that webhook with the
 * token as a Bearer credential. Every gate that fails ends the run without
 * a submission.
 *
 * Decide is the whole decision as one function of what the run receives;
 * RunGates takes run's steps in the same order, with its early returns;
 * Run wraps RunGates in the two POSTs and records the requests it issues.
 */
module Startup {
  import opened Wrappers
  import opened Strings
  import opened Json

  /** The injected configuration (app.name, app.regNo, app.email,
      bfh.baseGenerateUrl, fallback.finalQuery, the last defaulting to ""). */
  datatype Config = Config(
    name: string,
    regNo: string,
    email: string,
    generateUrl: string,
    fallbackFinalQuery: string)

  /** What a POST yields before error handling. */
  datatype Reply = Delivered(body: string) | NoBody | TransportError

  /** bodyToMono(String).onErrorResume(-> empty).block(): a failed call and a
      call without a body both come back as null. */
  function Received(reply: Reply): (s: Option<string>)
    ensures s.Some? <==> reply.Delivered?
    ensures s.Some? ==> s.value == reply.body
  {
    match reply
    case Delivered(body) => Some(body)
    case NoBody => None
    case TransportError => None
  }

  /** The request body of the generate call. */
  function GenerateBody(name: string, regNo: string, email: string): (b: Fields)
    ensures Names(b) == ["name", "regNo", "email"]
    ensures Get(b, "name") == Some(name)
    ensures Get(b, "regNo") == Some(regNo)
    ensures Get(b, "email") == Some(email)
  {
    var withName := Put([], "name", name);
    assert withName == [("name", name)];
    var withRegNo := Put(withName, "regNo", regNo);
    assert withRegNo == [("name", name), ("regNo", regNo)];
    assert withRegNo[1..] == [("regNo", regNo)];
    assert Put([("regNo", regNo)], "email", email) == [("regNo", regNo), ("email", email)];
    var body := Put(withRegNo, "email", email);
    assert body == [("name", name), ("regNo", regNo), ("email", email)];
    body
  }

  /** The request body of the submission. */
  function SubmitBody(finalQuery: string): (b: Fields)
    ensures Names(b) == ["finalQuery"]
    ensures Get(b, "finalQuery") == Some(finalQuery)
  {
    Put([], "finalQuery", finalQuery)
  }

  /** The webhook URL as read: "webhook", or "webHook" when that is null. */
  function Webhook(texts: map<string, Option<string>>): (r: Option<string>)
    ensures r == FirstNonNull(texts, ["webhook", "webHook"])
  {
    OrElseIsFirstNonNull(texts, "webhook", "webHook");
    OrElse(TextAt(texts, "webhook"), TextAt(texts, "webHook"))
  }

  /** The access token as read: "accessToken", or "token" when that is null. */
  function AccessToken(texts: map<string, Option<string>>): (r: Option<string>)
    ensures r == FirstNonNull(texts, ["accessToken", "token"])
  {
    OrElseIsFirstNonNull(texts, "accessToken", "token");
    OrElse(TextAt(texts, "accessToken"), TextAt(texts, "token"))
  }

  /** The query to submit: the solver's answer when it has text, else the
      configured fallback when that has text, else none. */
  function ChooseQuery(solverQuery: string, fallbackQuery: string): (q: Option<string>)
    ensures q.Some? <==> HasText(Some(solverQuery)) || HasText(Some(fallbackQuery))
    ensures q.Some? ==> HasText(q)
    ensures q.Some? ==> q.value == solverQuery || q.value == fallbackQuery
    ensures HasText(Some(solverQuery)) ==> q == Some(solverQuery)
  {
    var finalQuery := if HasText(Some(solverQuery)) then solverQuery else fallbackQuery;
    if HasText(Some(finalQuery)) then Some(finalQuery) else None
  }

  datatype AbortReason =
    | EmptyResponse       // the generate call returned nothing with text
    | MissingCredentials  // the webhook URL or the access token has no text
    | NoQuery             // neither the solver's query nor the fallback has text

  /** The submission: target URL, Authorization header value, JSON body. */
  datatype Submission = Submission(url: string, authorization: string, body: Fields)

  datatype Outcome =
    | Aborted(reason: AbortReason)
    | ParseFailed                  // readTree threw; the exception leaves run
    | Submitted(submission: Submission)

  /** The gate-and-extract decision of run, from the generate result, what
      readTree made of it (consulted only once the result has text) and the
      two candidate queries. */
  function Decide(response: Option<string>, parsed: Parsed, solverQuery: string, fallbackQuery: string): (o: Outcome)
    ensures !HasText(response) ==> o == Aborted(EmptyResponse)
    ensures o.ParseFailed? <==> HasText(response) && parsed.Malformed?
  {
    if !HasText(response) then Aborted(EmptyResponse)
    else match parsed
      case Malformed => ParseFailed
      case Tree(texts) =>
        var webhookUrl := Webhook(texts);
        var accessToken := AccessToken(texts);
        if !HasText(webhookUrl) || !HasText(accessToken) then Aborted(MissingCredentials)
        else
          match ChooseQuery(solverQuery, fallbackQuery)
          case None => Aborted(NoQuery)
          case Some(finalQuery) =>
            Submitted(Submission(Trim(webhookUrl.value), "Bearer " + Trim(accessToken.value), SubmitBody(finalQuery)))
  }

  /** A POST the run issues: URI, Authorization header if any, JSON body. */
  datatype Post = Post(uri: string, authorization: Option<string>, body: Fields)

  /** The generate request: to the trimmed generate URL, with the identity body. */
  function GeneratePost(config: Config): Post {
    Post(Trim(config.generateUrl), None, GenerateBody(config.name, config.regNo, config.email))
  }

  /** The submission request. */
  function SubmitPost(s: Submission): Post {
    Post(s.url, Some(s.authorization), s.body)
  }

  /** The gates of StartupRunner.run (StartupRunner.java:65-97), step by step: each failing gate
      returns at once; a passing run ends with the submission to make. */
  method RunGates(genRespStr: Option<string>, parsed: Parsed, solverQuery: string, fallbackFinalQuery: string)
    returns (outcome: Outcome)
    ensures outcome == Decide(genRespStr, parsed, solverQuery, fallbackFinalQuery)
  {
    if !HasText(genRespStr) {
      return Aborted(EmptyResponse);
    }

    if parsed.Malformed? {
      return ParseFailed;
    }
    var genResp := parsed.texts;
    var webhookUrl := OrElse(TextAt(genResp, "webhook"), TextAt(genResp, "webHook"));
    var accessToken := OrElse(TextAt(genResp, "accessToken"), TextAt(genResp, "token"));

    if !HasText(webhookUrl) || !HasText(accessToken) {
      return Aborted(MissingCredentials);
    }

    var url := Trim(webhookUrl.value);
    var token := Trim(accessToken.value);

    var finalQuery := solverQuery;
    if !HasText(Some(finalQuery)) {
      finalQuery := fallbackFinalQuery;
    }

    if !HasText(Some(finalQuery)) {
      return Aborted(NoQuery);
    }

    outcome := Submitted(Submission(url, "Bearer " + token, SubmitBody(finalQuery)));
  }

  /** run as a whole: the generate POST, the gates, and the submission POST
      when every gate has passed. The replies of the two POSTs, what readTree
      makes of the first, and the answer SQLSolver returns are inputs (the
      program passes SqlSolver.SolveHighestSalaryNotOnFirstDay()); the result
      lists the POSTs issued, in order, and the submission response that run
      only logs. */
  method Run(config: Config, solverQuery: string, generateReply: Reply, parsed: Parsed, submitReply: Reply)
    returns (outcome: Outcome, posts: seq<Post>, submitResponse: Option<string>)
    ensures outcome == Decide(Received(generateReply), parsed, solverQuery, config.fallbackFinalQuery)
    ensures 1 <= |posts| <= 2 && posts[0] == GeneratePost(config)
    ensures |posts| == 2 <==> outcome.Submitted?
    ensures outcome.Submitted? ==> posts[1] == SubmitPost(outcome.submission)
    ensures submitResponse == if outcome.Submitted? then Received(submitReply) else None
  {
    posts := [GeneratePost(config)];
    var genRespStr := Received(generateReply);
    outcome := RunGates(genRespStr, parsed, solverQuery, config.fallbackFinalQuery);
    submitResponse := None;
    if outcome.Submitted? {
      posts := posts + [SubmitPost(outcome.submission)];
      submitResponse := Received(submitReply);
    }
  }
}
