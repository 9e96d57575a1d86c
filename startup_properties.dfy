/**
 * What the decision of StartupRunner.run guarantees, stated against the
 * inputs it is given: the generate result, the parsed response and the
 * two candidate queries.
 */
module StartupProperties {
  import opened Wrappers
  import opened Strings
  import opened Json
  import opened Startup
  import SqlSolver

  /** A generate call that failed or came back without a body ends the run
      before anything is parsed. */
  lemma FailedGenerateCallAborts(reply: Reply, parsed: Parsed, solverQuery: string, fallbackQuery: string)
    requires !reply.Delivered?
    ensures Decide(Received(reply), parsed, solverQuery, fallbackQuery) == Aborted(EmptyResponse)
  {
  }

  /** A blank body aborts too, whatever readTree would have made of it. */
  lemma BlankResponseIgnoresParse(response: Option<string>, p1: Parsed, p2: Parsed, solverQuery: string, fallbackQuery: string)
    requires !HasText(response)
    ensures Decide(response, p1, solverQuery, fallbackQuery) == Decide(response, p2, solverQuery, fallbackQuery)
  {
  }

  /** Which gate stops the run: the parse error propagates only from a
      response with text, and the credential gate comes before the query gate. */
  lemma GateOrder(response: Option<string>, parsed: Parsed, solverQuery: string, fallbackQuery: string)
    ensures var o := Decide(response, parsed, solverQuery, fallbackQuery);
      && (o == Aborted(EmptyResponse) <==> !HasText(response))
      && (o == ParseFailed <==> HasText(response) && parsed.Malformed?)
      && (o == Aborted(MissingCredentials) <==>
            && HasText(response) && parsed.Tree?
            && (!HasText(FirstNonNull(parsed.texts, ["webhook", "webHook"]))
                || !HasText(FirstNonNull(parsed.texts, ["accessToken", "token"]))))
      && (o == Aborted(NoQuery) <==>
            && HasText(response) && parsed.Tree?
            && HasText(FirstNonNull(parsed.texts, ["webhook", "webHook"]))
            && HasText(FirstNonNull(parsed.texts, ["accessToken", "token"]))
            && !HasText(Some(solverQuery)) && !HasText(Some(fallbackQuery)))
  {
  }

  /** A submission is made exactly when every gate has passed. */
  lemma SubmittedIffAllGatesPass(response: Option<string>, parsed: Parsed, solverQuery: string, fallbackQuery: string)
    ensures Decide(response, parsed, solverQuery, fallbackQuery).Submitted? <==>
      && HasText(response) && parsed.Tree?
      && HasText(FirstNonNull(parsed.texts, ["webhook", "webHook"]))
      && HasText(FirstNonNull(parsed.texts, ["accessToken", "token"]))
      && (HasText(Some(solverQuery)) || HasText(Some(fallbackQuery)))
  {
  }

  /** What a submission carries: the trimmed webhook URL, "Bearer " and the
      trimmed token, and a body whose only field is finalQuery, holding the
      query chosen. */
  lemma SubmissionContents(response: Option<string>, parsed: Parsed, solverQuery: string, fallbackQuery: string)
    ensures var o := Decide(response, parsed, solverQuery, fallbackQuery);
      o.Submitted? ==>
      var s := o.submission;
      && parsed.Tree?
      && s.url == Trim(FirstNonNull(parsed.texts, ["webhook", "webHook"]).value)
      && s.authorization == "Bearer " + Trim(FirstNonNull(parsed.texts, ["accessToken", "token"]).value)
      && Names(s.body) == ["finalQuery"]
      && Get(s.body, "finalQuery") == Some(if HasText(Some(solverQuery)) then solverQuery else fallbackQuery)
  {
  }

  /** A header built from a trimmed token splits back into the Bearer scheme
      and a token with nothing left to trim. */
  lemma BearerHeaderSplits(token: string)
    ensures var header := "Bearer " + Trim(token);
      && |header| >= 7 && header[..7] == "Bearer "
      && header[7..] == Trim(token)
      && Trim(header[7..]) == header[7..]
  {
    TrimIdempotent(token);
    var header := "Bearer " + Trim(token);
    assert header[7..] == Trim(token);
  }

  /** Neither the URL nor the token part of the header has anything left to
      trim, and the header starts with the Bearer scheme. */
  lemma SubmittedValuesAreTrimmed(response: Option<string>, parsed: Parsed, solverQuery: string, fallbackQuery: string)
    ensures var o := Decide(response, parsed, solverQuery, fallbackQuery);
      o.Submitted? ==>
      var s := o.submission;
      && Trim(s.url) == s.url
      && |s.authorization| >= 7 && s.authorization[..7] == "Bearer "
      && Trim(s.authorization[7..]) == s.authorization[7..]
  {
    if Decide(response, parsed, solverQuery, fallbackQuery).Submitted? {
      SubmissionContents(response, parsed, solverQuery, fallbackQuery);
      TrimIdempotent(FirstNonNull(parsed.texts, ["webhook", "webHook"]).value);
      BearerHeaderSplits(FirstNonNull(parsed.texts, ["accessToken", "token"]).value);
    }
  }

  /** The primary spelling wins whenever its lookup is not null ... */
  lemma PrimaryKeyWins(texts: map<string, Option<string>>)
    ensures TextAt(texts, "webhook").Some? ==> Webhook(texts) == TextAt(texts, "webhook")
    ensures TextAt(texts, "accessToken").Some? ==> AccessToken(texts) == TextAt(texts, "accessToken")
  {
    if TextAt(texts, "webhook").Some? {
      FirstNonNullStopsAt(texts, ["webhook", "webHook"], 0);
    }
    if TextAt(texts, "accessToken").Some? {
      FirstNonNullStopsAt(texts, ["accessToken", "token"], 0);
    }
  }

  /** ... and the second spelling is read only when the first is null. */
  lemma SecondKeyOnlyWhenPrimaryNull(texts: map<string, Option<string>>)
    ensures TextAt(texts, "webhook").None? ==> Webhook(texts) == TextAt(texts, "webHook")
    ensures TextAt(texts, "accessToken").None? ==> AccessToken(texts) == TextAt(texts, "token")
  {
    if TextAt(texts, "webhook").None? && TextAt(texts, "webHook").Some? {
      FirstNonNullStopsAt(texts, ["webhook", "webHook"], 1);
    }
    if TextAt(texts, "accessToken").None? && TextAt(texts, "token").Some? {
      FirstNonNullStopsAt(texts, ["accessToken", "token"], 1);
    }
  }

  /** A present but blank primary value is not replaced by the second
      spelling: the run aborts even when that one holds text. */
  lemma BlankPrimaryBlocksFallback(response: Option<string>, texts: map<string, Option<string>>, solverQuery: string, fallbackQuery: string)
    requires HasText(response)
    requires || (TextAt(texts, "webhook").Some? && !HasText(TextAt(texts, "webhook")))
             || (TextAt(texts, "accessToken").Some? && !HasText(TextAt(texts, "accessToken")))
    ensures Decide(response, Tree(texts), solverQuery, fallbackQuery) == Aborted(MissingCredentials)
  {
    PrimaryKeyWins(texts);
  }

  /** A response that uses only the second spellings is read exactly like
      one that carries the same values under the first spellings. */
  lemma SecondSpellingsAgree(response: Option<string>, texts: map<string, Option<string>>, solverQuery: string, fallbackQuery: string)
    requires TextAt(texts, "webhook").None? && TextAt(texts, "accessToken").None?
    ensures var respelled := texts["webhook" := TextAt(texts, "webHook")]["accessToken" := TextAt(texts, "token")];
      Decide(response, Tree(texts), solverQuery, fallbackQuery) == Decide(response, Tree(respelled), solverQuery, fallbackQuery)
  {
    var respelled := texts["webhook" := TextAt(texts, "webHook")]["accessToken" := TextAt(texts, "token")];
    SecondKeyOnlyWhenPrimaryNull(texts);
    assert TextAt(respelled, "webhook") == TextAt(texts, "webHook");
    assert TextAt(respelled, "accessToken") == TextAt(texts, "token");
    assert Webhook(respelled) == Webhook(texts);
    assert AccessToken(respelled) == AccessToken(texts);
  }

  /** A solver query with text makes the fallback irrelevant: it is never
      read and the query gate never stops the run. */
  lemma QueryWithTextMakesFallbackIrrelevant(response: Option<string>, parsed: Parsed, solverQuery: string, fallback1: string, fallback2: string)
    requires HasText(Some(solverQuery))
    ensures Decide(response, parsed, solverQuery, fallback1) == Decide(response, parsed, solverQuery, fallback2)
    ensures Decide(response, parsed, solverQuery, fallback1) != Aborted(NoQuery)
  {
  }

  /** SQLSolver's answer has text, so in the program the fallback query is
      never used. */
  lemma SolverAnswerMakesFallbackIrrelevant(response: Option<string>, parsed: Parsed, fallback1: string, fallback2: string)
    ensures var q := SqlSolver.SolveHighestSalaryNotOnFirstDay();
      && Decide(response, parsed, q, fallback1) == Decide(response, parsed, q, fallback2)
      && Decide(response, parsed, q, fallback1) != Aborted(NoQuery)
  {
    QueryWithTextMakesFallbackIrrelevant(response, parsed, SqlSolver.SolveHighestSalaryNotOnFirstDay(), fallback1, fallback2);
  }

  /** An end-to-end run, for any URL and token: a response whose webhook and
      accessToken carry the values padded with a space on each side leads to
      a submission to the bare URL with the bare token. */
  lemma PaddedValuesScenario(response: Option<string>, url: string, token: string, solverQuery: string, fallbackQuery: string)
    requires HasText(response) && HasText(Some(solverQuery))
    requires HasText(Some(url)) && !IsTrimmable(url[0]) && !IsTrimmable(url[|url| - 1])
    requires HasText(Some(token)) && !IsTrimmable(token[0]) && !IsTrimmable(token[|token| - 1])
    ensures Decide(response, Tree(map["webhook" := Some(" " + url + " "), "accessToken" := Some(" " + token + " ")]),
                   solverQuery, fallbackQuery)
         == Submitted(Submission(url, "Bearer " + token, SubmitBody(solverQuery)))
  {
    var texts := map["webhook" := Some(" " + url + " "), "accessToken" := Some(" " + token + " ")];
    assert Webhook(texts) == Some(" " + url + " ");
    assert AccessToken(texts) == Some(" " + token + " ");
    TrimPadded(url);
    TrimPadded(token);
  }

  /** The text gate runs before trim, and the two tests differ: a URL made
      of a single U+0000 passes the gate and is submitted to as "". */
  lemma GateAdmitsUrlThatTrimsToEmpty(response: Option<string>, token: string, solverQuery: string, fallbackQuery: string)
    requires HasText(response) && HasText(Some(token)) && HasText(Some(solverQuery))
    ensures var texts := map["webhook" := Some("\0"), "accessToken" := Some(token)];
      var o := Decide(response, Tree(texts), solverQuery, fallbackQuery);
      o.Submitted? && o.submission.url == ""
  {
    var texts := map["webhook" := Some("\0"), "accessToken" := Some(token)];
    TextCanTrimToEmpty();
    assert Webhook(texts) == Some("\0");
  }
}
