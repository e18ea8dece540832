/** How the session reads the replies of the login endpoints
    (wechat/wechat.go, lines 437-460 and 514-571) and of the send endpoints,
    as functions of the decoded replies. */
module LoginFlow {
  import opened Wrappers
  import opened Text
  import opened Types
  import opened JsResult
  import JsResultExample

  /** The keys of the uuid reply. */
  const UUIDKey: string := "window.QRLogin.uuid"
  const UUIDCodeKey: string := "window.QRLogin.code"

  /** `fetchuuID`: the uuid, when the reply arrived and its code is `200`. */
  function UUIDReply(reply: Reply<string>): (r: Result<string, Error>)
    ensures r.Err? ==> r.error == NoUUID || r.error.Transport?
  {
    match reply
    case Err(e) => Err(Transport(e))
    case Ok(body) =>
      var wr := Parsed(body);
      if Get(wr, UUIDCodeKey) != WxResultSuccessCode then Err(NoUUID)
      else Ok(Get(wr, UUIDKey))
  }

  /** A reply holding code 200 and a quoted uuid yields that uuid. */
  lemma UUIDFromReply(uuid: string)
    requires WellFormedValue(uuid) && ';' !in uuid
    ensures UUIDReply(Ok(UUIDCodeKey + "=" + "200" + ";" + "" + UUIDKey + "=\"" + uuid + "\";")) == Ok(uuid)
  {
    assert UUIDCodeKey == "window.QRLogin" + ".code";
    assert UUIDKey == "window.QRLogin" + ".uuid";
    TwoAssignmentsParse(UUIDCodeKey, "200", "", UUIDKey, uuid);
  }

  /** `fetchForLogin`: the redirect of a poll whose code is `200`, and the
      empty string otherwise. Its error result is never set (the request's
      error goes to a local variable), so a failed request also yields the
      empty string and no error. */
  function FetchForLogin(reply: Reply<string>): (url: string)
  {
    match reply
    case Err(_) => ""
    case Ok(body) =>
      var result := Parsed(body);
      if Get(result, "window.code") == WxResultSuccessCode then Get(result, "window.redirect_uri") else ""
  }

  /** A successful poll reply hands over its redirect. */
  lemma FetchForLoginRedirect(pre: string, url: string)
    requires forall i :: 0 <= i < |pre| ==> pre[i] in LineCut
    requires WellFormedValue(url) && ';' !in url
    ensures FetchForLogin(Ok("window.code" + "=" + "200" + ";" + pre + "window.redirect_uri" + "=\"" + url + "\";")) == url
  {
    TwoAssignmentsParse("window.code", "200", pre, "window.redirect_uri", url);
  }

  /** The reply of the repository's parser test is such a reply. */
  lemma FetchForLoginExample()
    ensures FetchForLogin(Ok(JsResultExample.ExampleReply)) == JsResultExample.ExampleRedirect
  {
    JsResultExample.ExampleParses();
  }

  /** What can happen while waiting for the scan: a tick of the five-second
      ticker, carrying the reply of the poll it launches, or the end of the
      caller's context. */
  datatype Poll = Tick(reply: Reply<string>) | Done

  /** How the wait ends: it returns, or it is still polling when the given
      events run out (the source loops until one of its two exits). */
  datatype Wait = Returned(r: Outcome<Error>) | Waiting

  /** The redirect and the end of the wait after the events, from the
      redirect `url`: each tick stores its poll's redirect, and a non-empty
      one ends the wait; the end of the context times out. */
  function AfterPolls(url: string, polls: seq<Poll>): (string, Wait)
    decreases |polls|
  {
    if polls == [] then (url, Waiting)
    else
      match polls[0]
      case Done => (url, Returned(Fail(LoginTimeout)))
      case Tick(reply) =>
        var u := FetchForLogin(reply);
        if u != "" then (u, Returned(Pass)) else AfterPolls(u, polls[1..])
  }

  /** The wait succeeds only with a redirect in hand, fails only by timing
      out, and is still going exactly when no event ended it: every event
      was a tick whose poll brought no redirect. */
  lemma {:induction false} AfterPollsOutcome(url: string, polls: seq<Poll>)
    ensures AfterPolls(url, polls).1 == Returned(Pass) ==> AfterPolls(url, polls).0 != ""
    ensures AfterPolls(url, polls).1.Returned? ==> AfterPolls(url, polls).1.r in {Pass, Fail(LoginTimeout)}
    ensures AfterPolls(url, polls).1 == Waiting <==>
              forall i :: 0 <= i < |polls| ==> polls[i].Tick? && FetchForLogin(polls[i].reply) == ""
    decreases |polls|
  {
    if polls != [] && polls[0].Tick? && FetchForLogin(polls[0].reply) == "" {
      AfterPollsOutcome("", polls[1..]);
      assert forall i :: 1 <= i < |polls| ==> polls[i] == polls[1..][i - 1];
    }
  }

  /** A tick whose poll brings a redirect, with no earlier end of the
      context or redirect, ends the wait with that redirect. */
  lemma {:induction false} AfterPollsFirstRedirect(url: string, polls: seq<Poll>, k: nat)
    requires k < |polls| && polls[k].Tick? && FetchForLogin(polls[k].reply) != ""
    requires forall i :: 0 <= i < k ==> polls[i].Tick? && FetchForLogin(polls[i].reply) == ""
    ensures AfterPolls(url, polls) == (FetchForLogin(polls[k].reply), Returned(Pass))
    decreases k
  {
    if k > 0 {
      assert forall i :: 0 <= i < k - 1 ==> polls[1..][i] == polls[i + 1];
      AfterPollsFirstRedirect("", polls[1..], k - 1);
    }
  }

  /** The end of a send: the transport error, else the error of the status
      block the session kept from the init reply (not the reply's own), else
      success. */
  function SendOutcome(reply: Reply<MemberReply>, status: BaseResponse): (r: Outcome<Error>)
    ensures r == Pass <==> reply.Ok? && status.ret == StatusSuccess
  {
    if reply.Err? then Fail(Transport(reply.error))
    else if status.ret != StatusSuccess then Fail(ServerError(status.errMsg))
    else Pass
  }
}
