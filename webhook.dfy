/**
 * Webhook: the entry point that turns one request into a push handler,
 * and the X-Hub-Signature check. The request is passed in as a value
 * (raw body, decoded payload, the two headers) instead of being read
 * from the PHP runtime, and the HMAC is a function parameter.
 */
module Webhooks {
  import opened Wrappers
  import opened PhpStrings
  import opened ChangeSets
  import opened PushHandlers

  /** The fields of a decoded push payload that the handler reads. */
  datatype Payload = Payload(ref: string, repositoryFullName: string, commits: seq<Commit>)

  /** One inbound delivery: the exact raw body, its decoding and the GitHub headers (None when absent). */
  datatype Request = Request(
    rawInput: string,
    payload: Payload,
    eventHeader: Option<string>,
    signatureHeader: Option<string>)

  /** `hash_hmac('sha1', data, key)` as a hex string. */
  type Hmac = (string, string) -> string

  /** The lower-cased X-GitHub-Event header; an absent header reads as "". */
  function EventName(req: Request): string {
    match req.eventHeader
    case None => ""
    case Some(e) => Lower(e)
  }

  predicate IsPushToBranch(req: Request, branchName: string) {
    EventName(req) == "push" && req.payload.ref == "refs/heads/" + branchName
  }

  /**
   * onPushToBranch: an active handler holding the folded commits when the
   * event is a push to refs/heads/branchName, an inactive dummy otherwise.
   */
  method OnPushToBranch(req: Request, branchName: string) returns (h: PushHandler)
    ensures fresh(h) && h.Valid()
    ensures h.isActive <==> IsPushToBranch(req, branchName)
    ensures h.isActive ==>
      && h.branchName == branchName
      && h.repositoryFullName == req.payload.repositoryFullName
      && h.changes == FoldCommits(req.payload.commits)
      && h.folderName == "" && h.userPwd == "" && h.comment == ""
    ensures !h.isActive ==> h.IsDummy()
  {
    if EventName(req) == "push" && req.payload.ref == "refs/heads/" + branchName {
      h := new PushHandler(branchName, req.payload.repositoryFullName, Some(req.payload.commits));
    } else {
      h := PushHandler.CreateDummy();
    }
  }

  /** A push names one ref, so at most one watched branch can match it. */
  lemma PushMatchesOneBranch(req: Request, b1: string, b2: string)
    requires IsPushToBranch(req, b1) && IsPushToBranch(req, b2)
    ensures b1 == b2
  {
    var prefix := "refs/heads/";
    assert (prefix + b1)[|prefix|..] == b1;
    assert (prefix + b2)[|prefix|..] == b2;
  }

  /**
   * isRequestSecure: true exactly when the signature header is present and
   * equals "sha1=" followed by the HMAC of the raw body under the secret.
   * A missing, empty or "0" header never authenticates.
   */
  function IsRequestSecure(req: Request, secret: string, hmac: Hmac): (secure: bool)
    ensures secure <==> req.signatureHeader == Some("sha1=" + hmac(req.rawInput, secret))
    ensures req.signatureHeader.None? || !Truthy(req.signatureHeader.value) ==> !secure
  {
    match req.signatureHeader
    case None => false
    case Some(serverSig) =>
      if Truthy(serverSig) then
        var expected := "sha1=" + hmac(req.rawInput, secret);
        assert expected[0] == 's';
        expected == serverSig
      else false
  }

  /** What validateSecretOrDie leads to: go on, or stop the request with a status and a message. */
  datatype Verdict = Proceed | Halt(status: int, message: string)

  const ForbiddenMessage := "Correct signature was not provided. Check the SECRET in your repository Webhook settings."

  function ValidateSecretOrDie(req: Request, secret: string, hmac: Hmac): (v: Verdict)
    ensures v == Proceed <==> req.signatureHeader == Some("sha1=" + hmac(req.rawInput, secret))
    ensures v != Proceed ==> v == Halt(403, ForbiddenMessage)
  {
    if IsRequestSecure(req, secret, hmac) then Proceed else Halt(403, ForbiddenMessage)
  }
}
