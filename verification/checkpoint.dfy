/**
 * The `cookies_data` record that `send_messages` keeps for one task and
 * the update one token visit makes to it.
 */
module Checkpoints {

  type Token = string

  predicate NoDuplicates(xs: seq<Token>) {
    forall i, j :: 0 <= i < j < |xs| ==> xs[i] != xs[j]
  }

  /**
   * `list(set(tokens + [token]))` on a duplicate-free list, which is how the
   * code adds a token to the valid or the invalid list. Python leaves the
   * order of that list unspecified; here the token goes last, and nothing
   * below depends on the order.
   */
  function AddToken(tokens: seq<Token>, token: Token): seq<Token> {
    if token in tokens then tokens else tokens + [token]
  }

  /** Adding a token is a set union ... */
  lemma AddTokenUnion(tokens: seq<Token>, token: Token)
    ensures forall x :: x in AddToken(tokens, token) <==> x in tokens || x == token
  {
  }

  /** ... that keeps the list free of duplicates. */
  lemma AddTokenKeepsDistinct(tokens: seq<Token>, token: Token)
    requires NoDuplicates(tokens)
    ensures NoDuplicates(AddToken(tokens, token))
  {
  }

  /** The record written to `cookies_<task>.json` (the timestamp is not modelled). */
  datatype Checkpoint = Checkpoint(validTokens: seq<Token>, invalidTokens: seq<Token>, totalMessagesSent: nat)

  /** The record a task starts with: no token classified yet, nothing sent. */
  const Initial := Checkpoint([], [], 0)

  /** What the POST to the group feed gave back: a status code, or an exception from the request. */
  datatype PostOutcome = Responded(status: int) | Raised

  /** The only status the code counts as a sent message. */
  const SENT_STATUS := 200

  predicate Delivered(post: PostOutcome) {
    post.Responded? && post.status == SENT_STATUS
  }

  /**
   * One token visit: a valid token joins the valid list and its POST is
   * counted when it answered 200; an invalid token joins the invalid list and
   * is not posted with, so `post` is ignored for it.
   */
  function Step(cp: Checkpoint, token: Token, isValid: bool, post: PostOutcome): Checkpoint {
    if isValid then
      var sent := if Delivered(post) then cp.totalMessagesSent + 1 else cp.totalMessagesSent;
      cp.(validTokens := AddToken(cp.validTokens, token), totalMessagesSent := sent)
    else
      cp.(invalidTokens := AddToken(cp.invalidTokens, token))
  }

  /** What one visit does to each field of the record, in both branches. */
  lemma StepEffect(cp: Checkpoint, token: Token, isValid: bool, post: PostOutcome)
    ensures var r := Step(cp, token, isValid, post);
      && (isValid ==> r.invalidTokens == cp.invalidTokens)
      && (isValid ==> (forall x :: x in r.validTokens <==> x in cp.validTokens || x == token))
      && (isValid && NoDuplicates(cp.validTokens) ==> NoDuplicates(r.validTokens))
      && (!isValid ==> r.validTokens == cp.validTokens)
      && (!isValid ==> (forall x :: x in r.invalidTokens <==> x in cp.invalidTokens || x == token))
      && (!isValid && NoDuplicates(cp.invalidTokens) ==> NoDuplicates(r.invalidTokens))
      && (r.totalMessagesSent == cp.totalMessagesSent + 1 <==> isValid && Delivered(post))
      && (r.totalMessagesSent == cp.totalMessagesSent <==> !(isValid && Delivered(post)))
  {
    AddTokenUnion(cp.validTokens, token);
    AddTokenUnion(cp.invalidTokens, token);
    if NoDuplicates(cp.validTokens) {
      AddTokenKeepsDistinct(cp.validTokens, token);
    }
    if NoDuplicates(cp.invalidTokens) {
      AddTokenKeepsDistinct(cp.invalidTokens, token);
    }
  }

  /** `later` extends `earlier`: both token lists only gained members and the counter did not go down. */
  predicate Grows(earlier: Checkpoint, later: Checkpoint) {
    && (forall x :: x in earlier.validTokens ==> x in later.validTokens)
    && (forall x :: x in earlier.invalidTokens ==> x in later.invalidTokens)
    && earlier.totalMessagesSent <= later.totalMessagesSent
  }

  lemma StepGrows(cp: Checkpoint, token: Token, isValid: bool, post: PostOutcome)
    ensures Grows(cp, Step(cp, token, isValid, post))
    ensures token in (if isValid then Step(cp, token, isValid, post).validTokens else Step(cp, token, isValid, post).invalidTokens)
  {
  }
}
