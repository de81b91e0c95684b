// The provider client's request loop, and how it names what happened. The
// transport is a list of what each attempt would meet.
module PaystackClient {
  import opened Wrappers

  datatype Body =
    | NotJson
    | Json(accepted: bool, message: string, data: Option<nat>)

  datatype Attempt =
    | TimedOut                            // timeout, or no connection could be made
    | Broken                              // any other transport error
    | Answer(code: nat, body: Body)

  datatype Reply =
    | Data(data: nat)
    | TimeoutError
    | ValidationError
    | DuplicateReferenceError
    | OtherError

  // ---------------------------------------------------------- classification

  function LowerChar(c: char): char {
    if 'A' <= c <= 'Z' then c - 'A' + 'a' else c
  }

  function Lower(s: string): string {
    if s == "" then "" else [LowerChar(s[0])] + Lower(s[1..])
  }

  predicate StartsWith(s: string, part: string) {
    |part| <= |s| && s[..|part|] == part
  }

  predicate Contains(s: string, part: string) {
    StartsWith(s, part) || (s != "" && Contains(s[1..], part))
  }

  const VALIDATION_HINTS := ["could not resolve", "cannot resolve", "invalid", "not found",
                             "unknown bank", "no such", "is required", "must be"]

  predicate LooksLikeValidation(message: string) {
    exists h :: h in VALIDATION_HINTS && Contains(Lower(message), h)
  }

  predicate LooksLikeDuplicateReference(message: string) {
    var lowered := Lower(message);
    Contains(lowered, "reference")
      && (Contains(lowered, "duplicate") || Contains(lowered, "already") || Contains(lowered, "has been used"))
  }

  /** The search finds a part exactly when the text has it somewhere. */
  lemma {:induction false} ContainsIff(s: string, part: string)
    ensures Contains(s, part) <==> exists before: string, after: string :: s == before + part + after
  {
    if StartsWith(s, part) {
      assert s == "" + part + s[|part|..];
    } else if s != "" {
      ContainsIff(s[1..], part);
      if before: string, after: string :| s[1..] == before + part + after {
        assert s == ([s[0]] + before) + part + after;
      }
      if before: string, after: string :| s == before + part + after {
        assert before != "" by {
          assert "" + part + after == part + after;
        }
        assert s[1..] == before[1..] + part + after;
      }
    }
  }

  /** Lowering changes the capital letters, and only them, each to its small one. */
  lemma {:induction false} LowerAt(s: string)
    ensures |Lower(s)| == |s|
    ensures forall i :: 0 <= i < |s| ==>
      Lower(s)[i] == if 'A' <= s[i] <= 'Z' then s[i] - 'A' + 'a' else s[i]
  {
    if s != "" {
      LowerAt(s[1..]);
    }
  }

  lemma {:induction false} LowerTwice(s: string)
    ensures Lower(Lower(s)) == Lower(s)
  {
    if s != "" {
      LowerTwice(s[1..]);
      assert Lower(s)[1..] == Lower(s[1..]);
    }
  }

  /** The provider's capitals never change how an answer is named. */
  lemma NamedWithoutCase(code: nat, accepted: bool, message: string, data: Option<nat>)
    ensures Parse(Json(accepted, Lower(message), data)) == Parse(Json(accepted, message, data))
  {
    LowerTwice(message);
  }

  function Parse(body: Body): Reply {
    match body
    case NotJson => OtherError
    case Json(accepted, message, data) =>
      if !accepted then
        if LooksLikeDuplicateReference(message) then DuplicateReferenceError
        else if LooksLikeValidation(message) then ValidationError
        else OtherError
      else if data.None? then OtherError
      else Data(data.value)
  }

  /** `part` occurs somewhere in `s`. */
  ghost predicate Mentions(s: string, part: string) {
    exists before: string, after: string :: s == before + part + after
  }

  /** What makes a refusal one about the reference: it names the reference, and
      says that it is a duplicate, or already taken, or has been used. */
  ghost predicate AboutTheReference(message: string) {
    && Mentions(Lower(message), "reference")
    && (|| Mentions(Lower(message), "duplicate")
        || Mentions(Lower(message), "already")
        || Mentions(Lower(message), "has been used"))
  }

  /** What makes one about the input. */
  ghost predicate AboutTheInput(message: string) {
    || Mentions(Lower(message), "could not resolve") || Mentions(Lower(message), "cannot resolve")
    || Mentions(Lower(message), "invalid") || Mentions(Lower(message), "not found")
    || Mentions(Lower(message), "unknown bank") || Mentions(Lower(message), "no such")
    || Mentions(Lower(message), "is required") || Mentions(Lower(message), "must be")
  }

  lemma DuplicateMeans(message: string)
    ensures LooksLikeDuplicateReference(message) <==> AboutTheReference(message)
  {
    var s := Lower(message);
    ContainsIff(s, "reference");
    ContainsIff(s, "duplicate");
    ContainsIff(s, "already");
    ContainsIff(s, "has been used");
  }

  lemma ValidationMeans(message: string)
    ensures LooksLikeValidation(message) <==> AboutTheInput(message)
  {
    var s := Lower(message);
    assert LooksLikeValidation(message) <==>
      exists i :: 0 <= i < |VALIDATION_HINTS| && Contains(s, VALIDATION_HINTS[i]);
    ContainsIff(s, "could not resolve");
    ContainsIff(s, "cannot resolve");
    ContainsIff(s, "invalid");
    ContainsIff(s, "not found");
    ContainsIff(s, "unknown bank");
    ContainsIff(s, "no such");
    ContainsIff(s, "is required");
    ContainsIff(s, "must be");
    assert AboutTheInput(message) <==> (
        || Contains(s, VALIDATION_HINTS[0]) || Contains(s, VALIDATION_HINTS[1]) || Contains(s, VALIDATION_HINTS[2])
        || Contains(s, VALIDATION_HINTS[3]) || Contains(s, VALIDATION_HINTS[4]) || Contains(s, VALIDATION_HINTS[5])
        || Contains(s, VALIDATION_HINTS[6]) || Contains(s, VALIDATION_HINTS[7]));
  }

  // ---------------------------------------------------------------- the loop

  /** Worth another attempt, for a request that may be repeated. */
  predicate Transient(a: Attempt) {
    a.TimedOut? || (a.Answer? && a.code >= 500)
  }

  /** What the attempt that ends the loop is reported as. */
  function Named(a: Attempt): Reply {
    match a
    case TimedOut => TimeoutError
    case Broken => OtherError
    case Answer(code, body) => if code >= 500 then OtherError else Parse(body)
  }

  /** The provider parsed the request and refused it in so many words. */
  predicate Refused(a: Attempt) {
    a.Answer? && a.code < 500 && a.body.Json? && !a.body.accepted
  }

  /** What every answer is named: a timeout; an acceptance, by its own data; a
      refusal, as being about the reference, else about the input; anything else is
      just an error. */
  lemma AnswersAreNamed(a: Attempt)
    ensures Named(a) == TimeoutError <==> a.TimedOut?
    ensures forall d: nat :: Named(a) == Data(d) <==>
              a.Answer? && a.code < 500 && a.body.Json? && a.body.accepted && a.body.data == Some(d)
    ensures Named(a) == DuplicateReferenceError <==> Refused(a) && AboutTheReference(a.body.message)
    ensures Named(a) == ValidationError <==>
              Refused(a) && !AboutTheReference(a.body.message) && AboutTheInput(a.body.message)
  {
    if a.Answer? && a.body.Json? {
      DuplicateMeans(a.body.message);
      ValidationMeans(a.body.message);
    }
  }

  /** Backoffs in milliseconds; there is one for each retry a caller may ask for. */
  const BACKOFF := [500, 1500]

  /** Send until something other than a timeout or a server error comes back, or
      the attempts run out; the last attempt sent is the one reported. */
  method Request(answers: seq<Attempt>, retries: nat) returns (reply: Reply, sent: nat, slept: seq<nat>)
    requires retries <= |BACKOFF| && |answers| > retries
    ensures 1 <= sent <= retries + 1
    ensures reply == Named(answers[sent - 1])
    ensures forall i :: 0 <= i < sent - 1 ==>
      answers[i].TimedOut? || (answers[i].Answer? && answers[i].code >= 500)
    ensures (answers[sent - 1].TimedOut? || (answers[sent - 1].Answer? && answers[sent - 1].code >= 500)) ==>
      sent == retries + 1
    ensures slept == [500, 1500][..sent - 1]
  {
    var attempts := retries + 1;
    slept := [];
    sent := 0;
    while sent < attempts
      invariant 0 <= sent <= attempts
      invariant forall i :: 0 <= i < sent ==> Transient(answers[i])
      invariant sent < attempts && slept == BACKOFF[..sent]
    {
      var answer := answers[sent];
      sent := sent + 1;
      match answer
      case TimedOut =>
        if sent < attempts {
          slept := slept + [BACKOFF[sent - 1]];
        } else {
          reply := TimeoutError;
          return;
        }
      case Broken =>
        reply := OtherError;
        return;
      case Answer(code, body) =>
        if code >= 500 {
          if sent < attempts {
            slept := slept + [BACKOFF[sent - 1]];
          } else {
            reply := OtherError;
            return;
          }
        } else {
          reply := Parse(body);
          return;
        }
    }
    assert false;
    reply := OtherError;
  }

  /** A transfer is posted exactly once, whatever the provider does. */
  method InitiateTransfer(answers: seq<Attempt>) returns (reply: Reply, posts: nat)
    requires |answers| > 0
    ensures posts == 1 && reply == Named(answers[0])
  {
    var slept;
    reply, posts, slept := Request(answers, 0);
  }

  // ------------------------------------------------- what undoes a withdrawal

  /** The replies on which a withdrawal puts its debit back. */
  predicate ReversesDebit(reply: Reply) {
    reply.ValidationError? || reply.OtherError?
  }

  /** A timeout, a duplicate reference and an acceptance never reverse a debit;
      everything else does. */
  lemma WhatReverses(a: Attempt)
    ensures ReversesDebit(Named(a)) <==>
              !(a.TimedOut?
                || (Refused(a) && AboutTheReference(a.body.message))
                || (a.Answer? && a.code < 500 && a.body.Json? && a.body.accepted && a.body.data.Some?))
  {
    AnswersAreNamed(a);
  }

  /** "Definitively rejected, so nothing left our account" is what a reversal
      means exactly when the answer was neither broken off, nor a server error,
      nor unreadable, nor an acceptance without data. */
  lemma ReversedButNotRefused(a: Attempt)
    requires ReversesDebit(Named(a))
    ensures !Refused(a) <==>
              a.Broken? || a.code >= 500 || a.body.NotJson? || (a.body.accepted && a.body.data.None?)
  {
  }

  /** And such answers exist: a server error on the one post of a transfer is
      reversed although nothing was refused. */
  lemma ServerErrorReverses(code: nat, body: Body)
    requires code >= 500
    ensures ReversesDebit(Named(Answer(code, body))) && !Refused(Answer(code, body))
  {
  }
}
