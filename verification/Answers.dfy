/**
 What a caller of the interceptor is told (idempotency/grpc.go), in terms of the
 record its begin met and of what became of its handler and lease. The codes are
 those of google.golang.org/grpc/codes.
 */
module Answers {
  import opened Common
  import opened Idempotency
  import opened Interceptor

  /** Without running the handler, a caller is given a response exactly if the record
      is completed for this very request, and then the stored one. A request still in
      progress is Aborted (10), another request's key AlreadyExists (6), and a failure
      is answered with its own code and message. */
  lemma ReplayAnswers(s: Store, k: Key, fingerprint: string)
    requires Inv(s) && k in s.records
    ensures
      var f := s.records[k].fields;
      var r := Replayed(BeginReply(s, k, fingerprint));
      if f.fingerprint != fingerprint then r.Status? && r.code == 6
      else if f.status == Processing then r.Status? && r.code == 10
      else if f.status == Completed then r.Reply? && f.response == Some(r.body)
      else f.failure.Some? && r == Plain(f.failure.value.grpcCode, f.failure.value.message)
  {
    ToldShape(s.log, k);
  }

  /** So a success told without running the handler is the stored response of a
      completed run of the same request. */
  lemma SuccessIsStored(s: Store, k: Key, fingerprint: string)
    requires Inv(s) && k in s.records && Replayed(BeginReply(s, k, fingerprint)).Reply?
    ensures
      var f := s.records[k].fields;
      && f.status == Completed && f.fingerprint == fingerprint
      && f.response == Some(Replayed(BeginReply(s, k, fingerprint)).body)
  {
    ReplayAnswers(s, k, fingerprint);
  }

  /** A caller whose handler ran gets its response only if the lease held and it is a
      message, its error only if the lease held; a lost lease is Aborted (10) or, when
      renewing failed otherwise, Unavailable (14), whatever the handler returned. */
  lemma HandlerAnswers(h: Handled, lease: LeaseEnd)
    ensures
      var r := Concluded(h, lease);
      && (r.Reply? <==> lease.Kept? && h.Encodable? && r == Reply(h.body))
      && (lease.Kept? && h.Error? ==> r == Status(h.code, h.message, h.details))
      && (lease.Kept? && h.NotEncodable? ==> r.Status? && r.code == 13)
      && (lease.OwnershipLost? ==> r.Status? && r.code == 10)
      && (lease.RenewalFailed? ==> r.Status? && r.code == 14)
  {
  }

  /** Failures that are not remembered, so that a retry runs the handler: Canceled,
      Unknown, DeadlineExceeded, ResourceExhausted, Aborted, Internal, Unavailable and
      DataLoss. */
  lemma RetryableCodes(code: nat)
    ensures Retryable(code) <==> code in {1, 2, 4, 8, 10, 13, 14, 15}
  {
  }

  /** What is kept of a handler result, and for how long. */
  lemma KeptFor(c: Config, k: Key, o: Owner, h: Handled)
    ensures
      var call := KeepCall(c, k, o, h);
      && (h.Encodable? && |h.body| <= c.maxResponseBytes ==>
            call == Some(FinishCall(k, o, Response(h.body), c.resultTTL)))
      && (h.Error? && h.code !in {1, 2, 4, 8, 10, 13, 14, 15} ==>
            call == Some(FinishCall(k, o, Refusal(Failure(h.message, h.code)), c.failureTTL)))
      && (h.Encodable? && |h.body| > c.maxResponseBytes ==> call == Some(AbortCall(k, o)))
      && (h.Error? && h.code in {1, 2, 4, 8, 10, 13, 14, 15} ==> call == Some(AbortCall(k, o)))
      && (h.NotEncodable? ==> call.None?)
      && KeepTime(c, h) == if h.Error? then c.failureTTL else c.resultTTL
  {
  }

  /** Which results are remembered; all but those that cannot be encoded or are too
      large can be dealt with without an error. */
  lemma RememberedIff(c: Config, h: Handled)
    ensures Remembered(c, h).Some? <==>
            || (h.Encodable? && |h.body| <= c.maxResponseBytes)
            || (h.Error? && h.code !in {1, 2, 4, 8, 10, 13, 14, 15})
    ensures Keepable(c, h) <==> h.Error? || (h.Encodable? && |h.body| <= c.maxResponseBytes)
  {
  }
}
