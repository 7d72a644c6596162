/** `getStickerPack`: fetch a pack's encrypted manifest and parse it, retrying
    after a timeout while the retry budget lasts. */
module Fetch {
  import opened Wrappers
  import opened Bytes
  import opened Errors
  import opened Primitives
  import opened Manifest

  const DefaultRetries := 5
  /** The code axios gives a request that timed out. */
  const TimeoutCode := "ECONNABORTED"
  const FetchPrefix := "[getStickerPack] "

  /** The outcome of the n-th GET (counting from 0) of a pack's manifest URL:
      the response body, or the error the request rejects with. */
  type Network = (string, nat) -> Result<Bytes, Error>

  /** The outcome of the n-th run (counting from 0) of the `try` block. */
  type Tries = nat -> Result<Pack, Error>

  /** One run of the `try` block: the request, then `parseManifest` on the
      body. Both kinds of failure reach the same `catch`. */
  function Attempt(p: Primitives, net: Network, id: string, key: string, n: nat): (r: Result<Pack, Error>)
    ensures net(id, n).Failure? ==> r == Failure(net(id, n).error)
    ensures net(id, n).Success? ==> r == ParseManifest(p, key, net(id, n).value)
  {
    match net(id, n)
    case Failure(e) => Failure(e)
    case Success(raw) => ParseManifest(p, key, raw)
  }

  predicate IsTimeout(e: Error) {
    e.code == Some(TimeoutCode)
  }

  /** The number of retries a budget allows; a negative budget allows none. */
  function Budget(retriesRemaining: int): nat {
    if retriesRemaining > 0 then retriesRemaining else 0
  }

  /** What a call comes to: the manifest or the error it throws, and how many
      requests it made. */
  datatype Fetched = Fetched(result: Result<Pack, Error>, attempts: nat)

  /** The recursion of `getStickerPack`, over the outcomes of its tries;
      `attempt` is the number of tries already made. */
  function RetryFrom(tries: Tries, retriesRemaining: int, attempt: nat): (r: Fetched)
    decreases Budget(retriesRemaining)
    ensures 1 <= r.attempts <= Budget(retriesRemaining) + 1
    ensures r.result.Failure? ==> FetchPrefix <= r.result.error.message
  {
    match tries(attempt)
    case Success(pack) => Fetched(Success(pack), 1)
    case Failure(e) =>
      if IsTimeout(e) && retriesRemaining > 0 then
        var rest := RetryFrom(tries, retriesRemaining - 1, attempt + 1);
        Fetched(rest.result, rest.attempts + 1)
      else
        Fetched(Failure(Rethrow(FetchPrefix, e.code, e)), 1)
  }

  /** `getStickerPack(id, key, retriesRemaining)`. */
  function GetStickerPack(p: Primitives, net: Network, id: string, key: string,
                          retriesRemaining: int := DefaultRetries): (r: Fetched)
    ensures 1 <= r.attempts <= Budget(retriesRemaining) + 1
  {
    RetryFrom((n: nat) => Attempt(p, net, id, key, n), retriesRemaining, 0)
  }

  /** The retry policy stated on its own: every try but the last timed out,
      and the last one either succeeded, failed otherwise, or timed out with
      the budget spent. A success is returned as it is; a failure keeps its
      code and gains the `[getStickerPack] ` prefix exactly once. */
  lemma {:induction false} RetryPolicy(tries: Tries, retriesRemaining: int, attempt: nat)
    ensures
      var r := RetryFrom(tries, retriesRemaining, attempt);
      var last := tries(attempt + r.attempts - 1);
      && (forall j :: attempt <= j < attempt + r.attempts - 1 ==>
            tries(j).Failure? && IsTimeout(tries(j).error))
      && (last.Success? ==> r.result == last)
      && (last.Failure? ==>
            && r.result == Failure(Error(last.error.code, "[getStickerPack] " + last.error.message))
            && (!IsTimeout(last.error) || r.attempts == Budget(retriesRemaining) + 1))
    decreases Budget(retriesRemaining)
  {
    var first := tries(attempt);
    if first.Failure? && IsTimeout(first.error) && retriesRemaining > 0 {
      RetryPolicy(tries, retriesRemaining - 1, attempt + 1);
    }
  }

  /** A server that keeps timing out gets exactly one request plus one per
      retry, and the timeout error is what is thrown in the end. */
  lemma {:induction false} PersistentTimeoutExhaustsBudget(tries: Tries, retriesRemaining: int, attempt: nat)
    requires forall j :: attempt <= j <= attempt + Budget(retriesRemaining) ==>
               tries(j).Failure? && IsTimeout(tries(j).error)
    ensures RetryFrom(tries, retriesRemaining, attempt).attempts == Budget(retriesRemaining) + 1
    ensures RetryFrom(tries, retriesRemaining, attempt).result.Failure?
    ensures RetryFrom(tries, retriesRemaining, attempt).result.error.code == Some("ECONNABORTED")
    decreases Budget(retriesRemaining)
  {
    if retriesRemaining > 0 {
      PersistentTimeoutExhaustsBudget(tries, retriesRemaining - 1, attempt + 1);
    }
  }

  /** With the default budget a pack gets at most six requests, and exactly six
      when every one of them times out. */
  lemma DefaultBudgetMakesAtMostSixRequests(p: Primitives, net: Network, id: string, key: string)
    ensures 1 <= GetStickerPack(p, net, id, key).attempts <= 6
    ensures (forall j :: 0 <= j <= 5 ==> net(id, j).Failure? && IsTimeout(net(id, j).error)) ==>
            GetStickerPack(p, net, id, key).attempts == 6
  {
    var tries: Tries := (n: nat) => Attempt(p, net, id, key, n);
    if forall j :: 0 <= j <= 5 ==> net(id, j).Failure? && IsTimeout(net(id, j).error) {
      assert forall j :: 0 <= j <= 5 ==> tries(j).Failure? && IsTimeout(tries(j).error);
      PersistentTimeoutExhaustsBudget(tries, DefaultRetries, 0);
    }
  }

  /** A parse failure reaches the same retry test as a network failure, but
      `parseManifest` gives it a code of its own or MANIFEST_PARSE, so a
      failed MAC check is never retried and is thrown at once. */
  lemma MacFailureNotRetried(p: Primitives, net: Network, id: string, key: string, retriesRemaining: int)
    requires net(id, 0).Success?
    requires DeriveKeys(p, key).Success?
    requires p.hmacSha256(DeriveKeys(p, key).value.hmacKey, SplitManifest(net(id, 0).value).signed)
             != SplitManifest(net(id, 0).value).mac
    ensures GetStickerPack(p, net, id, key, retriesRemaining) ==
            Fetched(Failure(Error(Some("MANIFEST_PARSE"),
                                  "[getStickerPack] " + ("[parseManifest] " + MacFailureMessage))), 1)
  {
    MacMismatchIsManifestParse(p, p.aesCbcDecrypt, p.decodePack, key, net(id, 0).value);
  }
}
