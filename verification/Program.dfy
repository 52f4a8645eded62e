/** The values the programs run with meet what the theorems ask of them. */
module Program {
  import opened Common
  import opened Validation
  import NonceCache
  import TokenBucket
  import Limiters
  import Saver

  /** The nonce ttl is twice the skew and there is room for two nonces; the bucket refills before it
      is swept; both saver channels hold a request. */
  lemma ConstantsFit()
    ensures NonceCache.TINCVER_LIMITS.ttl == NonceCache.ESA_LIMITS.ttl == 2 * ALLOWED_TIME_SKEW
    ensures NonceCache.TINCVER_LIMITS.capacity.value >= 2 && NonceCache.ESA_LIMITS.capacity == None
    ensures TokenBucket.RATE.Valid() && Limiters.MAX_LIMITER_ENTRIES >= 1 && Saver.PROGRAM.Valid()
  {
  }

  /** In any window one address gets at most five requests through, and one more per second. */
  lemma FivePlusOnePerSecond(ts: seq<int>, i: nat, j: nat)
    requires TokenBucket.Ordered(ts) && i <= j < |ts|
    ensures TokenBucket.Count(ts, i, j + 1, TokenBucket.RATE) <= 5 + (ts[j] - ts[i]) / SECOND
  {
    TokenBucket.WindowBound(ts, i, j, TokenBucket.RATE);
    WholeTokens(TokenBucket.Count(ts, i, j + 1, TokenBucket.RATE), ts[j] - ts[i]);
  }

  lemma WholeTokens(count: nat, length: int)
    requires count * SECOND <= 5 * SECOND + length
    ensures count <= 5 + length / SECOND
  {
  }

  /** A save can get lost with the program's own channels. */
  lemma SaverCanLose(a: Saver.Request, b: Saver.Request) returns (labels: seq<Saver.Label>)
    requires a.iface != b.iface
    ensures Saver.Run(labels, Saver.PROGRAM).Some?
    ensures var s := Saver.Run(labels, Saver.PROGRAM).value; Saver.Quiet(s) && s.Saved(a.iface) < s.Version(a.iface)
  {
    labels := Saver.LossHappens(Saver.PROGRAM, a, b);
  }
}
