/** Uploading with retries and doubling pauses. */
module Upload {
  import opened Numerals

  datatype Attempt = Stored(cid: string) | Failure(error: string)

  datatype UploadResult = Uploaded(cid: string) | GaveUp(error: string) | Panicked

  const FIRST_DELAY := 200

  // A pause is a 64-bit number of seconds and a fraction; doubling past that panics.
  predicate Overflows(milliseconds: nat) {
    0x1_0000_0000_0000_0000 <= milliseconds / 1000
  }

  /** A pause overflows from 2^64 seconds on. */
  lemma OverflowExact(milliseconds: nat)
    ensures Overflows(milliseconds) <==> 18446744073709551616000 <= milliseconds
  {
  }

  /** The doubled pause first overflows after the 67th failure. */
  lemma DelayOverflow(k: nat)
    ensures Overflows(200 * Pow(2, k)) <==> 67 <= k
  {
    PowDouble(1, 2); PowDouble(2, 4); PowDouble(4, 16); PowDouble(8, 256);
    PowDouble(16, 65536); PowDouble(33, 8589934592);
    if 67 <= k {
      PowMonotone(2, 67, k);
    } else {
      PowMonotone(2, k, 66);
    }
  }

  lemma PowDouble(k: nat, x: nat)
    requires Pow(2, k) == x
    ensures Pow(2, 2 * k) == x * x && Pow(2, 2 * k + 1) == 2 * (x * x)
  {
    PowSplit(2, k, k);
  }

  /**
    `outcome(k)` is what the `k + 1`-th call to the backend answers.  Pauses add up
    to `slept` milliseconds.  Apart from a cap of zero, only 67 failures in a row
    can keep the loop from returning one of the answers.
   */
  method UploadWithRetry(outcome: nat -> Attempt, maxAttempts: nat)
    returns (r: UploadResult, calls: nat, slept: nat)
    ensures calls <= maxAttempts
    ensures r.Panicked? <==>
      maxAttempts == 0 || (67 < maxAttempts && forall k: nat :: k < 67 ==> outcome(k).Failure?)
    ensures r.Uploaded? ==> 0 < calls && outcome(calls - 1) == Stored(r.cid)
    ensures r.GaveUp? ==> 0 < calls == maxAttempts && outcome(calls - 1) == Failure(r.error)
    ensures forall k: nat :: k + 1 < calls ==> outcome(k).Failure?
    ensures !r.Panicked? ==> slept == 200 * (Pow(2, calls - 1) - 1)
    ensures maxAttempts == 3 ==> slept <= 600
  {
    var delay := FIRST_DELAY;
    calls, slept := 0, 0;
    while calls < maxAttempts
      invariant calls <= maxAttempts
      invariant 0 < calls ==> calls < maxAttempts && calls < 67
      invariant delay == FIRST_DELAY * Pow(2, calls)
      invariant slept == delay - FIRST_DELAY
      invariant forall k: nat :: k < calls ==> outcome(k).Failure?
    {
      DelayOverflow(calls + 1);
      var answer := outcome(calls);
      calls := calls + 1;
      match answer
      case Stored(cid) =>
        return Uploaded(cid), calls, slept;
      case Failure(error) =>
        if calls == maxAttempts {
          return GaveUp(error), calls, slept;
        }
        slept := slept + delay;
        if Overflows(2 * delay) {
          return Panicked, calls, slept;
        }
        delay := 2 * delay;
    }
    return Panicked, calls, slept;
  }
}
