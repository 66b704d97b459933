/** The commit policy of one shard's writer (ShardWriteManager): every change bumps a counter
    and asks for a commit each shardCommitInterval changes; a shard that changed and has stayed
    idle longer than idleTimeWithoutCommit seconds since asks for an idle commit. The clock
    is a parameter of each operation, and the Lucene writers are not part of this model. */
module ShardCommitPolicy {
  import opened Wrappers
  import opened JavaInt

  /** The RAM buffer the writer is given: the configured size, or 128 MB when it is 0. */
  function RamBufferSize(configuredMB: int): (r: int)
    ensures r != 0
    ensures configuredMB != 0 ==> r == configuredMB
    ensures configuredMB == 0 ==> r == 128
  {
    if configuredMB != 0 then configuredMB else 128
  }

  /** `idleTimeWithoutCommit * 1000` as the source computes it: an `int` product, which
      wraps for idle times above 2147483 seconds. */
  function IdleThresholdAsWritten(idleTimeWithoutCommit: int): (r: int)
    requires IsInt(idleTimeWithoutCommit)
    ensures IsInt(r)
    ensures -2147483 <= idleTimeWithoutCommit <= 2147483 ==> r == idleTimeWithoutCommit * 1000
  {
    Wrap32(idleTimeWithoutCommit * 1000)
  }

  /** The idle time in milliseconds, computed without wrapping. */
  function IdleThreshold(idleTimeWithoutCommit: int): (r: int)
    ensures idleTimeWithoutCommit >= 0 ==> r >= 0
    ensures r / 1000 == idleTimeWithoutCommit && r % 1000 == 0
  {
    idleTimeWithoutCommit * 1000
  }

  /** An idle time of 2147484 seconds (under 25 days) wraps to a negative threshold, so a
      shard asks for an idle commit the very millisecond it changes; without the wrap it
      waits the full idle time. */
  lemma IdleThresholdWraps()
    ensures IdleThresholdAsWritten(2147484) == -2147483296
    ensures IdleCommitDue(Some(5000), None, IdleThresholdAsWritten(2147484), 5000)
    ensures !IdleCommitDue(Some(5000), None, IdleThreshold(2147484), 5000)
  {
  }

  /** needsIdleCommit: there was a change, it is older than the threshold, and no commit has
      been made since it. */
  predicate IdleCommitDue(lastChange: Option<int>, lastCommit: Option<int>, thresholdMillis: int, currentTimeMillis: int)
  {
    lastChange.Some? && currentTimeMillis - lastChange.value > thresholdMillis &&
    (lastCommit.None? || lastChange.value > lastCommit.value)
  }

  /** A commit made at or after the last change settles it: no idle commit is due until the
      next change, however long the shard stays idle. A change after every commit, on the
      other hand, is due once the threshold has passed. */
  lemma IdleCommitDueFacts(lastChange: int, lastCommit: Option<int>, thresholdMillis: int, currentTimeMillis: int)
    ensures lastCommit.Some? && lastCommit.value >= lastChange ==>
      !IdleCommitDue(Some(lastChange), lastCommit, thresholdMillis, currentTimeMillis)
    ensures (lastCommit.None? || lastChange > lastCommit.value) && currentTimeMillis - lastChange > thresholdMillis ==>
      IdleCommitDue(Some(lastChange), lastCommit, thresholdMillis, currentTimeMillis)
    ensures !IdleCommitDue(None, lastCommit, thresholdMillis, currentTimeMillis)
  {
  }

  /** markedChangedCheckIfCommitNeeded for the count after the increment: `long % int` throws
      when the interval is 0, and is 0 exactly when the interval divides the count. */
  function CommitNeeded(count: int, shardCommitInterval: int): (r: Result<bool>)
    ensures r.Err? <==> shardCommitInterval == 0
    ensures r.Ok? ==> (r.value <==> exists m :: Multiple(m, shardCommitInterval, count))
  {
    if shardCommitInterval == 0 then Err("ArithmeticException: / by zero")
    else
      DivisorFacts(count, shardCommitInterval);
      Ok(count % shardCommitInterval == 0)
  }

  predicate Multiple(m: int, d: int, count: int)
  {
    m * d == count
  }

  lemma DivisorFacts(count: int, d: int)
    requires d != 0
    ensures count % d == 0 <==> exists m :: Multiple(m, d, count)
  {
    if count % d == 0 {
      assert Multiple(count / d, d, count);
    } else {
      forall m | Multiple(m, d, count)
        ensures false
      {
        MultipleRemainder(m, d);
      }
    }
  }

  lemma MultipleRemainder(m: int, d: int)
    requires d != 0
    ensures (m * d) % d == 0
  {
    assert m * d == d * m;
    DivUnique(m * d, d, m, 0);
  }

  /** How many of the counts 1..n ask for a commit. */
  function Requests(n: nat, shardCommitInterval: int): nat
    requires shardCommitInterval > 0
  {
    if n == 0 then 0 else Requests(n - 1, shardCommitInterval) + (if n % shardCommitInterval == 0 then 1 else 0)
  }

  /** From a fresh counter, n changes ask for exactly n / shardCommitInterval commits: one per
      full interval. */
  lemma {:induction false} RequestsPerInterval(n: nat, shardCommitInterval: int)
    requires shardCommitInterval > 0
    ensures Requests(n, shardCommitInterval) == n / shardCommitInterval
  {
    if n > 0 {
      RequestsPerInterval(n - 1, shardCommitInterval);
      QuotientStep(n, shardCommitInterval);
    }
  }

  /** The quotient by k grows by one exactly at the multiples of k. */
  lemma QuotientStep(n: int, k: int)
    requires k > 0
    ensures n / k == (n - 1) / k + (if n % k == 0 then 1 else 0)
  {
    var q := (n - 1) / k;
    var r := (n - 1) % k;
    assert n - 1 == k * q + r && 0 <= r < k;
    if r + 1 == k {
      assert n == k * (q + 1) + 0 by {
        MulDistributes(q, 1, k);
      }
      DivUnique(n, k, q + 1, 0);
    } else {
      DivUnique(n, k, q, r + 1);
    }
  }

  /** Euclidean division has one quotient and one remainder. */
  lemma DivUnique(a: int, k: int, q: int, r: int)
    requires k != 0 && 0 <= r < (if k > 0 then k else -k) && a == k * q + r
    ensures a / k == q && a % k == r
  {
    var q2 := a / k;
    var r2 := a % k;
    assert a == k * q2 + r2;
    if q > q2 {
      MulMonotone(k, q2 + 1, q);
      MulDistributes(q2, 1, k);
    } else if q < q2 {
      MulMonotone(k, q + 1, q2);
      MulDistributes(q, 1, k);
    }
  }

  lemma MulMonotone(k: int, x: int, y: int)
    requires x <= y
    ensures k > 0 ==> k * x <= k * y
    ensures k < 0 ==> k * x >= k * y
  {
    MulDistributes(y - x, x, k);
    assert k * y == k * (y - x) + k * x;
  }

  /** One shard's writer, with its change counter and the times of its last change and last
      commit (none yet when null). The index settings are read afresh on every call, so a
      settings update reaches a writer already open: they are parameters of the calls. */
  class ShardWriteManager {
    var counter: int
    var lastCommit: Option<int>
    var lastChange: Option<int>
    var configuredRamBufferMB: int
    var writerRamBufferMB: int

    predicate Valid()
      reads this
    {
      counter >= 0 && writerRamBufferMB != 0
    }

    /** A new writer: nothing changed or committed yet, and the index's RAM buffer setting
        applied. */
    constructor (ramBufferMB: int)
      ensures Valid()
      ensures counter == 0 && lastCommit == None && lastChange == None
      ensures configuredRamBufferMB == ramBufferMB && writerRamBufferMB == RamBufferSize(ramBufferMB)
    {
      counter := 0;
      lastCommit := None;
      lastChange := None;
      configuredRamBufferMB := ramBufferMB;
      writerRamBufferMB := RamBufferSize(ramBufferMB);
    }

    /** commit: the time of the commit becomes lastCommit. */
    method Commit(currentTimeMillis: int)
      requires Valid()
      modifies this
      ensures Valid()
      ensures lastCommit == Some(currentTimeMillis)
      ensures counter == old(counter) && lastChange == old(lastChange)
      ensures configuredRamBufferMB == old(configuredRamBufferMB) && writerRamBufferMB == old(writerRamBufferMB)
      ensures lastChange.Some? && currentTimeMillis >= lastChange.value ==>
        forall threshold, t :: !IdleCommitDue(lastChange, lastCommit, threshold, t)
    {
      lastCommit := Some(currentTimeMillis);
    }

    /** needsIdleCommit, with the threshold computed as an `int` from the current setting. */
    method NeedsIdleCommit(idleTimeWithoutCommit: int, currentTimeMillis: int) returns (b: bool)
      requires Valid() && IsInt(idleTimeWithoutCommit)
      ensures b <==> (lastChange.Some? && currentTimeMillis - lastChange.value > IdleThresholdAsWritten(idleTimeWithoutCommit) &&
        (lastCommit.None? || lastChange.value > lastCommit.value))
    {
      var lastCh := lastChange;
      if lastCh.Some? {
        if currentTimeMillis - lastCh.value > Wrap32(idleTimeWithoutCommit * 1000) {
          if lastCommit.None? || lastCh.value > lastCommit.value {
            return true;
          }
        }
      }
      return false;
    }

    /** markedChangedCheckIfCommitNeeded: records the change, increments the counter and asks
        for a commit when the new count is a multiple of the current shardCommitInterval. */
    method MarkedChangedCheckIfCommitNeeded(shardCommitInterval: int, currentTimeMillis: int) returns (r: Result<bool>)
      requires Valid()
      modifies this
      ensures Valid()
      ensures lastChange == Some(currentTimeMillis)
      ensures counter == old(counter) + 1 > old(counter)
      ensures r == CommitNeeded(counter, shardCommitInterval)
      ensures lastCommit == old(lastCommit)
      ensures configuredRamBufferMB == old(configuredRamBufferMB) && writerRamBufferMB == old(writerRamBufferMB)
    {
      lastChange := Some(currentTimeMillis);
      counter := counter + 1;
      if shardCommitInterval == 0 {
        return Err("ArithmeticException: / by zero");
      }
      return Ok(counter % shardCommitInterval == 0);
    }

    /** updateIndexSettings: the writer takes the configured RAM buffer, 128 MB when it is 0. */
    method UpdateIndexSettings(ramBufferMB: int)
      requires Valid()
      modifies this
      ensures Valid()
      ensures configuredRamBufferMB == ramBufferMB && writerRamBufferMB == RamBufferSize(ramBufferMB)
      ensures counter == old(counter) && lastChange == old(lastChange) && lastCommit == old(lastCommit)
    {
      configuredRamBufferMB := ramBufferMB;
      writerRamBufferMB := if configuredRamBufferMB != 0 then configuredRamBufferMB else 128;
    }
  }
}
