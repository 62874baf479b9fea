/**
 * The integer bookkeeping of the AI communication buffer: the 1000-slot ring
 * of request outcomes written by feedback, the success/failure counters and
 * the moving-average latency, the failure-rate estimate read from the ring,
 * the grouping of a batch by (type, device), the rounding of request sizes,
 * and the decision read off the network's outputs.
 *
 * The network itself (feature extraction, forward pass, softmax, weight
 * initialisation) is not modelled: ProcessRequest receives the forward
 * pass's outputs as a parameter. Floats are modelled as `real`.
 */
module AiBuffer {
  import opened Common

  // request_type_t
  const REQ_IO_READ: u32 := 0
  const REQ_IO_WRITE: u32 := 1
  const REQ_DMA_ALLOC: u32 := 2
  const REQ_INTERRUPT: u32 := 3
  const REQ_PCI_CONFIG: u32 := 4
  const REQ_POWER_STATE: u32 := 5
  const REQ_UNKNOWN: u32 := 6

  /** The first six network outputs are the scores of the six ai_decision_t classes. */
  const DECISION_COUNT: nat := 6
  const AI_OUTPUT_SIZE: nat := 16
  const HISTORY_SIZE: nat := 1000

  const AI_SUCCESS: int := 0
  const AI_ERR_NOT_INITIALIZED: int := -1
  const AI_ERR_INVALID_ARG: int := -2

  /** comm_request_t without its data pointer, which this core never reads. */
  datatype Request = Request(
    reqType: u32, deviceId: u32, address: u64, size: u32,
    flags: u32, timestamp: u64, priority: u32)

  /** One slot of the outcome history. */
  datatype HistoryRecord = HistoryRecord(pattern: u32, decision: nat, latencyUs: u32, success: bool)

  /** A zero-filled slot, as left by the static initialiser and by memset. */
  const EmptyRecord := HistoryRecord(0, 0, 0, false)

  /** The part of ai_prediction_t that does not depend on float-to-integer casts. */
  datatype Prediction = Prediction(decision: nat, confidence: real, shouldBatch: bool)

  /**
   * `type << 24 | (device_id & 0xFFFFFF)` in 32 bits: the shift keeps the low
   * 8 bits of the type in the top byte, the mask keeps the low 24 bits of the
   * device, and the OR joins two disjoint bit ranges.
   */
  function PackPattern(reqType: u32, deviceId: u32): (p: u32)
    ensures PatternType(p) == reqType % 0x100
    ensures reqType < 0x100 ==> PatternType(p) == reqType
    ensures p % 0x100_0000 == deviceId % 0x100_0000
  {
    (reqType % 0x100) * 0x100_0000 + deviceId % 0x100_0000
  }

  /** `(pattern >> 24) & 0xFF`: the type byte of a stored pattern. */
  function PatternType(pattern: u32): u32
  {
    (pattern / 0x100_0000) % 0x100
  }

  /**
   * The latency average kept by feedback: a zero average takes the sample,
   * otherwise `(avg * 9 + sample) / 10` evaluated in unsigned 32 bits.
   */
  function MovingAverage(avg: u32, sample: u32): (r: u32)
    ensures avg == 0 ==> r == sample
    ensures avg != 0 && avg * 9 + sample < U32_MODULUS ==>
              (avg <= sample ==> avg <= r <= sample) && (sample <= avg ==> sample <= r <= avg)
  {
    if avg == 0 then sample else ((avg * 9 + sample) % U32_MODULUS) / 10
  }

  /** `x & ~(m - 1)` for a power of two m: x with its low bits cleared. */
  function AlignDown(x: u32, m: nat): u32
    requires m > 0
  {
    x - x % m
  }

  /**
   * The size chosen by optimize_request. Reads and writes are padded to a
   * whole number of 64-byte cache lines, at least one; DMA allocations to a
   * whole number of 4096-byte pages. The additions are 32-bit, so a size too
   * close to 2^32 wraps around and becomes 0.
   */
  function OptimizedSize(reqType: u32, size: u32): (r: u32)
    ensures reqType !in {REQ_IO_READ, REQ_IO_WRITE, REQ_DMA_ALLOC} ==> r == size
  {
    if reqType == REQ_IO_READ || reqType == REQ_IO_WRITE then
      if size < 64 then 64 else AlignDown((size + 63) % U32_MODULUS, 64)
    else if reqType == REQ_DMA_ALLOC then
      AlignDown((size + 4095) % U32_MODULUS, 4096)
    else
      size
  }

  lemma AlignDownLine(x: u32)
    ensures AlignDown(x, 64) % 64 == 0 && AlignDown(x, 64) <= x < AlignDown(x, 64) + 64
  {
  }

  lemma AlignDownPage(x: u32)
    ensures AlignDown(x, 4096) % 4096 == 0 && AlignDown(x, 4096) <= x < AlignDown(x, 4096) + 4096
  {
  }

  /**
   * Reads and writes come out as whole cache lines covering the request,
   * DMA allocations as whole pages, unless the 32-bit addition wraps, which
   * gives 0.
   */
  lemma OptimizedSizeBounds(reqType: u32, size: u32)
    ensures var r := OptimizedSize(reqType, size);
            (reqType == REQ_IO_READ || reqType == REQ_IO_WRITE) ==>
              if size <= 0xFFFF_FFC0
              then r % 64 == 0 && 64 <= r && size <= r && (r == 64 || r < size + 64)
              else r == 0
    ensures var r := OptimizedSize(reqType, size);
            reqType == REQ_DMA_ALLOC ==>
              if size <= 0xFFFF_F000
              then r % 4096 == 0 && size <= r < size + 4096
              else r == 0
    ensures reqType == REQ_DMA_ALLOC && size == 0 ==> OptimizedSize(reqType, size) == 0
  {
    if reqType == REQ_IO_READ || reqType == REQ_IO_WRITE {
      if size >= 64 {
        PadLine(size);
      }
    } else if reqType == REQ_DMA_ALLOC {
      PadPage(size);
    }
  }

  lemma PadLine(size: u32)
    requires size >= 64
    ensures var r := AlignDown((size + 63) % U32_MODULUS, 64);
            if size <= 0xFFFF_FFC0 then r % 64 == 0 && size <= r < size + 64 else r == 0
  {
    var x := (size + 63) % U32_MODULUS;
    if size <= 0xFFFF_FFC0 {
      assert x == size + 63;
    } else {
      assert x == size + 63 - U32_MODULUS && x < 64;
    }
    AlignDownLine(x);
  }

  lemma PadPage(size: u32)
    ensures var r := AlignDown((size + 4095) % U32_MODULUS, 4096);
            if size <= 0xFFFF_F000 then r % 4096 == 0 && size <= r < size + 4096 else r == 0
  {
    var x := (size + 4095) % U32_MODULUS;
    if size <= 0xFFFF_F000 {
      assert x == size + 4095;
    } else {
      assert x == size + 4095 - U32_MODULUS && x < 4096;
    }
    AlignDownPage(x);
  }

  /** k is the lowest index holding the largest value of xs. */
  ghost predicate IsFirstMaximum(xs: seq<real>, k: nat)
  {
    && k < |xs|
    && (forall j :: 0 <= j < |xs| ==> xs[j] <= xs[k])
    && (forall j :: 0 <= j < k ==> xs[j] < xs[k])
  }

  /** The decision scan of process_request: strict `>`, so ties go to the lowest index. */
  method SelectDecision(outputs: seq<real>) returns (k: nat)
    requires |outputs| >= DECISION_COUNT
    ensures IsFirstMaximum(outputs[..DECISION_COUNT], k)
  {
    k := 0;
    var maxProb := outputs[0];
    var i := 1;
    while i < DECISION_COUNT
      invariant 1 <= i <= DECISION_COUNT
      invariant k < i && maxProb == outputs[k]
      invariant forall j :: 0 <= j < i ==> outputs[j] <= maxProb
      invariant forall j :: 0 <= j < k ==> outputs[j] < maxProb
    {
      if outputs[i] > maxProb {
        maxProb := outputs[i];
        k := i;
      }
      i := i + 1;
    }
  }

  // ---------------------------------------------------------------------
  // Failure-rate estimate

  /** Records of h whose pattern carries type t. */
  function TypeCount(h: seq<HistoryRecord>, t: u32): (n: nat)
    ensures n <= |h|
  {
    if h == [] then 0
    else TypeCount(h[..|h| - 1], t) + (if PatternType(h[|h| - 1].pattern) == t then 1 else 0)
  }

  /** Failed records of h whose pattern carries type t. */
  function FailureCount(h: seq<HistoryRecord>, t: u32): (n: nat)
    ensures n <= TypeCount(h, t)
  {
    if h == [] then 0
    else
      var last := h[|h| - 1];
      FailureCount(h[..|h| - 1], t) + (if PatternType(last.pattern) == t && !last.success then 1 else 0)
  }

  /**
   * The failure probability over the first n slots: failures / total among
   * the slots of type t, or the neutral 0.5 when there are none.
   */
  function FailureRate(h: seq<HistoryRecord>, n: nat, t: u32): (p: real)
    requires n <= |h|
    ensures TypeCount(h[..n], t) == 0 ==> p == 0.5
  {
    var total := TypeCount(h[..n], t);
    if total > 0 then FailureCount(h[..n], t) as real / total as real else 0.5
  }

  /** The estimate is a probability. */
  lemma FailureRateBounds(h: seq<HistoryRecord>, n: nat, t: u32)
    requires n <= |h|
    ensures 0.0 <= FailureRate(h, n, t) <= 1.0
  {
    var total := TypeCount(h[..n], t);
    if total > 0 {
      QuotientInUnit(FailureCount(h[..n], t), total);
    }
  }

  lemma QuotientInUnit(a: nat, b: nat)
    requires a <= b && b > 0
    ensures 0.0 <= a as real / b as real <= 1.0
  {
    var q := a as real / b as real;
    assert q * b as real == a as real;
  }

  /** When every slot of type t failed, the counts agree. */
  lemma {:induction false} AllFailedCountsAgree(h: seq<HistoryRecord>, t: u32)
    requires forall i :: 0 <= i < |h| && PatternType(h[i].pattern) == t ==> !h[i].success
    ensures FailureCount(h, t) == TypeCount(h, t)
  {
    if h != [] {
      AllFailedCountsAgree(h[..|h| - 1], t);
    }
  }

  /** Every recorded request of type t failed, and there was one: the estimate is 1. */
  lemma AllFailedRateIsOne(h: seq<HistoryRecord>, n: nat, t: u32)
    requires n <= |h|
    requires TypeCount(h[..n], t) > 0
    requires forall i :: 0 <= i < n && PatternType(h[i].pattern) == t ==> !h[i].success
    ensures FailureRate(h, n, t) == 1.0
  {
    var w := h[..n];
    forall i | 0 <= i < |w| && PatternType(w[i].pattern) == t ensures !w[i].success {
      assert w[i] == h[i];
    }
    AllFailedCountsAgree(w, t);
    var c := TypeCount(w, t);
    assert FailureRate(h, n, t) == c as real / c as real;
    SelfQuotient(c as real);
  }

  lemma SelfQuotient(x: real)
    requires x > 0.0
    ensures x / x == 1.0
  {
  }

  /** When no slot of type t failed, the counts of failures is zero. */
  lemma {:induction false} NoneFailedCountIsZero(h: seq<HistoryRecord>, t: u32)
    requires forall i :: 0 <= i < |h| && PatternType(h[i].pattern) == t ==> h[i].success
    ensures FailureCount(h, t) == 0
  {
    if h != [] {
      NoneFailedCountIsZero(h[..|h| - 1], t);
    }
  }

  // ---------------------------------------------------------------------
  // Batch grouping

  /** The grouping key of predict_batch. */
  function BatchKey(r: Request): (u32, u32)
  {
    (r.reqType, r.deviceId)
  }

  function Keys(requests: seq<Request>): (keys: seq<(u32, u32)>)
    ensures |keys| == |requests|
    ensures forall i :: 0 <= i < |requests| ==> keys[i] == BatchKey(requests[i])
  {
    seq(|requests|, i requires 0 <= i < |requests| => BatchKey(requests[i]))
  }

  /** The distinct keys of a sequence. */
  ghost function KeySet<K>(s: seq<K>): set<K>
  {
    set x | x in s
  }

  /** Position of the first occurrence of x in s. */
  ghost function IndexOf<K>(s: seq<K>, x: K): (r: nat)
    requires x in s
    ensures r < |s| && s[r] == x && x !in s[..r]
  {
    if s[0] == x then 0 else 1 + IndexOf(s[1..], x)
  }

  /**
   * The group of request i: the number of distinct keys seen before the
   * first request with the same key. Groups are numbered 0, 1, 2, ... in
   * the order in which their keys first appear.
   */
  ghost function GroupOf<K>(keys: seq<K>, i: nat): nat
    requires i < |keys|
  {
    |KeySet(keys[..IndexOf(keys, keys[i])])|
  }

  lemma KeySetGrows<K>(s: seq<K>, x: K)
    ensures KeySet(s + [x]) == KeySet(s) + {x}
    ensures |KeySet(s + [x])| == |KeySet(s)| + (if x in s then 0 else 1)
  {
    assert forall y :: y in s + [x] <==> y in s || y == x;
    if x in s {
      assert KeySet(s) + {x} == KeySet(s);
    }
  }

  /** Longer prefixes hold at least as many distinct keys; strictly more when a new key was met. */
  lemma {:induction false} KeySetPrefixMonotone<K>(s: seq<K>, a: nat, b: nat)
    requires a < b <= |s|
    ensures |KeySet(s[..a])| <= |KeySet(s[..b])|
    ensures s[a] !in s[..a] ==> |KeySet(s[..a])| < |KeySet(s[..b])|
    decreases b - a
  {
    assert s[..a] + [s[a]] == s[..a + 1];
    KeySetGrows(s[..a], s[a]);
    if a + 1 < b {
      KeySetPrefixMonotone(s, a + 1, b);
    } else {
      assert s[..a + 1] == s[..b];
    }
  }

  /** Two requests share a group exactly when they share a key. */
  lemma SameGroupIffSameKey<K>(keys: seq<K>, i: nat, j: nat)
    requires i < |keys| && j < |keys|
    ensures GroupOf(keys, i) == GroupOf(keys, j) <==> keys[i] == keys[j]
  {
    var fi, fj := IndexOf(keys, keys[i]), IndexOf(keys, keys[j]);
    if keys[i] != keys[j] {
      assert fi != fj;
      if fi < fj {
        KeySetPrefixMonotone(keys, fi, fj);
      } else {
        KeySetPrefixMonotone(keys, fj, fi);
      }
    }
  }

  /** Every group id is below the number of distinct keys. */
  lemma GroupBelowCount<K>(keys: seq<K>, i: nat)
    requires i < |keys|
    ensures GroupOf(keys, i) < |KeySet(keys)|
  {
    var f := IndexOf(keys, keys[i]);
    assert keys[..|keys|] == keys;
    KeySetPrefixMonotone(keys, f, |keys|);
  }

  /** A request whose key is new gets the next unused id. */
  lemma NewKeyGetsNextId<K>(keys: seq<K>, i: nat)
    requires i < |keys| && keys[i] !in keys[..i]
    ensures GroupOf(keys, i) == |KeySet(keys[..i])|
  {
  }

  /** There are never more groups than requests, and none without requests. */
  lemma GroupCountBound<K>(keys: seq<K>)
    ensures |KeySet(keys)| <= |keys|
    ensures keys == [] ==> |KeySet(keys)| == 0
  {
    if keys != [] {
      KeySetPrefixMonotone(keys + [keys[0]], 0, |keys|);
    }
    KeySetCardinality(keys);
  }

  lemma {:induction false} KeySetCardinality<K>(keys: seq<K>)
    ensures |KeySet(keys)| <= |keys|
  {
    if keys != [] {
      var init := keys[..|keys| - 1];
      KeySetCardinality(init);
      assert init + [keys[|keys| - 1]] == keys;
      KeySetGrows(init, keys[|keys| - 1]);
    }
  }

  /**
   * The inner scan of predict_batch: the first request before i with the
   * same (type, device) as request i, or i itself when there is none.
   */
  method FirstSameKey(requests: seq<Request>, i: nat) returns (j: nat)
    requires i < |requests|
    ensures j <= i
    ensures j < i ==> BatchKey(requests[j]) == BatchKey(requests[i])
    ensures forall k :: 0 <= k < j ==> BatchKey(requests[k]) != BatchKey(requests[i])
  {
    j := 0;
    while j < i
      invariant 0 <= j <= i
      invariant forall k :: 0 <= k < j ==> BatchKey(requests[k]) != BatchKey(requests[i])
    {
      if BatchKey(requests[i]) == BatchKey(requests[j]) {
        return;
      }
      j := j + 1;
    }
  }

  /**
   * One step of the grouping: request i joins the group of the first
   * earlier request with its key, or opens the next group when there is none.
   */
  lemma GroupStep<K>(keys: seq<K>, groups: seq<nat>, j: nat, groupId: nat)
    requires GroupsFollow(keys, groups) && |groups| < |keys|
    requires groupId == |KeySet(keys[..|groups|])|
    requires j <= |groups| && (j < |groups| ==> keys[j] == keys[|groups|])
    requires forall k :: 0 <= k < j ==> keys[k] != keys[|groups|]
    ensures j < |groups| ==> GroupsFollow(keys, groups + [groups[j]]) && |KeySet(keys[..|groups| + 1])| == groupId
    ensures j == |groups| ==> GroupsFollow(keys, groups + [groupId]) && |KeySet(keys[..|groups| + 1])| == groupId + 1
  {
    var i := |groups|;
    assert keys[..i + 1] == keys[..i] + [keys[i]];
    KeySetGrows(keys[..i], keys[i]);
    if j < i {
      assert keys[..i][j] == keys[i];
      ExtendGroups(keys, groups, groups[j]);
    } else {
      assert keys[i] !in keys[..i];
      NewKeyGetsNextId(keys, i);
      ExtendGroups(keys, groups, groupId);
    }
  }

  /** groups[k] is the group of request k, for every request grouped so far. */
  ghost predicate GroupsFollow<K>(keys: seq<K>, groups: seq<nat>)
  {
    |groups| <= |keys| && forall k :: 0 <= k < |groups| ==> groups[k] == GroupOf(keys, k)
  }

  lemma ExtendGroups<K>(keys: seq<K>, groups: seq<nat>, g: nat)
    requires GroupsFollow(keys, groups) && |groups| < |keys|
    requires g == GroupOf(keys, |groups|)
    ensures GroupsFollow(keys, groups + [g])
  {
  }

  /** The properties of a grouping that follows GroupOf. */
  lemma GroupingFacts(requests: seq<Request>, groups: seq<nat>)
    requires |groups| == |requests| && GroupsFollow(Keys(requests), groups)
    ensures |KeySet(Keys(requests))| <= |requests|
    ensures forall i :: 0 <= i < |requests| ==> groups[i] < |KeySet(Keys(requests))|
    ensures forall i, j :: 0 <= i < |requests| && 0 <= j < |requests| ==>
              (groups[i] == groups[j] <==> BatchKey(requests[i]) == BatchKey(requests[j]))
  {
    var keys := Keys(requests);
    GroupCountBound(keys);
    forall k | 0 <= k < |requests| ensures groups[k] < |KeySet(keys)| {
      GroupBelowCount(keys, k);
    }
    forall a, b | 0 <= a < |requests| && 0 <= b < |requests|
      ensures groups[a] == groups[b] <==> BatchKey(requests[a]) == BatchKey(requests[b])
    {
      SameGroupIffSameKey(keys, a, b);
    }
  }

  // ---------------------------------------------------------------------
  // The buffer state

  /**
   * ai_model_t together with g_initialized. Only the integer state is
   * modelled: the weights and scales belong to the forward pass, which is a
   * parameter here.
   *
   * The ghost sequence `written` lists every record written since the last
   * init. history_index is a uint32_t, so write w goes to slot
   * (w mod 2^32) mod 1000 (WriteSlot); Valid says that every slot holds the
   * latest record written to it. Before the index wraps this is the slot
   * w mod 1000 of each of the last 1000 writes (RecentWritesKept); after the
   * wrap the slots restart at 0 following slot 295 (WrapReusesSlotEarly).
   */
  class AiModel {
    var initialized: bool
    var learningEnabled: bool
    var requestsProcessed: nat
    var successfulPredictions: nat
    var failedPredictions: nat
    var avgLatencyUs: u32
    const history: array<HistoryRecord>
    var historyIndex: u32
    ghost var written: seq<HistoryRecord>

    ghost predicate Valid()
      reads this, history
    {
      && history.Length == HISTORY_SIZE
      && historyIndex == |written| % U32_MODULUS
      && forall s :: 0 <= s < HISTORY_SIZE && LastWriteTo(written, s).Some? ==>
           history[s] == LastWriteTo(written, s).value
    }

    /** Number of slots that hold written records: min(history_index, 1000). */
    function Window(): (n: nat)
      reads this
      ensures n <= HISTORY_SIZE && n <= historyIndex
    {
      if historyIndex < HISTORY_SIZE then historyIndex else HISTORY_SIZE
    }

    /** The zero-filled static state before ai_buffer_init. */
    constructor ()
      ensures Valid() && fresh(history)
      ensures !initialized && !learningEnabled
      ensures requestsProcessed == 0 && successfulPredictions == 0 && failedPredictions == 0
      ensures avgLatencyUs == 0 && historyIndex == 0
      ensures forall s :: 0 <= s < HISTORY_SIZE ==> history[s] == EmptyRecord
    {
      initialized, learningEnabled := false, false;
      requestsProcessed, successfulPredictions, failedPredictions := 0, 0, 0;
      avgLatencyUs, historyIndex := 0, 0;
      history := new HistoryRecord[HISTORY_SIZE](_ => EmptyRecord);
      written := [];
    }

    /**
     * ai_buffer_init: a second call succeeds and changes nothing; the first
     * zeroes the counters and the history index and records the learning
     * switch. The history slots themselves are not cleared.
     */
    method Init(learning: bool) returns (code: int)
      requires Valid()
      modifies this
      ensures Valid() && code == AI_SUCCESS
      ensures old(initialized) ==> unchanged(this)
      ensures !old(initialized) ==>
                && initialized && learningEnabled == learning
                && requestsProcessed == 0 && successfulPredictions == 0 && failedPredictions == 0
                && avgLatencyUs == 0 && historyIndex == 0 && written == []
    {
      if initialized {
        return AI_SUCCESS;
      }
      requestsProcessed, successfulPredictions, failedPredictions := 0, 0, 0;
      avgLatencyUs, historyIndex := 0, 0;
      written := [];
      learningEnabled := learning;
      initialized := true;
      code := AI_SUCCESS;
    }

    /** ai_buffer_shutdown: memset of the whole model, history included. */
    method Shutdown()
      requires Valid()
      modifies this, history
      ensures Valid() && !initialized && !learningEnabled
      ensures requestsProcessed == 0 && successfulPredictions == 0 && failedPredictions == 0
      ensures avgLatencyUs == 0 && historyIndex == 0
      ensures forall s :: 0 <= s < HISTORY_SIZE ==> history[s] == EmptyRecord
    {
      initialized, learningEnabled := false, false;
      requestsProcessed, successfulPredictions, failedPredictions := 0, 0, 0;
      avgLatencyUs, historyIndex := 0, 0;
      written := [];
      forall s | 0 <= s < history.Length {
        history[s] := EmptyRecord;
      }
    }

    /**
     * ai_buffer_process_request with the forward pass's outputs given:
     * the decision is the lowest index among the six decision scores that
     * holds their maximum, and requests_processed rises by one.
     */
    method ProcessRequest(request: Option<Request>, outputs: seq<real>) returns (code: int, prediction: Prediction)
      requires Valid() && |outputs| == AI_OUTPUT_SIZE
      modifies this
      ensures Valid()
      ensures !old(initialized) ==> code == AI_ERR_NOT_INITIALIZED && unchanged(this)
      ensures old(initialized) && request.None? ==> code == AI_ERR_INVALID_ARG && unchanged(this)
      ensures old(initialized) && request.Some? ==>
                && code == AI_SUCCESS
                && IsFirstMaximum(outputs[..DECISION_COUNT], prediction.decision)
                && prediction.confidence == outputs[prediction.decision]
                && prediction.shouldBatch == (outputs[7] > 0.5)
                && requestsProcessed == old(requestsProcessed) + 1
                && initialized && learningEnabled == old(learningEnabled)
                && successfulPredictions == old(successfulPredictions)
                && failedPredictions == old(failedPredictions)
                && avgLatencyUs == old(avgLatencyUs)
                && historyIndex == old(historyIndex) && written == old(written)
    {
      prediction := Prediction(0, 0.0, false);
      if !initialized {
        return AI_ERR_NOT_INITIALIZED, prediction;
      }
      if request.None? {
        return AI_ERR_INVALID_ARG, prediction;
      }
      var k := SelectDecision(outputs);
      prediction := Prediction(k, outputs[k], outputs[7] > 0.5);
      requestsProcessed := requestsProcessed + 1;
      code := AI_SUCCESS;
    }

    /**
     * ai_buffer_feedback: nothing happens unless the buffer is initialised
     * and learning is on. Otherwise the outcome goes to slot
     * history_index mod 1000, the index advances, exactly one of the two
     * counters rises, and the latency average absorbs the sample.
     */
    method Feedback(request: Request, decision: nat, actualLatencyUs: u32, success: bool)
      requires Valid()
      modifies this, history
      ensures Valid()
      ensures !old(initialized && learningEnabled) ==> unchanged(this) && unchanged(history)
      ensures old(initialized && learningEnabled) ==>
                var rec := HistoryRecord(PackPattern(request.reqType, request.deviceId), decision, actualLatencyUs, success);
                && written == old(written) + [rec]
                && historyIndex == (old(historyIndex) + 1) % U32_MODULUS
                && history[old(historyIndex) % HISTORY_SIZE] == rec
                && history[WriteSlot(|written| - 1)] == rec
                && (forall s :: 0 <= s < HISTORY_SIZE && s != old(historyIndex) % HISTORY_SIZE ==>
                      history[s] == old(history[s]))
                && successfulPredictions == old(successfulPredictions) + (if success then 1 else 0)
                && failedPredictions == old(failedPredictions) + (if success then 0 else 1)
                && avgLatencyUs == MovingAverage(old(avgLatencyUs), actualLatencyUs)
                && initialized && learningEnabled
                && requestsProcessed == old(requestsProcessed)
    {
      if !initialized || !learningEnabled {
        return;
      }
      var idx := historyIndex % HISTORY_SIZE;
      var rec := HistoryRecord(PackPattern(request.reqType, request.deviceId), decision, actualLatencyUs, success);
      history[idx] := rec;
      IndexSucc(|written|);
      LastWriteAppend(written, rec);
      historyIndex := (historyIndex + 1) % U32_MODULUS;
      written := written + [rec];
      if success {
        successfulPredictions := successfulPredictions + 1;
      } else {
        failedPredictions := failedPredictions + 1;
      }
      avgLatencyUs := MovingAverage(avgLatencyUs, actualLatencyUs);
    }

    /**
     * ai_buffer_predict_failure: over physical slots 0 .. min(history_index, 1000) - 1,
     * the share of failed records among those whose type byte equals the
     * request's type; 0.5 when there are none.
     */
    method PredictFailure(request: Option<Request>) returns (code: int, probability: real)
      requires Valid()
      ensures code == (if initialized && request.Some? then AI_SUCCESS else AI_ERR_INVALID_ARG)
      ensures code == AI_SUCCESS ==>
                probability == FailureRate(history[..], Window(), request.value.reqType)
      ensures 0.0 <= probability <= 1.0
    {
      probability := 0.0;
      if !initialized || request.None? {
        return AI_ERR_INVALID_ARG, probability;
      }
      var t := request.value.reqType;
      var failures, total := 0, 0;
      var i := 0;
      while i < historyIndex && i < HISTORY_SIZE
        invariant 0 <= i <= Window()
        invariant total == TypeCount(history[..i], t)
        invariant failures == FailureCount(history[..i], t)
      {
        assert history[..i + 1][..i] == history[..i];
        if PatternType(history[i].pattern) == t {
          total := total + 1;
          if !history[i].success {
            failures := failures + 1;
          }
        }
        i := i + 1;
      }
      assert history[..Window()] == history[..][..Window()];
      probability := if total > 0 then failures as real / total as real else 0.5;
      FailureRateBounds(history[..], Window(), t);
      code := AI_SUCCESS;
    }

    /**
     * ai_buffer_predict_batch: request i gets the id of the first earlier
     * request with the same (type, device), or the next fresh id. The
     * result numbers the groups 0, 1, 2, ... by first appearance, puts two
     * requests in one group exactly when their keys agree, and counts the
     * distinct keys.
     */
    method PredictBatch(requests: Option<seq<Request>>) returns (code: int, groups: seq<nat>, numGroups: nat)
      ensures code == (if initialized && requests.Some? then AI_SUCCESS else AI_ERR_INVALID_ARG)
      ensures code == AI_SUCCESS ==>
                var rs := requests.value;
                && |groups| == |rs|
                && numGroups == |KeySet(Keys(rs))|
                && numGroups <= |rs|
                && (forall i :: 0 <= i < |rs| ==> groups[i] == GroupOf(Keys(rs), i) < numGroups)
                && (forall i, j :: 0 <= i < |rs| && 0 <= j < |rs| ==>
                      (groups[i] == groups[j] <==> BatchKey(rs[i]) == BatchKey(rs[j])))
    {
      groups, numGroups := [], 0;
      if !initialized || requests.None? {
        return AI_ERR_INVALID_ARG, groups, numGroups;
      }
      var rs := requests.value;
      ghost var keys := Keys(rs);
      var groupId := 0;
      var i := 0;
      while i < |rs|
        invariant 0 <= i <= |rs| && |groups| == i
        invariant groupId == numGroups == |KeySet(keys[..i])|
        invariant GroupsFollow(keys, groups)
      {
        var j := FirstSameKey(rs, i);
        GroupStep(keys, groups, j, groupId);
        var g;
        if j < i {
          g := groups[j];
        } else {
          g := groupId;
          groupId := groupId + 1;
          numGroups := numGroups + 1;
        }
        groups := groups + [g];
        i := i + 1;
      }
      assert keys[..|rs|] == keys;
      GroupingFacts(rs, groups);
      code := AI_SUCCESS;
    }

    /**
     * ai_buffer_optimize_request: a copy of the request in which only the
     * size may differ, rounded as OptimizedSize says.
     */
    function OptimizeRequest(request: Option<Request>): (r: Result<Request>)
      reads this
      ensures r.Ok? <==> initialized && request.Some?
      ensures r.Err? ==> r.code == AI_ERR_INVALID_ARG
      ensures r.Ok? ==> r.value.size == OptimizedSize(request.value.reqType, request.value.size)
      ensures r.Ok? ==> r.value.(size := request.value.size) == request.value
    {
      if !initialized || request.None? then Err(AI_ERR_INVALID_ARG)
      else Ok(request.value.(size := OptimizedSize(request.value.reqType, request.value.size)))
    }
  }

  /** Two writes fewer than 1000 apart land in different slots. */
  lemma SlotsDiffer(w: nat, n: nat)
    requires w < n && n - w < HISTORY_SIZE
    ensures w % HISTORY_SIZE != n % HISTORY_SIZE
  {
  }

  /** The slot that write number w goes to: the uint32_t index at that time, mod 1000. */
  function WriteSlot(w: nat): (s: nat)
    ensures s < HISTORY_SIZE
    ensures w < U32_MODULUS ==> s == w % HISTORY_SIZE
  {
    (w % U32_MODULUS) % HISTORY_SIZE
  }

  /** The latest of the writes ws that went to slot s, if any did. */
  ghost function LastWriteTo(ws: seq<HistoryRecord>, s: nat): (r: Option<HistoryRecord>)
    ensures r.Some? ==> r.value in ws
    ensures r.None? <==> forall w :: 0 <= w < |ws| ==> WriteSlot(w) != s
  {
    if ws == [] then None
    else if WriteSlot(|ws| - 1) == s then Some(ws[|ws| - 1])
    else LastWriteTo(ws[..|ws| - 1], s)
  }

  /** One more write replaces what its slot held and leaves every other slot's latest write. */
  lemma LastWriteAppend(ws: seq<HistoryRecord>, rec: HistoryRecord)
    ensures forall s :: LastWriteTo(ws + [rec], s) ==
              if s == WriteSlot(|ws|) then Some(rec) else LastWriteTo(ws, s)
  {
    assert (ws + [rec])[..|ws|] == ws;
  }

  /** The index after one more write is the uint32_t increment of the index before it. */
  lemma IndexSucc(n: nat)
    ensures (n + 1) % U32_MODULUS == (n % U32_MODULUS + 1) % U32_MODULUS
  {
    var q, r := n / U32_MODULUS, n % U32_MODULUS;
    assert n == q * U32_MODULUS + r;
    if r + 1 < U32_MODULUS {
      assert n + 1 == q * U32_MODULUS + (r + 1);
    } else {
      assert n + 1 == (q + 1) * U32_MODULUS;
    }
  }

  /**
   * Until the index first wraps, each of the last 1000 writes is the latest
   * write to its slot w mod 1000, so the history holds it there.
   */
  lemma {:induction false} RecentWritesKept(ws: seq<HistoryRecord>, w: nat)
    requires |ws| <= U32_MODULUS && w < |ws| && |ws| - w <= HISTORY_SIZE
    ensures LastWriteTo(ws, w % HISTORY_SIZE) == Some(ws[w])
  {
    var n := |ws| - 1;
    if w < n {
      SlotsDiffer(w, n);
      RecentWritesKept(ws[..n], w);
    }
  }

  /**
   * Once the index wraps, write 2^32 goes to slot 0, the slot of write
   * 2^32 - 296, which is then no longer held although only 296 writes
   * followed it.
   */
  lemma WrapReusesSlotEarly(ws: seq<HistoryRecord>)
    requires |ws| == U32_MODULUS + 1 && ws[U32_MODULUS - 296] != ws[U32_MODULUS]
    ensures WriteSlot(U32_MODULUS - 296) == WriteSlot(U32_MODULUS) == 0
    ensures LastWriteTo(ws, 0) != Some(ws[U32_MODULUS - 296])
  {
  }
}
