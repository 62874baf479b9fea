/**
 * The kernel bridge: a bounded ring of 1024 pending requests, each paired
 * with the device context that issued it, drained in FIFO order by the
 * worker; a list of at most 256 registered device contexts; and the
 * counters kept in bridge_stats_t.
 *
 * The worker thread, its locks, condition variable and timed wait are not
 * modelled: DrainBatch is the body the worker runs once it wakes.
 */
module KernelBridge {
  import opened Common
  import AiBuffer

  const BRIDGE_SUCCESS: int := 0
  const BRIDGE_ERR_NOT_INIT: int := -1
  const BRIDGE_ERR_INVALID_ARG: int := -2
  const BRIDGE_ERR_DEVICE: int := -4
  const BRIDGE_ERR_TIMEOUT: int := -5

  /** The queue capacity: a literal, independent of max_pending_requests. */
  const QUEUE_CAPACITY: nat := 1024
  const MAX_DEVICES: nat := 256

  datatype Mode = Passthrough | AiAssisted | AiAutonomous | Learning

  datatype ChipsetType = Intel | Amd | Nvidia | Qualcomm | UnknownChipset

  datatype BridgeConfig = BridgeConfig(
    mode: Mode, aiEnabled: bool, maxPendingRequests: u32, batchTimeoutMs: u32, chipsetType: ChipsetType)

  /**
   * The integer counters of bridge_stats_t. The average latency and the
   * accuracy are filled in from the AI buffer by bridge_get_stats, which is
   * not part of this model.
   */
  datatype BridgeStats = BridgeStats(
    totalRequests: nat, windowsToLinux: nat, linuxToWindows: nat,
    aiOptimized: nat, aiBatched: nat, failures: nat)

  const ZeroStats := BridgeStats(0, 0, 0, 0, 0, 0)

  /** device_context_t without the two opaque OS handles, which the bridge only stores. */
  class DeviceContext {
    const deviceId: u32
    const chipsetType: ChipsetType
    const aiManaged: bool
    var activeRequests: u32

    constructor (deviceId: u32, chipsetType: ChipsetType, aiManaged: bool)
      ensures this.deviceId == deviceId && this.chipsetType == chipsetType
      ensures this.aiManaged == aiManaged && activeRequests == 0
    {
      this.deviceId := deviceId;
      this.chipsetType := chipsetType;
      this.aiManaged := aiManaged;
      activeRequests := 0;
    }
  }

  /** One queue slot: the copied request and the context that sent it. */
  datatype QueueEntry = QueueEntry(request: AiBuffer.Request, context: DeviceContext)

  /** No element of s occurs twice. */
  ghost predicate Distinct<T>(s: seq<T>)
  {
    forall a, b :: 0 <= a < b < |s| ==> s[a] != s[b]
  }

  lemma DistinctRemoveAt<T>(s: seq<T>, i: nat)
    requires i < |s| && Distinct(s)
    ensures Distinct(s[..i] + s[i + 1..])
  {
    var r := s[..i] + s[i + 1..];
    forall a, b | 0 <= a < b < |r| ensures r[a] != r[b] {
      var a', b' := if a < i then a else a + 1, if b < i then b else b + 1;
      assert r[a] == s[a'] && r[b] == s[b'];
    }
  }

  /** s with every occurrence of x taken out, the others in their order. */
  function Without<T(==)>(s: seq<T>, x: T): (r: seq<T>)
    ensures x !in r
    ensures |r| <= |s|
  {
    if s == [] then []
    else (if s[0] == x then [] else [s[0]]) + Without(s[1..], x)
  }

  /** Nothing is added: every element left was in s. */
  lemma {:induction false} WithoutMembers<T>(s: seq<T>, x: T)
    ensures forall y :: y in Without(s, x) ==> y in s && y != x
  {
    if s != [] {
      WithoutMembers(s[1..], x);
      assert Without(s, x) == (if s[0] == x then [] else [s[0]]) + Without(s[1..], x);
      forall y | y in Without(s[1..], x) ensures y in s {
        var t :| 0 <= t < |s[1..]| && s[1..][t] == y;
        assert s[t + 1] == y;
      }
    }
  }

  /** An absent element: nothing is taken out. */
  lemma {:induction false} WithoutAbsent<T>(s: seq<T>, x: T)
    requires x !in s
    ensures Without(s, x) == s
  {
    if s != [] {
      WithoutAbsent(s[1..], x);
    }
  }

  lemma DistinctTail<T>(s: seq<T>)
    requires s != [] && Distinct(s)
    ensures Distinct(s[1..])
  {
    var t := s[1..];
    forall a, b | 0 <= a < b < |t| ensures t[a] != t[b] {
      assert t[a] == s[a + 1] && t[b] == s[b + 1];
    }
  }

  /** In a list without repeats, taking out the element at i closes the gap at i. */
  lemma {:induction false} WithoutAt<T>(s: seq<T>, i: nat)
    requires i < |s| && Distinct(s)
    ensures Without(s, s[i]) == s[..i] + s[i + 1..]
  {
    if i == 0 {
      assert s[0] !in s[1..];
      WithoutAbsent(s[1..], s[0]);
    } else {
      var t := s[1..];
      DistinctTail(s);
      assert t[i - 1] == s[i] && s[0] != s[i];
      WithoutAt(t, i - 1);
      assert Without(s, s[i]) == [s[0]] + Without(t, s[i]);
      assert t[..i - 1] == s[1..i] && t[i..] == s[i + 1..];
      assert s[..i] == [s[0]] + s[1..i];
    }
  }

  /** Entry k of q sits in slot (head + k) mod 1024 of the two parallel arrays. */
  ghost predicate RingHolds(reqs: seq<AiBuffer.Request>, ctxs: seq<DeviceContext?>, head: nat, q: seq<QueueEntry>)
  {
    && |reqs| == QUEUE_CAPACITY && |ctxs| == QUEUE_CAPACITY
    && head < QUEUE_CAPACITY && |q| <= QUEUE_CAPACITY
    && forall k :: 0 <= k < |q| ==>
         reqs[(head + k) % QUEUE_CAPACITY] == q[k].request && ctxs[(head + k) % QUEUE_CAPACITY] == q[k].context
  }

  /** Taking the front entry: it sits at head, and the rest start one slot later. */
  lemma RingPop(reqs: seq<AiBuffer.Request>, ctxs: seq<DeviceContext?>, head: nat, q: seq<QueueEntry>)
    requires RingHolds(reqs, ctxs, head, q) && q != []
    ensures reqs[head] == q[0].request && ctxs[head] == q[0].context
    ensures RingHolds(reqs, ctxs, (head + 1) % QUEUE_CAPACITY, q[1..])
  {
    assert (head + 0) % QUEUE_CAPACITY == head;
    var rest := q[1..];
    forall k | 0 <= k < |rest|
      ensures rest[k] == q[k + 1]
      ensures ((head + 1) % QUEUE_CAPACITY + k) % QUEUE_CAPACITY == (head + (k + 1)) % QUEUE_CAPACITY
    {
      AdvanceHead(head, k + 1);
    }
  }

  /** Advancing head by one and shortening the queue by one leaves the tail slot where it was. */
  lemma AdvanceHead(head: nat, count: nat)
    requires count > 0
    ensures ((head + 1) % QUEUE_CAPACITY + (count - 1)) % QUEUE_CAPACITY == (head + count) % QUEUE_CAPACITY
  {
  }

  /** The slot after the last entry is one past the old tail. */
  lemma TailStep(head: nat, count: nat)
    ensures ((head + count) % QUEUE_CAPACITY + 1) % QUEUE_CAPACITY == (head + count + 1) % QUEUE_CAPACITY
  {
  }

  /** Adding at the back: the new entry goes to slot (head + |q|) mod 1024, which no entry occupies. */
  lemma RingPush(reqs: seq<AiBuffer.Request>, ctxs: seq<DeviceContext?>, head: nat, q: seq<QueueEntry>, e: QueueEntry)
    requires RingHolds(reqs, ctxs, head, q) && |q| < QUEUE_CAPACITY
    ensures var slot := (head + |q|) % QUEUE_CAPACITY;
            RingHolds(reqs[slot := e.request], ctxs[slot := e.context], head, q + [e])
  {
    var slot := (head + |q|) % QUEUE_CAPACITY;
    var q' := q + [e];
    forall k | 0 <= k < |q| ensures q'[k] == q[k] && (head + k) % QUEUE_CAPACITY != slot {
    }
  }

  /**
   * The bridge's global state: g_bridge and g_queue.
   *
   * The ghost sequence `queue` is the ring's contents, oldest first; Valid
   * ties it to the slots head, head + 1, ... (mod 1024).
   */
  class Bridge {
    var initialized: bool
    var config: BridgeConfig
    var stats: BridgeStats
    const devices: array<DeviceContext?>
    var deviceCount: nat
    var workerRunning: bool
    const requests: array<AiBuffer.Request>
    const contexts: array<DeviceContext?>
    var head: nat
    var tail: nat
    var count: nat
    ghost var queue: seq<QueueEntry>

    ghost predicate Valid()
      reads this, devices, requests, contexts
    {
      && devices.Length == MAX_DEVICES
      && devices != contexts
      && deviceCount <= MAX_DEVICES
      && null !in devices[..deviceCount]
      && Distinct(devices[..deviceCount])
      && QueueValid()
    }

    ghost predicate QueueValid()
      reads this, requests, contexts
    {
      && requests.Length == QUEUE_CAPACITY
      && contexts.Length == QUEUE_CAPACITY
      && head < QUEUE_CAPACITY
      && count <= QUEUE_CAPACITY
      && tail == (head + count) % QUEUE_CAPACITY
      && |queue| == count
      && RingHolds(requests[..], contexts[..], head, queue)
    }

    /** The registered contexts, in registration order. */
    function Devices(): seq<DeviceContext?>
      reads this, devices
      requires deviceCount <= devices.Length
    {
      devices[..deviceCount]
    }

    /** The zero-filled static state. */
    constructor ()
      ensures Valid() && !initialized && !workerRunning
      ensures deviceCount == 0 && queue == [] && stats == ZeroStats
    {
      initialized, workerRunning := false, false;
      config := BridgeConfig(Passthrough, false, 0, 0, Intel);
      stats := ZeroStats;
      devices := new DeviceContext?[MAX_DEVICES](_ => null);
      deviceCount := 0;
      requests := new AiBuffer.Request[QUEUE_CAPACITY](_ => AiBuffer.Request(0, 0, 0, 0, 0, 0, 0));
      contexts := new DeviceContext?[QUEUE_CAPACITY](_ => null);
      head, tail, count := 0, 0, 0;
      queue := [];
    }

    /**
     * bridge_init. A second call succeeds and changes nothing; a null
     * configuration is rejected. Otherwise the configuration is copied, the
     * counters and the queue are reset, the AI buffer is started when AI is
     * enabled (in learning mode exactly when the bridge mode is Learning),
     * and the worker is marked running. `workerStarted` is the outcome of
     * pthread_create: when it fails the call returns BRIDGE_ERR_DEVICE and
     * the bridge stays uninitialised, with the earlier steps already done.
     */
    method Init(cfg: Option<BridgeConfig>, ai: AiBuffer.AiModel, workerStarted: bool) returns (code: int)
      requires Valid() && ai.Valid()
      modifies this, ai
      ensures Valid() && ai.Valid()
      ensures old(initialized) ==> code == BRIDGE_SUCCESS && unchanged(this) && unchanged(ai)
      ensures !old(initialized) && cfg.None? ==> code == BRIDGE_ERR_INVALID_ARG && unchanged(this) && unchanged(ai)
      ensures !old(initialized) && cfg.Some? ==>
                && config == cfg.value && stats == ZeroStats
                && head == 0 && tail == 0 && count == 0 && queue == []
                && workerRunning
                && initialized == workerStarted
                && code == (if workerStarted then BRIDGE_SUCCESS else BRIDGE_ERR_DEVICE)
                && deviceCount == old(deviceCount)
                && (cfg.value.aiEnabled && old(ai.initialized) ==> unchanged(ai))
                && (cfg.value.aiEnabled && !old(ai.initialized) ==>
                      && ai.initialized && ai.learningEnabled == (cfg.value.mode == Learning)
                      && ai.requestsProcessed == 0 && ai.successfulPredictions == 0 && ai.failedPredictions == 0
                      && ai.avgLatencyUs == 0 && ai.historyIndex == 0 && ai.written == [])
                && (!cfg.value.aiEnabled ==> unchanged(ai))
    {
      if initialized {
        return BRIDGE_SUCCESS;
      }
      if cfg.None? {
        return BRIDGE_ERR_INVALID_ARG;
      }
      Reset(cfg.value);
      if config.aiEnabled {
        // ai_buffer_init always reports success, so the AI_FAILURE return is never taken.
        var _ := ai.Init(config.mode == Learning);
      }
      workerRunning := true;
      if !workerStarted {
        return BRIDGE_ERR_DEVICE;
      }
      initialized := true;
      code := BRIDGE_SUCCESS;
    }

    /**
     * bridge_shutdown: stops the worker, shuts the AI buffer down when AI is
     * enabled, releases every registered context and marks the bridge
     * uninitialised. The queue is left as it is.
     */
    method Shutdown(ai: AiBuffer.AiModel)
      requires Valid() && ai.Valid()
      modifies this, devices, ai, ai.history
      ensures Valid() && ai.Valid()
      ensures !old(initialized) ==> unchanged(this, devices) && unchanged(ai, ai.history)
      ensures old(initialized) ==>
                && !initialized && !workerRunning && deviceCount == 0
                && (forall i :: 0 <= i < old(deviceCount) ==> devices[i] == null)
                && config == old(config) && stats == old(stats) && queue == old(queue)
                && head == old(head) && tail == old(tail) && count == old(count)
                && (config.aiEnabled ==> !ai.initialized && ai.historyIndex == 0)
                && (!config.aiEnabled ==> unchanged(ai, ai.history))
    {
      if !initialized {
        return;
      }
      workerRunning := false;
      if config.aiEnabled {
        ai.Shutdown();
      }
      ClearDevices(deviceCount);
      deviceCount := 0;
      initialized := false;
    }

    /** The first n device slots are emptied; the others keep their contexts. */
    method ClearDevices(n: nat)
      requires n <= devices.Length
      modifies devices
      ensures forall k :: 0 <= k < n ==> devices[k] == null
      ensures forall k :: n <= k < devices.Length ==> devices[k] == old(devices[k])
    {
      var i := 0;
      while i < n
        invariant 0 <= i <= n
        invariant forall k :: 0 <= k < i ==> devices[k] == null
        invariant forall k :: i <= k < devices.Length ==> devices[k] == old(devices[k])
      {
        devices[i] := null;
        i := i + 1;
      }
    }

    /**
     * bridge_register_device: null before init and when 256 contexts are
     * registered; otherwise a new context with no active requests, managed
     * by the AI exactly when AI is enabled, appended to the list.
     */
    method RegisterDevice(deviceId: u32, chipsetType: ChipsetType) returns (ctx: DeviceContext?)
      requires Valid()
      modifies this, devices
      ensures Valid()
      ensures ctx == null <==> !old(initialized) || old(deviceCount) >= MAX_DEVICES
      ensures ctx == null ==> unchanged(this, devices)
      ensures ctx != null ==>
                && fresh(ctx)
                && ctx.deviceId == deviceId && ctx.chipsetType == chipsetType
                && ctx.aiManaged == config.aiEnabled && ctx.activeRequests == 0
                && Devices() == old(Devices()) + [ctx]
                && initialized && config == old(config) && stats == old(stats)
                && queue == old(queue) && head == old(head) && tail == old(tail) && count == old(count)
      ensures workerRunning == old(workerRunning)
    {
      if !initialized || deviceCount >= MAX_DEVICES {
        return null;
      }
      ctx := new DeviceContext(deviceId, chipsetType, config.aiEnabled);
      devices[deviceCount] := ctx;
      deviceCount := deviceCount + 1;
    }

    /**
     * bridge_unregister_device: the context leaves the list and the
     * contexts after it move down one place, keeping their order; a
     * context that is not registered leaves the list as it was.
     */
    method UnregisterDevice(ctx: DeviceContext?)
      requires Valid()
      modifies this, devices
      ensures Valid()
      ensures !old(initialized) || ctx == null ==> unchanged(this, devices)
      ensures old(initialized) && ctx != null ==>
                && Devices() == Without(old(Devices()), ctx)
                && deviceCount == old(deviceCount) - (if ctx in old(Devices()) then 1 else 0)
      ensures initialized == old(initialized) && config == old(config) && stats == old(stats)
      ensures queue == old(queue) && head == old(head) && tail == old(tail) && count == old(count)
      ensures workerRunning == old(workerRunning)
    {
      if !initialized || ctx == null {
        return;
      }
      var i := 0;
      while i < deviceCount && devices[i] != ctx
        modifies {}
        invariant 0 <= i <= deviceCount
        invariant forall k :: 0 <= k < i ==> devices[k] != ctx
      {
        i := i + 1;
      }
      if i == deviceCount {
        WithoutAbsent(Devices(), ctx);
        return;
      }
      RemoveDeviceAt(i);
      WithoutAt(old(Devices()), i);
    }

    /** The shift loop of bridge_unregister_device: entry i goes, the later ones move down a place. */
    method RemoveDeviceAt(i: nat)
      requires Valid() && i < deviceCount
      modifies this, devices
      ensures Valid()
      ensures Devices() == old(Devices()[..i] + Devices()[i + 1..])
      ensures deviceCount == old(deviceCount) - 1
      ensures initialized == old(initialized) && config == old(config) && stats == old(stats)
      ensures queue == old(queue) && head == old(head) && tail == old(tail) && count == old(count)
      ensures workerRunning == old(workerRunning)
    {
      ghost var before := devices[..];
      var j := i;
      while j < deviceCount - 1
        modifies devices
        invariant i <= j <= deviceCount - 1
        invariant forall k :: 0 <= k < i ==> devices[k] == before[k]
        invariant forall k :: i <= k < j ==> devices[k] == before[k + 1]
        invariant forall k :: j <= k < devices.Length ==> devices[k] == before[k]
      {
        devices[j] := devices[j + 1];
        j := j + 1;
      }
      ghost var n := deviceCount;
      deviceCount := deviceCount - 1;
      devices[deviceCount] := null;
      assert Devices() == before[..n][..i] + before[..n][i + 1..];
      DistinctRemoveAt(before[..n], i);
    }

    /**
     * bridge_forward_request. Invalid calls change nothing. Every valid call
     * counts in total_requests; with 1024 requests pending it also counts a
     * failure and returns BRIDGE_ERR_TIMEOUT, leaving the queue alone.
     * Otherwise the request joins the back of the queue and the context
     * has one more active request.
     */
    method ForwardRequest(ctx: DeviceContext?, request: Option<AiBuffer.Request>) returns (code: int)
      requires Valid()
      modifies this, requests, contexts, ctx
      ensures Valid()
      ensures !old(initialized) || ctx == null || request.None? ==>
                code == BRIDGE_ERR_INVALID_ARG && unchanged(this, requests, contexts) && (ctx != null ==> unchanged(ctx))
      ensures old(initialized) && ctx != null && request.Some? ==>
                if old(count) >= QUEUE_CAPACITY then
                  && code == BRIDGE_ERR_TIMEOUT
                  && stats == old(stats).(totalRequests := old(stats.totalRequests) + 1, failures := old(stats.failures) + 1)
                  && queue == old(queue) && head == old(head) && tail == old(tail) && count == old(count)
                  && ctx.activeRequests == old(ctx.activeRequests)
                else
                  && code == BRIDGE_SUCCESS
                  && stats == old(stats).(totalRequests := old(stats.totalRequests) + 1)
                  && queue == old(queue) + [QueueEntry(request.value, ctx)]
                  && head == old(head) && tail == (old(tail) + 1) % QUEUE_CAPACITY && count == old(count) + 1
                  && ctx.activeRequests == (old(ctx.activeRequests) + 1) % U32_MODULUS
      ensures initialized == old(initialized) && config == old(config) && workerRunning == old(workerRunning)
      ensures deviceCount == old(deviceCount) && unchanged(devices)
    {
      if !initialized || ctx == null || request.None? {
        return BRIDGE_ERR_INVALID_ARG;
      }
      stats := stats.(totalRequests := stats.totalRequests + 1);
      if count >= QUEUE_CAPACITY {
        stats := stats.(failures := stats.failures + 1);
        return BRIDGE_ERR_TIMEOUT;
      }
      PushBack(QueueEntry(request.value, ctx));
      ctx.activeRequests := (ctx.activeRequests + 1) % U32_MODULUS;
      code := BRIDGE_SUCCESS;
    }

    /** The configuration is taken and the statistics and the queue start empty. */
    method Reset(c: BridgeConfig)
      requires Valid()
      modifies this
      ensures Valid()
      ensures config == c && stats == ZeroStats && head == 0 && tail == 0 && count == 0 && queue == []
      ensures initialized == old(initialized) && workerRunning == old(workerRunning) && deviceCount == old(deviceCount)
    {
      config := c;
      stats := ZeroStats;
      head, tail, count := 0, 0, 0;
      queue := [];
    }

    /** The enqueue step of bridge_forward_request: the entry goes into slot tail. */
    method PushBack(e: QueueEntry)
      requires Valid() && count < QUEUE_CAPACITY
      modifies this, requests, contexts
      ensures Valid()
      ensures queue == old(queue) + [e]
      ensures head == old(head) && tail == (old(tail) + 1) % QUEUE_CAPACITY && count == old(count) + 1
      ensures initialized == old(initialized) && config == old(config) && stats == old(stats)
      ensures workerRunning == old(workerRunning) && deviceCount == old(deviceCount)
    {
      var idx := tail;
      ghost var reqs, ctxs, devs := requests[..], contexts[..], devices[..deviceCount];
      assert idx == (head + |queue|) % QUEUE_CAPACITY;
      RingPush(reqs, ctxs, head, queue, e);
      requests[idx] := e.request;
      contexts[idx] := e.context;
      assert requests[..] == reqs[idx := e.request];
      assert contexts[..] == ctxs[idx := e.context];
      assert devices[..deviceCount] == devs;
      TailStep(head, count);
      tail := (tail + 1) % QUEUE_CAPACITY;
      count := count + 1;
      queue := queue + [e];
      assert RingHolds(requests[..], contexts[..], head, queue);
      assert QueueValid();
    }

    /**
     * One pass of the worker's loop body once it wakes: the batch is the
     * requests pending at that moment, taken from the front in FIFO order.
     * Each one counts in windows_to_linux, and in ai_optimized when AI is
     * enabled and the AI buffer accepts it. `forward` is the network's
     * forward pass, which the AI buffer consults for each request.
     */
    method DrainBatch(ai: AiBuffer.AiModel, forward: AiBuffer.Request -> seq<real>) returns (batch: seq<QueueEntry>)
      requires Valid() && ai.Valid()
      requires forall r :: |forward(r)| == AiBuffer.AI_OUTPUT_SIZE
      modifies this, ai
      ensures Valid() && ai.Valid()
      ensures batch == old(queue)
      ensures queue == [] && count == 0 && head == old(tail) && tail == old(tail)
      ensures var optimized := if config.aiEnabled && old(ai.initialized) then |batch| else 0;
              && stats == old(stats).(windowsToLinux := old(stats.windowsToLinux) + |batch|,
                                      aiOptimized := old(stats.aiOptimized) + optimized)
              && ai.requestsProcessed == old(ai.requestsProcessed) + optimized
      ensures ai.initialized == old(ai.initialized) && ai.written == old(ai.written)
      ensures ai.learningEnabled == old(ai.learningEnabled) && ai.historyIndex == old(ai.historyIndex)
      ensures ai.successfulPredictions == old(ai.successfulPredictions) && ai.failedPredictions == old(ai.failedPredictions)
      ensures ai.avgLatencyUs == old(ai.avgLatencyUs)
      ensures initialized == old(initialized) && config == old(config) && workerRunning == old(workerRunning)
      ensures deviceCount == old(deviceCount)
    {
      var batchSize := count;
      var i := 0;
      batch := [];
      ghost var pending := queue;
      ghost var counted := config.aiEnabled && ai.initialized;
      while i < batchSize
        invariant 0 <= i <= batchSize == |pending|
        invariant Valid() && ai.Valid()
        invariant batch == pending[..i] && queue == pending[i..]
        invariant count == batchSize - i && tail == old(tail)
        invariant stats == old(stats).(windowsToLinux := old(stats.windowsToLinux) + i,
                                       aiOptimized := old(stats.aiOptimized) + (if counted then i else 0))
        invariant ai.requestsProcessed == old(ai.requestsProcessed) + (if counted then i else 0)
        invariant ai.initialized == old(ai.initialized) && ai.written == old(ai.written)
        invariant ai.learningEnabled == old(ai.learningEnabled) && ai.historyIndex == old(ai.historyIndex)
        invariant ai.successfulPredictions == old(ai.successfulPredictions) && ai.failedPredictions == old(ai.failedPredictions)
        invariant ai.avgLatencyUs == old(ai.avgLatencyUs)
        invariant initialized == old(initialized) && config == old(config) && workerRunning == old(workerRunning)
        invariant deviceCount == old(deviceCount)
      {
        var entry := PopFront();
        Deliver(ai, entry, forward(entry.request));
        batch := batch + [entry];
        assert pending[..i + 1] == pending[..i] + [pending[i]];
        i := i + 1;
      }
    }

    /** One entry of the batch: counted as forwarded, and handed to the AI buffer when it is enabled. */
    method Deliver(ai: AiBuffer.AiModel, entry: QueueEntry, outputs: seq<real>)
      requires Valid() && ai.Valid() && |outputs| == AiBuffer.AI_OUTPUT_SIZE
      modifies this, ai
      ensures Valid() && ai.Valid()
      ensures var optimized := if config.aiEnabled && ai.initialized then 1 else 0;
              && stats == old(stats).(windowsToLinux := old(stats.windowsToLinux) + 1,
                                      aiOptimized := old(stats.aiOptimized) + optimized)
              && ai.requestsProcessed == old(ai.requestsProcessed) + optimized
      ensures ai.initialized == old(ai.initialized) && ai.written == old(ai.written)
      ensures ai.learningEnabled == old(ai.learningEnabled) && ai.historyIndex == old(ai.historyIndex)
      ensures ai.successfulPredictions == old(ai.successfulPredictions) && ai.failedPredictions == old(ai.failedPredictions)
      ensures ai.avgLatencyUs == old(ai.avgLatencyUs)
      ensures initialized == old(initialized) && config == old(config) && workerRunning == old(workerRunning)
      ensures deviceCount == old(deviceCount) && queue == old(queue)
      ensures head == old(head) && tail == old(tail) && count == old(count)
    {
      if config.aiEnabled {
        var aiCode, _ := ai.ProcessRequest(Some(entry.request), outputs);
        if aiCode == AiBuffer.AI_SUCCESS {
          stats := stats.(aiOptimized := stats.aiOptimized + 1);
        }
      }
      stats := stats.(windowsToLinux := stats.windowsToLinux + 1);
    }

    /** Takes the oldest entry off the ring: head moves one slot on and count drops by one. */
    method PopFront() returns (entry: QueueEntry)
      requires Valid() && count > 0
      modifies this
      ensures Valid()
      ensures entry == old(queue[0]) && queue == old(queue[1..])
      ensures head == (old(head) + 1) % QUEUE_CAPACITY && count == old(count) - 1 && tail == old(tail)
      ensures initialized == old(initialized) && config == old(config) && stats == old(stats)
      ensures workerRunning == old(workerRunning) && deviceCount == old(deviceCount)
    {
      RingPop(requests[..], contexts[..], head, queue);
      AdvanceHead(head, count);
      var ctx := contexts[head];
      entry := QueueEntry(requests[head], ctx);
      head := (head + 1) % QUEUE_CAPACITY;
      count := count - 1;
      queue := queue[1..];
      assert RingHolds(requests[..], contexts[..], head, queue);
    }

    /**
     * bridge_send_response: counts a response in linux_to_windows and
     * retires one active request of the context, never going below zero.
     */
    method SendResponse(ctx: DeviceContext?, data: Option<seq<u8>>) returns (code: int)
      requires Valid()
      modifies this, ctx
      ensures Valid()
      ensures !old(initialized) || ctx == null || data.None? ==>
                code == BRIDGE_ERR_INVALID_ARG && unchanged(this) && (ctx != null ==> unchanged(ctx))
      ensures old(initialized) && ctx != null && data.Some? ==>
                && code == BRIDGE_SUCCESS
                && stats == old(stats).(linuxToWindows := old(stats.linuxToWindows) + 1)
                && ctx.activeRequests == (if old(ctx.activeRequests) > 0 then old(ctx.activeRequests) - 1 else 0)
                && initialized && config == old(config) && queue == old(queue)
                && head == old(head) && tail == old(tail) && count == old(count) && deviceCount == old(deviceCount)
      ensures workerRunning == old(workerRunning)
    {
      if !initialized || ctx == null || data.None? {
        return BRIDGE_ERR_INVALID_ARG;
      }
      stats := stats.(linuxToWindows := stats.linuxToWindows + 1);
      if ctx.activeRequests > 0 {
        ctx.activeRequests := ctx.activeRequests - 1;
      }
      code := BRIDGE_SUCCESS;
    }

    /** bridge_set_mode: BRIDGE_ERR_NOT_INIT before init, otherwise only the mode changes. */
    method SetMode(mode: Mode) returns (code: int)
      requires Valid()
      modifies this
      ensures Valid()
      ensures !old(initialized) ==> code == BRIDGE_ERR_NOT_INIT && unchanged(this)
      ensures old(initialized) ==>
                && code == BRIDGE_SUCCESS && config == old(config).(mode := mode)
                && initialized && stats == old(stats) && queue == old(queue)
                && head == old(head) && tail == old(tail) && count == old(count) && deviceCount == old(deviceCount)
      ensures workerRunning == old(workerRunning)
    {
      if !initialized {
        return BRIDGE_ERR_NOT_INIT;
      }
      config := config.(mode := mode);
      code := BRIDGE_SUCCESS;
    }

    /**
     * bridge_chipset_configure: the bridge must be up and both the context
     * and the parameter name given; the value is only logged.
     */
    function Configure(ctx: DeviceContext?, param: Option<string>): (code: int)
      reads this
      ensures code == BRIDGE_SUCCESS <==> initialized && ctx != null && param.Some?
      ensures code != BRIDGE_SUCCESS ==> code == BRIDGE_ERR_INVALID_ARG
    {
      if !initialized || ctx == null || param.None? then BRIDGE_ERR_INVALID_ARG else BRIDGE_SUCCESS
    }

    /**
     * bridge_chipset_power_state: the bridge must be up and the context
     * given; the state is only logged.
     */
    function PowerState(ctx: DeviceContext?): (code: int)
      reads this
      ensures code == BRIDGE_SUCCESS <==> initialized && ctx != null
      ensures code != BRIDGE_SUCCESS ==> code == BRIDGE_ERR_INVALID_ARG
    {
      if !initialized || ctx == null then BRIDGE_ERR_INVALID_ARG else BRIDGE_SUCCESS
    }
  }
}
