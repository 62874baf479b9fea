/**
 * The port-forwarding subsystem: an ordered table of at most 1024 rules
 * with ids handed out from a counter, NAT and PAT lookup by first match,
 * UPnP mappings stored as ordinary rules, and a fixed table of 256 driver
 * slots through which packets are counted.
 *
 * The packet and event callbacks are foreign code: whether one is
 * registered is a field, the packet callback's return code is a parameter
 * of ForwardPacket, and the events it would receive are appended to
 * `events`.
 */
module PortForward {
  import opened Common

  const PF_SUCCESS: int := 0
  const PF_ERR_INVALID: int := -1
  const PF_ERR_NOT_FOUND: int := -3
  const PF_ERR_EXISTS: int := -4
  const PF_ERR_LIMIT: int := -5
  const PF_ERR_DISABLED: int := -6

  const PF_FLAG_ENABLED: bv32 := 0x01
  const PF_FLAG_PERSISTENT: bv32 := 0x02
  const PF_FLAG_NAT: bv32 := 0x04
  const PF_FLAG_PAT: bv32 := 0x08
  const PF_FLAG_UPNP: bv32 := 0x10
  const PF_FLAG_BIDIRECTIONAL: bv32 := 0x20

  const PF_MAX_RULES: nat := 1024
  const MAX_DRIVERS: nat := 256

  /** The address that, as a rule's source, matches every address. */
  const ANY_ADDRESS: string := "0.0.0.0"
  const LOOPBACK_ADDRESS: string := "127.0.0.1"

  datatype Protocol = Any | Tcp | Udp | Sctp

  /** pf_rule_t without the opaque driver context pointer. */
  datatype Rule = Rule(
    id: nat, name: string,
    srcAddr: string, srcPort: u16,
    dstAddr: string, dstPort: u16,
    protocol: Protocol, flags: bv32,
    packetsForwarded: nat, bytesForwarded: nat, lastActivity: nat,
    driverId: u32)

  datatype PfConfig = PfConfig(
    natEnabled: bool, patEnabled: bool, upnpEnabled: bool, natpEnabled: bool,
    upnpPort: u16, timeoutTcp: u32, timeoutUdp: u32, maxRules: u32)

  datatype PfStats = PfStats(totalRules: nat, totalPackets: nat, totalBytes: nat, droppedPackets: nat, errors: nat)

  /** One entry of the driver registry, without its opaque context pointer. */
  datatype DriverSlot = DriverSlot(driverId: u32, active: bool)

  /** A call of the event callback: the rule id and the event's name. */
  datatype Event = Event(ruleId: nat, name: string)

  const ZeroStats := PfStats(0, 0, 0, 0, 0)
  const EmptyRule := Rule(0, "", "", 0, "", 0, Any, 0, 0, 0, 0, 0)
  const EmptySlot := DriverSlot(0, false)

  // ---------------------------------------------------------------------
  // Flags

  /** `flags | bit`: the bit is set and every other bit keeps its value. */
  function SetFlag(flags: bv32, bit: bv32): (r: bv32)
    ensures r & bit == bit
    ensures r & !bit == flags & !bit
  {
    flags | bit
  }

  /** `flags & ~bit`: the bit is clear and every other bit keeps its value. */
  function ClearFlag(flags: bv32, bit: bv32): (r: bv32)
    ensures r & bit == 0
    ensures r & !bit == flags & !bit
  {
    flags & !bit
  }

  predicate HasFlag(flags: bv32, bit: bv32)
  {
    flags & bit != 0
  }

  // ---------------------------------------------------------------------
  // The capacity check of pf_add_rule

  /**
   * The capacity check as the source writes it: a rule is admitted while
   * rule_count < config.max_rules. Nothing ties max_rules to the size of
   * the rules array.
   */
  function AdmitsAsWritten(ruleCount: nat, maxRules: u32): bool
  {
    ruleCount < maxRules
  }

  /**
   * A configuration with max_rules above 1024 lets the 1025th rule through
   * the check, and it is then stored at index 1024 of a 1024-entry array.
   */
  lemma AdmitsAsWrittenOverflows()
    ensures var ruleCount, maxRules := PF_MAX_RULES, 2000;
            AdmitsAsWritten(ruleCount, maxRules) && ruleCount >= PF_MAX_RULES
  {
  }

  /** The check the table needs: below both the configured and the built-in limit. */
  function Admits(ruleCount: nat, maxRules: u32): (ok: bool)
    ensures ok ==> ruleCount < PF_MAX_RULES
    ensures maxRules <= PF_MAX_RULES ==> ok == AdmitsAsWritten(ruleCount, maxRules)
    ensures ok <==> ruleCount < maxRules && ruleCount < PF_MAX_RULES
  {
    ruleCount < maxRules && ruleCount < PF_MAX_RULES
  }

  // ---------------------------------------------------------------------
  // Rule sequences

  /** Ids rise strictly along the table: they were handed out in order and never repeat. */
  ghost predicate IdsIncreasing(rs: seq<Rule>)
  {
    forall i, j :: 0 <= i < j < |rs| ==> rs[i].id < rs[j].id
  }

  ghost predicate HasId(rs: seq<Rule>, id: nat)
  {
    exists i :: 0 <= i < |rs| && rs[i].id == id
  }

  /** The rules whose id differs from `id`, in table order. */
  function WithoutId(rs: seq<Rule>, id: nat): (r: seq<Rule>)
    ensures |r| <= |rs|
  {
    if rs == [] then []
    else (if rs[0].id == id then [] else [rs[0]]) + WithoutId(rs[1..], id)
  }

  /** No kept rule has the id, and every kept rule comes from the table. */
  lemma {:induction false} WithoutIdMembers(rs: seq<Rule>, id: nat)
    ensures forall r :: r in WithoutId(rs, id) ==> r in rs && r.id != id
  {
    if rs != [] {
      WithoutIdMembers(rs[1..], id);
      assert WithoutId(rs, id) == (if rs[0].id == id then [] else [rs[0]]) + WithoutId(rs[1..], id);
      forall r | r in WithoutId(rs[1..], id) ensures r in rs {
        var t :| 0 <= t < |rs[1..]| && rs[1..][t] == r;
        assert rs[t + 1] == r;
      }
    }
  }

  lemma {:induction false} WithoutAbsentId(rs: seq<Rule>, id: nat)
    requires forall i :: 0 <= i < |rs| ==> rs[i].id != id
    ensures WithoutId(rs, id) == rs
  {
    if rs != [] {
      WithoutAbsentId(rs[1..], id);
    }
  }

  lemma {:induction false} WithoutIdConcat(a: seq<Rule>, b: seq<Rule>, id: nat)
    ensures WithoutId(a + b, id) == WithoutId(a, id) + WithoutId(b, id)
  {
    if a == [] {
      assert a + b == b;
    } else {
      assert (a + b)[0] == a[0] && (a + b)[1..] == a[1..] + b;
      WithoutIdConcat(a[1..], b, id);
    }
  }

  /**
   * With increasing ids, dropping the rule at i (the shift loop of
   * pf_remove_rule) is the same as keeping every rule with a different id.
   */
  lemma RemoveAtIsWithoutId(rs: seq<Rule>, i: nat)
    requires i < |rs| && IdsIncreasing(rs)
    ensures WithoutId(rs, rs[i].id) == rs[..i] + rs[i + 1..]
  {
    DropAt(rs, i);
    OthersKeepIds(rs, i);
  }

  /** Dropping the id of the rule at i drops that rule and filters the rules on either side. */
  lemma DropAt(rs: seq<Rule>, i: nat)
    requires i < |rs|
    ensures WithoutId(rs, rs[i].id) == WithoutId(rs[..i], rs[i].id) + WithoutId(rs[i + 1..], rs[i].id)
  {
    SplitAt(rs, i, rs[i].id);
    DropHead(rs[i..]);
    assert rs[i..][1..] == rs[i + 1..];
  }

  lemma SplitAt(rs: seq<Rule>, i: nat, id: nat)
    requires i <= |rs|
    ensures WithoutId(rs, id) == WithoutId(rs[..i], id) + WithoutId(rs[i..], id)
  {
    assert rs == rs[..i] + rs[i..];
    WithoutIdConcat(rs[..i], rs[i..], id);
  }

  lemma DropHead(rs: seq<Rule>)
    requires rs != []
    ensures WithoutId(rs, rs[0].id) == WithoutId(rs[1..], rs[0].id)
  {
    assert [] + WithoutId(rs[1..], rs[0].id) == WithoutId(rs[1..], rs[0].id);
  }

  /** With increasing ids, the rules before and after i keep their place when rs[i].id is dropped. */
  lemma OthersKeepIds(rs: seq<Rule>, i: nat)
    requires i < |rs| && IdsIncreasing(rs)
    ensures WithoutId(rs[..i], rs[i].id) == rs[..i]
    ensures WithoutId(rs[i + 1..], rs[i].id) == rs[i + 1..]
  {
    var id := rs[i].id;
    var front, back := rs[..i], rs[i + 1..];
    forall k | 0 <= k < |front| ensures front[k].id != id {
      assert front[k] == rs[k];
    }
    forall k | 0 <= k < |back| ensures back[k].id != id {
      assert back[k] == rs[i + 1 + k];
    }
    WithoutAbsentId(front, id);
    WithoutAbsentId(back, id);
  }

  /** What the table keeps: positive ids below the next one, rising strictly. */
  ghost predicate RulesOk(rs: seq<Rule>, next: nat)
  {
    IdsIncreasing(rs) && forall i :: 0 <= i < |rs| ==> 0 < rs[i].id < next
  }

  lemma RulesOkAppend(rs: seq<Rule>, r: Rule, next: nat)
    requires RulesOk(rs, next) && r.id == next > 0
    ensures RulesOk(rs + [r], next + 1)
  {
  }

  lemma RulesOkRemoveAt(rs: seq<Rule>, i: nat, next: nat)
    requires i < |rs| && RulesOk(rs, next)
    ensures RulesOk(rs[..i] + rs[i + 1..], next)
  {
    var r := rs[..i] + rs[i + 1..];
    forall a | 0 <= a < |r| ensures r[a] == rs[if a < i then a else a + 1] {
    }
  }

  lemma RulesOkReplace(rs: seq<Rule>, i: nat, r: Rule, next: nat)
    requires i < |rs| && RulesOk(rs, next) && r.id == rs[i].id
    ensures RulesOk(rs[i := r], next)
  {
  }

  /** The invariant depends on the ids alone. */
  lemma RulesOkSameIds(rs: seq<Rule>, ts: seq<Rule>, next: nat)
    requires RulesOk(rs, next) && |ts| == |rs|
    requires forall k :: 0 <= k < |rs| ==> ts[k].id == rs[k].id
    ensures RulesOk(ts, next)
  {
  }

  /** With increasing ids, an id names one position. */
  lemma SameIdSameIndex(rs: seq<Rule>, i: nat, j: nat)
    requires IdsIncreasing(rs) && i < |rs| && j < |rs| && rs[i].id == rs[j].id
    ensures i == j
  {
  }

  /** The three first-match lookups over the rule table. */
  datatype Query = NatQuery(addr: string) | PatQuery(port: u16) | UpnpQuery(port: u16, protocol: Protocol)

  /**
   * NAT: an enabled NAT rule whose source is the address or the wildcard.
   * PAT: an enabled PAT rule whose source port is the port or the wildcard 0.
   * UPnP removal: a UPnP rule, enabled or not, with that port and protocol.
   */
  predicate Matches(q: Query, r: Rule)
  {
    match q
    case NatQuery(addr) =>
      HasFlag(r.flags, PF_FLAG_ENABLED) && HasFlag(r.flags, PF_FLAG_NAT) && (r.srcAddr == addr || r.srcAddr == ANY_ADDRESS)
    case PatQuery(port) =>
      HasFlag(r.flags, PF_FLAG_ENABLED) && HasFlag(r.flags, PF_FLAG_PAT) && (r.srcPort == port || r.srcPort == 0)
    case UpnpQuery(port, protocol) =>
      HasFlag(r.flags, PF_FLAG_UPNP) && r.srcPort == port && r.protocol == protocol
  }

  /** Index of the first rule the query matches, |rs| when none does. */
  function FirstMatch(rs: seq<Rule>, q: Query): (i: nat)
    ensures i <= |rs|
    ensures i < |rs| ==> Matches(q, rs[i])
    ensures forall j :: 0 <= j < i ==> !Matches(q, rs[j])
  {
    if rs == [] then 0
    else if Matches(q, rs[0]) then 0
    else 1 + FirstMatch(rs[1..], q)
  }

  /** A rule appended after the table is found unless an earlier rule already matches. */
  lemma {:induction false} FirstMatchAppend(rs: seq<Rule>, r: Rule, q: Query)
    requires Matches(q, r)
    ensures FirstMatch(rs + [r], q) == FirstMatch(rs, q) < |rs| + 1
  {
    if rs != [] {
      assert (rs + [r])[1..] == rs[1..] + [r];
      FirstMatchAppend(rs[1..], r, q);
    }
  }

  // ---------------------------------------------------------------------
  // Driver slots

  /** Number of active slots. */
  function ActiveCount(s: seq<DriverSlot>): (n: nat)
    ensures n <= |s|
  {
    if s == [] then 0 else ActiveCount(s[..|s| - 1]) + (if s[|s| - 1].active then 1 else 0)
  }

  lemma {:induction false} ActiveCountUpdate(s: seq<DriverSlot>, i: nat, x: DriverSlot)
    requires i < |s|
    ensures ActiveCount(s[i := x]) == ActiveCount(s) - (if s[i].active then 1 else 0) + (if x.active then 1 else 0)
  {
    var n := |s| - 1;
    assert s[i := x][..n] == if i < n then s[..n][i := x] else s[..n];
    if i < n {
      ActiveCountUpdate(s[..n], i, x);
    }
  }

  /** Index of the first slot that is free (when `free`) or active with the id, |s| when none is. */
  function FirstSlot(s: seq<DriverSlot>, free: bool, id: u32): (i: nat)
    ensures i <= |s|
    ensures i < |s| ==> SlotFits(s[i], free, id)
    ensures forall j :: 0 <= j < i ==> !SlotFits(s[j], free, id)
  {
    if s == [] then 0
    else if SlotFits(s[0], free, id) then 0
    else 1 + FirstSlot(s[1..], free, id)
  }

  predicate SlotFits(slot: DriverSlot, free: bool, id: u32)
  {
    if free then !slot.active else slot.active && slot.driverId == id
  }

  /** The rule pf_upnp_add_mapping builds before handing it to pf_add_rule. */
  function UpnpRule(externalPort: u16, internalPort: u16, protocol: Protocol, duration: u32): (r: Rule)
    ensures HasFlag(r.flags, PF_FLAG_ENABLED) && HasFlag(r.flags, PF_FLAG_UPNP)
    ensures HasFlag(r.flags, PF_FLAG_PERSISTENT) <==> duration == 0
    ensures !HasFlag(r.flags, PF_FLAG_NAT) && !HasFlag(r.flags, PF_FLAG_PAT)
    ensures Matches(UpnpQuery(externalPort, protocol), r)
    ensures r.srcAddr == ANY_ADDRESS && r.dstAddr == LOOPBACK_ADDRESS
    ensures r.srcPort == externalPort && r.dstPort == internalPort
  {
    var flags := PF_FLAG_ENABLED | PF_FLAG_UPNP;
    Rule(0, UpnpName(externalPort, internalPort), ANY_ADDRESS, externalPort, LOOPBACK_ADDRESS, internalPort,
         protocol, if duration == 0 then flags | PF_FLAG_PERSISTENT else flags, 0, 0, 0, 0)
  }

  /** `upnp_%u_%u` of the two ports. */
  function UpnpName(externalPort: u16, internalPort: u16): (name: string)
    ensures var e, i := DecimalString(externalPort), DecimalString(internalPort);
            name == "upnp_" + e + "_" + i && DecimalValue(e) == externalPort && DecimalValue(i) == internalPort
  {
    "upnp_" + DecimalString(externalPort) + "_" + DecimalString(internalPort)
  }

  /**
   * g_pf_ctx. Rules are stored by value: the table's pointers are private
   * to this file, so an update in place through one is a write to one slot.
   */
  class PortForwarder {
    var initialized: bool
    var config: PfConfig
    const rules: array<Rule>
    var ruleCount: nat
    var nextRuleId: nat
    var stats: PfStats
    var packetCallbackSet: bool
    var eventCallbackSet: bool
    ghost var events: seq<Event>
    const drivers: array<DriverSlot>
    var driverCount: nat

    ghost predicate Valid()
      reads this, rules, drivers
    {
      && rules.Length == PF_MAX_RULES
      && drivers.Length == MAX_DRIVERS
      && ruleCount <= PF_MAX_RULES
      && RulesOk(rules[..ruleCount], nextRuleId)
      && (initialized ==> stats.totalRules == ruleCount && nextRuleId > 0)
      && driverCount == ActiveCount(drivers[..])
    }

    /** The rules in table order. */
    function Rules(): seq<Rule>
      reads this, rules
      requires ruleCount <= rules.Length
    {
      rules[..ruleCount]
    }

    /** Appends an event when an event callback is registered. */
    ghost function Fired(id: nat, name: string): seq<Event>
      reads this
    {
      if eventCallbackSet then [Event(id, name)] else []
    }

    /** fire_event: the registered event callback, if any, sees the event. */
    method FireEvent(id: nat, name: string)
      requires Valid()
      modifies this
      ensures Valid()
      ensures events == old(events) + Fired(id, name)
      ensures initialized == old(initialized) && config == old(config) && ruleCount == old(ruleCount)
      ensures nextRuleId == old(nextRuleId) && stats == old(stats) && driverCount == old(driverCount)
      ensures packetCallbackSet == old(packetCallbackSet) && eventCallbackSet == old(eventCallbackSet)
    {
      events := events + Fired(id, name);
    }

    /** The zero-filled static state. */
    constructor ()
      ensures Valid() && !initialized && ruleCount == 0 && driverCount == 0 && events == []
    {
      initialized := false;
      config := PfConfig(false, false, false, false, 0, 0, 0, 0);
      rules := new Rule[PF_MAX_RULES](_ => EmptyRule);
      ruleCount, nextRuleId := 0, 0;
      stats := ZeroStats;
      packetCallbackSet, eventCallbackSet := false, false;
      events := [];
      drivers := new DriverSlot[MAX_DRIVERS](_ => EmptySlot);
      driverCount := 0;
      new;
      ActiveCountEmpty(drivers[..]);
    }

    /**
     * pf_init: EXISTS when already running, INVALID without a configuration;
     * otherwise the whole context is cleared, the configuration copied and
     * ids start at 1.
     */
    method Init(cfg: Option<PfConfig>) returns (code: int)
      requires Valid()
      modifies this, drivers
      ensures Valid()
      ensures old(initialized) ==> code == PF_ERR_EXISTS && unchanged(this, drivers)
      ensures !old(initialized) && cfg.None? ==> code == PF_ERR_INVALID && unchanged(this, drivers)
      ensures !old(initialized) && cfg.Some? ==>
                && code == PF_SUCCESS && initialized && config == cfg.value
                && ruleCount == 0 && nextRuleId == 1 && stats == ZeroStats
                && !packetCallbackSet && !eventCallbackSet && events == old(events)
                && driverCount == 0 && (forall i :: 0 <= i < MAX_DRIVERS ==> drivers[i] == EmptySlot)
    {
      if initialized {
        return PF_ERR_EXISTS;
      }
      if cfg.None? {
        return PF_ERR_INVALID;
      }
      config := cfg.value;
      ruleCount, nextRuleId := 0, 1;
      stats := ZeroStats;
      packetCallbackSet, eventCallbackSet := false, false;
      forall i | 0 <= i < drivers.Length {
        drivers[i] := EmptySlot;
      }
      driverCount := 0;
      ActiveCountEmpty(drivers[..]);
      initialized := true;
      code := PF_SUCCESS;
    }

    /** pf_shutdown: every rule is released and the subsystem stops. Driver slots stay. */
    method Shutdown()
      requires Valid()
      modifies this
      ensures Valid()
      ensures !old(initialized) ==> unchanged(this)
      ensures old(initialized) ==>
                && !initialized && ruleCount == 0 && nextRuleId == old(nextRuleId)
                && stats == old(stats) && config == old(config) && events == old(events)
                && driverCount == old(driverCount)
    {
      if !initialized {
        return;
      }
      ruleCount := 0;
      initialized := false;
    }

    /**
     * find_rule_index / find_rule_by_id: the position of the rule with the
     * id, or -1.
     */
    method FindRuleIndex(ruleId: u32) returns (idx: int)
      requires Valid()
      ensures -1 <= idx < ruleCount
      ensures idx >= 0 ==> rules[idx].id == ruleId
      ensures idx < 0 <==> !HasId(Rules(), ruleId)
    {
      var i := 0;
      while i < ruleCount
        invariant 0 <= i <= ruleCount
        invariant forall k :: 0 <= k < i ==> rules[k].id != ruleId
      {
        if rules[i].id == ruleId {
          return i;
        }
        i := i + 1;
      }
      return -1;
    }

    /**
     * pf_add_rule. DISABLED before init, INVALID without a rule, LIMIT when
     * the table is full. Otherwise the rule is appended with the next id and
     * zeroed counters, and the id is returned (it is always positive).
     */
    method AddRule(rule: Option<Rule>) returns (code: int)
      requires Valid()
      modifies this, rules
      ensures Valid()
      ensures !old(initialized) ==> code == PF_ERR_DISABLED && unchanged(this, rules)
      ensures old(initialized) && rule.None? ==> code == PF_ERR_INVALID && unchanged(this, rules)
      ensures old(initialized) && rule.Some? && !Admits(old(ruleCount), config.maxRules) ==>
                code == PF_ERR_LIMIT && unchanged(this, rules)
      ensures old(initialized) && rule.Some? && Admits(old(ruleCount), config.maxRules) ==>
                && code == old(nextRuleId) > 0
                && Rules() == old(Rules()) + [rule.value.(id := code, packetsForwarded := 0, bytesForwarded := 0, lastActivity := 0)]
                && nextRuleId == old(nextRuleId) + 1
                && (forall i :: 0 <= i < |old(Rules())| ==> old(Rules())[i].id < code)
                && stats == old(stats).(totalRules := old(stats.totalRules) + 1)
                && events == old(events) + Fired(code, "rule_added")
      ensures initialized == old(initialized) && config == old(config) && driverCount == old(driverCount)
      ensures packetCallbackSet == old(packetCallbackSet) && eventCallbackSet == old(eventCallbackSet)
    {
      if !initialized {
        return PF_ERR_DISABLED;
      }
      if rule.None? {
        return PF_ERR_INVALID;
      }
      if !Admits(ruleCount, config.maxRules) {
        return PF_ERR_LIMIT;
      }
      var newRule := rule.value.(id := nextRuleId, packetsForwarded := 0, bytesForwarded := 0, lastActivity := 0);
      ghost var before := Rules();
      RulesOkAppend(before, newRule, nextRuleId);
      nextRuleId := nextRuleId + 1;
      rules[ruleCount] := newRule;
      ruleCount := ruleCount + 1;
      assert Rules() == before + [newRule];
      stats := stats.(totalRules := stats.totalRules + 1);
      FireEvent(newRule.id, "rule_added");
      code := newRule.id;
    }

    /**
     * pf_remove_rule: NOT_FOUND for an unknown id; otherwise the rule with
     * the id leaves the table and the others keep their order.
     */
    method RemoveRule(ruleId: u32) returns (code: int)
      requires Valid()
      modifies this, rules
      ensures Valid()
      ensures !old(initialized) ==> code == PF_ERR_DISABLED && unchanged(this, rules)
      ensures old(initialized) && !HasId(old(Rules()), ruleId) ==> code == PF_ERR_NOT_FOUND && unchanged(this, rules)
      ensures old(initialized) && HasId(old(Rules()), ruleId) ==>
                && code == PF_SUCCESS
                && Rules() == WithoutId(old(Rules()), ruleId)
                && ruleCount == old(ruleCount) - 1
                && stats == old(stats).(totalRules := old(stats.totalRules) - 1)
                && events == old(events) + Fired(ruleId, "rule_removed")
      ensures initialized == old(initialized) && config == old(config) && nextRuleId == old(nextRuleId)
      ensures driverCount == old(driverCount)
      ensures packetCallbackSet == old(packetCallbackSet) && eventCallbackSet == old(eventCallbackSet)
    {
      if !initialized {
        return PF_ERR_DISABLED;
      }
      var idx := FindRuleIndex(ruleId);
      if idx < 0 {
        return PF_ERR_NOT_FOUND;
      }
      ghost var before := Rules();
      RemoveRuleAt(idx);
      RemoveAtIsWithoutId(before, idx);
      FireEvent(ruleId, "rule_removed");
      code := PF_SUCCESS;
    }

    /** The shift loop of pf_remove_rule and the total_rules decrement. */
    method RemoveRuleAt(idx: nat)
      requires Valid() && initialized && idx < ruleCount
      modifies this, rules
      ensures Valid()
      ensures Rules() == old(Rules()[..idx] + Rules()[idx + 1..])
      ensures ruleCount == old(ruleCount) - 1 && stats == old(stats).(totalRules := old(stats.totalRules) - 1)
      ensures initialized && config == old(config) && nextRuleId == old(nextRuleId) && events == old(events)
      ensures driverCount == old(driverCount)
      ensures packetCallbackSet == old(packetCallbackSet) && eventCallbackSet == old(eventCallbackSet)
    {
      ghost var before := Rules();
      ShiftDown(idx, ruleCount);
      ruleCount := ruleCount - 1;
      stats := stats.(totalRules := stats.totalRules - 1);
      RulesOkRemoveAt(before, idx, nextRuleId);
    }

    /** Moves the entries after idx, up to n, one place towards the front. */
    method ShiftDown(idx: nat, n: nat)
      requires idx < n <= rules.Length
      modifies rules
      ensures rules[..n - 1] == old(rules[..n])[..idx] + old(rules[..n])[idx + 1..]
      ensures rules[n - 1..] == old(rules[n - 1..])
    {
      ghost var before := rules[..];
      var i := idx;
      while i < n - 1
        invariant idx <= i <= n - 1
        invariant forall k :: 0 <= k < idx ==> rules[k] == before[k]
        invariant forall k :: idx <= k < i ==> rules[k] == before[k + 1]
        invariant forall k :: i <= k < rules.Length ==> rules[k] == before[k]
      {
        rules[i] := rules[i + 1];
        i := i + 1;
      }
      ShiftedSlices(before, rules[..], idx, n);
    }

    /**
     * The rule at idx is overwritten with one of the same id; ids are
     * unique, so no other entry carries that id.
     */
    method ReplaceAt(idx: nat, updated: Rule)
      requires Valid() && idx < ruleCount && updated.id == rules[idx].id
      modifies rules
      ensures Valid()
      ensures rules[..] == old(rules[..])[idx := updated]
      ensures forall i :: 0 <= i < ruleCount ==> (old(rules[i]).id == updated.id <==> i == idx)
    {
      ghost var before := Rules();
      RulesOkReplace(before, idx, updated, nextRuleId);
      rules[idx] := updated;
      assert Rules() == before[idx := updated];
      forall i | 0 <= i < ruleCount && before[i].id == updated.id ensures i == idx {
        SameIdSameIndex(before, i, idx);
      }
    }

    /**
     * pf_update_rule: the rule with the id takes the new configuration but
     * keeps its id, its packet and byte counts and its last activity.
     */
    method UpdateRule(ruleId: u32, rule: Option<Rule>) returns (code: int)
      requires Valid()
      modifies this, rules
      ensures Valid()
      ensures !old(initialized) ==> code == PF_ERR_DISABLED && unchanged(this, rules)
      ensures old(initialized) && rule.None? ==> code == PF_ERR_INVALID && unchanged(this, rules)
      ensures old(initialized) && rule.Some? && !HasId(old(Rules()), ruleId) ==>
                code == PF_ERR_NOT_FOUND && unchanged(this, rules)
      ensures old(initialized) && rule.Some? && HasId(old(Rules()), ruleId) ==>
                && code == PF_SUCCESS
                && |Rules()| == |old(Rules())|
                && (forall i :: 0 <= i < ruleCount ==>
                      rules[i] == if old(rules[i]).id == ruleId then Reconfigured(old(rules[i]), rule.value) else old(rules[i]))
                && events == old(events) + Fired(ruleId, "rule_updated")
      ensures initialized == old(initialized) && config == old(config) && stats == old(stats)
      ensures ruleCount == old(ruleCount) && nextRuleId == old(nextRuleId) && driverCount == old(driverCount)
      ensures packetCallbackSet == old(packetCallbackSet) && eventCallbackSet == old(eventCallbackSet)
    {
      if !initialized {
        return PF_ERR_DISABLED;
      }
      if rule.None? {
        return PF_ERR_INVALID;
      }
      var idx := FindRuleIndex(ruleId);
      if idx < 0 {
        return PF_ERR_NOT_FOUND;
      }
      ReplaceAt(idx, Reconfigured(rules[idx], rule.value));
      FireEvent(ruleId, "rule_updated");
      code := PF_SUCCESS;
    }

    /**
     * pf_get_rule: a copy of the rule with the id. The destination buffer is
     * taken to be present.
     */
    method GetRule(ruleId: u32) returns (code: int, rule: Rule)
      requires Valid()
      ensures !initialized ==> code == PF_ERR_DISABLED
      ensures initialized ==> (code == PF_SUCCESS <==> HasId(Rules(), ruleId))
      ensures initialized && code != PF_SUCCESS ==> code == PF_ERR_NOT_FOUND
      ensures code == PF_SUCCESS ==> rule in Rules() && rule.id == ruleId
    {
      rule := EmptyRule;
      if !initialized {
        return PF_ERR_DISABLED, rule;
      }
      var idx := FindRuleIndex(ruleId);
      if idx < 0 {
        return PF_ERR_NOT_FOUND, rule;
      }
      rule := rules[idx];
      code := PF_SUCCESS;
    }

    /** pf_list_rules: the first min(rule_count, max) rules in table order. */
    method ListRules(max: u32) returns (code: int, listed: seq<Rule>)
      requires Valid()
      ensures code == (if initialized then PF_SUCCESS else PF_ERR_DISABLED)
      ensures code == PF_SUCCESS ==>
                && |listed| == (if ruleCount < max then ruleCount else max)
                && listed == Rules()[..|listed|]
    {
      listed := [];
      if !initialized {
        return PF_ERR_DISABLED, listed;
      }
      var n := if ruleCount < max then ruleCount else max;
      var i := 0;
      while i < n
        invariant 0 <= i <= n && listed == rules[..i]
      {
        listed := listed + [rules[i]];
        i := i + 1;
      }
      code := PF_SUCCESS;
    }

    /** pf_enable_rule (set) and pf_disable_rule (clear): only the ENABLED bit of that rule changes. */
    method SetEnabled(ruleId: u32, enable: bool) returns (code: int)
      requires Valid()
      modifies this, rules
      ensures Valid()
      ensures !old(initialized) ==> code == PF_ERR_DISABLED && unchanged(this, rules)
      ensures old(initialized) && !HasId(old(Rules()), ruleId) ==> code == PF_ERR_NOT_FOUND && unchanged(this, rules)
      ensures old(initialized) && HasId(old(Rules()), ruleId) ==>
                && code == PF_SUCCESS
                && (forall i :: 0 <= i < ruleCount ==>
                      rules[i] == if old(rules[i]).id != ruleId then old(rules[i]) else Toggled(old(rules[i]), enable))
                && events == old(events) + Fired(ruleId, if enable then "rule_enabled" else "rule_disabled")
      ensures initialized == old(initialized) && config == old(config) && stats == old(stats)
      ensures ruleCount == old(ruleCount) && nextRuleId == old(nextRuleId) && driverCount == old(driverCount)
      ensures packetCallbackSet == old(packetCallbackSet) && eventCallbackSet == old(eventCallbackSet)
    {
      if !initialized {
        return PF_ERR_DISABLED;
      }
      var idx := FindRuleIndex(ruleId);
      if idx < 0 {
        return PF_ERR_NOT_FOUND;
      }
      ReplaceAt(idx, Toggled(rules[idx], enable));
      FireEvent(ruleId, if enable then "rule_enabled" else "rule_disabled");
      code := PF_SUCCESS;
    }

    /** pf_get_stats: a copy of the counters; total_rules is the table size. */
    function GetStats(): (r: Result<PfStats>)
      reads this, rules, drivers
      requires Valid()
      ensures r.Ok? <==> initialized
      ensures r.Err? ==> r.code == PF_ERR_DISABLED
      ensures r.Ok? ==> r.value.totalRules == |Rules()|
    {
      if !initialized then Err(PF_ERR_DISABLED) else Ok(stats)
    }

    /**
     * pf_reset_stats: the global counters restart from zero, total_rules
     * is set to the table size, and every rule's counters are cleared.
     */
    method ResetStats() returns (code: int)
      requires Valid()
      modifies this, rules
      ensures Valid()
      ensures !old(initialized) ==> code == PF_ERR_DISABLED && unchanged(this, rules)
      ensures old(initialized) ==>
                && code == PF_SUCCESS
                && stats == ZeroStats.(totalRules := ruleCount)
                && (forall i :: 0 <= i < ruleCount ==>
                      rules[i] == old(rules[i]).(packetsForwarded := 0, bytesForwarded := 0, lastActivity := 0))
      ensures initialized == old(initialized) && config == old(config) && events == old(events)
      ensures ruleCount == old(ruleCount) && nextRuleId == old(nextRuleId) && driverCount == old(driverCount)
      ensures packetCallbackSet == old(packetCallbackSet) && eventCallbackSet == old(eventCallbackSet)
    {
      if !initialized {
        return PF_ERR_DISABLED;
      }
      stats := ZeroStats.(totalRules := ruleCount);
      var i := 0;
      while i < ruleCount
        modifies rules
        invariant 0 <= i <= ruleCount
        invariant forall k :: 0 <= k < i ==>
                    rules[k] == old(rules[k]).(packetsForwarded := 0, bytesForwarded := 0, lastActivity := 0)
        invariant forall k :: i <= k < rules.Length ==> rules[k] == old(rules[k])
      {
        rules[i] := rules[i].(packetsForwarded := 0, bytesForwarded := 0, lastActivity := 0);
        i := i + 1;
      }
      RulesOkSameIds(old(Rules()), Rules(), nextRuleId);
      code := PF_SUCCESS;
    }

    /** pf_register_packet_callback / pf_register_event_callback: a null callback unregisters. */
    method RegisterCallback(packet: bool, present: bool) returns (code: int)
      requires Valid()
      modifies this
      ensures Valid()
      ensures !old(initialized) ==> code == PF_ERR_DISABLED && unchanged(this)
      ensures old(initialized) ==>
                && code == PF_SUCCESS
                && packetCallbackSet == (if packet then present else old(packetCallbackSet))
                && eventCallbackSet == (if packet then old(eventCallbackSet) else present)
      ensures initialized == old(initialized) && config == old(config) && stats == old(stats) && events == old(events)
      ensures ruleCount == old(ruleCount) && nextRuleId == old(nextRuleId) && driverCount == old(driverCount)
    {
      if !initialized {
        return PF_ERR_DISABLED;
      }
      if packet {
        packetCallbackSet := present;
      } else {
        eventCallbackSet := present;
      }
      code := PF_SUCCESS;
    }

    /** The scan shared by NAT, PAT and UPnP removal: the first rule the query matches. */
    method FindMatch(q: Query) returns (idx: nat)
      requires Valid()
      ensures idx == FirstMatch(Rules(), q)
    {
      idx := 0;
      while idx < ruleCount && !Matches(q, rules[idx])
        invariant 0 <= idx <= ruleCount
        invariant forall k :: 0 <= k < idx ==> !Matches(q, rules[k])
      {
        idx := idx + 1;
      }
      FirstMatchIsUnique(Rules(), q, idx);
    }

    /**
     * pf_nat_translate: DISABLED unless running with NAT on; the destination
     * of the first enabled NAT rule whose source is the address or 0.0.0.0.
     * The destination buffer is taken to be present.
     */
    method NatTranslate(srcAddr: Option<string>) returns (code: int, dstAddr: string)
      requires Valid()
      ensures !(initialized && config.natEnabled) ==> code == PF_ERR_DISABLED
      ensures initialized && config.natEnabled && srcAddr.None? ==> code == PF_ERR_INVALID
      ensures initialized && config.natEnabled && srcAddr.Some? ==>
                var i := FirstMatch(Rules(), NatQuery(srcAddr.value));
                && (code == PF_SUCCESS <==> i < ruleCount)
                && (code != PF_SUCCESS ==> code == PF_ERR_NOT_FOUND)
                && (code == PF_SUCCESS ==> dstAddr == rules[i].dstAddr)
    {
      dstAddr := "";
      if !initialized || !config.natEnabled {
        return PF_ERR_DISABLED, dstAddr;
      }
      if srcAddr.None? {
        return PF_ERR_INVALID, dstAddr;
      }
      var i := FindMatch(NatQuery(srcAddr.value));
      if i == ruleCount {
        return PF_ERR_NOT_FOUND, dstAddr;
      }
      dstAddr := rules[i].dstAddr;
      code := PF_SUCCESS;
    }

    /**
     * pf_pat_translate: DISABLED unless running with PAT on; the destination
     * port of the first enabled PAT rule whose source port is the port or 0.
     */
    method PatTranslate(srcPort: u16) returns (code: int, dstPort: u16)
      requires Valid()
      ensures !(initialized && config.patEnabled) ==> code == PF_ERR_DISABLED
      ensures initialized && config.patEnabled ==>
                var i := FirstMatch(Rules(), PatQuery(srcPort));
                && (code == PF_SUCCESS <==> i < ruleCount)
                && (code != PF_SUCCESS ==> code == PF_ERR_NOT_FOUND)
                && (code == PF_SUCCESS ==> dstPort == rules[i].dstPort)
    {
      dstPort := 0;
      if !initialized || !config.patEnabled {
        return PF_ERR_DISABLED, dstPort;
      }
      var i := FindMatch(PatQuery(srcPort));
      if i == ruleCount {
        return PF_ERR_NOT_FOUND, dstPort;
      }
      dstPort := rules[i].dstPort;
      code := PF_SUCCESS;
    }

    /**
     * pf_upnp_add_mapping: DISABLED unless running with UPnP on; otherwise
     * the mapping is added as UpnpRule through AddRule, with its result.
     */
    method UpnpAddMapping(externalPort: u16, internalPort: u16, protocol: Protocol, duration: u32) returns (code: int)
      requires Valid()
      modifies this, rules
      ensures Valid()
      ensures !old(initialized && config.upnpEnabled) ==> code == PF_ERR_DISABLED && unchanged(this, rules)
      ensures old(initialized && config.upnpEnabled) && !Admits(old(ruleCount), config.maxRules) ==>
                code == PF_ERR_LIMIT && unchanged(this, rules)
      ensures old(initialized && config.upnpEnabled) && Admits(old(ruleCount), config.maxRules) ==>
                && code == old(nextRuleId) > 0
                && nextRuleId == old(nextRuleId) + 1
                && Rules() == old(Rules()) + [UpnpRule(externalPort, internalPort, protocol, duration).(id := code)]
                && stats == old(stats).(totalRules := old(stats.totalRules) + 1)
                && events == old(events) + Fired(code, "rule_added")
      ensures initialized == old(initialized) && config == old(config) && driverCount == old(driverCount)
      ensures packetCallbackSet == old(packetCallbackSet) && eventCallbackSet == old(eventCallbackSet)
    {
      if !initialized || !config.upnpEnabled {
        return PF_ERR_DISABLED;
      }
      code := AddRule(Some(UpnpRule(externalPort, internalPort, protocol, duration)));
    }

    /**
     * pf_upnp_remove_mapping: removes the first UPnP rule with the external
     * port and protocol, NOT_FOUND when there is none.
     */
    method UpnpRemoveMapping(externalPort: u16, protocol: Protocol) returns (code: int)
      requires Valid()
      modifies this, rules
      ensures Valid()
      ensures !old(initialized && config.upnpEnabled) ==> code == PF_ERR_DISABLED && unchanged(this, rules)
      ensures old(initialized && config.upnpEnabled) ==>
                var i := FirstMatch(old(Rules()), UpnpQuery(externalPort, protocol));
                if i == old(ruleCount) then code == PF_ERR_NOT_FOUND && unchanged(this, rules)
                else
                  && code == PF_SUCCESS
                  && Rules() == old(Rules()[..i] + Rules()[i + 1..])
                  && stats == old(stats).(totalRules := old(stats.totalRules) - 1)
                  && events == old(events) + Fired(old(rules[i]).id, "rule_removed")
      ensures initialized == old(initialized) && config == old(config) && driverCount == old(driverCount)
      ensures nextRuleId == old(nextRuleId)
      ensures packetCallbackSet == old(packetCallbackSet) && eventCallbackSet == old(eventCallbackSet)
    {
      if !initialized || !config.upnpEnabled {
        return PF_ERR_DISABLED;
      }
      var i := FindMatch(UpnpQuery(externalPort, protocol));
      if i == ruleCount {
        return PF_ERR_NOT_FOUND;
      }
      ghost var before := Rules();
      var ruleId := rules[i].id;
      assert ruleId == before[i].id;
      RemoveRuleAt(i);
      assert Rules() == before[..i] + before[i + 1..];
      FireEvent(ruleId, "rule_removed");
      code := PF_SUCCESS;
    }

    /** pf_driver_register: the first inactive slot of 256 takes the driver, or LIMIT. */
    method DriverRegister(driverId: u32) returns (code: int)
      requires Valid()
      modifies this, drivers
      ensures Valid()
      ensures !old(initialized) ==> code == PF_ERR_DISABLED && unchanged(this, drivers)
      ensures old(initialized) ==>
                var i := FirstSlot(old(drivers[..]), true, 0);
                if i == MAX_DRIVERS then code == PF_ERR_LIMIT && unchanged(this, drivers)
                else
                  && code == PF_SUCCESS
                  && drivers[..] == old(drivers[..])[i := DriverSlot(driverId, true)]
                  && driverCount == old(driverCount) + 1
      ensures initialized == old(initialized) && config == old(config) && stats == old(stats)
      ensures ruleCount == old(ruleCount) && nextRuleId == old(nextRuleId) && events == old(events)
      ensures packetCallbackSet == old(packetCallbackSet) && eventCallbackSet == old(eventCallbackSet)
    {
      if !initialized {
        return PF_ERR_DISABLED;
      }
      var i := FindSlot(true, 0);
      if i == MAX_DRIVERS {
        return PF_ERR_LIMIT;
      }
      ActiveCountUpdate(drivers[..], i, DriverSlot(driverId, true));
      drivers[i] := DriverSlot(driverId, true);
      driverCount := driverCount + 1;
      code := PF_SUCCESS;
    }

    /** pf_driver_unregister: the first active slot with the id is cleared, or NOT_FOUND. */
    method DriverUnregister(driverId: u32) returns (code: int)
      requires Valid()
      modifies this, drivers
      ensures Valid()
      ensures !old(initialized) ==> code == PF_ERR_DISABLED && unchanged(this, drivers)
      ensures old(initialized) ==>
                var i := FirstSlot(old(drivers[..]), false, driverId);
                if i == MAX_DRIVERS then code == PF_ERR_NOT_FOUND && unchanged(this, drivers)
                else
                  && code == PF_SUCCESS
                  && drivers[..] == old(drivers[..])[i := EmptySlot]
                  && driverCount == old(driverCount) - 1
      ensures initialized == old(initialized) && config == old(config) && stats == old(stats)
      ensures ruleCount == old(ruleCount) && nextRuleId == old(nextRuleId) && events == old(events)
      ensures packetCallbackSet == old(packetCallbackSet) && eventCallbackSet == old(eventCallbackSet)
    {
      if !initialized {
        return PF_ERR_DISABLED;
      }
      var i := FindSlot(false, driverId);
      if i == MAX_DRIVERS {
        return PF_ERR_NOT_FOUND;
      }
      ActiveCountUpdate(drivers[..], i, EmptySlot);
      drivers[i] := EmptySlot;
      driverCount := driverCount - 1;
      code := PF_SUCCESS;
    }

    /** The slot scans of the driver functions. */
    method FindSlot(free: bool, driverId: u32) returns (i: nat)
      requires Valid()
      ensures i == FirstSlot(drivers[..], free, driverId)
    {
      i := 0;
      while i < MAX_DRIVERS && !SlotFits(drivers[i], free, driverId)
        invariant 0 <= i <= MAX_DRIVERS
        invariant forall k :: 0 <= k < i ==> !SlotFits(drivers[k], free, driverId)
      {
        i := i + 1;
      }
      FirstSlotIsUnique(drivers[..], free, driverId, i);
    }

    /**
     * pf_driver_forward_packet. DISABLED before init; INVALID for a missing
     * or empty packet; NOT_FOUND for a driver id no active slot holds.
     * Otherwise the packet and its bytes are counted, and a nonzero result
     * of the packet callback (when one is registered) counts as a drop and
     * is returned as it is.
     */
    method ForwardPacket(driverId: u32, packet: Option<seq<u8>>, callbackResult: int) returns (code: int)
      requires Valid()
      modifies this
      ensures Valid()
      ensures !old(initialized) ==> code == PF_ERR_DISABLED && unchanged(this)
      ensures old(initialized) && (packet.None? || |packet.value| == 0) ==> code == PF_ERR_INVALID && unchanged(this)
      ensures old(initialized) && packet.Some? && |packet.value| > 0 ==>
                if FirstSlot(drivers[..], false, driverId) == MAX_DRIVERS then
                  code == PF_ERR_NOT_FOUND && unchanged(this)
                else
                  var dropped := packetCallbackSet && callbackResult != 0;
                  && code == (if dropped then callbackResult else PF_SUCCESS)
                  && stats == old(stats).(totalPackets := old(stats.totalPackets) + 1,
                                          totalBytes := old(stats.totalBytes) + |packet.value|,
                                          droppedPackets := old(stats.droppedPackets) + (if dropped then 1 else 0))
      ensures initialized == old(initialized) && config == old(config) && events == old(events)
      ensures ruleCount == old(ruleCount) && nextRuleId == old(nextRuleId) && driverCount == old(driverCount)
      ensures packetCallbackSet == old(packetCallbackSet) && eventCallbackSet == old(eventCallbackSet)
    {
      if !initialized {
        return PF_ERR_DISABLED;
      }
      if packet.None? || |packet.value| == 0 {
        return PF_ERR_INVALID;
      }
      var i := FindSlot(false, driverId);
      if i == MAX_DRIVERS {
        return PF_ERR_NOT_FOUND;
      }
      stats := stats.(totalPackets := stats.totalPackets + 1, totalBytes := stats.totalBytes + |packet.value|);
      if packetCallbackSet && callbackResult != 0 {
        stats := stats.(droppedPackets := stats.droppedPackets + 1);
        return callbackResult;
      }
      code := PF_SUCCESS;
    }
  }

  /** Reconfiguring a rule: the new settings with the old id and counters. */
  function Reconfigured(existing: Rule, update: Rule): (r: Rule)
    ensures r.id == existing.id
    ensures r.packetsForwarded == existing.packetsForwarded && r.bytesForwarded == existing.bytesForwarded
    ensures r.lastActivity == existing.lastActivity
    ensures r.(id := update.id, packetsForwarded := update.packetsForwarded,
               bytesForwarded := update.bytesForwarded, lastActivity := update.lastActivity) == update
  {
    update.(id := existing.id, packetsForwarded := existing.packetsForwarded,
            bytesForwarded := existing.bytesForwarded, lastActivity := existing.lastActivity)
  }

  /** A rule with its ENABLED bit set or cleared and everything else as it was. */
  function Toggled(r: Rule, enable: bool): (t: Rule)
    ensures HasFlag(t.flags, PF_FLAG_ENABLED) == enable
    ensures t.flags & !PF_FLAG_ENABLED == r.flags & !PF_FLAG_ENABLED
    ensures t.(flags := r.flags) == r
  {
    r.(flags := if enable then SetFlag(r.flags, PF_FLAG_ENABLED) else ClearFlag(r.flags, PF_FLAG_ENABLED))
  }

  /** The scan's stopping point is the first match. */
  lemma {:induction false} FirstMatchIsUnique(rs: seq<Rule>, q: Query, i: nat)
    requires i <= |rs|
    requires i < |rs| ==> Matches(q, rs[i])
    requires forall k :: 0 <= k < i ==> !Matches(q, rs[k])
    ensures i == FirstMatch(rs, q)
  {
    if rs != [] && i > 0 {
      FirstMatchIsUnique(rs[1..], q, i - 1);
    }
  }

  lemma {:induction false} FirstSlotIsUnique(s: seq<DriverSlot>, free: bool, id: u32, i: nat)
    requires i <= |s|
    requires i < |s| ==> SlotFits(s[i], free, id)
    requires forall k :: 0 <= k < i ==> !SlotFits(s[k], free, id)
    ensures i == FirstSlot(s, free, id)
  {
    if s != [] && i > 0 {
      FirstSlotIsUnique(s[1..], free, id, i - 1);
    }
  }

  lemma {:induction false} ActiveCountEmpty(s: seq<DriverSlot>)
    requires forall i :: 0 <= i < |s| ==> !s[i].active
    ensures ActiveCount(s) == 0
  {
    if s != [] {
      ActiveCountEmpty(s[..|s| - 1]);
    }
  }

  /**
   * A UPnP mapping just added can be removed again: the removal's scan
   * finds a rule, the new one or an earlier mapping of the same port and
   * protocol.
   */
  lemma UpnpAddedIsRemovable(rs: seq<Rule>, externalPort: u16, internalPort: u16, protocol: Protocol, duration: u32, id: nat)
    ensures FirstMatch(rs + [UpnpRule(externalPort, internalPort, protocol, duration).(id := id)], UpnpQuery(externalPort, protocol)) <= |rs|
  {
    FirstMatchAppend(rs, UpnpRule(externalPort, internalPort, protocol, duration).(id := id), UpnpQuery(externalPort, protocol));
  }
}
