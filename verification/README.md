# Driver-compatibility layer and reconnaissance helpers, modelled in Dafny

This project models the deterministic core of a repository with two halves. One half is a
C prototype that lets Windows chipset drivers run on Linux. The other is a Python
reconnaissance tool. Each C subsystem keeps its state in a process-wide singleton. Here
each singleton is a class instance with an `initialized` field, and its functions are
methods proved against specification functions. The modules are:

- `AiBuffer` (`ai_buffer.dfy`): the AI communication buffer's integer bookkeeping:
  - the 1000-slot outcome history, its counters and the moving-average latency;
  - the failure-rate estimate;
  - batch grouping by (type, device);
  - size rounding;
  - the argmax decision.

  The neural network's forward pass is a parameter.
- `KernelBridge` (`kernel_bridge.dfy`): the bridge's ring of 1024 pending requests with its
  FIFO drain step, the 256-entry device list, and the bridge statistics.
- `PortForward` (`port_forward.dfy`): the ordered table of forwarding rules, NAT/PAT
  first-match lookup, UPnP mappings as rules, and the 256-slot driver table.
- `ChipsetDriver` (`chipset_driver.dfy`): the capability table, detection against the
  known-chipsets database, and load/unload bookkeeping over the 32-entry loaded list. Calls
  into the bridge are inputs.
- `AuditLog` (`audit_log.dfy`): the hash-chained audit log, with the hash abstract and the
  file as a sequence of lines.
- `Networking` (`networking.dfy`): the domain-name syntax check and the safe-environment
  test.
- `Config` (`config.dfy`): `${NAME}` expansion over the configuration tree, and dotted
  setting lookup, with the environment as a parameter.
- `Common` (`common.dfy`): Option/Result, unsigned integer ranges, and the `%u` and `%04x`
  renderings.

Integers are unbounded. Where the source's 32-bit arithmetic matters it is written out
modulo 2^32: the history pattern, the moving average, the size rounding, the AI history index
and a device context's active-request count. Flag words are `bv32`.

`is_valid_domain` uses a regular expression for the preferred name syntax of section 2.3.1
of RFC 1035. It is relaxed as in section 2.1 of RFC 1123, so a label may start with a
digit, and labels are limited to 63 characters by section 2.3.4 of RFC 1035.
`Networking.NameMatch` follows the pattern's shape. `Networking.DottedName` states the
same language character by character, and the two are proved equal. Python's `$` also
matches before one final newline, so `IsValidDomain` accepts a valid name followed by
`"\n"`.

## Model

| member | source | states |
|---|---|---|
| Common.DecimalString | src/port_forward/port_forward.c:462 | `%u`: digits only, no leading zero, and its decimal value is the number |
| Common.HexString | src/chipset_drivers/chipset_driver.c:184-186 | `%04x`: at least four lower-case hex digits, zero-padded, denoting the number |
| AiBuffer.PackPattern | src/ai_buffer/ai_buffer.c:249-250 | the type byte read back at line 429 is the type mod 256, so a type below 256 is recovered; the low 24 bits are the device id's |
| AiBuffer.MovingAverage | src/ai_buffer/ai_buffer.c:264-268 | a zero average takes the sample; otherwise, when `9*avg+sample` fits in 32 bits, the new average lies between the old average and the sample |
| AiBuffer.OptimizedSize | src/ai_buffer/ai_buffer.c:391-409 | types other than read, write and DMA keep their size |
| AiBuffer.OptimizedSizeBounds | src/ai_buffer/ai_buffer.c:391-409 | reads/writes: a multiple of 64, at least 64, covering the size with less than a line to spare, and 0 once the 32-bit addition wraps; DMA: a multiple of 4096 covering the size with less than a page to spare, 0 on wrap, and 0 stays 0 |
| AiBuffer.SelectDecision | src/ai_buffer/ai_buffer.c:208-215 | the decision is the lowest index among the six scores that holds their maximum |
| AiBuffer.FailureRate | src/ai_buffer/ai_buffer.c:424-439 | the estimate is 0.5 when no slot has the type |
| AiBuffer.FailureRateBounds | src/ai_buffer/ai_buffer.c:424-439 | the estimate lies in [0,1] |
| AiBuffer.AllFailedCountsAgree | src/ai_buffer/ai_buffer.c:431-436 | if every slot of a type failed, the failure count equals the type count |
| AiBuffer.AllFailedRateIsOne | src/ai_buffer/ai_buffer.c:427-439 | when all recorded requests of the type failed, and there is one, the estimate is 1 |
| AiBuffer.NoneFailedCountIsZero | src/ai_buffer/ai_buffer.c:431-436 | if no slot of the type failed, the failure count is 0 |
| AiBuffer.SameGroupIffSameKey | src/ai_buffer/ai_buffer.c:359-375 | two requests share a group id iff they have the same (type, device) |
| AiBuffer.GroupBelowCount | src/ai_buffer/ai_buffer.c:371-374 | every group id is below the number of distinct keys |
| AiBuffer.NewKeyGetsNextId | src/ai_buffer/ai_buffer.c:371-374 | a request with a key not seen before gets the next unused id, so ids follow first appearance |
| AiBuffer.GroupCountBound | src/ai_buffer/ai_buffer.c:356-375 | there are never more groups than requests, and none for an empty batch |
| AiBuffer.FirstSameKey | src/ai_buffer/ai_buffer.c:362-369 | the inner scan finds the first earlier request with the same key, or reports none |
| AiBuffer.GroupingFacts | src/ai_buffer/ai_buffer.c:355-375 | the computed ids are below the group count, the count is at most the batch size, and equal ids mean equal keys |
| AiBuffer.AiModel.constructor | src/ai_buffer/ai_buffer.c:121-185 | the zero-filled static state: uninitialised, counters and index 0, every slot empty |
| AiBuffer.AiModel.Init | src/ai_buffer/ai_buffer.c:121-177 | a second call succeeds and changes nothing; the first zeroes counters and index and records the learning switch, slots untouched |
| AiBuffer.AiModel.Shutdown | src/ai_buffer/ai_buffer.c:180-185 | the whole model is zeroed, history included, and the buffer is uninitialised |
| AiBuffer.AiModel.ProcessRequest | src/ai_buffer/ai_buffer.c:188-229 | NOT_INITIALIZED before init, INVALID_ARG without a request, both changing nothing; otherwise the argmax decision and one more processed request |
| AiBuffer.AiModel.Feedback | src/ai_buffer/ai_buffer.c:241-268 | no-op unless initialised with learning on; else writes slot index mod 1000 and no other, advances the uint32 index modulo 2^32, bumps exactly one counter, updates the average, and every slot keeps the latest write to it |
| AiBuffer.AiModel.PredictFailure | src/ai_buffer/ai_buffer.c:415-444 | INVALID_ARG before init or without a request; else the failure share of the request's type over the first min(index,1000) slots, in [0,1] |
| AiBuffer.AiModel.PredictBatch | src/ai_buffer/ai_buffer.c:347-378 | INVALID_ARG before init or without a request array, even for count 0; else first-appearance group ids, same id iff same key, group count = number of distinct keys ≤ count |
| AiBuffer.AiModel.OptimizeRequest | src/ai_buffer/ai_buffer.c:381-412 | INVALID_ARG before init or without a request; else a copy in which only the size may differ, rounded as OptimizedSize |
| AiBuffer.SlotsDiffer | src/ai_buffer/ai_buffer.c:248 | two writes fewer than 1000 apart land in different slots |
| AiBuffer.WriteSlot | src/ai_buffer/ai_buffer.c:248-254 | write w goes to a slot below 1000, which is w mod 1000 until the uint32 index first wraps |
| AiBuffer.LastWriteTo | src/ai_buffer/ai_buffer.c:248-254 | the latest write to a slot is one of the writes, and there is none exactly when no write went to that slot |
| AiBuffer.LastWriteAppend | src/ai_buffer/ai_buffer.c:248-254 | one more write becomes the latest of its own slot and leaves every other slot's latest write |
| AiBuffer.IndexSucc | src/ai_buffer/ai_buffer.c:254 | the index after n + 1 writes is the uint32 increment of the index after n |
| AiBuffer.RecentWritesKept | src/ai_buffer/ai_buffer.c:248-254 | until the index first wraps, each of the last 1000 writes is the latest write to slot w mod 1000 |
| AiBuffer.WrapReusesSlotEarly | src/ai_buffer/ai_buffer.c:248-254 | after the wrap, write 2^32 reuses slot 0 of write 2^32 − 296, which is lost after only 296 later writes |
| KernelBridge.DeviceContext.constructor | src/kernel_bridge/kernel_bridge.c:262-267 | a new context carries its device id, chipset type and AI flag, with no active requests |
| KernelBridge.Without | src/kernel_bridge/kernel_bridge.c:288-297 | the context is no longer in the list, which is no longer |
| KernelBridge.WithoutMembers | src/kernel_bridge/kernel_bridge.c:288-297 | every remaining context was in the list and is not the removed one |
| KernelBridge.WithoutAbsent | src/kernel_bridge/kernel_bridge.c:288-297 | unregistering a context that is not listed leaves the list unchanged |
| KernelBridge.WithoutAt | src/kernel_bridge/kernel_bridge.c:288-294 | in a list without repeats, removing the context equals closing the gap at its position |
| KernelBridge.RingPop | src/kernel_bridge/kernel_bridge.c:116-136 | the oldest entry sits at head; after head advances mod 1024 the rest of the queue is in place |
| KernelBridge.RingPush | src/kernel_bridge/kernel_bridge.c:322-325 | a new entry goes to slot (head+count) mod 1024, which no entry occupies, and joins the back of the queue |
| KernelBridge.Bridge.constructor | src/kernel_bridge/kernel_bridge.c:151-198 | the zero-filled static state: uninitialised, no devices, empty queue, zero statistics |
| KernelBridge.Bridge.Init | src/kernel_bridge/kernel_bridge.c:151-198 | a second call succeeds and changes nothing; a missing configuration is INVALID_ARG; else config copied, counters and queue reset, worker-start failure reported; with the AI buffer enabled, a first AI start has zero counters, index and history and learns iff the mode is Learning, an AI already running is untouched |
| KernelBridge.Bridge.Shutdown | src/kernel_bridge/kernel_bridge.c:201-236 | stops the worker, shuts the AI buffer down when enabled, releases all contexts, becomes uninitialised |
| KernelBridge.Bridge.RegisterDevice | src/kernel_bridge/kernel_bridge.c:239-277 | null iff uninitialised or 256 devices; else a new context with 0 active requests, AI-managed as configured, appended; the worker flag stays |
| KernelBridge.Bridge.UnregisterDevice | src/kernel_bridge/kernel_bridge.c:280-303 | the context leaves the list, the others keep their order; an unknown context leaves the list unchanged; the worker flag stays |
| KernelBridge.Bridge.RemoveDeviceAt | src/kernel_bridge/kernel_bridge.c:291-294 | the shift loop drops entry i and moves the later ones down, count one less |
| KernelBridge.Bridge.ForwardRequest | src/kernel_bridge/kernel_bridge.c:306-335 | invalid calls change nothing; every valid call counts in total_requests; a full queue (1024) counts a failure and returns TIMEOUT with the queue unchanged; else the request joins the back and the context's uint32 active-request count rises by one modulo 2^32 |
| KernelBridge.Bridge.DrainBatch | src/kernel_bridge/kernel_bridge.c:112-138 | the batch is exactly the queue at wake-up in FIFO order; the queue ends empty; windows_to_linux grows by the batch size, ai_optimized by the AI-accepted ones; the AI model only counts processed requests, its learning flag, prediction counters, latency, history index and history stay |
| KernelBridge.Bridge.Reset | src/kernel_bridge/kernel_bridge.c:160-174 | the configuration is copied and the statistics and queue start empty; devices are kept |
| KernelBridge.Bridge.PushBack | src/kernel_bridge/kernel_bridge.c:322-327 | the entry joins the back of the ring at tail, tail advances mod 1024, nothing else changes |
| KernelBridge.Bridge.Deliver | src/kernel_bridge/kernel_bridge.c:121-136 | windows_to_linux counts the request; ai_optimized counts it exactly when the AI buffer is enabled and processes it; of the AI model only the processed-request count can move |
| KernelBridge.Bridge.ClearDevices | src/kernel_bridge/kernel_bridge.c:219-225 | the registered device slots are emptied and the others untouched |
| KernelBridge.Bridge.PopFront | src/kernel_bridge/kernel_bridge.c:117-136 | takes the oldest entry, head advances mod 1024, count one less |
| KernelBridge.Bridge.SendResponse | src/kernel_bridge/kernel_bridge.c:338-353 | counts a response in linux_to_windows and retires an active request, never below zero; invalid calls change nothing; the worker flag stays |
| KernelBridge.Bridge.SetMode | src/kernel_bridge/kernel_bridge.c:374-386 | NOT_INIT before init; else only the mode changes, the worker flag included |
| KernelBridge.Bridge.Configure | src/kernel_bridge/kernel_bridge.c:414-422 | success iff initialised and both the context and the parameter name are given, else INVALID_ARG |
| KernelBridge.Bridge.PowerState | src/kernel_bridge/kernel_bridge.c:425-433 | success iff initialised and the context is given, else INVALID_ARG |
| PortForward.SetFlag | src/port_forward/port_forward.c:297 | the bit is set and every other bit keeps its value |
| PortForward.ClearFlag | src/port_forward/port_forward.c:319 | the bit is clear and every other bit keeps its value |
| PortForward.AdmitsAsWrittenOverflows | src/port_forward/port_forward.c:137-157 | with max_rules 2000 and 1024 rules stored, the check as written admits a rule whose slot is outside the 1024-entry array |
| PortForward.Admits | src/port_forward/port_forward.c:137 | admits only below both limits, so the slot is inside the array; agrees with the source whenever max_rules ≤ 1024 |
| PortForward.WithoutId | src/port_forward/port_forward.c:176-191 | the table without the rule is no longer |
| PortForward.WithoutIdMembers | src/port_forward/port_forward.c:176-191 | no remaining rule has the id and none is added |
| PortForward.WithoutAbsentId | src/port_forward/port_forward.c:176-180 | removing an id no rule carries changes nothing |
| PortForward.RemoveAtIsWithoutId | src/port_forward/port_forward.c:186-190 | with increasing ids, the shift loop's result is exactly the table without that id, in order |
| PortForward.OthersKeepIds | src/port_forward/port_forward.c:186-190 | the rules before and after the removed one are all kept |
| PortForward.RulesOkAppend | src/port_forward/port_forward.c:151-157 | appending a rule with id next_rule_id keeps ids positive, increasing and below the counter |
| PortForward.RulesOkRemoveAt | src/port_forward/port_forward.c:186-190 | removal keeps the id invariant |
| PortForward.RulesOkReplace | src/port_forward/port_forward.c:218-227 | replacing a rule by one with the same id keeps the id invariant |
| PortForward.FirstMatch | src/port_forward/port_forward.c:409-419 | the index of the first rule the query matches, no earlier rule matching |
| PortForward.FirstMatchAppend | src/port_forward/port_forward.c:485-493 | a matching rule appended last is found unless an earlier rule already matches |
| PortForward.FirstSlot | src/port_forward/port_forward.c:509-515 | the first slot that is free (or active with the id), no earlier slot fitting |
| PortForward.UpnpRule | src/port_forward/port_forward.c:461-472 | ENABLED and UPNP set, PERSISTENT iff duration 0, no NAT/PAT, source 0.0.0.0:external, destination 127.0.0.1:internal, matched by its removal query |
| PortForward.UpnpName | src/port_forward/port_forward.c:462 | `upnp_<external>_<internal>` in decimal |
| PortForward.PortForwarder.constructor | src/port_forward/port_forward.c:82-102 | the zero-filled static state: uninitialised, no rules, no drivers |
| PortForward.PortForwarder.Init | src/port_forward/port_forward.c:82-102 | EXISTS when running, INVALID without config, both changing nothing; else all cleared, config copied, ids from 1 |
| PortForward.PortForwarder.Shutdown | src/port_forward/port_forward.c:104-124 | all rules released, subsystem stopped |
| PortForward.PortForwarder.FindRuleIndex | src/port_forward/port_forward.c:56-72 | the position of the rule with the id, or -1 iff no rule has it |
| PortForward.PortForwarder.AddRule | src/port_forward/port_forward.c:126-167 | DISABLED/INVALID/LIMIT leave the table alone; else the rule is appended last with id next_rule_id and zeroed counters, the id returned and the counter advanced |
| PortForward.PortForwarder.RemoveRule | src/port_forward/port_forward.c:169-198 | NOT_FOUND for an unknown id; else exactly that rule leaves, the rest keep their order, total_rules one less |
| PortForward.PortForwarder.RemoveRuleAt | src/port_forward/port_forward.c:183-191 | the rule at the index leaves, the rest keep order, total_rules one less |
| PortForward.PortForwarder.ShiftDown | src/port_forward/port_forward.c:186-188 | the entries after the index move one place down |
| PortForward.PortForwarder.ReplaceAt | src/port_forward/port_forward.c:222-227 | the rule is overwritten in place, keeping its id; it is the only rule with that id, so ids stay increasing |
| PortForward.PortForwarder.FireEvent | src/port_forward/port_forward.c:74-78 | the event is delivered exactly when an event callback is registered; the forwarder is otherwise unchanged |
| PortForward.PortForwarder.UpdateRule | src/port_forward/port_forward.c:200-234 | NOT_FOUND for an unknown id; else the rule takes the new settings and keeps id, counters and last activity; others unchanged |
| PortForward.PortForwarder.GetRule | src/port_forward/port_forward.c:236-258 | success iff running and a rule has the id, and then that rule is returned |
| PortForward.PortForwarder.ListRules | src/port_forward/port_forward.c:260-282 | the first min(rule_count, max) rules in table order |
| PortForward.PortForwarder.SetEnabled | src/port_forward/port_forward.c:284-326 | only the ENABLED bit of that rule changes; NOT_FOUND for an unknown id |
| PortForward.PortForwarder.GetStats | src/port_forward/port_forward.c:328-342 | DISABLED before init; else the counters, total_rules equal to the table size |
| PortForward.PortForwarder.ResetStats | src/port_forward/port_forward.c:344-366 | global counters zeroed, total_rules = rule_count, every rule's counters zeroed, rules otherwise unchanged |
| PortForward.PortForwarder.RegisterCallback | src/port_forward/port_forward.c:368-392 | DISABLED before init; else only the callback registration changes |
| PortForward.PortForwarder.FindMatch | src/port_forward/port_forward.c:409-419 | the scan stops at FirstMatch |
| PortForward.PortForwarder.NatTranslate | src/port_forward/port_forward.c:396-423 | DISABLED unless running with NAT; INVALID without an address; else the destination of the first enabled NAT rule whose source is the address or 0.0.0.0, or NOT_FOUND |
| PortForward.PortForwarder.PatTranslate | src/port_forward/port_forward.c:425-450 | DISABLED unless running with PAT; else the destination port of the first enabled PAT rule whose source port is the port or 0, or NOT_FOUND |
| PortForward.PortForwarder.UpnpAddMapping | src/port_forward/port_forward.c:454-475 | DISABLED unless UPnP is on; else AddRule of UpnpRule with its outcome, the next rule id advancing by one on success; callback registrations stay |
| PortForward.PortForwarder.UpnpRemoveMapping | src/port_forward/port_forward.c:477-497 | the first UPnP rule with that port and protocol leaves, the rest keep order; NOT_FOUND when none; the next rule id and callback registrations stay |
| PortForward.PortForwarder.DriverRegister | src/port_forward/port_forward.c:501-522 | the first inactive slot of 256 takes the driver and driver_count rises; LIMIT when none is free; callback registrations stay |
| PortForward.PortForwarder.DriverUnregister | src/port_forward/port_forward.c:524-544 | the first active slot with the id is cleared; NOT_FOUND when none; callback registrations stay |
| PortForward.PortForwarder.FindSlot | src/port_forward/port_forward.c:509-515 | the scan stops at FirstSlot |
| PortForward.PortForwarder.ForwardPacket | src/port_forward/port_forward.c:546-588 | INVALID for a missing or empty packet, NOT_FOUND for an unregistered id; else packets +1, bytes +len, and a nonzero callback result counts a drop and is returned; callback registrations stay |
| PortForward.Reconfigured | src/port_forward/port_forward.c:218-227 | the new settings with the old id, packet and byte counts and last activity |
| PortForward.Toggled | src/port_forward/port_forward.c:297 | the ENABLED bit as requested, all other bits and fields as they were |
| PortForward.FirstMatchIsUnique | src/port_forward/port_forward.c:409-419 | any index that matches with no earlier match is FirstMatch |
| PortForward.FirstSlotIsUnique | src/port_forward/port_forward.c:509-515 | any slot that fits with no earlier fitting slot is FirstSlot |
| PortForward.UpnpAddedIsRemovable | src/port_forward/port_forward.c:454-497 | after a mapping is added, the removal scan for its port and protocol finds a rule |
| ChipsetDriver.Unloaded | src/chipset_drivers/chipset_driver.c:263-269 | not loaded, no handle, no context, identity kept |
| ChipsetDriver.CapabilitiesOf | src/chipset_drivers/chipset_driver.c:297-330 | DMA/PM for every known type, MSI/PCIe with 4096 alignment for Intel, AMD and NVIDIA, 64 otherwise; sizes between 1 MiB and 64 MiB, multiples of the alignment |
| ChipsetDriver.CapabilityRows | src/chipset_drivers/chipset_driver.c:297-330 | Intel = AMD; NVIDIA = Intel with 4× the size; Qualcomm's size is a quarter of Intel's |
| ChipsetDriver.KnownIndex | src/chipset_drivers/chipset_driver.c:169-171 | the first database row with the vendor and device id |
| ChipsetDriver.DriverPathShape | src/chipset_drivers/chipset_driver.c:184-186 | `/opt/windrvmgr/drivers/<vendor %04x>_<device %04x>.sys` |
| ChipsetDriver.Detected | src/chipset_drivers/chipset_driver.c:142-191 | at most max entries and at most one per listed device |
| ChipsetDriver.DetectedRecords | src/chipset_drivers/chipset_driver.c:168-191 | every entry is for a listed device that the database knows, unloaded with no handle or context |
| ChipsetDriver.DetectedFull | src/chipset_drivers/chipset_driver.c:142 | once max entries are out, the rest of the listing adds nothing |
| ChipsetDriver.DetectedCount | src/chipset_drivers/chipset_driver.c:142-191 | detect emits min(known devices, max) entries |
| ChipsetDriver.FirstWithDevice | src/chipset_drivers/chipset_driver.c:272-273 | the first list entry with the device id |
| ChipsetDriver.RemoveFirst | src/chipset_drivers/chipset_driver.c:272-283 | the list is one entry shorter or unchanged |
| ChipsetDriver.RemoveFirstAt | src/chipset_drivers/chipset_driver.c:272-283 | removal drops exactly the entry the scan stops at, order kept |
| ChipsetDriver.RemoveFirstAbsent | src/chipset_drivers/chipset_driver.c:272-283 | without an entry for the device the list is unchanged |
| ChipsetDriver.RemoveFirstAtIndex | src/chipset_drivers/chipset_driver.c:272-283 | the first entry with the id is dropped and the rest keep their order |
| ChipsetDriver.LoadUnloadRoundTrip | src/chipset_drivers/chipset_driver.c:244-283 | loading a driver for an unlisted device, then unloading it, gives the list back |
| ChipsetDriver.ShutdownLoop | src/chipset_drivers/chipset_driver.c:114-118 | the loop as written never lengthens the list |
| ChipsetDriver.ShutdownLeavesDriverLoaded | src/chipset_drivers/chipset_driver.c:114-118 | with two loaded drivers for different devices, the second is still loaded after the loop and its bridge context is never released |
| ChipsetDriver.UnloadKeepsPrefix | src/chipset_drivers/chipset_driver.c:263-283 | unloading slot i keeps every earlier slot unloaded, shortens the list by one and moves the later entries down to slot i |
| ChipsetDriver.SweepListLoaded | src/chipset_drivers/chipset_driver.c:114-118 | unloading loaded slot i keeps the corrected loop's account: the unexamined entries start at slot i, one more loaded entry has left and its context is released |
| ChipsetDriver.SweepListSkip | src/chipset_drivers/chipset_driver.c:114-118 | passing unloaded slot i keeps the corrected loop's account one slot further |
| ChipsetDriver.LoadedContexts | src/chipset_drivers/chipset_driver.c:263-268 | the contexts of the loaded entries, in list order, at most one per loaded entry |
| ChipsetDriver.LoadedCount | src/chipset_drivers/chipset_driver.c:114-118 | the number of loaded entries, at most the list's length |
| ChipsetDriver.LoadedCountAll | src/chipset_drivers/chipset_driver.c:244-249 | a list of loaded entries only, as load builds it, counts all its entries |
| ChipsetDriver.Driver.constructor | src/chipset_drivers/chipset_driver.c:173-181 | the structure holds the given record |
| ChipsetDriver.RegisterRequest | src/chipset_drivers/chipset_driver.c:368-376 | 4 bytes at the offset, priority 5, for the driver's device |
| ChipsetDriver.ChipsetManager.constructor | src/chipset_drivers/chipset_driver.c:60-64 | the zero-filled static state |
| ChipsetDriver.ChipsetManager.Init | src/chipset_drivers/chipset_driver.c:94-105 | a second call succeeds without resetting state; the first clears the list |
| ChipsetDriver.ChipsetManager.Detect | src/chipset_drivers/chipset_driver.c:125-202 | INVALID_ARG before init, IO_ERROR when the listing cannot be opened, else exactly Detected |
| ChipsetDriver.ChipsetManager.Scan | src/chipset_drivers/chipset_driver.c:142-195 | the scan of the listing, stopping at max entries, emits exactly Detected |
| ChipsetDriver.ChipsetManager.FindKnown | src/chipset_drivers/chipset_driver.c:169-171 | the database scan stops at KnownIndex |
| ChipsetDriver.ChipsetManager.Load | src/chipset_drivers/chipset_driver.c:205-252 | INVALID_ARG before init or without a driver; a loaded driver unchanged; a null context gives LOAD_FAILED, not loaded; else loaded with the context, and appended while the list has fewer than 32 |
| ChipsetDriver.ChipsetManager.Unload | src/chipset_drivers/chipset_driver.c:255-286 | no-op unless running and loaded; else context released, driver unloaded, first list entry for its device removed in order |
| ChipsetDriver.ChipsetManager.RemoveFromList | src/chipset_drivers/chipset_driver.c:271-283 | the list becomes RemoveFirst of the device id |
| ChipsetDriver.ChipsetManager.UnloadSlot | src/chipset_drivers/chipset_driver.c:116 | unloading the list's own slot i: the slot is marked unloaded, then the first entry for its device leaves |
| ChipsetDriver.ChipsetManager.ShutdownAsWritten | src/chipset_drivers/chipset_driver.c:108-122 | the list ends as ShutdownLoop says, the contexts released are exactly ShutdownReleased's, in order, and the subsystem is stopped |
| ChipsetDriver.ChipsetManager.AsWrittenStep | src/chipset_drivers/chipset_driver.c:115-117 | one pass of the loop body as written moves ShutdownLoop and ShutdownReleased one slot on, never lengthening the list |
| ChipsetDriver.ChipsetManager.SweepStep | src/chipset_drivers/chipset_driver.c:114-118 | one pass of the corrected loop body keeps the loop's account of examined entries, one entry further |
| ChipsetDriver.ChipsetManager.UnloadAll | src/chipset_drivers/chipset_driver.c:114-118 | corrected loop: no entry is left loaded, every loaded entry leaves the list, and the released contexts are exactly those of the loaded entries, in list order |
| ChipsetDriver.ChipsetManager.Shutdown | src/chipset_drivers/chipset_driver.c:108-122 | corrected shutdown: no entry is left loaded, every loaded entry leaves the list (all of them when all were loaded), their contexts are released in list order, and the subsystem is stopped; nothing happens before init |
| ChipsetDriver.ChipsetManager.GetCapabilities | src/chipset_drivers/chipset_driver.c:289-333 | INVALID_ARG before init or without a driver, else the table row of its type |
| ChipsetDriver.ChipsetManager.Guard | src/chipset_drivers/chipset_driver.c:341-347 | INVALID_ARG before init or without a driver, NOT_FOUND when not loaded, IO_ERROR without a context, else success |
| ChipsetDriver.ChipsetManager.Configure | src/chipset_drivers/chipset_driver.c:336-351 | INVALID_ARG without a parameter name; past the guards the bridge's result |
| ChipsetDriver.ChipsetManager.PowerManagement | src/chipset_drivers/chipset_driver.c:431-446 | past the guards the bridge's result, else the guard's error |
| ChipsetDriver.ChipsetManager.ReadRegister | src/chipset_drivers/chipset_driver.c:354-389 | a request is sent iff the guards pass; success iff the bridge accepts it, and then the value is 0x12345678 |
| ChipsetDriver.ChipsetManager.WriteRegister | src/chipset_drivers/chipset_driver.c:392-428 | a request is sent iff the guards pass; success iff the bridge accepts it |
| ChipsetDriver.KnownIndexIsFirst | src/chipset_drivers/chipset_driver.c:169-171 | any row that matches with no earlier match is KnownIndex |
| ChipsetDriver.FirstWithDeviceIsFirst | src/chipset_drivers/chipset_driver.c:272-273 | any entry with the id and no earlier one is FirstWithDevice |
| AuditLog.Chained | forensicsense/utils/logging.py:66-79 | the entry records the previous hash and the hash of its fields with it |
| AuditLog.Walk | forensicsense/utils/logging.py:100-126 | a verified walk counts every line; a failure names a line inside the walked range |
| AuditLog.Check | forensicsense/utils/logging.py:97-126 | NoLog iff the file is missing; a verified file counts all its lines |
| AuditLog.LastHashAppend | forensicsense/utils/logging.py:79-86 | after an appended entry, its hash is the chain's last |
| AuditLog.WalkAppend | forensicsense/utils/logging.py:66-90 | a verifying log extended by an entry recording its last hash verifies with one more entry |
| AuditLog.WalkAppendWrongPrevious | forensicsense/utils/logging.py:110-111 | an appended entry recording any other previous hash breaks the chain at that line |
| AuditLog.WalkPrefix | forensicsense/utils/logging.py:104-121 | a verifying prefix does not change the verdict on what follows: failure is reported at the first bad line |
| AuditLog.RestartBreaksChain | forensicsense/utils/logging.py:57 | an entry written from the genesis hash after a non-empty verified log breaks the chain at that entry |
| AuditLog.SecondLoggerBreaksChain | forensicsense/utils/logging.py:57 | one entry from a first logger and one from a second: "chain broken at line 2" |
| AuditLog.AuditLogger.constructor | forensicsense/utils/logging.py:53-57 | previous hash is the 64-zero genesis; the chain is intact for an absent or empty file |
| AuditLog.AuditLogger.Resume | forensicsense/utils/logging.py:53-57 | corrected: previous hash is the file's last hash, so any file that verifies stays intact |
| AuditLog.AuditLogger.LogAction | forensicsense/utils/logging.py:59-90 | appends the entry with the current previous hash, returns its hash and makes it the next previous hash; an intact log stays intact and verifies with all entries |
| AuditLog.AuditLogger.VerifyIntegrity | forensicsense/utils/logging.py:92-126 | the walk's verdict; a log this logger kept intact is accepted with every line counted |
| Networking.NameMatchIsDotted | forensicsense/utils/networking.py:27-28 | every name the pattern matches has the character-level shape |
| Networking.DottedIsNameMatch | forensicsense/utils/networking.py:27-28 | every name of that shape is matched by the pattern |
| Networking.NameMatchIffDotted | forensicsense/utils/networking.py:27-28 | pattern and character-level description agree |
| Networking.IsValidDomain | forensicsense/utils/networking.py:19-28 | accepted names have 1 to 253 characters |
| Networking.ValidDomainShape | forensicsense/utils/networking.py:22-28 | an accepted name has no leading, trailing or doubled dot and no hyphen at a label's ends |
| Networking.JoinedLabelsMatch | forensicsense/utils/networking.py:27 | a valid label, a dot and a valid name form a valid name |
| Networking.LengthBounds | forensicsense/utils/networking.py:22-23 | the empty string and names over 253 characters are rejected |
| Networking.Lower | forensicsense/utils/networking.py:153 | same length, each character ASCII lower-cased |
| Networking.IsSafeEnvironment | forensicsense/utils/networking.py:142-173 | true iff some lower-cased pattern accepts the lower-cased target by exact, suffix or wildcard test; false for an empty list |
| Networking.ExactIsSuffix | forensicsense/utils/networking.py:159-164 | an exact match is also a suffix match |
| Networking.EmptyPatternAcceptsAll | forensicsense/utils/networking.py:163-164 | the empty pattern makes every target safe |
| Networking.GlobWithoutStar | forensicsense/utils/networking.py:167-171 | without `*` the pattern matches exactly itself, `.` literal |
| Networking.LeadingStarAcceptsSuffix | forensicsense/utils/networking.py:167-171 | `*` followed by a suffix accepts every newline-free target ending in that suffix |
| Networking.CaseInsensitive | forensicsense/utils/networking.py:153-156 | lower-casing the target first changes nothing |
| Networking.SuffixIgnoresLabels | forensicsense/utils/networking.py:163-164 | `example.com` accepts `evilexample.com` as written, not at a label boundary |
| Networking.DomainSuffixIsSubdomain | forensicsense/utils/networking.py:162-164 | the boundary test holds exactly for the domain, names `prefix.domain`, and, for a pattern starting with a dot, names ending in the pattern |
| Networking.LeadingDotPattern | forensicsense/utils/networking.py:163-164 | under the boundary test `.htb` accepts `box.htb` and rejects `boxhtb` |
| Networking.IsSafeEnvironmentAtLabel | forensicsense/utils/networking.py:142-173 | corrected: true iff some pattern names the target's domain or a parent domain, or matches as wildcard |
| Networking.AtLabelIsStricter | forensicsense/utils/networking.py:159-171 | the corrected test accepts only targets the written one accepts |
| Networking.EmptyPatternAtLabel | forensicsense/utils/networking.py:163-164 | under the boundary test the empty pattern no longer accepts ordinary names |
| Config.Get | forensicsense/cli/main.py:378 | absent iff the key is not among the keys, else the value of an entry with it |
| Config.Reference | forensicsense/cli/main.py:39-40 | a name exactly for `${name}` strings |
| Config.Expand | forensicsense/cli/main.py:36-43 | mappings keep their keys in order; non-string non-mapping values, lists included, are unchanged; strings stay strings |
| Config.ExpandString | forensicsense/cli/main.py:39-41 | a string changes only if it references a set variable, and then becomes its value |
| Config.ExpandGet | forensicsense/cli/main.py:37-38 | a key looked up after expansion gives the expansion of its old value |
| Config.ExpandEmptyEnv | forensicsense/cli/main.py:36-43 | with no variables set, expansion changes nothing |
| Config.ExpandIdempotent | forensicsense/cli/main.py:36-43 | when no variable's value is a reference, expanding twice equals expanding once |
| Config.Load | forensicsense/cli/main.py:31-49 | a missing file gives `{}`; a mapping keeps its keys |
| Config.Split | forensicsense/cli/main.py:375 | at least one piece, none containing the separator |
| Config.JoinSplit | forensicsense/cli/main.py:375 | joining the pieces gives the setting back |
| Config.SplitJoin | forensicsense/cli/main.py:375 | splitting a join of separator-free pieces gives them back |
| Config.Resolve | forensicsense/cli/main.py:376-378 | an error names a key inside the path; no keys is the value itself; a non-mapping with keys left raises at once |
| Config.ResolveEmpty | forensicsense/cli/main.py:378 | below a missing key every lookup gives `{}` |
| Config.ResolveConcat | forensicsense/cli/main.py:377-378 | a path looks up as its first part, then the rest from there |
| Config.MissingKeyShowsEmpty | forensicsense/cli/main.py:378 | a setting whose first key is missing shows `{}` whatever follows |
| Config.LookupSetting | forensicsense/cli/main.py:375-379 | the loop's outcome is Resolve of the split setting; an error names one of its keys |

## Findings

| source | as written | input that shows it | evidently intended | confidence | as-written member | corrected member |
|---|---|---|---|---|---|---|
| src/port_forward/port_forward.c:137 | a rule is admitted while `rule_count < config.max_rules`; nothing bounds `max_rules` by the 1024-entry array | `max_rules = 2000` and 1024 rules stored: the next rule is written to `rules[1024]` at line 157 | admit only below both `max_rules` and `PF_MAX_RULES` | high; not executed | PortForward.AdmitsAsWrittenOverflows | PortForward.Admits |
| src/chipset_drivers/chipset_driver.c:114-118 | shutdown unloads slot i, which shifts the next entry into slot i, then moves on to i+1 | two loaded drivers for different devices: the second is never unloaded | every loaded driver is unloaded | high; not executed | ChipsetDriver.ShutdownLeavesDriverLoaded | ChipsetDriver.ChipsetManager.Shutdown |
| forensicsense/utils/logging.py:57 | every new logger starts from the genesis hash, whatever the file holds | one entry by a first logger, then one by a second on the same file: "Hash chain broken at line 2" | continue the chain from the file's last hash | medium; not executed | AuditLog.SecondLoggerBreaksChain | AuditLog.AuditLogger.Resume |
| forensicsense/utils/networking.py:163-164 | the "domain suffix" test is a plain string suffix | pattern `example.com` accepts `evilexample.com`; pattern `""` accepts every target | the domain itself or a subdomain of it; a pattern starting with a dot (`.htb`) accepts every name ending in it | medium; not executed | Networking.SuffixIgnoresLabels | Networking.IsSafeEnvironmentAtLabel |

## Left out

- Floating point in the AI buffer is left out: feature extraction, ReLU/softmax/forward pass, the Xavier weight initialisation (`rand`, `time`), the estimated latency and batch delay, and the accuracy in `ai_buffer_get_stats`. The forward pass's outputs are a parameter. The failure estimate is an exact `real` quotient, not a `float`.
- `ai_buffer_save_model`/`ai_buffer_load_model` are raw file I/O and are not modelled. `ai_buffer_get_stats` and `bridge_get_stats` are not modelled either.
- Threads, mutexes, the worker's condition variable, timed wait and shutdown flag are left out. `DrainBatch` is the body the worker runs once it wakes.
- `free` and object lifetime are not modelled: a device context is an object that stays allocated. So the model does not capture that `bridge_unregister_device` frees a context even when it is not registered, or that `bridge_shutdown` frees contexts that queued requests may still point to.
- `printf`/`fprintf` logging and the audit logger's `self.logger.info` call are not modelled.
- Allocation failures are not modelled. This covers `PF_ERR_NO_MEM` in `pf_add_rule`, a null `malloc` in `bridge_register_device`, and `pthread_mutex_init` failing in `pf_init`.
- Output pointers (prediction, destination buffers, group ids and group counts, capability structures) are taken to be non-null. Input pointers that the source checks are modelled as Option or nullable, among them the request array of `ai_buffer_predict_batch` and the parameter name of `bridge_chipset_configure`.
- Fixed-size string fields are not truncated: rule names and addresses (`strncpy`/`snprintf`), and driver names and paths.
- Opaque pointers are only stored, so they are not modelled: `driver_ctx`, `windows_device`, `linux_device`, and the callback context pointers.
- `PortForward.PortForwarder.AddRule`: `next_rule_id` is an unbounded natural. The source's 32-bit counter wraps after 2^32 − 1 rules, and the id is returned as `int`. Its capacity test is the corrected `Admits` (below both `max_rules` and 1024), as is `UpnpAddMapping`'s. The source tests only `rule_count >= max_rules`; `AdmitsAsWritten` models that guard and `AdmitsAsWrittenOverflows` shows the write past the array it lets through.
- 64-bit statistics counters (packets, bytes, requests) are unbounded naturals.
- The packet callback is foreign code: its return value is a parameter of `ForwardPacket`. Event callbacks are recorded in a ghost event log.
- `PortForward.PortForwarder.UpnpRemoveMapping`: the source drops the lock and removes by id via `pf_remove_rule`. The model removes the found index directly. With unique ids the two agree, and the unlocked window is a concurrency concern.
- The chipset detect scan of `/sys/bus/pci/devices` (`opendir`, `fopen`, `fscanf`) is an input: the ids of the readable devices, in listing order. `stat()` on the driver file only logs. `bridge_chipset_init` only logs and always succeeds.
- Bridge calls from the chipset manager are inputs: the context `bridge_register_device` returns, and the codes of `bridge_forward_request`, `bridge_chipset_configure` and `bridge_chipset_power_state`. The data word of a register write is not carried in the request.
- `ChipsetDriver.ChipsetManager.Shutdown` is the corrected loop. The loop as written is `ShutdownAsWritten`.
- The audit log's JSON text and SHA-256 are abstract. The hash is a function parameter, and writing a line then parsing it back is taken to give the same object.
- The audit log's entry fields are a fixed record. An object that lacks some field keys, or carries extra keys, is not represented; the source rehashes whatever keys such an object holds. A stored `"hash"` that is not a string is modelled, and is always a mismatch.
- `utcnow()` timestamps are part of the given fields.
- `Networking.IsSafeEnvironment`: patterns that contain `*` are required to hold no other regular-expression metacharacters (`\ ^ $ + ? { } [ ] ( ) |`). Such patterns would change the regular expression's meaning.
- `Networking.Lower` lower-cases ASCII letters only. Python's `str.lower` also maps other scripts.
- Config keys are strings, and YAML scalars other than null, booleans, integers and strings are left out. Mappings are ordered entry lists whose lookups take the first entry with the key.
- The search for `config.yaml` and its parsing are file I/O and are left out: `Config.Load` receives the parsed document or None.
- Printing the configuration (`json.dumps`, the `setting: value` line) and the unimplemented setting change are not modelled.
