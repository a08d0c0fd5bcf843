# VM power-state reconciler

A Dafny model of CloudStack's `VirtualMachinePowerStateSyncImpl`. This is the part of the management server that takes a hypervisor host's VM power-state report and reconciles it with the stored VM records. A pass works like this:

- It translates the report. Instance names become VM ids, and names that match no VM are dropped.
- It writes each reported state conditionally. A VM is announced on the message bus only when its write changed something.
- It picks the host's Running, Stopping and Starting VMs that the report did not mention.
- It adjudicates each of those VMs with a grace period of two ping intervals:
  - without force, a VM whose tracking is stale has its tracking reset and is left for a later pass;
  - a VM that has vanished is skipped;
  - otherwise the VM is marked `PowerReportMissing` if the pass is forced, or if the time since its last update is strictly greater than the grace period. The mark is stamped with the time taken before the candidate query. The source intends that time as the instant stale states are checked against, so that an update made after it is not overwritten; the stand-in write does not apply that guard (see "## Left out").

`resetHostSyncState` asks the store to clear the power-state tracking of the host's VMs. Which rows that is belongs to the store: the stand-in takes the VMs whose power state was last written for that host.

The model has five modules:

- `VmTypes` holds the values: power and lifecycle states, the VM row, and a report entry.
- `InstanceDao` holds in-memory stand-ins for `VMInstanceDao` and the message bus. These are classes with a map-valued VM table and a published-id log. The reconciler is verified against their contracts:
  - `updatePowerState` writes only when the VM exists and its stored power state differs, and returns whether it wrote;
  - `isPowerStateUpToDate` returns `UpToDate`, `Stale` or `NotFound` instead of throwing.
- `Reconciliation` describes one pass VM by VM, with no order among VMs:
  - `ReportPhase` is the report phase;
  - `MissingPass` is the ordered missing-VM phase;
  - `Reconciled` is the whole pass for one row, computed from that row before the pass;
  - `Notified` is the set of VMs the pass announces.
- `PassProperties` proves that the ordered missing phase equals the per-VM description. It also proves the properties the reconciler promises.
- `PowerStateSync` is the reconciler class. Its loops are proved against those functions.

Clock readings are parameters of a pass:

- `now` is the time stamped on report writes;
- `startTime` is read before the candidate query;
- `currentTime` is what the grace check compares against.

Times are milliseconds, and `startTime <= currentTime` is required. A null report is `None`.

The order in which the report map is walked is unspecified, as for a `HashMap`. The loops therefore pick the next key nondeterministically. For the same reason, the notification log is specified by how often each id occurs (`AnnouncesExactly`), not by its order.

Two behaviours of a pass worth stating outright:

- **Idempotence.** A pass repeated with the same report is expected to be a no-op. In this model that holds when the repeat also has the same clock readings and the first pass was forced or had no missing candidate with stale tracking (`ReconcileSettles`). For a forced pass repeated with force, the clock readings may differ (`ForcedPassSettles`). Without force, a later `currentTime` can push a VM that was within its grace period past it, so the repeat marks that VM (`LaterRepeatScenario`). With the stand-in reset, which only sets the tracking flag and keeps the power-state time, a stale candidate is reset in the first pass and marked `PowerReportMissing` by an identical second pass (`StaleDeferralScenario`). Whether the real store behaves so depends on what its reset writes; that body is in `VMInstanceDaoImpl`, outside this model.
- **Vanished VMs.** Without force, the freshness check finds a vanished VM and the code skips it and goes on with the next candidate. With force the check is not made; the stand-in conditional write then reports "no change" for a VM that does not exist, so in the model that VM is skipped as well. What the real store's write does for a missing row is not part of this model.

## Model

| member | source | states |
|---|---|---|
| InstanceDao.InstanceStore.FindVmByInstanceName | engine/orchestration/src/main/java/com/cloud/vm/VirtualMachinePowerStateSyncImpl.java:182-184 | The lookup finds nothing exactly when no stored VM has that instance name. Otherwise it returns the stored row of the VM with that name. |
| InstanceDao.InstanceStore.UpdatePowerState | engine/orchestration/src/main/java/com/cloud/vm/VirtualMachinePowerStateSyncImpl.java:78 | Stand-in for the conditional write. It reports a change exactly when the VM exists and its stored state differs. Only then does it write the state, the reporting host and the time, and mark the tracking up to date. |
| InstanceDao.InstanceStore.IsPowerStateUpToDate | engine/orchestration/src/main/java/com/cloud/vm/VirtualMachinePowerStateSyncImpl.java:111 | NotFound exactly when the VM is not stored, and UpToDate exactly when it is stored with its tracking flag set. The exception becomes the NotFound value. |
| InstanceDao.InstanceStore.ResetVmPowerStateTracking | engine/orchestration/src/main/java/com/cloud/vm/VirtualMachinePowerStateSyncImpl.java:113 | Only that VM's tracking is cleared, and every other row is unchanged. |
| InstanceDao.InstanceStore.ResetHostPowerStateTracking | engine/orchestration/src/main/java/com/cloud/vm/VirtualMachinePowerStateSyncImpl.java:51 | The tracking is cleared on exactly the rows whose power state was last written for that host. Every other row is unchanged, and no row is added or removed. |
| InstanceDao.InstanceStore.FindByHostInStates | engine/orchestration/src/main/java/com/cloud/vm/VirtualMachinePowerStateSyncImpl.java:90-91 | The query returns each VM assigned to the host with a lifecycle state in the given set exactly once, as currently stored, and no other VM. |
| InstanceDao.MessageBus.Publish | engine/orchestration/src/main/java/com/cloud/vm/VirtualMachinePowerStateSyncImpl.java:81 | The VM id is appended to the published log. |
| InstanceDao.Pick | engine/orchestration/src/main/java/com/cloud/vm/VirtualMachinePowerStateSyncImpl.java:74 | The next entry of a hash-map walk is some member of the entries not yet visited. |
| Reconciliation.LastUpdateTime | engine/orchestration/src/main/java/com/cloud/vm/VirtualMachinePowerStateSyncImpl.java:121-129 | The last update is the power-state update time if present, else the update time if present, else the creation time. |
| Reconciliation.Adjudicate | engine/orchestration/src/main/java/com/cloud/vm/VirtualMachinePowerStateSyncImpl.java:111-156 | Without force, a candidate is skipped as vanished exactly when its VM is gone, and deferred as stale exactly when its tracking is not up to date; with force neither happens. It reaches GraceExpired exactly when it passes the freshness gate and either the pass is forced or the elapsed time strictly exceeds the grace period. |
| Reconciliation.AnnouncesConcat | engine/orchestration/src/main/java/com/cloud/vm/VirtualMachinePowerStateSyncImpl.java:74-85 | The report-phase log followed by the missing-phase log announces the union of their disjoint id sets, each id once. |
| PassProperties.MissingPassDomain | engine/orchestration/src/main/java/com/cloud/vm/VirtualMachinePowerStateSyncImpl.java:107-157 | The missing phase neither adds nor removes VM rows. |
| PassProperties.MissingPassUntouched | engine/orchestration/src/main/java/com/cloud/vm/VirtualMachinePowerStateSyncImpl.java:107-157 | A VM that is not among the candidates keeps its row and is never announced by the missing phase. |
| PassProperties.MissingPassAt | engine/orchestration/src/main/java/com/cloud/vm/VirtualMachinePowerStateSyncImpl.java:107-157 | Each of the distinct candidates, whatever its place in the list, is adjudicated exactly once against its row from before the phase. It is announced once if its write changed something, otherwise never. |
| PassProperties.MissingPassAtLast | engine/orchestration/src/main/java/com/cloud/vm/VirtualMachinePowerStateSyncImpl.java:107-157 | MissingPassAt for the last candidate in the list. |
| PassProperties.LastStepAt | engine/orchestration/src/main/java/com/cloud/vm/VirtualMachinePowerStateSyncImpl.java:111-153 | One adjudication step writes the candidate's adjudicated row and announces it once exactly when the write is a change. |
| PassProperties.LastStepElsewhere | engine/orchestration/src/main/java/com/cloud/vm/VirtualMachinePowerStateSyncImpl.java:111-153 | One adjudication step changes no other VM's row and announces no other VM. |
| PassProperties.MissingPassSkipsVanished | engine/orchestration/src/main/java/com/cloud/vm/VirtualMachinePowerStateSyncImpl.java:116-119 | A candidate whose VM no longer exists gets no row and no announcement, and the other candidates are still adjudicated (by MissingPassAt). |
| PassProperties.ReportPhasePreserves | engine/orchestration/src/main/java/com/cloud/vm/VirtualMachinePowerStateSyncImpl.java:74-85 | The report phase keeps every row with the same id, name, host and lifecycle state, and leaves an unreported VM unchanged. |
| PassProperties.ReportStepRows | engine/orchestration/src/main/java/com/cloud/vm/VirtualMachinePowerStateSyncImpl.java:74-85 | One entry's conditional write changes something exactly when the report phase announces that VM, and afterwards that entry counts as done. |
| PassProperties.ReportStepLog | engine/orchestration/src/main/java/com/cloud/vm/VirtualMachinePowerStateSyncImpl.java:78-84 | Publishing the id exactly when the write changed something keeps the log equal to its old contents plus one announcement for each changed VM already handled. |
| PassProperties.ReportRowsDone | engine/orchestration/src/main/java/com/cloud/vm/VirtualMachinePowerStateSyncImpl.java:74-85 | Once every entry has been handled, the table is the report phase's result. |
| PassProperties.ReconcileComposition | engine/orchestration/src/main/java/com/cloud/vm/VirtualMachinePowerStateSyncImpl.java:74-157 | The report phase followed by the ordered missing phase gives the per-VM result of the whole pass for every row. It announces exactly the candidates that were newly marked missing. |
| PassProperties.ReconcileCompositionAt | engine/orchestration/src/main/java/com/cloud/vm/VirtualMachinePowerStateSyncImpl.java:74-157 | ReconcileComposition for a single VM id. |
| PassProperties.MissingCandidates | engine/orchestration/src/main/java/com/cloud/vm/VirtualMachinePowerStateSyncImpl.java:90-97 | After removing the reported VMs, the candidates are exactly the host's watched VMs with no key in the translated report, each once and as stored. |
| PassProperties.PassAssembled | engine/orchestration/src/main/java/com/cloud/vm/VirtualMachinePowerStateSyncImpl.java:70-161 | The report phase's log followed by the missing phase's log announces exactly `Notified`, after the old contents, and the table ends as `Reconciled`. |
| PassProperties.NotifiedDisjoint | engine/orchestration/src/main/java/com/cloud/vm/VirtualMachinePowerStateSyncImpl.java:95-96 | No VM is announced by both phases, because a reported VM is never a missing candidate. |
| PassProperties.ReportedVmTakesReportedState | engine/orchestration/src/main/java/com/cloud/vm/VirtualMachinePowerStateSyncImpl.java:74-97 | A reported VM ends the pass in its reported state. It is announced if and only if that state differs from the stored one, and a changing write is stamped with the report time. |
| PassProperties.NonCandidateUntouched | engine/orchestration/src/main/java/com/cloud/vm/VirtualMachinePowerStateSyncImpl.java:90-91 | An unreported VM that is on another host, or in a lifecycle state other than Running, Stopping or Starting, is neither changed nor announced. |
| PassProperties.StaleCandidateDeferred | engine/orchestration/src/main/java/com/cloud/vm/VirtualMachinePowerStateSyncImpl.java:111-115 | Without force, a stale candidate only has its tracking reset. Its power state is not written and it is not announced. |
| PassProperties.GraceCheck | engine/orchestration/src/main/java/com/cloud/vm/VirtualMachinePowerStateSyncImpl.java:139-153 | A candidate that reaches the grace check and is not already PowerReportMissing is marked PowerReportMissing, and announced, if and only if the pass is forced or the elapsed time strictly exceeds the grace period. The mark carries the start time. |
| PassProperties.GraceCheckAlreadyMarked | engine/orchestration/src/main/java/com/cloud/vm/VirtualMachinePowerStateSyncImpl.java:141-153 | A candidate that reaches the grace check already PowerReportMissing keeps its row unchanged and is not announced, because the write reports no change. |
| PassProperties.GraceBoundaryNotExpired | engine/orchestration/src/main/java/com/cloud/vm/VirtualMachinePowerStateSyncImpl.java:141 | Without force, an elapsed time exactly equal to the grace period leaves the VM unchanged and unannounced. |
| PassProperties.MissingMarkStampedWithStartTime | engine/orchestration/src/main/java/com/cloud/vm/VirtualMachinePowerStateSyncImpl.java:88-147 | An unreported VM that the pass moves to PowerReportMissing was a candidate. Its power-state time is the start time, which is no later than the current time. |
| PassProperties.ReconcileSettles | engine/orchestration/src/main/java/com/cloud/vm/VirtualMachinePowerStateSyncImpl.java:70-161 | Repeating a pass with the same report and the same clock readings, when it was forced or had no stale candidate, changes nothing and announces nothing. |
| PassProperties.ForcedPassSettles | engine/orchestration/src/main/java/com/cloud/vm/VirtualMachinePowerStateSyncImpl.java:70-161 | After a forced pass, a second forced pass from the same host with the same report, at any clock readings, changes nothing and announces nothing. |
| PowerStateSync.RemoveReported | engine/orchestration/src/main/java/com/cloud/vm/VirtualMachinePowerStateSyncImpl.java:92-97 | The remaining list holds exactly the candidates whose id has no entry in the translated report, and it keeps distinct ids distinct. |
| PowerStateSync.PowerStateSyncImpl.constructor | engine/orchestration/src/main/java/com/cloud/vm/VirtualMachinePowerStateSyncImpl.java:41-46 | The reconciler holds the given store, the bus and the configured ping interval. |
| PowerStateSync.PowerStateSyncImpl.ResetHostSyncState | engine/orchestration/src/main/java/com/cloud/vm/VirtualMachinePowerStateSyncImpl.java:49-52 | Only the tracking of the host's VMs is cleared, and nothing is published. |
| PowerStateSync.PowerStateSyncImpl.FindVm | engine/orchestration/src/main/java/com/cloud/vm/VirtualMachinePowerStateSyncImpl.java:182-184 | The VM of that instance name, as stored, or nothing exactly when no stored VM has the name. |
| PowerStateSync.PowerStateSyncImpl.ConvertVmStateReport | engine/orchestration/src/main/java/com/cloud/vm/VirtualMachinePowerStateSyncImpl.java:164-180 | A null report gives the empty map, and a name matching no VM is dropped. Every stored VM whose instance name is in the report contributes its id with the reported state. Every key is the id of such a VM and maps to that entry's state. |
| PowerStateSync.PowerStateSyncImpl.ApplyReport | engine/orchestration/src/main/java/com/cloud/vm/VirtualMachinePowerStateSyncImpl.java:74-85 | One conditional write is made per translated entry, stamped with the report time. The bus gets exactly one announcement for each VM whose write changed something, appended to its old contents. |
| PowerStateSync.PowerStateSyncImpl.ProcessMissing | engine/orchestration/src/main/java/com/cloud/vm/VirtualMachinePowerStateSyncImpl.java:100-157 | The table and the log are what adjudicating the candidates in list order gives. Vanished candidates are skipped, stale ones without force are reset, and candidates past the grace period, or all candidates when forced, are marked with the start time. |
| PowerStateSync.PowerStateSyncImpl.ProcessReport | engine/orchestration/src/main/java/com/cloud/vm/VirtualMachinePowerStateSyncImpl.java:70-161 | With the grace period GraceMs() = pingInterval × 2000 ms (line 105), after the pass each row is the per-VM result of its row before the pass. The bus has gained exactly one announcement for each VM whose write changed something, and nothing else. |
| PowerStateSync.PowerStateSyncImpl.ProcessHostVmStateReport | engine/orchestration/src/main/java/com/cloud/vm/VirtualMachinePowerStateSyncImpl.java:55-60 | The report is translated and then reconciled without force, with the table and log results of ProcessReport. |
| PowerStateSync.PowerStateSyncImpl.ProcessHostVmStatePingReport | engine/orchestration/src/main/java/com/cloud/vm/VirtualMachinePowerStateSyncImpl.java:63-68 | The report is translated and then reconciled with the caller's force flag, with the table and log results of ProcessReport. |
| Scenarios.ReportedChangeScenario | engine/orchestration/src/main/java/com/cloud/vm/VirtualMachinePowerStateSyncImpl.java:74-85 | A VM reported PowerOn while stored PowerOff is written PowerOn with the report time, and it is announced. |
| Scenarios.GraceScenario | engine/orchestration/src/main/java/com/cloud/vm/VirtualMachinePowerStateSyncImpl.java:105-156 | With a 60 s ping interval, a VM missing for 121 s is marked with the start time and announced. A VM missing for 30 s, or for exactly 120 s, is left alone. |
| Scenarios.LaterRepeatScenario | engine/orchestration/src/main/java/com/cloud/vm/VirtualMachinePowerStateSyncImpl.java:139-153 | With a 120 s grace period, an unforced pass at 100 s leaves a VM last updated at 0 alone and announces nothing, while the same report at 130 s marks it and announces it. |
| Scenarios.StaleDeferralScenario | engine/orchestration/src/main/java/com/cloud/vm/VirtualMachinePowerStateSyncImpl.java:111-115 | A stale missing VM only has its tracking reset in the first pass, and an identical second pass marks it and announces it. |

## Left out

- Logging and the timestamp formatting for log lines are not modelled. They only affect observability.
- The real `VMInstanceDao` persistence and SQL, message-bus delivery and publish scope, the topic name, and dependency injection are not modelled. The store and bus are in-memory stand-ins, and `VMInstanceDao` is not part of this model. Because of this, the stand-in write decides "changed" from the power state alone. The real store may also compare the host or use an update counter.
- The wall clock is not read. The three clock readings of a pass are parameters, and one `now` is used for every report write, where the code reads the clock once per entry.
- Exceptions are not modelled except the not-found case of the freshness check. In the code, a CloudRuntimeException from the store's power-state write (lines 78 and 147), from the candidate query (line 90) or from a bus publish (lines 81 and 150), and a null creation time reaching the log formatting (lines 127-131), end the whole pass, not just one VM's handling. The model's store and bus never fail, and `VmRecord.created` is always present.
- Java `long` overflow in `pingInterval * 2000` and in `currentTime - lastUpdate` is not modelled, because the model uses unbounded integers.
- Concurrent passes over the same VM, and the store's compare-and-set atomicity, are not modelled. The candidate rows are those stored after the report phase, and nothing else changes the table during a pass.
- The order of announcements among VMs is not modelled. The map walk is unordered, so the log is specified per id and not by position.
- `translatedInfo.get(id) != null` is modelled as key membership. This assumes that every report entry carries a state: a `ReportEntry` always holds a `PowerState`, so a null state, which would leave a reported VM among the missing candidates, is not modelled.
- Instance names are assumed unique: the store's name index holds every stored VM under its name, so one name resolves to one VM.
- InstanceDao.InstanceStore.UpdatePowerState: the stand-in write does not guard against an update made after the pass's start time, which the source's comments ask the store to respect. This only matters under the concurrency left out above.
- InstanceDao.InstanceStore.ResetVmPowerStateTracking: the stand-in reset only sets the tracking flag and keeps the power-state time, whose real body is not part of this model. The deferral shown by `StaleDeferralScenario` is a property of that stand-in.
- PowerStateSync.PowerStateSyncImpl.ResetHostSyncState: the stand-in reset only sets the tracking flag. What else the real store clears, such as the power-state timestamps, is not modelled.
