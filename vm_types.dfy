/**
 Values shared by the power-state reconciler: the power and lifecycle states of a
 virtual machine, the record the management server stores for it, and one entry
 of a host's state report.
 */
module VmTypes {

  datatype Option<T> = None | Some(value: T)

  /** Power state as observed by a hypervisor (VirtualMachine.PowerState).
      PowerReportMissing is never reported by a host: only the reconciler assigns it. */
  datatype PowerState = PowerOn | PowerOff | PowerUnknown | PowerReportMissing

  /** Orchestration lifecycle state (VirtualMachine.State), distinct from the power state. */
  datatype LifecycleState =
    | Starting | Running | Stopping | Stopped | Destroyed | Expunging
    | Migrating | Error | Unknown | Shutdown | Restoring | BackingUp

  /** One row of the VM instance table, as far as the reconciler reads or writes it.
      Times are milliseconds since the epoch; an absent time is a null column. */
  datatype VmRecord = VmRecord(
    id: int,
    instanceName: string,
    hostId: Option<int>,
    state: LifecycleState,
    created: int,
    updateTime: Option<int>,
    powerState: PowerState,
    powerHostId: Option<int>,
    powerStateUpdateTime: Option<int>,
    powerStateUpToDate: bool)

  /** One entry of a host's report (HostVmStateReportEntry): the observed power state. */
  datatype ReportEntry = ReportEntry(state: PowerState)

  /** Answer of the tracking-freshness query; NotFound replaces the exception
      the store throws for a VM that no longer exists. */
  datatype Freshness = UpToDate | Stale | NotFound
}
