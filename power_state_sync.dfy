/**
 The reconciler itself (VirtualMachinePowerStateSyncImpl): it translates a host's
 report into VM ids, applies the reported power states, finds the watched VMs of the
 host that are missing from the report and adjudicates them with a grace period.
 The store and the bus are the stand-ins of module InstanceDao; clock readings are
 parameters.
 */
module PowerStateSync {
  import opened VmTypes
  import opened InstanceDao
  import opened Reconciliation
  import opened PassProperties

  /** A host's report keyed by VM instance name; None stands for a null map. */
  type HostReport = Option<map<string, ReportEntry>>

  /** The candidate list with every VM present in the report removed (the
      iterator-remove loop over the list returned by the candidate query). */
  method RemoveReported(candidates: seq<VmRecord>, translated: map<int, PowerState>)
    returns (missing: seq<VmRecord>)
    ensures forall c :: c in missing <==> c in candidates && c.id !in translated
    ensures forall id :: id in Ids(missing) <==> id in Ids(candidates) && id !in translated
    ensures DistinctIds(candidates) ==> DistinctIds(missing)
    ensures |missing| <= |candidates|
  {
    missing := [];
    for i := 0 to |candidates|
      invariant forall c :: c in missing <==> c in candidates[..i] && c.id !in translated
      invariant forall id :: id in Ids(missing) <==> id in Ids(candidates[..i]) && id !in translated
      invariant DistinctIds(candidates) ==> DistinctIds(missing)
      invariant |missing| <= i
    {
      var instance := candidates[i];
      assert candidates[..i + 1] == candidates[..i] + [instance];
      IdsAppend(candidates[..i], instance);
      if instance.id !in translated {
        if DistinctIds(candidates) {
          forall c | c in missing ensures c.id != instance.id {
            var j :| 0 <= j < i && candidates[j] == c;
          }
        }
        IdsAppend(missing, instance);
        missing := missing + [instance];
      }
    }
    assert candidates[..|candidates|] == candidates;
  }

  class PowerStateSyncImpl {
    const store: InstanceStore
    const bus: MessageBus
    /** The configured ping interval, in seconds. */
    const pingInterval: int

    constructor (store: InstanceStore, bus: MessageBus, pingInterval: int)
      ensures this.store == store && this.bus == bus && this.pingInterval == pingInterval
    {
      this.store := store;
      this.bus := bus;
      this.pingInterval := pingInterval;
    }

    /** The grace period: two ping intervals, in milliseconds. */
    function GraceMs(): int
    {
      pingInterval * 2000
    }

    /** resetHostSyncState: clears the tracking of the host's VMs and touches nothing else. */
    method ResetHostSyncState(hostId: int)
      requires store.Valid()
      modifies store
      ensures store.Valid() && store.byName == old(store.byName)
      ensures store.vms.Keys == old(store.vms).Keys
      ensures forall id | id in store.vms ::
        store.vms[id] == if old(store.vms)[id].powerHostId == Some(hostId)
                         then MarkedUpToDate(old(store.vms)[id]) else old(store.vms)[id]
      ensures bus.published == old(bus.published)
    {
      store.ResetHostPowerStateTracking(hostId);
    }

    /** findVM: the VM the store knows under this instance name. */
    function FindVm(name: string): (r: Option<VmRecord>)
      reads store
      requires store.Valid()
      ensures r.None? <==> forall id | id in store.vms :: store.vms[id].instanceName != name
      ensures r.Some? ==> r.value.instanceName == name && r.value.id in store.vms && store.vms[r.value.id] == r.value
    {
      store.FindVmByInstanceName(name)
    }

    /** The id-to-state map a report translates to: one entry per reported name that
        resolves to a VM, keyed by that VM's id. */
    ghost function Translation(report: HostReport): map<int, PowerState>
      reads store
      requires store.Valid()
    {
      if report.None? then map[]
      else map n | n in report.value && n in store.byName :: store.byName[n] := report.value[n].state
    }

    /** convertVmStateReport: a null report gives an empty map; a name that resolves
        to no VM is dropped; every other name contributes its VM's id with the
        reported state, and no other key appears. */
    method ConvertVmStateReport(report: HostReport) returns (m: map<int, PowerState>)
      requires store.Valid()
      ensures m == Translation(report)
      ensures report.None? ==> m == map[]
      ensures forall n | report.Some? && n in report.value && FindVm(n).Some? ::
        FindVm(n).value.id in m && m[FindVm(n).value.id] == report.value[n].state
      ensures forall id | report.Some? && id in store.vms && store.vms[id].instanceName in report.value ::
        id in m && m[id] == report.value[store.vms[id].instanceName].state
      ensures forall id | id in m ::
        && report.Some? && id in store.vms
        && store.vms[id].instanceName in report.value
        && FindVm(store.vms[id].instanceName) == Some(store.vms[id])
        && m[id] == report.value[store.vms[id].instanceName].state
    {
      m := map[];
      if report.None? {
        return;
      }
      var states := report.value;
      var pending := states.Keys;
      while pending != {}
        invariant pending <= states.Keys
        invariant forall n | n in states && n !in pending && FindVm(n).Some? ::
          FindVm(n).value.id in m && m[FindVm(n).value.id] == states[n].state
        invariant forall id | id in m ::
          && id in store.vms
          && store.vms[id].instanceName in states && store.vms[id].instanceName !in pending
          && FindVm(store.vms[id].instanceName) == Some(store.vms[id])
          && m[id] == states[store.vms[id].instanceName].state
        decreases pending
      {
        var name := Pick(pending);
        var vm := FindVm(name);
        if vm.Some? {
          m := m[vm.value.id := states[name].state];
        }
        pending := pending - {name};
      }
      var t := Translation(report);
      forall id
        ensures id in m <==> id in t
        ensures id in m ==> m[id] == t[id]
      {
        if id in t {
          var n :| n in states && n in store.byName && store.byName[n] == id;
          assert FindVm(n).Some?;
        }
        if id in m {
          assert FindVm(store.vms[id].instanceName).Some?;
        }
      }
    }

    /** The report loop of processReport: one conditional write per translated entry,
        from the pass's host and stamped with its `now`, and one announcement for each write that changed something. */
    method ApplyReport(translated: map<int, PowerState>, p: Pass)
      requires store.Valid()
      modifies store, bus
      ensures store.Valid() && store.byName == old(store.byName)
      ensures store.vms == ReportPhase(old(store.vms), translated, p)
      ensures |old(bus.published)| <= |bus.published|
      ensures bus.published[..|old(bus.published)|] == old(bus.published)
      ensures AnnouncesExactly(bus.published[|old(bus.published)|..], ReportChanged(old(store.vms), translated))
    {
      ghost var vms0 := store.vms;
      ghost var log0 := bus.published;
      ghost var changedIds := ReportChanged(vms0, translated);
      var pending := translated.Keys;
      assert bus.published[..|log0|] == log0;
      while pending != {}
        invariant pending <= translated.Keys
        invariant store.Valid() && store.byName == old(store.byName)
        invariant ReportedSoFar(store.vms, vms0, translated, p, pending)
        invariant AnnouncedSoFar(bus.published, log0, changedIds, pending)
        decreases pending
      {
        var id := Pick(pending);
        ReportStepRows(store.vms, vms0, translated, p, pending, id);
        ReportStepLog(bus.published, log0, changedIds, pending, id, WriteChanges(store.vms, id, translated[id]));
        var changed := store.UpdatePowerState(id, p.hostId, translated[id], p.now);
        if changed {
          bus.Publish(id);
        }
        pending := pending - {id};
      }
      ReportRowsDone(store.vms, vms0, translated, p);
    }

    /** The missing-VM loop of processReport: each candidate, in list order, is skipped
        when its VM is gone, has its tracking reset when stale (unless forced), and
        otherwise is written PowerReportMissing, stamped with the pass's start time,
        when forced or past the grace period; a changing write is announced. */
    method ProcessMissing(candidates: seq<VmRecord>, p: Pass)
      requires store.Valid()
      modifies store, bus
      ensures store.Valid() && store.byName == old(store.byName)
      ensures store.vms == MissingPass(old(store.vms), candidates, p).vms
      ensures bus.published == old(bus.published) + MissingPass(old(store.vms), candidates, p).notified
    {
      for i := 0 to |candidates|
        invariant store.Valid() && store.byName == old(store.byName)
        invariant store.vms == MissingPass(old(store.vms), candidates[..i], p).vms
        invariant bus.published == old(bus.published) + MissingPass(old(store.vms), candidates[..i], p).notified
      {
        var instance := candidates[i];
        assert candidates[..i + 1][..i] == candidates[..i];
        if !p.force {
          var freshness := store.IsPowerStateUpToDate(instance.id);
          if freshness == NotFound {
            continue;
          }
          if freshness == Stale {
            store.ResetVmPowerStateTracking(instance.id);
            continue;
          }
        }
        var lastUpdate := LastUpdateTime(instance);
        var elapsed := p.currentTime - lastUpdate;
        if p.force || elapsed > p.graceMs {
          var changed := store.UpdatePowerState(instance.id, p.hostId, PowerReportMissing, p.startTime);
          if changed {
            bus.Publish(instance.id);
          }
        }
      }
      assert candidates[..|candidates|] == candidates;
    }

    /** processReport: after the pass every VM's row is the per-VM result `Reconciled`
        of its row before the pass, and the bus has received exactly one announcement
        for each VM whose write changed something (`Notified`), appended to what it
        held before. */
    method ProcessReport(hostId: int, translated: map<int, PowerState>, force: bool,
                         now: int, startTime: int, currentTime: int)
      requires store.Valid()
      requires startTime <= currentTime
      modifies store, bus
      ensures store.Valid() && store.byName == old(store.byName)
      ensures store.vms == Reconciled(old(store.vms), translated,
                                      Pass(hostId, force, now, startTime, currentTime, GraceMs()))
      ensures |old(bus.published)| <= |bus.published|
      ensures bus.published[..|old(bus.published)|] == old(bus.published)
      ensures AnnouncesExactly(bus.published[|old(bus.published)|..],
                               Notified(old(store.vms), translated,
                                        Pass(hostId, force, now, startTime, currentTime, GraceMs())))
    {
      ghost var vms0 := store.vms;
      ghost var log0 := bus.published;
      var p := Pass(hostId, force, now, startTime, currentTime, GraceMs());

      ApplyReport(translated, p);
      ghost var vms1 := store.vms;
      ghost var log1 := bus.published;

      var active := store.FindByHostInStates(hostId, WatchedStates);
      var missing := RemoveReported(active, translated);
      MissingCandidates(vms1, translated, hostId, active, missing);
      if |missing| > 0 {
        ProcessMissing(missing, p);
      } else {
        assert MissingPass(vms1, missing, p) == Outcome(vms1, []);
        assert bus.published == log1 + [];
      }
      PassAssembled(vms0, translated, p, missing, log0, log1, bus.published, store.vms);
    }

    /** processHostVmStateReport: translate the report, then reconcile without force. */
    method ProcessHostVmStateReport(hostId: int, report: HostReport, now: int, startTime: int, currentTime: int)
      requires store.Valid()
      requires startTime <= currentTime
      modifies store, bus
      ensures store.Valid() && store.byName == old(store.byName)
      ensures store.vms == Reconciled(old(store.vms), old(Translation(report)),
                                      Pass(hostId, false, now, startTime, currentTime, GraceMs()))
      ensures |old(bus.published)| <= |bus.published|
      ensures bus.published[..|old(bus.published)|] == old(bus.published)
      ensures AnnouncesExactly(bus.published[|old(bus.published)|..],
                               Notified(old(store.vms), old(Translation(report)),
                                        Pass(hostId, false, now, startTime, currentTime, GraceMs())))
    {
      var translated := ConvertVmStateReport(report);
      ProcessReport(hostId, translated, false, now, startTime, currentTime);
    }

    /** processHostVmStatePingReport: translate the report, then reconcile with the
        caller's force flag. */
    method ProcessHostVmStatePingReport(hostId: int, report: HostReport, force: bool,
                                        now: int, startTime: int, currentTime: int)
      requires store.Valid()
      requires startTime <= currentTime
      modifies store, bus
      ensures store.Valid() && store.byName == old(store.byName)
      ensures store.vms == Reconciled(old(store.vms), old(Translation(report)),
                                      Pass(hostId, force, now, startTime, currentTime, GraceMs()))
      ensures |old(bus.published)| <= |bus.published|
      ensures bus.published[..|old(bus.published)|] == old(bus.published)
      ensures AnnouncesExactly(bus.published[|old(bus.published)|..],
                               Notified(old(store.vms), old(Translation(report)),
                                        Pass(hostId, force, now, startTime, currentTime, GraceMs())))
    {
      var translated := ConvertVmStateReport(report);
      ProcessReport(hostId, translated, force, now, startTime, currentTime);
    }
  }
}
