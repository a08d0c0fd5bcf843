/**
 Concrete passes: a reported state change, the grace period on either side of its
 threshold, and the deferral of a VM whose tracking is stale to the next pass.
 */
module Scenarios {
  import opened VmTypes
  import opened InstanceDao
  import opened Reconciliation
  import opened PowerStateSync

  /** VM `id`, Running on host 1, last power-state update at `lastUpdate`. */
  function RunningOnHost1(id: int, name: string, power: PowerState, lastUpdate: int, upToDate: bool): VmRecord
  {
    VmRecord(id, name, Some(1), Running, 0, None, power, Some(1), Some(lastUpdate), upToDate)
  }

  /** Host 1 reports vm-a (id 10, stored PowerOff) as PowerOn: the state is written
      with the report time and VM 10 is announced. */
  lemma ReportedChangeScenario()
    ensures var vms := map[10 := RunningOnHost1(10, "vm-a", PowerOff, 0, true)];
      var p := Pass(1, false, 500, 600, 700, 120000);
      && Reconciled(vms, map[10 := PowerOn], p)[10].powerState == PowerOn
      && Reconciled(vms, map[10 := PowerOn], p)[10].powerStateUpdateTime == Some(500)
      && 10 in Notified(vms, map[10 := PowerOn], p)
  {
  }

  /** Ping interval 60 s, so the grace period is 120 000 ms. VM 11 is Running on host 1
      and absent from the report: last updated 121 s before the check it is marked
      PowerReportMissing with the pass's start time; 30 s before, or exactly 120 s
      before, it is left alone. */
  lemma GraceScenario(start: int)
    ensures var p := Pass(1, false, start, start, start + 200000, 60 * 2000);
      var late := map[11 := RunningOnHost1(11, "vm-b", PowerOn, start + 200000 - 121000, true)];
      var recent := map[11 := RunningOnHost1(11, "vm-b", PowerOn, start + 200000 - 30000, true)];
      var edge := map[11 := RunningOnHost1(11, "vm-b", PowerOn, start + 200000 - 120000, true)];
      && Reconciled(late, map[], p)[11].powerState == PowerReportMissing
      && Reconciled(late, map[], p)[11].powerStateUpdateTime == Some(start)
      && 11 in Notified(late, map[], p)
      && Reconciled(recent, map[], p) == recent && 11 !in Notified(recent, map[], p)
      && Reconciled(edge, map[], p) == edge && 11 !in Notified(edge, map[], p)
  {
    var p := Pass(1, false, start, start, start + 200000, 60 * 2000);
    var recent := map[11 := RunningOnHost1(11, "vm-b", PowerOn, start + 200000 - 30000, true)];
    var edge := map[11 := RunningOnHost1(11, "vm-b", PowerOn, start + 200000 - 120000, true)];
    assert Reconciled(recent, map[], p)[11] == recent[11];
    assert Reconciled(edge, map[], p)[11] == edge[11];
  }

  /** An unforced pass repeated later is not a no-op: VM 5, last updated at 0, is within
      the 120 s grace period at 100 s and left alone, but the same report at 130 s marks
      it and announces it. */
  lemma LaterRepeatScenario()
    ensures var vms := map[5 := RunningOnHost1(5, "vm-e", PowerOn, 0, true)];
      var early := Pass(1, false, 100000, 100000, 100000, 120000);
      var late := Pass(1, false, 130000, 130000, 130000, 120000);
      && Reconciled(vms, map[], early) == vms && Notified(vms, map[], early) == {}
      && Reconciled(Reconciled(vms, map[], early), map[], late)[5].powerState == PowerReportMissing
      && 5 in Notified(Reconciled(vms, map[], early), map[], late)
  {
    var vms := map[5 := RunningOnHost1(5, "vm-e", PowerOn, 0, true)];
    var early := Pass(1, false, 100000, 100000, 100000, 120000);
    assert Reconciled(vms, map[], early)[5] == vms[5];
    assert forall id :: id !in Notified(vms, map[], early);
  }

  /** A missing VM with stale tracking is not marked in the first pass (its tracking is
      reset), but the same pass repeated marks it: without force a pass need not settle
      the table, which is why ReconcileSettles asks that no candidate be stale. */
  lemma StaleDeferralScenario()
    ensures var p := Pass(1, false, 0, 300000, 300000, 120000);
      var vms := map[12 := RunningOnHost1(12, "vm-c", PowerOn, 0, false)];
      var once := Reconciled(vms, map[], p);
      && once[12].powerState == PowerOn && once[12].powerStateUpToDate
      && 12 !in Notified(vms, map[], p)
      && Reconciled(once, map[], p)[12].powerState == PowerReportMissing
      && 12 in Notified(once, map[], p)
  {
  }

  /** The two-VM table the client scenarios start from: vm-a (id 10, PowerOff) and
      vm-b (id 11, PowerOn), both Running on host 1. */
  method NewTwoVmStore() returns (store: InstanceStore)
    ensures fresh(store) && store.Valid()
    ensures store.vms == map[10 := RunningOnHost1(10, "vm-a", PowerOff, 0, true),
                             11 := RunningOnHost1(11, "vm-b", PowerOn, 0, true)]
  {
    var rows := map[10 := RunningOnHost1(10, "vm-a", PowerOff, 0, true),
                    11 := RunningOnHost1(11, "vm-b", PowerOn, 0, true)];
    var names := map["vm-a" := 10, "vm-b" := 11];
    assert TableValid(rows, names) by {
      assert rows.Keys == {10, 11} && names.Keys == {"vm-a", "vm-b"};
    }
    store := new InstanceStore(rows, names);
  }

  /** A report naming vm-a and a VM the store does not know: vm-a's id carries the
      reported state. */
  method TranslationScenario()
  {
    var store := NewTwoVmStore();
    var bus := new MessageBus();
    var sync := new PowerStateSyncImpl(store, bus, 60);
    var report := Some(map["vm-a" := ReportEntry(PowerOn), "foreign-vm" := ReportEntry(PowerOn)]);
    var translated := sync.ConvertVmStateReport(report);
    assert store.vms[10].instanceName in report.value;
    assert 10 in translated && translated[10] == PowerOn;
  }

  /** The same report: vm-b, which it does not name, gets no entry. */
  method TranslationOmitsUnreported()
  {
    var store := NewTwoVmStore();
    var bus := new MessageBus();
    var sync := new PowerStateSyncImpl(store, bus, 60);
    var report := Some(map["vm-a" := ReportEntry(PowerOn), "foreign-vm" := ReportEntry(PowerOn)]);
    var translated := sync.ConvertVmStateReport(report);
    assert store.vms[11].instanceName !in report.value;
    assert 11 !in translated;
  }

  /** A pass of host 1 that reports vm-a as PowerOn: vm-a is written and vm-b, missing
      for 121 s with a 60 s ping interval, is marked; the host reset publishes nothing. */
  method ProcessScenario()
  {
    var store := NewTwoVmStore();
    var bus := new MessageBus();
    var sync := new PowerStateSyncImpl(store, bus, 60);

    sync.ProcessReport(1, map[10 := PowerOn], false, 1000, 121000, 121001);
    assert store.vms[10].powerState == PowerOn;
    assert store.vms[11].powerState == PowerReportMissing;
    assert store.vms[11].powerStateUpdateTime == Some(121000);
    assert multiset(bus.published)[10] == 1 && multiset(bus.published)[11] == 1;

    sync.ResetHostSyncState(1);
    assert multiset(bus.published)[10] == 1 && multiset(bus.published)[11] == 1;
  }
}
