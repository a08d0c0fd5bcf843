/**
 What one reconciliation pass does to the VM table, stated per VM and without any
 order among VMs: the report phase (conditional writes of reported states), the
 missing-VM phase (grace-period adjudication of VMs absent from the report), and
 the set of VMs whose change is announced on the bus.
 */
module Reconciliation {
  import opened VmTypes
  import opened InstanceDao

  /** Lifecycle states whose VMs the host is expected to report. */
  const WatchedStates: set<LifecycleState> := {Running, Stopping, Starting}

  /** The inputs of one pass besides the report: the reporting host, the force flag,
      the time stamped on report writes, the time captured before the candidate query,
      the time the missing phase compares against, and the grace period. */
  datatype Pass = Pass(hostId: int, force: bool, now: int, startTime: int, currentTime: int, graceMs: int)

  // ---------------------------------------------------------------- report phase

  /** Row `id` after the conditional write of its reported state, if it was reported. */
  function ReportedRow(id: int, r: VmRecord, translated: map<int, PowerState>, p: Pass): VmRecord
  {
    if id in translated && r.powerState != translated[id]
    then PowerStateWritten(r, p.hostId, translated[id], p.now)
    else r
  }

  /** The table after every reported state has been written. */
  function ReportPhase(vms: map<int, VmRecord>, translated: map<int, PowerState>, p: Pass): map<int, VmRecord>
  {
    map id | id in vms :: ReportedRow(id, vms[id], translated, p)
  }

  /** The reported VMs whose write changes something, hence are announced. */
  function ReportChanged(vms: map<int, VmRecord>, translated: map<int, PowerState>): set<int>
  {
    set id | id in translated && WriteChanges(vms, id, translated[id])
  }

  // ---------------------------------------------------------------- missing phase

  /** The last instant the VM is known to have been updated: its power-state update
      time, else its update time, else its creation time. */
  function LastUpdateTime(r: VmRecord): (t: int)
    ensures r.powerStateUpdateTime.Some? ==> t == r.powerStateUpdateTime.value
    ensures r.powerStateUpdateTime.None? && r.updateTime.Some? ==> t == r.updateTime.value
    ensures r.powerStateUpdateTime.None? && r.updateTime.None? ==> t == r.created
  {
    match r.powerStateUpdateTime
    case Some(t) => t
    case None =>
      match r.updateTime
      case Some(u) => u
      case None => r.created
  }

  /** How a missing candidate is dealt with. */
  datatype Verdict =
    | Vanished       // the freshness check found no such VM: skip it
    | TrackingStale  // tracking not up to date: reset it, decide in a later pass
    | WithinGrace    // missing for no longer than the grace period: leave it
    | GraceExpired   // forced, or missing for longer than the grace period: mark it

  /** The verdict on candidate `c` (the row as the candidate query returned it), given
      the VM's current row in the table, if any. */
  function Adjudicate(current: Option<VmRecord>, c: VmRecord, p: Pass): (v: Verdict)
    ensures v == Vanished <==> !p.force && current.None?
    ensures v == TrackingStale <==> !p.force && current.Some? && !current.value.powerStateUpToDate
    ensures v == GraceExpired <==>
      (p.force || (current.Some? && current.value.powerStateUpToDate))
      && (p.force || p.currentTime - LastUpdateTime(c) > p.graceMs)
  {
    if !p.force && current.None? then Vanished
    else if !p.force && !current.value.powerStateUpToDate then TrackingStale
    else if p.force || p.currentTime - LastUpdateTime(c) > p.graceMs then GraceExpired
    else WithinGrace
  }

  /** The current row of candidate `c` after its adjudication. */
  function MissingRow(current: VmRecord, c: VmRecord, p: Pass): VmRecord
  {
    match Adjudicate(Some(current), c, p)
    case TrackingStale => MarkedUpToDate(current)
    case GraceExpired =>
      if current.powerState != PowerReportMissing
      then PowerStateWritten(current, p.hostId, PowerReportMissing, p.startTime)
      else current
    case _ => current
  }

  /** Whether adjudicating `c` writes PowerReportMissing as a change, hence announces it. */
  predicate RowNotifies(current: VmRecord, c: VmRecord, p: Pass)
  {
    Adjudicate(Some(current), c, p) == GraceExpired && current.powerState != PowerReportMissing
  }

  /** The table after adjudicating one candidate. A candidate whose VM is gone leaves
      the table as it is, whether the freshness check or the write finds it gone. */
  function MissingStep(vms: map<int, VmRecord>, c: VmRecord, p: Pass): map<int, VmRecord>
  {
    if c.id in vms then vms[c.id := MissingRow(vms[c.id], c, p)] else vms
  }

  predicate StepNotifies(vms: map<int, VmRecord>, c: VmRecord, p: Pass)
  {
    c.id in vms && RowNotifies(vms[c.id], c, p)
  }

  /** The table and the announced ids after a phase. */
  datatype Outcome = Outcome(vms: map<int, VmRecord>, notified: seq<int>)

  /** Adjudicating the candidates one after the other, in list order. */
  function MissingPass(vms: map<int, VmRecord>, cs: seq<VmRecord>, p: Pass): Outcome
    decreases |cs|
  {
    if cs == [] then Outcome(vms, [])
    else
      var before := MissingPass(vms, cs[..|cs| - 1], p);
      var c := cs[|cs| - 1];
      Outcome(MissingStep(before.vms, c, p),
              before.notified + if StepNotifies(before.vms, c, p) then [c.id] else [])
  }

  // ---------------------------------------------------------------- whole pass, per VM

  /** Whether row `r`, stored under `id`, is a missing candidate of the pass. */
  predicate IsCandidate(id: int, r: VmRecord, translated: map<int, PowerState>, p: Pass)
  {
    id !in translated && OnHostIn(r, p.hostId, WatchedStates)
  }

  /** Row `id` at the end of a pass, from its row before the pass. */
  function ReconciledRow(id: int, r: VmRecord, translated: map<int, PowerState>, p: Pass): VmRecord
  {
    if id in translated then ReportedRow(id, r, translated, p)
    else if IsCandidate(id, r, translated, p) then MissingRow(r, r, p)
    else r
  }

  /** The table at the end of a pass. */
  function Reconciled(vms: map<int, VmRecord>, translated: map<int, PowerState>, p: Pass): map<int, VmRecord>
  {
    map id | id in vms :: ReconciledRow(id, vms[id], translated, p)
  }

  /** The candidates that the pass marks PowerReportMissing as a change. */
  function MissingChanged(vms: map<int, VmRecord>, translated: map<int, PowerState>, p: Pass): set<int>
  {
    set id | id in vms && IsCandidate(id, vms[id], translated, p) && RowNotifies(vms[id], vms[id], p)
  }

  /** Every VM announced by a pass. */
  function Notified(vms: map<int, VmRecord>, translated: map<int, PowerState>, p: Pass): set<int>
  {
    ReportChanged(vms, translated) + MissingChanged(vms, translated, p)
  }

  /** The log holds each id of `ids` exactly once and nothing else. */
  ghost predicate AnnouncesExactly(log: seq<int>, ids: set<int>)
  {
    forall id :: multiset(log)[id] == if id in ids then 1 else 0
  }

  /** Two logs announcing disjoint sets of VMs, one after the other, announce their union. */
  lemma AnnouncesConcat(a: seq<int>, b: seq<int>, s: set<int>, t: set<int>)
    requires AnnouncesExactly(a, s) && AnnouncesExactly(b, t) && s !! t
    ensures AnnouncesExactly(a + b, s + t)
  {
    assert multiset(a + b) == multiset(a) + multiset(b);
  }
}
