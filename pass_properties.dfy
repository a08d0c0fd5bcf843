/**
 Properties of a reconciliation pass: the ordered missing-VM phase equals the
 per-VM description, and the behaviour promised for reported, missing, stale and
 vanished VMs, the grace period and the time stamped on PowerReportMissing writes.
 */
module PassProperties {
  import opened VmTypes
  import opened InstanceDao
  import opened Reconciliation

  // ------------------------------------------------ the report phase, one entry at a time

  /** The table part-way through the report loop: the entries still `pending` are
      unwritten, every other reported entry has had its conditional write. */
  ghost predicate ReportedSoFar(vms: map<int, VmRecord>, vms0: map<int, VmRecord>,
                                translated: map<int, PowerState>, p: Pass, pending: set<int>)
  {
    && (forall id :: id in vms <==> id in vms0)
    && (forall id | id in vms0 ::
          vms[id] == if id in pending then vms0[id] else ReportedRow(id, vms0[id], translated, p))
  }

  /** The log part-way through the report loop: what `log0` held, followed by one
      announcement for each changed VM whose entry is no longer pending. */
  ghost predicate AnnouncedSoFar(log: seq<int>, log0: seq<int>, changed: set<int>, pending: set<int>)
  {
    && |log0| <= |log| && log[..|log0|] == log0
    && forall id :: multiset(log[|log0|..])[id] == if id in changed && id !in pending then 1 else 0
  }

  /** Writing one pending entry: the write changes something exactly when the VM is
      among those the report phase announces, and afterwards the entry is done. */
  lemma ReportStepRows(vms: map<int, VmRecord>, vms0: map<int, VmRecord>,
                       translated: map<int, PowerState>, p: Pass, pending: set<int>, id: int)
    requires ReportedSoFar(vms, vms0, translated, p, pending)
    requires id in pending && id in translated
    ensures WriteChanges(vms, id, translated[id]) <==> id in ReportChanged(vms0, translated)
    ensures ReportedSoFar(ConditionalWrite(vms, id, p.hostId, translated[id], p.now), vms0, translated, p, pending - {id})
  {
  }

  /** Announcing one entry's change, or not, keeps the log in step with the loop. */
  lemma ReportStepLog(log: seq<int>, log0: seq<int>, changed: set<int>, pending: set<int>, id: int, wrote: bool)
    requires AnnouncedSoFar(log, log0, changed, pending)
    requires id in pending && (wrote <==> id in changed)
    ensures AnnouncedSoFar(if wrote then log + [id] else log, log0, changed, pending - {id})
  {
    if wrote {
      assert (log + [id])[|log0|..] == log[|log0|..] + [id];
      assert (log + [id])[..|log0|] == log[..|log0|];
    }
  }

  /** With no entry left pending, the table is the report phase's result. */
  lemma ReportRowsDone(vms: map<int, VmRecord>, vms0: map<int, VmRecord>,
                       translated: map<int, PowerState>, p: Pass)
    requires ReportedSoFar(vms, vms0, translated, p, {})
    ensures vms == ReportPhase(vms0, translated, p)
  {
    var target := ReportPhase(vms0, translated, p);
    assert forall id :: id in vms <==> id in target;
    assert forall id | id in vms :: vms[id] == target[id];
  }

  // ------------------------------------------------ the missing phase, VM by VM

  /** Adjudicating candidates neither adds nor removes rows. */
  lemma {:induction false} MissingPassDomain(vms: map<int, VmRecord>, cs: seq<VmRecord>, p: Pass, id: int)
    ensures id in MissingPass(vms, cs, p).vms <==> id in vms
    decreases |cs|
  {
    if cs != [] {
      MissingPassDomain(vms, cs[..|cs| - 1], p, id);
    }
  }

  /** A VM that is not among the candidates keeps its row and is not announced. */
  lemma {:induction false} MissingPassUntouched(vms: map<int, VmRecord>, cs: seq<VmRecord>, p: Pass, id: int)
    requires forall k | 0 <= k < |cs| :: cs[k].id != id
    ensures id in MissingPass(vms, cs, p).vms <==> id in vms
    ensures id in vms ==> MissingPass(vms, cs, p).vms[id] == vms[id]
    ensures multiset(MissingPass(vms, cs, p).notified)[id] == 0
    decreases |cs|
  {
    if cs != [] {
      var pre := cs[..|cs| - 1];
      MissingPassUntouched(vms, pre, p, id);
      assert cs[|cs| - 1].id != id;
    }
  }

  /** Each candidate is adjudicated exactly once, against the VM's row as it was
      before the phase, whatever its position in the list. */
  lemma {:induction false} MissingPassAt(vms: map<int, VmRecord>, cs: seq<VmRecord>, p: Pass, k: int)
    requires DistinctIds(cs)
    requires 0 <= k < |cs|
    ensures cs[k].id in MissingPass(vms, cs, p).vms <==> cs[k].id in vms
    ensures cs[k].id in vms ==> MissingPass(vms, cs, p).vms[cs[k].id] == MissingRow(vms[cs[k].id], cs[k], p)
    ensures multiset(MissingPass(vms, cs, p).notified)[cs[k].id] ==
      if StepNotifies(vms, cs[k], p) then 1 else 0
    decreases |cs|
  {
    var n := |cs| - 1;
    if k == n {
      MissingPassAtLast(vms, cs, p);
    } else {
      var pre := cs[..n];
      var before := MissingPass(vms, pre, p);
      assert DistinctIds(pre) by {
        forall i, j | 0 <= i < j < |pre| ensures pre[i].id != pre[j].id {
          assert pre[i] == cs[i] && pre[j] == cs[j];
        }
      }
      assert pre[k] == cs[k];
      MissingPassAt(vms, pre, p, k);
      LastStepElsewhere(before.vms, before.notified, cs[n], p, cs[k].id);
    }
  }

  /** MissingPassAt for the last candidate of the list. */
  lemma MissingPassAtLast(vms: map<int, VmRecord>, cs: seq<VmRecord>, p: Pass)
    requires DistinctIds(cs)
    requires cs != []
    ensures var c := cs[|cs| - 1]; var o := MissingPass(vms, cs, p);
      && (c.id in o.vms <==> c.id in vms)
      && (c.id in vms ==> o.vms[c.id] == MissingRow(vms[c.id], c, p))
      && multiset(o.notified)[c.id] == if StepNotifies(vms, c, p) then 1 else 0
  {
    var n := |cs| - 1;
    var pre := cs[..n];
    var c := cs[n];
    assert forall j | 0 <= j < |pre| :: pre[j].id != c.id by {
      forall j | 0 <= j < |pre| ensures pre[j].id != c.id {
        assert pre[j] == cs[j];
      }
    }
    MissingPassUntouched(vms, pre, p, c.id);
    var before := MissingPass(vms, pre, p);
    LastStepAt(before.vms, before.notified, vms, c, p);
  }

  /** The last step of the phase, on the candidate it adjudicates, when the rows
      before it agree with the original table on that candidate. */
  lemma LastStepAt(before: map<int, VmRecord>, log: seq<int>, vms: map<int, VmRecord>, c: VmRecord, p: Pass)
    requires c.id in before <==> c.id in vms
    requires c.id in vms ==> before[c.id] == vms[c.id]
    requires multiset(log)[c.id] == 0
    ensures c.id in MissingStep(before, c, p) <==> c.id in vms
    ensures c.id in vms ==> MissingStep(before, c, p)[c.id] == MissingRow(vms[c.id], c, p)
    ensures multiset(log + if StepNotifies(before, c, p) then [c.id] else [])[c.id] ==
      if StepNotifies(vms, c, p) then 1 else 0
  {
  }

  /** The last step of the phase leaves every other VM alone. */
  lemma LastStepElsewhere(before: map<int, VmRecord>, log: seq<int>, c: VmRecord, p: Pass, id: int)
    requires c.id != id
    ensures id in MissingStep(before, c, p) <==> id in before
    ensures id in before ==> MissingStep(before, c, p)[id] == before[id]
    ensures multiset(log + if StepNotifies(before, c, p) then [c.id] else [])[id] == multiset(log)[id]
  {
  }

  /** A candidate whose VM no longer exists is skipped: it gets no row and no
      announcement, and the other candidates are still adjudicated (MissingPassAt). */
  lemma {:induction false} MissingPassSkipsVanished(vms: map<int, VmRecord>, cs: seq<VmRecord>, p: Pass, k: int)
    requires DistinctIds(cs)
    requires 0 <= k < |cs| && cs[k].id !in vms
    ensures cs[k].id !in MissingPass(vms, cs, p).vms
    ensures multiset(MissingPass(vms, cs, p).notified)[cs[k].id] == 0
  {
    MissingPassAt(vms, cs, p, k);
  }

  // ------------------------------------------------ the whole pass

  /** The report phase only rewrites power-state columns: ids, names, hosts and
      lifecycle states stay as they were. */
  lemma ReportPhasePreserves(vms: map<int, VmRecord>, translated: map<int, PowerState>, p: Pass, id: int)
    requires id in vms
    ensures id in ReportPhase(vms, translated, p)
    ensures var r := ReportPhase(vms, translated, p)[id];
      r.id == vms[id].id && r.instanceName == vms[id].instanceName
      && r.hostId == vms[id].hostId && r.state == vms[id].state
    ensures id !in translated ==> ReportPhase(vms, translated, p)[id] == vms[id]
  {
  }

  /** Running the report phase and then adjudicating the candidates (the watched VMs
      of the host that were not reported, as stored after the report phase) yields the
      per-VM result `Reconciled`, and announces exactly the VMs `MissingChanged` names. */
  lemma ReconcileComposition(vms: map<int, VmRecord>, translated: map<int, PowerState>, p: Pass, missing: seq<VmRecord>)
    requires DistinctIds(missing)
    requires forall k | 0 <= k < |missing| ::
      missing[k].id in ReportPhase(vms, translated, p)
      && ReportPhase(vms, translated, p)[missing[k].id] == missing[k]
    requires forall id :: id in Ids(missing) <==>
      id in ReportPhase(vms, translated, p) && id !in translated
      && OnHostIn(ReportPhase(vms, translated, p)[id], p.hostId, WatchedStates)
    ensures MissingPass(ReportPhase(vms, translated, p), missing, p).vms == Reconciled(vms, translated, p)
    ensures AnnouncesExactly(MissingPass(ReportPhase(vms, translated, p), missing, p).notified,
                             MissingChanged(vms, translated, p))
  {
    var o := MissingPass(ReportPhase(vms, translated, p), missing, p);
    var target := Reconciled(vms, translated, p);
    var changed := MissingChanged(vms, translated, p);
    forall id
      ensures id in o.vms <==> id in target
      ensures id in o.vms ==> o.vms[id] == target[id]
      ensures multiset(o.notified)[id] == if id in changed then 1 else 0
    {
      ReconcileCompositionAt(vms, translated, p, missing, id);
    }
    assert o.vms == target;
  }

  /** ReconcileComposition for one VM. */
  lemma ReconcileCompositionAt(vms: map<int, VmRecord>, translated: map<int, PowerState>, p: Pass,
                               missing: seq<VmRecord>, id: int)
    requires DistinctIds(missing)
    requires forall k | 0 <= k < |missing| ::
      missing[k].id in ReportPhase(vms, translated, p)
      && ReportPhase(vms, translated, p)[missing[k].id] == missing[k]
    requires id in Ids(missing) <==>
      id in ReportPhase(vms, translated, p) && id !in translated
      && OnHostIn(ReportPhase(vms, translated, p)[id], p.hostId, WatchedStates)
    ensures var o := MissingPass(ReportPhase(vms, translated, p), missing, p);
      && (id in o.vms <==> id in vms)
      && (id in vms ==> o.vms[id] == ReconciledRow(id, vms[id], translated, p))
      && multiset(o.notified)[id] == if id in MissingChanged(vms, translated, p) then 1 else 0
  {
    var vms1 := ReportPhase(vms, translated, p);
    if id in Ids(missing) {
      var k :| 0 <= k < |missing| && missing[k].id == id;
      MissingPassAt(vms1, missing, p, k);
      ReportPhasePreserves(vms, translated, p, id);
    } else {
      assert forall k | 0 <= k < |missing| :: missing[k].id != id;
      MissingPassUntouched(vms1, missing, p, id);
      if id in vms {
        ReportPhasePreserves(vms, translated, p, id);
      }
    }
  }

  /** The two phases of a pass together: the table ends as `Reconciled`, and the log
      keeps what it held and gains exactly one announcement for each VM of `Notified`. */
  lemma PassAssembled(vms: map<int, VmRecord>, translated: map<int, PowerState>, p: Pass, missing: seq<VmRecord>,
                      log0: seq<int>, log1: seq<int>, log2: seq<int>, vms2: map<int, VmRecord>)
    requires DistinctIds(missing)
    requires forall k | 0 <= k < |missing| ::
      missing[k].id in ReportPhase(vms, translated, p)
      && ReportPhase(vms, translated, p)[missing[k].id] == missing[k]
    requires forall id :: id in Ids(missing) <==>
      id in ReportPhase(vms, translated, p) && id !in translated
      && OnHostIn(ReportPhase(vms, translated, p)[id], p.hostId, WatchedStates)
    requires |log0| <= |log1| && log1[..|log0|] == log0
    requires AnnouncesExactly(log1[|log0|..], ReportChanged(vms, translated))
    requires vms2 == MissingPass(ReportPhase(vms, translated, p), missing, p).vms
    requires log2 == log1 + MissingPass(ReportPhase(vms, translated, p), missing, p).notified
    ensures vms2 == Reconciled(vms, translated, p)
    ensures |log0| <= |log2| && log2[..|log0|] == log0
    ensures AnnouncesExactly(log2[|log0|..], Notified(vms, translated, p))
  {
    var added := MissingPass(ReportPhase(vms, translated, p), missing, p).notified;
    ReconcileComposition(vms, translated, p, missing);
    NotifiedDisjoint(vms, translated, p);
    AnnouncesConcat(log1[|log0|..], added, ReportChanged(vms, translated), MissingChanged(vms, translated, p));
    assert log2[|log0|..] == log1[|log0|..] + added;
    assert log2[..|log0|] == log1[..|log0|];
  }

  /** What the candidate query and the removal of reported VMs deliver is what
      ReconcileComposition asks of the candidate list. */
  lemma MissingCandidates(vms1: map<int, VmRecord>, translated: map<int, PowerState>, hostId: int,
                          active: seq<VmRecord>, missing: seq<VmRecord>)
    requires forall k | 0 <= k < |active| :: active[k].id in vms1 && vms1[active[k].id] == active[k]
    requires DistinctIds(active)
    requires Ids(active) == set id | id in vms1 && OnHostIn(vms1[id], hostId, WatchedStates)
    requires forall c :: c in missing <==> c in active && c.id !in translated
    requires forall id :: id in Ids(missing) <==> id in Ids(active) && id !in translated
    requires DistinctIds(active) ==> DistinctIds(missing)
    ensures DistinctIds(missing)
    ensures forall k | 0 <= k < |missing| :: missing[k].id in vms1 && vms1[missing[k].id] == missing[k]
    ensures forall id :: id in Ids(missing) <==>
      id in vms1 && id !in translated && OnHostIn(vms1[id], hostId, WatchedStates)
  {
    forall k | 0 <= k < |missing| ensures missing[k].id in vms1 && vms1[missing[k].id] == missing[k] {
      assert missing[k] in active;
    }
  }

  /** The reported VMs and the missing candidates are disjoint, so a pass announces
      each VM at most once. */
  lemma NotifiedDisjoint(vms: map<int, VmRecord>, translated: map<int, PowerState>, p: Pass)
    ensures ReportChanged(vms, translated) !! MissingChanged(vms, translated, p)
  {
  }

  // ------------------------------------------------ promises of the reconciler

  /** A reported VM ends the pass in its reported state, and it is announced exactly
      when that state differs from the stored one; it is never marked missing unless
      its host reported that very state. */
  lemma ReportedVmTakesReportedState(vms: map<int, VmRecord>, translated: map<int, PowerState>, p: Pass, id: int)
    requires id in vms && id in translated
    ensures id in Reconciled(vms, translated, p)
    ensures Reconciled(vms, translated, p)[id].powerState == translated[id]
    ensures id in Notified(vms, translated, p) <==> vms[id].powerState != translated[id]
    ensures vms[id].powerState != translated[id] ==>
      Reconciled(vms, translated, p)[id].powerStateUpdateTime == Some(p.now)
  {
  }

  /** A VM that was neither reported nor a missing candidate (another host, or a
      lifecycle state other than Running, Stopping, Starting) is left alone. */
  lemma NonCandidateUntouched(vms: map<int, VmRecord>, translated: map<int, PowerState>, p: Pass, id: int)
    requires id in vms && id !in translated
    requires !OnHostIn(vms[id], p.hostId, WatchedStates)
    ensures id in Reconciled(vms, translated, p) && Reconciled(vms, translated, p)[id] == vms[id]
    ensures id !in Notified(vms, translated, p)
  {
  }

  /** Without force, a missing VM whose tracking is stale only has its tracking reset:
      no power-state write and no announcement in this pass. */
  lemma StaleCandidateDeferred(vms: map<int, VmRecord>, translated: map<int, PowerState>, p: Pass, id: int)
    requires id in vms && IsCandidate(id, vms[id], translated, p)
    requires !p.force && !vms[id].powerStateUpToDate
    ensures id in Reconciled(vms, translated, p)
    ensures Reconciled(vms, translated, p)[id] == vms[id].(powerStateUpToDate := true)
    ensures id !in Notified(vms, translated, p)
  {
  }

  /** A missing VM that reaches the grace check (forced, or tracking up to date) is
      marked PowerReportMissing exactly when the pass is forced or the time since its
      last update strictly exceeds the grace period; the mark is stamped with the
      pass's start time and announced. */
  lemma GraceCheck(vms: map<int, VmRecord>, translated: map<int, PowerState>, p: Pass, id: int)
    requires id in vms && IsCandidate(id, vms[id], translated, p)
    requires p.force || vms[id].powerStateUpToDate
    requires vms[id].powerState != PowerReportMissing
    ensures id in Reconciled(vms, translated, p)
    ensures Reconciled(vms, translated, p)[id].powerState == PowerReportMissing
      <==> p.force || p.currentTime - LastUpdateTime(vms[id]) > p.graceMs
    ensures id in Notified(vms, translated, p)
      <==> p.force || p.currentTime - LastUpdateTime(vms[id]) > p.graceMs
    ensures Reconciled(vms, translated, p)[id].powerState == PowerReportMissing ==>
      Reconciled(vms, translated, p)[id].powerStateUpdateTime == Some(p.startTime)
  {
  }

  /** A missing VM that reaches the grace check already marked PowerReportMissing keeps
      that state and is not announced again: the conditional write reports no change. */
  lemma GraceCheckAlreadyMarked(vms: map<int, VmRecord>, translated: map<int, PowerState>, p: Pass, id: int)
    requires id in vms && IsCandidate(id, vms[id], translated, p)
    requires p.force || vms[id].powerStateUpToDate
    requires vms[id].powerState == PowerReportMissing
    ensures id in Reconciled(vms, translated, p)
    ensures Reconciled(vms, translated, p)[id] == vms[id]
    ensures id !in Notified(vms, translated, p)
  {
  }

  /** The grace comparison is strict: elapsed time equal to the grace period, without
      force, leaves the VM as it was. */
  lemma GraceBoundaryNotExpired(vms: map<int, VmRecord>, translated: map<int, PowerState>, p: Pass, id: int)
    requires id in vms && IsCandidate(id, vms[id], translated, p)
    requires !p.force && vms[id].powerStateUpToDate
    requires p.currentTime - LastUpdateTime(vms[id]) == p.graceMs
    ensures id in Reconciled(vms, translated, p) && Reconciled(vms, translated, p)[id] == vms[id]
    ensures id !in Notified(vms, translated, p)
  {
  }

  /** Every VM that a pass moves to PowerReportMissing, other than one its host
      reported so, was a missing candidate, and its power-state time is the pass's
      start time, which is no later than the time the grace check used. */
  lemma MissingMarkStampedWithStartTime(vms: map<int, VmRecord>, translated: map<int, PowerState>, p: Pass, id: int)
    requires p.startTime <= p.currentTime
    requires id in vms && id !in translated
    requires vms[id].powerState != PowerReportMissing
    requires id in Reconciled(vms, translated, p)
    requires Reconciled(vms, translated, p)[id].powerState == PowerReportMissing
    ensures IsCandidate(id, vms[id], translated, p)
    ensures Reconciled(vms, translated, p)[id].powerStateUpdateTime == Some(p.startTime)
    ensures Reconciled(vms, translated, p)[id].powerStateUpdateTime.value <= p.currentTime
  {
  }

  /** A pass that is forced, or in which no missing candidate has stale tracking,
      settles the table: repeating it with the same report and times writes nothing
      and announces nothing. */
  lemma ReconcileSettles(vms: map<int, VmRecord>, translated: map<int, PowerState>, p: Pass)
    requires p.force || forall id | id in vms && IsCandidate(id, vms[id], translated, p) :: vms[id].powerStateUpToDate
    ensures Reconciled(Reconciled(vms, translated, p), translated, p) == Reconciled(vms, translated, p)
    ensures Notified(Reconciled(vms, translated, p), translated, p) == {}
  {
    var once := Reconciled(vms, translated, p);
    forall id | id in once
      ensures ReconciledRow(id, once[id], translated, p) == once[id]
      ensures id !in ReportChanged(once, translated) && id !in MissingChanged(once, translated, p)
    {
      var r := vms[id];
      if id !in translated && IsCandidate(id, r, translated, p) {
        assert p.force || r.powerStateUpToDate;
        assert IsCandidate(id, once[id], translated, p);
      }
    }
    assert forall id :: id !in Notified(once, translated, p);
  }

  /** A forced pass settles the table whatever the clock readings of the repeat: a
      second forced pass from the same host, with the same report, writes nothing and
      announces nothing. */
  lemma ForcedPassSettles(vms: map<int, VmRecord>, translated: map<int, PowerState>, p: Pass, q: Pass)
    requires p.force && q.force && p.hostId == q.hostId
    ensures Reconciled(Reconciled(vms, translated, p), translated, q) == Reconciled(vms, translated, p)
    ensures Notified(Reconciled(vms, translated, p), translated, q) == {}
  {
    var once := Reconciled(vms, translated, p);
    forall id | id in once
      ensures ReconciledRow(id, once[id], translated, q) == once[id]
      ensures id !in ReportChanged(once, translated) && id !in MissingChanged(once, translated, q)
    {
      var r := vms[id];
      if id !in translated && IsCandidate(id, r, translated, p) {
        assert IsCandidate(id, once[id], translated, q);
      }
    }
    assert forall id :: id !in Notified(once, translated, q);
  }
}
