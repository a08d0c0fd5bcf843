/**
 In-memory stand-ins for the two collaborators the reconciler calls: the VM
 instance store (VMInstanceDao) and the message bus. Their real bodies are not
 part of this model; the contracts below are the behaviour the reconciler is
 verified against.
 */
module InstanceDao {
  import opened VmTypes

  /** The ids of a list of VM records. */
  function Ids(cs: seq<VmRecord>): set<int>
  {
    set i | 0 <= i < |cs| :: cs[i].id
  }

  lemma IdsAppend(cs: seq<VmRecord>, c: VmRecord)
    ensures forall id :: id in Ids(cs + [c]) <==> id in Ids(cs) || id == c.id
  {
    var ds := cs + [c];
    forall id
      ensures id in Ids(ds) <==> id in Ids(cs) || id == c.id
    {
      if id in Ids(cs) {
        var i :| 0 <= i < |cs| && cs[i].id == id;
        assert ds[i].id == id;
      }
      if id == c.id {
        assert ds[|cs|].id == id;
      }
      if id in Ids(ds) {
        var i :| 0 <= i < |ds| && ds[i].id == id;
        if i < |cs| {
          assert cs[i].id == id;
        }
      }
    }
  }

  /** No two records of the list describe the same VM (rows of one query). */
  predicate DistinctIds(cs: seq<VmRecord>)
  {
    forall i, j | 0 <= i < j < |cs| :: cs[i].id != cs[j].id
  }

  /** The table is keyed by id, the name index points at the VM of that name, and
      every stored VM is indexed under its name (instance names are unique). */
  predicate TableValid(vms: map<int, VmRecord>, byName: map<string, int>)
  {
    && (forall id | id in vms :: vms[id].id == id)
    && (forall n | n in byName :: byName[n] in vms && vms[byName[n]].instanceName == n)
    && (forall id | id in vms :: vms[id].instanceName in byName && byName[vms[id].instanceName] == id)
  }

  /** The record a changing power-state write leaves: state, reporting host and
      time are written together, and the tracking is marked up to date. */
  function PowerStateWritten(r: VmRecord, hostId: int, state: PowerState, at: int): VmRecord
  {
    r.(powerState := state, powerHostId := Some(hostId),
       powerStateUpdateTime := Some(at), powerStateUpToDate := true)
  }

  /** A conditional write changes something exactly when the VM exists and its
      stored power state differs from the one written. */
  predicate WriteChanges(vms: map<int, VmRecord>, id: int, state: PowerState)
  {
    id in vms && vms[id].powerState != state
  }

  /** The table after a conditional power-state write. */
  function ConditionalWrite(vms: map<int, VmRecord>, id: int, hostId: int, state: PowerState, at: int)
    : map<int, VmRecord>
  {
    if WriteChanges(vms, id, state) then vms[id := PowerStateWritten(vms[id], hostId, state, at)] else vms
  }

  /** The record after a tracking reset: its power state is marked up to date again. */
  function MarkedUpToDate(r: VmRecord): VmRecord
  {
    r.(powerStateUpToDate := true)
  }

  /** Whether a VM is assigned to the host and in one of the lifecycle states. */
  predicate OnHostIn(r: VmRecord, hostId: int, states: set<LifecycleState>)
  {
    r.hostId == Some(hostId) && r.state in states
  }

  /** Some element of a non-empty set (the next entry a hash-map iterator yields). */
  method Pick<T>(s: set<T>) returns (x: T)
    requires s != {}
    ensures x in s
  {
    assert exists y :: y in s by {
      if forall y :: y !in s {
        assert false;
      }
    }
    x :| x in s;
  }

  /** Stand-in for VMInstanceDao: the VM table with its name index. */
  class InstanceStore {
    var vms: map<int, VmRecord>
    var byName: map<string, int>

    ghost predicate Valid()
      reads this
    {
      TableValid(vms, byName)
    }

    constructor (rows: map<int, VmRecord>, names: map<string, int>)
      requires TableValid(rows, names)
      ensures Valid() && vms == rows && byName == names
    {
      vms := rows;
      byName := names;
    }

    /** findVMByInstanceName: the VM whose instance name is `name`, if any. */
    function FindVmByInstanceName(name: string): (r: Option<VmRecord>)
      reads this
      requires Valid()
      ensures r.None? <==> forall id | id in vms :: vms[id].instanceName != name
      ensures r.Some? ==> r.value.instanceName == name && r.value.id in vms && vms[r.value.id] == r.value
    {
      if name in byName then
        var id := byName[name];
        assert vms[id].id == id;
        Some(vms[id])
      else
        assert forall id | id in vms :: vms[id].instanceName != name by {
          forall id | id in vms ensures vms[id].instanceName != name {
            assert vms[id].instanceName in byName;
          }
        }
        None
    }

    /** updatePowerState: write only on change and say whether it changed;
        a VM that does not exist is reported as "no change". */
    method UpdatePowerState(id: int, hostId: int, state: PowerState, at: int) returns (changed: bool)
      requires Valid()
      modifies this
      ensures Valid() && byName == old(byName)
      ensures changed == WriteChanges(old(vms), id, state)
      ensures vms == ConditionalWrite(old(vms), id, hostId, state, at)
    {
      changed := id in vms && vms[id].powerState != state;
      if changed {
        vms := vms[id := PowerStateWritten(vms[id], hostId, state, at)];
      }
    }

    /** isPowerStateUpToDate, with "not found" as a value instead of an exception. */
    method IsPowerStateUpToDate(id: int) returns (f: Freshness)
      ensures f == NotFound <==> id !in vms
      ensures f == UpToDate <==> id in vms && vms[id].powerStateUpToDate
    {
      if id !in vms {
        f := NotFound;
      } else if vms[id].powerStateUpToDate {
        f := UpToDate;
      } else {
        f := Stale;
      }
    }

    /** resetVmPowerStateTracking: clear the tracking of one VM; nothing else changes. */
    method ResetVmPowerStateTracking(id: int)
      requires Valid()
      modifies this
      ensures Valid() && byName == old(byName)
      ensures vms == if id in old(vms) then old(vms)[id := MarkedUpToDate(old(vms)[id])] else old(vms)
    {
      if id in vms {
        vms := vms[id := MarkedUpToDate(vms[id])];
      }
    }

    /** resetHostPowerStateTracking: clear the tracking of every VM last reported by the host. */
    method ResetHostPowerStateTracking(hostId: int)
      requires Valid()
      modifies this
      ensures Valid() && byName == old(byName)
      ensures vms.Keys == old(vms).Keys
      ensures forall id | id in vms ::
        vms[id] == if old(vms)[id].powerHostId == Some(hostId) then MarkedUpToDate(old(vms)[id]) else old(vms)[id]
    {
      vms := map id | id in vms ::
        if vms[id].powerHostId == Some(hostId) then MarkedUpToDate(vms[id]) else vms[id];
    }

    /** findByHostInStates: every VM assigned to the host whose lifecycle state is
        one of `states`, each once, as currently stored. */
    method FindByHostInStates(hostId: int, states: set<LifecycleState>) returns (found: seq<VmRecord>)
      requires Valid()
      ensures forall k | 0 <= k < |found| :: found[k].id in vms && vms[found[k].id] == found[k]
      ensures DistinctIds(found)
      ensures Ids(found) == set id | id in vms && OnHostIn(vms[id], hostId, states)
    {
      found := [];
      var pending := vms.Keys;
      while pending != {}
        invariant pending <= vms.Keys
        invariant forall k | 0 <= k < |found| ::
          found[k].id in vms && found[k].id !in pending && vms[found[k].id] == found[k]
        invariant DistinctIds(found)
        invariant forall id :: id in Ids(found) <==> id in vms && id !in pending && OnHostIn(vms[id], hostId, states)
        decreases pending
      {
        var next := Pick(pending);
        if OnHostIn(vms[next], hostId, states) {
          assert vms[next].id == next;
          IdsAppend(found, vms[next]);
          found := found + [vms[next]];
        }
        pending := pending - {next};
      }
      assert forall id :: id in Ids(found) <==> id in vms && OnHostIn(vms[id], hostId, states);
    }
  }

  /** Stand-in for the message bus: the VM ids published on the power-state topic, in order. */
  class MessageBus {
    var published: seq<int>

    constructor ()
      ensures published == []
    {
      published := [];
    }

    method Publish(vmId: int)
      modifies this
      ensures published == old(published) + [vmId]
    {
      published := published + [vmId];
    }
  }
}
