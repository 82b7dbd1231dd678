/** What the breakpoint protocol of `CDebugBackend` guarantees: the table
    invariant (resident byte is the trap byte exactly when enabled) and how
    each operation keeps it, the hit-marker bookkeeping on delete, the
    idempotence of enable/disable, and the byte left behind by a step-over. */
module BackendProperties {
  import opened DebugTypes
  import opened Tracee
  import opened BackendModel

  /** Entries other than those at `a` are still resident after byte `a` of
      an accessible word is overwritten. */
  lemma OthersStayResident(t: Tracee, a: u64, b: u8, bps: seq<Breakpoint>)
    requires WordAccessible(t, a)
    requires forall j :: 0 <= j < |bps| ==> ResidentAt(t, bps[j])
    requires forall j :: 0 <= j < |bps| ==> bps[j].address != a
    ensures forall j :: 0 <= j < |bps| ==> ResidentAt(t.(memory := t.memory[a := b]), bps[j])
  {
    forall j | 0 <= j < |bps|
      ensures ResidentAt(t.(memory := t.memory[a := b]), bps[j])
    {
      UpdateKeepsAccessible(t, a, b, bps[j].address);
    }
  }

  /** Adding a breakpoint at a new, accessible address keeps the invariant;
      at an inaccessible address nothing changes. */
  lemma AddKeepsConsistent(e: Engine, a: u64)
    requires Consistent(e)
    requires a !in Addresses(e.breakpoints)
    ensures Consistent(AddBreakpoint(e, a))
  {
    if WordAccessible(e.tracee, a) {
      var t2 := e.tracee.(memory := e.tracee.memory[a := SW_INTERRUPT_3]);
      OthersStayResident(e.tracee, a, SW_INTERRUPT_3, e.breakpoints);
      UpdateKeepsAccessible(e.tracee, a, SW_INTERRUPT_3, a);
      AppendKeepsConsistent(e, t2, Breakpoint(a, e.tracee.memory[a], true));
    }
  }

  /** Appending an entry resident in the new memory, at a fresh address,
      to a table whose entries all stay resident keeps the invariant. */
  lemma AppendKeepsConsistent(e: Engine, t2: Tracee, bp: Breakpoint)
    requires Consistent(e) && t2.traced
    requires forall j :: 0 <= j < |e.breakpoints| ==> ResidentAt(t2, e.breakpoints[j])
    requires forall j :: 0 <= j < |e.breakpoints| ==> e.breakpoints[j].address != bp.address
    requires ResidentAt(t2, bp)
    ensures Consistent(e.(tracee := t2, breakpoints := e.breakpoints + [bp]))
  {
    var bps := e.breakpoints + [bp];
    assert forall j :: 0 <= j < |e.breakpoints| ==> bps[j] == e.breakpoints[j];
  }

  /** Deleting entry `i` keeps the invariant: its byte goes back to the saved
      byte, the other entries' bytes are untouched. */
  lemma DeleteKeepsConsistent(e: Engine, i: nat)
    requires Consistent(e) && i < |e.breakpoints|
    ensures Consistent(BackendModel.DeleteBreakpoint(e, i))
  {
    var r := BackendModel.DeleteBreakpoint(e, i);
    var bps := e.breakpoints;
    var a := bps[i].address;
    assert ResidentAt(e.tracee, bps[i]);
    var others := bps[..i] + bps[i + 1..];
    RemoveKeepsDistinct(bps, i);
    forall j | 0 <= j < |others|
      ensures ResidentAt(e.tracee, others[j]) && others[j].address != a
    {
      if j < i {
        assert others[j] == bps[j];
      } else {
        assert others[j] == bps[j + 1];
      }
    }
    OthersStayResident(e.tracee, a, bps[i].savedData, others);
    assert r.tracee == e.tracee.(memory := e.tracee.memory[a := bps[i].savedData]);
  }

  /** Erasing an entry keeps the remaining addresses distinct. */
  lemma RemoveKeepsDistinct(bps: seq<Breakpoint>, i: nat)
    requires i < |bps| && DistinctAddresses(bps)
    ensures DistinctAddresses(bps[..i] + bps[i + 1..])
    ensures forall j :: 0 <= j < |bps| - 1 ==>
      (bps[..i] + bps[i + 1..])[j] == (if j < i then bps[j] else bps[j + 1])
  {
    var others := bps[..i] + bps[i + 1..];
    forall j | 0 <= j < |others|
      ensures others[j] == (if j < i then bps[j] else bps[j + 1])
    {
    }
  }

  /** After a delete the hit marker, when set, still designates the same
      breakpoint; deleting the hit entry clears it. */
  lemma DeleteKeepsHitTarget(e: Engine, i: nat)
    requires HitValid(e) && i < |e.breakpoints|
    ensures HitValid(BackendModel.DeleteBreakpoint(e, i))
    ensures e.hit == i ==> BackendModel.DeleteBreakpoint(e, i).hit == -1
    ensures e.hit != -1 && e.hit != i ==>
      BackendModel.DeleteBreakpoint(e, i).breakpoints[BackendModel.DeleteBreakpoint(e, i).hit] == e.breakpoints[e.hit]
  {
  }

  /** Deleting a breakpoint and adding it again at the same address gives
      back the same saved byte and, for an enabled entry, the same memory. */
  lemma DeleteThenAddRoundTrip(e: Engine, i: nat)
    requires Consistent(e) && i < |e.breakpoints|
    ensures var bp := e.breakpoints[i];
      var r := AddBreakpoint(BackendModel.DeleteBreakpoint(e, i), bp.address);
      |r.breakpoints| == |e.breakpoints| &&
      r.breakpoints[|r.breakpoints| - 1] == bp.(enabled := true) &&
      (bp.enabled ==> r.tracee.memory == e.tracee.memory)
  {
    var bp := e.breakpoints[i];
    var d := BackendModel.DeleteBreakpoint(e, i);
    assert d.tracee.memory == e.tracee.memory[bp.address := bp.savedData];
    UpdateKeepsAccessible(e.tracee, bp.address, bp.savedData, bp.address);
    assert d.tracee == e.tracee.(memory := e.tracee.memory[bp.address := bp.savedData]);
    assert WordAccessible(d.tracee, bp.address);
    if bp.enabled {
      assert e.tracee.memory[bp.address := bp.savedData][bp.address := SW_INTERRUPT_3] == e.tracee.memory;
    }
  }

  lemma EnableKeepsConsistent(e: Engine, i: nat)
    requires Consistent(e) && i < |e.breakpoints|
    ensures Consistent(BackendModel.EnableBreakpoint(e, i))
  {
    var bps := e.breakpoints;
    if !bps[i].enabled {
      var r := BackendModel.EnableBreakpoint(e, i);
      forall j | 0 <= j < |bps|
        ensures ResidentAt(r.tracee, r.breakpoints[j])
      {
        UpdateKeepsAccessible(e.tracee, bps[i].address, SW_INTERRUPT_3, bps[j].address);
      }
    }
  }

  lemma DisableKeepsConsistent(e: Engine, i: nat)
    requires Consistent(e) && i < |e.breakpoints|
    ensures Consistent(BackendModel.DisableBreakpoint(e, i))
  {
    var bps := e.breakpoints;
    if bps[i].enabled {
      var r := BackendModel.DisableBreakpoint(e, i);
      forall j | 0 <= j < |bps|
        ensures ResidentAt(r.tracee, r.breakpoints[j])
      {
        UpdateKeepsAccessible(e.tracee, bps[i].address, bps[i].savedData, bps[j].address);
      }
    }
  }

  /** Enabling (or disabling) twice is the same as once. */
  lemma EnableIdempotent(e: Engine, i: nat)
    requires i < |e.breakpoints|
    ensures BackendModel.EnableBreakpoint(BackendModel.EnableBreakpoint(e, i), i) == BackendModel.EnableBreakpoint(e, i)
  {
  }

  lemma DisableIdempotent(e: Engine, i: nat)
    requires i < |e.breakpoints|
    ensures BackendModel.DisableBreakpoint(BackendModel.DisableBreakpoint(e, i), i) == BackendModel.DisableBreakpoint(e, i)
  {
  }

  /** Disabling then enabling a consistent, enabled entry restores the
      engine exactly: the resident byte toggles back to the trap byte. */
  lemma DisableEnableRoundTrip(e: Engine, i: nat)
    requires Consistent(e) && i < |e.breakpoints| && e.breakpoints[i].enabled
    ensures BackendModel.EnableBreakpoint(BackendModel.DisableBreakpoint(e, i), i) == e
  {
    var bp := e.breakpoints[i];
    var d := BackendModel.DisableBreakpoint(e, i);
    UpdateKeepsAccessible(e.tracee, bp.address, bp.savedData, bp.address);
    assert d.tracee == e.tracee.(memory := e.tracee.memory[bp.address := bp.savedData]);
    assert e.tracee.memory[bp.address := bp.savedData][bp.address := SW_INTERRUPT_3] == e.tracee.memory;
    assert e.breakpoints[i := bp.(enabled := false)][i := bp] == e.breakpoints;
  }

  /** Both directions of the enable/disable toggle on a disabled entry. */
  lemma EnableDisableRoundTrip(e: Engine, i: nat)
    requires Consistent(e) && i < |e.breakpoints| && !e.breakpoints[i].enabled
    ensures BackendModel.DisableBreakpoint(BackendModel.EnableBreakpoint(e, i), i) == e
  {
    var bp := e.breakpoints[i];
    var d := BackendModel.EnableBreakpoint(e, i);
    UpdateKeepsAccessible(e.tracee, bp.address, SW_INTERRUPT_3, bp.address);
    assert d.tracee == e.tracee.(memory := e.tracee.memory[bp.address := SW_INTERRUPT_3]);
    assert e.tracee.memory[bp.address := SW_INTERRUPT_3][bp.address := bp.savedData] == e.tracee.memory;
    assert e.breakpoints[i := bp.(enabled := true)][i := bp] == e.breakpoints;
  }

  /** A consistent engine stopped just past an enabled breakpoint's trap
      byte: `CheckBreakpoints` reports that entry and rewinds `rip` onto it. */
  lemma TrapIsReported(e: Engine, i: nat)
    requires Consistent(e) && i < |e.breakpoints| < 0x8000_0000
    requires e.tracee.registers[REGISTER_RIP] == e.breakpoints[i].address + 1
    ensures CheckBreakpoints(e).1 == i
    ensures CheckBreakpoints(e).0.tracee.registers[REGISTER_RIP] == e.breakpoints[i].address
    ensures CheckBreakpoints(e).0.hit == i
  {
    assert e.breakpoints[i].address == SubWrap(GetRegister(e.tracee, REGISTER_RIP), 1);
  }

  /** When `rip` is 0, or the registers cannot be fetched (`GetRegister`
      yields 0), the compared address wraps to the top of the address space. */
  lemma CheckWrapsAtZero(e: Engine)
    requires |e.breakpoints| < 0x8000_0000
    requires GetRegister(e.tracee, REGISTER_RIP) == 0
    ensures CheckBreakpoints(e).1 == FindAddress(e.breakpoints, U64_MAX)
  {
  }

  /** Step-over leaves the hit entry's expected byte resident at its
      address (while the tracee is still there), whatever the nested step
      did; for a consistent engine, memory is as before. */
  lemma StepOverLeavesTrap(e: Engine, exec: ExecOracle)
    requires |e.breakpoints| < 0x8000_0000
    requires 0 <= e.hit < |e.breakpoints|
    requires WordAccessible(e.tracee, e.breakpoints[e.hit].address)
    ensures var r := StepOverBreakpoint(e, exec);
      r.tracee.traced ==>
        r.tracee.memory[e.breakpoints[e.hit].address] == ExpectedByte(e.breakpoints[e.hit])
    ensures var r := StepOverBreakpoint(e, exec);
      Consistent(e) && r.tracee.traced ==> r.tracee.memory == e.tracee.memory
  {
    var a := e.breakpoints[e.hit].address;
    if Consistent(e) {
      assert ResidentAt(e.tracee, e.breakpoints[e.hit]);
      if e.breakpoints[e.hit].enabled {
        assert e.tracee.memory[a := SW_INTERRUPT_3] == e.tracee.memory;
      } else {
        assert e.tracee.memory[a := e.breakpoints[e.hit].savedData] == e.tracee.memory;
      }
    }
  }

  /** The re-patch as written does not consult `Enabled`: stepping over a
      hit entry that was disabled after the hit leaves the trap byte in
      memory while the entry still says disabled. */
  lemma StepOverRearmsDisabledEntry(e: Engine, exec: ExecOracle)
    requires Consistent(e) && |e.breakpoints| < 0x8000_0000
    requires 0 <= e.hit < |e.breakpoints| && !e.breakpoints[e.hit].enabled
    requires e.breakpoints[e.hit].savedData != SW_INTERRUPT_3
    ensures var r := StepOverAsWritten(e, exec);
      r.tracee.traced ==> !ResidentAt(r.tracee, r.breakpoints[e.hit])
  {
    assert ResidentAt(e.tracee, e.breakpoints[e.hit]);
  }

  /** With the re-patch conditioned on `Enabled`, the hit entry -- enabled
      or disabled after the hit -- is still resident after the step-over. */
  lemma StepOverKeepsResident(e: Engine, exec: ExecOracle)
    requires Consistent(e) && |e.breakpoints| < 0x8000_0000
    requires 0 <= e.hit < |e.breakpoints|
    ensures var r := StepOverBreakpoint(e, exec);
      r.tracee.traced ==> ResidentAt(r.tracee, r.breakpoints[e.hit])
  {
    assert ResidentAt(e.tracee, e.breakpoints[e.hit]);
    StepOverLeavesTrap(e, exec);
  }

  /** The table invariant survives a single step (and the step-over it may
      start) as long as the tracee is still there. */
  lemma StepSingleKeepsConsistent(e: Engine, exec: ExecOracle)
    requires Consistent(e) && |e.breakpoints| < 0x8000_0000
    ensures var r := BackendModel.StepSingle(e, exec);
      r.tracee.traced ==> Consistent(r)
  {
    var r := BackendModel.StepSingle(e, exec);
    if r.tracee.traced {
      if e.hit != -1 {
        assert ResidentAt(e.tracee, e.breakpoints[e.hit]);
        StepOverLeavesTrap(e, exec);
      }
      assert r.tracee.memory == e.tracee.memory;
      forall j | 0 <= j < |r.breakpoints|
        ensures ResidentAt(r.tracee, r.breakpoints[j])
      {
        assert ResidentAt(e.tracee, e.breakpoints[j]);
      }
    }
  }

  /** `Continue` keeps the invariant in the same way. */
  lemma ContinueKeepsConsistent(e: Engine, exec: ExecOracle)
    requires Consistent(e) && |e.breakpoints| < 0x8000_0000
    ensures var r := BackendModel.Continue(e, exec);
      r.tracee.traced ==> Consistent(r)
  {
    var r := BackendModel.Continue(e, exec);
    if r.tracee.traced {
      if e.hit != -1 {
        assert ResidentAt(e.tracee, e.breakpoints[e.hit]);
        StepOverLeavesTrap(e, exec);
      }
      assert r.tracee.memory == e.tracee.memory;
      forall j | 0 <= j < |r.breakpoints|
        ensures ResidentAt(r.tracee, r.breakpoints[j])
      {
        assert ResidentAt(e.tracee, e.breakpoints[j]);
      }
    }
  }

  /** A register write to `rip` clears the hit marker whatever the value,
      and every command leaves the slot marked processed. */
  lemma RipWriteClearsHit(e: Engine, v: u64, exec: ExecOracle)
    requires |e.breakpoints| < 0x8000_0000 - 1 && HitValid(e)
    requires e.command == RegisterWrite(REGISTER_RIP, v)
    ensures RunCommand(e, exec).0.hit == -1
    ensures RunCommand(e, exec).0.command == Processed
    ensures e.tracee.traced ==> RunCommand(e, exec).0.tracee.registers[REGISTER_RIP] == v
  {
  }
}
