/** What whole runs of the hook manager guarantee. */
module VehRuns {
  import opened MachineTypes
  import opened VehModel

  predicate ValidAddress(e: Event) { e.OtherException? || e.addr < ADDRESS_SPACE }

  predicate ValidAddresses(events: seq<Event>) { forall i :: 0 <= i < |events| ==> ValidAddress(events[i]) }

  /** No step of the run unlists a hook that it could not repair. */
  predicate Lossless(s: State, events: seq<Event>)
    requires WellFormed(s) && ValidAddresses(events)
    decreases |events|
  {
    events == [] ||
    (StepKeeps(s, events[0], s.mem); !Lossy(s, events[0]) && Lossless(Step(s, events[0]), events[1..]))
  }

  lemma {:induction false} RunKeeps(s: State, events: seq<Event>, original: seq<byte>)
    requires WellFormed(s) && ValidAddresses(events) && Lossless(s, events) && Restores(s, original)
    ensures WellFormed(Run(s, events)) && Restores(Run(s, events), original)
    decreases |events|
  {
    if events != [] {
      StepKeeps(s, events[0], s.mem);
      StepKeeps(s, events[0], original);
      RunKeeps(Step(s, events[0]), events[1..], original);
    }
  }

  /** From an empty list: the saved bytes always give the original memory back, and an empty list has given it back. */
  lemma MemoryIsRestorable(original: seq<byte>, events: seq<Event>)
    requires |original| <= ADDRESS_SPACE && ValidAddresses(events)
    requires Lossless(State(original, [], false), events)
    ensures var t := Run(State(original, [], false), events);
            WellFormed(t) && Restores(t, original) && (t.hooks == [] ==> t.mem == original)
  {
    RunKeeps(State(original, [], false), events, original);
  }

  predicate Protects(e: Event) { (e.Remove? || e.Break?) ==> e.protectOk }

  /** A run whose page protection calls all succeed loses nothing. */
  lemma {:induction false} ProtectedIsLossless(s: State, events: seq<Event>)
    requires WellFormed(s) && ValidAddresses(events) && forall i :: 0 <= i < |events| ==> Protects(events[i])
    ensures Lossless(s, events)
    decreases |events|
  {
    if events != [] {
      StepKeeps(s, events[0], s.mem);
      assert Protects(events[0]) && forall i :: 0 <= i < |events[1..]| ==> Protects(events[1..][i]);
      ProtectedIsLossless(Step(s, events[0]), events[1..]);
    }
  }

  // ---------- a hook that is gone stays gone ----------

  lemma {:induction false} UnlistedIsUntouched(s: State, events: seq<Event>, a: nat)
    requires WellFormed(s) && ValidAddresses(events) && a < |s.mem| && !Listed(s.hooks, a)
    requires forall i :: 0 <= i < |events| && events[i].Add? ==> events[i].addr != a
    ensures WellFormed(Run(s, events)) && |Run(s, events).mem| == |s.mem|
    ensures !Listed(Run(s, events).hooks, a) && Run(s, events).mem[a] == s.mem[a]
    decreases |events|
  {
    if events != [] {
      StepKeeps(s, events[0], s.mem);
      StepLeaves(s, events[0], a);
      UnlistedIsUntouched(Step(s, events[0]), events[1..], a);
    }
  }

  lemma StepLeaves(s: State, e: Event, a: nat)
    requires WellFormed(s) && ValidAddress(e) && a < |s.mem| && !Listed(s.hooks, a)
    requires e.Add? ==> e.addr != a
    ensures var t := Step(s, e);
            |t.mem| == |s.mem| && t.mem[a] == s.mem[a] && !Listed(t.hooks, a)
  {
    if e.Add? {
      ListOne(s.hooks, Hook(e.addr, if e.addr < |s.mem| then s.mem[e.addr] else 0));
    } else if e.Remove? || e.Break? {
      var i := Nearest(s.hooks, e.addr, 0);
      if i >= 0 {
        UnlistOne(s, i);
      }
    }
  }

  /** A callback that answers false takes its hook out for good, with the byte put back if the page can be written. */
  lemma RejectionIsFinal(s: State, a: nat, ok: bool, events: seq<Event>)
    requires WellFormed(s) && a < ADDRESS_SPACE && ValidAddresses(events)
    requires forall i :: 0 <= i < |events| && events[i].Add? ==> events[i].addr != a
    ensures forall i :: 0 <= i < |s.hooks| && s.hooks[i].addr == a ==>
              var t := Run(Broken(s, a, false, ok), events);
              |t.mem| == |s.mem| && !Listed(t.hooks, a) && t.mem[a] == if ok then s.hooks[i].saved else s.mem[a]
  {
    FindExact(s, a);
    var i := Nearest(s.hooks, a, 0);
    if i >= 0 {
      var t := Broken(s, a, false, ok);
      StepKeeps(s, Break(a, false, ok), s.mem);
      UnlistOne(s, i);
      assert t.mem[a] == if ok then s.hooks[i].saved else s.mem[a];
      UnlistedIsUntouched(t, events, a);
    }
  }

  lemma AddedAt(s: State, a: nat)
    requires WellFormed(s) && a < |s.mem| && !Listed(s.hooks, a)
    ensures Added(s, a, true) == State(s.mem[a := INT3], s.hooks + [Hook(a, s.mem[a])], s.trap)
    ensures WellFormed(Added(s, a, true))
  {
    FindExact(s, a);
    AddKeeps(s, a, true, s.mem);
  }

  lemma FoundAt(s: State, i: nat)
    requires WellFormed(s) && i < |s.hooks|
    ensures Nearest(s.hooks, s.hooks[i].addr, 0) == i
  {
    FindExact(s, s.hooks[i].addr);
  }

  /** A hook removed while its page cannot be written leaves its breakpoint behind. */
  lemma LossyRemovalLosesAByte(original: byte)
    ensures Removed(Added(State([original], [], false), 0, true), 0, false) == State([INT3], [], false)
  {
    hide Added, WellFormed, Nearest, Listed;
    var s0, s := State([original], [], false), State([INT3], [Hook(0, original)], false);
    assert WellFormed(s0) && !Listed(s0.hooks, 0) by { FreshIsWellFormed(s0); }
    AddedAt(s0, 0);
    assert s0.mem[0 := INT3] == s.mem && s0.hooks + [Hook(0, original)] == s.hooks;
    FoundAt(s, 0);
    assert s.hooks[..0] + s.hooks[1..] == [];
  }

  lemma FreshIsWellFormed(s: State)
    requires |s.mem| <= ADDRESS_SPACE && s.hooks == []
    ensures WellFormed(s) && forall a :: !Listed(s.hooks, a)
  {
  }

  // ---------- one breakpoint hit and its single step ----------

  predicate AllArmed(s: State)
    requires WellFormed(s)
  {
    forall i :: 0 <= i < |s.hooks| ==> s.mem[s.hooks[i].addr] == INT3
  }

  /** No other hook lies between the hooked address and the address of the trap. */
  predicate NoneCloser(hooks: seq<Hook>, a: nat, trapAt: nat) {
    forall i :: 0 <= i < |hooks| && hooks[i].addr != a ==> Distance(trapAt, a) < Distance(trapAt, hooks[i].addr)
  }

  lemma DistancesDiffer(a: nat, b: nat, c: nat)
    requires a < ADDRESS_SPACE && b < ADDRESS_SPACE && c < ADDRESS_SPACE && Distance(c, a) == Distance(c, b)
    ensures a == b
  {
  }

  /** The trap finds the hook that was hit exactly when none is closer. */
  lemma TrapFinds(s: State, i: nat, trapAt: nat)
    requires WellFormed(s) && i < |s.hooks| && trapAt < ADDRESS_SPACE
    requires Distance(trapAt, s.hooks[i].addr) <= STEP_RANGE
    ensures Nearest(s.hooks, trapAt, STEP_RANGE) == i <==> NoneCloser(s.hooks, s.hooks[i].addr, trapAt)
  {
    var k := Nearest(s.hooks, trapAt, STEP_RANGE);
    assert InRange(s.hooks[i], trapAt, STEP_RANGE);
    if k == i {
      forall j | 0 <= j < |s.hooks| && s.hooks[j].addr != s.hooks[i].addr
        ensures Distance(trapAt, s.hooks[i].addr) < Distance(trapAt, s.hooks[j].addr)
      {
        if Distance(trapAt, s.hooks[i].addr) == Distance(trapAt, s.hooks[j].addr) {
          DistancesDiffer(s.hooks[i].addr, s.hooks[j].addr, trapAt);
        }
      }
    }
  }

  /**
   * The trap re-arms the hook that was hit. A hook over a breakpoint has nothing to re-arm, but needs the flag
   * cleared; a thread that restarts there hits it again and comes to no trap.
   */
  predicate Rearms(s: State, i: nat, trapAt: nat)
    requires i < |s.hooks|
  {
    var h := s.hooks[i];
    if h.saved == INT3 then Nearest(s.hooks, trapAt, STEP_RANGE) >= 0
    else Distance(trapAt, h.addr) <= STEP_RANGE && NoneCloser(s.hooks, h.addr, trapAt)
  }

  /**
   * An accepted hit and its trap, wherever the stepped instruction led, leave the state as it was exactly
   * when the trap comes at most 16 bytes behind the hook with no other hook closer to it.
   */
  lemma HitIsTransparent(s: State, i: nat, trapAt: nat)
    requires WellFormed(s) && AllArmed(s) && !s.trap && i < |s.hooks| && trapAt < ADDRESS_SPACE
    ensures Trapped(Broken(s, s.hooks[i].addr, true, true), trapAt) == s <==> Rearms(s, i, trapAt)
  {
    var h := s.hooks[i];
    FindExact(s, h.addr);
    assert Nearest(s.hooks, h.addr, 0) == i;
    var t := Broken(s, h.addr, true, true);
    assert t.mem == s.mem[h.addr := h.saved] && t.hooks == s.hooks;
    var k := Nearest(t.hooks, trapAt, STEP_RANGE);
    if InRange(h, trapAt, STEP_RANGE) {
      assert k >= 0;
      TrapFinds(s, i, trapAt);
    }
    var u := Trapped(t, trapAt);
    if k >= 0 {
      if k == i || h.saved == INT3 {
        assert u.mem == s.mem;
      } else {
        assert u.mem[h.addr] == h.saved != s.mem[h.addr];
      }
    }
  }

  /** A trap that finds no hook changes nothing: the hook that was hit stays unarmed and the trap flag set. */
  lemma FarTrapDoesNothing(s: State, i: nat, trapAt: nat)
    requires WellFormed(s) && i < |s.hooks| && forall j :: 0 <= j < |s.hooks| ==> !InRange(s.hooks[j], trapAt, STEP_RANGE)
    ensures var t := Broken(s, s.hooks[i].addr, true, true);
            Trapped(t, trapAt) == t && t.trap && t.mem[s.hooks[i].addr] == s.hooks[i].saved
  {
    FindExact(s, s.hooks[i].addr);
    assert Nearest(s.hooks, s.hooks[i].addr, 0) == i;
  }

  const SHORT_JUMP: byte := 0xEB

  /** A hook over a jump from address 4 to 100: after the hit and its trap, it is unarmed and the thread still steps. */
  lemma JumpLosesHook(mem: seq<byte>)
    requires |mem| == 128 && mem[4] == SHORT_JUMP
    ensures var s := Added(State(mem, [], false), 4, true);
            Trapped(Broken(s, 4, true, true), 100) == State(mem, [Hook(4, SHORT_JUMP)], true)
  {
    hide Added, WellFormed, Nearest, Listed;
    var s0, s := State(mem, [], false), State(mem[4 := INT3], [Hook(4, SHORT_JUMP)], false);
    FreshIsWellFormed(s0);
    AddedAt(s0, 4);
    assert s0.hooks + [Hook(4, SHORT_JUMP)] == s.hooks;
    ExactDistance(100, 4);
    FarTrapDoesNothing(s, 0, 100);
    FoundAt(s, 0);
    assert mem[4 := INT3][4 := SHORT_JUMP] == mem;
  }

  /** A trap right at a hook re-arms that hook. */
  lemma TrapRightAt(s: State, i: nat)
    requires WellFormed(s) && i < |s.hooks|
    ensures Nearest(s.hooks, s.hooks[i].addr, STEP_RANGE) == i
  {
    var a := s.hooks[i].addr;
    ExactDistance(a, a);
    assert InRange(s.hooks[i], a, STEP_RANGE);
    ExactDistance(a, s.hooks[Nearest(s.hooks, a, STEP_RANGE)].addr);
  }

  /** Hooks at 4 and 5: the trap behind the one-byte instruction at 4 re-arms the hook at 5, and 4 stays unarmed. */
  lemma NeighbourIsRearmed(mem: seq<byte>)
    requires |mem| == 8
    ensures var s := Added(Added(State(mem, [], false), 4, true), 5, true);
            Trapped(Broken(s, 4, true, true), 5) == s.(mem := s.mem[4 := mem[4]])
  {
    hide Added, WellFormed, Nearest;
    var s0, s1 := State(mem, [], false), State(mem[4 := INT3], [Hook(4, mem[4])], false);
    var s := State(mem[4 := INT3][5 := INT3], [Hook(4, mem[4]), Hook(5, mem[5])], false);
    FreshIsWellFormed(s0);
    AddedAt(s0, 4);
    assert s0.hooks + [Hook(4, mem[4])] == s1.hooks;
    AddedAt(s1, 5);
    assert s1.hooks + [Hook(5, s1.mem[5])] == s.hooks;
    hide Listed;
    FoundAt(s, 0);
    TrapRightAt(s, 1);
    assert s.mem[4 := mem[4]][5 := INT3] == s.mem[4 := mem[4]];
  }

  // ---------- single-threaded runs ----------

  /** Where the one thread is: free, or stepping over the instruction at an unarmed hook. */
  datatype Thread = Free | Stepping(addr: nat)

  /**
   * After an accepted hit the thread restarts at the hook. With the byte put back it steps over the
   * instruction, and the trap may come anywhere; with a breakpoint still there, because that was the saved
   * byte or the page could not be written, it hits once more. Other exceptions may come in between.
   */
  predicate Enabled(s: State, p: Thread, e: Event) {
    ValidAddress(e) &&
    match p
    case Free => true
    case Stepping(a) => e.OtherException? || if a < |s.mem| && s.mem[a] == INT3 then e.Break? && e.addr == a else e.Trap?
  }

  function Next(s: State, p: Thread, e: Event): Thread {
    if e.Break? && e.accepted && Nearest(s.hooks, e.addr, 0) >= 0 then Stepping(e.addr)
    else if e.Break? || e.Trap? then Free
    else p
  }

  /** The trap flag is set exactly while one hook, the one being stepped over, is unarmed. */
  predicate Disciplined(s: State, p: Thread) {
    && WellFormed(s) && (s.trap <==> p.Stepping?)
    && (forall i :: 0 <= i < |s.hooks| ==>
          s.mem[s.hooks[i].addr] == if p == Stepping(s.hooks[i].addr) then s.hooks[i].saved else INT3)
    && (p.Stepping? ==> p.addr < ADDRESS_SPACE && Listed(s.hooks, p.addr))
  }

  /** The hook is over a breakpoint of the program, or its page could be written. */
  predicate Writable(s: State, a: nat, ok: bool) {
    ok || forall i :: 0 <= i < |s.hooks| && s.hooks[i].addr == a ==> s.hooks[i].saved == INT3
  }

  /** The trap re-arms whatever hook is at the address. */
  predicate RearmsAt(s: State, a: nat, trapAt: nat) {
    forall i :: 0 <= i < |s.hooks| && s.hooks[i].addr == a ==> Rearms(s, i, trapAt)
  }

  /**
   * The event is none of three: a hit whose byte cannot be put back, a trap that fails to re-arm, and the
   * rejection of a hook that the thread is restarting at, which leaves the trap flag set.
   */
  predicate GoesOn(s: State, p: Thread, e: Event) {
    match p
    case Free => (e.Break? && e.accepted ==> Writable(s, e.addr, e.protectOk))
    case Stepping(a) => (e.Trap? ==> RearmsAt(s, a, e.addr)) && (e.Break? ==> e.accepted)
  }

  lemma AddDisciplined(s: State, a: nat, ok: bool)
    requires Disciplined(s, Free) && a < ADDRESS_SPACE
    ensures Disciplined(Added(s, a, ok), Free)
  {
    hide Distance, InRange, Restores;
    AddKeeps(s, a, ok, s.mem);
    FindExact(s, a);
  }

  lemma RemoveDisciplined(s: State, a: nat, ok: bool)
    requires Disciplined(s, Free) && a < ADDRESS_SPACE
    ensures Disciplined(Removed(s, a, ok), Free)
  {
    hide Distance, InRange, Restores, StillPatched;
    RemoveKeeps(s, a, ok, s.mem);
    var i := Nearest(s.hooks, a, 0);
    if i >= 0 {
      UnlistOne(s, i);
      var t := Removed(s, a, ok);
      assert forall j :: 0 <= j < |t.hooks| ==> t.mem[t.hooks[j].addr] == s.mem[t.hooks[j].addr];
    }
  }

  lemma BrokenIs(s: State, i: nat, ok: bool)
    requires WellFormed(s) && i < |s.hooks|
    ensures var h := s.hooks[i];
            Broken(s, h.addr, true, ok) == s.(mem := if ok then s.mem[h.addr := h.saved] else s.mem, trap := true)
    ensures WellFormed(Broken(s, s.hooks[i].addr, true, ok))
  {
    FoundAt(s, i);
    BreakKeeps(s, s.hooks[i].addr, true, ok, s.mem);
  }

  lemma HitDisciplined(s: State, i: nat, ok: bool)
    requires Disciplined(s, Free) && i < |s.hooks|
    ensures Disciplined(Broken(s, s.hooks[i].addr, true, ok), Stepping(s.hooks[i].addr)) <==> Writable(s, s.hooks[i].addr, ok)
  {
    var a := s.hooks[i].addr;
    BrokenIs(s, i, ok);
    hide Broken;
    assert forall j :: 0 <= j < |s.hooks| && j != i ==> s.hooks[j].addr != a;
    assert Listed(s.hooks, a);
  }

  /** The thread hits the hook it restarts at. */
  lemma HitAgain(s: State, a: nat, accepted: bool, ok: bool)
    requires Disciplined(s, Stepping(a)) && s.mem[a] == INT3
    ensures accepted ==> Broken(s, a, true, ok) == s && Nearest(s.hooks, a, 0) >= 0
    ensures !accepted ==> Broken(s, a, false, ok).trap
  {
    var i :| 0 <= i < |s.hooks| && s.hooks[i].addr == a;
    FoundAt(s, i);
    assert s.hooks[i].saved == INT3;
    assert s.mem[a := INT3] == s.mem;
  }

  lemma RearmsFinds(s: State, i: nat, trapAt: nat)
    requires WellFormed(s) && i < |s.hooks| && trapAt < ADDRESS_SPACE && s.hooks[i].saved != INT3
    ensures Rearms(s, i, trapAt) <==> Nearest(s.hooks, trapAt, STEP_RANGE) == i
  {
    if InRange(s.hooks[i], trapAt, STEP_RANGE) {
      TrapFinds(s, i, trapAt);
    }
  }

  lemma TrapDisciplined(s: State, i: nat, trapAt: nat)
    requires i < |s.hooks| && Disciplined(s, Stepping(s.hooks[i].addr)) && trapAt < ADDRESS_SPACE
    ensures Disciplined(Trapped(s, trapAt), Free) <==> Rearms(s, i, trapAt)
  {
    var k := Nearest(s.hooks, trapAt, STEP_RANGE);
    if s.hooks[i].saved != INT3 {
      RearmsFinds(s, i, trapAt);
    }
    hide Rearms, InRange, Distance;
    if k >= 0 {
      var t := Trapped(s, trapAt);
      WriteKeeps(s, k, INT3, false, s.mem);
      assert t.mem[s.hooks[i].addr] == if k == i then INT3 else s.hooks[i].saved;
      assert forall j :: 0 <= j < |s.hooks| && j != i ==> t.mem[s.hooks[j].addr] == INT3;
    }
  }

  lemma SpuriousTrap(s: State, trapAt: nat)
    requires Disciplined(s, Free)
    ensures Disciplined(Trapped(s, trapAt), Free)
  {
    var k := Nearest(s.hooks, trapAt, STEP_RANGE);
    if k >= 0 {
      WriteKeeps(s, k, INT3, false, s.mem);
    }
  }

  /** One event keeps the discipline exactly when it is none of the three that break it. */
  lemma StepDisciplined(s: State, p: Thread, e: Event)
    requires Disciplined(s, p) && Enabled(s, p, e)
    ensures Disciplined(Step(s, e), Next(s, p, e)) <==> GoesOn(s, p, e)
  {
    if p.Stepping? {
      SteppingDisciplined(s, p.addr, e);
    } else {
      FreeDisciplined(s, e);
    }
  }

  lemma SteppingDisciplined(s: State, a: nat, e: Event)
    requires Disciplined(s, Stepping(a)) && Enabled(s, Stepping(a), e)
    ensures Disciplined(Step(s, e), Next(s, Stepping(a), e)) <==> GoesOn(s, Stepping(a), e)
  {
    if e.Break? {
      HitAgain(s, a, e.accepted, e.protectOk);
    } else if e.Trap? {
      AnyTrapDisciplined(s, a, e.addr);
    }
  }

  lemma FreeDisciplined(s: State, e: Event)
    requires Disciplined(s, Free) && ValidAddress(e)
    ensures Disciplined(Step(s, e), Next(s, Free, e)) <==> GoesOn(s, Free, e)
  {
    hide Added, Removed, Trapped, Writable, Disciplined;
    match e
    case Add(a, ok) => AddDisciplined(s, a, ok);
    case Remove(a, ok) => RemoveDisciplined(s, a, ok);
    case Break(a, accepted, ok) => BreakDisciplined(s, a, accepted, ok);
    case Trap(a) => SpuriousTrap(s, a);
    case OtherException =>
  }

  lemma BreakDisciplined(s: State, a: nat, accepted: bool, ok: bool)
    requires Disciplined(s, Free) && a < ADDRESS_SPACE
    ensures Disciplined(Broken(s, a, accepted, ok), Next(s, Free, Break(a, accepted, ok))) <==> accepted ==> Writable(s, a, ok)
  {
    FindExact(s, a);
    if Nearest(s.hooks, a, 0) < 0 {
      assert Writable(s, a, ok);
    } else if accepted {
      HitDisciplined(s, Nearest(s.hooks, a, 0), ok);
    } else {
      RemoveDisciplined(s, a, ok);
    }
  }

  lemma AnyTrapDisciplined(s: State, a: nat, trapAt: nat)
    requires Disciplined(s, Stepping(a)) && trapAt < ADDRESS_SPACE
    ensures Disciplined(Trapped(s, trapAt), Free) <==> RearmsAt(s, a, trapAt)
  {
    hide Trapped, Rearms;
    var i :| 0 <= i < |s.hooks| && s.hooks[i].addr == a;
    TrapDisciplined(s, i, trapAt);
    assert forall j :: 0 <= j < |s.hooks| && s.hooks[j].addr == a ==> j == i;
  }

  /** A run of one thread. */
  predicate Possible(s: State, p: Thread, events: seq<Event>)
    decreases |events|
  {
    events == [] || (Enabled(s, p, events[0]) && Possible(Step(s, events[0]), Next(s, p, events[0]), events[1..]))
  }

  /** The discipline holds at every point of the run. */
  predicate StaysDisciplined(s: State, p: Thread, events: seq<Event>)
    decreases |events|
  {
    Disciplined(s, p)
    && (events == [] || StaysDisciplined(Step(s, events[0]), Next(s, p, events[0]), events[1..]))
  }

  predicate AllGoOn(s: State, p: Thread, events: seq<Event>)
    decreases |events|
  {
    events == [] || (GoesOn(s, p, events[0]) && AllGoOn(Step(s, events[0]), Next(s, p, events[0]), events[1..]))
  }

  /** The trap flag is set exactly while one hook is unarmed, throughout a run, exactly when no event of the run breaks that. */
  lemma {:induction false} RunDisciplined(s: State, p: Thread, events: seq<Event>)
    requires Disciplined(s, p) && Possible(s, p, events)
    ensures StaysDisciplined(s, p, events) <==> AllGoOn(s, p, events)
    decreases |events|
  {
    if events != [] {
      StepDisciplined(s, p, events[0]);
      var t, q := Step(s, events[0]), Next(s, p, events[0]);
      if Disciplined(t, q) {
        RunDisciplined(t, q, events[1..]);
      } else {
        assert !StaysDisciplined(t, q, events[1..]);
      }
    }
  }

  // ---------- hooks far apart ----------

  predicate Apart(a: nat, b: nat) { Distance(a, b) > STEP_RANGE && Distance(b, a) > STEP_RANGE }

  predicate AllApart(hooks: seq<Hook>) {
    forall i, j :: 0 <= i < |hooks| && 0 <= j < |hooks| && i != j ==> Apart(hooks[i].addr, hooks[j].addr)
  }

  lemma ApartIsFar(a: nat, b: nat, c: nat)
    requires a < ADDRESS_SPACE && b < ADDRESS_SPACE && c < ADDRESS_SPACE
    requires Apart(a, b) && Distance(c, a) <= STEP_RANGE
    ensures Distance(c, a) < Distance(c, b)
  {
  }

  /** With hooks more than 16 bytes apart, a trap re-arms the hook unless the stepped instruction branched away. */
  lemma ApartRearms(s: State, i: nat, trapAt: nat)
    requires WellFormed(s) && AllApart(s.hooks) && i < |s.hooks| && trapAt < ADDRESS_SPACE && s.hooks[i].saved != INT3
    ensures Rearms(s, i, trapAt) <==> Distance(trapAt, s.hooks[i].addr) <= STEP_RANGE
  {
    var a := s.hooks[i].addr;
    if Distance(trapAt, a) <= STEP_RANGE {
      forall j | 0 <= j < |s.hooks| && s.hooks[j].addr != a
        ensures Distance(trapAt, a) < Distance(trapAt, s.hooks[j].addr)
      {
        ApartIsFar(a, s.hooks[j].addr, trapAt);
      }
    }
  }
}
