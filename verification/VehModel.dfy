/** The breakpoint hook manager as a state machine (LunaHook/veh_hook.cpp). */
module VehModel {

  import opened MachineTypes

  const INT3: byte := 0xCC
  const STEP_RANGE: nat := 0x10
  const ADDRESS_SPACE: nat := UINT64_LIMIT

  /** A listed hook: the patched address and the byte it replaced. */
  datatype Hook = Hook(addr: nat, saved: byte)

  /** Code memory, the hooks in list order, and the trap flag of the one thread. */
  datatype State = State(mem: seq<byte>, hooks: seq<Hook>, trap: bool)

  // ---------- lookup ----------

  /** (uintptr_t)a - (uintptr_t)b */
  function Distance(a: nat, b: nat): nat { (a - b) % ADDRESS_SPACE }

  predicate InRange(h: Hook, a: nat, range: nat) { Distance(a, h.addr) <= range }

  /** Index of the hook get_veh_node finds, or -1: the smallest distance wins, the later hook on a tie. */
  function Nearest(hooks: seq<Hook>, a: nat, range: nat): (i: int)
    ensures -1 <= i < |hooks|
    ensures i == -1 <==> forall j :: 0 <= j < |hooks| ==> !InRange(hooks[j], a, range)
    ensures i >= 0 ==> InRange(hooks[i], a, range)
                       && forall j :: 0 <= j < |hooks| ==> Distance(a, hooks[i].addr) <= Distance(a, hooks[j].addr)
  {
    if hooks == [] then -1 else
    var n := |hooks| - 1;
    var i := Nearest(hooks[..n], a, range);
    if InRange(hooks[n], a, range) && (i == -1 || Distance(a, hooks[n].addr) <= Distance(a, hooks[i].addr)) then n else i
  }

  predicate Listed(hooks: seq<Hook>, a: nat) { exists i :: 0 <= i < |hooks| && hooks[i].addr == a }

  // ---------- the operations ----------

  datatype Event =
    | Add(addr: nat, protectOk: bool)
    | Remove(addr: nat, protectOk: bool)
    | Break(addr: nat, accepted: bool, protectOk: bool)
    | Trap(addr: nat)
    | OtherException

  function Added(s: State, a: nat, ok: bool): State {
    if Nearest(s.hooks, a, 0) >= 0 || !ok || a >= |s.mem| then s
    else s.(mem := s.mem[a := INT3], hooks := s.hooks + [Hook(a, s.mem[a])])
  }

  function Write(mem: seq<byte>, a: nat, b: byte): (r: seq<byte>)
    ensures |r| == |mem|
  {
    if a < |mem| then mem[a := b] else mem
  }

  /** repair_origin: nothing happens when the page cannot be made writable. */
  function Repaired(mem: seq<byte>, h: Hook, ok: bool): (r: seq<byte>)
    ensures |r| == |mem|
  {
    if ok then Write(mem, h.addr, h.saved) else mem
  }

  function Removed(s: State, a: nat, ok: bool): State {
    var i := Nearest(s.hooks, a, 0);
    if i < 0 then s
    else s.(mem := Repaired(s.mem, s.hooks[i], ok), hooks := s.hooks[..i] + s.hooks[i + 1..])
  }

  function Broken(s: State, a: nat, accepted: bool, ok: bool): State {
    var i := Nearest(s.hooks, a, 0);
    if i < 0 then s
    else if accepted then s.(mem := Repaired(s.mem, s.hooks[i], ok), trap := true)
    else Removed(s, a, ok)
  }

  function Trapped(s: State, a: nat): State {
    var i := Nearest(s.hooks, a, STEP_RANGE);
    if i < 0 then s else s.(mem := Write(s.mem, s.hooks[i].addr, INT3), trap := false)
  }

  function Step(s: State, e: Event): State {
    match e
    case Add(a, ok) => Added(s, a, ok)
    case Remove(a, ok) => Removed(s, a, ok)
    case Break(a, accepted, ok) => Broken(s, a, accepted, ok)
    case Trap(a) => Trapped(s, a)
    case OtherException => s
  }

  function Run(s: State, events: seq<Event>): State
    decreases |events|
  {
    if events == [] then s else Run(Step(s, events[0]), events[1..])
  }

  // ---------- what every run keeps ----------

  /** Distinct mapped addresses, each holding the breakpoint or its own byte. */
  predicate WellFormed(s: State) {
    && |s.mem| <= ADDRESS_SPACE
    && (forall i :: 0 <= i < |s.hooks| ==> s.hooks[i].addr < |s.mem|)
    && (forall i, j :: 0 <= i < j < |s.hooks| ==> s.hooks[i].addr != s.hooks[j].addr)
    && (forall i :: 0 <= i < |s.hooks| ==> s.mem[s.hooks[i].addr] == INT3 || s.mem[s.hooks[i].addr] == s.hooks[i].saved)
  }

  /** Memory with every saved byte put back is the original memory. */
  predicate Restores(s: State, original: seq<byte>)
    requires WellFormed(s)
  {
    && |s.mem| == |original|
    && (forall i :: 0 <= i < |s.hooks| ==> original[s.hooks[i].addr] == s.hooks[i].saved)
    && (forall x :: 0 <= x < |s.mem| && !Listed(s.hooks, x) ==> s.mem[x] == original[x])
  }

  /** The event unlists a hook whose byte it could not put back. */
  predicate Lossy(s: State, e: Event)
    requires WellFormed(s)
  {
    match e
    case Remove(a, ok) => !ok && StillPatched(s, a)
    case Break(a, accepted, ok) => !accepted && !ok && StillPatched(s, a)
    case _ => false
  }

  predicate StillPatched(s: State, a: nat)
    requires WellFormed(s)
  {
    exists i :: 0 <= i < |s.hooks| && s.hooks[i].addr == a && s.mem[a] != s.hooks[i].saved
  }

  lemma ExactDistance(a: nat, b: nat)
    requires a < ADDRESS_SPACE && b < ADDRESS_SPACE
    ensures Distance(a, b) == 0 <==> a == b
    ensures a >= b ==> Distance(a, b) == a - b
  {
  }

  /** Away from address 0 the lookup window is [a - range, a]. */
  lemma WindowWithoutWrap(h: Hook, a: nat, range: nat)
    requires a < ADDRESS_SPACE && h.addr < ADDRESS_SPACE && range <= a
    ensures InRange(h, a, range) <==> a - range <= h.addr <= a
  {
    if h.addr <= a {
      ExactDistance(a, h.addr);
    } else {
      assert Distance(a, h.addr) == a - h.addr + ADDRESS_SPACE;
    }
  }

  /** With range 0 the lookup is by address. */
  lemma FindExact(s: State, a: nat)
    requires WellFormed(s) && a < ADDRESS_SPACE
    ensures var i := Nearest(s.hooks, a, 0);
            (i >= 0 <==> Listed(s.hooks, a)) && (i >= 0 ==> s.hooks[i].addr == a)
  {
    forall i | 0 <= i < |s.hooks|
      ensures InRange(s.hooks[i], a, 0) <==> s.hooks[i].addr == a
    {
      ExactDistance(a, s.hooks[i].addr);
    }
  }

  lemma UnlistOne(s: State, i: nat)
    requires WellFormed(s) && i < |s.hooks|
    ensures var rest := s.hooks[..i] + s.hooks[i + 1..];
            && (forall x :: Listed(rest, x) <==> Listed(s.hooks, x) && x != s.hooks[i].addr)
            && (forall j :: 0 <= j < |rest| ==> rest[j] == if j < i then s.hooks[j] else s.hooks[j + 1])
  {
    var rest := s.hooks[..i] + s.hooks[i + 1..];
    forall x | Listed(s.hooks, x) && x != s.hooks[i].addr
      ensures Listed(rest, x)
    {
      var j :| 0 <= j < |s.hooks| && s.hooks[j].addr == x;
      assert rest[if j < i then j else j - 1] == s.hooks[j];
    }
  }

  lemma ListOne(hooks: seq<Hook>, h: Hook)
    ensures forall x :: Listed(hooks + [h], x) <==> Listed(hooks, x) || x == h.addr
  {
    var more := hooks + [h];
    assert more[|hooks|] == h;
    forall x | Listed(hooks, x)
      ensures Listed(more, x)
    {
      var i :| 0 <= i < |hooks| && hooks[i].addr == x;
      assert more[i] == hooks[i];
    }
  }

  lemma AddKeeps(s: State, a: nat, ok: bool, original: seq<byte>)
    requires WellFormed(s) && a < ADDRESS_SPACE
    ensures WellFormed(Added(s, a, ok))
    ensures Restores(s, original) ==> Restores(Added(s, a, ok), original)
  {
    FindExact(s, a);
    if ok && a < |s.mem| && !Listed(s.hooks, a) {
      ListOne(s.hooks, Hook(a, s.mem[a]));
    }
  }

  lemma RemoveShape(s: State, i: nat, ok: bool)
    requires WellFormed(s) && i < |s.hooks|
    ensures WellFormed(State(Repaired(s.mem, s.hooks[i], ok), s.hooks[..i] + s.hooks[i + 1..], s.trap))
  {
    UnlistOne(s, i);
  }

  lemma RemoveRestores(s: State, i: nat, ok: bool, original: seq<byte>)
    requires WellFormed(s) && i < |s.hooks| && Restores(s, original)
    ensures var t := State(Repaired(s.mem, s.hooks[i], ok), s.hooks[..i] + s.hooks[i + 1..], s.trap);
            WellFormed(t) && (Restores(t, original) <==> ok || s.mem[s.hooks[i].addr] == s.hooks[i].saved)
  {
    UnlistOne(s, i);
    RemoveShape(s, i, ok);
  }

  lemma RemoveKeeps(s: State, a: nat, ok: bool, original: seq<byte>)
    requires WellFormed(s) && a < ADDRESS_SPACE
    ensures WellFormed(Removed(s, a, ok))
    ensures Restores(s, original) ==> (Restores(Removed(s, a, ok), original) <==> ok || !StillPatched(s, a))
  {
    FindExact(s, a);
    var i := Nearest(s.hooks, a, 0);
    if i >= 0 {
      RemoveShape(s, i, ok);
      assert StillPatched(s, a) <==> s.mem[a] != s.hooks[i].saved;
      if Restores(s, original) {
        RemoveRestores(s, i, ok, original);
      }
    }
  }

  lemma WriteKeeps(s: State, i: nat, b: byte, trap: bool, original: seq<byte>)
    requires WellFormed(s) && i < |s.hooks| && (b == INT3 || b == s.hooks[i].saved)
    ensures var t := s.(mem := Write(s.mem, s.hooks[i].addr, b), trap := trap);
            WellFormed(t) && (Restores(s, original) ==> Restores(t, original))
  {
  }

  lemma BreakKeeps(s: State, a: nat, accepted: bool, ok: bool, original: seq<byte>)
    requires WellFormed(s) && a < ADDRESS_SPACE
    ensures WellFormed(Broken(s, a, accepted, ok))
    ensures Restores(s, original) ==> (Restores(Broken(s, a, accepted, ok), original) <==> !Lossy(s, Break(a, accepted, ok)))
  {
    var i := Nearest(s.hooks, a, 0);
    if i >= 0 && accepted {
      var h := s.hooks[i];
      WriteKeeps(s, i, if ok then h.saved else s.mem[h.addr], true, original);
      assert Write(s.mem, h.addr, s.mem[h.addr]) == s.mem;
    } else {
      RemoveKeeps(s, a, ok, original);
      if i < 0 {
        FindExact(s, a);
      }
    }
  }

  lemma TrapKeeps(s: State, a: nat, original: seq<byte>)
    requires WellFormed(s)
    ensures WellFormed(Trapped(s, a))
    ensures Restores(s, original) ==> Restores(Trapped(s, a), original)
  {
    var i := Nearest(s.hooks, a, STEP_RANGE);
    if i >= 0 {
      WriteKeeps(s, i, INT3, false, original);
    }
  }

  /** One step: the list stays well formed, and memory stays restorable unless the step is lossy. */
  lemma StepKeeps(s: State, e: Event, original: seq<byte>)
    requires WellFormed(s) && (e.OtherException? || e.addr < ADDRESS_SPACE)
    ensures WellFormed(Step(s, e))
    ensures Restores(s, original) ==> (Restores(Step(s, e), original) <==> !Lossy(s, e))
  {
    match e
    case Add(a, ok) => AddKeeps(s, a, ok, original);
    case Remove(a, ok) => RemoveKeeps(s, a, ok, original);
    case Break(a, accepted, ok) => BreakKeeps(s, a, accepted, ok, original);
    case Trap(a) => TrapKeeps(s, a, original);
    case OtherException =>
  }
}
