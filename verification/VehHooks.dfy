/**
 * The hook manager as the source has it: a doubly linked list on the heap, code bytes patched in
 * place, and the trap flag in the exception context. Every method is proved against VehModel.
 */
module VehHooks {
  import opened MachineTypes
  import opened VehModel

  class VehNode {
    var last: VehNode?
    var next: VehNode?
    const origFunc: nat
    const hookType: nat
    var origBaseByte: byte

    /** create_veh_node */
    constructor (origFunc: nat, hookType: nat)
      ensures this.origFunc == origFunc && this.hookType == hookType
      ensures last == null && next == null
    {
      this.origFunc := origFunc;
      this.hookType := hookType;
      last, next := null, null;
    }
  }

  /** The nodes form one list in both directions. */
  ghost predicate Linked(nodes: seq<VehNode>)
    reads nodes
  {
    && (forall i, j :: 0 <= i < j < |nodes| ==> nodes[i] != nodes[j])
    && (forall i {:trigger nodes[i].next} :: 0 <= i < |nodes| ==>
          nodes[i].next == if i + 1 < |nodes| then nodes[i + 1] else null)
    && (forall i {:trigger nodes[i].last} :: 0 <= i < |nodes| ==>
          nodes[i].last == if i > 0 then nodes[i - 1] else null)
  }

  lemma LinkedAt(nodes: seq<VehNode>, k: nat)
    requires Linked(nodes) && k < |nodes|
    ensures nodes[k].next == if k + 1 < |nodes| then nodes[k + 1] else null
    ensures nodes[k].last == if k > 0 then nodes[k - 1] else null
    ensures nodes[k] == nodes[0] <==> k == 0
    ensures nodes[k] == nodes[|nodes| - 1] <==> k == |nodes| - 1
  {
  }

  /** All links but those of node k skip it. */
  ghost predicate Bypassed(nodes: seq<VehNode>, k: nat)
    reads nodes
  {
    && (forall i, j :: 0 <= i < j < |nodes| ==> nodes[i] != nodes[j])
    && (forall i {:trigger nodes[i].next} :: 0 <= i < |nodes| && i != k ==>
          var j := if i + 1 == k then k + 1 else i + 1;
          nodes[i].next == if j < |nodes| then nodes[j] else null)
    && (forall i {:trigger nodes[i].last} :: 0 <= i < |nodes| && i != k ==>
          var j := if i == k + 1 then k - 1 else i - 1;
          nodes[i].last == if j >= 0 then nodes[j] else null)
  }

  lemma BypassedIsLinked(nodes: seq<VehNode>, k: nat)
    requires k < |nodes| && Bypassed(nodes, k)
    ensures Linked(nodes[..k] + nodes[k + 1..])
  {
    var rest := nodes[..k] + nodes[k + 1..];
    forall i | 0 <= i < |rest|
      ensures rest[i].next == if i + 1 < |rest| then rest[i + 1] else null
      ensures rest[i].last == if i > 0 then rest[i - 1] else null
    {
      assert rest[i] == nodes[if i < k then i else i + 1];
    }
  }

  ghost predicate Distinct(hooks: seq<Hook>) {
    && (forall i :: 0 <= i < |hooks| ==> hooks[i].addr < ADDRESS_SPACE)
    && (forall i, j :: 0 <= i < j < |hooks| ==> hooks[i].addr != hooks[j].addr)
  }

  lemma WellFormedFacts(s: State)
    requires WellFormed(s)
    ensures Distinct(s.hooks) && |s.mem| <= ADDRESS_SPACE && forall b :: WellFormed(s.(trap := b))
    ensures forall i :: 0 <= i < |s.hooks| ==> s.hooks[i].addr < |s.mem|
  {
  }

  lemma RemovedWithTrap(s: State, a: nat, ok: bool)
    ensures Removed(s, a, ok) == Removed(s.(trap := false), a, ok).(trap := s.trap)
  {
  }

  lemma OnlyIndex(hooks: seq<Hook>, i: nat, k: nat)
    requires Distinct(hooks) && i < |hooks| && k < |hooks| && hooks[i].addr == hooks[k].addr
    ensures i == k
  {
  }

  /** A hook right at the address is the nearest one. */
  lemma NearestIsUnique(hooks: seq<Hook>, k: nat, a: nat, range: nat)
    requires Distinct(hooks) && k < |hooks| && a < ADDRESS_SPACE && Distance(a, hooks[k].addr) == 0
    ensures Nearest(hooks, a, range) == k
  {
    var i := Nearest(hooks, a, range);
    assert InRange(hooks[k], a, range);
    ExactDistance(a, hooks[k].addr);
    ExactDistance(a, hooks[i].addr);
  }

  /** Looking at one more hook, as the loop of get_veh_node does with its shrinking range. */
  lemma NearestOfMore(hooks: seq<Hook>, k: nat, a: nat, range: nat)
    requires k < |hooks|
    ensures var i := Nearest(hooks[..k], a, range);
            var d := Distance(a, hooks[k].addr);
            Nearest(hooks[..k + 1], a, range)
            == if d <= (if i < 0 then range else Distance(a, hooks[i].addr)) then k else i
  {
    assert hooks[..k + 1][..k] == hooks[..k];
    var i := Nearest(hooks[..k], a, range);
    assert i >= 0 ==> InRange(hooks[..k][i], a, range);
  }

  class VehList {
    var head: VehNode?
    var tail: VehNode?
    ghost var nodes: seq<VehNode>
    ghost var hooks: seq<Hook>

    ghost predicate Valid()
      reads this, nodes
    {
      && Linked(nodes)
      && head == (if nodes == [] then null else nodes[0])
      && tail == (if nodes == [] then null else nodes[|nodes| - 1])
      && |hooks| == |nodes|
      && forall i :: 0 <= i < |nodes| ==> hooks[i] == Hook(nodes[i].origFunc, nodes[i].origBaseByte)
    }

    /** new_veh_list */
    constructor ()
      ensures Valid() && nodes == [] && hooks == []
    {
      head, tail := null, null;
      nodes, hooks := [], [];
    }

    /** insert_veh_node */
    method Insert(newNode: VehNode)
      requires Valid() && newNode !in nodes && newNode.last == null && newNode.next == null
      modifies this, nodes, newNode
      ensures Valid() && nodes == old(nodes) + [newNode]
      ensures hooks == old(hooks) + [Hook(newNode.origFunc, old(newNode.origBaseByte))]
    {
      if head == null {
        head := newNode;
        tail := newNode;
      } else {
        tail.next := newNode;
        newNode.last := tail;
        tail := newNode;
      }
      nodes := nodes + [newNode];
      hooks := hooks + [Hook(newNode.origFunc, newNode.origBaseByte)];
    }

    /** remove_veh_node: the first node with the address is unlinked. */
    method RemoveNode(origFunc: nat) returns (ghost k: nat)
      requires Valid()
      modifies this, nodes
      ensures Valid() && k <= |old(nodes)|
      ensures forall i :: 0 <= i < k ==> old(hooks)[i].addr != origFunc
      ensures k < |old(nodes)| ==> old(hooks)[k].addr == origFunc
      ensures nodes == if k < |old(nodes)| then old(nodes)[..k] + old(nodes)[k + 1..] else old(nodes)
      ensures hooks == if k < |old(hooks)| then old(hooks)[..k] + old(hooks)[k + 1..] else old(hooks)
    {
      var searchNode := head;
      k := 0;
      while searchNode != null
        invariant 0 <= k <= |nodes| && nodes == old(nodes) && hooks == old(hooks)
        invariant searchNode == if k < |nodes| then nodes[k] else null
        invariant forall i :: 0 <= i < k ==> hooks[i].addr != origFunc
        invariant unchanged(this, nodes)
        decreases |nodes| - k
      {
        if searchNode.origFunc == origFunc {
          Unlink(searchNode, k);
          return;
        }
        searchNode := searchNode.next;
        k := k + 1;
      }
    }

    method Unlink(searchNode: VehNode, ghost k: nat)
      requires Valid() && k < |nodes| && nodes[k] == searchNode
      modifies this, nodes
      ensures Valid()
      ensures nodes == old(nodes)[..k] + old(nodes)[k + 1..]
      ensures hooks == old(hooks)[..k] + old(hooks)[k + 1..]
    {
      hide Linked, Bypassed;
      LinkedAt(nodes, k);
      if tail == searchNode {
        tail := searchNode.last;
      }
      if head == searchNode {
        head := searchNode.next;
      }
      Bypass(searchNode, k);
      BypassedIsLinked(nodes, k);
      nodes := nodes[..k] + nodes[k + 1..];
      hooks := hooks[..k] + hooks[k + 1..];
    }

    /** The neighbours of the node are made to point past it. */
    method Bypass(searchNode: VehNode, ghost k: nat)
      requires Linked(nodes) && k < |nodes| && nodes[k] == searchNode
      modifies nodes
      ensures Bypassed(nodes, k)
      ensures forall i :: 0 <= i < |nodes| ==> nodes[i].origBaseByte == old(nodes[i].origBaseByte)
    {
      if searchNode.last != null {
        searchNode.last.next := searchNode.next;
      }
      if searchNode.next != null {
        searchNode.next.last := searchNode.last;
      }
    }

    /** get_veh_node on an existing list. */
    method Get(origFunc: nat, within: nat) returns (closest: VehNode?)
      requires Valid() && Distinct(hooks) && origFunc < ADDRESS_SPACE
      ensures var i := Nearest(hooks, origFunc, within);
              if i < 0 then closest == null
              else closest != null && closest == nodes[i]
                   && closest.origFunc == hooks[i].addr && closest.origBaseByte == hooks[i].saved
    {
      hide Nearest, InRange, Distance, Distinct;
      var newNode := head;
      var range := within;
      closest := null;
      ghost var index := -1;
      ghost var k := 0;
      while newNode != null
        invariant 0 <= k <= |nodes| && newNode == if k < |nodes| then nodes[k] else null
        invariant index == Nearest(hooks[..k], origFunc, within)
        invariant closest == if index < 0 then null else nodes[index]
        invariant range == if index < 0 then within else Distance(origFunc, hooks[index].addr)
        decreases |nodes| - k
      {
        NearestOfMore(hooks, k, origFunc, within);
        if Distance(origFunc, newNode.origFunc) <= range {
          closest := newNode;
          index := k;
          if range == 0 {
            NearestIsUnique(hooks, k, origFunc, within);
            return;
          }
          range := Distance(origFunc, newNode.origFunc);
        }
        newNode := newNode.next;
        k := k + 1;
      }
      assert hooks[..|nodes|] == hooks;
    }
  }

  const TRAP_FLAG: bv32 := 0x100

  /** The part of CONTEXT that the dispatcher writes. */
  class ExceptionContext {
    var eflags: bv32

    predicate Trapping()
      reads this
    {
      eflags & TRAP_FLAG != 0
    }

    /** EFlags |= 0x100 */
    method SetTrap()
      modifies this
      ensures Trapping() && eflags == old(eflags) | TRAP_FLAG
    {
      eflags := eflags | TRAP_FLAG;
    }

    /** EFlags &= ~0x100 */
    method ClearTrap()
      modifies this
      ensures !Trapping() && eflags == old(eflags) & !TRAP_FLAG
    {
      eflags := eflags & !TRAP_FLAG;
    }
  }

  datatype ExceptionCode = Breakpoint | SingleStep | AnyOther

  function EventOf(code: ExceptionCode, addr: nat, accepted: bool, protectOk: bool): Event {
    match code
    case Breakpoint => Break(addr, accepted, protectOk)
    case SingleStep => Trap(addr)
    case AnyOther => OtherException
  }

  /** The globals of veh_hook.cpp and the code memory they patch. */
  class HookManager {
    var list: VehList?
    const mem: array<byte>

    ghost function Nodes(): seq<VehNode>
      reads this, list
    {
      if list == null then [] else list.nodes
    }

    ghost function Hooks(): seq<Hook>
      reads this, list
    {
      if list == null then [] else list.hooks
    }

    ghost function Model(trap: bool): State
      reads this, mem, list
    {
      State(mem[..], Hooks(), trap)
    }

    ghost predicate Valid()
      reads this, mem, list, Nodes()
    {
      (list != null ==> list.Valid()) && WellFormed(Model(false))
    }

    constructor (mem: array<byte>)
      requires mem.Length <= ADDRESS_SPACE
      ensures this.mem == mem && Valid() && Model(false) == State(mem[..], [], false)
    {
      this.mem := mem;
      list := null;
    }

    /** repair_origin */
    method RepairOrigin(node: VehNode, protectOk: bool)
      requires node.origFunc < mem.Length
      modifies mem
      ensures mem[..] == Repaired(old(mem[..]), Hook(node.origFunc, node.origBaseByte), protectOk)
    {
      if !protectOk {
        return;
      }
      mem[node.origFunc] := node.origBaseByte;
    }

    method AddVehHook(origFunc: nat, hookType: nat, protectOk: bool) returns (added: bool)
      requires Valid() && origFunc < ADDRESS_SPACE
      modifies this, mem, list, Nodes()
      ensures Valid() && Model(false) == Added(old(Model(false)), origFunc, protectOk)
      ensures added <==> protectOk && origFunc < mem.Length && !Listed(old(Hooks()), origFunc)
      ensures list == old(list) || fresh(list)
      ensures forall node :: node in Nodes() ==> node in old(Nodes()) || fresh(node)
    {
      hide WellFormed, Restores, StillPatched, Distinct, Nearest, InRange, Distance, VehList.Valid, Linked;
      WellFormedFacts(Model(false));
      FindExact(Model(false), origFunc);
      AddKeeps(Model(false), origFunc, protectOk, mem[..]);
      if list == null {
        list := new VehList();
      }
      var found := list.Get(origFunc, 0);
      if found != null || !protectOk || origFunc >= mem.Length {
        return false;
      }
      var newNode := new VehNode(origFunc, hookType);
      newNode.origBaseByte := mem[origFunc];
      mem[origFunc] := INT3;
      list.Insert(newNode);
      return true;
    }

    method RemoveVehHook(origFunc: nat, protectOk: bool) returns (removed: bool)
      requires Valid() && origFunc < ADDRESS_SPACE
      modifies mem, list, Nodes()
      ensures Valid() && Model(false) == Removed(old(Model(false)), origFunc, protectOk)
      ensures removed <==> Listed(old(Hooks()), origFunc)
    {
      hide WellFormed, Restores, StillPatched, Distinct, Nearest, InRange, Distance, VehList.Valid, Linked;
      hide Repaired, Listed;
      ghost var s := Model(false);
      WellFormedFacts(s);
      FindExact(s, origFunc);
      assert WellFormed(Removed(s, origFunc, protectOk)) by { RemoveKeeps(s, origFunc, protectOk, mem[..]); }
      if list == null {
        return false;
      }
      var node := list.Get(origFunc, 0);
      if node == null {
        return false;
      }
      TakeOut(node, origFunc, protectOk, Nearest(s.hooks, origFunc, 0));
      return true;
    }

    /** The end of remove_veh_hook: the byte is put back, the node unlisted. */
    method TakeOut(node: VehNode, origFunc: nat, protectOk: bool, ghost i: nat)
      requires list != null && list.Valid() && Distinct(list.hooks) && i < |list.hooks|
      requires list.hooks[i] == Hook(origFunc, node.origBaseByte) && node.origFunc == origFunc < mem.Length
      modifies mem, list, list.nodes
      ensures list.Valid() && list.hooks == old(list.hooks)[..i] + old(list.hooks)[i + 1..]
      ensures mem[..] == Repaired(old(mem[..]), old(list.hooks)[i], protectOk)
    {
      hide Distinct, VehList.Valid, Linked, Repaired;
      RepairOrigin(node, protectOk);
      ghost var hooks := list.hooks;
      var k := list.RemoveNode(origFunc);
      assert k == i by { OnlyIndex(hooks, i, k); }
    }

    /** The breakpoint branch of veh_dispatch; accepted is what the callback of the hook answers. */
    method DispatchBreakpoint(context: ExceptionContext, addr: nat, accepted: bool, protectOk: bool)
      returns (handled: bool)
      requires Valid() && list != null && addr < ADDRESS_SPACE
      modifies mem, list, Nodes(), context
      ensures Valid()
      ensures Model(context.Trapping()) == Broken(old(Model(context.Trapping())), addr, accepted, protectOk)
      ensures handled <==> Nearest(old(Hooks()), addr, 0) >= 0
    {
      hide WellFormed, Restores, StillPatched, Distinct, Nearest, InRange, Distance, VehList.Valid, Linked;
      hide Repaired, Listed, Lossy, Removed;
      ghost var s := Model(context.Trapping());
      WellFormedFacts(Model(false));
      var currNode := list.Get(addr, 0);
      if currNode == null {
        return false;
      }
      if accepted {
        StepOver(context, currNode, protectOk, Nearest(s.hooks, addr, 0), addr);
      } else {
        RemovedWithTrap(s, addr, protectOk);
        var removed := RemoveVehHook(addr, protectOk);
      }
      return true;
    }

    /** An accepted hit: the byte is put back and the thread steps over it. */
    method StepOver(context: ExceptionContext, node: VehNode, protectOk: bool, ghost i: nat, ghost addr: nat)
      requires Valid() && list != null && i < |list.hooks| && addr < ADDRESS_SPACE && i == Nearest(list.hooks, addr, 0)
      requires list.hooks[i] == Hook(node.origFunc, node.origBaseByte)
      modifies mem, context
      ensures Valid()
      ensures Model(context.Trapping()) == Broken(old(Model(context.Trapping())), addr, true, protectOk)
    {
      hide WellFormed, Restores, StillPatched, Distinct, Nearest, InRange, Distance, VehList.Valid, Linked;
      hide Repaired, Listed, Lossy;
      ghost var s := Model(context.Trapping());
      WellFormedFacts(Model(false));
      assert WellFormed(Broken(s, addr, true, protectOk)) by { BreakKeeps(s, addr, true, protectOk, s.mem); }
      WellFormedFacts(Broken(s, addr, true, protectOk));
      RepairOrigin(node, protectOk);
      context.SetTrap();
    }

    /** The single-step branch of veh_dispatch. */
    method DispatchSingleStep(context: ExceptionContext, addr: nat) returns (handled: bool)
      requires Valid() && list != null && addr < ADDRESS_SPACE
      modifies mem, context
      ensures Valid()
      ensures Model(context.Trapping()) == Trapped(old(Model(context.Trapping())), addr)
      ensures handled <==> Nearest(old(Hooks()), addr, STEP_RANGE) >= 0
    {
      hide WellFormed, Restores, StillPatched, Distinct, Nearest, InRange, Distance, VehList.Valid, Linked;
      hide Listed, Lossy;
      ghost var s := Model(context.Trapping());
      WellFormedFacts(Model(false));
      assert WellFormed(Trapped(s, addr)) by { TrapKeeps(s, addr, s.mem); }
      WellFormedFacts(Trapped(s, addr));
      var currNode := list.Get(addr, STEP_RANGE);
      if currNode == null {
        return false;
      }
      mem[currNode.origFunc] := INT3;
      context.ClearTrap();
      return true;
    }

    /** veh_dispatch */
    method VehDispatch(context: ExceptionContext, code: ExceptionCode, addr: nat, accepted: bool, protectOk: bool)
      returns (handled: bool)
      requires Valid() && addr < ADDRESS_SPACE
      modifies mem, list, Nodes(), context
      ensures Valid()
      ensures Model(context.Trapping()) == Step(old(Model(context.Trapping())), EventOf(code, addr, accepted, protectOk))
      ensures handled <==> match code
                           case Breakpoint => Nearest(old(Hooks()), addr, 0) >= 0
                           case SingleStep => Nearest(old(Hooks()), addr, STEP_RANGE) >= 0
                           case AnyOther => false
    {
      if code == AnyOther || list == null {
        return false;
      }
      hide WellFormed, VehList.Valid, Linked;
      if code == Breakpoint {
        handled := DispatchBreakpoint(context, addr, accepted, protectOk);
      } else {
        handled := DispatchSingleStep(context, addr);
      }
    }
  }
}
