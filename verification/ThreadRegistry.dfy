/**
 * The registry of text threads in the host (LunaHost/host.cpp). One reader per process creates and
 * removes threads in a shared map. A piece of code that holds the lock of the map is one atomic step;
 * the scan of RemoveThreads gives the lock back before it starts, so each entry it looks at is one.
 */
module ThreadRegistry {

  datatype ThreadParam = ThreadParam(processId: int, addr: int, ctx: int, ctx2: int)

  /** The thread for messages, which Start registers and no process owns. */
  const CONSOLE := ThreadParam(0, 0, 0, 0)

  datatype Callback = Created(tp: ThreadParam) | Destroyed(tp: ThreadParam)

  /** Which threads of its process a reader removes: those of one hook, or, at its end, all. */
  datatype Pick = OfHook(address: int) | All

  predicate Picks(pick: Pick, pid: int, tp: ThreadParam) {
    tp.processId == pid && (pick.OfHook? ==> tp.addr == pick.address)
  }

  /**
   * Where a reader stands: in its loop, in the scan of RemoveThreads with the entries seen and those
   * found so far, removing what it found, or at its end. notified says that OnDestroy has been called
   * for the first of the threads to remove and its erase is to come.
   */
  datatype Reader =
    | Reading
    | Scanning(pick: Pick, seen: set<ThreadParam>, found: seq<ThreadParam>)
    | Removing(pick: Pick, todo: seq<ThreadParam>, notified: bool)
    | Gone

  /** The key set of textThreadsByParams, the readers by process id, and the callbacks so far. */
  datatype State = State(threads: set<ThreadParam>, readers: map<int, Reader>, trace: seq<Callback>)

  datatype Action =
    | Connect(pid: int)
    | Text(pid: int, tp: ThreadParam)
    | Begin(pid: int, pick: Pick)
    | Look(pid: int, tp: ThreadParam)
    | End(pid: int)
    | Notify(pid: int)
    | Erase(pid: int)
    | Finish(pid: int)

  /** What Start leaves behind, with or without a console. */
  function Initial(console: bool): State {
    if console then State({CONSOLE}, map[], [Created(CONSOLE)]) else State({}, map[], [])
  }

  predicate Distinct(s: seq<ThreadParam>) { forall i, j :: 0 <= i < j < |s| ==> s[i] != s[j] }

  /** A reader sends its own process id only; a process that is gone may connect again. */
  predicate Enabled(s: State, a: Action) {
    if a.Connect? then a.pid != CONSOLE.processId && (a.pid !in s.readers || s.readers[a.pid].Gone?)
    else a.pid in s.readers && EnabledFor(s, a, s.readers[a.pid])
  }

  /**
   * The scan looks at entries of the map in any order, and ends only when it has come across every
   * entry of its own process; entries of others may come and go unseen meanwhile.
   */
  predicate EnabledFor(s: State, a: Action, r: Reader) {
    match a
    case Connect(pid) => r.Gone?
    case Text(pid, tp) => r.Reading? && tp.processId == pid
    case Begin(pid, pick) => r.Reading?
    case Look(pid, tp) => r.Scanning? && tp in s.threads && (tp.processId == pid ==> tp !in r.seen)
    case End(pid) => r.Scanning? && forall tp :: tp in s.threads && tp.processId == pid ==> tp in r.seen
    case Notify(pid) => r.Removing? && r.todo != [] && !r.notified
    case Erase(pid) => r.Removing? && r.todo != [] && r.notified
    case Finish(pid) => r.Removing? && r.todo == [] && !r.notified
  }

  function Step(s: State, a: Action): State
    requires Enabled(s, a)
  {
    if a.Connect? then s.(readers := s.readers[a.pid := Reading])
    else if a.Text? then
      if a.tp in s.threads then s else s.(threads := s.threads + {a.tp}, trace := s.trace + [Created(a.tp)])
    else
      var r := s.readers[a.pid];
      var t := s.(readers := s.readers[a.pid := After(r, a)]);
      match a
      case Notify(pid) => t.(trace := s.trace + [Destroyed(r.todo[0])])
      case Erase(pid) => t.(threads := s.threads - {r.todo[0]})
      case _ => t
  }

  /** Where the reader goes; no other reader moves. */
  function After(r: Reader, a: Action): Reader
    requires (a.Look? || a.End?) ==> r.Scanning?
    requires (a.Notify? || a.Erase?) ==> r.Removing? && r.todo != []
    requires a.Finish? ==> r.Removing?
  {
    match a
    case Begin(pid, pick) => Scanning(pick, {}, [])
    case Look(pid, tp) => r.(seen := r.seen + {tp}, found := if Picks(r.pick, pid, tp) then r.found + [tp] else r.found)
    case End(pid) => Removing(r.pick, r.found, false)
    case Notify(pid) => r.(notified := true)
    case Erase(pid) => r.(todo := r.todo[1..], notified := false)
    case Finish(pid) => if r.pick.All? then Gone else Reading
    case _ => r
  }

  predicate Allowed(s: State, actions: seq<Action>)
    decreases |actions|
  {
    actions == [] || (Enabled(s, actions[0]) && Allowed(Step(s, actions[0]), actions[1..]))
  }

  function Run(s: State, actions: seq<Action>): State
    requires Allowed(s, actions)
    decreases |actions|
  {
    if actions == [] then s else Run(Step(s, actions[0]), actions[1..])
  }

  // ---------- callbacks ----------

  /** Created and not destroyed since. */
  predicate Alive(trace: seq<Callback>, tp: ThreadParam)
    decreases |trace|
  {
    trace != [] &&
    var n := |trace| - 1;
    if trace[n].tp == tp then trace[n].Created? else Alive(trace[..n], tp)
  }

  /** A thread is created only when it is not alive and destroyed only when it is. */
  predicate Ordered(trace: seq<Callback>)
    decreases |trace|
  {
    trace == [] ||
    var n := |trace| - 1;
    Ordered(trace[..n]) && (trace[n].Created? <==> !Alive(trace[..n], trace[n].tp))
  }

  function CallbacksOf(trace: seq<Callback>, tp: ThreadParam): (r: seq<Callback>)
    ensures forall i :: 0 <= i < |r| ==> r[i].tp == tp
    decreases |trace|
  {
    if trace == [] then []
    else
      var n := |trace| - 1;
      CallbacksOf(trace[..n], tp) + if trace[n].tp == tp then [trace[n]] else []
  }

  /** For one thread the callbacks alternate, starting with a creation. */
  lemma {:induction false} CallbacksAlternate(trace: seq<Callback>, tp: ThreadParam)
    requires Ordered(trace)
    ensures var r := CallbacksOf(trace, tp);
            && (forall i :: 0 <= i < |r| ==> (r[i].Created? <==> i % 2 == 0))
            && (Alive(trace, tp) <==> |r| % 2 == 1)
    decreases |trace|
  {
    if trace != [] {
      CallbacksAlternate(trace[..|trace| - 1], tp);
    }
  }

  // ---------- the invariant ----------

  /** OnDestroy has been called for the thread, and its entry is about to go. */
  predicate Pending(s: State, tp: ThreadParam) {
    tp.processId in s.readers &&
    var r := s.readers[tp.processId];
    r.Removing? && r.notified && r.todo != [] && r.todo[0] == tp
  }

  /** What a reader found or has still to remove is in the map, and nothing it picks is forgotten. */
  predicate ReaderOk(s: State, pid: int, r: Reader) {
    match r
    case Reading => true
    case Gone => forall tp :: tp in s.threads ==> tp.processId != pid
    case Scanning(pick, seen, found) =>
      && Distinct(found)
      && (forall i :: 0 <= i < |found| ==> found[i] in s.threads && found[i] in seen && Picks(pick, pid, found[i]))
      && (forall tp :: tp in seen && Picks(pick, pid, tp) ==> tp in found)
    case Removing(pick, todo, notified) =>
      && Distinct(todo) && (notified ==> todo != [])
      && (forall i :: 0 <= i < |todo| ==> todo[i] in s.threads && Picks(pick, pid, todo[i]))
      && (forall tp :: tp in s.threads && Picks(pick, pid, tp) ==> tp in todo)
  }

  /** Readers are sound, callbacks ordered, and the keys are the live threads and those about to go. */
  ghost predicate Sound(s: State) {
    && CONSOLE.processId !in s.readers
    && (forall pid :: pid in s.readers ==> ReaderOk(s, pid, s.readers[pid]))
    && (forall tp :: tp in s.threads ==> tp.processId in s.readers || tp == CONSOLE)
    && Ordered(s.trace)
    && (forall tp :: Alive(s.trace, tp) <==> tp in s.threads && !Pending(s, tp))
  }

  lemma AliveAfter(trace: seq<Callback>, c: Callback)
    ensures Ordered(trace + [c]) <==> Ordered(trace) && (c.Created? <==> !Alive(trace, c.tp))
    ensures forall tp :: Alive(trace + [c], tp) <==> if tp == c.tp then c.Created? else Alive(trace, tp)
  {
    assert (trace + [c])[..|trace|] == trace;
  }

  lemma TextSound(s: State, pid: int, tp: ThreadParam)
    requires Sound(s) && Enabled(s, Text(pid, tp))
    ensures Sound(Step(s, Text(pid, tp)))
  {
    if tp !in s.threads {
      AliveAfter(s.trace, Created(tp));
    }
  }

  lemma LookSound(s: State, pid: int, tp: ThreadParam)
    requires Sound(s) && Enabled(s, Look(pid, tp))
    ensures Sound(Step(s, Look(pid, tp)))
  {
    var t, r := Step(s, Look(pid, tp)), s.readers[pid];
    var found := t.readers[pid].found;
    assert forall x :: x in found <==> x in r.found || (x == tp && Picks(r.pick, pid, tp));
    assert forall x :: Pending(t, x) <==> Pending(s, x);
  }

  lemma NotifySound(s: State, pid: int)
    requires Sound(s) && Enabled(s, Notify(pid))
    ensures Sound(Step(s, Notify(pid)))
  {
    AliveAfter(s.trace, Destroyed(s.readers[pid].todo[0]));
  }

  lemma EraseSound(s: State, pid: int)
    requires Sound(s) && Enabled(s, Erase(pid))
    ensures Sound(Step(s, Erase(pid)))
  {
    var r := s.readers[pid];
    assert forall tp :: tp in r.todo ==> tp == r.todo[0] || tp in r.todo[1..];
  }

  lemma StepSound(s: State, a: Action)
    requires Sound(s) && Enabled(s, a)
    ensures Sound(Step(s, a))
  {
    match a
    case Text(pid, tp) => TextSound(s, pid, tp);
    case Look(pid, tp) => LookSound(s, pid, tp);
    case Notify(pid) => NotifySound(s, pid);
    case Erase(pid) => EraseSound(s, pid);
    case _ => assert forall tp :: Pending(Step(s, a), tp) <==> Pending(s, tp);
  }

  /** Under every interleaving the callbacks of each thread alternate, and the map and the callbacks agree. */
  lemma {:induction false} RunSound(s: State, actions: seq<Action>)
    requires Sound(s) && Allowed(s, actions)
    ensures Sound(Run(s, actions))
    decreases |actions|
  {
    if actions != [] {
      StepSound(s, actions[0]);
      RunSound(Step(s, actions[0]), actions[1..]);
    }
  }

  lemma InitialIsSound(console: bool)
    ensures Sound(Initial(console))
  {
    var s := Initial(console);
    assert console ==> s.trace == [] + [Created(CONSOLE)];
    AliveAfter([], Created(CONSOLE));
  }

  /**
   * From the start: per-thread alternation, exact key set, nothing left of a process that is gone,
   * nothing left of what a reader set out to remove, and nothing removed but threads of its process, and
   * of the hook if it is one hook that goes.
   */
  lemma RegistryIsConsistent(console: bool, actions: seq<Action>, tp: ThreadParam)
    requires Allowed(Initial(console), actions)
    ensures (
      var s := Run(Initial(console), actions);
      var calls := CallbacksOf(s.trace, tp);
      && (forall i :: 0 <= i < |calls| ==> (calls[i].Created? <==> i % 2 == 0))
      && (tp in s.threads && !Pending(s, tp) <==> |calls| % 2 == 1)
      && (tp.processId in s.readers && s.readers[tp.processId].Gone? ==> tp !in s.threads && |calls| % 2 == 0)
      && (Enabled(s, Finish(tp.processId)) && s.readers[tp.processId].pick in {All, OfHook(tp.addr)} ==> tp !in s.threads)
      && (forall pid :: Enabled(s, Notify(pid)) ==>
            var r := s.readers[pid];
            r.todo[0].processId == pid && r.pick in {All, OfHook(r.todo[0].addr)}))
  {
    InitialIsSound(console);
    RunSound(Initial(console), actions);
    CallbacksAlternate(Run(Initial(console), actions).trace, tp);
  }

  /** The console is created by Start or not at all, and nothing happens to it later. */
  lemma {:induction false} ConsoleStays(s: State, actions: seq<Action>)
    requires Sound(s) && Allowed(s, actions)
    ensures CONSOLE in Run(s, actions).threads <==> CONSOLE in s.threads
    ensures CallbacksOf(Run(s, actions).trace, CONSOLE) == CallbacksOf(s.trace, CONSOLE)
    decreases |actions|
  {
    if actions != [] {
      var t := Step(s, actions[0]);
      StepSound(s, actions[0]);
      ConsoleStays(t, actions[1..]);
      assert t.trace == s.trace || t.trace[..|t.trace| - 1] == s.trace;
    }
  }

  // ---------- the code of one reader ----------

  lemma {:induction false} RunOneMore(s: State, actions: seq<Action>, a: Action)
    requires Allowed(s, actions) && Enabled(Run(s, actions), a)
    ensures Allowed(s, actions + [a]) && Run(s, actions + [a]) == Step(Run(s, actions), a)
    decreases |actions|
  {
    if actions == [] {
      assert [] + [a] == [a];
      assert [a][1..] == [];
    } else {
      assert (actions + [a])[1..] == actions[1..] + [a];
      RunOneMore(Step(s, actions[0]), actions[1..], a);
    }
  }

  lemma RunNothing(s: State)
    ensures Allowed(s, []) && Run(s, []) == s
  {
  }

  /** Calling OnDestroy and erasing, as two further steps. */
  lemma RunTwoMore(s: State, actions: seq<Action>, pid: int)
    requires Allowed(s, actions) && Enabled(Run(s, actions), Notify(pid))
    ensures var t := Step(Run(s, actions), Notify(pid));
            && Enabled(t, Erase(pid)) && Allowed(s, actions + [Notify(pid)] + [Erase(pid)])
            && Run(s, actions + [Notify(pid)] + [Erase(pid)]) == Step(t, Erase(pid))
  {
    RunOneMore(s, actions, Notify(pid));
    RunOneMore(s, actions + [Notify(pid)], Erase(pid));
  }

  class Registry {
    var threads: set<ThreadParam>
    var readers: map<int, Reader>
    var trace: seq<Callback>

    ghost function Current(): State
      reads this
    {
      State(threads, readers, trace)
    }

    /** Start, with or without a console. */
    constructor (console: bool)
      ensures Current() == Initial(console)
    {
      readers := map[];
      threads := if console then {CONSOLE} else {};
      trace := if console then [Created(CONSOLE)] else [];
    }

    /** A text: its thread is looked up, and created when there is none. */
    method OnText(pid: int, tp: ThreadParam)
      requires Enabled(Current(), Text(pid, tp))
      modifies this
      ensures Current() == Step(old(Current()), Text(pid, tp))
    {
      if tp !in threads {
        threads := threads + {tp};
        trace := trace + [Created(tp)];
      }
    }

    /** The scan of RemoveThreads. */
    method Scan(pid: int, pick: Pick) returns (threadsToRemove: seq<ThreadParam>, ghost actions: seq<Action>)
      requires pid in readers && readers[pid].Reading?
      modifies this`readers
      ensures Allowed(old(Current()), actions) && Current() == Run(old(Current()), actions)
      ensures readers == old(readers)[pid := Removing(pick, threadsToRemove, false)]
      ensures Distinct(threadsToRemove)
      ensures forall tp :: tp in threadsToRemove <==> tp in threads && Picks(pick, pid, tp)
    {
      hide Allowed, Run;
      ghost var start := Current();
      RunNothing(start);
      RunOneMore(start, [], Begin(pid, pick));
      actions := [] + [Begin(pid, pick)];
      threadsToRemove := [];
      var seen := {};
      readers := readers[pid := Scanning(pick, {}, [])];
      var rest := threads;
      while rest != {}
        invariant Allowed(start, actions) && Current() == Run(start, actions)
        invariant readers == start.readers[pid := Scanning(pick, seen, threadsToRemove)]
        invariant rest <= threads && seen == threads - rest
        invariant Distinct(threadsToRemove)
        invariant forall tp :: tp in threadsToRemove <==> tp in seen && Picks(pick, pid, tp)
        decreases |rest|
      {
        var tp :| tp in rest;
        RunOneMore(start, actions, Look(pid, tp));
        actions := actions + [Look(pid, tp)];
        seen := seen + {tp};
        rest := rest - {tp};
        if Picks(pick, pid, tp) {
          threadsToRemove := threadsToRemove + [tp];
        }
        readers := readers[pid := Scanning(pick, seen, threadsToRemove)];
      }
      RunOneMore(start, actions, End(pid));
      actions := actions + [End(pid)];
      readers := readers[pid := Removing(pick, threadsToRemove, false)];
    }

    /** One round of the second loop of RemoveThreads. */
    method RemoveOne(pid: int, thread: ThreadParam)
      requires Enabled(Current(), Notify(pid)) && readers[pid].todo[0] == thread
      modifies this
      ensures Enabled(old(Current()), Notify(pid)) && Enabled(Step(old(Current()), Notify(pid)), Erase(pid))
      ensures Current() == Step(Step(old(Current()), Notify(pid)), Erase(pid))
    {
      var r := readers[pid];
      trace := trace + [Destroyed(thread)];
      readers := readers[pid := r.(notified := true)];
      threads := threads - {thread};
      readers := readers[pid := r.(todo := r.todo[1..], notified := false)];
    }

    /**
     * RemoveThreads when no other reader runs in between: a run of the atomic steps, after which
     * exactly the picked threads are gone.
     */
    method RemoveThreads(pid: int, pick: Pick) returns (ghost actions: seq<Action>)
      requires pid in readers && readers[pid].Reading?
      modifies this
      ensures Allowed(old(Current()), actions) && Current() == Run(old(Current()), actions)
      ensures forall tp :: tp in threads <==>
                tp in old(threads) && !(tp.processId == pid && (pick == All || pick == OfHook(tp.addr)))
      ensures readers == old(readers)[pid := if pick.All? then Gone else Reading]
    {
      hide Allowed, Run;
      ghost var start := Current();
      var threadsToRemove;
      threadsToRemove, actions := Scan(pid, pick);
      for i := 0 to |threadsToRemove|
        invariant Allowed(start, actions) && Current() == Run(start, actions)
        invariant readers == start.readers[pid := Removing(pick, threadsToRemove[i..], false)]
        invariant threads == start.threads - set j | 0 <= j < i :: threadsToRemove[j]
      {
        assert threadsToRemove[i..][1..] == threadsToRemove[i + 1..];
        RunTwoMore(start, actions, pid);
        RemoveOne(pid, threadsToRemove[i]);
        actions := actions + [Notify(pid)] + [Erase(pid)];
      }
      RunOneMore(start, actions, Finish(pid));
      actions := actions + [Finish(pid)];
      readers := readers[pid := if pick.All? then Gone else Reading];
    }
  }
}
