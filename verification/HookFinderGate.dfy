/**
 * The callers of DoSend (LunaHook/hookfinder.cc): each hit of a hook looks at recordsAvailable first and then makes
 * a bounded number of calls. This is what keeps the counter of the records from running over.
 */
module HookFinderGate {
  import opened MachineTypes
  import opened HookFinderModel
  import opened HookFinderRuns

  /** A hit makes two calls for each of 26 stack slots; for translated code it is one for each of 16 arguments. */
  const CALLS_PER_HIT := 52

  /** Where a game thread is: outside, or in a hit with calls left to make, perhaps with one under way. */
  datatype Visit = Outside | Between(left: nat) | Calling(left: nat, id: int)

  /** One visit for each thread of the game. */
  datatype Gated = Gated(base: State, visits: seq<Visit>)

  datatype Move =
    | Enter(t: nat, calls: nat)
    | Start(t: nat, id: int, send: Send)
    | Proceed(t: nat)
    | Return(t: nat)
    | Leave(t: nat)

  predicate CanMove(g: Gated, m: Move) {
    m.t < |g.visits| &&
    var v := g.visits[m.t];
    match m
    case Enter(t, calls) => v.Outside? && g.base.shared.available > 0 && calls <= CALLS_PER_HIT
    case Start(t, id, send) => v.Between? && v.left > 0 && Enabled(g.base, Begin(id, send))
    case Proceed(t) => v.Calling? && Enabled(g.base, Go(v.id))
    case Return(t) => v.Calling?
    case Leave(t) => v.Between?
  }

  /** The steps of DoSend calls in a move: one or none. */
  function StepsOf(g: Gated, m: Move): seq<Action>
    requires CanMove(g, m)
  {
    match m
    case Start(t, id, send) => [Begin(id, send)]
    case Proceed(t) => [Go(g.visits[t].id)]
    case _ => []
  }

  function Moved(g: Gated, m: Move): Gated
    requires CanMove(g, m)
  {
    var v := g.visits[m.t];
    match m
    case Enter(t, calls) => g.(visits := g.visits[t := Between(calls)])
    case Start(t, id, send) => Gated(Step(g.base, Begin(id, send)), g.visits[t := Calling(v.left - 1, id)])
    case Proceed(t) => g.(base := Step(g.base, Go(v.id)))
    case Return(t) => g.(visits := g.visits[t := Between(v.left)])
    case Leave(t) => g.(visits := g.visits[t := Outside])
  }

  predicate CanRun(g: Gated, moves: seq<Move>)
    decreases |moves|
  {
    moves == [] || (CanMove(g, moves[0]) && CanRun(Moved(g, moves[0]), moves[1..]))
  }

  function AfterAll(g: Gated, moves: seq<Move>): Gated
    requires CanRun(g, moves)
    decreases |moves|
  {
    if moves == [] then g else AfterAll(Moved(g, moves[0]), moves[1..])
  }

  function AllSteps(g: Gated, moves: seq<Move>): seq<Action>
    requires CanRun(g, moves)
    decreases |moves|
  {
    if moves == [] then [] else StepsOf(g, moves[0]) + AllSteps(Moved(g, moves[0]), moves[1..])
  }

  /** A gated run is an interleaving of DoSend calls. */
  lemma {:induction false} GatedIsARun(g: Gated, moves: seq<Move>)
    requires CanRun(g, moves)
    ensures Allowed(g.base, AllSteps(g, moves)) && Run(g.base, AllSteps(g, moves)) == AfterAll(g, moves).base
    decreases |moves|
  {
    if moves != [] {
      var first, rest := StepsOf(g, moves[0]), AllSteps(Moved(g, moves[0]), moves[1..]);
      GatedIsARun(Moved(g, moves[0]), moves[1..]);
      if first == [] {
        assert first + rest == rest;
      } else {
        assert (first + rest)[0] == first[0] && (first + rest)[1..] == rest;
      }
    }
  }

  /** Once the records are used up and every thread is outside, nothing moves any more. */
  lemma GateCloses(g: Gated, moves: seq<Move>)
    requires CanRun(g, moves) && g.base.shared.available <= 0
    requires forall t :: 0 <= t < |g.visits| ==> g.visits[t].Outside?
    ensures moves == []
  {
  }

  lemma RunOfTwo(g: Gated, m: Move, moves: seq<Move>)
    requires CanMove(g, m) && CanRun(Moved(g, m), moves)
    ensures CanRun(g, [m] + moves)
  {
    assert ([m] + moves)[1..] == moves;
  }

  /** While there are records, a thread can come in, make a step of a call, and go. */
  lemma GateOpens(g: Gated, t: nat, id: int, send: Send)
    requires t < |g.visits| && g.visits[t].Outside? && g.base.shared.available > 0
    requires Enabled(g.base, Begin(id, send))
    ensures CanRun(g, [Enter(t, 1)] + ([Start(t, id, send)] + ([Proceed(t)] + ([Return(t)] + [Leave(t)]))))
  {
    var g1 := Moved(g, Enter(t, 1));
    var g2 := Moved(g1, Start(t, id, send));
    var g3 := Moved(g2, Proceed(t));
    var g4 := Moved(g3, Return(t));
    assert CanRun(Moved(g4, Leave(t)), []);
    RunOfTwo(g4, Leave(t), []);
    assert [Leave(t)] + [] == [Leave(t)];
    RunOfTwo(g3, Return(t), [Leave(t)]);
    RunOfTwo(g2, Proceed(t), [Return(t)] + [Leave(t)]);
    RunOfTwo(g1, Start(t, id, send), [Proceed(t)] + ([Return(t)] + [Leave(t)]));
    RunOfTwo(g, Enter(t, 1), [Start(t, id, send)] + ([Proceed(t)] + ([Return(t)] + [Leave(t)])));
  }

  // ---------- how many draws a thread may still make ----------

  function Due(calls: map<int, Call>, v: Visit): nat {
    match v
    case Outside => 0
    case Between(left) => left
    case Calling(left, id) => left + if id in calls && Rank(calls[id].at) >= 2 then 1 else 0
  }

  function AllDue(calls: map<int, Call>, visits: seq<Visit>): nat {
    if visits == [] then 0 else AllDue(calls, visits[..|visits| - 1]) + Due(calls, visits[|visits| - 1])
  }

  /** No visit of another thread gets more due. */
  lemma {:induction false} DueAfter(calls: map<int, Call>, later: map<int, Call>, visits: seq<Visit>, t: nat, v: Visit)
    requires t < |visits| && forall u :: 0 <= u < |visits| && u != t ==> Due(later, visits[u]) <= Due(calls, visits[u])
    ensures AllDue(later, visits[t := v]) + Due(calls, visits[t]) <= AllDue(calls, visits) + Due(later, v)
    decreases |visits|
  {
    hide Due;
    var n := |visits| - 1;
    if t == n {
      assert visits[t := v][..n] == visits[..n];
      DueElsewhere(calls, later, visits[..n]);
    } else {
      assert visits[t := v][..n] == visits[..n][t := v];
      DueAfter(calls, later, visits[..n], t, v);
    }
  }

  lemma {:induction false} DueElsewhere(calls: map<int, Call>, later: map<int, Call>, visits: seq<Visit>)
    requires forall u :: 0 <= u < |visits| ==> Due(later, visits[u]) <= Due(calls, visits[u])
    ensures AllDue(later, visits) <= AllDue(calls, visits)
    decreases |visits|
  {
    if visits != [] {
      DueElsewhere(calls, later, visits[..|visits| - 1]);
    }
  }

  lemma {:induction false} DueBound(calls: map<int, Call>, visits: seq<Visit>)
    requires forall u :: 0 <= u < |visits| ==> Due(calls, visits[u]) <= CALLS_PER_HIT
    ensures AllDue(calls, visits) <= CALLS_PER_HIT * |visits|
    decreases |visits|
  {
    if visits != [] {
      DueBound(calls, visits[..|visits| - 1]);
    }
  }

  /** The most indices that can ever be drawn. */
  function DrawLimit(g: Gated): int { |g.base.shared.records| + CALLS_PER_HIT * |g.visits| }

  /**
   * No thread has more due than one hit; calls under way are known; and once the records are used up, what is
   * drawn and what is still due stay within the limit.
   */
  ghost predicate Within(g: Gated) {
    && (forall u :: 0 <= u < |g.visits| ==> Due(g.base.calls, g.visits[u]) <= CALLS_PER_HIT)
    && (forall u :: 0 <= u < |g.visits| && g.visits[u].Calling? ==> g.visits[u].id in g.base.calls)
    && 0 <= Drawn(g.base)
    && (g.base.shared.available <= 0 ==> Drawn(g.base) + AllDue(g.base.calls, g.visits) <= DrawLimit(g))
  }

  /** Moves that draw nothing. */
  lemma VisitMove(g: Gated, m: Move)
    requires Within(g) && CanMove(g, m) && (m.Enter? || m.Return? || m.Leave?)
    ensures Within(Moved(g, m)) && Drawn(Moved(g, m).base) == Drawn(g.base) && DrawLimit(Moved(g, m)) == DrawLimit(g)
  {
    var h := Moved(g, m);
    DueAfter(g.base.calls, g.base.calls, g.visits, m.t, h.visits[m.t]);
    if m.Enter? {
      DueBound(h.base.calls, h.visits);
    }
  }

  lemma StartMove(g: Gated, m: Move)
    requires Within(g) && CanMove(g, m) && m.Start?
    ensures Within(Moved(g, m)) && Drawn(Moved(g, m).base) == Drawn(g.base) && DrawLimit(Moved(g, m)) == DrawLimit(g)
  {
    var h := Moved(g, m);
    DueAfter(g.base.calls, h.base.calls, g.visits, m.t, h.visits[m.t]);
  }

  lemma ProceedMove(g: Gated, m: Move)
    requires Within(g) && CanMove(g, m) && m.Proceed? && DrawLimit(g) < INT_LIMIT
    ensures Within(Moved(g, m)) && DrawLimit(Moved(g, m)) == DrawLimit(g)
    ensures Drawn(Moved(g, m).base) == Drawn(g.base) + if Draws(g.base, Go(g.visits[m.t].id)) then 1 else 0
    ensures Drawn(Moved(g, m).base) <= DrawLimit(g)
  {
    var h, id := Moved(g, m), g.visits[m.t].id;
    ProceedDue(g, m.t);
    DueAfter(g.base.calls, h.base.calls, g.visits, m.t, g.visits[m.t]);
    DueBound(g.base.calls, g.visits);
    assert g.visits[m.t := g.visits[m.t]] == g.visits;
  }

  /** A step of a call makes nobody's due grow, and a draw makes its own shrink. */
  lemma ProceedDue(g: Gated, t: nat)
    requires CanMove(g, Proceed(t))
    ensures var h, id := Moved(g, Proceed(t)), g.visits[t].id;
            && (forall u :: 0 <= u < |g.visits| ==> Due(h.base.calls, g.visits[u]) <= Due(g.base.calls, g.visits[u]))
            && (Draws(g.base, Go(id)) ==> Due(h.base.calls, g.visits[t]) + 1 == Due(g.base.calls, g.visits[t]))
            && h.base.calls.Keys == g.base.calls.Keys
  {
  }

  /** While the limit is below 2^31, no draw of a gated run goes beyond it. */
  lemma {:induction false} GateHolds(g: Gated, moves: seq<Move>)
    requires Within(g) && CanRun(g, moves) && DrawLimit(g) < INT_LIMIT && Drawn(g.base) <= DrawLimit(g)
    ensures Allowed(g.base, AllSteps(g, moves)) && Drawn(g.base) + DrawSteps(g.base, AllSteps(g, moves)) <= DrawLimit(g)
    decreases |moves|
  {
    GatedIsARun(g, moves);
    if moves != [] {
      var m := moves[0];
      var h := Moved(g, m);
      var first, rest := StepsOf(g, m), AllSteps(h, moves[1..]);
      if m.Proceed? {
        ProceedMove(g, m);
      } else if m.Start? {
        StartMove(g, m);
      } else {
        VisitMove(g, m);
      }
      GateHolds(h, moves[1..]);
      if first == [] {
        assert first + rest == rest;
      } else {
        assert (first + rest)[0] == first[0] && (first + rest)[1..] == rest;
      }
    }
  }

  /**
   * From a fresh search, with the game's threads outside: when the records and 52 calls for each thread are
   * fewer than 2^31, everything that holds of runs without overflow holds of every run.
   */
  lemma GatedRunsStoreApart(g: Gated, moves: seq<Move>)
    requires Initial(g.base) && (forall u :: 0 <= u < |g.visits| ==> g.visits[u].Outside?)
    requires CanRun(g, moves) && DrawLimit(g) < INT_LIMIT
    ensures Allowed(g.base, AllSteps(g, moves)) && DrawSteps(g.base, AllSteps(g, moves)) <= DrawLimit(g)
    ensures Run(g.base, AllSteps(g, moves)) == AfterAll(g, moves).base && StoredApart(AfterAll(g, moves).base)
  {
    DueBound(g.base.calls, g.visits);
    NothingDue(g.base.calls, g.visits);
    GateHolds(g, moves);
    GatedIsARun(g, moves);
    EveryRunStoresApart(g.base, AllSteps(g, moves));
  }

  lemma {:induction false} NothingDue(calls: map<int, Call>, visits: seq<Visit>)
    requires forall u :: 0 <= u < |visits| ==> visits[u].Outside?
    ensures AllDue(calls, visits) == 0
    decreases |visits|
  {
    if visits != [] {
      NothingDue(calls, visits[..|visits| - 1]);
    }
  }
}
