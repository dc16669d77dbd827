/** What every interleaving of DoSend calls guarantees. */
module HookFinderRuns {
  import opened MachineTypes
  import opened HookFinderModel

  predicate HasIndex(at: Stage) { at.Drew? || at.Stored? || at.OutOfRecords? || at.TooLate? || at.Stray? }

  /** Call c drew index n. */
  predicate Holds(s: State, c: int, n: int) { c in s.calls && HasIndex(s.calls[c].at) && s.calls[c].at.n == n }

  /** Some call drew index n. */
  ghost predicate Taken(s: State, n: int) { exists c :: Holds(s, c, n) }

  predicate StoredAt(s: State, c: int, n: int) { c in s.calls && s.calls[c].at == Stored(n) }

  /** How many indices have been handed out. */
  function Drawn(s: State): int { |s.shared.records| - s.shared.available }

  /** The indices 1 .. Drawn(s) have been handed out, each to one call, and no other. */
  ghost predicate IndicesExact(s: State) {
    && (forall c, n :: Holds(s, c, n) ==> 1 <= n <= Drawn(s))
    && (forall c, d, n :: Holds(s, c, n) && Holds(s, d, n) ==> c == d)
    && (forall n :: 1 <= n <= Drawn(s) ==> Taken(s, n))
  }

  /** The call's last step went where its index says. */
  predicate Placed(at: Stage, max: nat) {
    && (at.Stored? ==> at.n < max) && (at.OutOfRecords? ==> at.n == max) && (at.TooLate? ==> at.n > max) && !at.Stray?
  }

  /** A slot holds its call's record, or is empty when no call has stored there. */
  ghost predicate RecordsExact(s: State) {
    && (forall c :: c in s.calls ==> Placed(s.calls[c].at, |s.shared.records|))
    && (forall c, n :: StoredAt(s, c, n) && 0 <= n < |s.shared.records| ==> s.shared.records[n] == Fill(EMPTY, s.calls[c].send))
    && (forall n :: 0 <= n < |s.shared.records| && s.shared.records[n] != EMPTY ==> exists c :: StoredAt(s, c, n))
  }

  predicate RanOut(s: State, c: int) { c in s.calls && s.calls[c].at.OutOfRecords? }

  /** The out-of-records message has been given once if a call ran out of records, and otherwise not at all. */
  ghost predicate WarnedOnce(s: State) {
    && s.shared.warnings <= 1
    && (s.shared.warnings == 1 ==> exists c :: RanOut(s, c))
    && (s.shared.warnings == 0 ==> forall c :: !RanOut(s, c))
  }

  ghost predicate Sound(s: State) {
    && |s.shared.records| < INT_LIMIT && 0 <= Drawn(s) < INT_LIMIT
    && IndicesExact(s) && RecordsExact(s) && WarnedOnce(s)
  }

  /** The action draws an index. */
  predicate Draws(s: State, a: Action) { a.Go? && a.id in s.calls && s.calls[a.id].at.Counted? }

  function DrawSteps(s: State, actions: seq<Action>): nat
    requires Allowed(s, actions)
    decreases |actions|
  {
    if actions == [] then 0 else (if Draws(s, actions[0]) then 1 else 0) + DrawSteps(Step(s, actions[0]), actions[1..])
  }

  /** The action does not run the counter of the records over. */
  predicate NoWrap(s: State, a: Action) { Draws(s, a) ==> Drawn(s) + 1 < INT_LIMIT }

  // ---------- one step ----------

  /** Only call id is somewhere else, and it holds no index. */
  predicate Quiet(s: State, t: State, id: int) {
    && t.calls.Keys == s.calls.Keys + {id} && (forall c :: c in s.calls && c != id ==> t.calls[c] == s.calls[c])
    && !HasIndex(t.calls[id].at) && (id in s.calls ==> !HasIndex(s.calls[id].at))
    && t.shared.available == s.shared.available && t.shared.records == s.shared.records
    && t.shared.warnings == s.shared.warnings
  }

  lemma QuietKeeps(s: State, t: State, id: int)
    requires Quiet(s, t, id) && IndicesExact(s) && RecordsExact(s) && WarnedOnce(s)
    ensures IndicesExact(t) && RecordsExact(t) && WarnedOnce(t)
  {
    assert forall c, n :: Holds(s, c, n) <==> Holds(t, c, n);
    assert forall n :: Taken(s, n) <==> Taken(t, n);
    assert forall c, n :: StoredAt(s, c, n) <==> StoredAt(t, c, n);
    assert forall c :: RanOut(s, c) <==> RanOut(t, c);
  }

  lemma QuietStep(s: State, a: Action)
    requires Enabled(s, a) && Sound(s)
    requires a.Begin? || s.calls[a.id].at.Started? || s.calls[a.id].at.Unseen? || s.calls[a.id].at.Signed?
    ensures Sound(Step(s, a)) && Drawn(Step(s, a)) == Drawn(s)
  {
    hide IndicesExact, RecordsExact, WarnedOnce;
    QuietKeeps(s, Step(s, a), a.id);
  }

  /** A drawn index is the next one, and nobody else's. */
  lemma DrawsNext(s: State, t: State, id: int, n: int)
    requires IndicesExact(s) && RecordsExact(s) && WarnedOnce(s) && Drawn(s) >= 0
    requires id in s.calls && s.calls[id].at.Counted? && t.calls == s.calls[id := s.calls[id].(at := Drew(n))]
    requires t.shared == s.shared.(available := s.shared.available - 1) && n == Drawn(s) + 1
    ensures IndicesExact(t) && RecordsExact(t) && WarnedOnce(t)
  {
    assert forall c, m :: Holds(t, c, m) <==> (Holds(s, c, m) || (c == id && m == n));
    assert Holds(t, id, n);
    assert forall m :: Taken(t, m) <==> (Taken(s, m) || m == n);
    assert forall c, m :: StoredAt(s, c, m) <==> StoredAt(t, c, m);
    assert forall c :: RanOut(s, c) <==> RanOut(t, c);
  }

  lemma DrawsSound(s: State, a: Action)
    requires Enabled(s, a) && Sound(s) && NoWrap(s, a) && Draws(s, a)
    ensures Sound(Step(s, a)) && Drawn(Step(s, a)) == Drawn(s) + 1
  {
    DrawsNext(s, Step(s, a), a.id, Drawn(s) + 1);
  }

  /** Storing fills the caller's own slot. */
  lemma StoreKeepsRecords(s: State, t: State, id: int, n: int)
    requires IndicesExact(s) && RecordsExact(s) && 0 <= n < |s.shared.records|
    requires id in s.calls && s.calls[id].at == Drew(n) && t.calls == s.calls[id := s.calls[id].(at := Stored(n))]
    requires t.shared == s.shared.(records := s.shared.records[n := Fill(s.shared.records[n], s.calls[id].send)])
    ensures RecordsExact(t)
  {
    assert Holds(s, id, n);
    assert forall c, m :: StoredAt(t, c, m) <==> (StoredAt(s, c, m) || (c == id && m == n));
    assert forall c, m :: StoredAt(s, c, m) ==> Holds(s, c, m);
    assert s.shared.records[n] == EMPTY;
    assert StoredAt(t, id, n);
  }

  lemma OthersKeepRecords(s: State, t: State, id: int, at: Stage)
    requires RecordsExact(s) && id in s.calls && s.calls[id].at.Drew? && t.calls == s.calls[id := s.calls[id].(at := at)]
    requires t.shared.records == s.shared.records && !at.Stored? && Placed(at, |s.shared.records|)
    ensures RecordsExact(t)
  {
    assert forall c, m :: StoredAt(t, c, m) <==> StoredAt(s, c, m);
  }

  /** Two calls cannot both run out: they would hold the same index. */
  lemma WarnsOnce(s: State, t: State, id: int)
    requires IndicesExact(s) && RecordsExact(s) && WarnedOnce(s)
    requires id in s.calls && s.calls[id].at.Drew? && id in t.calls
    requires t.calls == s.calls[id := s.calls[id].(at := t.calls[id].at)]
    requires t.calls[id].at.OutOfRecords? <==> s.calls[id].at.n == |s.shared.records|
    requires t.shared.warnings == s.shared.warnings + if t.calls[id].at.OutOfRecords? then 1 else 0
    ensures WarnedOnce(t)
  {
    assert forall c :: RanOut(t, c) <==> (RanOut(s, c) || (c == id && t.calls[id].at.OutOfRecords?));
    if t.calls[id].at.OutOfRecords? {
      assert Holds(s, id, |s.shared.records|);
      assert forall c :: RanOut(s, c) ==> Holds(s, c, |s.shared.records|);
      assert RanOut(t, id);
    }
  }

  lemma PlacedKeepsIndices(s: State, t: State, id: int)
    requires IndicesExact(s) && id in s.calls && s.calls[id].at.Drew? && id in t.calls && HasIndex(t.calls[id].at)
    requires t.calls == s.calls[id := s.calls[id].(at := t.calls[id].at)] && t.calls[id].at.n == s.calls[id].at.n
    requires Drawn(t) == Drawn(s)
    ensures IndicesExact(t)
  {
    assert forall c, n :: Holds(s, c, n) <==> Holds(t, c, n);
    assert forall n :: Taken(s, n) <==> Taken(t, n);
  }

  lemma PlacesSound(s: State, a: Action)
    requires Enabled(s, a) && Sound(s) && a.Go? && s.calls[a.id].at.Drew?
    ensures Sound(Step(s, a)) && Drawn(Step(s, a)) == Drawn(s)
  {
    var t, id, n := Step(s, a), a.id, s.calls[a.id].at.n;
    assert 1 <= n by { assert Holds(s, id, n); }
    hide IndicesExact, RecordsExact, WarnedOnce;
    PlacedKeepsIndices(s, t, id);
    WarnsOnce(s, t, id);
    if n < |s.shared.records| {
      StoreKeepsRecords(s, t, id, n);
    } else {
      OthersKeepRecords(s, t, id, t.calls[id].at);
    }
  }

  lemma StepSound(s: State, a: Action)
    requires Enabled(s, a) && Sound(s) && NoWrap(s, a)
    ensures Sound(Step(s, a)) && |Step(s, a).shared.records| == |s.shared.records|
    ensures Drawn(Step(s, a)) == Drawn(s) + if Draws(s, a) then 1 else 0
  {
    if a.Begin? || s.calls[a.id].at.Started? || s.calls[a.id].at.Unseen? || s.calls[a.id].at.Signed? {
      QuietStep(s, a);
    } else if s.calls[a.id].at.Counted? {
      DrawsSound(s, a);
    } else if s.calls[a.id].at.Drew? {
      PlacesSound(s, a);
    } else {
      assert Step(s, a) == s;
    }
  }

  /** A 2^31st draw would yield a negative index, with which a call would write in front of the array. */
  lemma TooManyDrawsStray(sh: Shared, send: Send)
    requires Ready(sh, send) && |sh.records| < INT_LIMIT && |sh.records| - sh.available == INT_LIMIT - 1
    ensures (
      var (drawn, at) := Advance(sh, send, Counted);
      at == Drew(-INT_LIMIT) && Advance(drawn, send, at) == (drawn, Stray(-INT_LIMIT)))
  {
  }

  // ---------- every run ----------

  lemma {:induction false} RunSound(s: State, actions: seq<Action>)
    requires Allowed(s, actions) && Sound(s) && Drawn(s) + DrawSteps(s, actions) < INT_LIMIT
    ensures Sound(Run(s, actions)) && |Run(s, actions).shared.records| == |s.shared.records|
    ensures Drawn(Run(s, actions)) == Drawn(s) + DrawSteps(s, actions)
    decreases |actions|
  {
    if actions != [] {
      StepSound(s, actions[0]);
      RunSound(Step(s, actions[0]), actions[1..]);
    }
  }

  lemma InitialIsSound(s: State)
    requires Initial(s)
    ensures Sound(s) && Drawn(s) == 0
  {
  }

  /**
   * In every interleaving from a fresh search with fewer than 2^31 draws: the stored records are those of the
   * calls at their own, distinct slots 1 .. max - 1, slot 0 stays empty, and no call writes outside the array.
   */
  lemma EveryRunStoresApart(s: State, actions: seq<Action>)
    requires Initial(s) && Allowed(s, actions) && DrawSteps(s, actions) < INT_LIMIT
    ensures StoredApart(Run(s, actions)) && |Run(s, actions).shared.records| == |s.shared.records|
  {
    InitialIsSound(s);
    RunSound(s, actions);
    SoundStoresApart(Run(s, actions));
  }

  ghost predicate StoredApart(t: State) {
    var max := |t.shared.records|;
    && (forall c, n :: StoredAt(t, c, n) ==> 1 <= n < max && t.shared.records[n] == Fill(EMPTY, t.calls[c].send))
    && (forall c, d, n :: Holds(t, c, n) && Holds(t, d, n) ==> c == d)
    && (forall n :: 0 <= n < max && t.shared.records[n] != EMPTY ==> exists c :: StoredAt(t, c, n))
    && (max > 0 ==> t.shared.records[0] == EMPTY)
    && (forall c :: c in t.calls ==> !t.calls[c].at.Stray?)
  }

  lemma SoundStoresApart(t: State)
    requires Sound(t)
    ensures StoredApart(t)
  {
    assert forall c, n :: StoredAt(t, c, n) ==> Holds(t, c, n);
  }

  /** The count in the closing message is the number of draws, and the indices drawn are exactly 1 up to it. */
  lemma DrawnIsCounted(s: State, actions: seq<Action>)
    requires Initial(s) && Allowed(s, actions) && DrawSteps(s, actions) < INT_LIMIT
    ensures Drawn(Run(s, actions)) == DrawSteps(s, actions)
    ensures forall n :: Taken(Run(s, actions), n) <==> 1 <= n <= Drawn(Run(s, actions))
  {
    InitialIsSound(s);
    RunSound(s, actions);
  }

  /** Once the calls are at rest, the out-of-records message has been given, once, exactly when the records are used up. */
  lemma {:induction false} WarnsExactlyWhenFull(s: State, actions: seq<Action>)
    requires Initial(s) && Allowed(s, actions) && DrawSteps(s, actions) < INT_LIMIT && 0 < |s.shared.records|
    requires forall c :: c in Run(s, actions).calls ==> !Run(s, actions).calls[c].at.Drew?
    ensures Run(s, actions).shared.warnings == 1 <==> Run(s, actions).shared.available <= 0
    ensures Run(s, actions).shared.warnings <= 1
  {
    InitialIsSound(s);
    RunSound(s, actions);
    var t := Run(s, actions);
    var max := |t.shared.records|;
    if t.shared.available <= 0 {
      assert Taken(t, max);
      var c :| Holds(t, c, max);
      assert RanOut(t, c);
    } else if c :| RanOut(t, c) {
      assert Holds(t, c, max);
    }
  }
}
