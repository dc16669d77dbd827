/** Concurrent DoSend calls of one hook search (LunaHook/hookfinder.cc) as interleaved atomic steps. */
module HookFinderModel {
  import opened MachineTypes
  import opened HookParams

  const CACHE_SIZE := 749993
  const BUCKET_LIMIT := 25

  /** A record as a search stores it; EMPTY is what the array holds at first. */
  datatype Record = Record(jittype: JitType, address: int, emAddr: int, argidx: int, padding: int, offset: int, text: seq<byte>)

  const EMPTY := Record(PC, 0, 0, 0, 0, 0, [])

  /** What one call brings: its signature, the bucket of its character sum, and what it would store. */
  datatype Send = Send(signature: nat, bucket: nat, jittype: JitType, address: int, i: int, padding: int, text: seq<byte>)

  /** A call writes the fields of its kind only; i is a stack slot of 8 bytes, or an argument index. */
  function Fill(slot: Record, send: Send): Record {
    var r := slot.(jittype := send.jittype, padding := send.padding, text := send.text);
    if send.jittype == PC then r.(address := send.address, offset := send.i * 8)
    else r.(emAddr := send.address, argidx := send.i)
  }

  /** The globals the calls share; warnings counts the out-of-records messages. */
  datatype Shared = Shared(available: int, signatures: seq<int>, sums: seq<int>, records: seq<Record>, warnings: nat)

  /** Where a call stands; n is the index it drew. Stray is a write in front of the record array. */
  datatype Stage =
    | Started | Unseen | Signed | Counted | Drew(n: int)
    | Filtered | Stored(n: int) | OutOfRecords(n: int) | TooLate(n: int) | Stray(n: int)

  predicate Sized(sh: Shared) { |sh.signatures| == CACHE_SIZE && |sh.sums| == CACHE_SIZE }

  predicate Ready(sh: Shared, send: Send) { Sized(sh) && send.bucket < CACHE_SIZE }

  /** The next atomic step of a call. */
  function Advance(sh: Shared, send: Send, at: Stage): (r: (Shared, Stage))
    requires Ready(sh, send)
    ensures Sized(r.0) && |r.0.records| == |sh.records|
  {
    var max := |sh.records|;
    match at
    case Started =>
      (sh, if sh.signatures[send.signature % CACHE_SIZE] == send.signature then Filtered else Unseen)
    case Unseen =>
      (sh.(signatures := sh.signatures[send.signature % CACHE_SIZE := send.signature]), Signed)
    case Signed =>
      var sum := Signed32(sh.sums[send.bucket] + 1);
      (sh.(sums := sh.sums[send.bucket := sum]), if sum > BUCKET_LIMIT then Filtered else Counted)
    case Counted =>
      var left := Signed32(sh.available - 1);
      (sh.(available := left), Drew(Signed32(max - left)))
    case Drew(n) =>
      if n < 0 then (sh, Stray(n))
      else if n < max then (sh.(records := sh.records[n := Fill(sh.records[n], send)]), Stored(n))
      else if n == max then (sh.(warnings := sh.warnings + 1), OutOfRecords(n))
      else (sh, TooLate(n))
    case _ => (sh, at)
  }

  datatype Call = Call(send: Send, at: Stage)

  datatype State = State(shared: Shared, calls: map<int, Call>)

  datatype Action = Begin(id: int, send: Send) | Go(id: int)

  predicate Enabled(s: State, a: Action) {
    match a
    case Begin(id, send) => id !in s.calls && Ready(s.shared, send)
    case Go(id) => id in s.calls && Ready(s.shared, s.calls[id].send)
  }

  function Step(s: State, a: Action): State
    requires Enabled(s, a)
  {
    match a
    case Begin(id, send) => s.(calls := s.calls[id := Call(send, Started)])
    case Go(id) =>
      var call := s.calls[id];
      var next := Advance(s.shared, call.send, call.at);
      State(next.0, s.calls[id := call.(at := next.1)])
  }

  predicate Allowed(s: State, actions: seq<Action>)
    decreases |actions|
  {
    actions == [] || (Enabled(s, actions[0]) && Allowed(Step(s, actions[0]), actions[1..]))
  }

  function Run(s: State, actions: seq<Action>): State
    requires Allowed(s, actions)
    decreases |actions|
  {
    if actions == [] then s else Run(Step(s, actions[0]), actions[1..])
  }

  /** After initrecords: fresh records, cleared caches, no call under way. */
  predicate Initial(s: State) {
    && Sized(s.shared) && s.shared.available == |s.shared.records| < INT_LIMIT && s.shared.warnings == 0 && s.calls == map[]
    && (forall i :: 0 <= i < CACHE_SIZE ==> s.shared.sums[i] == 0 && s.shared.signatures[i] == 0)
    && (forall i :: 0 <= i < |s.shared.records| ==> s.shared.records[i] == EMPTY)
  }

  // ---------- a call on its own ----------

  function Rank(at: Stage): nat {
    match at
    case Started => 5
    case Unseen => 4
    case Signed => 3
    case Counted => 2
    case Drew(_) => 1
    case _ => 0
  }

  /** The globals after the call has run to its end without interference. */
  function Complete(sh: Shared, send: Send, at: Stage): (r: Shared)
    requires Ready(sh, send)
    ensures Sized(r) && |r.records| == |sh.records|
    decreases Rank(at)
  {
    if Rank(at) == 0 then sh
    else
      var next := Advance(sh, send, at);
      Complete(next.0, send, next.1)
  }

  function Alone(id: int, n: nat): seq<Action> { if n == 0 then [] else [Go(id)] + Alone(id, n - 1) }

  lemma {:induction false} GoesOn(s: State, id: int, n: nat)
    requires id in s.calls && Ready(s.shared, s.calls[id].send) && Rank(s.calls[id].at) <= n
    ensures Allowed(s, Alone(id, n))
    ensures Run(s, Alone(id, n)).shared == Complete(s.shared, s.calls[id].send, s.calls[id].at)
    decreases n
  {
    if n > 0 {
      assert Alone(id, n)[0] == Go(id) && Alone(id, n)[1..] == Alone(id, n - 1);
      GoesOn(Step(s, Go(id)), id, n - 1);
    }
  }

  /** A call that is not interrupted is one of the interleavings. */
  lemma AloneIsARun(s: State, id: int, send: Send)
    requires id !in s.calls && Ready(s.shared, send)
    ensures Allowed(s, [Begin(id, send)] + Alone(id, 5))
    ensures Run(s, [Begin(id, send)] + Alone(id, 5)).shared == Complete(s.shared, send, Started)
  {
    var actions := [Begin(id, send)] + Alone(id, 5);
    assert actions[0] == Begin(id, send) && actions[1..] == Alone(id, 5);
    GoesOn(Step(s, actions[0]), id, 5);
  }
}
