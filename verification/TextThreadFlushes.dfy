/**
 * Flushes that run beside pushes (LunaHost/textthread.cpp). A flush takes the lock of the storage, of the queue
 * and of the buffer one after the other and calls the output callback with none of them, so pushes, and flushes
 * of further timer threads, come in between. Each step here holds one lock; a delivery is one call of the
 * callback with what it stores.
 */
module TextThreadFlushes {
  import opened TextThreadModel
  import opened TextThreadRuns

  /** Where a timer thread is: between flushes, with the storage trimmed, or with sentences to deliver. */
  datatype Flight = Idle | Trimmed | Carrying(todo: seq<string>)

  /** line records the order in which the flushes under way have swapped out the queue. */
  datatype State = State(thread: Thread, flights: seq<Flight>, line: seq<nat>)

  /** Queue is a sentence that AddSentence gets from elsewhere: a message for the console thread. */
  datatype Action =
    | Push(e: Event) | Queue(sentence: string)
    | Trim(f: nat) | Swap(f: nat) | Deliver(f: nat) | Close(f: nat, now: nat)

  predicate Enabled(s: State, a: Action) {
    match a
    case Push(e) => !e.Flush?
    case Queue(sentence) => true
    case Trim(f) => f < |s.flights| && s.flights[f].Idle?
    case Swap(f) => f < |s.flights| && s.flights[f].Trimmed?
    case Deliver(f) => f < |s.flights| && s.flights[f].Carrying? && s.flights[f].todo != []
    case Close(f, now) => f < |s.flights| && s.flights[f] == Carrying([])
  }

  function Without(line: seq<nat>, f: nat): (r: seq<nat>)
    ensures forall x :: x in r <==> x in line && x != f
  {
    if line == [] then []
    else
      var n := |line| - 1;
      assert line == line[..n] + [line[n]];
      Without(line[..n], f) + if line[n] == f then [] else [line[n]]
  }

  function Act(env: Env, s: State, a: Action): State
    requires Enabled(s, a)
  {
    var t := s.thread;
    match a
    case Push(e) => s.(thread := Step(env, t, e))
    case Queue(sentence) => s.(thread := t.(queued := t.queued + [sentence]))
    case Trim(f) => s.(thread := t.(storage := Last(t.storage, env.maxHistorySize)), flights := s.flights[f := Trimmed])
    case Swap(f) => State(t.(queued := []), s.flights[f := Carrying(t.queued)], s.line + [f])
    case Deliver(f) =>
      var todo := s.flights[f].todo;
      s.(thread := Delivered(env, t, todo[0]), flights := s.flights[f := Carrying(todo[1..])])
    case Close(f, now) => State(BufferFlushed(env, t, now), s.flights[f := Idle], Without(s.line, f))
  }

  predicate Allowed(env: Env, s: State, actions: seq<Action>)
    decreases |actions|
  {
    actions == [] || (Enabled(s, actions[0]) && Allowed(env, Act(env, s, actions[0]), actions[1..]))
  }

  function RunAll(env: Env, s: State, actions: seq<Action>): State
    requires Allowed(env, s, actions)
    decreases |actions|
  {
    if actions == [] then s else RunAll(env, Act(env, s, actions[0]), actions[1..])
  }

  // ---------- order ----------

  function Todo(f: Flight): seq<string> { if f.Carrying? then f.todo else [] }

  predicate Distinct(line: seq<nat>) { forall j, k :: 0 <= j < k < |line| ==> line[j] != line[k] }

  /** The line holds exactly the flushes with a swapped queue. */
  predicate LineOk(s: State) {
    && Distinct(s.line) && (forall k :: 0 <= k < |s.line| ==> s.line[k] < |s.flights| && s.flights[s.line[k]].Carrying?)
    && (forall f :: 0 <= f < |s.flights| && s.flights[f].Carrying? ==> f in s.line)
  }

  predicate InRange(line: seq<nat>, flights: seq<Flight>) { forall k :: 0 <= k < |line| ==> line[k] < |flights| }

  /** What the flushes carry, in the order of their swaps. */
  function LineText(line: seq<nat>, flights: seq<Flight>): string
    requires InRange(line, flights)
    decreases |line|
  {
    if line == [] then ""
    else
      var n := |line| - 1;
      LineText(line[..n], flights) + Flatten(Todo(flights[line[n]]))
  }

  /** All text of a thread with flushes under way, oldest first. */
  function AllText(s: State): string
    requires InRange(s.line, s.flights)
  {
    Flatten(s.thread.delivered) + LineText(s.line, s.flights) + Flatten(s.thread.queued) + s.thread.buffer
  }

  /** The flush has something to deliver, and every one that swapped before it has not. */
  predicate Oldest(s: State, f: nat)
    requires InRange(s.line, s.flights)
  {
    exists p :: 0 <= p < |s.line| && s.line[p] == f && forall q :: 0 <= q < p ==> Todo(s.flights[s.line[q]]) == []
  }

  /** A delivery is the oldest one, and a message comes when no text is in the buffer. */
  predicate Timely(s: State, a: Action) {
    match a
    case Deliver(f) => InRange(s.line, s.flights) && Oldest(s, f)
    case Queue(sentence) => s.thread.buffer == ""
    case _ => true
  }

  predicate AllTimely(env: Env, s: State, actions: seq<Action>)
    requires Allowed(env, s, actions)
    decreases |actions|
  {
    actions == [] || (Timely(s, actions[0]) && AllTimely(env, Act(env, s, actions[0]), actions[1..]))
  }

  function Brought(env: Env, s: State, a: Action): string {
    match a
    case Push(e) => Input(env, s.thread, e)
    case Queue(sentence) => sentence
    case _ => ""
  }

  function AllBrought(env: Env, s: State, actions: seq<Action>): string
    requires Allowed(env, s, actions)
    decreases |actions|
  {
    if actions == [] then ""
    else Brought(env, s, actions[0]) + AllBrought(env, Act(env, s, actions[0]), actions[1..])
  }

  // ---------- the line ----------

  lemma {:induction false} WithoutAbsent(line: seq<nat>, f: nat)
    requires f !in line
    ensures Without(line, f) == line
    decreases |line|
  {
    if line != [] {
      var n := |line| - 1;
      assert line == line[..n] + [line[n]];
      WithoutAbsent(line[..n], f);
    }
  }

  lemma {:induction false} WithoutDistinct(line: seq<nat>, f: nat)
    requires Distinct(line)
    ensures Distinct(Without(line, f))
    decreases |line|
  {
    if line != [] {
      var n := |line| - 1;
      WithoutDistinct(line[..n], f);
      assert line[n] !in line[..n];
    }
  }

  lemma CloseKeepsLine(env: Env, s: State, f: nat, now: nat)
    requires LineOk(s) && Enabled(s, Close(f, now))
    ensures LineOk(Act(env, s, Close(f, now)))
  {
    hide BufferFlushed;
    WithoutDistinct(s.line, f);
    var rest := Without(s.line, f);
    assert forall k :: 0 <= k < |rest| ==> rest[k] in rest && rest[k] in s.line && rest[k] != f;
  }

  lemma ActKeepsLine(env: Env, s: State, a: Action)
    requires LineOk(s) && Enabled(s, a)
    ensures LineOk(Act(env, s, a))
  {
    hide Step, Delivered, BufferFlushed, Last;
    if a.Close? {
      CloseKeepsLine(env, s, a.f, a.now);
    }
  }

  lemma {:induction false} LineOther(line: seq<nat>, flights: seq<Flight>, f: nat, to: Flight)
    requires InRange(line, flights) && f < |flights| && f !in line
    ensures LineText(line, flights[f := to]) == LineText(line, flights)
    decreases |line|
  {
    if line != [] {
      var n := |line| - 1;
      assert line == line[..n] + [line[n]];
      LineOther(line[..n], flights, f, to);
    }
  }

  lemma LineSwap(line: seq<nat>, flights: seq<Flight>, f: nat, q: seq<string>)
    requires InRange(line, flights) && f < |flights| && f !in line
    ensures LineText(line + [f], flights[f := Carrying(q)]) == LineText(line, flights) + Flatten(q)
  {
    assert (line + [f])[..|line|] == line;
    LineOther(line, flights, f, Carrying(q));
  }

  lemma {:induction false} LineEmpty(line: seq<nat>, flights: seq<Flight>)
    requires InRange(line, flights) && forall q :: 0 <= q < |line| ==> Todo(flights[line[q]]) == []
    ensures LineText(line, flights) == ""
    decreases |line|
  {
    if line != [] {
      LineEmpty(line[..|line| - 1], flights);
    }
  }

  lemma FlattenFirst(texts: seq<string>)
    requires texts != []
    ensures Flatten(texts) == texts[0] + Flatten(texts[1..])
  {
    assert texts == [texts[0]] + texts[1..];
    FlattenAppend([texts[0]], texts[1..]);
    FlattenOne([], texts[0]);
    assert [] + [texts[0]] == [texts[0]];
  }

  /** The first sentence of the oldest flush is the first of the line. */
  lemma {:induction false} LineDeliver(line: seq<nat>, flights: seq<Flight>, p: nat)
    requires InRange(line, flights) && Distinct(line) && p < |line| && Todo(flights[line[p]]) != []
    requires forall q :: 0 <= q < p ==> Todo(flights[line[q]]) == []
    ensures var todo := Todo(flights[line[p]]);
            LineText(line, flights) == todo[0] + LineText(line, flights[line[p] := Carrying(todo[1..])])
    decreases |line|
  {
    var n, f := |line| - 1, line[p];
    var todo := Todo(flights[f]);
    var later := flights[f := Carrying(todo[1..])];
    LineTextEnds(line, flights);
    LineTextEnds(line, later);
    if p == n {
      LineEmpty(line[..n], flights);
      LineOther(line[..n], flights, f, Carrying(todo[1..]));
      FlattenFirst(todo);
      assert Todo(later[f]) == todo[1..];
      hide *;
      AddsNothing(Flatten(todo));
      AddsNothing(Flatten(todo[1..]));
    } else {
      LineDeliver(line[..n], flights, p);
      assert later[line[n]] == flights[line[n]];
      hide *;
      Associate(todo[0], LineText(line[..n], later), Flatten(Todo(flights[line[n]])));
    }
  }

  lemma AddsNothing(s: string)
    ensures "" + s == s
  {
  }

  lemma Associate(a: string, b: string, c: string)
    ensures (a + b) + c == a + (b + c)
  {
  }

  lemma LineTextEnds(line: seq<nat>, flights: seq<Flight>)
    requires InRange(line, flights) && line != []
    ensures var n := |line| - 1; LineText(line, flights) == LineText(line[..n], flights) + Flatten(Todo(flights[line[n]]))
  {
  }

  lemma {:induction false} LineClose(line: seq<nat>, flights: seq<Flight>, f: nat)
    requires InRange(line, flights) && Distinct(line) && f < |flights| && Todo(flights[f]) == []
    ensures InRange(Without(line, f), flights[f := Idle])
    ensures LineText(Without(line, f), flights[f := Idle]) == LineText(line, flights)
    decreases |line|
  {
    if line != [] {
      var n := |line| - 1;
      var front := line[..n];
      if line[n] == f {
        assert f !in front;
        WithoutAbsent(front, f);
        LineOther(front, flights, f, Idle);
        assert Without(line, f) == front;
      } else {
        LineClose(front, flights, f);
        var w := Without(line, f);
        assert w[..|w| - 1] == Without(front, f) && w[|w| - 1] == line[n];
      }
    }
  }

  // ---------- every step keeps the text ----------

  lemma Regroup(a: string, b: string, c: string, d: string, more: string)
    ensures a + b + c + d == a + b + (c + d)
    ensures a + b + (c + d + more) == a + b + (c + d) + more
  {
  }

  lemma MoveOver(a: string, x: string, b: string, c: string, d: string)
    ensures (a + x) + b + c + d == a + (x + b) + c + d
  {
    assert (a + x) + b == a + (x + b);
  }

  /** What changes only behind the delivered and carried text. */
  lemma TailChanges(s: State, t: State, more: string)
    requires InRange(s.line, s.flights) && t.line == s.line && t.flights == s.flights && t.thread.delivered == s.thread.delivered
    requires Flatten(t.thread.queued) + t.thread.buffer == Flatten(s.thread.queued) + s.thread.buffer + more
    ensures AllText(t) == AllText(s) + more
  {
    hide Flatten, LineText;
    var d, carried := Flatten(s.thread.delivered), LineText(s.line, s.flights);
    Regroup(d, carried, Flatten(s.thread.queued), s.thread.buffer, more);
    Regroup(d, carried, Flatten(t.thread.queued), t.thread.buffer, "");
  }

  /** What a push does behind the delivered text. */
  lemma PushAppends(env: Env, s: Thread, e: Event)
    requires !env.filterRepetition && !e.Flush?
    ensures var t := Step(env, s, e);
            t.delivered == s.delivered && Flatten(t.queued) + t.buffer == Flatten(s.queued) + s.buffer + Input(env, s, e)
  {
    FlattenOne(s.queued, s.buffer + Input(env, s, e));
  }

  lemma QueueKeepsText(env: Env, s: State, sentence: string)
    requires LineOk(s) && s.thread.buffer == ""
    ensures AllText(Act(env, s, Queue(sentence))) == AllText(s) + sentence
  {
    FlattenOne(s.thread.queued, sentence);
    TailChanges(s, Act(env, s, Queue(sentence)), sentence);
  }

  lemma TrimKeepsText(env: Env, s: State, f: nat)
    requires LineOk(s) && Enabled(s, Trim(f))
    ensures LineOk(Act(env, s, Trim(f))) && AllText(Act(env, s, Trim(f))) == AllText(s)
  {
    LineOther(s.line, s.flights, f, Trimmed);
  }

  lemma LineFacts(s: State, f: nat)
    requires LineOk(s)
    ensures InRange(s.line, s.flights) && Distinct(s.line)
    ensures f < |s.flights| && !s.flights[f].Carrying? ==> f !in s.line
  {
  }

  lemma QueueToLine(a: string, b: string, c: string, d: string)
    ensures a + (b + c) + "" + d == a + b + c + d
  {
    assert a + (b + c) == a + b + c;
    assert a + (b + c) + "" == a + (b + c);
  }

  lemma SwapKeepsText(env: Env, s: State, f: nat)
    requires LineOk(s) && Enabled(s, Swap(f))
    ensures LineOk(Act(env, s, Swap(f))) && AllText(Act(env, s, Swap(f))) == AllText(s)
  {
    ActKeepsLine(env, s, Swap(f));
    LineFacts(s, f);
    LineFacts(Act(env, s, Swap(f)), f);
    hide LineOk, LineText;
    LineSwap(s.line, s.flights, f, s.thread.queued);
    assert Flatten([]) == "";
    hide Flatten;
    QueueToLine(Flatten(s.thread.delivered), LineText(s.line, s.flights), Flatten(s.thread.queued), s.thread.buffer);
  }

  lemma DeliverKeepsText(env: Env, s: State, f: nat)
    requires LineOk(s) && Enabled(s, Deliver(f)) && Oldest(s, f)
    ensures LineOk(Act(env, s, Deliver(f))) && AllText(Act(env, s, Deliver(f))) == AllText(s)
  {
    ActKeepsLine(env, s, Deliver(f));
    var todo, d := s.flights[f].todo, s.thread.delivered;
    var p :| 0 <= p < |s.line| && s.line[p] == f && forall q :: 0 <= q < p ==> Todo(s.flights[s.line[q]]) == [];
    LineDeliver(s.line, s.flights, p);
    FlattenOne(d, todo[0]);
    hide Flatten, LineText;
    var later := LineText(s.line, s.flights[f := Carrying(todo[1..])]);
    MoveOver(Flatten(d), todo[0], later, Flatten(s.thread.queued), s.thread.buffer);
  }

  lemma CloseAppends(env: Env, t: Thread, now: nat)
    ensures var u := BufferFlushed(env, t, now);
            u.delivered == t.delivered && Flatten(u.queued) + u.buffer == Flatten(t.queued) + t.buffer + ""
  {
    FlattenOne(t.queued, t.buffer);
  }

  lemma CloseKeepsText(env: Env, s: State, f: nat, now: nat)
    requires LineOk(s) && Enabled(s, Close(f, now))
    ensures LineOk(Act(env, s, Close(f, now))) && AllText(Act(env, s, Close(f, now))) == AllText(s)
  {
    ActKeepsLine(env, s, Close(f, now));
    LineFacts(s, f);
    hide LineOk, LineText, Flatten, BufferFlushed;
    LineClose(s.line, s.flights, f);
    CloseAppends(env, s.thread, now);
    TailChanges(State(s.thread, s.flights[f := Idle], Without(s.line, f)), Act(env, s, Close(f, now)), "");
  }

  lemma ActKeepsText(env: Env, s: State, a: Action)
    requires LineOk(s) && !env.filterRepetition && Enabled(s, a) && Timely(s, a)
    ensures LineOk(Act(env, s, a)) && AllText(Act(env, s, a)) == AllText(s) + Brought(env, s, a)
  {
    match a
    case Push(e) =>
      PushAppends(env, s.thread, e);
      TailChanges(s, Act(env, s, a), Input(env, s.thread, e));
    case Queue(sentence) => QueueKeepsText(env, s, sentence);
    case Trim(f) => TrimKeepsText(env, s, f);
    case Swap(f) => SwapKeepsText(env, s, f);
    case Deliver(f) => DeliverKeepsText(env, s, f);
    case Close(f, now) => CloseKeepsText(env, s, f, now);
  }

  /**
   * With any number of flushes, as long as each delivery is the oldest one, delivered, carried, queued and
   * buffered text together are the input in order.
   */
  lemma {:induction false} InterleavedKeepsText(env: Env, s: State, actions: seq<Action>)
    requires LineOk(s) && !env.filterRepetition && Allowed(env, s, actions) && AllTimely(env, s, actions)
    ensures LineOk(RunAll(env, s, actions))
    ensures AllText(RunAll(env, s, actions)) == AllText(s) + AllBrought(env, s, actions)
    decreases |actions|
  {
    if actions != [] {
      hide LineText, Flatten, Brought, Enabled, Timely, Act, LineOk, AllText;
      var t, rest := Act(env, s, actions[0]), actions[1..];
      ActKeepsText(env, s, actions[0]);
      InterleavedKeepsText(env, t, rest);
      Chain(AllText(s), Brought(env, s, actions[0]), AllBrought(env, t, rest));
    }
  }

  lemma Chain(a: string, b: string, c: string)
    ensures (a + b) + c == a + (b + c)
  {
  }

  predicate NoMessages(actions: seq<Action>) { forall i :: 0 <= i < |actions| ==> !actions[i].Queue? }

  /** With one timer thread every delivery is the oldest. */
  lemma {:induction false} OneIsTimely(env: Env, s: State, actions: seq<Action>)
    requires LineOk(s) && |s.flights| == 1 && Allowed(env, s, actions) && NoMessages(actions)
    ensures AllTimely(env, s, actions)
    decreases |actions|
  {
    if actions != [] {
      var a := actions[0];
      assert !a.Queue?;
      if a.Deliver? {
        assert 0 in s.line;
        assert s.line[0] == 0;
      }
      ActKeepsLine(env, s, a);
      OneIsTimely(env, Act(env, s, a), actions[1..]);
    }
  }

  // ---------- any number of timer threads: no sentence is lost or doubled ----------

  function Carried(flights: seq<Flight>): multiset<string> {
    if flights == [] then multiset{} else Carried(flights[..|flights| - 1]) + multiset(Todo(flights[|flights| - 1]))
  }

  function Sentences(s: State): multiset<string> {
    multiset(s.thread.delivered) + Carried(s.flights) + multiset(s.thread.queued)
  }

  /** What the action puts into the queue. */
  function Queues(env: Env, s: State, a: Action): seq<string>
    requires Enabled(s, a)
  {
    var now := Act(env, s, a).thread.queued;
    if (a.Push? || a.Queue? || a.Close?) && |s.thread.queued| <= |now| then now[|s.thread.queued|..] else []
  }

  function AllQueues(env: Env, s: State, actions: seq<Action>): seq<string>
    requires Allowed(env, s, actions)
    decreases |actions|
  {
    if actions == [] then []
    else Queues(env, s, actions[0]) + AllQueues(env, Act(env, s, actions[0]), actions[1..])
  }

  lemma AddToBoth(a: multiset<string>, x: multiset<string>, b: multiset<string>, y: multiset<string>, z: multiset<string>)
    requires a + x == b + y
    ensures (a + z) + x == (b + z) + y
  {
    assert (a + z) + x == (a + x) + z;
    assert (b + z) + y == (b + y) + z;
  }

  lemma {:induction false} CarriedUpdate(flights: seq<Flight>, f: nat, to: Flight)
    requires f < |flights|
    ensures Carried(flights[f := to]) + multiset(Todo(flights[f])) == Carried(flights) + multiset(Todo(to))
    decreases |flights|
  {
    hide Todo;
    var n, after := |flights| - 1, flights[f := to];
    var x, y := multiset(Todo(flights[f])), multiset(Todo(to));
    if f == n {
      assert after[..n] == flights[..n];
      assert Carried(after) == Carried(flights[..n]) + y;
    } else {
      assert after[..n] == flights[..n][f := to];
      CarriedUpdate(flights[..n], f, to);
      AddToBoth(Carried(after[..n]), x, Carried(flights[..n]), y, multiset(Todo(flights[n])));
    }
  }

  lemma Cancel(a: multiset<string>, b: multiset<string>, z: multiset<string>)
    requires a + z == b + z
    ensures a == b
  {
    forall e: string
      ensures a[e] == b[e]
    {
      assert (a + z)[e] == (b + z)[e];
    }
  }

  lemma CarriedSame(flights: seq<Flight>, f: nat, to: Flight)
    requires f < |flights| && Todo(to) == Todo(flights[f])
    ensures Carried(flights[f := to]) == Carried(flights)
  {
    CarriedUpdate(flights, f, to);
    Cancel(Carried(flights[f := to]), Carried(flights), multiset(Todo(to)));
  }

  lemma PushQueues(env: Env, s: Thread, e: Event)
    requires !e.Flush?
    ensures var t := Step(env, s, e);
            t.delivered == s.delivered && |s.queued| <= |t.queued| && t.queued[..|s.queued|] == s.queued
  {
  }

  lemma QueueGrows(s: State, t: State, more: seq<string>)
    requires t.flights == s.flights && t.thread.delivered == s.thread.delivered && t.thread.queued == s.thread.queued + more
    ensures Sentences(t) == Sentences(s) + multiset(more)
  {
  }

  lemma PushKeepsSentences(env: Env, s: State, e: Event)
    requires Enabled(s, Push(e))
    ensures Sentences(Act(env, s, Push(e))) == Sentences(s) + multiset(Queues(env, s, Push(e)))
  {
    PushQueues(env, s.thread, e);
    hide Step, Carried;
    var t, more := Act(env, s, Push(e)), Queues(env, s, Push(e));
    assert t.thread.queued == s.thread.queued + more;
    hide Act, Queues, Sentences;
    QueueGrows(s, t, more);
  }

  lemma QueueKeepsSentences(env: Env, s: State, sentence: string)
    ensures Sentences(Act(env, s, Queue(sentence))) == Sentences(s) + multiset(Queues(env, s, Queue(sentence)))
  {
    hide Carried, Sentences;
    var t := Act(env, s, Queue(sentence));
    assert t.thread.queued[|s.thread.queued|..] == [sentence];
    QueueGrows(s, t, [sentence]);
  }

  lemma SwapKeepsSentences(env: Env, s: State, f: nat)
    requires Enabled(s, Swap(f))
    ensures Sentences(Act(env, s, Swap(f))) == Sentences(s)
  {
    hide Carried;
    var q := s.thread.queued;
    CarriedUpdate(s.flights, f, Carrying(q));
    assert multiset(Todo(s.flights[f])) == multiset{};
    var d, c := multiset(s.thread.delivered), Carried(s.flights);
    assert Carried(s.flights[f := Carrying(q)]) == c + multiset(q);
    assert Sentences(Act(env, s, Swap(f))) == d + (c + multiset(q)) + multiset([]);
    assert d + (c + multiset(q)) == d + c + multiset(q);
  }

  lemma DeliverKeepsSentences(env: Env, s: State, f: nat)
    requires Enabled(s, Deliver(f))
    ensures Sentences(Act(env, s, Deliver(f))) == Sentences(s)
  {
    hide Carried;
    var todo := s.flights[f].todo;
    var first, rest := multiset{todo[0]}, multiset(todo[1..]);
    assert todo == [todo[0]] + todo[1..];
    assert multiset(todo) == first + rest;
    CarriedUpdate(s.flights, f, Carrying(todo[1..]));
    var a, b := Carried(s.flights[f := Carrying(todo[1..])]), Carried(s.flights);
    assert a + first == b by {
      assert a + (first + rest) == b + rest;
      assert (a + first) + rest == a + (first + rest);
      Cancel(a + first, b, rest);
    }
    assert multiset(s.thread.delivered + [todo[0]]) == multiset(s.thread.delivered) + first;
  }

  lemma CloseKeepsSentences(env: Env, s: State, f: nat, now: nat)
    requires Enabled(s, Close(f, now))
    ensures Sentences(Act(env, s, Close(f, now))) == Sentences(s) + multiset(Queues(env, s, Close(f, now)))
  {
    hide Carried;
    CarriedSame(s.flights, f, Idle);
    var more := Queues(env, s, Close(f, now));
    assert BufferFlushed(env, s.thread, now).queued == s.thread.queued + more;
  }

  lemma ActKeepsSentences(env: Env, s: State, a: Action)
    requires Enabled(s, a)
    ensures Sentences(Act(env, s, a)) == Sentences(s) + multiset(Queues(env, s, a))
  {
    match a
    case Push(e) => PushKeepsSentences(env, s, e);
    case Queue(sentence) => QueueKeepsSentences(env, s, sentence);
    case Trim(f) => CarriedSame(s.flights, f, Trimmed);
    case Swap(f) => SwapKeepsSentences(env, s, f);
    case Deliver(f) => DeliverKeepsSentences(env, s, f);
    case Close(f, now) => CloseKeepsSentences(env, s, f, now);
  }

  /** Every sentence that is queued is delivered, being delivered or queued, as often as it was queued. */
  lemma {:induction false} InterleavedKeepsSentences(env: Env, s: State, actions: seq<Action>)
    requires Allowed(env, s, actions)
    ensures Sentences(RunAll(env, s, actions)) == Sentences(s) + multiset(AllQueues(env, s, actions))
    decreases |actions|
  {
    if actions != [] {
      ActKeepsSentences(env, s, actions[0]);
      InterleavedKeepsSentences(env, Act(env, s, actions[0]), actions[1..]);
    }
  }

  lemma RunOne(env: Env, s: State, a: Action, rest: seq<Action>)
    requires Enabled(s, a) && Allowed(env, Act(env, s, a), rest)
    ensures Allowed(env, s, [a] + rest) && RunAll(env, s, [a] + rest) == RunAll(env, Act(env, s, a), rest)
  {
    assert ([a] + rest)[1..] == rest;
  }

  /** The timer threads of a fresh text thread. */
  const TWO_IDLE := State(FRESH, [Idle, Idle], [])

  /** A sentence each is swapped out by two flushes, and the second delivers first. */
  const OVERLAP: (string, string) -> seq<Action> := (a: string, b: string) =>
    [Queue(a)] + ([Trim(0)] + ([Swap(0)] + ([Queue(b)] + ([Trim(1)] + ([Swap(1)] + ([Deliver(1)] + ([Deliver(0)] + [])))))))

  /** Two overlapping flushes of a fresh thread deliver the later sentence first. */
  lemma OverlapReorders(env: Env, a: string, b: string)
    ensures Allowed(env, TWO_IDLE, OVERLAP(a, b))
    ensures RunAll(env, TWO_IDLE, OVERLAP(a, b)).thread.delivered == [b, a]
  {
    hide Last, Delivered;
    var s1 := Act(env, TWO_IDLE, Queue(a));
    var s2 := Act(env, s1, Trim(0));
    var s3 := Act(env, s2, Swap(0));
    var s4 := Act(env, s3, Queue(b));
    var s5 := Act(env, s4, Trim(1));
    var s6 := Act(env, s5, Swap(1));
    assert s6.flights[0] == Carrying([a]) && s6.flights[1] == Carrying([b]) && s6.thread.delivered == [];
    DeliversBoth(env, s6, a, b);
    RunOne(env, s5, Swap(1), [Deliver(1)] + ([Deliver(0)] + []));
    RunOne(env, s4, Trim(1), [Swap(1)] + ([Deliver(1)] + ([Deliver(0)] + [])));
    RunOne(env, s3, Queue(b), [Trim(1)] + ([Swap(1)] + ([Deliver(1)] + ([Deliver(0)] + []))));
    RunOne(env, s2, Swap(0), [Queue(b)] + ([Trim(1)] + ([Swap(1)] + ([Deliver(1)] + ([Deliver(0)] + [])))));
    RunOne(env, s1, Trim(0), [Swap(0)] + ([Queue(b)] + ([Trim(1)] + ([Swap(1)] + ([Deliver(1)] + ([Deliver(0)] + []))))));
    RunOne(env, TWO_IDLE, Queue(a),
           [Trim(0)] + ([Swap(0)] + ([Queue(b)] + ([Trim(1)] + ([Swap(1)] + ([Deliver(1)] + ([Deliver(0)] + [])))))));
  }

  lemma DeliversBoth(env: Env, s: State, a: string, b: string)
    requires |s.flights| == 2 && s.flights[0] == Carrying([a]) && s.flights[1] == Carrying([b]) && s.thread.delivered == []
    ensures var actions := [Deliver(1)] + ([Deliver(0)] + []);
            Allowed(env, s, actions) && RunAll(env, s, actions).thread.delivered == [b, a]
  {
    var s1 := Act(env, s, Deliver(1));
    RunOne(env, s1, Deliver(0), []);
    RunOne(env, s, Deliver(1), [Deliver(0)] + []);
  }

  // ---------- the stored history ----------

  /** The storage stays the end of the accepted text, and a trim makes it exactly the last characters. */
  lemma {:induction false} InterleavedKeepsHistory(env: Env, s: State, actions: seq<Action>)
    requires Allowed(env, s, actions) && HistoryKept(env, s.thread)
    ensures var t := RunAll(env, s, actions).thread;
            HistoryKept(env, t) && Last(t.storage, env.maxHistorySize) == Last(t.history, env.maxHistorySize)
    decreases |actions|
  {
    if actions == [] {
      TrimIsExact(env, s.thread);
    } else {
      ActKeepsHistory(env, s, actions[0]);
      InterleavedKeepsHistory(env, Act(env, s, actions[0]), actions[1..]);
    }
  }

  lemma ActKeepsHistory(env: Env, s: State, a: Action)
    requires Enabled(s, a) && HistoryKept(env, s.thread)
    ensures HistoryKept(env, Act(env, s, a).thread)
  {
    match a
    case Push(e) => StepKeepsHistory(env, s.thread, e);
    case Queue(sentence) =>
    case Trim(f) =>
    case Swap(f) =>
    case Deliver(f) => DeliveryKeepsHistory(env, s.thread, s.flights[f].todo[0]);
    case Close(f, now) =>
  }

  // ---------- a flush without interference ----------

  function Delivers(n: nat): seq<Action> { if n == 0 then [] else [Deliver(0)] + Delivers(n - 1) }

  lemma {:induction false} RunTwo(env: Env, s: State, a: seq<Action>, b: seq<Action>)
    requires Allowed(env, s, a) && Allowed(env, RunAll(env, s, a), b)
    ensures Allowed(env, s, a + b) && RunAll(env, s, a + b) == RunAll(env, RunAll(env, s, a), b)
    decreases |a|
  {
    if a == [] {
      assert a + b == b;
    } else {
      assert (a + b)[0] == a[0] && (a + b)[1..] == a[1..] + b;
      RunTwo(env, Act(env, s, a[0]), a[1..], b);
    }
  }

  lemma {:induction false} DeliveredFirst(env: Env, s: Thread, sentences: seq<string>)
    requires sentences != []
    ensures DeliveredAll(env, s, sentences) == DeliveredAll(env, Delivered(env, s, sentences[0]), sentences[1..])
    decreases |sentences|
  {
    var n := |sentences| - 1;
    if n > 0 {
      DeliveredFirst(env, s, sentences[..n]);
      assert sentences[..n][1..] == sentences[1..][..n - 1];
    }
  }

  lemma {:induction false} DeliversRun(env: Env, t: Thread, todo: seq<string>)
    ensures Allowed(env, State(t, [Carrying(todo)], [0]), Delivers(|todo|))
    ensures RunAll(env, State(t, [Carrying(todo)], [0]), Delivers(|todo|))
         == State(DeliveredAll(env, t, todo), [Carrying([])], [0])
    decreases |todo|
  {
    if todo != [] {
      var rest := Delivers(|todo| - 1);
      assert ([Deliver(0)] + rest)[1..] == rest;
      DeliveredFirst(env, t, todo);
      assert [Carrying(todo)][0 := Carrying(todo[1..])] == [Carrying(todo[1..])];
      DeliversRun(env, Delivered(env, t, todo[0]), todo[1..]);
    }
  }

  /** A flush that nothing comes between is a run of its steps. */
  lemma FlushIsARun(env: Env, t: Thread, now: nat)
    ensures var actions := [Trim(0), Swap(0)] + Delivers(|t.queued|) + [Close(0, now)];
            var s := State(t, [Idle], []);
            Allowed(env, s, actions) && RunAll(env, s, actions) == State(Flushed(env, t, now), [Idle], [])
  {
    var s, trimmed := State(t, [Idle], []), t.(storage := Last(t.storage, env.maxHistorySize));
    var start := [Trim(0), Swap(0)];
    assert start[1..] == [Swap(0)] && start[1..][1..] == [];
    assert s.flights[0 := Trimmed] == [Trimmed] && [Trimmed][0 := Carrying(t.queued)] == [Carrying(t.queued)];
    var carrying := State(trimmed.(queued := []), [Carrying(t.queued)], [0]);
    assert RunAll(env, s, start) == carrying;
    DeliversRun(env, carrying.thread, t.queued);
    RunTwo(env, s, start, Delivers(|t.queued|));
    var close := [Close(0, now)];
    assert close[1..] == [] && [Carrying([])][0 := Idle] == [Idle] && Without([0], 0) == [];
    RunTwo(env, s, start + Delivers(|t.queued|), close);
  }
}
