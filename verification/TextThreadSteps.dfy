/** What a push adds, when a flush queues the buffer, and what the output callback is given. */
module TextThreadSteps {
  import opened MachineTypes
  import opened TextThreadModel
  import opened TextThreadRuns

  // ---------- what a push adds ----------

  /** The converted bytes stand behind the text, and a full-string hook's longer texts end their line. */
  predicate Adds(env: Env, t: TextType, bytes: seq<byte>, before: string, after: string) {
    match env.decode(t.codec, bytes)
    case None => after == before
    case Some(text) => after == before + text + if t.fullString && |text| > 1 then "\n" else ""
  }

  /** One byte may wait as a lead byte, and takes the next one with it. */
  lemma PushAppends(env: Env, s: Thread, t: TextType, data: seq<byte>, now: nat)
    requires !env.filterRepetition
    ensures var r := PushedBytes(env, s, t, data, now);
            var flushed := env.flushDelay == 0 && t.fullString;
            var text := if flushed && r.queued != [] then r.queued[|r.queued| - 1] else r.buffer;
            && r == s.(buffer := if flushed then "" else text, queued := if flushed then s.queued + [text] else s.queued,
                       leadByte := r.leadByte, lastPushTime := now)
            && (if |data| != 1 then Adds(env, t, data, s.buffer, text) && r.leadByte == s.leadByte
                else if s.leadByte != 0 then Adds(env, t, [s.leadByte] + data, s.buffer, text) && r.leadByte == 0
                else if env.isLead(t.codec, data[0]) then Adds(env, t, [], s.buffer, text) && r.leadByte == data[0]
                else Adds(env, t, data, s.buffer, text) && r.leadByte == 0)
  {
    if |data| == 1 {
      assert data == [data[0]];
      assert [s.leadByte] + data == [s.leadByte, data[0]];
    }
    assert s.buffer + "" == s.buffer;
  }

  /** The texts that the tokens are converted to; those that cannot be converted drop out. */
  function Conversions(env: Env, codec: nat, tokens: seq<seq<byte>>): seq<string>
    decreases |tokens|
  {
    if tokens == [] then []
    else
      var n := |tokens| - 1;
      Conversions(env, codec, tokens[..n])
      + match env.decode(codec, tokens[n]) case None => [] case Some(text) => [text]
  }

  /** Of a full-string hook, each text of more than one character makes a line. */
  function Lines(texts: seq<string>): (r: seq<string>)
    ensures |r| == |texts|
    ensures forall i :: 0 <= i < |r| ==> r[i] == if |texts[i]| > 1 then texts[i] + "\n" else texts[i]
  {
    seq(|texts|, i requires 0 <= i < |texts| => if |texts[i]| > 1 then texts[i] + "\n" else texts[i])
  }

  lemma {:induction false} DecodeAllAppend(env: Env, t: TextType, a: seq<seq<byte>>, b: seq<byte>)
    ensures DecodeAll(env, t, a + [b]) == DecodeAll(env, t, a) + Appended(env, t, b)
    decreases |a|
  {
    hide Appended;
    if a == [] {
      assert ([] + [b])[1..] == [];
    } else {
      assert (a + [b])[1..] == a[1..] + [b] && (a + [b])[0] == a[0];
      DecodeAllAppend(env, t, a[1..], b);
    }
  }

  lemma {:induction false} TokensAreConverted(env: Env, t: TextType, tokens: seq<seq<byte>>)
    ensures var texts := Conversions(env, t.codec, tokens);
            DecodeAll(env, t, tokens) == Flatten(if t.fullString then Lines(texts) else texts)
    decreases |tokens|
  {
    if tokens != [] {
      var n := |tokens| - 1;
      var before, b := Conversions(env, t.codec, tokens[..n]), tokens[n];
      assert tokens[..n] + [b] == tokens;
      DecodeAllAppend(env, t, tokens[..n], b);
      TokensAreConverted(env, t, tokens[..n]);
      match env.decode(t.codec, b)
      case None => assert before + [] == before;
      case Some(text) =>
        var line := if t.fullString && |text| > 1 then text + "\n" else text;
        assert Lines(before + [text]) == Lines(before) + [if |text| > 1 then text + "\n" else text];
        FlattenOne(if t.fullString then Lines(before) else before, line);
    }
  }

  /**
   * Bytes pushed one at a time, with flushes in between: the text handed on grows by what the converter gives
   * for the tokens of the stream, in order.
   */
  lemma BytesAreConverted(env: Env, s: Thread, t: TextType, events: seq<Event>)
    requires !env.filterRepetition && SingleBytes(events, t)
    requires env.decode(t.codec, []) == None || env.decode(t.codec, []) == Some("")
    ensures var texts := Conversions(env, t.codec, Tokenize(env, t.codec, s.leadByte, BytesOf(events)).done);
            Total(Run(env, s, events)) == Total(s) + Flatten(if t.fullString then Lines(texts) else texts)
  {
    assert Appended(env, t, []) == "";
    BytesAreTokenized(env, s, t, events);
    TokensAreConverted(env, t, Tokenize(env, t.codec, s.leadByte, BytesOf(events)).done);
  }

  // ---------- what the repetition filter does ----------

  /**
   * Text of known characters only is dropped. Other text that ends in three equal blocks is taken for a sentence
   * received more than once: one block is queued, and its characters become the known ones.
   */
  lemma FilterIs(s: Thread) returns (v: string)
    ensures var r := Filtered(s);
            var kept := if forall c :: c in s.buffer ==> c in s.repeatingChars then "" else s.buffer;
            if NoTripledSuffix(kept) then r == s.(buffer := kept)
            else && |v| > 6 && EndsIn(kept, v + v + v) && NoTripledSuffix(v)
                 && r == s.(queued := s.queued + [v], buffer := "", repeatingChars := r.repeatingChars)
                 && forall c :: c in r.repeatingChars <==> c in v
  {
    var kept := if AllIn(s.buffer, s.repeatingChars) then "" else s.buffer;
    assert AllIn(s.buffer, s.repeatingChars) <==> forall c :: c in s.buffer ==> c in s.repeatingChars;
    v := Collapsed(kept);
    CollapsedIs(kept);
    RepeatsIffTripled(kept);
    hide TripledSuffix, LongestTriple, Collapsed, EndsIn;
    assert forall c :: c in CharsOf(v) <==> c in v;
  }

  /** Bytes pushed with the filter on and nothing queued at once. */
  predicate Filtering(env: Env, events: seq<Event>) {
    env.filterRepetition
    && forall i :: 0 <= i < |events| ==> events[i].PushBytes? && (env.flushDelay == 0 ==> !events[i].t.fullString)
  }

  /** Until a character comes that the sentence did not have, its repetitions are swallowed. */
  lemma {:induction false} RepetitionIsSwallowed(env: Env, s: Thread, events: seq<Event>)
    requires Filtering(env, events) && s.buffer == ""
    requires forall c :: c in AllInput(env, s, events) ==> c in s.repeatingChars
    ensures var r := Run(env, s, events); r.buffer == "" && r.queued == s.queued && r.repeatingChars == s.repeatingChars
    decreases |events|
  {
    if events != [] {
      var e := events[0];
      var next, input := Step(env, s, e), Input(env, s, e);
      assert AllInput(env, s, events) == input + AllInput(env, next, events[1..]);
      assert forall c :: c in input ==> c in AllInput(env, s, events);
      PushIsSwallowed(env, s, e);
      assert forall i :: 0 <= i < |events[1..]| ==> events[1..][i] == events[i + 1];
      RepetitionIsSwallowed(env, next, events[1..]);
    }
  }

  lemma PushIsSwallowed(env: Env, s: Thread, e: Event)
    requires env.filterRepetition && e.PushBytes? && (env.flushDelay == 0 ==> !e.t.fullString) && s.buffer == ""
    requires forall c :: c in Input(env, s, e) ==> c in s.repeatingChars
    ensures var r := Step(env, s, e); r.buffer == "" && r.queued == s.queued && r.repeatingChars == s.repeatingChars
  {
    var s1 := s.(leadByte := LeadAfter(env, s.leadByte, e.t, e.data), buffer := s.buffer + Input(env, s, e), lastPushTime := e.now);
    assert s1.buffer == Input(env, s, e);
    var v := FilterIs(s1);
    assert NoTripledSuffix("");
    hide NoTripledSuffix, Filtered;
    assert Step(env, s, e) == Filtered(s1);
  }

  // ---------- when a flush queues the buffer ----------

  /** Not yet to be queued: short enough, and the last push not long enough ago. */
  predicate Rests(env: Env, s: Thread, now: nat) {
    |s.buffer| <= env.maxBufferSize && now - s.lastPushTime <= env.flushDelay
  }

  /** A flush delivers the queue, and moves the buffer to it if and only if it holds text that does not rest. */
  lemma FlushMovesBuffer(env: Env, s: Thread, now: nat)
    requires s.lastPushTime <= now < CLOCK
    ensures var r := Flushed(env, s, now);
            && r.delivered == s.delivered + s.queued && r.lastPushTime == s.lastPushTime
            && (if s.buffer != "" && !Rests(env, s, now) then r.queued == [s.buffer] && r.buffer == ""
                else r.queued == [] && r.buffer == s.buffer)
  {
    DeliveredAllIs(env, s.(storage := Last(s.storage, env.maxHistorySize), queued := []), s.queued);
    assert [] + [s.buffer] == [s.buffer];
  }

  lemma RunAppend(env: Env, s: Thread, a: seq<Event>, b: seq<Event>)
    ensures Run(env, s, a + b) == Run(env, Run(env, s, a), b)
    decreases |a|
  {
    hide Step;
    if a == [] {
      assert a + b == b;
    } else {
      assert (a + b)[1..] == a[1..] + b && (a + b)[0] == a[0];
      RunAppend(env, Step(env, s, a[0]), a[1..], b);
    }
  }

  lemma RunOne(env: Env, s: Thread, e: Event)
    ensures Run(env, s, [e]) == Step(env, s, e)
  {
    hide Step;
    assert [e][1..] == [];
  }

  /** In every run, a flush leaves no text that does not rest. */
  lemma FlushLeavesRestingText(env: Env, s: Thread, events: seq<Event>, now: nat)
    requires Run(env, s, events).lastPushTime <= now < CLOCK
    ensures var r := Run(env, s, events + [Flush(now)]); r.buffer == "" || Rests(env, r, now)
  {
    RunAppend(env, s, events, [Flush(now)]);
    RunOne(env, Run(env, s, events), Flush(now));
    FlushMovesBuffer(env, Run(env, s, events), now);
  }

  predicate AllFlushes(events: seq<Event>) { forall i :: 0 <= i < |events| ==> events[i].Flush? }

  /** Flushes that find the text resting leave it alone. */
  lemma {:induction false} RestingTextStays(env: Env, s: Thread, events: seq<Event>)
    requires AllFlushes(events)
    requires forall i :: 0 <= i < |events| ==> s.lastPushTime <= events[i].now < CLOCK && Rests(env, s, events[i].now)
    ensures var r := Run(env, s, events);
            r.buffer == s.buffer && r.lastPushTime == s.lastPushTime && r.delivered + r.queued == s.delivered + s.queued
    decreases |events|
  {
    if events != [] {
      var e := events[0];
      assert e.Flush? && Rests(env, s, e.now);
      FlushMovesBuffer(env, s, e.now);
      var next := Step(env, s, e);
      forall i | 0 <= i < |events[1..]|
        ensures next.lastPushTime <= events[1..][i].now < CLOCK && Rests(env, next, events[1..][i].now)
      {
        assert events[1..][i] == events[i + 1];
      }
      RestingTextStays(env, next, events[1..]);
      assert next.delivered + next.queued == s.delivered + s.queued;
    }
  }

  /**
   * Text that is left alone stays through the flushes that find it resting, is queued by the first one that
   * does not, and delivered by the next one, behind all that was queued before it.
   */
  lemma QuietTextIsDelivered(env: Env, s: Thread, events: seq<Event>, queuing: nat, delivering: nat)
    requires s.buffer != "" && AllFlushes(events)
    requires forall i :: 0 <= i < |events| ==> s.lastPushTime <= events[i].now < CLOCK && Rests(env, s, events[i].now)
    requires s.lastPushTime <= queuing < CLOCK && !Rests(env, s, queuing)
    ensures var r := Run(env, s, events + [Flush(queuing)]);
            r.queued == [s.buffer] && r.buffer == "" && r.delivered == s.delivered + s.queued
    ensures var r := Run(env, s, events + [Flush(queuing)] + [Flush(delivering)]);
            r.queued == [] && r.buffer == "" && r.delivered == s.delivered + s.queued + [s.buffer]
  {
    var u := Run(env, s, events);
    RestingTextStays(env, s, events);
    RunAppend(env, s, events, [Flush(queuing)]);
    RunOne(env, u, Flush(queuing));
    FlushMovesBuffer(env, u, queuing);
    var v := Run(env, s, events + [Flush(queuing)]);
    RunAppend(env, s, events + [Flush(queuing)], [Flush(delivering)]);
    RunOne(env, v, Flush(delivering));
    DeliveredAllIs(env, v.(storage := Last(v.storage, env.maxHistorySize), queued := []), v.queued);
  }

  /** Text pushed at some time is queued by the first flush more than flushDelay later, and delivered by the next. */
  lemma PushedTextIsDelivered(env: Env, s: Thread, e: Event, queuing: nat, delivering: nat)
    requires !e.Flush? && Step(env, s, e).buffer != ""
    requires e.now <= queuing < CLOCK && queuing - e.now > env.flushDelay
    ensures var r := Run(env, Step(env, s, e), [Flush(queuing)] + [Flush(delivering)]);
            var t := Step(env, s, e);
            r.queued == [] && r.buffer == "" && r.delivered == s.delivered + t.queued + [t.buffer]
  {
    var t := Step(env, s, e);
    assert t.delivered == s.delivered && t.lastPushTime == e.now;
    assert [] + [Flush(queuing)] == [Flush(queuing)];
    QuietTextIsDelivered(env, t, [], queuing, delivering);
  }

  // ---------- what the callback is given ----------

  /** Leaving out NUL takes every text apart and puts it together again without them. */
  lemma {:induction false} NulsAreLeftOut(a: string, b: string)
    ensures '\0' !in WithoutNul(a)
    ensures WithoutNul(a + b) == WithoutNul(a) + WithoutNul(b)
    ensures '\0' !in a ==> WithoutNul(a) == a
  {
    if a == "" {
      assert a + b == b;
    } else {
      assert (a + b)[1..] == a[1..] + b && (a + b)[0] == a[0];
      NulsAreLeftOut(a[1..], b);
      assert [a[0]] + a[1..] == a;
      var first := WithoutNul(a[1..]);
      assert ([a[0]] + first) + WithoutNul(b) == [a[0]] + (first + WithoutNul(b));
    }
  }

  /** What the callback kept of the sentences it was given one after another, each with a line break. */
  function Accepted(env: Env, delivered: seq<string>): string
    decreases |delivered|
  {
    if delivered == [] then ""
    else
      var n := |delivered| - 1;
      var reply := env.output(n, WithoutNul(delivered[n]));
      Accepted(env, delivered[..n]) + if reply.keep then reply.text + "\n" else ""
  }

  lemma DeliveryIsAccepted(env: Env, s: Thread, sentence: string)
    requires s.history == Accepted(env, s.delivered)
    ensures Delivered(env, s, sentence).history == Accepted(env, s.delivered + [sentence])
  {
    assert (s.delivered + [sentence])[..|s.delivered|] == s.delivered;
  }

  lemma {:induction false} DeliveriesAreAccepted(env: Env, s: Thread, sentences: seq<string>)
    requires s.history == Accepted(env, s.delivered)
    ensures var r := DeliveredAll(env, s, sentences); r.history == Accepted(env, r.delivered)
    decreases |sentences|
  {
    if sentences != [] {
      var n := |sentences| - 1;
      DeliveriesAreAccepted(env, s, sentences[..n]);
      DeliveryIsAccepted(env, DeliveredAll(env, s, sentences[..n]), sentences[n]);
    }
  }

  /** In every run the history is what the callback accepted, call by call. */
  lemma {:induction false} HistoryIsAccepted(env: Env, s: Thread, events: seq<Event>)
    requires s.history == Accepted(env, s.delivered)
    ensures var r := Run(env, s, events); r.history == Accepted(env, r.delivered)
    decreases |events|
  {
    if events != [] {
      StepIsAccepted(env, s, events[0]);
      HistoryIsAccepted(env, Step(env, s, events[0]), events[1..]);
    }
  }

  lemma StepIsAccepted(env: Env, s: Thread, e: Event)
    requires s.history == Accepted(env, s.delivered)
    ensures var r := Step(env, s, e); r.history == Accepted(env, r.delivered)
  {
    if e.Flush? {
      DeliveriesAreAccepted(env, s.(storage := Last(s.storage, env.maxHistorySize), queued := []), s.queued);
    }
  }
}
