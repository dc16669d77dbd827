/** What runs of the text pipeline guarantee. */
module TextThreadRuns {
  import opened MachineTypes
  import opened TextThreadModel

  // ---------- nothing is lost and nothing is reordered ----------

  function Flatten(texts: seq<string>): string
    decreases |texts|
  {
    if texts == [] then "" else Flatten(texts[..|texts| - 1]) + texts[|texts| - 1]
  }

  /** All text the pipeline holds or has given out, oldest first. */
  function Total(s: Thread): string { Flatten(s.delivered) + Flatten(s.queued) + s.buffer }

  /** The text an event brings in. */
  function Input(env: Env, s: Thread, e: Event): string {
    match e
    case PushBytes(t, data, now) => Appended(env, t, ToConvert(env, s.leadByte, t, data))
    case PushText(text, now) => text
    case Flush(now) => ""
  }

  function AllInput(env: Env, s: Thread, events: seq<Event>): string
    decreases |events|
  {
    if events == [] then "" else Input(env, s, events[0]) + AllInput(env, Step(env, s, events[0]), events[1..])
  }

  lemma {:induction false} FlattenAppend(a: seq<string>, b: seq<string>)
    ensures Flatten(a + b) == Flatten(a) + Flatten(b)
    decreases |b|
  {
    if b == [] {
      assert a + b == a;
    } else {
      var n := |b| - 1;
      assert (a + b)[..|a + b| - 1] == a + b[..n];
      FlattenAppend(a, b[..n]);
    }
  }

  lemma FlattenOne(texts: seq<string>, text: string)
    ensures Flatten(texts + [text]) == Flatten(texts) + text
  {
    assert (texts + [text])[..|texts|] == texts;
  }

  lemma {:induction false} DeliveredAllIs(env: Env, s: Thread, sentences: seq<string>)
    ensures var r := DeliveredAll(env, s, sentences);
            r == s.(delivered := s.delivered + sentences, storage := r.storage, history := r.history)
    decreases |sentences|
  {
    if sentences == [] {
      assert s.delivered + [] == s.delivered;
    } else {
      var n := |sentences| - 1;
      DeliveredAllIs(env, s, sentences[..n]);
      assert s.delivered + sentences == s.delivered + sentences[..n] + [sentences[n]];
    }
  }

  lemma FlushKeepsTotal(env: Env, s: Thread, now: nat)
    ensures Total(Flushed(env, s, now)) == Total(s)
  {
    var s1 := s.(storage := Last(s.storage, env.maxHistorySize), queued := []);
    var s2 := DeliveredAll(env, s1, s.queued);
    DeliveredAllIs(env, s1, s.queued);
    FlattenAppend(s.delivered, s.queued);
    FlattenOne([], s.buffer);
    assert Total(s2) == Total(s);
    assert [] + [s.buffer] == [s.buffer];
  }

  lemma StepTotal(env: Env, s: Thread, e: Event)
    requires !env.filterRepetition
    ensures Total(Step(env, s, e)) == Total(s) + Input(env, s, e)
  {
    match e
    case PushBytes(t, data, now) =>
      FlattenOne(s.queued, s.buffer + Input(env, s, e));
    case PushText(text, now) =>
    case Flush(now) => FlushKeepsTotal(env, s, now);
  }

  /** Without the repetition filter, delivered, queued and buffered text together are the input in order. */
  lemma {:induction false} RunKeepsText(env: Env, s: Thread, events: seq<Event>)
    requires !env.filterRepetition
    ensures Total(Run(env, s, events)) == Total(s) + AllInput(env, s, events)
    decreases |events|
  {
    if events != [] {
      StepTotal(env, s, events[0]);
      RunKeepsText(env, Step(env, s, events[0]), events[1..]);
    }
  }

  // ---------- the stored history ----------

  /** The storage is a suffix of the history, and no shorter than the limit asks for. */
  predicate HistoryKept(env: Env, s: Thread) {
    && |s.storage| <= |s.history| && s.storage == Last(s.history, |s.storage|)
    && (|s.storage| >= env.maxHistorySize || s.storage == s.history)
  }

  lemma LastOfAppend(h: string, n: nat, w: string)
    requires n <= |h|
    ensures Last(h + w, n + |w|) == Last(h, n) + w
  {
  }

  lemma DeliveryKeepsHistory(env: Env, s: Thread, sentence: string)
    requires HistoryKept(env, s)
    ensures HistoryKept(env, Delivered(env, s, sentence))
  {
    var reply := env.output(|s.delivered|, WithoutNul(sentence));
    LastOfAppend(s.history, |s.storage|, if reply.keep then reply.text + "\n" else "");
  }

  lemma {:induction false} DeliveriesKeepHistory(env: Env, s: Thread, sentences: seq<string>)
    requires HistoryKept(env, s)
    ensures HistoryKept(env, DeliveredAll(env, s, sentences))
    decreases |sentences|
  {
    if sentences != [] {
      var n := |sentences| - 1;
      DeliveriesKeepHistory(env, s, sentences[..n]);
      DeliveryKeepsHistory(env, DeliveredAll(env, s, sentences[..n]), sentences[n]);
    }
  }

  lemma TrimIsExact(env: Env, s: Thread)
    requires HistoryKept(env, s)
    ensures Last(s.storage, env.maxHistorySize) == Last(s.history, env.maxHistorySize)
    ensures HistoryKept(env, s.(storage := Last(s.storage, env.maxHistorySize), queued := []))
  {
  }

  lemma StepKeepsHistory(env: Env, s: Thread, e: Event)
    requires HistoryKept(env, s)
    ensures HistoryKept(env, Step(env, s, e))
  {
    if e.Flush? {
      TrimIsExact(env, s);
      DeliveriesKeepHistory(env, s.(storage := Last(s.storage, env.maxHistorySize), queued := []), s.queued);
    }
  }

  /** In every run, what a flush trims the storage to is the last maxHistorySize characters of all accepted text. */
  lemma {:induction false} HistoryIsExact(env: Env, s: Thread, events: seq<Event>)
    requires HistoryKept(env, s)
    ensures var r := Run(env, s, events);
            HistoryKept(env, r) && Last(r.storage, env.maxHistorySize) == Last(r.history, env.maxHistorySize)
    decreases |events|
  {
    if events == [] {
      TrimIsExact(env, s);
    } else {
      StepKeepsHistory(env, s, events[0]);
      HistoryIsExact(env, Step(env, s, events[0]), events[1..]);
    }
  }

  // ---------- the repetition filter ----------

  /** After a filtered push the buffer has no long triple at its end, and is empty or brings a new character. */
  lemma FilterLeavesNoRepetition(env: Env, s: Thread, t: TextType, data: seq<byte>, now: nat)
    requires env.filterRepetition
    ensures var r := PushedBytes(env, s, t, data, now);
            NoTripledSuffix(r.buffer) && (r.buffer == "" || !AllIn(r.buffer, r.repeatingChars))
  {
    var text := s.buffer + Appended(env, t, ToConvert(env, s.leadByte, t, data));
    var kept := if AllIn(text, s.repeatingChars) then "" else text;
    RepeatsIffTripled(kept);
  }

  /** A sentence the filter queues repeats three times at the end of what was received, and does not repeat itself. */
  lemma FilterQueuesOneBlock(s: Thread)
    ensures var r := Filtered(s);
            r.queued == s.queued ||
            var v := r.queued[|r.queued| - 1];
            && r.queued == s.queued + [v] && r.buffer == "" && r.repeatingChars == CharsOf(v)
            && |v| > 6 && EndsIn(s.buffer, v + v + v) && NoTripledSuffix(v)
  {
    if !AllIn(s.buffer, s.repeatingChars) {
      CollapsedIs(s.buffer);
    }
  }

  // ---------- bytes pushed one at a time ----------

  datatype Tokens = Tokens(done: seq<seq<byte>>, pending: byte)

  /** Lead bytes take the next byte with them; a lead byte at the end stays pending. */
  function Tokenize(env: Env, codec: nat, lead: byte, bytes: seq<byte>): Tokens
    decreases |bytes|
  {
    if bytes == [] then Tokens([], lead)
    else if lead != 0 then
      var r := Tokenize(env, codec, 0, bytes[1..]);
      r.(done := [[lead, bytes[0]]] + r.done)
    else if env.isLead(codec, bytes[0]) then Tokenize(env, codec, bytes[0], bytes[1..])
    else
      var r := Tokenize(env, codec, 0, bytes[1..]);
      r.(done := [[bytes[0]]] + r.done)
  }

  function DecodeAll(env: Env, t: TextType, tokens: seq<seq<byte>>): string
    decreases |tokens|
  {
    if tokens == [] then "" else Appended(env, t, tokens[0]) + DecodeAll(env, t, tokens[1..])
  }

  /** Every byte pushed alone under one text type, with flushes in between. */
  predicate SingleBytes(events: seq<Event>, t: TextType) {
    forall i :: 0 <= i < |events| ==> events[i].Flush? || (events[i].PushBytes? && events[i].t == t && |events[i].data| == 1)
  }

  function BytesOf(events: seq<Event>): seq<byte>
    decreases |events|
  {
    if events == [] then []
    else (if events[0].PushBytes? then events[0].data else []) + BytesOf(events[1..])
  }

  lemma FlushKeepsLead(env: Env, s: Thread, now: nat)
    ensures Step(env, s, Flush(now)).leadByte == s.leadByte
  {
    DeliveredAllIs(env, s.(storage := Last(s.storage, env.maxHistorySize), queued := []), s.queued);
  }

  lemma LeadAfterPush(env: Env, s: Thread, e: Event)
    requires e.PushBytes?
    ensures Step(env, s, e).leadByte == LeadAfter(env, s.leadByte, e.t, e.data)
  {
  }

  lemma {:induction false} InputIsTokenized(env: Env, s: Thread, t: TextType, events: seq<Event>)
    requires SingleBytes(events, t) && Appended(env, t, []) == ""
    ensures var tokens := Tokenize(env, t.codec, s.leadByte, BytesOf(events));
            AllInput(env, s, events) == DecodeAll(env, t, tokens.done) && Run(env, s, events).leadByte == tokens.pending
    decreases |events|
  {
    hide Step, LeadAfter, ToConvert, Appended;
    if events != [] {
      var e := events[0];
      InputIsTokenized(env, Step(env, s, e), t, events[1..]);
      if e.Flush? {
        FlushKeepsLead(env, s, e.now);
        assert BytesOf(events) == BytesOf(events[1..]);
      } else {
        LeadAfterPush(env, s, e);
        assert BytesOf(events) == [e.data[0]] + BytesOf(events[1..]);
        assert BytesOf(events)[1..] == BytesOf(events[1..]);
        TokenizeStep(env, t, s.leadByte, e.data, BytesOf(events));
      }
    }
  }

  /** The text received is the decoding of the tokens of the whole stream; only a pending lead byte is held back. */
  lemma BytesAreTokenized(env: Env, s: Thread, t: TextType, events: seq<Event>)
    requires !env.filterRepetition && SingleBytes(events, t) && Appended(env, t, []) == ""
    ensures var tokens := Tokenize(env, t.codec, s.leadByte, BytesOf(events));
            && Total(Run(env, s, events)) == Total(s) + DecodeAll(env, t, tokens.done)
            && Run(env, s, events).leadByte == tokens.pending
  {
    InputIsTokenized(env, s, t, events);
    RunKeepsText(env, s, events);
  }

  lemma TokenizeStep(env: Env, t: TextType, lead: byte, data: seq<byte>, bytes: seq<byte>)
    requires |data| == 1 && bytes != [] && bytes[0] == data[0] && Appended(env, t, []) == ""
    ensures var now := Tokenize(env, t.codec, lead, bytes);
            var later := Tokenize(env, t.codec, LeadAfter(env, lead, t, data), bytes[1..]);
            && now.pending == later.pending
            && DecodeAll(env, t, now.done) == Appended(env, t, ToConvert(env, lead, t, data)) + DecodeAll(env, t, later.done)
  {
    var later := Tokenize(env, t.codec, LeadAfter(env, lead, t, data), bytes[1..]);
    assert data == [data[0]];
    assert ([[lead, data[0]]] + later.done)[1..] == later.done && ([[data[0]]] + later.done)[1..] == later.done;
  }

  function Join(tokens: seq<seq<byte>>): seq<byte>
    decreases |tokens|
  {
    if tokens == [] then [] else tokens[0] + Join(tokens[1..])
  }

  function Pending(b: byte): seq<byte> { if b == 0 then [] else [b] }

  /** Tokens split the stream, in pieces of one or two bytes. */
  lemma {:induction false} TokensCoverStream(env: Env, codec: nat, lead: byte, bytes: seq<byte>)
    requires !env.isLead(codec, 0)
    ensures var r := Tokenize(env, codec, lead, bytes);
            && Join(r.done) + Pending(r.pending) == Pending(lead) + bytes
            && forall i :: 0 <= i < |r.done| ==> 1 <= |r.done[i]| <= 2
    decreases |bytes|
  {
    if bytes != [] {
      var next: byte := if lead == 0 && env.isLead(codec, bytes[0]) then bytes[0] else 0;
      TokensCoverStream(env, codec, next, bytes[1..]);
      var later := Tokenize(env, codec, next, bytes[1..]);
      var tail := Pending(later.pending);
      if lead != 0 {
        JoinOne([lead, bytes[0]], later.done, tail, bytes[1..]);
      } else if env.isLead(codec, bytes[0]) {
        assert [bytes[0]] + bytes[1..] == bytes;
      } else {
        JoinOne([bytes[0]], later.done, tail, bytes[1..]);
      }
    }
  }

  lemma JoinOne(token: seq<byte>, tokens: seq<seq<byte>>, tail: seq<byte>, bytes: seq<byte>)
    requires Join(tokens) + tail == bytes
    ensures Join([token] + tokens) + tail == token + bytes
  {
    assert ([token] + tokens)[1..] == tokens;
    assert token + Join(tokens) + tail == token + (Join(tokens) + tail);
  }
}
