/** The text pipeline of one hooked thread (LunaHost/textthread.cpp), as functions on its state. */
module TextThreadModel {

  import opened MachineTypes

  datatype Option<T> = None | Some(value: T)

  /** What HookParam tells the pipeline about a text: the FULL_STRING flag and how bytes are decoded. */
  datatype TextType = TextType(fullString: bool, codec: nat)

  /** What the output callback did: kept or not, and the sentence as it left it. */
  datatype Reply = Reply(keep: bool, text: string)

  /**
   * The settings and the code outside the file: text conversion, lead byte test, and the callback,
   * which may answer each call differently and therefore also gets the number of the call.
   */
  datatype Env = Env(
    filterRepetition: bool, flushDelay: nat, maxBufferSize: nat, maxHistorySize: nat,
    decode: (nat, seq<byte>) -> Option<string>,
    isLead: (nat, byte) -> bool,
    output: (nat, string) -> Reply)

  /** The fields of TextThread; delivered and history only record what happened. */
  datatype Thread = Thread(
    buffer: string, leadByte: byte, repeatingChars: set<char>, lastPushTime: nat,
    queued: seq<string>, storage: string,
    delivered: seq<string>, history: string)

  const CLOCK: nat := UINT64_LIMIT
  const FRESH := Thread("", 0, {}, 0, [], "", [], "")

  // ---------- repetition ----------

  /** The last three blocks of the given length are the same. */
  predicate TripledSuffix(text: string, length: nat) {
    && length * 3 <= |text|
    && text[|text| - length * 3..][..length] == text[|text| - length * 2..][..length]
    && text[|text| - length * 3..][..length] == text[|text| - length..]
  }

  /** The first tripled block length found going down from the given one, or 6. */
  function LongestTriple(text: string, length: nat): (r: nat)
    ensures 6 <= r
    ensures r > 6 ==> r <= length && TripledSuffix(text, r)
    ensures forall l :: r < l <= length && 6 < l ==> !TripledSuffix(text, l)
  {
    if length <= 6 then 6
    else if TripledSuffix(text, length) then length
    else LongestTriple(text, length - 1)
  }

  /** RemoveRepetition: what the text becomes. */
  function Collapsed(text: string): (r: string)
    ensures |r| <= |text|
    decreases |text|
  {
    var l := LongestTriple(text, |text| / 3);
    if l > 6 then Collapsed(text[|text| - l..]) else text
  }

  predicate Repeats(text: string) { LongestTriple(text, |text| / 3) > 6 }

  predicate EndsIn(text: string, suffix: string) { |suffix| <= |text| && text[|text| - |suffix|..] == suffix }

  /** No block of more than 6 characters stands three times at the end. */
  ghost predicate NoTripledSuffix(text: string) { forall v :: |v| > 6 ==> !EndsIn(text, v + v + v) }

  lemma EndsInTrans(a: string, b: string, c: string)
    requires EndsIn(a, b) && EndsIn(b, c)
    ensures EndsIn(a, c)
  {
    assert a[|a| - |c|..] == a[|a| - |b|..][|b| - |c|..];
  }

  lemma RepeatsIffTripled(text: string)
    ensures Repeats(text) <==> !NoTripledSuffix(text)
  {
    if Repeats(text) {
      var l := LongestTriple(text, |text| / 3);
      TripledEndsIn(text, l);
      assert |text[|text| - l..]| == l;
    } else if v :| |v| > 6 && EndsIn(text, v + v + v) {
      EndsInTripled(text, v);
    }
  }

  lemma EndsInTripled(text: string, v: string)
    requires EndsIn(text, v + v + v)
    ensures TripledSuffix(text, |v|)
  {
    var t := text[|text| - |v| * 3..];
    assert t == v + v + v;
    assert t[..|v|] == v && t[|v|..][..|v|] == v && t[|v| * 2..] == v;
    assert text[|text| - |v| * 2..][..|v|] == t[|v|..][..|v|] && text[|text| - |v|..] == t[|v| * 2..];
  }

  lemma TripledEndsIn(text: string, l: nat)
    requires 0 < l && TripledSuffix(text, l)
    ensures var v := text[|text| - l..]; EndsIn(text, v + v + v)
  {
    var v := text[|text| - l..];
    var t := text[|text| - l * 3..];
    assert t == t[..l] + t[l..][..l] + t[l * 2..];
    assert t[l..][..l] == text[|text| - l * 2..][..l];
    assert t[l * 2..] == v;
  }

  lemma CollapsedUnfolds(text: string) returns (l: nat)
    requires Repeats(text)
    ensures 6 < l && l * 3 <= |text| && TripledSuffix(text, l) && Collapsed(text) == Collapsed(text[|text| - l..])
  {
    hide TripledSuffix, LongestTriple;
    l := LongestTriple(text, |text| / 3);
    TripledFits(text, l);
  }

  /** One round of collapsing: the last of three blocks is what is left. */
  lemma CollapsedOnce(text: string) returns (w: string)
    requires Repeats(text)
    ensures 6 < |w| < |text| && EndsIn(text, w) && EndsIn(text, w + w + w) && Collapsed(text) == Collapsed(w)
  {
    hide *;
    var l := CollapsedUnfolds(text);
    w := text[|text| - l..];
    TripledEndsIn(text, l);
    EndsInLast(text, l);
  }

  lemma TripledFits(text: string, l: nat)
    requires TripledSuffix(text, l)
    ensures l * 3 <= |text|
  {
  }

  lemma EndsInLast(text: string, l: nat)
    requires l <= |text|
    ensures EndsIn(text, text[|text| - l..])
  {
  }

  lemma NothingCollapsed(text: string)
    requires !Repeats(text)
    ensures Collapsed(text) == text
  {
  }

  /** Collapsing leaves one block of a final triple, with no further triple at its end. */
  lemma {:induction false} CollapsedIs(text: string)
    ensures NoTripledSuffix(Collapsed(text))
    ensures !Repeats(text) ==> Collapsed(text) == text
    ensures Repeats(text) ==> var v := Collapsed(text); |v| > 6 && EndsIn(text, v + v + v)
    decreases |text|
  {
    hide *;
    RepeatsIffTripled(text);
    if Repeats(text) {
      var w := CollapsedOnce(text);
      CollapsedIs(w);
      if Repeats(w) {
        var v := Collapsed(w);
        EndsInTrans(text, w, v + v + v);
      }
    } else {
      NothingCollapsed(text);
    }
  }

  // ---------- the operations ----------

  predicate AllIn(text: string, chars: set<char>) { forall i :: 0 <= i < |text| ==> text[i] in chars }

  function CharsOf(text: string): set<char> { set i | 0 <= i < |text| :: text[i] }

  /** The bytes one push hands to the converter, given the pending lead byte. */
  function ToConvert(env: Env, lead: byte, t: TextType, data: seq<byte>): seq<byte> {
    if |data| != 1 then data
    else if lead != 0 then [lead, data[0]]
    else if env.isLead(t.codec, data[0]) then []
    else data
  }

  function LeadAfter(env: Env, lead: byte, t: TextType, data: seq<byte>): byte {
    if |data| != 1 then lead
    else if lead != 0 then 0
    else if env.isLead(t.codec, data[0]) then data[0]
    else 0
  }

  /** What converted bytes add to the buffer. */
  function Appended(env: Env, t: TextType, bytes: seq<byte>): string {
    match env.decode(t.codec, bytes)
    case None => ""
    case Some(text) => if t.fullString && |text| > 1 then text + "\n" else text
  }

  /** The filter of a byte push: drop what only repeats, then queue a repeated sentence once. */
  function Filtered(s: Thread): Thread {
    var u := if AllIn(s.buffer, s.repeatingChars) then s.(buffer := "") else s;
    var v := Collapsed(u.buffer);
    if Repeats(u.buffer) then u.(repeatingChars := CharsOf(v), queued := u.queued + [v], buffer := "") else u
  }

  function PushedBytes(env: Env, s: Thread, t: TextType, data: seq<byte>, now: nat): Thread {
    var s1 := s.(leadByte := LeadAfter(env, s.leadByte, t, data),
                 buffer := s.buffer + Appended(env, t, ToConvert(env, s.leadByte, t, data)), lastPushTime := now);
    var s2 := if env.filterRepetition then Filtered(s1) else s1;
    if env.flushDelay == 0 && t.fullString then s2.(queued := s2.queued + [s2.buffer], buffer := "") else s2
  }

  function PushedText(s: Thread, text: string, now: nat): Thread {
    s.(buffer := s.buffer + text, lastPushTime := now)
  }

  function WithoutNul(s: string): string {
    if s == "" then "" else if s[0] == '\0' then WithoutNul(s[1..]) else [s[0]] + WithoutNul(s[1..])
  }

  /** The last n characters, or all of them. */
  function Last(s: string, n: nat): string { if |s| > n then s[|s| - n..] else s }

  /** One queued sentence goes through the callback. */
  function Delivered(env: Env, s: Thread, sentence: string): Thread {
    var reply := env.output(|s.delivered|, WithoutNul(sentence));
    var kept := if reply.keep then reply.text + "\n" else "";
    s.(delivered := s.delivered + [sentence], storage := s.storage + kept, history := s.history + kept)
  }

  function DeliveredAll(env: Env, s: Thread, sentences: seq<string>): Thread
    decreases |sentences|
  {
    if sentences == [] then s
    else Delivered(env, DeliveredAll(env, s, sentences[..|sentences| - 1]), sentences[|sentences| - 1])
  }

  function BufferFlushed(env: Env, s: Thread, now: nat): Thread {
    if s.buffer == "" then s
    else if |s.buffer| > env.maxBufferSize || (now - s.lastPushTime) % CLOCK > env.flushDelay
    then s.(queued := s.queued + [s.buffer], buffer := "")
    else s
  }

  function Flushed(env: Env, s: Thread, now: nat): Thread {
    var s1 := s.(storage := Last(s.storage, env.maxHistorySize), queued := []);
    BufferFlushed(env, DeliveredAll(env, s1, s.queued), now)
  }

  datatype Event = PushBytes(t: TextType, data: seq<byte>, now: nat) | PushText(text: string, now: nat) | Flush(now: nat)

  function Step(env: Env, s: Thread, e: Event): Thread {
    match e
    case PushBytes(t, data, now) => PushedBytes(env, s, t, data, now)
    case PushText(text, now) => PushedText(s, text, now)
    case Flush(now) => Flushed(env, s, now)
  }

  function Run(env: Env, s: Thread, events: seq<Event>): Thread
    decreases |events|
  {
    if events == [] then s else Run(env, Step(env, s, events[0]), events[1..])
  }
}
