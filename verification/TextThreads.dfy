/** TextThread as the source has it: fields that the methods update, proved against TextThreadModel. */
module TextThreads {
  import opened MachineTypes
  import opened TextThreadModel

  /** RemoveRepetition: the text is reassigned until no final triple is left. */
  method RemoveRepetition(text: string) returns (result: string, found: bool)
    ensures result == Collapsed(text) && found == Repeats(text)
    decreases |text|
  {
    hide TripledSuffix;
    var length := |text| / 3;
    while length > 6
      invariant 0 <= length <= |text| / 3
      invariant LongestTriple(text, |text| / 3) == LongestTriple(text, length)
    {
      if TripledSuffix(text, length) {
        var again;
        result, again := RemoveRepetition(text[|text| - length..]);
        return result, true;
      }
      length := length - 1;
    }
    return text, false;
  }

  class TextThread {
    const env: Env
    var buffer: string
    var leadByte: byte
    var repeatingChars: set<char>
    var lastPushTime: nat
    var queuedSentences: seq<string>
    var storage: string
    // the callback's side: what it has been given, and the text it has accepted
    var delivered: seq<string>
    var history: string

    ghost function State(): Thread
      reads this
    {
      Thread(buffer, leadByte, repeatingChars, lastPushTime, queuedSentences, storage, delivered, history)
    }

    constructor (env: Env)
      ensures this.env == env && State() == FRESH
    {
      this.env := env;
      buffer, leadByte, repeatingChars, lastPushTime := "", 0, {}, 0;
      queuedSentences, storage := [], "";
      delivered, history := [], "";
    }

    method AddSentence(sentence: string)
      modifies this
      ensures State() == old(State()).(queued := old(queuedSentences) + [sentence])
    {
      queuedSentences := queuedSentences + [sentence];
    }

    /** Push(BYTE*, int): a negative length does nothing. */
    method Push(input: seq<byte>, inputLength: int, t: TextType, now: nat)
      requires inputLength >= 0 ==> |input| == inputLength
      modifies this
      ensures State() == if inputLength < 0 then old(State()) else PushedBytes(env, old(State()), t, input, now)
    {
      if inputLength < 0 {
        return;
      }
      var data := input;
      if |data| == 1 {
        if leadByte != 0 {
          data := [leadByte, data[0]];
          leadByte := 0;
        } else if env.isLead(t.codec, data[0]) {
          leadByte := data[0];
          data := [];
        }
      }
      var converted := env.decode(t.codec, data);
      if converted.Some? {
        buffer := buffer + converted.value;
        if t.fullString && |converted.value| > 1 {
          buffer := buffer + "\n";
        }
      }
      lastPushTime := now;
      assert buffer == old(buffer) + Appended(env, t, ToConvert(env, old(leadByte), t, input));
      if env.filterRepetition {
        Filter();
      }
      if env.flushDelay == 0 && t.fullString {
        AddSentence(buffer);
        buffer := "";
      }
    }

    /** The filterRepetition branch of Push. */
    method Filter()
      modifies this
      ensures State() == Filtered(old(State()))
    {
      if AllIn(buffer, repeatingChars) {
        buffer := "";
      }
      var found;
      buffer, found := RemoveRepetition(buffer);
      if found {
        repeatingChars := CharsOf(buffer);
        AddSentence(buffer);
        buffer := "";
      } else {
        CollapsedIs(old(if AllIn(buffer, repeatingChars) then "" else buffer));
      }
    }

    /** Push(const wchar_t*) */
    method PushWide(text: string, now: nat)
      modifies this
      ensures State() == PushedText(old(State()), text, now)
    {
      lastPushTime := now;
      buffer := buffer + text;
    }

    method Flush(now: nat)
      modifies this
      ensures State() == Flushed(env, old(State()), now)
    {
      if |storage| > env.maxHistorySize {
        storage := storage[|storage| - env.maxHistorySize..];
      }
      var sentences := queuedSentences;
      queuedSentences := [];
      ghost var start := State();
      for i := 0 to |sentences|
        invariant State() == DeliveredAll(env, start, sentences[..i])
      {
        assert sentences[..i + 1][..i] == sentences[..i];
        Deliver(sentences[i]);
      }
      assert sentences[..|sentences|] == sentences;
      if buffer == "" {
        return;
      }
      if |buffer| > env.maxBufferSize || (now - lastPushTime) % CLOCK > env.flushDelay {
        AddSentence(buffer);
        buffer := "";
      }
    }

    /** One sentence of the flushing loop. */
    method Deliver(sentence: string)
      modifies this
      ensures State() == Delivered(env, old(State()), sentence)
    {
      var cleaned := WithoutNul(sentence);
      var reply := env.output(|delivered|, cleaned);
      delivered := delivered + [sentence];
      if reply.keep {
        storage := storage + (reply.text + "\n");
        history := history + (reply.text + "\n");
      }
    }
  }
}
