/**
 * The parsers as the source writes them: one mutable text that is consumed from the front and one
 * descriptor that is filled in step by step. Each is proved equal to its function in HookCodeParser.
 */
module HookCodeParseMethods {
  import opened MachineTypes
  import opened Numerals
  import opened HookParams
  import opened HookCodeParser

  /** The lambda of ParseHCode: a missing number is 0, a number beyond int raises. */
  method ConsumeHexInt(code: string) returns (value: int, rest: string, raised: bool)
    ensures raised <==> !IsInt(ScanHex(code).value)
    ensures !raised ==> value == ScanHex(code).value && rest == code[ScanHex(code).size..]
    ensures NoNumber(code) ==> !raised && value == 0 && rest == code
    ensures !NoNumber(code) && !raised ==> IsInt(value) && |rest| < |code|
    ensures forall n, tail :: code == HexString(n) + tail && EndsHex(tail) ==>
              (raised <==> !IsInt(n)) && (!raised ==> value == n && rest == tail)
  {
    var k := ScanHex(code);
    ScanOfNothing(code);
    forall n, tail | code == HexString(n) + tail && EndsHex(tail)
      ensures k == Scan(n, |HexString(n)|) && code[k.size..] == tail
    {
      ScanOfHexString(n, tail);
    }
    if !IsInt(k.value) {
      return 0, code, true;
    }
    return k.value, code[k.size..], false;
  }

  method ParseHCode(input: string, start: HookParam) returns (r: Outcome)
    ensures r == ParseH(input, start)
  {
    var code, hp := input, start;
    if Head(code) == 'L' {
      hp := With(hp, HOOK_RETURN);
      code := Tail(code);
    }
    assert ParseH(input, start) == ParseTag(code, hp);
    if Head(code) == 'B' {
      hp := With(hp, BREAK_POINT);
    } else if Head(code) != 'H' {
      return NoHook;
    }
    code := Tail(code);
    assert ParseH(input, start) == ParseBody(code, hp);

    if EndsWith(code, ":JIT:YUZU") {
      hp := hp.(jittype := YUZU);
    } else if EndsWith(code, ":JIT:PPSSPP") {
      hp := hp.(jittype := PPSSPP);
    } else if EndsWith(code, ":JIT:VITA3K") {
      hp := hp.(jittype := VITA3K);
    } else if EndsWith(code, ":JIT:RPCS3") {
      hp := hp.(jittype := RPCS3);
    } else if EndsWith(code, ":JIT:UNITY") {
      hp := hp.(jittype := UNITY);
    }
    var codec := CodecOf(Head(code));
    if codec == BadLetter {
      return NoHook;
    }
    hp := hp.(typ := hp.typ + codec.flags);
    code := Tail(code);
    assert ParseH(input, start) == ParseFull(code, hp);
    r := ParseAfterCodec(code, hp);
  }

  /** ParseHCode from the optional letters on. */
  method ParseAfterCodec(input: string, start: HookParam) returns (r: Outcome)
    ensures r == ParseFull(input, start)
  {
    var code, hp := input, start;
    if USING_STRING in hp.typ {
      if Head(code) == 'F' {
        hp := With(hp, FULL_STRING);
        code := Tail(code);
      }
    }
    assert ParseFull(input, start) == ParseContext(code, hp);
    if Head(code) == 'N' {
      hp := With(hp, NO_CONTEXT);
      code := Tail(code);
    }
    assert ParseFull(input, start) == ParseCodepage(code, hp);

    var match1 := MatchPrefixed(code, 10, '#');
    if match1.Present? {
      if match1.value >= INT_LIMIT {
        return Raised;
      }
      hp := hp.(codepage := match1.value);
      code := match1.rest;
    }
    assert ParseFull(input, start) == ParsePadding(code, hp);
    var match2 := MatchPrefixed(code, 16, '+');
    if match2.Present? {
      if match2.value >= UINT64_LIMIT {
        return Raised;
      }
      hp := hp.(padding := match2.value);
      code := match2.rest;
    }
    assert ParseFull(input, start) == ParseOffset(code, hp);
    r := ParseNumbers(code, hp);
  }

  /** ParseHCode from the data offset to the split. */
  method ParseNumbers(input: string, start: HookParam) returns (r: Outcome)
    ensures r == ParseOffset(input, start)
  {
    var code, hp := input, start;
    var value, raised;
    value, code, raised := ConsumeHexInt(code);
    if raised {
      return Raised;
    }
    hp := hp.(offset := value);
    assert ParseOffset(input, start) == ParseIndex(code, hp);

    if Head(code) == '*' {
      hp := With(hp, DATA_INDIRECT);
      value, code, raised := ConsumeHexInt(Tail(code));
      if raised {
        return Raised;
      }
      hp := hp.(index := value);
    }
    assert ParseOffset(input, start) == ParseSplit(code, hp);

    if Head(code) == ':' {
      hp := With(hp, USING_SPLIT);
      value, code, raised := ConsumeHexInt(Tail(code));
      if raised {
        return Raised;
      }
      hp := hp.(split := value);
      if Head(code) == '*' {
        hp := With(hp, SPLIT_INDIRECT);
        value, code, raised := ConsumeHexInt(Tail(code));
        if raised {
          return Raised;
        }
        hp := hp.(splitIndex := value);
      }
    }
    assert ParseOffset(input, start) == ParseTarget(code, hp);
    if hp.jittype == UNITY {
      r := ParseUnityFunction(code, hp);
    } else {
      r := ParseModuleAddress(code, hp);
    }
  }

  /** ParseHCode from the at sign on, Unity branch. */
  method ParseUnityFunction(input: string, start: HookParam) returns (r: Outcome)
    ensures r == ParseUnity(input, start)
  {
    var code, hp := input, start;
    if Head(code) != '@' {
      return NoHook;
    }
    code := Tail(code);
    code := if |code| >= 10 then code[..|code| - 10] else code;
    var info := CutAt(Narrow(code), '\0');
    if |info| >= MAX_UNITY_SIZE {
      return Overrun;
    }
    hp := hp.(argidx := hp.offset, offset := 0, address := 0);
    hp := hp.(typ := hp.typ - {MODULE_OFFSET} - {FUNCTION_OFFSET}, functionName := "", moduleName := "");
    hp := hp.(unityInfo := info);
    assert hp.typ == start.typ - {MODULE_OFFSET, FUNCTION_OFFSET};
    r := Hook(hp);
  }

  /** ParseHCode from the at sign on, the other jittypes. */
  method ParseModuleAddress(input: string, start: HookParam) returns (r: Outcome)
    ensures r == ParseAddress(input, start)
  {
    var hp := start;
    var target := MatchTarget(input);
    if target == NoTarget {
      return NoHook;
    }
    if target.address >= UINT64_LIMIT {
      return Raised;
    }
    hp := hp.(address := target.address);
    if target.InModule? || target.InFunction? {
      hp := With(hp, MODULE_OFFSET).(moduleName := CopyCString(target.moduleText, MAX_MODULE_SIZE - 1));
    }
    if target.InFunction? {
      hp := With(hp, FUNCTION_OFFSET).(functionName := CopyCString(Narrow(target.functionText), MAX_MODULE_SIZE - 1));
      assert hp.typ == start.typ + {MODULE_OFFSET, FUNCTION_OFFSET};
    }
    assert hp == Located(target, start);
    if hp.offset < 0 {
      hp := hp.(offset := Signed32(hp.offset - 4));
    }
    if hp.split < 0 {
      hp := hp.(split := Signed32(hp.split - 4));
    }
    assert hp == Located(target, start).(offset := Correct(start.offset), split := Correct(start.split));
    r := MoveToEmulator(hp);
  }

  /** The last step of ParseHCode. */
  method MoveToEmulator(start: HookParam) returns (r: Outcome)
    ensures r == Hook(Emulated(start))
  {
    var hp := start;
    if hp.jittype != PC {
      hp := hp.(emuAddr := hp.address, argidx := hp.offset);
      hp := hp.(offset := 0, address := 0);
      hp := hp.(typ := hp.typ - {MODULE_OFFSET} - {FUNCTION_OFFSET}, functionName := "", moduleName := "");
      assert hp.typ == start.typ - {MODULE_OFFSET, FUNCTION_OFFSET};
    }
    r := Hook(hp);
  }

  method ParseECode(input: string) returns (r: Outcome)
    ensures r == ParseE(input)
  {
    var code, hp := Tail(input), With(ZERO, EMBED_ABLE);
    if Head(code) == 'D' {
      hp := With(hp, EMBED_DYNA_SJIS);
      code := Tail(code);
    }
    assert ParseE(input) == ParseSimple(code, hp);
    if Head(code) == 'S' {
      code := Tail(code);
      hp := With(hp, EMBED_BEFORE_SIMPLE);
      if Head(code) == 'N' {
        hp := With(hp, EMBED_AFTER_NEW);
      } else if Head(code) == 'O' {
        hp := With(hp, EMBED_AFTER_OVERWRITE);
      } else {
        r := ParseHCode(code, hp);
        return;
      }
      code := Tail(code);
    }
    r := ParseHCode(code, hp);
  }

  method ParseRCode(input: string) returns (r: Outcome)
    ensures r == ParseR(input)
  {
    var code, hp := Tail(input), With(ZERO, DIRECT_READ);
    var codec := ReadCodecOf(Head(code));
    if codec == BadLetter {
      return NoHook;
    }
    hp := hp.(typ := hp.typ + codec.flags);
    code := Tail(code);
    assert hp == ZERO.(typ := {DIRECT_READ} + codec.flags);
    var match1 := MatchPrefixed(code, 10, '#');
    if match1.Present? {
      if match1.value >= INT_LIMIT {
        return Raised;
      }
      hp := hp.(codepage := match1.value);
      code := match1.rest;
    }
    if Head(code) != '@' || !IsNumeral(code[1..], 16) {
      return NoHook;
    }
    if Value(code[1..], 16) >= UINT64_LIMIT {
      return Raised;
    }
    hp := hp.(address := Value(code[1..], 16));
    r := Hook(hp);
  }

  method ParseHookCode(input: string) returns (r: Outcome)
    ensures r == Parse(input)
  {
    var code := input;
    if Head(code) == '/' {
      code := Tail(code);
    }
    code := CutAt(code, '/');
    code := Trim(code);
    if Head(code) == 'R' {
      r := ParseRCode(code);
    } else if Head(code) == 'E' {
      r := ParseECode(code);
    } else {
      r := ParseHCode(code, ZERO);
    }
  }
}
