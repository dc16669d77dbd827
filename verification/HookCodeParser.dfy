/** HookCode::Parse (include/hookcode.cpp): text to hook descriptor. */
module HookCodeParser {
  import opened MachineTypes
  import opened Numerals
  import opened HookParams

  /**
   * What a call of Parse does: no hook (std::nullopt), a hook, an std::out_of_range that nothing
   * catches, or a strcpy past the end of unityfunctioninfo, to which C++ gives no meaning.
   */
  datatype Outcome = NoHook | Hook(hp: HookParam) | Raised | Overrun

  // ---------- std::wstring ----------

  /** code[0]: NUL when the string is empty. */
  function Head(s: string): char { if s == "" then '\0' else s[0] }

  /** code.erase(0, 1) */
  function Tail(s: string): string { if s == "" then "" else s[1..] }

  /** endWith: only a proper suffix counts. */
  predicate EndsWith(s: string, suffix: string) {
    |s| > |suffix| && s[|s| - |suffix|..] == suffix
  }

  function CutAt(s: string, c: char): (r: string)
    ensures c !in r && r <= s
    ensures |r| < |s| ==> s[|r|] == c
    ensures c !in s ==> r == s
  {
    if s == "" || s[0] == c then "" else [s[0]] + CutAt(s[1..], c)
  }

  function TrimLeft(s: string): string { s[SpaceRun(s)..] }

  function TrimRight(s: string): (r: string)
    ensures r <= s
    ensures r != "" ==> !IsSpace(r[|r| - 1])
    ensures s != "" && !IsSpace(s[|s| - 1]) ==> r == s
    ensures forall i :: |r| <= i < |s| ==> IsSpace(s[i])
  {
    if s != "" && IsSpace(s[|s| - 1]) then TrimRight(s[..|s| - 1]) else s
  }

  function Trim(s: string): string { TrimRight(TrimLeft(s)) }

  /** strncpy_s(dst, src.c_str(), n): up to the first NUL, at most n characters. */
  function CopyCString(s: string, n: nat): (r: string)
    ensures IsCString(r, n + 1) && r <= s
    ensures |r| < |s| ==> |r| == n || s[|r|] == '\0'
  {
    var c := CutAt(s, '\0');
    if |c| <= n then c else c[..n]
  }

  /** wchar_t to char keeps the low byte. */
  function Narrow(s: string): (r: string)
    ensures |r| == |s| && IsBytes(r)
  {
    seq(|s|, i requires 0 <= i < |s| => (s[i] as int % 256) as char)
  }

  /** char to wchar_t: char is signed, so bytes from 0x80 land in 0xFF80..0xFFFF. */
  function WidenChar(c: char): char
    requires c < '\U{100}'
  {
    if c < '\U{80}' then c else (0xFF00 + c as int) as char
  }

  function Widen(s: string): (r: string)
    requires IsBytes(s)
    ensures |r| == |s|
    ensures forall i :: 0 <= i < |s| ==> r[i] == WidenChar(s[i])
  {
    seq(|s|, i requires 0 <= i < |s| => WidenChar(s[i]))
  }

  // ---------- the regular expressions ----------

  /** A numeral followed by the given mark, as "^([0-9]+)#" and "^([[:xdigit:]]+)\\+" match it. */
  datatype Prefixed = Absent | Present(value: nat, rest: string)

  function MatchPrefixed(s: string, base: nat, mark: char): Prefixed
    requires base == 10 || base == 16
  {
    var n := RunLength(s, base);
    if 0 < n < |s| && s[n] == mark then Present(Value(s[..n], base), s[n + 1..]) else Absent
  }

  /** "." of an ECMAScript regular expression stops at line breaks. */
  predicate IsLineBreak(c: char) { c == '\n' || c == '\r' || c == '\U{2028}' || c == '\U{2029}' }

  predicate OneLine(s: string) { forall i :: 0 <= i < |s| ==> !IsLineBreak(s[i]) }

  /** A length at which the lazy group ":.+?" may stop in ":" + t: the rest is empty or matches ":.+". */
  predicate StopsAt(t: string, k: nat) {
    1 <= k <= |t| && (k == |t| || (t[k] == ':' && k + 1 < |t|))
  }

  /** The lazy group stops at the first such length. */
  function LazyStop(t: string, from: nat): (k: nat)
    requires 1 <= from <= |t|
    ensures from <= k <= |t| && StopsAt(t, k)
    ensures forall j :: from <= j < k ==> !StopsAt(t, j)
    decreases |t| - from
  {
    if StopsAt(t, from) then from else LazyStop(t, from + 1)
  }

  datatype Target = NoTarget | At(address: nat) | InModule(address: nat, moduleText: string)
                  | InFunction(address: nat, moduleText: string, functionText: string)

  /** "^@([[:xdigit:]]+)(:.+?)?(:.+)?" against the whole text. */
  function MatchTarget(s: string): Target {
    if Head(s) != '@' then NoTarget else
    var n := RunLength(s[1..], 16);
    if n == 0 then NoTarget else
    var address := Value(s[1..][..n], 16);
    var rest := s[1..][n..];
    if rest == "" then At(address)
    else if rest[0] != ':' || |rest| < 2 || !OneLine(rest) then NoTarget
    else
      var t := rest[1..];
      var k := LazyStop(t, 1);
      if k == |t| then InModule(address, t) else InFunction(address, t[..k], t[k + 1..])
  }

  // ---------- ParseHCode ----------

  /** ITH has registers offset by 4 against AGTH. */
  function Correct(x: int): int { if x < 0 then Signed32(x - 4) else x }

  /** The JIT suffix decides the jittype; without one it stays. */
  function JitOf(s: string, current: JitType): JitType {
    if EndsWith(s, ":JIT:YUZU") then YUZU
    else if EndsWith(s, ":JIT:PPSSPP") then PPSSPP
    else if EndsWith(s, ":JIT:VITA3K") then VITA3K
    else if EndsWith(s, ":JIT:RPCS3") then RPCS3
    else if EndsWith(s, ":JIT:UNITY") then UNITY
    else current
  }

  datatype Letter = BadLetter | Sets(flags: set<Flag>)

  function CodecOf(c: char): (r: Letter)
    ensures r.Sets? ==> HOOK_RETURN !in r.flags
  {
    match c
    case 'A' => Sets({CODEC_ANSI_BE})
    case 'B' => Sets({})
    case 'W' => Sets({CODEC_UTF16})
    case 'I' => Sets({CODEC_UTF32})
    case 'S' => Sets({USING_STRING})
    case 'Q' => Sets({USING_STRING, CODEC_UTF16})
    case 'M' => Sets({SPECIAL_JIT_STRING, USING_STRING, CODEC_UTF16})
    case 'U' => Sets({USING_STRING, CODEC_UTF32})
    case 'V' => Sets({USING_STRING, CODEC_UTF8})
    case _ => BadLetter
  }

  function ParseTarget(code: string, hp: HookParam): Outcome {
    if hp.jittype == UNITY then ParseUnity(code, hp) else ParseAddress(code, hp)
  }

  function ParseUnity(code: string, hp: HookParam): Outcome {
    if Head(code) != '@' then NoHook else
    var body := code[1..];
    var info := CutAt(Narrow(if |body| >= 10 then body[..|body| - 10] else body), '\0');
    if |info| >= MAX_UNITY_SIZE then Overrun else
    Hook(hp.(argidx := hp.offset, offset := 0, address := 0, typ := hp.typ - {MODULE_OFFSET, FUNCTION_OFFSET},
             functionName := "", moduleName := "", unityInfo := info))
  }

  /** What the matched groups put into the descriptor. */
  function Located(t: Target, hp: HookParam): HookParam
    requires t != NoTarget
  {
    match t
    case At(a) => hp.(address := a)
    case InModule(a, m) =>
      hp.(address := a, typ := hp.typ + {MODULE_OFFSET}, moduleName := CopyCString(m, MAX_MODULE_SIZE - 1))
    case InFunction(a, m, f) =>
      hp.(address := a, typ := hp.typ + {MODULE_OFFSET, FUNCTION_OFFSET},
          moduleName := CopyCString(m, MAX_MODULE_SIZE - 1),
          functionName := CopyCString(Narrow(f), MAX_MODULE_SIZE - 1))
  }

  /** An emulator hook moves the numbers to the emulator's fields. */
  function Emulated(hp: HookParam): HookParam {
    if hp.jittype == PC then hp else
    hp.(emuAddr := hp.address, argidx := hp.offset, offset := 0, address := 0,
        typ := hp.typ - {MODULE_OFFSET, FUNCTION_OFFSET}, functionName := "", moduleName := "")
  }

  function ParseAddress(code: string, hp: HookParam): Outcome {
    var t := MatchTarget(code);
    if t == NoTarget then NoHook
    else if t.address >= UINT64_LIMIT then Raised
    else
      var hp' := Located(t, hp);
      Hook(Emulated(hp'.(offset := Correct(hp.offset), split := Correct(hp.split))))
  }

  function ParseSplitIndex(code: string, hp: HookParam): Outcome {
    if Head(code) != '*' then ParseTarget(code, hp) else
    var k := ScanHex(Tail(code));
    if !IsInt(k.value) then Raised
    else ParseTarget(Tail(code)[k.size..], With(hp, SPLIT_INDIRECT).(splitIndex := k.value))
  }

  function ParseSplit(code: string, hp: HookParam): Outcome {
    if Head(code) != ':' then ParseTarget(code, hp) else
    var k := ScanHex(Tail(code));
    if !IsInt(k.value) then Raised
    else ParseSplitIndex(Tail(code)[k.size..], With(hp, USING_SPLIT).(split := k.value))
  }

  function ParseIndex(code: string, hp: HookParam): Outcome {
    if Head(code) != '*' then ParseSplit(code, hp) else
    var k := ScanHex(Tail(code));
    if !IsInt(k.value) then Raised
    else ParseSplit(Tail(code)[k.size..], With(hp, DATA_INDIRECT).(index := k.value))
  }

  function ParseOffset(code: string, hp: HookParam): Outcome {
    var k := ScanHex(code);
    if !IsInt(k.value) then Raised else ParseIndex(code[k.size..], hp.(offset := k.value))
  }

  function ParsePadding(code: string, hp: HookParam): Outcome {
    match MatchPrefixed(code, 16, '+')
    case Absent => ParseOffset(code, hp)
    case Present(v, rest) => if v >= UINT64_LIMIT then Raised else ParseOffset(rest, hp.(padding := v))
  }

  function ParseCodepage(code: string, hp: HookParam): Outcome {
    match MatchPrefixed(code, 10, '#')
    case Absent => ParsePadding(code, hp)
    case Present(v, rest) => if v >= INT_LIMIT then Raised else ParsePadding(rest, hp.(codepage := v))
  }

  function ParseContext(code: string, hp: HookParam): Outcome {
    if Head(code) == 'N' then ParseCodepage(Tail(code), With(hp, NO_CONTEXT)) else ParseCodepage(code, hp)
  }

  function ParseFull(code: string, hp: HookParam): Outcome {
    if USING_STRING in hp.typ && Head(code) == 'F' then ParseContext(Tail(code), With(hp, FULL_STRING))
    else ParseContext(code, hp)
  }

  /** After H or B: the JIT suffix, the codec letter, the rest. */
  function ParseBody(code: string, hp: HookParam): Outcome {
    var codec := CodecOf(Head(code));
    if codec == BadLetter then NoHook
    else ParseFull(Tail(code), hp.(jittype := JitOf(code, hp.jittype), typ := hp.typ + codec.flags))
  }

  function ParseTag(code: string, hp: HookParam): Outcome {
    if Head(code) == 'B' then ParseBody(Tail(code), With(hp, BREAK_POINT))
    else if Head(code) == 'H' then ParseBody(Tail(code), hp)
    else NoHook
  }

  function ParseH(code: string, hp: HookParam): Outcome {
    if Head(code) == 'L' then ParseTag(Tail(code), With(hp, HOOK_RETURN)) else ParseTag(code, hp)
  }

  // ---------- ParseECode, ParseRCode, Parse ----------

  function ParseSimple(code: string, hp: HookParam): Outcome {
    if Head(code) != 'S' then ParseH(code, hp)
    else
      var c, h := Tail(code), With(hp, EMBED_BEFORE_SIMPLE);
      if Head(c) == 'N' then ParseH(Tail(c), With(h, EMBED_AFTER_NEW))
      else if Head(c) == 'O' then ParseH(Tail(c), With(h, EMBED_AFTER_OVERWRITE))
      else ParseH(c, h)
  }

  function ParseE(code: string): Outcome {
    var c, h := Tail(code), With(ZERO, EMBED_ABLE);
    if Head(c) == 'D' then ParseSimple(Tail(c), With(h, EMBED_DYNA_SJIS)) else ParseSimple(c, h)
  }

  function ReadCodecOf(c: char): Letter {
    match c
    case 'S' => Sets({})
    case 'Q' => Sets({CODEC_UTF16})
    case 'U' => Sets({CODEC_UTF32})
    case 'V' => Sets({CODEC_UTF8})
    case _ => BadLetter
  }

  /** "@([[:xdigit:]]+)" against the whole text. */
  function ParseReadAddress(code: string, hp: HookParam): Outcome {
    if Head(code) != '@' || !IsNumeral(code[1..], 16) then NoHook
    else if Value(code[1..], 16) >= UINT64_LIMIT then Raised
    else Hook(hp.(address := Value(code[1..], 16)))
  }

  function ParseReadCodepage(code: string, hp: HookParam): Outcome {
    match MatchPrefixed(code, 10, '#')
    case Absent => ParseReadAddress(code, hp)
    case Present(v, rest) => if v >= INT_LIMIT then Raised else ParseReadAddress(rest, hp.(codepage := v))
  }

  function ParseR(code: string): Outcome {
    var c := Tail(code);
    var codec := ReadCodecOf(Head(c));
    if codec == BadLetter then NoHook
    else ParseReadCodepage(Tail(c), ZERO.(typ := {DIRECT_READ} + codec.flags))
  }

  /** One leading slash goes, everything from the next slash on goes, blanks at the ends go. */
  function Stripped(code: string): string {
    Trim(CutAt(if Head(code) == '/' then Tail(code) else code, '/'))
  }

  function Dispatch(code: string): Outcome {
    if Head(code) == 'R' then ParseR(code)
    else if Head(code) == 'E' then ParseE(code)
    else ParseH(code, ZERO)
  }

  function Parse(code: string): Outcome { Dispatch(Stripped(code)) }
}
