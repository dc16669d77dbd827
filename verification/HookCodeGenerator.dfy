/** HookCode::Generate (include/hookcode.cpp): hook descriptor to text. */
module HookCodeGenerator {
  import opened MachineTypes
  import opened Numerals
  import opened HookParams
  import opened HookCodeParser

  /** Conversion of a uint64_t to the int64_t parameter of HexString. */
  function ToInt64(x: int): int
    requires IsUint64(x)
  {
    if x < INT64_LIMIT then x else x - UINT64_LIMIT
  }

  function Uncorrect(x: int): int { if x < 0 then x + 4 else x }

  predicate IsUnicode(hp: HookParam) {
    CODEC_UTF8 in hp.typ || CODEC_UTF16 in hp.typ || CODEC_UTF32 in hp.typ
  }

  // ---------- the pieces of an H code, first to last ----------

  function EmbedPart(hp: HookParam): string {
    if EMBED_ABLE !in hp.typ then ""
    else if hp.extras.hookBefore != 0 || hp.extras.hookAfter != 0 then "EX"
    else "E" + EmbedLetters(hp)
  }

  function EmbedLetters(hp: HookParam): string {
    (if EMBED_DYNA_SJIS in hp.typ then "D" else "")
    + (if EMBED_BEFORE_SIMPLE in hp.typ then "S" else "")
    + (if EMBED_AFTER_NEW in hp.typ then "N" else if EMBED_AFTER_OVERWRITE in hp.typ then "O" else "")
  }

  function TagPart(hp: HookParam): string { if BREAK_POINT in hp.typ then "B" else "H" }

  function CodecLetter(hp: HookParam): char {
    if USING_STRING in hp.typ then
      if SPECIAL_JIT_STRING in hp.typ then 'M'
      else if CODEC_UTF16 in hp.typ then 'Q'
      else if CODEC_UTF8 in hp.typ then 'V'
      else if CODEC_UTF32 in hp.typ then 'U'
      else 'S'
    else
      if CODEC_UTF16 in hp.typ then 'W'
      else if CODEC_UTF32 in hp.typ then 'I'
      else if CODEC_ANSI_BE in hp.typ then 'A'
      else 'B'
  }

  function FilterPart(hp: HookParam): string {
    if hp.extras.textFun != 0 || hp.extras.filterFun != 0 then "X" else ""
  }

  function FullPart(hp: HookParam): string { if FULL_STRING in hp.typ then "F" else "" }

  function ContextPart(hp: HookParam): string { if NO_CONTEXT in hp.typ then "N" else "" }

  function CodepagePart(hp: HookParam): string
    requires Representable(hp)
  {
    if hp.codepage != 0 && !IsUnicode(hp) then Print(hp.codepage, 10) + "#" else ""
  }

  function PaddingPart(hp: HookParam): string
    requires Representable(hp)
  {
    if hp.padding != 0 then HexString(ToInt64(hp.padding)) + "+" else ""
  }

  /** The number before the at sign's options: data offset, or argument index of a JIT hook. */
  function LeadNumber(hp: HookParam): int { if hp.jittype == PC then Uncorrect(hp.offset) else hp.argidx }

  function IndexPart(hp: HookParam): string {
    if DATA_INDIRECT in hp.typ then "*" + HexString(hp.index) else ""
  }

  function SplitPart(hp: HookParam): string {
    if USING_SPLIT in hp.typ then ":" + HexString(Uncorrect(hp.split)) else ""
  }

  function SplitIndexPart(hp: HookParam): string {
    if SPLIT_INDIRECT in hp.typ then "*" + HexString(hp.splitIndex) else ""
  }

  function JitSuffix(j: JitType): string {
    match j
    case PC => ""
    case YUZU => ":JIT:YUZU"
    case PPSSPP => ":JIT:PPSSPP"
    case VITA3K => ":JIT:VITA3K"
    case RPCS3 => ":JIT:RPCS3"
    case UNITY => ":JIT:UNITY"
  }

  /** The names behind the address of a PC hook. */
  function NamesPart(hp: HookParam): string
    requires Representable(hp)
  {
    (if MODULE_OFFSET in hp.typ then ":" + hp.moduleName else "")
    + (if FUNCTION_OFFSET in hp.typ then ":" + Widen(hp.functionName) else "")
  }

  /** Everything behind the at sign. */
  function TargetText(hp: HookParam): string
    requires Representable(hp)
  {
    if hp.jittype == PC then HexString(ToInt64(hp.address)) + NamesPart(hp)
    else if hp.jittype == UNITY then Widen(hp.unityInfo) + JitSuffix(UNITY)
    else HexString(ToInt64(hp.emuAddr)) + JitSuffix(hp.jittype)
  }

  // ---------- the code from a given piece on, ending in "@" + x ----------

  function FromSplitIndex(hp: HookParam, x: string): string { SplitIndexPart(hp) + ("@" + x) }

  function FromSplit(hp: HookParam, x: string): string { SplitPart(hp) + FromSplitIndex(hp, x) }

  function FromIndex(hp: HookParam, x: string): string { IndexPart(hp) + FromSplit(hp, x) }

  function FromOffset(hp: HookParam, x: string): string { HexString(LeadNumber(hp)) + FromIndex(hp, x) }

  function FromPadding(hp: HookParam, x: string): string
    requires Representable(hp)
  {
    PaddingPart(hp) + FromOffset(hp, x)
  }

  function FromCodepage(hp: HookParam, x: string): string
    requires Representable(hp)
  {
    CodepagePart(hp) + FromPadding(hp, x)
  }

  function FromContext(hp: HookParam, x: string): string
    requires Representable(hp)
  {
    ContextPart(hp) + FromCodepage(hp, x)
  }

  function FromFull(hp: HookParam, x: string): string
    requires Representable(hp)
  {
    FullPart(hp) + FromContext(hp, x)
  }

  function FromFilter(hp: HookParam, x: string): string
    requires Representable(hp)
  {
    FilterPart(hp) + FromFull(hp, x)
  }

  function FromBody(hp: HookParam, x: string): string
    requires Representable(hp)
  {
    [CodecLetter(hp)] + FromFilter(hp, x)
  }

  function FromTag(hp: HookParam, x: string): string
    requires Representable(hp)
  {
    TagPart(hp) + FromBody(hp, x)
  }

  function FromStart(hp: HookParam, x: string): string
    requires Representable(hp)
  {
    EmbedPart(hp) + FromTag(hp, x)
  }

  function GenerateH(hp: HookParam): string
    requires Representable(hp)
  {
    FromStart(hp, TargetText(hp))
  }

  // ---------- R codes ----------

  function ReadLetter(hp: HookParam): char {
    if CODEC_UTF16 in hp.typ then 'Q'
    else if CODEC_UTF32 in hp.typ then 'U'
    else if CODEC_UTF8 in hp.typ then 'V'
    else 'S'
  }

  function GenerateR(hp: HookParam): string
    requires Representable(hp)
  {
    ['R', ReadLetter(hp)] + (CodepagePart(hp) + ("@" + HexString(ToInt64(hp.address))))
  }

  function Generate(hp: HookParam): string
    requires Representable(hp)
  {
    if DIRECT_READ in hp.typ then GenerateR(hp) else GenerateH(hp)
  }

  // ---------- addresses relative to a module ----------

  /** What the operating system says about the address: nothing, also for process id 0, or the file mapped there. */
  datatype Mapping = Unmapped | FileAt(base: nat, path: string)

  /** moduleName.c_str() + moduleName.rfind('\\') + 1 */
  function FileName(path: string): (r: string)
    ensures '\\' !in r && |r| <= |path| && r == path[|path| - |r|..]
    ensures |r| < |path| ==> path[|path| - |r| - 1] == '\\'
  {
    if path == "" then ""
    else if path[|path| - 1] == '\\' then path[|path|..]
    else FileName(path[..|path| - 1]) + [path[|path| - 1]]
  }

  function ModuleName(path: string): (r: string)
    ensures IsCString(r, MAX_MODULE_SIZE)
  {
    CopyCString(FileName(path), MAX_MODULE_SIZE - 1)
  }

  function Rebased(address: int, base: nat): (r: int)
    ensures IsUint64(r)
  {
    (address - base) % UINT64_LIMIT
  }

  /** An absolute address becomes an offset into the module it lies in. */
  function Relative(hp: HookParam, m: Mapping): (r: HookParam)
    requires Representable(hp)
    ensures Representable(r) && r.jittype == hp.jittype && (DIRECT_READ in r.typ <==> DIRECT_READ in hp.typ)
  {
    if hp.jittype != PC || MODULE_OFFSET in hp.typ || m == Unmapped then hp
    else With(hp, MODULE_OFFSET).(address := Rebased(hp.address, m.base), moduleName := ModuleName(m.path))
  }

  /** What is printed when there is a process to ask. */
  function GenerateFor(hp: HookParam, m: Mapping): string
    requires Representable(hp)
  {
    if DIRECT_READ in hp.typ then GenerateR(hp) else GenerateH(Relative(hp, m))
  }

  /** The two differ in the module and the address only. */
  predicate SameFront(g: HookParam, hp: HookParam) {
    && g == hp.(typ := g.typ, address := g.address, moduleName := g.moduleName)
    && forall f :: f != MODULE_OFFSET ==> (f in g.typ <==> f in hp.typ)
  }

  lemma SameNumbers(g: HookParam, hp: HookParam, x: string)
    requires Representable(g) && Representable(hp) && SameFront(g, hp)
    ensures FromFull(g, x) == FromFull(hp, x)
  {
    hide Print, HexString, Representable;
    assert FromOffset(g, x) == FromOffset(hp, x);
    hide FromOffset;
    assert FromCodepage(g, x) == FromCodepage(hp, x);
  }

  lemma SameLetters(g: HookParam, hp: HookParam)
    requires SameFront(g, hp)
    ensures EmbedPart(g) == EmbedPart(hp) && TagPart(g) == TagPart(hp) && CodecLetter(g) == CodecLetter(hp)
    ensures FilterPart(g) == FilterPart(hp)
  {
  }

  lemma RelativeIsSame(hp: HookParam, m: Mapping)
    requires Representable(hp)
    ensures SameFront(Relative(hp, m), hp)
  {
  }

  /** In front of the at sign the module makes no difference. */
  lemma RelativeStart(hp: HookParam, m: Mapping, x: string)
    requires Representable(hp)
    ensures FromStart(Relative(hp, m), x) == FromStart(hp, x)
  {
    RelativeIsSame(hp, m);
    hide Relative, SameFront, FromFull, EmbedPart, TagPart, CodecLetter, FilterPart;
    SameLetters(Relative(hp, m), hp);
    SameNumbers(Relative(hp, m), hp, x);
  }

  // ---------- the generators as the source writes them ----------

  /** Appending a piece moves the split between what is written and what is to come. */
  lemma Append(done: string, piece: string, rest: string)
    ensures done + (piece + rest) == (done + piece) + rest
  {
  }

  lemma StartOfGenerated(hp: HookParam, m: Mapping, code: string, x: string)
    requires Representable(hp) && code == EmbedPart(hp) && x == TargetText(Relative(hp, m))
    ensures code + FromTag(hp, x) == GenerateH(Relative(hp, m))
  {
    hide Relative, EmbedPart, FromTag, TargetText;
    RelativeStart(hp, m, x);
  }

  method GenerateHCode(input: HookParam, m: Mapping) returns (code: string)
    requires Representable(input)
    ensures code == GenerateH(Relative(input, m))
  {
    hide Relative, FromTag, TargetText, Representable, GenerateH;
    var hp := input;
    ghost var x := TargetText(Relative(input, m));
    code := "";
    if EMBED_ABLE in hp.typ {
      code := code + "E";
      if hp.extras.hookBefore != 0 || hp.extras.hookAfter != 0 {
        code := code + "X";
      } else {
        if EMBED_DYNA_SJIS in hp.typ {
          code := code + "D";
        }
        if EMBED_BEFORE_SIMPLE in hp.typ {
          code := code + "S";
        }
        if EMBED_AFTER_NEW in hp.typ {
          code := code + "N";
        } else if EMBED_AFTER_OVERWRITE in hp.typ {
          code := code + "O";
        }
        assert code == "E" + EmbedLetters(hp);
      }
    }
    assert code == EmbedPart(hp);
    assert code + FromTag(input, x) == GenerateH(Relative(input, m)) by { StartOfGenerated(input, m, code, x); }
    var body := GenerateBody(hp, m);
    code := code + body;
  }

  method GenerateBody(hp: HookParam, m: Mapping) returns (code: string)
    requires Representable(hp)
    ensures code == FromTag(hp, TargetText(Relative(hp, m)))
  {
    ghost var x := TargetText(Relative(hp, m));
    code := if BREAK_POINT in hp.typ then "B" else "H";
    assert code + FromBody(hp, x) == FromTag(hp, x);
    if USING_STRING in hp.typ {
      if SPECIAL_JIT_STRING in hp.typ {
        code := code + "M";
      } else if CODEC_UTF16 in hp.typ {
        code := code + "Q";
      } else if CODEC_UTF8 in hp.typ {
        code := code + "V";
      } else if CODEC_UTF32 in hp.typ {
        code := code + "U";
      } else {
        code := code + "S";
      }
    } else {
      if CODEC_UTF16 in hp.typ {
        code := code + "W";
      } else if CODEC_UTF32 in hp.typ {
        code := code + "I";
      } else if CODEC_ANSI_BE in hp.typ {
        code := code + "A";
      } else {
        code := code + "B";
      }
    }
    assert code == TagPart(hp) + [CodecLetter(hp)];
    Append(TagPart(hp), [CodecLetter(hp)], FromFilter(hp, x));
    code := GenerateOptions(hp, m, code);
    assert code == FromTag(hp, x);
  }

  method GenerateOptions(hp: HookParam, m: Mapping, done: string) returns (code: string)
    requires Representable(hp)
    ensures code == done + FromFilter(hp, TargetText(Relative(hp, m)))
  {
    ghost var x := TargetText(Relative(hp, m));
    ghost var total := done + FromFilter(hp, x);
    code := done;
    if hp.extras.textFun != 0 || hp.extras.filterFun != 0 {
      code := code + "X";
    }
    assert code + FromFull(hp, x) == total by {
      Append(done, FilterPart(hp), FromFull(hp, x));
      assert code == done + FilterPart(hp);
    }
    code := GenerateModifiers(hp, m, code);
  }

  method GenerateModifiers(hp: HookParam, m: Mapping, done: string) returns (code: string)
    requires Representable(hp)
    ensures code == done + FromFull(hp, TargetText(Relative(hp, m)))
  {
    ghost var x := TargetText(Relative(hp, m));
    code := done;
    if FULL_STRING in hp.typ {
      code := code + "F";
    }
    assert code == done + FullPart(hp);
    Append(done, FullPart(hp), FromContext(hp, x));
    ghost var before := code;
    if NO_CONTEXT in hp.typ {
      code := code + "N";
    }
    assert code == before + ContextPart(hp);
    Append(before, ContextPart(hp), FromCodepage(hp, x));
    code := GenerateCodepage(hp, m, code);
  }

  method GenerateCodepage(hp: HookParam, m: Mapping, done: string) returns (code: string)
    requires Representable(hp)
    ensures code == done + FromCodepage(hp, TargetText(Relative(hp, m)))
  {
    ghost var x := TargetText(Relative(hp, m));
    code := done;
    if hp.codepage != 0 && CODEC_UTF8 !in hp.typ && CODEC_UTF16 !in hp.typ && CODEC_UTF32 !in hp.typ {
      code := code + (Print(hp.codepage, 10) + "#");
    }
    assert code == done + CodepagePart(hp);
    Append(done, CodepagePart(hp), FromPadding(hp, x));
    ghost var before := code;
    if hp.padding != 0 {
      code := code + (HexString(ToInt64(hp.padding)) + "+");
    }
    assert code == before + PaddingPart(hp);
    Append(before, PaddingPart(hp), FromOffset(hp, x));
    code := GenerateNumbers(hp, m, code);
  }

  method GenerateNumbers(input: HookParam, m: Mapping, done: string) returns (code: string)
    requires Representable(input)
    ensures code == done + FromOffset(input, TargetText(Relative(input, m)))
  {
    ghost var x := TargetText(Relative(input, m));
    var hp := input;
    code := done;
    if hp.offset < 0 {
      hp := hp.(offset := hp.offset + 4);
    }
    if hp.split < 0 {
      hp := hp.(split := hp.split + 4);
    }
    if hp.jittype == PC {
      code := code + HexString(hp.offset);
    } else {
      code := code + HexString(hp.argidx);
    }
    assert code == done + HexString(LeadNumber(input));
    Append(done, HexString(LeadNumber(input)), FromIndex(input, x));
    ghost var before := code;
    if DATA_INDIRECT in hp.typ {
      code := code + ("*" + HexString(hp.index));
    }
    assert code == before + IndexPart(input);
    Append(before, IndexPart(input), FromSplit(input, x));
    code := GenerateSplit(input, m, hp.split, code);
  }

  method GenerateSplit(hp: HookParam, m: Mapping, split: int, done: string) returns (code: string)
    requires Representable(hp) && split == Uncorrect(hp.split)
    ensures code == done + FromSplit(hp, TargetText(Relative(hp, m)))
  {
    ghost var x := TargetText(Relative(hp, m));
    code := done;
    if USING_SPLIT in hp.typ {
      code := code + (":" + HexString(split));
    }
    assert code == done + SplitPart(hp);
    Append(done, SplitPart(hp), FromSplitIndex(hp, x));
    ghost var before := code;
    if SPLIT_INDIRECT in hp.typ {
      code := code + ("*" + HexString(hp.splitIndex));
    }
    assert code == before + SplitIndexPart(hp);
    Append(before, SplitIndexPart(hp), "@" + x);
    code := GenerateTarget(hp, m, code);
  }

  /** The attempt to make the address relative. */
  method MakeRelative(input: HookParam, m: Mapping) returns (hp: HookParam)
    requires Representable(input)
    ensures hp == if input.jittype == PC then Relative(input, m) else input
  {
    hp := input;
    if hp.jittype == PC && m != Unmapped && MODULE_OFFSET !in hp.typ {
      hp := With(hp, MODULE_OFFSET);
      hp := hp.(address := Rebased(hp.address, m.base));
      hp := hp.(moduleName := ModuleName(m.path));
    }
  }

  method GenerateTarget(input: HookParam, m: Mapping, done: string) returns (code: string)
    requires Representable(input)
    ensures code == done + ("@" + TargetText(Relative(input, m)))
  {
    var hp := MakeRelative(input, m);
    assert hp == Relative(input, m);
    hide Relative;
    code := PrintTarget(hp, done);
  }

  /** The at sign and what stands behind it. */
  method PrintTarget(hp: HookParam, done: string) returns (code: string)
    requires Representable(hp)
    ensures code == done + ("@" + TargetText(hp))
  {
    hide HexString, ToInt64, Widen;
    code := done;
    if hp.jittype == PC {
      code := code + ("@" + HexString(ToInt64(hp.address)));
      if MODULE_OFFSET in hp.typ {
        code := code + (":" + hp.moduleName);
      }
      if FUNCTION_OFFSET in hp.typ {
        code := code + (":" + Widen(hp.functionName));
      }
    } else if hp.jittype == UNITY {
      code := code + "@";
      code := code + Widen(hp.unityInfo);
      code := code + ":JIT:UNITY";
    } else {
      code := code + ("@" + HexString(ToInt64(hp.emuAddr)));
      match hp.jittype
      case YUZU => code := code + ":JIT:YUZU";
      case PPSSPP => code := code + ":JIT:PPSSPP";
      case VITA3K => code := code + ":JIT:VITA3K";
      case RPCS3 => code := code + ":JIT:RPCS3";
    }
    assert code == done + ("@" + TargetText(hp));
  }

  method GenerateRCode(hp: HookParam) returns (code: string)
    requires Representable(hp)
    ensures code == GenerateR(hp)
  {
    hide Print, HexString, ToInt64;
    code := "R";
    if CODEC_UTF16 in hp.typ {
      code := code + "Q";
    } else if CODEC_UTF32 in hp.typ {
      code := code + "U";
    } else if CODEC_UTF8 in hp.typ {
      code := code + "V";
    } else {
      code := code + "S";
      if hp.codepage != 0 {
        code := code + (Print(hp.codepage, 10) + "#");
      }
    }
    assert code == ['R', ReadLetter(hp)] + CodepagePart(hp);
    code := code + ("@" + HexString(ToInt64(hp.address)));
  }

  method GenerateHookCode(hp: HookParam, m: Mapping) returns (code: string)
    requires Representable(hp)
    ensures code == GenerateFor(hp, m)
  {
    if DIRECT_READ in hp.typ {
      code := GenerateRCode(hp);
    } else {
      code := GenerateHCode(hp, m);
    }
  }
}
