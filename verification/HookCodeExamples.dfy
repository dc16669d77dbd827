/** Hook codes that the engine sources give for known games, and the descriptors they stand for. */
module HookCodeExamples {
  import opened MachineTypes
  import opened Numerals
  import opened HookParams
  import opened HookCodeParser
  import opened HookCodeGenerator
  import opened HookCodeShape
  import opened HookCodeCanonical
  import opened HookCodeText
  import opened HookCodeRoundTrip
  import opened HookCodeCase
  import opened HookCodeAnyCase

  // ---------- numbers ----------

  lemma PrintOne(d: nat, base: nat)
    requires (base == 10 || base == 16) && d < base
    ensures Print(d, base) == [DigitChar(d)]
  {
  }

  lemma PrintMore(v: nat, d: nat, base: nat)
    requires (base == 10 || base == 16) && v > 0 && d < base
    ensures Print(v * base + d, base) == Print(v, base) + [DigitChar(d)]
  {
    assert (v * base + d) / base == v && (v * base + d) % base == d;
  }

  lemma PrintTwoMore(v: nat, b: nat, c: nat, base: nat)
    requires (base == 10 || base == 16) && v > 0 && b < base && c < base
    ensures Print((v * base + b) * base + c, base) == Print(v, base) + [DigitChar(b), DigitChar(c)]
  {
    PrintMore(v, b, base);
    PrintMore(v * base + b, c, base);
    assert Print(v, base) + [DigitChar(b)] + [DigitChar(c)] == Print(v, base) + [DigitChar(b), DigitChar(c)];
  }

  /** A canonical code is parsed with and without a slash in front of it. */
  lemma CodeIsParsed(hp: HookParam, code: string)
    requires Representable(hp) && Canonical(hp) && Generate(hp) == code && Head(code) != '/'
    ensures Parse(code) == Hook(hp) && Parse("/" + code) == Hook(hp)
  {
    hide *;
    RoundTrip(hp);
    SlashesAreIgnored(code, "");
  }

  // ---------- characters: Artemis ----------

  /** A character behind a register, told apart by the sixth stack word. */
  const ARTEMIS := ZERO.(address := 0x650A2F, offset := -0xC, split := 0x14, typ := {NO_CONTEXT, DATA_INDIRECT, USING_SPLIT})

  lemma ArtemisNumbers()
    ensures HexString(-8) == "-8" && HexString(0) == "0" && HexString(0x14) == "14" && HexString(0x650A2F) == "650A2F"
  {
    PrintOne(8, 16);
    PrintOne(0, 16);
    PrintOne(1, 16);
    PrintMore(1, 4, 16);
    PrintOne(6, 16);
    PrintMore(6, 5, 16);
    PrintTwoMore(0x65, 0, 0xA, 16);
    PrintTwoMore(0x650A, 2, 0xF, 16);
    hide Print;
  }

  lemma ArtemisIsPrinted()
    ensures Representable(ARTEMIS) && Canonical(ARTEMIS) && Generate(ARTEMIS) == "HBN-8*0:14@650A2F"
  {
    ArtemisNumbers();
    hide HexString, Print;
    var hp := ARTEMIS;
    assert TargetText(hp) == "650A2F";
    assert FromIndex(hp, "650A2F") == "*0:14@650A2F";
    assert FromOffset(hp, "650A2F") == "-8*0:14@650A2F";
  }

  /** Artemis.cpp gives the fields of this code: -8 stands for the register at -0xC. */
  lemma Artemis()
    ensures Parse("HBN-8*0:14@650A2F") == Hook(ARTEMIS) && Parse("/" + "HBN-8*0:14@650A2F") == Hook(ARTEMIS)
  {
    hide Parse, Generate, Canonical, Representable;
    ArtemisIsPrinted();
    CodeIsParsed(ARTEMIS, "HBN-8*0:14@650A2F");
  }

  // ---------- strings in a module: AGES 7, LightVN, Silkys ----------

  /** The name of a file, as modules have it, without blanks. */
  predicate IsFileName(m: string) {
    && 0 < |m| < MAX_MODULE_SIZE
    && forall i :: 0 <= i < |m| ==> m[i] != '/' && m[i] != ':' && m[i] != '\0' && !IsLineBreak(m[i]) && !IsSpace(m[i])
  }

  lemma ModuleIsOk(hp: HookParam)
    requires Representable(hp) && MODULE_OFFSET in hp.typ && FUNCTION_OFFSET !in hp.typ && IsFileName(hp.moduleName)
    ensures NamesPart(hp) == ":" + hp.moduleName && NamesOk(hp)
  {
    var m := hp.moduleName;
    var names := ":" + m;
    assert NamesPart(hp) == names;
    hide IsSpace, IsLineBreak, NamesPart;
    assert forall i :: 1 <= i < |names| ==> names[i] == m[i - 1];
    assert names[0] == ':' && !IsLineBreak(':');
    NoSuffix(m, ":JIT:YUZU");
    NoSuffix(m, ":JIT:PPSSPP");
    NoSuffix(m, ":JIT:VITA3K");
    NoSuffix(m, ":JIT:RPCS3");
    NoSuffix(m, ":JIT:UNITY");
  }

  lemma NoSuffix(m: string, suffix: string)
    requires ':' !in m && |suffix| > 4 && suffix[0] == ':' && suffix[4] == ':'
    ensures !EndsWith("@" + (":" + m), suffix)
  {
    var s := "@" + (":" + m);
    assert forall i :: 2 <= i < |s| ==> s[i] == m[i - 2];
    if EndsWith(s, suffix) {
      SuffixIsPart(s, suffix);
      assert false;
    }
  }

  /** A UTF-8 string, by its codepage, in a register of a module. */
  function Ages(m: string): HookParam {
    ZERO.(address := 0x234699, offset := -0x48, codepage := 65001, moduleName := m,
          typ := {USING_STRING, NO_CONTEXT, MODULE_OFFSET})
  }

  lemma AgesNumbers()
    ensures HexString(-0x44) == "-44" && HexString(0x234699) == "234699" && Print(65001, 10) == "65001"
  {
    PrintOne(4, 16);
    PrintMore(4, 4, 16);
    PrintOne(2, 16);
    PrintMore(2, 3, 16);
    PrintTwoMore(0x23, 4, 6, 16);
    PrintTwoMore(0x2346, 9, 9, 16);
    PrintOne(6, 10);
    PrintTwoMore(6, 5, 0, 10);
    PrintTwoMore(650, 0, 1, 10);
    hide Print;
  }

  lemma AgesIsCanonical(m: string)
    requires IsFileName(m)
    ensures Representable(Ages(m)) && Canonical(Ages(m))
  {
    var hp := Ages(m);
    assert Representable(hp);
    assert HookShape(hp);
    ModuleIsOk(hp);
    CodepageIsPrinted(hp);
    hide *;
    TextIsCanonical(hp);
  }

  lemma CodepageIsPrinted(hp: HookParam)
    requires Representable(hp) && hp.codepage != 0 && !IsUnicode(hp)
    ensures CodepagePart(hp) != ""
  {
  }

  lemma TextIsCanonical(hp: HookParam)
    requires HookShape(hp) && NamesOk(hp) && CodepagePart(hp) != "" && hp.jittype == PC
    requires HOOK_RETURN !in hp.typ && DIRECT_READ !in hp.typ && hp.address < INT64_LIMIT && hp.padding < INT64_LIMIT
    requires !IsUnicode(hp)
    ensures Canonical(hp)
  {
    hide HookShape, NamesOk, CodepagePart, Print;
    assert hp.codepage < INT_LIMIT by { ShapeParts(hp); }
  }

  lemma ShapeParts(hp: HookParam)
    requires HookShape(hp)
    ensures hp.codepage < INT_LIMIT
  {
  }

  lemma AgesTarget(hp: HookParam, m: string)
    requires Representable(hp) && hp.jittype == PC && hp.address == 0x234699 && HexString(0x234699) == "234699"
    requires NamesPart(hp) == ":" + m
    ensures TargetText(hp) == "234699" + (":" + m)
  {
    hide NamesPart, HexString;
  }

  lemma AgesIsPrinted(hp: HookParam, m: string)
    requires Representable(hp) && hp.typ == {USING_STRING, NO_CONTEXT, MODULE_OFFSET} && hp.extras == NO_EXTRAS
    requires hp.offset == -0x48 && hp.jittype == PC && hp.codepage == 65001 && hp.padding == 0 && hp.address == 0x234699
    requires NamesPart(hp) == ":" + m
    ensures Generate(hp) == "HSN65001#-44@234699:" + m
  {
    hide *;
    AgesNumbers();
    AgesTarget(hp, m);
    AgesOffset(hp, TargetText(hp));
    AgesStart(hp, TargetText(hp));
    HookIsPrinted(hp);
    AgesPieces(m);
  }

  lemma AgesPieces(m: string)
    ensures "HSN" + ("65001#" + ("-44" + ("@" + ("234699" + (":" + m))))) == "HSN65001#-44@234699:" + m
  {
    Pieces("HSN", "65001#", "-44", "@", "234699", ":", m);
    assert "HSN" + "65001#" + "-44" + "@" + "234699" + ":" == "HSN65001#-44@234699:";
  }

  lemma HookIsPrinted(hp: HookParam)
    requires Representable(hp) && DIRECT_READ !in hp.typ
    ensures Generate(hp) == FromStart(hp, TargetText(hp))
  {
  }

  lemma Pieces(a: string, b: string, c: string, d: string, e: string, f: string, m: string)
    ensures a + (b + (c + (d + (e + (f + m))))) == a + b + c + d + e + f + m
  {
  }

  /** The code without an F, a padding or options behind the first number. */
  lemma StartOf(hp: HookParam, x: string)
    requires Representable(hp)
    ensures FromStart(hp, x)
         == EmbedPart(hp) + (TagPart(hp) + ([CodecLetter(hp)] + (FilterPart(hp) + (FullPart(hp) + (ContextPart(hp)
            + (CodepagePart(hp) + (PaddingPart(hp) + FromOffset(hp, x))))))))
  {
    hide EmbedPart, TagPart, CodecLetter, FilterPart, FullPart, ContextPart, CodepagePart, PaddingPart, FromOffset;
  }

  lemma LettersJoin(e: string, n: string, p: string, rest: string)
    ensures e + ("H" + (['S'] + ("" + ("" + (n + (p + ("" + rest))))))) == (e + "HS" + n) + (p + rest)
  {
    assert "" + rest == rest;
    var u := p + rest;
    assert "" + ("" + (n + u)) == n + u;
    assert e + ("H" + (['S'] + (n + u))) == (e + "HS" + n) + u;
  }

  lemma AgesOffset(hp: HookParam, x: string)
    requires hp.typ == {USING_STRING, NO_CONTEXT, MODULE_OFFSET} && hp.offset == -0x48 && hp.jittype == PC
    requires HexString(-0x44) == "-44"
    ensures FromOffset(hp, x) == "-44" + ("@" + x)
  {
    hide HexString;
    assert FromIndex(hp, x) == "@" + x;
  }

  lemma AgesStart(hp: HookParam, x: string)
    requires Representable(hp) && hp.typ == {USING_STRING, NO_CONTEXT, MODULE_OFFSET} && hp.extras == NO_EXTRAS
    requires hp.codepage == 65001 && Print(65001, 10) == "65001" && hp.padding == 0
    ensures FromStart(hp, x) == "HSN" + ("65001#" + FromOffset(hp, x))
  {
    hide FromStart, FromOffset, Print, Representable;
    StartOf(hp, x);
    assert EmbedPart(hp) == FilterPart(hp) == FullPart(hp) == PaddingPart(hp) == "" && TagPart(hp) == "H";
    assert CodecLetter(hp) == 'S' && ContextPart(hp) == "N" && CodepagePart(hp) == "65001#";
    LettersJoin("", "N", "65001#", FromOffset(hp, x));
  }

  /** AGES7.cpp: a UTF-8 string without context whose pointer is in rdi, -44 for the register at -0x48. */
  lemma AgesCode(m: string)
    requires IsFileName(m)
    ensures Parse("HSN65001#-44@234699:" + m) == Hook(Ages(m))
  {
    var hp := Ages(m);
    assert Head("HSN65001#-44@234699:" + m) == 'H';
    AgesIsCanonical(m);
    AgesNames(m);
    assert hp.typ == {USING_STRING, NO_CONTEXT, MODULE_OFFSET} && hp.offset == -0x48 && hp.jittype == PC;
    assert hp.codepage == 65001 && hp.padding == 0 && hp.extras == NO_EXTRAS && hp.address == 0x234699;
    hide *;
    AgesIsPrinted(hp, m);
    CodeIsParsed(hp, "HSN65001#-44@234699:" + m);
  }

  lemma AgesNames(m: string)
    requires IsFileName(m)
    ensures Representable(Ages(m)) && NamesPart(Ages(m)) == ":" + m
  {
    ModuleIsOk(Ages(m));
  }

  /** Silkys.cpp: a string with codepage 932 in a register, embedded, with its Shift-JIS made up and the text put behind. */
  function Silkys(m: string): HookParam {
    ZERO.(address := 0x42650, offset := -0xC, codepage := 932, moduleName := m,
          typ := {USING_STRING, EMBED_ABLE, EMBED_DYNA_SJIS, EMBED_BEFORE_SIMPLE, EMBED_AFTER_NEW, MODULE_OFFSET})
  }

  lemma SilkysNumbers()
    ensures HexString(-8) == "-8" && HexString(0x42650) == "42650" && Print(932, 10) == "932"
  {
    PrintOne(8, 16);
    PrintOne(4, 16);
    PrintTwoMore(4, 2, 6, 16);
    PrintTwoMore(0x426, 5, 0, 16);
    PrintOne(9, 10);
    PrintTwoMore(9, 3, 2, 10);
    hide Print;
  }

  predicate SilkysFlags(typ: set<Flag>) {
    typ == {USING_STRING, EMBED_ABLE, EMBED_DYNA_SJIS, EMBED_BEFORE_SIMPLE, EMBED_AFTER_NEW, MODULE_OFFSET}
  }

  lemma SilkysTarget(hp: HookParam, m: string)
    requires Representable(hp) && hp.jittype == PC && hp.address == 0x42650 && HexString(0x42650) == "42650"
    requires NamesPart(hp) == ":" + m
    ensures TargetText(hp) == "42650" + (":" + m)
  {
    hide NamesPart, HexString;
  }

  lemma SilkysOffset(hp: HookParam, x: string)
    requires SilkysFlags(hp.typ) && hp.offset == -0xC && hp.jittype == PC && HexString(-8) == "-8"
    ensures FromOffset(hp, x) == "-8" + ("@" + x)
  {
    hide HexString;
    assert FromIndex(hp, x) == "@" + x;
  }

  lemma SilkysStart(hp: HookParam, x: string)
    requires Representable(hp) && SilkysFlags(hp.typ) && hp.extras == NO_EXTRAS
    requires hp.codepage == 932 && Print(932, 10) == "932" && hp.padding == 0
    ensures FromStart(hp, x) == "EDSNHS" + ("932#" + FromOffset(hp, x))
  {
    hide FromStart, FromOffset, Print, Representable;
    StartOf(hp, x);
    assert FilterPart(hp) == FullPart(hp) == ContextPart(hp) == PaddingPart(hp) == "" && TagPart(hp) == "H";
    assert EmbedPart(hp) == "EDSN" && CodecLetter(hp) == 'S' && CodepagePart(hp) == "932#";
    LettersJoin("EDSN", "", "932#", FromOffset(hp, x));
  }

  lemma SilkysIsPrinted(hp: HookParam, m: string)
    requires Representable(hp) && SilkysFlags(hp.typ) && hp.extras == NO_EXTRAS && DIRECT_READ !in hp.typ
    requires hp.offset == -0xC && hp.jittype == PC && hp.codepage == 932 && hp.padding == 0 && hp.address == 0x42650
    requires NamesPart(hp) == ":" + m
    ensures Generate(hp) == "EDSNHS932#-8@42650:" + m
  {
    hide *;
    SilkysNumbers();
    SilkysTarget(hp, m);
    SilkysOffset(hp, TargetText(hp));
    SilkysStart(hp, TargetText(hp));
    HookIsPrinted(hp);
    SilkysPieces(m);
  }

  lemma SilkysPieces(m: string)
    ensures "EDSNHS" + ("932#" + ("-8" + ("@" + ("42650" + (":" + m))))) == "EDSNHS932#-8@42650:" + m
  {
    Pieces("EDSNHS", "932#", "-8", "@", "42650", ":", m);
    assert "EDSNHS" + "932#" + "-8" + "@" + "42650" + ":" == "EDSNHS932#-8@42650:";
  }

  lemma SilkysIsCanonical(m: string)
    requires IsFileName(m)
    ensures Representable(Silkys(m)) && Canonical(Silkys(m)) && NamesPart(Silkys(m)) == ":" + m
  {
    var hp := Silkys(m);
    assert Representable(hp);
    assert HookShape(hp);
    ModuleIsOk(hp);
    CodepageIsPrinted(hp);
    hide *;
    TextIsCanonical(hp);
  }

  lemma SilkysCode(m: string)
    requires IsFileName(m)
    ensures Parse("EDSNHS932#-8@42650:" + m) == Hook(Silkys(m))
  {
    var hp := Silkys(m);
    assert Head("EDSNHS932#-8@42650:" + m) == 'E';
    SilkysIsCanonical(m);
    assert SilkysFlags(hp.typ) && DIRECT_READ !in hp.typ && hp.offset == -0xC && hp.jittype == PC;
    assert hp.codepage == 932 && hp.padding == 0 && hp.extras == NO_EXTRAS && hp.address == 0x42650;
    hide *;
    SilkysIsPrinted(hp, m);
    CodeIsParsed(hp, "EDSNHS932#-8@42650:" + m);
  }

  // ---------- the letters ----------

  /** What the help text of the host says of each letter: characters, strings, and how they are coded. */
  function Documented(c: char): set<Flag> {
    match c
    case 'A' => {CODEC_ANSI_BE}
    case 'W' => {CODEC_UTF16}
    case 'I' => {CODEC_UTF32}
    case 'S' => {USING_STRING}
    case 'Q' => {USING_STRING, CODEC_UTF16}
    case 'V' => {USING_STRING, CODEC_UTF8}
    case 'U' => {USING_STRING, CODEC_UTF32}
    case 'M' => {USING_STRING, CODEC_UTF16, SPECIAL_JIT_STRING}
    case _ => {}
  }

  /** The shortest code with a letter. */
  function Short(c: char): HookParam { ZERO.(typ := Documented(c), address := 4) }

  /** Every letter stands for its coding, in a hook code without anything else. */
  lemma LettersMean(c: char)
    requires c in "ABWISQVUM"
    ensures Parse(['H', c] + "0@4") == Hook(ZERO.(typ := Documented(c), address := 4))
  {
    assert Short(c) == ZERO.(typ := Documented(c), address := 4);
    ShortIsCanonical(c);
    assert Head(['H', c] + "0@4") == 'H';
    hide *;
    ShortIsPrinted(c);
    CodeIsParsed(Short(c), ['H', c] + "0@4");
  }

  lemma ShortIsCanonical(c: char)
    requires c in "ABWISQVUM"
    ensures Representable(Short(c)) && Canonical(Short(c))
  {
    var hp := Short(c);
    PrintOne(0, 16);
    hide Print;
    assert HookShape(hp);
    hide HookShape;
    assert FullOk(hp) && TargetOk(hp);
  }

  lemma ShortIsPrinted(c: char)
    requires c in "ABWISQVUM" && Representable(Short(c))
    ensures Generate(Short(c)) == ['H', c] + "0@4"
  {
    var hp := Short(c);
    assert CodecLetter(hp) == c && hp.typ <= CODEC_FLAGS;
    assert hp.address == 4 && hp.extras == NO_EXTRAS && hp.codepage == hp.padding == hp.offset == 0 && hp.jittype == PC;
    hide *;
    BareCode(hp, c);
  }

  lemma BareCode(hp: HookParam, c: char)
    requires Representable(hp) && CodecLetter(hp) == c && hp.typ <= CODEC_FLAGS && hp.extras == NO_EXTRAS && hp.jittype == PC
    requires hp.address == 4 && hp.codepage == hp.padding == hp.offset == 0
    ensures Generate(hp) == ['H', c] + "0@4"
  {
    BareOffset(hp);
    BareParts(hp);
    HookIsPrinted(hp);
    hide *;
    StartOf(hp, "4");
    assert "" + ("H" + ([c] + ("" + ("" + ("" + ("" + ("" + "0@4"))))))) == ['H', c] + "0@4";
  }

  lemma BareOffset(hp: HookParam)
    requires Representable(hp) && hp.typ <= CODEC_FLAGS && hp.jittype == PC && hp.address == 4 && hp.offset == 0
    ensures TargetText(hp) == "4" && FromOffset(hp, "4") == "0@4"
  {
    PrintOne(4, 16);
    PrintOne(0, 16);
    hide Print, Representable;
    assert IndexPart(hp) == SplitPart(hp) == SplitIndexPart(hp) == NamesPart(hp) == "";
  }

  lemma BareParts(hp: HookParam)
    requires Representable(hp) && hp.typ <= CODEC_FLAGS && hp.extras == NO_EXTRAS && hp.codepage == hp.padding == 0
    ensures EmbedPart(hp) == FilterPart(hp) == FullPart(hp) == ContextPart(hp) == CodepagePart(hp) == PaddingPart(hp) == ""
    ensures TagPart(hp) == "H" && DIRECT_READ !in hp.typ
  {
    hide Print, Representable;
  }

  /** A typed read code may have its digits in lower case: this one reads from address 10. */
  lemma LowerCaseRead()
    ensures Parse("RS@a") == Hook(ZERO.(typ := {DIRECT_READ}, address := 10))
  {
    var hp := ZERO.(typ := {DIRECT_READ}, address := 10);
    ReadIsCanonical(hp);
    ReadIsPrinted(hp);
    assert CaseAlike("a", "A");
    hide *;
    RoundTrip(hp);
    ReadCaseChangesNothing(hp, "a");
  }

  lemma ReadIsCanonical(hp: HookParam)
    requires hp == ZERO.(typ := {DIRECT_READ}, address := 10)
    ensures Representable(hp) && Canonical(hp) && DIRECT_READ in hp.typ
  {
  }

  lemma ReadIsPrinted(hp: HookParam)
    requires Representable(hp) && hp == ZERO.(typ := {DIRECT_READ}, address := 10)
    ensures HexString(ToInt64(hp.address)) == "A" && WrittenRead(hp, "a") == "RS@a"
  {
    PrintOne(10, 16);
    hide Print;
    assert CodepagePart(hp) == "";
    assert ['R', 'S'] + ("" + ("@" + "a")) == "RS@a";
  }
}
