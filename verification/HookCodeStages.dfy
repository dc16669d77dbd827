/** Each parse stage reads back what the generator printed for it. */
module HookCodeStages {
  import opened MachineTypes
  import opened Numerals
  import opened HookParams
  import opened HookCodeParser
  import opened HookCodeGenerator
  import opened HookCodeShape
  import opened HookCodeCanonical

  // ---------- what a parse stage never takes back ----------

  predicate Keeps(r: Outcome, hp: HookParam) {
    KeepsFlags(r, hp) && (r.Hook? ==> r.hp.codepage == hp.codepage)
  }

  predicate KeepsFlags(r: Outcome, hp: HookParam) {
    r.Hook? ==> && r.hp.jittype == hp.jittype
                && (FULL_STRING in hp.typ ==> FULL_STRING in r.hp.typ)
                && (HOOK_RETURN in r.hp.typ ==> HOOK_RETURN in hp.typ)
  }

  lemma TargetKeeps(code: string, hp: HookParam)
    ensures Keeps(ParseTarget(code, hp), hp)
  {
    hide MatchTarget, CopyCString, Narrow, Correct, CutAt;
  }

  lemma SplitIndexKeeps(code: string, hp: HookParam)
    ensures Keeps(ParseSplitIndex(code, hp), hp)
  {
    TargetKeeps(code, hp);
    var k := ScanHex(Tail(code));
    TargetKeeps(Tail(code)[k.size..], With(hp, SPLIT_INDIRECT).(splitIndex := k.value));
  }

  lemma SplitKeeps(code: string, hp: HookParam)
    ensures Keeps(ParseSplit(code, hp), hp)
  {
    TargetKeeps(code, hp);
    var k := ScanHex(Tail(code));
    SplitIndexKeeps(Tail(code)[k.size..], With(hp, USING_SPLIT).(split := k.value));
  }

  lemma OffsetKeeps(code: string, hp: HookParam)
    ensures Keeps(ParseOffset(code, hp), hp)
  {
    var k := ScanHex(code);
    var c, h := code[k.size..], hp.(offset := k.value);
    SplitKeeps(c, h);
    var k2 := ScanHex(Tail(c));
    SplitKeeps(Tail(c)[k2.size..], With(h, DATA_INDIRECT).(index := k2.value));
  }

  lemma PaddingKeeps(code: string, hp: HookParam)
    ensures Keeps(ParsePadding(code, hp), hp)
  {
    match MatchPrefixed(code, 16, '+')
    case Absent => OffsetKeeps(code, hp);
    case Present(v, rest) => OffsetKeeps(rest, hp.(padding := v));
  }

  lemma CodepageKeeps(code: string, hp: HookParam)
    ensures KeepsFlags(ParseCodepage(code, hp), hp)
  {
    match MatchPrefixed(code, 10, '#')
    case Absent => PaddingKeeps(code, hp);
    case Present(v, rest) => PaddingKeeps(rest, hp.(codepage := v));
  }

  lemma ContextKeeps(code: string, hp: HookParam)
    ensures KeepsFlags(ParseContext(code, hp), hp)
  {
    CodepageKeeps(code, hp);
    CodepageKeeps(Tail(code), With(hp, NO_CONTEXT));
  }

  lemma FullKeeps(code: string, hp: HookParam)
    ensures KeepsFlags(ParseFull(code, hp), hp)
  {
    ContextKeeps(code, hp);
    ContextKeeps(Tail(code), With(hp, FULL_STRING));
  }

  // ---------- the descriptor as it is when a stage begins ----------

  function AtTarget(hp: HookParam): (r: HookParam)
    ensures r.splitIndex == hp.splitIndex && (SPLIT_INDIRECT in r.typ <==> SPLIT_INDIRECT in hp.typ)
  {
    hp.(address := 0, emuAddr := 0, argidx := 0, unityInfo := "", moduleName := "", functionName := "",
        offset := LeadNumber(hp), split := Uncorrect(hp.split), typ := hp.typ - {MODULE_OFFSET, FUNCTION_OFFSET})
  }

  function AtSplitIndex(hp: HookParam): (r: HookParam)
    ensures r.split == Uncorrect(hp.split) && (USING_SPLIT in r.typ <==> USING_SPLIT in hp.typ)
  {
    var h := AtTarget(hp);
    h.(splitIndex := 0, typ := h.typ - {SPLIT_INDIRECT})
  }

  function AtSplit(hp: HookParam): (r: HookParam)
    ensures r.index == hp.index && (DATA_INDIRECT in r.typ <==> DATA_INDIRECT in hp.typ)
  {
    var h := AtSplitIndex(hp);
    h.(split := 0, typ := h.typ - {USING_SPLIT})
  }

  function AtIndex(hp: HookParam): HookParam {
    var h := AtSplit(hp);
    h.(index := 0, typ := h.typ - {DATA_INDIRECT})
  }

  function AtOffset(hp: HookParam): HookParam { AtIndex(hp).(offset := 0) }

  function AtPadding(hp: HookParam): (r: HookParam)
    ensures r.codepage == hp.codepage
  {
    AtOffset(hp).(padding := 0)
  }

  function AtCodepage(hp: HookParam): (r: HookParam)
    ensures NO_CONTEXT in r.typ <==> NO_CONTEXT in hp.typ
  {
    AtPadding(hp).(codepage := 0)
  }

  function AtContext(hp: HookParam): (r: HookParam)
    ensures FULL_STRING in r.typ <==> FULL_STRING in hp.typ
    ensures USING_STRING in r.typ <==> USING_STRING in hp.typ
  {
    var h := AtCodepage(hp);
    h.(typ := h.typ - {NO_CONTEXT})
  }

  function AtFull(hp: HookParam): (r: HookParam)
    ensures forall f :: f in CODEC_FLAGS ==> (f in r.typ <==> f in hp.typ)
  {
    var h := AtContext(hp);
    h.(typ := h.typ - {FULL_STRING})
  }

  function AtBody(hp: HookParam): HookParam {
    var h := AtFull(hp);
    h.(jittype := PC, typ := h.typ - CODEC_FLAGS)
  }

  function AtTag(hp: HookParam): HookParam {
    var h := AtBody(hp);
    h.(typ := h.typ - {BREAK_POINT})
  }

  /** The last stage, common to all the equivalences below. */
  predicate TargetReads(hp: HookParam, x: string) { ParseTarget("@" + x, AtTarget(hp)) == Hook(hp) }

  // ---------- each stage reads what was printed for it ----------

  /** Characters after which no number goes on. */
  predicate EndsNumber(s: string) { s != "" && (s[0] == '*' || s[0] == ':' || s[0] == '@' || s[0] == '+' || s[0] == '#') }

  lemma ScanPrinted(num: int, rest: string)
    requires EndsNumber(rest)
    ensures var k := ScanHex(HexString(num) + rest);
            k.value == num && (HexString(num) + rest)[k.size..] == rest
  {
    ScanOfHexString(num, rest);
  }

  /** A number behind its mark. */
  lemma ScanMarked(mark: char, num: int, rest: string)
    requires EndsNumber(rest)
    ensures var s := [mark] + HexString(num) + rest;
            Head(s) == mark && var k := ScanHex(Tail(s)); k.value == num && Tail(s)[k.size..] == rest
  {
    var t := HexString(num) + rest;
    assert [mark] + HexString(num) + rest == [mark] + t;
    assert ([mark] + t)[1..] == t;
    ScanPrinted(num, rest);
  }

  lemma TakeAndPutBack(typ: set<Flag>, f: Flag)
    ensures f in typ ==> typ - {f} + {f} == typ
    ensures f !in typ ==> typ - {f} == typ
  {
  }

  lemma ReadSplitIndex(h: HookParam, x: string)
    requires IsInt(h.splitIndex) && (SPLIT_INDIRECT !in h.typ ==> h.splitIndex == 0)
    ensures ParseSplitIndex(SplitIndexPart(h) + ("@" + x), h.(splitIndex := 0, typ := h.typ - {SPLIT_INDIRECT}))
         == ParseTarget("@" + x, h)
  {
    TakeAndPutBack(h.typ, SPLIT_INDIRECT);
    var start := h.(splitIndex := 0, typ := h.typ - {SPLIT_INDIRECT});
    if SPLIT_INDIRECT in h.typ {
      ScanMarked('*', h.splitIndex, "@" + x);
      assert With(start, SPLIT_INDIRECT).(splitIndex := h.splitIndex) == h;
    } else {
      assert SplitIndexPart(h) + ("@" + x) == "@" + x;
      assert start == h;
    }
  }

  lemma ReadSplit(h: HookParam, rest: string)
    requires IsInt(h.split) && USING_SPLIT in h.typ && EndsNumber(rest)
    ensures ParseSplit(":" + HexString(h.split) + rest, h.(split := 0, typ := h.typ - {USING_SPLIT}))
         == ParseSplitIndex(rest, h)
  {
    var start := h.(split := 0, typ := h.typ - {USING_SPLIT});
    TakeAndPutBack(h.typ, USING_SPLIT);
    ScanMarked(':', h.split, rest);
    assert With(start, USING_SPLIT).(split := h.split) == h;
  }

  /** The numbers fit, and a number without its flag is zero. */
  predicate NumbersFit(hp: HookParam) {
    && IsInt(LeadNumber(hp)) && IsInt(hp.index) && IsInt(Uncorrect(hp.split)) && IsInt(hp.splitIndex)
    && (DATA_INDIRECT !in hp.typ ==> hp.index == 0)
    && (USING_SPLIT !in hp.typ ==> hp.split == 0 && SPLIT_INDIRECT !in hp.typ)
    && (SPLIT_INDIRECT !in hp.typ ==> hp.splitIndex == 0)
  }

  lemma SplitReads(hp: HookParam, x: string)
    requires NumbersFit(hp)
    ensures ParseSplit(FromSplit(hp, x), AtSplit(hp)) == ParseTarget("@" + x, AtTarget(hp))
  {
    var h, rest := AtSplitIndex(hp), FromSplitIndex(hp, x);
    if USING_SPLIT in hp.typ {
      assert EndsNumber(rest);
      assert FromSplit(hp, x) == ":" + HexString(h.split) + rest;
      ReadSplit(h, rest);
      ReadSplitIndex(AtTarget(hp), x);
    } else {
      assert FromSplit(hp, x) == "@" + x;
      TakeAndPutBack(AtTarget(hp).typ, SPLIT_INDIRECT);
      TakeAndPutBack(h.typ, USING_SPLIT);
      assert AtSplit(hp) == AtTarget(hp);
    }
  }

  lemma HeadOfSplit(hp: HookParam, x: string)
    requires USING_SPLIT !in hp.typ ==> SPLIT_INDIRECT !in hp.typ
    ensures EndsNumber(FromSplit(hp, x)) && Head(FromSplit(hp, x)) != '*' && Head(FromSplit(hp, x)) != '+'
  {
  }

  lemma IndexReads(hp: HookParam, x: string)
    requires NumbersFit(hp)
    ensures ParseIndex(FromIndex(hp, x), AtIndex(hp)) == ParseTarget("@" + x, AtTarget(hp))
  {
    var h, rest := AtSplit(hp), FromSplit(hp, x);
    assert EndsNumber(rest) && rest[0] != '*' by { HeadOfSplit(hp, x); }
    assert ParseIndex(IndexPart(h) + rest, h.(index := 0, typ := h.typ - {DATA_INDIRECT})) == ParseSplit(rest, h) by {
      ReadIndex(h, rest);
    }
    assert IndexPart(h) == IndexPart(hp);
    SplitReads(hp, x);
  }

  lemma ReadIndex(h: HookParam, rest: string)
    requires IsInt(h.index) && (DATA_INDIRECT !in h.typ ==> h.index == 0)
    requires EndsNumber(rest) && rest[0] != '*'
    ensures ParseIndex(IndexPart(h) + rest, h.(index := 0, typ := h.typ - {DATA_INDIRECT})) == ParseSplit(rest, h)
  {
    var start := h.(index := 0, typ := h.typ - {DATA_INDIRECT});
    TakeAndPutBack(h.typ, DATA_INDIRECT);
    if DATA_INDIRECT in h.typ {
      ScanMarked('*', h.index, rest);
      assert With(start, DATA_INDIRECT).(index := h.index) == h;
    } else {
      assert IndexPart(h) + rest == rest;
      assert start == h;
    }
  }

  lemma HeadOfIndex(hp: HookParam, x: string)
    requires USING_SPLIT !in hp.typ ==> SPLIT_INDIRECT !in hp.typ
    ensures EndsNumber(FromIndex(hp, x)) && FromIndex(hp, x)[0] != '+' && FromIndex(hp, x)[0] != '#'
  {
    if DATA_INDIRECT !in hp.typ {
      HeadOfSplit(hp, x);
      assert FromIndex(hp, x) == FromSplit(hp, x);
    }
  }

  lemma OffsetReads(hp: HookParam, x: string)
    requires NumbersFit(hp)
    ensures ParseOffset(FromOffset(hp, x), AtOffset(hp)) == ParseTarget("@" + x, AtTarget(hp))
  {
    HeadOfIndex(hp, x);
    ScanPrinted(LeadNumber(hp), FromIndex(hp, x));
    IndexReads(hp, x);
  }

  // ---------- the two prefixed numbers ----------

  lemma MatchPrinted(n: nat, base: nat, mark: char, rest: string)
    requires base == 10 || base == 16
    requires mark == '#' || mark == '+'
    ensures MatchPrefixed(Print(n, base) + [mark] + rest, base, mark) == Present(n, rest)
  {
    var s := Print(n, base) + [mark] + rest;
    assert s == Print(n, base) + ([mark] + rest);
    RunOfPrint(n, base, [mark] + rest);
    assert s[|Print(n, base)| + 1..] == rest;
  }

  /** The regex for a prefixed number does not match where a plain hex number is printed. */
  lemma NoMatchOnHex(num: int, rest: string, base: nat, mark: char)
    requires base == 10 || base == 16
    requires EndsNumber(rest) && rest[0] != mark && (mark == '#' || (mark == '+' && base == 16))
    ensures MatchPrefixed(HexString(num) + rest, base, mark) == Absent
  {
    var s := HexString(num) + rest;
    if num < 0 {
      assert s[0] == '-';
    } else {
      var d := Print(num, 16);
      assert s[|d|] == rest[0] && !IsDigit(rest[0], base);
      var n := RunLength(s, base);
      if 0 < n < |d| {
        assert s[n] == d[n] && IsDigit(d[n], 16);
      }
    }
  }

  lemma PaddingReads(hp: HookParam, x: string)
    requires Representable(hp) && NumbersFit(hp)
    ensures ParsePadding(FromPadding(hp, x), AtPadding(hp)) == Hook(hp)
       <==> hp.padding < INT64_LIMIT && TargetReads(hp, x)
  {
    var rest := FromOffset(hp, x);
    OffsetReads(hp, x);
    if hp.padding == 0 {
      HeadOfIndex(hp, x);
      NoMatchOnHex(LeadNumber(hp), FromIndex(hp, x), 16, '+');
      assert FromPadding(hp, x) == rest;
    } else if hp.padding < INT64_LIMIT {
      MatchPrinted(hp.padding, 16, '+', rest);
    } else {
      NegativePaddingFails(ToInt64(hp.padding), rest, AtPadding(hp));
    }
  }

  /** A padding printed with a minus sign is not read as a padding, and nothing else reads it. */
  lemma NegativePaddingFails(num: int, rest: string, h: HookParam)
    requires num < 0
    ensures !ParsePadding(HexString(num) + "+" + rest, h).Hook?
  {
    var s := HexString(num) + ("+" + rest);
    assert HexString(num) + "+" + rest == s;
    assert s[0] == '-';
    assert MatchPrefixed(s, 16, '+') == Absent;
    ScanPrinted(num, "+" + rest);
    PlusFails("+" + rest, h.(offset := num));
  }

  lemma PlusFails(s: string, h: HookParam)
    requires Head(s) == '+'
    ensures ParseIndex(s, h) == NoHook
  {
  }

  lemma ReadCodepage(h: HookParam, rest: string)
    requires 0 <= h.codepage
    ensures var r := ParseCodepage(Print(h.codepage, 10) + "#" + rest, h.(codepage := 0));
            r == if h.codepage < INT_LIMIT then ParsePadding(rest, h) else Raised
  {
    MatchPrinted(h.codepage, 10, '#', rest);
    assert h.(codepage := 0).(codepage := h.codepage) == h;
  }

  lemma CodepageReads(hp: HookParam, x: string)
    requires Representable(hp) && NumbersFit(hp)
    ensures ParseCodepage(FromCodepage(hp, x), AtCodepage(hp)) == Hook(hp)
       <==> NumbersOk(hp) && TargetReads(hp, x)
  {
    var h, rest := AtPadding(hp), FromPadding(hp, x);
    var r := ParseCodepage(FromCodepage(hp, x), AtCodepage(hp));
    assert ParsePadding(rest, h) == Hook(hp) <==> hp.padding < INT64_LIMIT && TargetReads(hp, x) by {
      PaddingReads(hp, x);
    }
    if CodepagePart(hp) != "" {
      ReadCodepage(h, rest);
      assert r == if hp.codepage < INT_LIMIT then ParsePadding(rest, h) else Raised;
    } else {
      assert FromCodepage(hp, x) == rest;
      assert r == ParsePadding(rest, AtCodepage(hp)) by { NoCodepage(hp, x); }
      PaddingKeeps(rest, AtCodepage(hp));
    }
  }

  /** Without a printed codepage the codepage regex matches nothing. */
  lemma NoCodepage(hp: HookParam, x: string)
    requires Representable(hp) && NumbersFit(hp)
    ensures MatchPrefixed(FromPadding(hp, x), 10, '#') == Absent
  {
    if hp.padding == 0 {
      HeadOfIndex(hp, x);
      assert FromPadding(hp, x) == FromOffset(hp, x);
      NoMatchOnHex(LeadNumber(hp), FromIndex(hp, x), 10, '#');
    } else {
      var rest := "+" + FromOffset(hp, x);
      assert FromPadding(hp, x) == HexString(ToInt64(hp.padding)) + rest;
      NoMatchOnHex(ToInt64(hp.padding), rest, 10, '#');
    }
  }

  lemma HeadOfHex(num: int, rest: string)
    ensures var c := Head(HexString(num) + rest);
            if num < 0 then c == '-' else c == Print(num, 16)[0] && IsDigit(c, 16)
  {
    assert num >= 0 ==> IsDigit(Print(num, 16)[0], 16);
  }

  lemma HeadOfPadding(hp: HookParam, x: string)
    requires Representable(hp)
    ensures var c := Head(FromPadding(hp, x));
            && c != 'N'
            && (hp.padding < INT64_LIMIT ==> (c == 'F' <==>
                 if hp.padding != 0 then Print(hp.padding, 16)[0] == 'F'
                 else LeadNumber(hp) >= 0 && Print(LeadNumber(hp), 16)[0] == 'F'))
            && (hp.padding >= INT64_LIMIT ==> c == '-')
  {
    if hp.padding == 0 {
      assert FromPadding(hp, x) == FromOffset(hp, x);
      HeadOfHex(LeadNumber(hp), FromIndex(hp, x));
    } else {
      assert FromPadding(hp, x) == HexString(ToInt64(hp.padding)) + ("+" + FromOffset(hp, x));
      HeadOfHex(ToInt64(hp.padding), "+" + FromOffset(hp, x));
    }
  }

  lemma HeadOfCodepage(hp: HookParam, x: string)
    requires Representable(hp)
    ensures var c := Head(FromCodepage(hp, x));
            && c != 'N'
            && (c == 'F' ==> CodepagePart(hp) == "" && c == Head(FromPadding(hp, x)))
            && (CodepagePart(hp) == "" ==> c == Head(FromPadding(hp, x)))
  {
    HeadOfPadding(hp, x);
    if CodepagePart(hp) == "" {
      assert FromCodepage(hp, x) == FromPadding(hp, x);
    } else {
      assert IsDigit(Print(hp.codepage, 10)[0], 10);
      assert FromCodepage(hp, x)[0] == Print(hp.codepage, 10)[0];
    }
  }

  lemma ReadContext(h: HookParam, rest: string)
    requires Head(rest) != 'N'
    ensures ParseContext(ContextPart(h) + rest, h.(typ := h.typ - {NO_CONTEXT})) == ParseCodepage(rest, h)
  {
    TakeAndPutBack(h.typ, NO_CONTEXT);
    assert ContextPart(h) + rest == if NO_CONTEXT in h.typ then "N" + rest else rest;
    assert Tail("N" + rest) == rest;
  }

  lemma ContextReads(hp: HookParam, x: string)
    requires Representable(hp) && NumbersFit(hp)
    ensures ParseContext(FromContext(hp, x), AtContext(hp)) == Hook(hp)
       <==> NumbersOk(hp) && TargetReads(hp, x)
  {
    var h, rest := AtCodepage(hp), FromCodepage(hp, x);
    assert ParseContext(ContextPart(h) + rest, h.(typ := h.typ - {NO_CONTEXT})) == ParseCodepage(rest, h) by {
      HeadOfCodepage(hp, x);
      ReadContext(h, rest);
    }
    assert ContextPart(h) == ContextPart(hp);
    CodepageReads(hp, x);
  }

  lemma HeadOfContext(hp: HookParam, x: string)
    requires Representable(hp)
    ensures Head(FromContext(hp, x)) == 'F' ==> NumberStartsWithF(hp)
    ensures hp.padding < INT64_LIMIT && NumberStartsWithF(hp) ==> Head(FromContext(hp, x)) == 'F'
  {
    if NO_CONTEXT !in hp.typ {
      assert FromContext(hp, x) == FromCodepage(hp, x);
      HeadOfCodepage(hp, x);
      HeadOfPadding(hp, x);
    }
  }

  lemma ReadFull(h: HookParam, rest: string)
    requires FULL_STRING in h.typ ==> USING_STRING in h.typ
    ensures var r := ParseFull(FullPart(h) + rest, h.(typ := h.typ - {FULL_STRING}));
            if FULL_STRING !in h.typ && USING_STRING in h.typ && Head(rest) == 'F'
            then r == ParseContext(Tail(rest), With(h, FULL_STRING))
            else r == ParseContext(rest, h)
  {
    TakeAndPutBack(h.typ, FULL_STRING);
    assert FullPart(h) + rest == if FULL_STRING in h.typ then "F" + rest else rest;
    assert Tail("F" + rest) == rest;
  }

  lemma FullReads(hp: HookParam, x: string)
    requires Representable(hp) && NumbersFit(hp) && (FULL_STRING in hp.typ ==> USING_STRING in hp.typ)
    ensures ParseFull(FromFull(hp, x), AtFull(hp)) == Hook(hp)
       <==> FullOk(hp) && NumbersOk(hp) && TargetReads(hp, x)
  {
    var h, rest := AtContext(hp), FromContext(hp, x);
    var r := ParseFull(FullPart(h) + rest, h.(typ := h.typ - {FULL_STRING}));
    assert FullPart(h) == FullPart(hp);
    assert r == ParseFull(FromFull(hp, x), AtFull(hp));
    ReadFull(h, rest);
    if FULL_STRING !in h.typ && USING_STRING in h.typ && Head(rest) == 'F' {
      assert NumberStartsWithF(hp) by { HeadOfContext(hp, x); }
      ContextKeeps(Tail(rest), With(h, FULL_STRING));
    } else {
      assert r == Hook(hp) <==> NumbersOk(hp) && TargetReads(hp, x) by { ContextReads(hp, x); }
      assert NumbersOk(hp) ==> FullOk(hp) by { HeadOfContext(hp, x); }
    }
  }

  // ---------- the letters ----------

  lemma CodecReads(typ: set<Flag>, hp: HookParam)
    requires typ == hp.typ && CodecShape(typ)
    ensures CodecOf(CodecLetter(hp)).Sets? && CodecOf(CodecLetter(hp)).flags == typ * CODEC_FLAGS
  {
  }

  lemma Rejoin(typ: set<Flag>, part: set<Flag>)
    ensures typ - part + typ * part == typ
  {
  }

  lemma ReadBody(h: HookParam, rest: string)
    requires CodecShape(h.typ)
    requires JitOf([CodecLetter(h)] + rest, PC) == h.jittype
    ensures ParseBody([CodecLetter(h)] + rest, h.(jittype := PC, typ := h.typ - CODEC_FLAGS)) == ParseFull(rest, h)
  {
    CodecReads(h.typ, h);
    Rejoin(h.typ, CODEC_FLAGS);
    assert Tail([CodecLetter(h)] + rest) == rest;
  }

  /** The jittype read from the suffix is final. */
  lemma BodyKeepsJit(code: string, hp: HookParam)
    ensures var r := ParseBody(code, hp);
            r.Hook? ==> r.hp.jittype == JitOf(code, hp.jittype) && (HOOK_RETURN in r.hp.typ ==> HOOK_RETURN in hp.typ)
  {
    var codec := CodecOf(Head(code));
    if codec.Sets? {
      FullKeeps(Tail(code), hp.(jittype := JitOf(code, hp.jittype), typ := hp.typ + codec.flags));
    }
  }

  lemma SameCodec(h: HookParam, hp: HookParam)
    requires CodecShape(hp.typ)
    requires forall f :: f in CODEC_FLAGS ==> (f in h.typ <==> f in hp.typ)
    ensures CodecShape(h.typ) && CodecLetter(h) == CodecLetter(hp)
  {
    assert CODEC_FLAGS >= {CODEC_ANSI_BE, CODEC_UTF8} + {CODEC_UTF16, CODEC_UTF32} + {USING_STRING, SPECIAL_JIT_STRING};
  }

  lemma MatchingBody(hp: HookParam, x: string)
    requires Representable(hp) && CodecShape(hp.typ) && FilterPart(hp) == ""
    requires JitOf(FromBody(hp, x), PC) == hp.jittype
    ensures ParseBody(FromBody(hp, x), AtBody(hp)) == ParseFull(FromFull(hp, x), AtFull(hp))
  {
    var h, rest := AtFull(hp), FromFull(hp, x);
    SameCodec(h, hp);
    assert FromFilter(hp, x) == rest;
    ReadBody(h, rest);
  }

  lemma BodyReads(hp: HookParam, x: string)
    requires Representable(hp) && NumbersFit(hp) && CodecShape(hp.typ) && FilterPart(hp) == ""
    requires FULL_STRING in hp.typ ==> USING_STRING in hp.typ
    ensures ParseBody(FromBody(hp, x), AtBody(hp)) == Hook(hp)
       <==> JitOf(FromBody(hp, x), PC) == hp.jittype && FullOk(hp) && NumbersOk(hp) && TargetReads(hp, x)
  {
    var j, r := JitOf(FromBody(hp, x), PC), ParseBody(FromBody(hp, x), AtBody(hp));
    assert r.Hook? ==> r.hp.jittype == j by { BodyKeepsJit(FromBody(hp, x), AtBody(hp)); }
    if j == hp.jittype {
      assert r == ParseFull(FromFull(hp, x), AtFull(hp)) by { MatchingBody(hp, x); }
      FullReads(hp, x);
    }
  }

  lemma TagReads(hp: HookParam, x: string)
    requires Representable(hp)
    ensures ParseH(FromTag(hp, x), AtTag(hp)) == ParseBody(FromBody(hp, x), AtBody(hp))
  {
    TakeAndPutBack(AtBody(hp).typ, BREAK_POINT);
    assert BREAK_POINT in AtBody(hp).typ <==> BREAK_POINT in hp.typ;
    assert Tail(FromTag(hp, x)) == FromBody(hp, x);
  }

  /** After a printed tag there is no HOOK_RETURN letter. */
  lemma TagKeeps(hp: HookParam, x: string, h: HookParam)
    requires Representable(hp) && HOOK_RETURN !in h.typ
    ensures var r := ParseH(FromTag(hp, x), h); r.Hook? ==> HOOK_RETURN !in r.hp.typ
  {
    assert Tail(FromTag(hp, x)) == FromBody(hp, x);
    BodyKeepsJit(FromBody(hp, x), h);
    BodyKeepsJit(FromBody(hp, x), With(h, BREAK_POINT));
  }
}
