/** What every parse result looks like, whatever the text was. */
module HookCodeShape {
  import opened MachineTypes
  import opened Numerals
  import opened HookParams
  import opened HookCodeParser

  const CODEC_FLAGS: set<Flag> :=
    {CODEC_ANSI_BE, CODEC_UTF8, CODEC_UTF16, CODEC_UTF32, USING_STRING, SPECIAL_JIT_STRING}

  /** No flag that no H or E code can set. */
  predicate HookFlagsOnly(typ: set<Flag>) {
    && USING_CHAR !in typ && FIXING_SPLIT !in typ && KNOWN_UNSTABLE !in typ
    && EMBED_CODEC_UTF16 !in typ && DIRECT_READ !in typ && HOOK_EMPTY !in typ
  }

  predicate NoStringFlags(typ: set<Flag>) {
    && CODEC_ANSI_BE !in typ && CODEC_UTF8 !in typ && CODEC_UTF16 !in typ && CODEC_UTF32 !in typ
    && USING_STRING !in typ && SPECIAL_JIT_STRING !in typ && FULL_STRING !in typ
  }

  /** One codec at most, and none that the char or string letters lack. */
  predicate CodecShape(typ: set<Flag>) {
    && !(CODEC_UTF16 in typ && CODEC_UTF32 in typ)
    && (CODEC_UTF8 in typ ==> USING_STRING in typ && CODEC_UTF16 !in typ && CODEC_UTF32 !in typ)
    && (CODEC_ANSI_BE in typ ==> USING_STRING !in typ && CODEC_UTF16 !in typ && CODEC_UTF32 !in typ)
    && (SPECIAL_JIT_STRING in typ ==> USING_STRING in typ && CODEC_UTF16 in typ)
  }

  predicate EmbedShape(typ: set<Flag>) {
    && (EMBED_DYNA_SJIS in typ || EMBED_BEFORE_SIMPLE in typ ==> EMBED_ABLE in typ)
    && (EMBED_AFTER_NEW in typ || EMBED_AFTER_OVERWRITE in typ ==> EMBED_BEFORE_SIMPLE in typ)
    && !(EMBED_AFTER_NEW in typ && EMBED_AFTER_OVERWRITE in typ)
  }

  /** The flags fit together and a field without its flag is zero. */
  predicate Consistent(hp: HookParam) {
    && HookFlagsOnly(hp.typ) && CodecShape(hp.typ) && EmbedShape(hp.typ)
    && (FULL_STRING in hp.typ ==> USING_STRING in hp.typ)
    && (SPLIT_INDIRECT in hp.typ ==> USING_SPLIT in hp.typ)
    && (FUNCTION_OFFSET in hp.typ ==> MODULE_OFFSET in hp.typ)
    && (DATA_INDIRECT !in hp.typ ==> hp.index == 0)
    && (USING_SPLIT !in hp.typ ==> hp.split == 0)
    && (SPLIT_INDIRECT !in hp.typ ==> hp.splitIndex == 0)
    && (MODULE_OFFSET !in hp.typ ==> hp.moduleName == "")
    && (FUNCTION_OFFSET !in hp.typ ==> hp.functionName == "")
    && hp.extras == NO_EXTRAS
  }

  /** A number that the correction by 4 can produce. */
  predicate Corrected(x: int) { !(-4 <= x < 0) }

  /** Which fields each kind of hook fills in. */
  predicate JitShape(hp: HookParam) {
    match hp.jittype
    case PC => hp.emuAddr == hp.argidx == 0 && hp.unityInfo == "" && Corrected(hp.offset) && Corrected(hp.split)
    case UNITY => hp.address == hp.offset == hp.emuAddr == 0 && !(MODULE_OFFSET in hp.typ)
    case _ => hp.address == hp.offset == 0 && hp.unityInfo == "" && !(MODULE_OFFSET in hp.typ)
              && Corrected(hp.argidx) && Corrected(hp.split)
  }

  predicate HookShape(hp: HookParam) {
    Representable(hp) && hp.codepage < INT_LIMIT && Consistent(hp) && JitShape(hp)
  }

  /** A read code fills in the codec, the codepage and the address only. */
  predicate ReadShape(hp: HookParam) {
    && hp == ZERO.(typ := hp.typ, codepage := hp.codepage, address := hp.address)
    && IsUint64(hp.address) && 0 <= hp.codepage < INT_LIMIT
    && (hp.typ == {DIRECT_READ} || hp.typ == {DIRECT_READ, CODEC_UTF16}
        || hp.typ == {DIRECT_READ, CODEC_UTF32} || hp.typ == {DIRECT_READ, CODEC_UTF8})
  }

  /** A descriptor on its way through ParseHCode: the target is still missing. */
  predicate Partial(hp: HookParam) {
    && Representable(hp) && hp.codepage < INT_LIMIT && Consistent(hp)
    && hp.address == hp.emuAddr == hp.argidx == 0 && hp.unityInfo == ""
    && MODULE_OFFSET !in hp.typ && FUNCTION_OFFSET !in hp.typ
  }

  // ---------- stage by stage, last to first ----------

  lemma UnityShape(code: string, hp: HookParam)
    requires Partial(hp) && hp.jittype == UNITY
    ensures ParseUnity(code, hp).Hook? ==> HookShape(ParseUnity(code, hp).hp)
  {
    var r := ParseUnity(code, hp);
    if r.Hook? {
      assert r.hp.typ == hp.typ;
    }
  }

  lemma LocatedShape(t: Target, hp: HookParam)
    requires Partial(hp) && t != NoTarget && t.address < UINT64_LIMIT
    ensures var r := Located(t, hp);
            Representable(r) && Consistent(r) && r.codepage < INT_LIMIT
  {
  }

  lemma EmulatedShape(hp: HookParam)
    requires Representable(hp) && Consistent(hp) && hp.codepage < INT_LIMIT
    requires hp.emuAddr == hp.argidx == 0 && hp.unityInfo == "" && hp.jittype != UNITY
    requires Corrected(hp.offset) && Corrected(hp.split)
    ensures HookShape(Emulated(hp))
  {
    assert Emulated(hp).typ <= hp.typ;
  }

  lemma AddressShape(code: string, hp: HookParam)
    requires Partial(hp) && hp.jittype != UNITY
    ensures ParseAddress(code, hp).Hook? ==> HookShape(ParseAddress(code, hp).hp)
  {
    var t := MatchTarget(code);
    if t != NoTarget && t.address < UINT64_LIMIT {
      LocatedShape(t, hp);
      EmulatedShape(Located(t, hp).(offset := Correct(hp.offset), split := Correct(hp.split)));
    }
  }

  lemma TargetShape(code: string, hp: HookParam)
    requires Partial(hp)
    ensures ParseTarget(code, hp).Hook? ==> HookShape(ParseTarget(code, hp).hp)
  {
    if hp.jittype == UNITY {
      UnityShape(code, hp);
    } else {
      AddressShape(code, hp);
    }
  }

  lemma SplitIndexShape(code: string, hp: HookParam)
    requires Partial(hp) && USING_SPLIT in hp.typ
    ensures ParseSplitIndex(code, hp).Hook? ==> HookShape(ParseSplitIndex(code, hp).hp)
  {
    var k := ScanHex(Tail(code));
    if Head(code) != '*' {
      TargetShape(code, hp);
    } else if IsInt(k.value) {
      TargetShape(Tail(code)[k.size..], With(hp, SPLIT_INDIRECT).(splitIndex := k.value));
    }
  }

  lemma SplitShape(code: string, hp: HookParam)
    requires Partial(hp)
    ensures ParseSplit(code, hp).Hook? ==> HookShape(ParseSplit(code, hp).hp)
  {
    var k := ScanHex(Tail(code));
    if Head(code) != ':' {
      TargetShape(code, hp);
    } else if IsInt(k.value) {
      SplitIndexShape(Tail(code)[k.size..], With(hp, USING_SPLIT).(split := k.value));
    }
  }

  lemma OffsetShape(code: string, hp: HookParam)
    requires Partial(hp)
    ensures ParseOffset(code, hp).Hook? ==> HookShape(ParseOffset(code, hp).hp)
  {
    var k := ScanHex(code);
    if IsInt(k.value) {
      var c, h := code[k.size..], hp.(offset := k.value);
      IndexShape(c, h);
    }
  }

  lemma IndexShape(code: string, hp: HookParam)
    requires Partial(hp)
    ensures ParseIndex(code, hp).Hook? ==> HookShape(ParseIndex(code, hp).hp)
  {
    var k := ScanHex(Tail(code));
    if Head(code) != '*' {
      SplitShape(code, hp);
    } else if IsInt(k.value) {
      SplitShape(Tail(code)[k.size..], With(hp, DATA_INDIRECT).(index := k.value));
    }
  }

  lemma CodepageShape(code: string, hp: HookParam)
    requires Partial(hp)
    ensures ParseCodepage(code, hp).Hook? ==> HookShape(ParseCodepage(code, hp).hp)
  {
    match MatchPrefixed(code, 10, '#')
    case Absent => PaddingShape(code, hp);
    case Present(v, rest) =>
      if v < INT_LIMIT {
        PaddingShape(rest, hp.(codepage := v));
      }
  }

  lemma PaddingShape(code: string, hp: HookParam)
    requires Partial(hp)
    ensures ParsePadding(code, hp).Hook? ==> HookShape(ParsePadding(code, hp).hp)
  {
    match MatchPrefixed(code, 16, '+')
    case Absent => OffsetShape(code, hp);
    case Present(v, rest) =>
      if v < UINT64_LIMIT {
        OffsetShape(rest, hp.(padding := v));
      }
  }

  lemma FullShape(code: string, hp: HookParam)
    requires Partial(hp)
    ensures ParseFull(code, hp).Hook? ==> HookShape(ParseFull(code, hp).hp)
  {
    var full := USING_STRING in hp.typ && Head(code) == 'F';
    var c, h := if full then Tail(code) else code, if full then With(hp, FULL_STRING) else hp;
    assert ParseFull(code, hp) == ParseContext(c, h);
    CodepageShape(c, h);
    CodepageShape(Tail(c), With(h, NO_CONTEXT));
  }

  lemma BodyShape(code: string, hp: HookParam)
    requires Partial(hp) && NoStringFlags(hp.typ)
    ensures ParseBody(code, hp).Hook? ==> HookShape(ParseBody(code, hp).hp)
  {
    var codec := CodecOf(Head(code));
    if codec.Sets? {
      var h := hp.(jittype := JitOf(code, hp.jittype), typ := hp.typ + codec.flags);
      assert Partial(h);
      FullShape(Tail(code), h);
    }
  }

  lemma HShape(code: string, hp: HookParam)
    requires Partial(hp) && NoStringFlags(hp.typ)
    ensures ParseH(code, hp).Hook? ==> HookShape(ParseH(code, hp).hp)
  {
    var c, h := if Head(code) == 'L' then Tail(code) else code, if Head(code) == 'L' then With(hp, HOOK_RETURN) else hp;
    BodyShape(Tail(c), h);
    BodyShape(Tail(c), With(h, BREAK_POINT));
  }

  lemma SimpleShape(code: string, hp: HookParam)
    requires Partial(hp) && NoStringFlags(hp.typ)
    requires EMBED_ABLE in hp.typ && EMBED_AFTER_NEW !in hp.typ && EMBED_AFTER_OVERWRITE !in hp.typ
    ensures ParseSimple(code, hp).Hook? ==> HookShape(ParseSimple(code, hp).hp)
  {
    HShape(code, hp);
    var c, h := Tail(code), With(hp, EMBED_BEFORE_SIMPLE);
    HShape(c, h);
    HShape(Tail(c), With(h, EMBED_AFTER_NEW));
    HShape(Tail(c), With(h, EMBED_AFTER_OVERWRITE));
  }

  lemma RShape(code: string)
    ensures ParseR(code).Hook? ==> ReadShape(ParseR(code).hp)
  {
  }

  lemma EShape(code: string)
    ensures ParseE(code).Hook? ==> HookShape(ParseE(code).hp)
  {
    var c, h := Tail(code), With(ZERO, EMBED_ABLE);
    SimpleShape(c, h);
    SimpleShape(Tail(c), With(h, EMBED_DYNA_SJIS));
  }

  lemma HookShapeIsNoRead(hp: HookParam)
    requires HookShape(hp)
    ensures DIRECT_READ !in hp.typ
  {
  }

  /** Every text that parses yields a consistent descriptor. */
  lemma ParsedShape(code: string)
    ensures var r := Parse(code);
            r.Hook? ==> if DIRECT_READ in r.hp.typ then ReadShape(r.hp) else HookShape(r.hp)
  {
    var c := Stripped(code);
    var r := Dispatch(c);
    if Head(c) == 'R' {
      RShape(c);
    } else {
      assert r.Hook? ==> HookShape(r.hp) by {
        EShape(c);
        HShape(c, ZERO);
      }
      if r.Hook? {
        HookShapeIsNoRead(r.hp);
      }
    }
  }
}
