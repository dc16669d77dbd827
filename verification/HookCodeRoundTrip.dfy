/** Which descriptors survive printing and parsing: exactly the canonical ones. */
module HookCodeRoundTrip {
  import opened MachineTypes
  import opened Numerals
  import opened HookParams
  import opened HookCodeParser
  import opened HookCodeGenerator
  import opened HookCodeShape
  import opened HookCodeCanonical
  import opened HookCodeStages
  import opened HookCodeText

  // ---------- the start of an H or E code ----------

  const EMBED_FLAGS: set<Flag> :=
    {EMBED_ABLE, EMBED_DYNA_SJIS, EMBED_BEFORE_SIMPLE, EMBED_AFTER_NEW, EMBED_AFTER_OVERWRITE}

  /** The flags read behind the tag. */
  predicate LaterFlag(f: Flag) {
    || f == FULL_STRING || f == DATA_INDIRECT || f == USING_SPLIT || f == SPLIT_INDIRECT || f == NO_CONTEXT
    || f == MODULE_OFFSET || f == FUNCTION_OFFSET || f == BREAK_POINT || f in CODEC_FLAGS
  }

  lemma KindsOfFlag(typ: set<Flag>, f: Flag)
    requires HookFlagsOnly(typ) && HOOK_RETURN !in typ && f in typ
    ensures f in EMBED_FLAGS <==> !LaterFlag(f)
  {
    match f
    case CODEC_ANSI_BE | CODEC_UTF8 | CODEC_UTF16 | CODEC_UTF32 | USING_CHAR | USING_STRING | SPECIAL_JIT_STRING
       | FULL_STRING | DATA_INDIRECT | USING_SPLIT | SPLIT_INDIRECT | FIXING_SPLIT | NO_CONTEXT | MODULE_OFFSET
       | FUNCTION_OFFSET | KNOWN_UNSTABLE | EMBED_CODEC_UTF16 | BREAK_POINT | DIRECT_READ | HOOK_RETURN | HOOK_EMPTY =>
    case EMBED_ABLE | EMBED_DYNA_SJIS | EMBED_BEFORE_SIMPLE | EMBED_AFTER_NEW | EMBED_AFTER_OVERWRITE =>
  }

  lemma FlagsAtTag(hp: HookParam, f: Flag)
    ensures f in AtTag(hp).typ <==> f in hp.typ && !LaterFlag(f)
  {
  }

  lemma StartOfHook(hp: HookParam)
    requires HookFlagsOnly(hp.typ) && HOOK_RETURN !in hp.typ && hp.extras == NO_EXTRAS
    ensures AtTag(hp) == ZERO.(typ := hp.typ * EMBED_FLAGS)
  {
    forall f
      ensures f in AtTag(hp).typ <==> f in hp.typ * EMBED_FLAGS
    {
      FlagsAtTag(hp, f);
      if f in hp.typ {
        KindsOfFlag(hp.typ, f);
      }
    }
    assert AtTag(hp).typ == hp.typ * EMBED_FLAGS;
  }

  /** The letters behind E, read in front of a tag. */
  lemma ReadEmbedLetters(typ: set<Flag>, hp: HookParam, rest: string)
    requires typ == hp.typ * EMBED_FLAGS && EmbedShape(typ) && EMBED_ABLE in typ
    requires Head(rest) == 'H' || Head(rest) == 'B'
    ensures ParseE("E" + EmbedLetters(hp) + rest) == ParseH(rest, ZERO.(typ := typ))
  {
    var d := if EMBED_DYNA_SJIS in typ then "D" else "";
    var s := if EMBED_BEFORE_SIMPLE in typ then "S" else "";
    var a := if EMBED_AFTER_NEW in typ then "N" else if EMBED_AFTER_OVERWRITE in typ then "O" else "";
    assert "E" + EmbedLetters(hp) + rest == "E" + (d + (s + (a + rest))) by {
      assert EmbedLetters(hp) == d + s + a;
    }
    ReadDynaLetter(typ, s + (a + rest));
    ReadSimpleLetters(typ, ZERO.(typ := typ * {EMBED_ABLE, EMBED_DYNA_SJIS}), rest);
  }

  lemma ReadDynaLetter(typ: set<Flag>, rest: string)
    requires EMBED_ABLE in typ && Head(rest) != 'D'
    ensures var d := if EMBED_DYNA_SJIS in typ then "D" else "";
            ParseE("E" + (d + rest)) == ParseSimple(rest, ZERO.(typ := typ * {EMBED_ABLE, EMBED_DYNA_SJIS}))
  {
    hide ParseSimple;
    var d := if EMBED_DYNA_SJIS in typ then "D" else "";
    assert Tail("E" + (d + rest)) == d + rest;
    assert Tail("D" + rest) == rest && "" + rest == rest;
    var h := With(ZERO, EMBED_ABLE);
    assert typ * {EMBED_ABLE, EMBED_DYNA_SJIS} == if d == "" then h.typ else h.typ + {EMBED_DYNA_SJIS};
  }

  lemma ReadSimpleLetters(typ: set<Flag>, h: HookParam, rest: string)
    requires typ <= EMBED_FLAGS && EmbedShape(typ) && EMBED_ABLE in typ
    requires h == ZERO.(typ := typ * {EMBED_ABLE, EMBED_DYNA_SJIS})
    requires Head(rest) == 'H' || Head(rest) == 'B'
    ensures var s := if EMBED_BEFORE_SIMPLE in typ then "S" else "";
            var a := if EMBED_AFTER_NEW in typ then "N" else if EMBED_AFTER_OVERWRITE in typ then "O" else "";
            ParseSimple(s + (a + rest), h) == ParseH(rest, ZERO.(typ := typ))
  {
    var g := With(h, EMBED_BEFORE_SIMPLE);
    if EMBED_BEFORE_SIMPLE !in typ {
      assert "" + ("" + rest) == rest;
      assert h.typ == typ;
    } else {
      var a := if EMBED_AFTER_NEW in typ then "N" else if EMBED_AFTER_OVERWRITE in typ then "O" else "";
      assert Tail("S" + (a + rest)) == a + rest;
      assert Tail("N" + rest) == rest && Tail("O" + rest) == rest && "" + rest == rest;
      EmbedUnion(typ);
      assert ParseSimple("S" + (a + rest), h) == ParseH(rest, g.(typ := typ));
    }
  }

  lemma EmbedUnion(typ: set<Flag>)
    requires typ <= EMBED_FLAGS && EmbedShape(typ) && EMBED_BEFORE_SIMPLE in typ
    ensures var t := typ * {EMBED_ABLE, EMBED_DYNA_SJIS} + {EMBED_BEFORE_SIMPLE};
            typ == if EMBED_AFTER_NEW in typ then t + {EMBED_AFTER_NEW}
                   else if EMBED_AFTER_OVERWRITE in typ then t + {EMBED_AFTER_OVERWRITE} else t
  {
  }

  lemma StartReads(hp: HookParam, x: string)
    requires Representable(hp) && HookFlagsOnly(hp.typ) && EmbedShape(hp.typ) && hp.extras == NO_EXTRAS
    ensures Dispatch(FromStart(hp, x)) == ParseH(FromTag(hp, x), ZERO.(typ := hp.typ * EMBED_FLAGS))
  {
    hide ParseH, ParseE, ParseR, FromBody, EmbedLetters, HookFlagsOnly;
    var typ, rest := hp.typ * EMBED_FLAGS, FromTag(hp, x);
    assert Head(rest) == 'H' || Head(rest) == 'B';
    if EMBED_ABLE in hp.typ {
      assert FromStart(hp, x) == "E" + EmbedLetters(hp) + rest;
      ReadEmbedLetters(typ, hp, rest);
    } else {
      assert FromStart(hp, x) == rest;
      assert typ == {};
    }
  }

  /** Everything in front of the at sign reads back exactly when the options are canonical. */
  lemma HookReads(hp: HookParam, x: string)
    requires HookShape(hp) && HOOK_RETURN !in hp.typ
    ensures Dispatch(FromStart(hp, x)) == Hook(hp)
       <==> FullOk(hp) && NumbersOk(hp) && JitOf("@" + x, PC) == hp.jittype && TargetReads(hp, x)
  {
    StartReads(hp, x);
    StartOfHook(hp);
    TaggedReads(hp, x);
  }

  /** No printed code sets HOOK_RETURN. */
  lemma ReturnIsLost(hp: HookParam, x: string)
    requires HookShape(hp)
    ensures var r := Dispatch(FromStart(hp, x)); r.Hook? ==> HOOK_RETURN !in r.hp.typ
  {
    hide Dispatch, ParseH, FromStart, FromTag;
    StartReads(hp, x);
    TagKeeps(hp, x, ZERO.(typ := hp.typ * EMBED_FLAGS));
  }

  lemma TaggedReads(hp: HookParam, x: string)
    requires HookShape(hp)
    ensures ParseH(FromTag(hp, x), AtTag(hp)) == Hook(hp)
       <==> FullOk(hp) && NumbersOk(hp) && JitOf("@" + x, PC) == hp.jittype && TargetReads(hp, x)
  {
    TagReads(hp, x);
    JitOfBody(hp, x);
    assert NumbersFit(hp);
    BodyReads(hp, x);
  }

  // ---------- the target ----------

  lemma NarrowOfWiden(s: string)
    requires IsBytes(s)
    ensures Narrow(Widen(s)) == s
  {
    forall i | 0 <= i < |s|
      ensures Narrow(Widen(s))[i] == s[i]
    {
      assert Widen(s)[i] == WidenChar(s[i]);
    }
  }

  lemma CorrectedAgain(x: int)
    requires IsInt(x)
    ensures Correct(Uncorrect(x)) == x <==> Corrected(x)
    ensures Correct(x) == x <==> 0 <= x
  {
  }

  /** A printed address is matched as such, whatever follows it. */
  lemma MatchAddress(a: nat, rest: string)
    requires rest != "" ==> rest[0] == ':'
    ensures var s := "@" + (Print(a, 16) + rest);
            && Head(s) == '@' && RunLength(s[1..], 16) == |Print(a, 16)| > 0
            && Value(s[1..][..|Print(a, 16)|], 16) == a && s[1..][|Print(a, 16)|..] == rest
  {
    var s := "@" + (Print(a, 16) + rest);
    assert s[1..] == Print(a, 16) + rest;
    RunOfPrint(a, 16, rest);
  }

  /** An address printed with a minus sign is not matched. */
  lemma NegativeAddress(num: int, rest: string)
    requires num < 0
    ensures MatchTarget("@" + (HexString(num) + rest)) == NoTarget
  {
    var s := "@" + (HexString(num) + rest);
    assert s[1..][0] == '-';
  }

  /** What a PC hook's target parses to. */
  function LocatedHook(t: Target, hp: HookParam): HookParam
    requires t != NoTarget
  {
    Located(t, AtTarget(hp)).(offset := Correct(Uncorrect(hp.offset)), split := Correct(Uncorrect(hp.split)))
  }

  lemma PcTarget(hp: HookParam, x: string)
    requires hp.jittype == PC
    ensures var t := MatchTarget("@" + x);
            TargetReads(hp, x) <==> t != NoTarget && t.address < UINT64_LIMIT && LocatedHook(t, hp) == hp
  {
  }

  lemma FlagsLocated(t: Target, hp: HookParam)
    requires t != NoTarget
    ensures var r := LocatedHook(t, hp);
            r.typ == hp.typ <==> (MODULE_OFFSET in hp.typ <==> !t.At?) && (FUNCTION_OFFSET in hp.typ <==> t.InFunction?)
  {
    hide CopyCString, Narrow, Correct, Uncorrect, LeadNumber;
    var r := LocatedHook(t, hp);
    assert MODULE_OFFSET in r.typ <==> !t.At?;
    assert FUNCTION_OFFSET in r.typ <==> t.InFunction?;
    assert forall f :: f != MODULE_OFFSET && f != FUNCTION_OFFSET ==> (f in r.typ <==> f in hp.typ);
  }

  lemma LocatedIs(t: Target, hp: HookParam)
    requires HookShape(hp) && hp.jittype == PC && t != NoTarget
    ensures LocatedHook(t, hp) == hp <==>
      && t.address == hp.address
      && (MODULE_OFFSET in hp.typ <==> !t.At?) && (FUNCTION_OFFSET in hp.typ <==> t.InFunction?)
      && (!t.At? ==> CopyCString(t.moduleText, 119) == hp.moduleName)
      && (t.InFunction? ==> CopyCString(Narrow(t.functionText), 119) == hp.functionName)
  {
    FlagsLocated(t, hp);
    CorrectedAgain(hp.offset);
    CorrectedAgain(hp.split);
  }

  /** The match behind a printed address, by cases of the names text. */
  lemma MatchNames(a: nat, names: string)
    requires names != "" ==> names[0] == ':'
    ensures var t := MatchTarget("@" + (Print(a, 16) + names));
            if names == "" then t == At(a)
            else if |names| < 2 || !OneLine(names) then t == NoTarget
            else var k := LazyStop(names[1..], 1);
                 t == if k == |names| - 1 then InModule(a, names[1..])
                      else InFunction(a, names[1..][..k], names[1..][k + 1..])
  {
    MatchAddress(a, names);
  }

  /** The match behind a printed address and a colon. */
  lemma MatchAfterColon(a: nat, u: string)
    ensures var t := MatchTarget("@" + (Print(a, 16) + (":" + u)));
            if u == "" || !OneLine(":" + u) then t == NoTarget
            else var k := LazyStop(u, 1);
                 t == if k == |u| then InModule(a, u) else InFunction(a, u[..k], u[k + 1..])
  {
    hide MatchTarget, OneLine, Print, StopsAt;
    var names := ":" + u;
    assert names[1..] == u && |names| == |u| + 1 && names[0] == ':';
    MatchNames(a, names);
  }

  /** Behind a printed address, names are matched exactly when there are any and none holds a line break. */
  lemma NamesMatch(a: nat, u: string)
    ensures MatchTarget("@" + (Print(a, 16) + (":" + u))) != NoTarget
       <==> u != "" && '\n' !in u && '\r' !in u && '\U{2028}' !in u && '\U{2029}' !in u
  {
    hide MatchTarget, Print, StopsAt;
    MatchAfterColon(a, u);
    var names := ":" + u;
    assert names[0] == ':' && forall i :: 0 <= i < |u| ==> u[i] == names[i + 1];
    assert OneLine(names) <==> forall i :: 0 <= i < |u| ==> !IsLineBreak(u[i]);
  }

  lemma LazyStopIs(t: string, k: nat)
    requires 1 <= k <= |t|
    ensures LazyStop(t, 1) == k <==> StopsAt(t, k) && forall j :: 1 <= j < k ==> !StopsAt(t, j)
  {
  }

  lemma ModuleStops(m: string)
    requires m != ""
    ensures LazyStop(m, 1) == |m| <==> NoInnerFunction(m)
  {
    LazyStopIs(m, |m|);
    assert forall j :: 1 <= j < |m| ==> (StopsAt(m, j) <==> m[j] == ':' && j < |m| - 1);
  }

  lemma ModuleReads(hp: HookParam)
    requires HookShape(hp) && hp.jittype == PC && hp.address < INT64_LIMIT
    requires MODULE_OFFSET in hp.typ && FUNCTION_OFFSET !in hp.typ
    ensures TargetReads(hp, TargetText(hp))
       <==> hp.moduleName != "" && OneLine(NamesPart(hp)) && NoInnerFunction(hp.moduleName)
  {
    var m, x := hp.moduleName, TargetText(hp);
    assert NamesPart(hp) == ":" + m;
    assert x == Print(hp.address, 16) + (":" + m);
    var t := MatchTarget("@" + x);
    MatchAfterColon(hp.address, m);
    assert TargetReads(hp, x) <==> t == InModule(hp.address, m) by {
      ReadsModule(hp, x, t);
    }
    if m != "" {
      ModuleStops(m);
    }
  }

  lemma ReadsModule(hp: HookParam, x: string, t: Target)
    requires HookShape(hp) && hp.jittype == PC && MODULE_OFFSET in hp.typ && FUNCTION_OFFSET !in hp.typ
    requires t == MatchTarget("@" + x) && (t.InModule? ==> t == InModule(hp.address, hp.moduleName))
    ensures TargetReads(hp, x) <==> t.InModule?
  {
    PcTarget(hp, x);
    if t != NoTarget {
      LocatedIs(t, hp);
    }
  }

  lemma FunctionNames(m: string, w: string)
    ensures var t := m + ":" + w;
            1 <= |t| && (LazyStop(t, 1) == |m| <==> m != "" && w != "" && ':' !in m[1..])
  {
    var t := m + ":" + w;
    assert t[|m|] == ':';
    if m != "" {
      LazyStopIs(t, |m|);
      forall j | 1 <= j < |m|
        ensures StopsAt(t, j) <==> m[1..][j - 1] == ':'
      {
        assert t[j] == m[j];
      }
      if c :| 0 <= c < |m| - 1 && m[1..][c] == ':' {
        assert StopsAt(t, c + 1);
      }
    }
  }

  lemma FunctionReads(hp: HookParam)
    requires HookShape(hp) && hp.jittype == PC && hp.address < INT64_LIMIT && FUNCTION_OFFSET in hp.typ
    ensures TargetReads(hp, TargetText(hp))
       <==> && hp.moduleName != "" && hp.functionName != "" && ':' !in hp.moduleName[1..]
            && OneLine(NamesPart(hp))
  {
    var m, w, x := hp.moduleName, Widen(hp.functionName), TargetText(hp);
    var u := m + ":" + w;
    assert NamesPart(hp) == ":" + u;
    assert x == Print(hp.address, 16) + (":" + u);
    var t := MatchTarget("@" + x);
    MatchAfterColon(hp.address, u);
    FunctionNames(m, w);
    assert TargetReads(hp, x) <==> t != NoTarget && LazyStop(u, 1) == |m| by {
      ReadsFunction(hp, x, u, t);
    }
  }

  lemma ReadsFunction(hp: HookParam, x: string, u: string, t: Target)
    requires HookShape(hp) && hp.jittype == PC && FUNCTION_OFFSET in hp.typ
    requires u == hp.moduleName + ":" + Widen(hp.functionName) && t == MatchTarget("@" + x)
    requires var k := LazyStop(u, 1);
             t == NoTarget || t == if k == |u| then InModule(hp.address, u) else InFunction(hp.address, u[..k], u[k + 1..])
    ensures TargetReads(hp, x) <==> t != NoTarget && LazyStop(u, 1) == |hp.moduleName|
  {
    PcTarget(hp, x);
    hide TargetReads, MatchTarget, LocatedHook, Consistent;
    if t != NoTarget {
      LocatedIs(t, hp);
      if LazyStop(u, 1) == |hp.moduleName| {
        assert u[..|hp.moduleName|] == hp.moduleName && u[|hp.moduleName| + 1..] == Widen(hp.functionName);
        NarrowOfWiden(hp.functionName);
      }
    }
  }

  /** A target that gives back the names of the descriptor is at least as long as the printed one. */
  lemma NamesNeedRoom(hp: HookParam, a: nat, names: string)
    requires HookShape(hp) && hp.jittype == PC
    requires names != "" ==> names[0] == ':'
    requires TargetReads(hp, Print(a, 16) + names)
    ensures |names| >= |NamesPart(hp)|
  {
    PcTarget(hp, Print(a, 16) + names);
    MatchNames(a, names);
    LocatedIs(MatchTarget("@" + (Print(a, 16) + names)), hp);
  }

  lemma CleanPc(hp: HookParam)
    requires Representable(hp) && hp.jittype == PC
    ensures Clean(TargetText(hp)) == HexString(ToInt64(hp.address)) + Clean(NamesPart(hp))
  {
    PlainHex(ToInt64(hp.address));
    CleanAppend(HexString(ToInt64(hp.address)), NamesPart(hp));
  }

  lemma HighAddressFails(hp: HookParam, names: string)
    requires Representable(hp) && hp.jittype == PC && hp.address >= INT64_LIMIT
    ensures !TargetReads(hp, HexString(ToInt64(hp.address)) + names)
  {
    NegativeAddress(ToInt64(hp.address), names);
  }

  /** Names that stripping changes are lost. */
  lemma CutNamesFail(hp: HookParam, names: string)
    requires HookShape(hp) && hp.jittype == PC && hp.address < INT64_LIMIT
    requires names < NamesPart(hp)
    ensures !TargetReads(hp, HexString(ToInt64(hp.address)) + names)
  {
    assert names != "" ==> names[0] == NamesPart(hp)[0];
    if TargetReads(hp, HexString(ToInt64(hp.address)) + names) {
      NamesNeedRoom(hp, hp.address, names);
    }
  }

  lemma PcReads(hp: HookParam)
    requires HookShape(hp) && hp.jittype == PC
    ensures JitOf("@" + Clean(TargetText(hp)), PC) == PC && TargetReads(hp, Clean(TargetText(hp))) <==> TargetOk(hp)
  {
    var names := NamesPart(hp);
    CleanPc(hp);
    CleanNames(names);
    if hp.address >= INT64_LIMIT {
      HighAddressFails(hp, Clean(names));
    } else if Clean(names) != names {
      CutNamesFail(hp, Clean(names));
      assert !TargetOk(hp);
    } else {
      PcReadsClean(hp);
    }
  }

  lemma CleanNames(names: string)
    ensures Clean(names) == names <==> '/' !in names && (names != "" ==> !IsSpace(names[|names| - 1]))
  {
    assert '/' in names ==> |CutAt(names, '/')| < |names|;
  }

  lemma PcReadsClean(hp: HookParam)
    requires HookShape(hp) && hp.jittype == PC && hp.address < INT64_LIMIT && Clean(NamesPart(hp)) == NamesPart(hp)
    ensures JitOf("@" + TargetText(hp), PC) == PC && TargetReads(hp, TargetText(hp)) <==> TargetOk(hp)
  {
    hide TargetReads, JitOf, Print;
    CleanNames(NamesPart(hp));
    JitOfNames(hp.address, NamesPart(hp));
    if FUNCTION_OFFSET in hp.typ {
      FunctionReads(hp);
    } else if MODULE_OFFSET in hp.typ {
      ModuleReads(hp);
    } else {
      PcTarget(hp, TargetText(hp));
      MatchNames(hp.address, "");
      LocatedIs(At(hp.address), hp);
      NoColonNoJit("");
    }
  }

  /** The digits of the address take no part in a JIT suffix. */
  lemma JitOfNames(a: nat, names: string)
    ensures JitOf("@" + (Print(a, 16) + names), PC) == JitOf("@" + names, PC)
  {
    EndsWithAfterDigits(a, names, ":JIT:YUZU");
    EndsWithAfterDigits(a, names, ":JIT:PPSSPP");
    EndsWithAfterDigits(a, names, ":JIT:VITA3K");
    EndsWithAfterDigits(a, names, ":JIT:RPCS3");
    EndsWithAfterDigits(a, names, ":JIT:UNITY");
  }

  lemma EndsWithAfterDigits(a: nat, names: string, suffix: string)
    requires suffix != "" && suffix[0] == ':'
    ensures EndsWith("@" + (Print(a, 16) + names), suffix) <==> EndsWith("@" + names, suffix)
  {
    var d := Print(a, 16);
    var s := "@" + (d + names);
    assert s == ("@" + d) + names;
    assert forall i :: 0 <= i <= |d| ==> s[i] != ':' by {
      assert forall i :: 0 <= i < |d| ==> IsDigit(d[i], 16);
      assert forall i :: 1 <= i <= |d| ==> s[i] == d[i - 1];
    }
    if |names| >= |suffix| {
      assert s[|s| - |suffix|..] == names[|names| - |suffix|..];
      assert ("@" + names)[1 + |names| - |suffix|..] == names[|names| - |suffix|..];
    } else if EndsWith(s, suffix) {
      SuffixIsPart(s, suffix);
    }
  }

  // ---------- the other jittypes ----------

  predicate IsEmulator(j: JitType) { j != PC && j != UNITY }

  lemma CleanOfPlain(s: string)
    requires Plain(s)
    ensures Clean(s) == s
  {
    assert s + "" == s;
    CleanAppend(s, "");
  }

  lemma PlainSuffix(j: JitType)
    ensures Plain(JitSuffix(j)) && OneLine(JitSuffix(j))
  {
  }

  /** What an emulator hook's target parses to. */
  lemma EmulatorHook(hp: HookParam, t: Target)
    requires HookShape(hp) && IsEmulator(hp.jittype) && t != NoTarget && t.address == hp.emuAddr
    ensures var h := Located(t, AtTarget(hp)).(offset := Correct(LeadNumber(hp)), split := Correct(Uncorrect(hp.split)));
            Emulated(h) == hp <==> 0 <= hp.argidx
  {
    var h := Located(t, AtTarget(hp)).(offset := Correct(LeadNumber(hp)), split := Correct(Uncorrect(hp.split)));
    CorrectedAgain(hp.argidx);
    CorrectedAgain(hp.split);
    assert Emulated(h).typ == hp.typ;
  }

  lemma EmulatorReads(hp: HookParam)
    requires HookShape(hp) && IsEmulator(hp.jittype)
    ensures JitOf("@" + Clean(TargetText(hp)), PC) == hp.jittype && TargetReads(hp, Clean(TargetText(hp))) <==> TargetOk(hp)
  {
    var suffix, number := JitSuffix(hp.jittype), HexString(ToInt64(hp.emuAddr));
    PlainSuffix(hp.jittype);
    PlainHex(ToInt64(hp.emuAddr));
    CleanOfPlain(number + suffix);
    JitOfSuffix(number, hp.jittype);
    if hp.emuAddr >= INT64_LIMIT {
      NegativeAddress(ToInt64(hp.emuAddr), suffix);
    } else {
      MatchNames(hp.emuAddr, suffix);
      EmulatorHook(hp, MatchTarget("@" + (Print(hp.emuAddr, 16) + suffix)));
    }
  }

  /** What a Unity hook's target parses to. */
  function UnityHook(hp: HookParam, info: string): HookParam {
    var h := AtTarget(hp);
    h.(argidx := h.offset, offset := 0, address := 0, typ := h.typ - {MODULE_OFFSET, FUNCTION_OFFSET},
       functionName := "", moduleName := "", unityInfo := info)
  }

  lemma UnityHookIs(hp: HookParam, info: string)
    requires HookShape(hp) && hp.jittype == UNITY
    ensures UnityHook(hp, info) == hp <==> info == hp.unityInfo && 0 <= hp.split
  {
    assert UnityHook(hp, info).typ == hp.typ;
  }

  lemma UnityReads(hp: HookParam)
    requires HookShape(hp) && hp.jittype == UNITY
    ensures JitOf("@" + Clean(TargetText(hp)), PC) == UNITY && TargetReads(hp, Clean(TargetText(hp))) <==> TargetOk(hp)
  {
    var w, suffix := Widen(hp.unityInfo), JitSuffix(UNITY);
    var x := w + suffix;
    SlashInWiden(hp.unityInfo);
    if '/' in hp.unityInfo {
      CutIsShort(w, suffix);
      ShortUnityFails(hp, Clean(x));
    } else {
      assert '/' !in x;
      assert x[|x| - 1] == 'Y';
      assert Clean(x) == x;
      JitOfSuffix(w, UNITY);
      FullUnity(hp);
    }
  }

  lemma SlashInWiden(s: string)
    requires IsBytes(s)
    ensures '/' in Widen(s) <==> '/' in s
  {
    assert forall i :: 0 <= i < |s| ==> (Widen(s)[i] == '/' <==> s[i] == '/');
  }

  lemma FullUnity(hp: HookParam)
    requires HookShape(hp) && hp.jittype == UNITY
    ensures TargetReads(hp, Widen(hp.unityInfo) + JitSuffix(UNITY)) <==> 0 <= hp.split
  {
    var x := Widen(hp.unityInfo) + JitSuffix(UNITY);
    assert ("@" + x)[1..] == x && x[..|x| - 10] == Widen(hp.unityInfo);
    NarrowOfWiden(hp.unityInfo);
    UnityHookIs(hp, hp.unityInfo);
  }

  lemma CutIsShort(w: string, rest: string)
    requires '/' in w
    ensures |Clean(w + rest)| < |w|
  {
    var i :| 0 <= i < |w| && w[i] == '/';
    assert (w + rest)[i] == '/';
    assert '/' !in CutAt(w + rest, '/');
  }

  /** A text too short for the information and the suffix. */
  lemma ShortUnityFails(hp: HookParam, x: string)
    requires HookShape(hp) && hp.jittype == UNITY && |x| < |hp.unityInfo|
    ensures !TargetReads(hp, x)
  {
    assert ("@" + x)[1..] == x;
    var info := CutAt(Narrow(if |x| >= 10 then x[..|x| - 10] else x), '\0');
    UnityHookIs(hp, info);
    assert ParseUnity("@" + x, AtTarget(hp)) == if |info| >= MAX_UNITY_SIZE then Overrun else Hook(UnityHook(hp, info));
  }

  lemma TargetReadsBack(hp: HookParam)
    requires HookShape(hp)
    ensures var x := Clean(TargetText(hp));
            JitOf("@" + x, PC) == hp.jittype && TargetReads(hp, x) <==> TargetOk(hp)
  {
    match hp.jittype
    case PC => PcReads(hp);
    case UNITY => UnityReads(hp);
    case _ => EmulatorReads(hp);
  }

  // ---------- read codes ----------

  lemma ReadAddress(hp: HookParam)
    requires IsUint64(hp.address)
    ensures var r := ParseReadAddress("@" + HexString(ToInt64(hp.address)), hp.(address := 0));
            r == Hook(hp) <==> hp.address < INT64_LIMIT
  {
    var n := HexString(ToInt64(hp.address));
    assert ("@" + n)[1..] == n;
    if hp.address < INT64_LIMIT {
      ValueOfPrint(hp.address, 16);
      assert hp.(address := 0).(address := hp.address) == hp;
    } else {
      assert n[0] == '-';
    }
  }

  lemma ReadCodepageAndAddress(hp: HookParam)
    requires Representable(hp) && hp.codepage < INT_LIMIT
    ensures var code := CodepagePart(hp) + ("@" + HexString(ToInt64(hp.address)));
            (ParseReadCodepage(code, hp.(codepage := 0, address := 0)) == Hook(hp)
             <==> (hp.codepage != 0 ==> !IsUnicode(hp)) && hp.address < INT64_LIMIT)
  {
    var rest, h := "@" + HexString(ToInt64(hp.address)), hp.(codepage := 0, address := 0);
    ReadAddress(hp);
    if CodepagePart(hp) == "" {
      assert CodepagePart(hp) + rest == rest;
      assert RunLength(rest, 10) == 0;
    } else {
      MatchPrinted(hp.codepage, 10, '#', rest);
      assert CodepagePart(hp) + rest == Print(hp.codepage, 10) + ['#'] + rest;
    }
  }

  lemma PlainReadCode(hp: HookParam)
    requires Representable(hp)
    ensures Stripped(GenerateR(hp)) == GenerateR(hp)
  {
    var s := GenerateR(hp);
    PlainHex(ToInt64(hp.address));
    PlainNumeral(hp.codepage, 10);
    assert Plain(['R', ReadLetter(hp)]) && Plain(CodepagePart(hp)) && Plain("@");
    assert Plain(s);
    StrippedIsClean(s);
    CleanOfPlain(s);
  }

  lemma ReadCodec(hp: HookParam, rest: string)
    requires ReadShape(hp)
    ensures ParseR(['R', ReadLetter(hp)] + rest) == ParseReadCodepage(rest, hp.(codepage := 0, address := 0))
  {
    assert Tail(['R', ReadLetter(hp)] + rest) == [ReadLetter(hp)] + rest;
    assert Tail([ReadLetter(hp)] + rest) == rest;
    assert {DIRECT_READ} + ReadCodecOf(ReadLetter(hp)).flags == hp.typ;
  }

  lemma ReadRoundTrip(hp: HookParam)
    requires Representable(hp) && DIRECT_READ in hp.typ
    ensures Parse(Generate(hp)) == Hook(hp) <==> CanonicalRead(hp)
  {
    PlainReadCode(hp);
    if Parse(Generate(hp)) == Hook(hp) {
      ParsedShape(Generate(hp));
    }
    if ReadShape(hp) {
      ReadCodec(hp, CodepagePart(hp) + ("@" + HexString(ToInt64(hp.address))));
      ReadCodepageAndAddress(hp);
    }
  }

  // ---------- the theorems ----------

  lemma HookRoundTrip(hp: HookParam)
    requires Representable(hp) && DIRECT_READ !in hp.typ
    ensures Parse(Generate(hp)) == Hook(hp) <==> CanonicalHook(hp)
  {
    var x := Clean(TargetText(hp));
    StrippedCode(hp, TargetText(hp));
    if Parse(Generate(hp)) == Hook(hp) {
      ParsedShape(Generate(hp));
    }
    if HookShape(hp) {
      if HOOK_RETURN in hp.typ {
        ReturnIsLost(hp, x);
      } else {
        HookReads(hp, x);
        TargetReadsBack(hp);
      }
    }
  }

  /** Printing and parsing give the descriptor back exactly when it is canonical. */
  lemma RoundTrip(hp: HookParam)
    requires Representable(hp)
    ensures Parse(Generate(hp)) == Hook(hp) <==> Canonical(hp)
  {
    if DIRECT_READ in hp.typ {
      ReadRoundTrip(hp);
    } else {
      HookRoundTrip(hp);
    }
  }

  /** With a process to ask, the descriptor that comes back is the one relative to its module. */
  lemma RelativeRoundTrip(hp: HookParam, m: Mapping)
    requires Representable(hp)
    ensures var g := if DIRECT_READ in hp.typ then hp else Relative(hp, m);
            Parse(GenerateFor(hp, m)) == Hook(g) <==> Canonical(g)
  {
    var g := if DIRECT_READ in hp.typ then hp else Relative(hp, m);
    assert GenerateFor(hp, m) == Generate(g);
    RoundTrip(g);
  }

  /** Without one, it is the descriptor itself. */
  lemma UnmappedIsPlain(hp: HookParam)
    requires Representable(hp)
    ensures Relative(hp, Unmapped) == hp && GenerateFor(hp, Unmapped) == Generate(hp)
  {
  }

  /** Two canonical descriptors never share a code. */
  lemma CodesAreDistinct(hp: HookParam, other: HookParam)
    requires Representable(hp) && Representable(other) && Canonical(hp) && Canonical(other)
    requires Generate(hp) == Generate(other)
    ensures hp == other
  {
    RoundTrip(hp);
    RoundTrip(other);
  }

  /** The blanks of Unicode, and the control characters that count as blanks. */
  const BLANKS := "\t\n\U{b}\U{c}\r \U{85}\U{a0}\U{1680}"
                  + "\U{2000}\U{2001}\U{2002}\U{2003}\U{2004}\U{2005}\U{2006}\U{2007}\U{2008}\U{2009}\U{200a}"
                  + "\U{2028}\U{2029}\U{202f}\U{205f}\U{3000}"

  lemma SpacesAre(c: char)
    ensures IsSpace(c) <==> c in BLANKS
  {
  }

  lemma TrimAfter(s: string, b: char)
    requires IsSpace(b)
    ensures Trim(s + [b]) == Trim(s)
  {
    var w := SpaceRun(s);
    SpaceRunMore(s, b);
    if w < |s| {
      assert (s + [b])[w..] == s[w..] + [b];
      assert (s[w..] + [b])[..|s[w..]|] == s[w..];
    } else {
      assert s[w..] == "" && (s + [b])[w + 1..] == "";
    }
  }

  lemma {:induction false} SpaceRunMore(s: string, b: char)
    requires IsSpace(b)
    ensures SpaceRun(s + [b]) == if SpaceRun(s) < |s| then SpaceRun(s) else |s| + 1
  {
    if s == "" {
      assert ("" + [b])[1..] == "";
    } else {
      assert (s + [b])[1..] == s[1..] + [b] && (s + [b])[0] == s[0];
      SpaceRunMore(s[1..], b);
    }
  }

  lemma TrimBefore(s: string, b: char)
    requires IsSpace(b)
    ensures Trim([b] + s) == Trim(s)
  {
    assert ([b] + s)[1..] == s;
    assert ([b] + s)[1 + SpaceRun(s)..] == s[SpaceRun(s)..];
  }

  /** A blank in front of a code or behind it changes nothing. */
  lemma BlanksAreIgnored(code: string, b: char)
    requires b in BLANKS && Head(code) != '/'
    ensures Parse([b] + code) == Parse(code) && Parse(code + [b]) == Parse(code)
  {
    SpacesAre(b);
    assert b != '/';
    var c := CutAt(code, '/');
    assert CutAt([b] + code, '/') == [b] + c by {
      assert ([b] + code)[1..] == code;
    }
    TrimBefore(c, b);
    if '/' in code {
      CutInside(code, [b]);
    } else {
      CutAppend(code, [b]);
      assert CutAt([b], '/') == [b];
      TrimAfter(code, b);
    }
    assert Head([b] + code) == b && Head(code + [b]) == if code == "" then b else code[0];
    hide CutAt, Trim, Dispatch, IsSpace;
    assert Stripped([b] + code) == Stripped(code) && Stripped(code + [b]) == Stripped(code);
  }

  lemma {:induction false} CutInside(s: string, t: string)
    requires '/' in s
    ensures CutAt(s + t, '/') == CutAt(s, '/')
  {
    if s[0] != '/' {
      assert (s + t)[0] == s[0] && (s + t)[1..] == s[1..] + t;
      CutInside(s[1..], t);
    }
  }

  /** The AGTH spellings: a leading slash, and anything behind a further slash, change nothing. */
  lemma SlashesAreIgnored(code: string, comment: string)
    requires Head(code) != '/'
    ensures Parse("/" + code) == Parse(code)
    ensures Parse("/" + code + "/" + comment) == Parse(code)
  {
    assert Tail("/" + code) == code;
    assert Tail("/" + code + "/" + comment) == code + "/" + comment;
    CutIgnoresRest(code, comment);
  }
}
