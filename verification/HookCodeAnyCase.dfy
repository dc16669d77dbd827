/** Printed codes with their digits in any case: what they parse to, and which of them come back. */
module HookCodeAnyCase {
  import opened MachineTypes
  import opened Numerals
  import opened HookParams
  import opened HookCodeParser
  import opened HookCodeGenerator
  import opened HookCodeShape
  import opened HookCodeCanonical
  import opened HookCodeStages
  import opened HookCodeText
  import opened HookCodeRoundTrip
  import opened HookCodeLeadingF
  import opened HookCodeCase

  // ---------- printed codes in any case ----------

  /** Everything from behind the letters to the at sign. */
  function Options(hp: HookParam): string
    requires Representable(hp)
  {
    var numbers := HexString(LeadNumber(hp)) + (IndexPart(hp) + (SplitPart(hp) + SplitIndexPart(hp)));
    FilterPart(hp) + (FullPart(hp) + (ContextPart(hp) + (CodepagePart(hp) + (PaddingPart(hp) + numbers))))
  }

  /** The digits behind the at sign. */
  function AddressDigits(hp: HookParam): string
    requires Representable(hp)
  {
    var address := if hp.jittype == PC then hp.address else hp.emuAddr;
    if hp.jittype == UNITY || address >= INT64_LIMIT then "" else Print(address, 16)
  }

  /** What stands behind them: names, or the JIT suffix. */
  function Ending(hp: HookParam): string
    requires Representable(hp)
  {
    TargetText(hp)[|AddressDigits(hp)|..]
  }

  /** The code of a hook with its numbers written in any way. */
  function Written(hp: HookParam, a: string, d: string): string
    requires Representable(hp)
  {
    Lettered(hp, Numbered(a, d, Ending(hp)))
  }

  lemma TargetIs(hp: HookParam)
    requires Representable(hp)
    ensures AddressDigits(hp) <= TargetText(hp) && TargetText(hp) == AddressDigits(hp) + Ending(hp)
    ensures Digits(AddressDigits(hp)) && (hp.jittype == UNITY ==> AddressDigits(hp) == "")
  {
    hide Print, Widen;
    assert AddressDigits(hp) <= TargetText(hp);
    assert TargetText(hp) == TargetText(hp)[..|AddressDigits(hp)|] + Ending(hp);
    assert forall i :: 0 <= i < |AddressDigits(hp)| ==> IsDigit(AddressDigits(hp)[i], 16);
  }

  lemma OptionsAre(hp: HookParam, x: string)
    requires Representable(hp)
    ensures FromFilter(hp, x) == Options(hp) + ("@" + x)
  {
    hide FilterPart, FullPart, ContextPart, CodepagePart, PaddingPart, HexString, IndexPart, SplitPart, SplitIndexPart;
    var at := "@" + x;
    var f, g, c, p, q := FilterPart(hp), FullPart(hp), ContextPart(hp), CodepagePart(hp), PaddingPart(hp);
    var h, i, k, l := HexString(LeadNumber(hp)), IndexPart(hp), SplitPart(hp), SplitIndexPart(hp);
    Append(k, l, at);
    Append(i, k + l, at);
    Append(h, i + (k + l), at);
    var n := h + (i + (k + l));
    assert FromOffset(hp, x) == n + at;
    Append(q, n, at);
    Append(c, p + n, at);
    AppendFive(f, g, c, p, q, n, at);
  }

  lemma AppendFive(f: string, g: string, c: string, p: string, q: string, n: string, at: string)
    ensures f + (g + (c + (p + (q + (n + at))))) == (f + (g + (c + (p + (q + n))))) + at
  {
    Append(q, n, at);
    Append(p, q + n, at);
    Append(c, p + (q + n), at);
    Append(g, c + (p + (q + n)), at);
    Append(f, g + (c + (p + (q + n))), at);
  }

  /** The generator writes its numbers one way. */
  lemma PrintedIsWritten(hp: HookParam)
    requires Representable(hp)
    ensures GenerateH(hp) == Written(hp, Options(hp), AddressDigits(hp))
  {
    hide Options, AddressDigits, FromFilter, EmbedPart, TagPart, CodecLetter;
    TargetIs(hp);
    OptionsAre(hp, TargetText(hp));
  }

  // ---------- parsing them ----------

  lemma PlainParts(a: string, b: string)
    requires Plain(a + b)
    ensures Plain(a) && Plain(b)
  {
    assert forall i :: 0 <= i < |a| ==> a[i] == (a + b)[i];
    assert forall i :: 0 <= i < |b| ==> b[i] == (a + b)[|a| + i];
  }

  lemma PlainAlike(s: string, t: string)
    requires CaseAlike(s, t) && Plain(t)
    ensures Plain(s)
  {
    forall i | 0 <= i < |s|
      ensures s[i] != '/' && !IsSpace(s[i])
    {
      DigitsAlike(t[i], s[i], 16);
      assert t[i] != '/' && !IsSpace(t[i]);
    }
  }

  lemma NoAtAlike(s: string, t: string)
    requires CaseAlike(s, t) && '@' !in t
    ensures '@' !in s
  {
    forall i | 0 <= i < |s|
      ensures s[i] != '@'
    {
      DigitsAlike(t[i], s[i], 16);
    }
  }

  lemma DigitsStay(d: string, e: string)
    requires CaseAlike(d, e) && Digits(e)
    ensures Digits(d) && Plain(d) && ':' !in d
  {
    forall i | 0 <= i < |d|
      ensures IsDigit(d[i], 16)
    {
      DigitsAlike(e[i], d[i], 16);
    }
  }

  /** The printed letters and numbers hold neither slash nor blank, and no at sign in front of the address. */
  lemma PlainPrinted(hp: HookParam)
    requires Representable(hp)
    ensures Plain(Lettered(hp, "")) && Plain(Options(hp)) && Plain("@")
  {
    hide IsSpace, Options, Plain;
    StartFront(hp, "");
    OptionsAre(hp, "");
    var letters := Lettered(hp, "");
    LetteredAppends(hp, Options(hp) + ("@" + ""));
    assert FromStart(hp, "") == letters + (Options(hp) + "@") by {
      assert "@" + "" == "@";
    }
    assert Plain(FromStart(hp, ""));
    PlainParts(letters, Options(hp) + "@");
    PlainParts(Options(hp), "@");
  }

  lemma LetteredAppends(hp: HookParam, v: string)
    ensures Lettered(hp, v) == Lettered(hp, "") + v
  {
    hide EmbedPart, TagPart, CodecLetter;
    assert [CodecLetter(hp)] + "" == [CodecLetter(hp)];
    Append(TagPart(hp), [CodecLetter(hp)], v);
    Append(EmbedPart(hp), TagPart(hp) + [CodecLetter(hp)], v);
  }

  /** Stripping a written code only touches its ending. */
  lemma StrippedWriting(hp: HookParam, a: string, d: string, x: string)
    requires Representable(hp) && CaseAlike(a, Options(hp)) && CaseAlike(d, AddressDigits(hp))
    ensures Stripped(Lettered(hp, Numbered(a, d, x))) == Lettered(hp, Numbered(a, d, Clean(x)))
  {
    hide IsSpace, Options, Plain, AddressDigits, Lettered, Clean, CutAt, TrimRight;
    var letters := Lettered(hp, "");
    PlainPrinted(hp);
    PlainAlike(a, Options(hp));
    TargetIs(hp);
    DigitsStay(d, AddressDigits(hp));
    LetteredAppends(hp, Numbered(a, d, x));
    LetteredAppends(hp, Numbered(a, d, Clean(x)));
    CleanAppend(d, x);
    CleanAppend("@", d + x);
    CleanAppend(a, "@" + (d + x));
    CleanAppend(letters, Numbered(a, d, x));
    LettersStart(hp);
    assert Head(letters + Numbered(a, d, x)) == letters[0];
    StrippedIsClean(letters + Numbered(a, d, x));
  }

  lemma LettersStart(hp: HookParam)
    ensures var s := Lettered(hp, ""); s != "" && s[0] != '/' && !IsSpace(s[0])
  {
  }

  lemma JitOfNumbered(hp: HookParam, a: string, d: string, x: string)
    requires Digits(d) && ':' !in d
    ensures JitOf([CodecLetter(hp)] + Numbered(a, d, x), PC) == JitOf("@" + x, PC)
  {
    var front := [CodecLetter(hp)] + (a + "@");
    assert [CodecLetter(hp)] + Numbered(a, d, x) == front + (d + x);
    hide CodecLetter, Digits, JitOf;
    JitAfterAt(front, d + x);
    JitAfterDigits(d, x);
  }

  lemma JitAfterDigits(d: string, x: string)
    requires ':' !in d
    ensures JitOf("@" + (d + x), PC) == JitOf("@" + x, PC)
  {
    SuffixAfterDigits(d, x, ":JIT:YUZU");
    SuffixAfterDigits(d, x, ":JIT:PPSSPP");
    SuffixAfterDigits(d, x, ":JIT:VITA3K");
    SuffixAfterDigits(d, x, ":JIT:RPCS3");
    SuffixAfterDigits(d, x, ":JIT:UNITY");
  }

  lemma SuffixAfterDigits(d: string, x: string, suffix: string)
    requires ':' !in d && suffix != "" && suffix[0] == ':'
    ensures EndsWith("@" + (d + x), suffix) <==> EndsWith("@" + x, suffix)
  {
    var s := "@" + (d + x);
    assert forall i :: 1 <= i <= |d| ==> s[i] == d[i - 1];
    if |x| >= |suffix| {
      assert s[|s| - |suffix|..] == x[|x| - |suffix|..];
      assert ("@" + x)[1 + |x| - |suffix|..] == x[|x| - |suffix|..];
    } else if EndsWith(s, suffix) {
      SuffixIsPart(s, suffix);
    }
  }

  /** The descriptor when the letters have been read. */
  function Begun(hp: HookParam): HookParam
    requires Representable(hp)
  {
    ZERO.(jittype := JitOf("@" + Clean(Ending(hp)), PC), typ := LettersRead(hp))
  }

  /** A written code comes to its numbers with the letters read. */
  lemma WrittenParses(hp: HookParam, a: string, d: string)
    requires Representable(hp) && CaseAlike(a, Options(hp)) && CaseAlike(d, AddressDigits(hp))
    ensures Parse(Written(hp, a, d))
         == if LettersOk(hp) then ParseFull(Numbered(a, d, Clean(Ending(hp))), Begun(hp)) else NoHook
  {
    var x := Clean(Ending(hp));
    assert Begun(hp) == ZERO.(jittype := JitOf("@" + x, PC), typ := LettersRead(hp));
    hide *;
    TargetIs(hp);
    DigitsStay(d, AddressDigits(hp));
    StrippedWriting(hp, a, d, Ending(hp));
    LettersAreRead(hp, Numbered(a, d, x));
    JitOfNumbered(hp, a, d, x);
    ParseIs(hp, a, d);
  }

  lemma ParseIs(hp: HookParam, a: string, d: string)
    requires Representable(hp)
    ensures Parse(Written(hp, a, d)) == Dispatch(Stripped(Lettered(hp, Numbered(a, d, Ending(hp)))))
  {
  }

  /**
   * A printed code may have the digits of its numbers and of its address in either case and parses the same,
   * but for an F that can be taken for the full-string letter, and for an address that is part of a Unity
   * hook's text.
   */
  lemma CaseChangesNothing(hp: HookParam, a: string, d: string)
    requires Representable(hp) && DIRECT_READ !in hp.typ
    requires CaseAlike(a, Options(hp)) && CaseAlike(d, AddressDigits(hp))
    requires USING_STRING in hp.typ ==> (Head(a) == 'F' <==> Head(Options(hp)) == 'F')
    requires d == AddressDigits(hp) || JitOf("@" + Clean(Ending(hp)), PC) != UNITY
    ensures Parse(Written(hp, a, d)) == Parse(Generate(hp))
  {
    var b, e, x := Options(hp), AddressDigits(hp), Clean(Ending(hp));
    var h := Begun(hp);
    assert Parse(Generate(hp)) == Parse(Written(hp, b, e)) by { PrintedIsWritten(hp); }
    assert USING_STRING in h.typ <==> USING_STRING in hp.typ by { StringIsRead(hp); }
    hide *;
    WrittenParses(hp, a, d);
    AlikeItself(b);
    AlikeItself(e);
    WrittenParses(hp, b, e);
    FullAlike(hp, a, d, x, h);
  }

  lemma AlikeItself(s: string)
    ensures CaseAlike(s, s)
  {
  }

  lemma StringIsRead(hp: HookParam)
    ensures USING_STRING in LettersRead(hp) <==> USING_STRING in hp.typ
  {
  }

  lemma FullAlike(hp: HookParam, a: string, d: string, x: string, h: HookParam)
    requires Representable(hp) && CaseAlike(a, Options(hp)) && CaseAlike(d, AddressDigits(hp))
    requires USING_STRING in h.typ ==> (Head(a) == 'F' <==> Head(Options(hp)) == 'F')
    requires h.jittype == UNITY ==> d == AddressDigits(hp)
    ensures ParseFull(Numbered(a, d, x), h) == ParseFull(Numbered(Options(hp), AddressDigits(hp), x), h)
  {
    var b, e := Options(hp), AddressDigits(hp);
    assert '@' !in b by { NoAtInOptions(hp); }
    hide Options, AddressDigits, ParseFull, Variants;
    NoAtAlike(a, b);
    TargetIs(hp);
    DigitsStay(d, e);
    NumberedVary(a, b, d, e, x, h.jittype);
    var s, t := Numbered(a, d, x), Numbered(b, e, x);
    assert Head(s) == (if a == "" then '@' else a[0]) && Head(t) == (if b == "" then '@' else b[0]);
    VariantFull(s, t, if h.jittype == UNITY then |d + x| else |x|, h);
  }

  lemma NoAtInOptions(hp: HookParam)
    requires Representable(hp)
    ensures '@' !in Options(hp)
  {
    NoAtInHex(LeadNumber(hp));
    NoAtInHex(hp.index);
    NoAtInHex(Uncorrect(hp.split));
    NoAtInHex(hp.splitIndex);
    NoAtInHex(ToInt64(hp.padding));
    NoAtInNumeral(hp.codepage, 10);
    hide HexString, Print;
  }

  lemma NoAtInNumeral(n: nat, base: nat)
    requires base == 10 || base == 16
    ensures '@' !in Print(n, base)
  {
    assert forall i :: 0 <= i < |Print(n, base)| ==> IsDigit(Print(n, base)[i], base);
  }

  lemma NoAtInHex(num: int)
    ensures '@' !in HexString(num)
  {
    NoAtInNumeral(if num < 0 then -num else num, 16);
  }

  // ---------- the round trip in any case ----------

  lemma BegunIs(hp: HookParam)
    requires HookShape(hp) && HOOK_RETURN !in hp.typ
    ensures LettersOk(hp)
    ensures JitOf("@" + Clean(Ending(hp)), PC) == hp.jittype ==> Begun(hp) == AtFull(hp)
  {
    StartOfHook(hp);
    CodecReads(hp.typ, hp);
    assert EmbedRead(hp.typ) == hp.typ * EMBED_FLAGS by { EmbedIsWhole(hp.typ); }
    assert AtFull(hp).typ * CODEC_FLAGS == hp.typ * CODEC_FLAGS;
    assert CodecRead(hp) == hp.typ * CODEC_FLAGS;
    TypAtFull(hp);
    assert LettersRead(hp) == AtFull(hp).typ;
    assert AtFull(hp) == AtTag(hp).(jittype := hp.jittype, typ := AtFull(hp).typ);
  }

  lemma EmbedIsWhole(typ: set<Flag>)
    requires EmbedShape(typ)
    ensures EmbedRead(typ) == typ * EMBED_FLAGS
  {
  }

  lemma TypAtFull(hp: HookParam)
    ensures AtFull(hp).typ == AtTag(hp).typ + If(BREAK_POINT, hp.typ) + AtFull(hp).typ * CODEC_FLAGS
  {
    assert BREAK_POINT in AtFull(hp).typ <==> BREAK_POINT in hp.typ;
    assert AtTag(hp).typ == AtFull(hp).typ - CODEC_FLAGS - {BREAK_POINT};
  }

  /** Without a misplaced F the numbers are read as they are printed. */
  lemma NumbersRead(hp: HookParam, a: string, d: string, x: string)
    requires HookShape(hp) && CaseAlike(a, Options(hp)) && CaseAlike(d, AddressDigits(hp))
    requires hp.jittype == UNITY ==> d == AddressDigits(hp)
    requires Head(a) == 'F' && USING_STRING in hp.typ <==> FULL_STRING in hp.typ
    ensures ParseFull(Numbered(a, d, x), AtFull(hp)) == Hook(hp)
       <==> NumbersOk(hp) && TargetReads(hp, AddressDigits(hp) + x)
  {
    var b, e := Options(hp), AddressDigits(hp);
    assert FilterPart(hp) == "";
    assert NumbersFit(hp) && (FULL_STRING in hp.typ ==> USING_STRING in hp.typ);
    assert Numbered(b, e, x) == FromFull(hp, e + x) by { FullIsNumbered(hp, x); }
    if FULL_STRING in hp.typ {
      assert Head(b) == 'F' && FullOk(hp);
      hide *;
      FullAlike(hp, a, d, x, AtFull(hp));
      FullReads(hp, e + x);
    } else {
      assert AtFull(hp) == AtContext(hp);
      assert FromFull(hp, e + x) == FromContext(hp, e + x);
      assert '@' !in b by { NoAtInOptions(hp); }
      ContextAlike(hp, a, d, x, AtContext(hp));
      ContextReads(hp, e + x);
      assert Head(Numbered(a, d, x)) == if a == "" then '@' else a[0];
    }
  }

  lemma FullIsNumbered(hp: HookParam, x: string)
    requires Representable(hp) && FilterPart(hp) == ""
    ensures Numbered(Options(hp), AddressDigits(hp), x) == FromFull(hp, AddressDigits(hp) + x)
  {
    hide Options, AddressDigits, FromFull;
    OptionsAre(hp, AddressDigits(hp) + x);
  }

  lemma ContextAlike(hp: HookParam, a: string, d: string, x: string, h: HookParam)
    requires Representable(hp) && CaseAlike(a, Options(hp)) && CaseAlike(d, AddressDigits(hp)) && '@' !in Options(hp)
    requires h.jittype == UNITY ==> d == AddressDigits(hp)
    ensures ParseContext(Numbered(a, d, x), h) == ParseContext(Numbered(Options(hp), AddressDigits(hp), x), h)
  {
    var b, e := Options(hp), AddressDigits(hp);
    hide *;
    NoAtAlike(a, b);
    TargetIs(hp);
    DigitsStay(d, e);
    NumberedVary(a, b, d, e, x, h.jittype);
    VariantContext(Numbered(a, d, x), Numbered(b, e, x), if h.jittype == UNITY then |d + x| else |x|, h);
  }

  /**
   * With its digits in any case, but a first F only for a full-string hook, a code gives its hook back exactly
   * when the numbers and the target can be told. Lower case digits thus save the codes that a leading F spoils.
   */
  lemma AnyCaseRoundTrip(hp: HookParam, a: string, d: string)
    requires HookShape(hp) && HOOK_RETURN !in hp.typ && CaseAlike(a, Options(hp)) && CaseAlike(d, AddressDigits(hp))
    requires Head(a) == 'F' && USING_STRING in hp.typ <==> FULL_STRING in hp.typ
    ensures Parse(Written(hp, a, d)) == Hook(hp) <==> NumbersOk(hp) && TargetOk(hp)
  {
    var x := Clean(Ending(hp));
    assert Clean(TargetText(hp)) == AddressDigits(hp) + x by { CleanTarget(hp); }
    assert JitOf("@" + Clean(TargetText(hp)), PC) == JitOf("@" + x, PC) by { JitOfTarget(hp); }
    BegunIs(hp);
    var r := Parse(Written(hp, a, d));
    assert Begun(hp).jittype == JitOf("@" + x, PC);
    hide *;
    TargetReadsBack(hp);
    WrittenParses(hp, a, d);
    TargetIs(hp);
    if JitOf("@" + x, PC) == hp.jittype {
      assert hp.jittype == UNITY ==> d == AddressDigits(hp) by { AlikeNothing(d, AddressDigits(hp)); }
      NumbersRead(hp, a, d, x);
    } else {
      FullKeepsJit(Numbered(a, d, x), Begun(hp));
    }
  }

  lemma FullKeepsJit(code: string, h: HookParam)
    ensures ParseFull(code, h).Hook? ==> ParseFull(code, h).hp.jittype == h.jittype
  {
    FullKeeps(code, h);
  }

  lemma AlikeNothing(d: string, e: string)
    requires CaseAlike(d, e)
    ensures e == "" ==> d == ""
  {
  }

  lemma CleanTarget(hp: HookParam)
    requires Representable(hp)
    ensures Clean(TargetText(hp)) == AddressDigits(hp) + Clean(Ending(hp))
  {
    TargetIs(hp);
    AlikeItself(AddressDigits(hp));
    DigitsStay(AddressDigits(hp), AddressDigits(hp));
    CleanAppend(AddressDigits(hp), Ending(hp));
  }

  lemma JitOfTarget(hp: HookParam)
    requires Representable(hp)
    ensures JitOf("@" + Clean(TargetText(hp)), PC) == JitOf("@" + Clean(Ending(hp)), PC)
  {
    CleanTarget(hp);
    hide JitOf, Clean;
    TargetIs(hp);
    AlikeItself(AddressDigits(hp));
    DigitsStay(AddressDigits(hp), AddressDigits(hp));
    JitAfterDigits(AddressDigits(hp), Clean(Ending(hp)));
  }

  // ---------- read codes ----------

  /** A read code with the digits of its address written in any way. */
  function WrittenRead(hp: HookParam, d: string): string
    requires Representable(hp)
  {
    ['R', ReadLetter(hp)] + (CodepagePart(hp) + ("@" + d))
  }

  lemma AppendAlike(p: string, s: string, t: string)
    requires CaseAlike(s, t)
    ensures CaseAlike(p + s, p + t)
  {
  }

  lemma ReadAlike(s: string, t: string, h: HookParam)
    requires CaseAlike(s, t)
    ensures ParseReadCodepage(s, h) == ParseReadCodepage(t, h)
  {
    hide ParseReadAddress;
    RunAlike(s, t, 10);
    var n := RunLength(s, 10);
    ReadAddressAlike(s, t, h);
    if 0 < n < |s| {
      DigitsAlike(s[n], t[n], 16);
      ValueAlike(s[..n], t[..n], 10);
      ReadAddressAlike(s[n + 1..], t[n + 1..], h.(codepage := Value(s[..n], 10)));
    }
  }

  lemma ReadAddressAlike(s: string, t: string, h: HookParam)
    requires CaseAlike(s, t)
    ensures ParseReadAddress(s, h) == ParseReadAddress(t, h)
  {
    if s != "" {
      DigitsAlike(s[0], t[0], 16);
      var u, v := s[1..], t[1..];
      forall i | 0 <= i < |u|
        ensures IsDigit(u[i], 16) <==> IsDigit(v[i], 16)
      {
        DigitsAlike(u[i], v[i], 16);
      }
      assert IsNumeral(u, 16) <==> IsNumeral(v, 16);
      if IsNumeral(u, 16) {
        ValueAlike(u, v, 16);
      }
    }
  }

  /** The address of a read code may be written in either case. */
  lemma ReadCaseChangesNothing(hp: HookParam, d: string)
    requires Representable(hp) && DIRECT_READ in hp.typ && CaseAlike(d, HexString(ToInt64(hp.address)))
    ensures Parse(WrittenRead(hp, d)) == Parse(Generate(hp))
  {
    var e := HexString(ToInt64(hp.address));
    assert Generate(hp) == WrittenRead(hp, e);
    PlainHex(ToInt64(hp.address));
    PlainAlike(d, e);
    ParseOfRead(hp, d);
    ParseOfRead(hp, e);
    AppendAlike("@", d, e);
    AppendAlike(CodepagePart(hp), "@" + d, "@" + e);
    hide *;
    ReadAlike(CodepagePart(hp) + ("@" + d), CodepagePart(hp) + ("@" + e), ReadStart(hp));
  }

  function ReadStart(hp: HookParam): HookParam {
    ZERO.(typ := {DIRECT_READ} + if ReadCodecOf(ReadLetter(hp)).Sets? then ReadCodecOf(ReadLetter(hp)).flags else {})
  }

  lemma ParseOfRead(hp: HookParam, d: string)
    requires Representable(hp) && Plain(d)
    ensures Parse(WrittenRead(hp, d)) == ParseReadCodepage(CodepagePart(hp) + ("@" + d), ReadStart(hp))
  {
    var s, rest := WrittenRead(hp, d), CodepagePart(hp) + ("@" + d);
    assert Plain(CodepagePart(hp)) by { PlainNumeral(hp.codepage, 10); }
    assert Plain(s) by { PlainRead(hp, d); }
    assert s[0] == 'R' && Tail(s) == [ReadLetter(hp)] + rest && Tail([ReadLetter(hp)] + rest) == rest;
    assert Head(s) != '/' && !IsSpace(Head(s));
    assert ParseR(s) == ParseReadCodepage(rest, ReadStart(hp)) by { LetterIsRead(hp, rest); }
    hide ParseR, ParseReadCodepage, WrittenRead, IsSpace, Clean, Stripped, ReadStart, CodepagePart;
    StrippedIsClean(s);
    CleanOfPlain(s);
  }

  lemma PlainRead(hp: HookParam, d: string)
    requires Representable(hp) && Plain(d) && Plain(CodepagePart(hp))
    ensures Plain(WrittenRead(hp, d))
  {
    hide CodepagePart;
    assert Plain(['R', ReadLetter(hp)]) && Plain("@");
  }

  lemma LetterIsRead(hp: HookParam, rest: string)
    ensures ParseR(['R', ReadLetter(hp)] + rest) == ParseReadCodepage(rest, ReadStart(hp))
  {
    assert Tail(['R', ReadLetter(hp)] + rest) == [ReadLetter(hp)] + rest;
    assert Tail([ReadLetter(hp)] + rest) == rest;
  }
}
