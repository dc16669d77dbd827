/** What becomes of a code whose first number starts with F, which the parser takes for the full-string letter. */
module HookCodeLeadingF {
  import opened MachineTypes
  import opened Numerals
  import opened HookParams
  import opened HookCodeParser
  import opened HookCodeGenerator
  import opened HookCodeShape
  import opened HookCodeCanonical
  import opened HookCodeStages
  import opened HookCodeText
  import opened HookCodeRoundTrip

  // ---------- digits without the first one ----------

  predicate Digits(s: string) { forall i :: 0 <= i < |s| ==> IsDigit(s[i], 16) }

  /** The number that is left when the first printed digit is taken away. */
  function Beheaded(n: nat): nat {
    var s := Print(n, 16);
    assert Digits(s[1..]) by { assert forall i :: 1 <= i < |s| ==> IsDigit(s[i], 16); }
    Value(s[1..], 16)
  }

  lemma {:induction false} ValueOfTail(s: string)
    requires s != "" && Digits(s)
    ensures Digits(s[1..]) && Value(s[1..], 16) <= Value(s, 16)
    decreases |s|
  {
    var n := |s| - 1;
    if n > 0 {
      ValueOfTail(s[..n]);
      assert s[1..][..n - 1] == s[..n][1..];
    }
  }

  lemma BeheadedIsLess(n: nat)
    ensures Beheaded(n) <= n
  {
    ValueOfTail(Print(n, 16));
    ValueOfPrint(n, 16);
  }

  lemma NoMatchOnDigits(d: string, rest: string, base: nat, mark: char)
    requires base == 10 || base == 16
    requires Digits(d) && EndsNumber(rest) && (mark == '#' || mark == '+')
    requires rest[0] == mark ==> d == ""
    ensures MatchPrefixed(d + rest, base, mark) == Absent
  {
    var s := d + rest;
    var n := RunLength(s, base);
    assert s[|d|] == rest[0] && !IsDigit(rest[0], base);
    if n < |d| {
      assert s[n] == d[n] && IsDigit(d[n], 16);
    }
  }

  lemma DigitsRun(d: string, rest: string)
    requires Digits(d) && EndsNumber(rest)
    ensures RunLength(d + rest, 16) == |d| && (d + rest)[..|d|] == d && (d + rest)[|d|..] == rest
  {
    RunLengthIs(d + rest, |d|, 16);
  }

  lemma ScanOfDigits(d: string, rest: string)
    requires Digits(d) && EndsNumber(rest) && rest[0] != '+'
    ensures ScanHex(d + rest) == Scan(Value(d, 16), |d|)
  {
    var s := d + rest;
    if d == "" {
      assert s == rest && SpaceRun(s) == 0;
      ScanOfNothing(s);
    } else {
      ScanOfNumeral(d, rest);
      ScanAfterSign(false, s, s);
    }
  }

  /** A plus sign counts as a sign in front of digits, and as nothing in front of another sign. */
  lemma ScanOfPlus(num: int, rest: string)
    requires EndsNumber(rest)
    ensures var s := "+" + (HexString(num) + rest);
            ScanHex(s) == if num >= 0 then Scan(num, |HexString(num)| + 1) else Scan(0, 0)
  {
    var t := HexString(num) + rest;
    var s := "+" + t;
    assert SpaceRun(s) == 0 && s[1..] == t;
    if num >= 0 {
      ScanOfNumeral(Print(num, 16), rest);
      ValueOfPrint(num, 16);
    } else {
      assert t[0] == '-';
      ScanOfNothing(s);
    }
  }

  // ---------- the descriptor that comes back ----------

  /** A full-string hook whose padding, or else whose first number, has lost its first digit. */
  function Misread(hp: HookParam): HookParam
    requires Representable(hp) && (hp.padding != 0 || LeadNumber(hp) >= 0)
  {
    var h := With(hp, FULL_STRING);
    if hp.padding != 0 then h.(padding := Beheaded(hp.padding))
    else if hp.jittype == PC then h.(offset := Beheaded(LeadNumber(hp)))
    else h.(argidx := Beheaded(LeadNumber(hp)))
  }

  /** Nothing but a leading F is in the way. */
  predicate OnlyLeadingF(hp: HookParam) {
    HookShape(hp) && HOOK_RETURN !in hp.typ && DIRECT_READ !in hp.typ && NumbersOk(hp) && TargetOk(hp) && !FullOk(hp)
  }

  lemma OnlyLeadingFParts(hp: HookParam)
    requires OnlyLeadingF(hp)
    ensures Representable(hp) && NumbersFit(hp) && hp.padding < INT64_LIMIT && hp.codepage == 0
    ensures NO_CONTEXT !in hp.typ && CodepagePart(hp) == "" && USING_STRING in hp.typ && FULL_STRING !in hp.typ
    ensures hp.padding == 0 ==> LeadNumber(hp) >= 0 && Print(LeadNumber(hp), 16)[0] == 'F'
    ensures hp.padding != 0 ==> Print(hp.padding, 16)[0] == 'F'
  {
  }

  /** The two differ in the full-string flag and in the numbers that a first digit can be missing from. */
  predicate Alike(hp: HookParam, g: HookParam) {
    && g == hp.(typ := g.typ, padding := g.padding, offset := g.offset, argidx := g.argidx)
    && g.typ == hp.typ + {FULL_STRING}
  }

  lemma AlikeFlags(hp: HookParam, g: HookParam)
    requires Alike(hp, g)
    ensures forall f :: f != FULL_STRING ==> (f in g.typ <==> f in hp.typ)
    ensures DIRECT_READ in g.typ <==> DIRECT_READ in hp.typ
  {
  }

  lemma AlikeShape(hp: HookParam, g: HookParam)
    requires HookShape(hp) && Alike(hp, g) && USING_STRING in hp.typ && IsUint64(g.padding)
    requires IsInt(g.offset) && IsInt(g.argidx) && JitShape(g)
    ensures HookShape(g) && NumbersFit(g)
  {
    AlikeFlags(hp, g);
  }

  lemma AlikeTarget(hp: HookParam, g: HookParam)
    requires Representable(hp) && Representable(g) && Alike(hp, g) && TargetOk(hp)
    requires hp.jittype != PC && hp.jittype != UNITY ==> g.argidx >= 0
    ensures TargetOk(g) && TargetText(g) == TargetText(hp)
  {
    AlikeFlags(hp, g);
    hide OneLine, EndsInJitSuffix, NoInnerFunction, IsSpace, HexString, Widen;
    assert NamesPart(g) == NamesPart(hp);
  }

  lemma AlikeText(hp: HookParam, g: HookParam, x: string)
    requires Alike(hp, g)
    ensures FromIndex(g, x) == FromIndex(hp, x)
    ensures LeadNumber(g) == LeadNumber(hp) ==> FromOffset(g, x) == FromOffset(hp, x)
  {
    hide HexString;
    AlikeFlags(hp, g);
  }

  lemma MisreadAlike(hp: HookParam)
    requires OnlyLeadingF(hp) && (hp.padding != 0 || LeadNumber(hp) >= 0)
    ensures var g := Misread(hp);
            && Alike(hp, g) && 0 <= g.padding <= hp.padding && IsInt(g.offset) && IsInt(g.argidx) && JitShape(g)
            && (hp.padding != 0 ==> LeadNumber(g) == LeadNumber(hp))
            && (hp.jittype != PC && hp.jittype != UNITY ==> g.argidx >= 0)
  {
    OnlyLeadingFParts(hp);
    BeheadedIsLess(if hp.padding != 0 then hp.padding else LeadNumber(hp));
    hide Beheaded, Print;
  }

  lemma MisreadShape(hp: HookParam)
    requires OnlyLeadingF(hp) && (hp.padding != 0 || LeadNumber(hp) >= 0)
    ensures var g := Misread(hp);
            HookShape(g) && NumbersFit(g) && TargetOk(g) && TargetText(g) == TargetText(hp) && g.jittype == hp.jittype
  {
    OnlyLeadingFParts(hp);
    MisreadAlike(hp);
    var g := Misread(hp);
    hide Misread, Alike, TargetOk, FullOk, NumbersOk, JitShape;
    AlikeShape(hp, g);
    AlikeTarget(hp, g);
    assert g.jittype == hp.jittype by { AlikeJit(hp, g); }
  }

  lemma AlikeJit(hp: HookParam, g: HookParam)
    requires Alike(hp, g)
    ensures g.jittype == hp.jittype
  {
  }

  lemma MisreadTarget(hp: HookParam, x: string)
    requires OnlyLeadingF(hp) && (hp.padding != 0 || LeadNumber(hp) >= 0) && x == Clean(TargetText(hp))
    ensures TargetReads(Misread(hp), x)
  {
    OnlyLeadingFParts(hp);
    MisreadShape(hp);
    hide HookShape, TargetOk, TargetReads, FullOk, NumbersOk, Misread;
    TargetReadsBack(Misread(hp));
  }

  lemma MisreadStart(hp: HookParam)
    requires OnlyLeadingF(hp) && (hp.padding != 0 || LeadNumber(hp) >= 0)
    ensures AtPadding(Misread(hp)) == With(AtContext(hp), FULL_STRING)
  {
    OnlyLeadingFParts(hp);
    MisreadAlike(hp);
    var g := Misread(hp);
    hide Misread, OnlyLeadingF, JitShape;
    AlikeStart(hp, g);
  }

  lemma AlikeStart(hp: HookParam, g: HookParam)
    requires Alike(hp, g) && hp.codepage == 0 && NO_CONTEXT !in hp.typ
    ensures AtPadding(g) == With(AtContext(hp), FULL_STRING)
  {
    var u, v := AtPadding(g), With(AtContext(hp), FULL_STRING);
    assert u.typ == v.typ;
    assert u.split == v.split && u.offset == v.offset == 0;
  }

  lemma MisreadText(hp: HookParam, x: string)
    requires OnlyLeadingF(hp) && (hp.padding != 0 || LeadNumber(hp) >= 0)
    ensures FromIndex(Misread(hp), x) == FromIndex(hp, x)
    ensures hp.padding != 0 ==> FromOffset(Misread(hp), x) == FromOffset(hp, x)
  {
    OnlyLeadingFParts(hp);
    MisreadAlike(hp);
    hide Misread, OnlyLeadingF, FromIndex, FromOffset;
    AlikeText(hp, Misread(hp), x);
  }

  // ---------- the stages behind the F ----------

  lemma ContextSkipped(s: string, h: HookParam)
    requires Head(s) != 'N' && MatchPrefixed(s, 10, '#') == Absent
    ensures ParseContext(s, h) == ParsePadding(s, h)
  {
  }

  /** Without a padding the rest of the first number is the number. */
  lemma ShortLead(hp: HookParam, x: string)
    requires OnlyLeadingF(hp) && hp.padding == 0 && x == Clean(TargetText(hp))
    ensures LeadNumber(hp) >= 0
    ensures ParseContext(Print(LeadNumber(hp), 16)[1..] + FromIndex(hp, x), AtPadding(Misread(hp))) == Hook(Misread(hp))
  {
    OnlyLeadingFParts(hp);
    MisreadTarget(hp, x);
    MisreadShape(hp);
    MisreadText(hp, x);
    hide OnlyLeadingF, HookShape, TargetOk, FullOk, NumbersOk;
    var g, d, rest := Misread(hp), Print(LeadNumber(hp), 16)[1..], FromIndex(hp, x);
    BeheadedIsLess(LeadNumber(hp));
    TailIsDigits(LeadNumber(hp));
    HeadOfIndex(hp, x);
    LeadRead(d, rest, AtPadding(g));
    assert AtPadding(g).(offset := Value(d, 16)) == AtIndex(g);
    IndexReads(g, x);
  }

  lemma TailIsDigits(n: nat)
    ensures Digits(Print(n, 16)[1..])
  {
    var s := Print(n, 16);
    assert forall i :: 1 <= i < |s| ==> IsDigit(s[i], 16);
  }

  lemma LeadRead(d: string, rest: string, h: HookParam)
    requires Digits(d) && EndsNumber(rest) && rest[0] != '+' && rest[0] != '#' && IsInt(Value(d, 16))
    ensures ParseContext(d + rest, h) == ParseIndex(rest, h.(offset := Value(d, 16)))
  {
    NoMatchOnDigits(d, rest, 10, '#');
    NoMatchOnDigits(d, rest, 16, '+');
    ContextSkipped(d + rest, h);
    ScanOfDigits(d, rest);
    assert (d + rest)[|d|..] == rest;
  }

  /** The rest of a longer padding is the padding. */
  lemma ShortPadding(hp: HookParam, x: string)
    requires OnlyLeadingF(hp) && hp.padding != 0 && Print(hp.padding, 16)[1..] != "" && x == Clean(TargetText(hp))
    ensures ParseContext(Print(hp.padding, 16)[1..] + ("+" + FromOffset(hp, x)), AtPadding(Misread(hp))) == Hook(Misread(hp))
  {
    OnlyLeadingFParts(hp);
    MisreadTarget(hp, x);
    MisreadShape(hp);
    MisreadText(hp, x);
    hide OnlyLeadingF, HookShape, TargetOk, FullOk, NumbersOk;
    var g, d, rest := Misread(hp), Print(hp.padding, 16)[1..], FromOffset(hp, x);
    BeheadedIsLess(hp.padding);
    TailIsDigits(hp.padding);
    PaddingRead(d, rest, AtPadding(g));
    assert AtPadding(g).(padding := Value(d, 16)) == AtOffset(g);
    OffsetReads(g, x);
  }

  lemma PaddingRead(d: string, rest: string, h: HookParam)
    requires d != "" && Digits(d) && Value(d, 16) < UINT64_LIMIT
    ensures ParseContext(d + ("+" + rest), h) == ParseOffset(rest, h.(padding := Value(d, 16)))
  {
    var s := d + ("+" + rest);
    NoMatchOnDigits(d, "+" + rest, 10, '#');
    ContextSkipped(s, h);
    DigitsRun(d, "+" + rest);
    assert s[|d| + 1..] == rest;
  }

  /** The padding F is gone, and its plus sign is read as the sign of the next number. */
  lemma LonePlus(hp: HookParam, x: string)
    requires OnlyLeadingF(hp) && hp.padding == 15 && x == Clean(TargetText(hp))
    ensures ParseContext("+" + FromOffset(hp, x), AtPadding(Misread(hp)))
         == if LeadNumber(hp) < 0 then NoHook else Hook(Misread(hp))
  {
    OnlyLeadingFParts(hp);
    MisreadTarget(hp, x);
    MisreadShape(hp);
    MisreadText(hp, x);
    hide OnlyLeadingF, HookShape, TargetOk, FullOk, NumbersOk;
    var g, rest := Misread(hp), FromIndex(hp, x);
    assert g.padding == 0 by { assert Print(15, 16)[1..] == ""; }
    HeadOfIndex(hp, x);
    PlusRead(LeadNumber(hp), rest, AtPadding(g));
    assert AtPadding(g).(offset := LeadNumber(hp)) == AtIndex(g);
    IndexReads(g, x);
  }

  lemma PlusRead(num: int, rest: string, h: HookParam)
    requires EndsNumber(rest) && IsInt(num)
    ensures var s := "+" + (HexString(num) + rest);
            ParseContext(s, h) == if num < 0 then NoHook else ParseIndex(rest, h.(offset := num))
  {
    var s := "+" + (HexString(num) + rest);
    assert s[0] == '+';
    hide HexString, ParseOffset;
    PlusSkipped(s, h);
    PlusOffset(num, rest, h);
  }

  lemma PlusSkipped(s: string, h: HookParam)
    requires s != "" && s[0] == '+'
    ensures ParseContext(s, h) == ParseOffset(s, h)
  {
    hide ParseOffset;
    assert MatchPrefixed(s, 10, '#') == Absent && MatchPrefixed(s, 16, '+') == Absent;
    ContextSkipped(s, h);
  }

  lemma PlusOffset(num: int, rest: string, h: HookParam)
    requires EndsNumber(rest) && IsInt(num)
    ensures var s := "+" + (HexString(num) + rest);
            ParseOffset(s, h) == if num < 0 then NoHook else ParseIndex(rest, h.(offset := num))
  {
    var s := "+" + (HexString(num) + rest);
    ScanOfPlus(num, rest);
    hide ParseIndex, HexString, ScanHex, EndsNumber;
    if num >= 0 {
      assert s[|HexString(num)| + 1..] == rest;
    } else {
      assert s[0..] == s;
      PlusFails(s, h.(offset := 0));
    }
  }

  // ---------- the whole code ----------

  /** A printed hook code comes to ParseFull with its letters read. */
  lemma PrintedParses(hp: HookParam, x: string)
    requires HookShape(hp) && HOOK_RETURN !in hp.typ && DIRECT_READ !in hp.typ
    requires x == Clean(TargetText(hp)) && JitOf("@" + x, PC) == hp.jittype
    ensures Parse(Generate(hp)) == ParseFull(FromFull(hp, x), AtFull(hp))
  {
    hide *;
    HookShapeParts(hp);
    ParseOfGenerated(hp);
    StrippedCode(hp, TargetText(hp));
    StartReads(hp, x);
    StartOfHook(hp);
    TagReads(hp, x);
    JitOfBody(hp, x);
    MatchingBody(hp, x);
  }

  lemma HookShapeParts(hp: HookParam)
    requires HookShape(hp)
    ensures Representable(hp) && HookFlagsOnly(hp.typ) && EmbedShape(hp.typ) && CodecShape(hp.typ) && hp.extras == NO_EXTRAS
    ensures FilterPart(hp) == "" && NumbersFit(hp) && (NumbersOk(hp) ==> hp.padding < INT64_LIMIT)
  {
  }

  lemma ParseOfGenerated(hp: HookParam)
    requires Representable(hp) && DIRECT_READ !in hp.typ
    ensures Parse(Generate(hp)) == Dispatch(Stripped(FromStart(hp, TargetText(hp))))
  {
  }

  /** Behind the letters, the F goes and the rest is parsed for a full-string hook. */
  lemma LeadingFIsTaken(hp: HookParam, x: string)
    requires OnlyLeadingF(hp)
    ensures Head(FromContext(hp, x)) == 'F'
    ensures ParseFull(FromFull(hp, x), AtFull(hp)) == ParseContext(Tail(FromContext(hp, x)), With(AtContext(hp), FULL_STRING))
  {
    OnlyLeadingFParts(hp);
    var h, rest := AtContext(hp), FromContext(hp, x);
    assert FullPart(h) == FullPart(hp);
    ReadFull(h, rest);
    HeadOfContext(hp, x);
  }

  lemma Nothing(s: string)
    ensures "" + s == s
  {
  }

  lemma NoPrefixes(hp: HookParam, x: string)
    requires Representable(hp) && NO_CONTEXT !in hp.typ && CodepagePart(hp) == ""
    ensures FromContext(hp, x) == FromPadding(hp, x)
  {
    hide FromPadding, CodepagePart;
    Nothing(FromPadding(hp, x));
    Nothing(FromCodepage(hp, x));
  }

  lemma PaddingText(hp: HookParam, x: string)
    requires Representable(hp) && hp.padding < INT64_LIMIT && (hp.padding == 0 ==> LeadNumber(hp) >= 0)
    ensures FromPadding(hp, x) == if hp.padding != 0 then Print(hp.padding, 16) + ("+" + FromOffset(hp, x))
                                  else Print(LeadNumber(hp), 16) + FromIndex(hp, x)
  {
    hide Print, FromIndex;
    if hp.padding == 0 {
      Nothing(FromOffset(hp, x));
    } else {
      hide FromOffset;
      assert PaddingPart(hp) == Print(hp.padding, 16) + "+";
      Append(Print(hp.padding, 16), "+", FromOffset(hp, x));
    }
  }

  lemma BehindF(hp: HookParam, x: string)
    requires OnlyLeadingF(hp)
    ensures var s := Tail(FromContext(hp, x));
            if hp.padding != 0 then s == Print(hp.padding, 16)[1..] + ("+" + FromOffset(hp, x))
            else LeadNumber(hp) >= 0 && s == Print(LeadNumber(hp), 16)[1..] + FromIndex(hp, x)
  {
    OnlyLeadingFParts(hp);
    hide OnlyLeadingF, Tail, FromContext, FromPadding, FromIndex, FromOffset, CodepagePart;
    NoPrefixes(hp, x);
    PaddingText(hp, x);
    if hp.padding != 0 {
      TailOfSum(Print(hp.padding, 16), "+" + FromOffset(hp, x));
    } else {
      TailOfSum(Print(LeadNumber(hp), 16), FromIndex(hp, x));
    }
  }

  lemma TailOfSum(d: string, rest: string)
    requires d != ""
    ensures Tail(d + rest) == d[1..] + rest
  {
  }

  lemma PaddingF(n: nat)
    ensures Print(n, 16)[0] == 'F' && Print(n, 16)[1..] == "" <==> n == 15
  {
    if n >= 16 {
      assert |Print(n, 16)| >= 2;
    }
  }

  /**
   * When only a leading F is in the way, the code comes back as a full-string hook whose padding, or else
   * whose first number, has lost its first digit; but for the padding F in front of a negative number, whose
   * code is no code at all.
   */
  lemma LeadingFIsMisread(hp: HookParam)
    requires OnlyLeadingF(hp)
    ensures hp.padding == 0 ==> LeadNumber(hp) >= 0
    ensures Parse(Generate(hp)) == if hp.padding == 15 && LeadNumber(hp) < 0 then NoHook else Hook(Misread(hp))
  {
    OnlyLeadingFParts(hp);
    var x := Clean(TargetText(hp));
    assert JitOf("@" + x, PC) == hp.jittype by { TargetReadsBack(hp); }
    hide *;
    PrintedParsesF(hp, x);
    LeadingFIsTaken(hp, x);
    BehindF(hp, x);
    MisreadStart(hp);
    if hp.padding == 0 {
      ShortLead(hp, x);
    } else {
      PaddingF(hp.padding);
      if hp.padding == 15 {
        LonePlus(hp, x);
        Nothing("+" + FromOffset(hp, x));
      } else {
        ShortPadding(hp, x);
      }
    }
  }

  lemma PrintedParsesF(hp: HookParam, x: string)
    requires OnlyLeadingF(hp) && x == Clean(TargetText(hp)) && JitOf("@" + x, PC) == hp.jittype
    ensures Parse(Generate(hp)) == ParseFull(FromFull(hp, x), AtFull(hp))
  {
    hide Parse, Generate, ParseFull, FromFull, AtFull, Clean, TargetText, JitOf, HookShape;
    PrintedParses(hp, x);
  }

  /** A string hook at offset 0xF prints as "HSF@0", which parses as a full-string hook at offset 0. */
  lemma LeadingFIsLost()
    ensures var hp := ZERO.(typ := {USING_STRING}, offset := 15);
            OnlyLeadingF(hp) && Parse(Generate(hp)) == Hook(ZERO.(typ := {USING_STRING, FULL_STRING}))
  {
    var hp := ZERO.(typ := {USING_STRING}, offset := 15);
    LoneF(hp);
    hide Parse, Generate, OnlyLeadingF, Misread;
    LeadingFIsMisread(hp);
  }

  lemma LoneF(hp: HookParam)
    requires hp == ZERO.(typ := {USING_STRING}, offset := 15)
    ensures OnlyLeadingF(hp) && Misread(hp) == ZERO.(typ := {USING_STRING, FULL_STRING})
  {
    LoneFShape(hp);
    hide HookShape, TargetOk;
    assert Print(15, 16) == "F";
    assert Misread(hp).offset == 0;
  }

  lemma LoneFShape(hp: HookParam)
    requires hp == ZERO.(typ := {USING_STRING}, offset := 15)
    ensures HookShape(hp) && NumbersOk(hp) && TargetOk(hp)
  {
  }
}
