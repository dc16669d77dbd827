/** The digits of a hook code may be written in upper or lower case. */
module HookCodeCase {
  import opened MachineTypes
  import opened Numerals
  import opened HookParams
  import opened HookCodeParser
  import opened HookCodeGenerator
  import opened HookCodeShape
  import opened HookCodeCanonical
  import opened HookCodeStages
  import opened HookCodeText
  import opened HookCodeRoundTrip
  import opened HookCodeLeadingF

  // ---------- the same digits in another case ----------

  /** The letters that are digits, in upper case; everything else stays. */
  function Upper(c: char): char {
    match c
    case 'a' => 'A'
    case 'b' => 'B'
    case 'c' => 'C'
    case 'd' => 'D'
    case 'e' => 'E'
    case 'f' => 'F'
    case _ => c
  }

  /** The two differ in the case of such letters only. */
  predicate CaseAlike(s: string, t: string) { |s| == |t| && forall i :: 0 <= i < |s| ==> Upper(s[i]) == Upper(t[i]) }

  const DIGITS := "0123456789ABCDEF"

  /** The value of a digit is its place in the row of digits, whatever its case. */
  lemma DigitIsPlace(c: char)
    ensures IsDigit(c, 16) <==> Upper(c) in DIGITS
    ensures IsDigit(c, 10) <==> c in DIGITS[..10]
    ensures IsDigit(c, 16) ==> DigitValue(c) < 16 && DIGITS[DigitValue(c)] == Upper(c)
  {
    assert DIGITS[..10] == "0123456789";
  }

  lemma DigitsAlike(c: char, d: char, base: nat)
    requires Upper(c) == Upper(d) && (base == 10 || base == 16)
    ensures IsDigit(c, base) <==> IsDigit(d, base)
    ensures IsDigit(c, 16) ==> DigitValue(c) == DigitValue(d)
    ensures !IsDigit(c, 16) ==> c == d
  {
  }

  lemma {:induction false} RunAlike(s: string, t: string, base: nat)
    requires CaseAlike(s, t) && (base == 10 || base == 16)
    ensures RunLength(s, base) == RunLength(t, base)
  {
    if s != "" {
      DigitsAlike(s[0], t[0], base);
      RunAlike(s[1..], t[1..], base);
    }
  }

  /** The value of a numeral does not depend on the case of its digits. */
  lemma {:induction false} ValueAlike(s: string, t: string, base: nat)
    requires CaseAlike(s, t) && (base == 10 || base == 16)
    requires forall i :: 0 <= i < |s| ==> IsDigit(s[i], base)
    ensures forall i :: 0 <= i < |t| ==> IsDigit(t[i], base)
    ensures Value(s, base) == Value(t, base)
    decreases |s|
  {
    forall i | 0 <= i < |t|
      ensures IsDigit(t[i], base)
    {
      DigitsAlike(s[i], t[i], base);
    }
    if s != "" {
      var n := |s| - 1;
      DigitsAlike(s[n], t[n], base);
      ValueAlike(s[..n], t[..n], base);
    }
  }

  lemma {:induction false} SpacesAlike(s: string, t: string)
    requires CaseAlike(s, t)
    ensures SpaceRun(s) == SpaceRun(t)
  {
    if s != "" {
      DigitsAlike(s[0], t[0], 16);
      SpacesAlike(s[1..], t[1..]);
    }
  }

  /** Where the digits begin. */
  function PrefixOf(s: string): nat {
    if 2 < |s| && s[0] == '0' && (s[1] == 'x' || s[1] == 'X') && IsDigit(s[2], 16) then 2 else 0
  }

  lemma PrefixAlike(s: string, t: string)
    requires CaseAlike(s, t)
    ensures PrefixOf(s) == PrefixOf(t)
  {
    if 2 < |s| {
      DigitsAlike(s[0], t[0], 16);
      DigitsAlike(s[1], t[1], 16);
      DigitsAlike(s[2], t[2], 16);
    }
  }

  lemma UnsignedIs(s: string)
    ensures var u := s[PrefixOf(s)..];
            var n := RunLength(u, 16);
            ScanUnsigned(s) == if n == 0 then Scan(0, 0) else Scan(Value(u[..n], 16), PrefixOf(s) + n)
  {
  }

  lemma AlikeParts(s: string, t: string, n: nat)
    requires CaseAlike(s, t) && n <= |s|
    ensures CaseAlike(s[..n], t[..n])
  {
  }

  lemma UnsignedAlike(s: string, t: string)
    requires CaseAlike(s, t)
    ensures ScanUnsigned(s) == ScanUnsigned(t)
  {
    PrefixAlike(s, t);
    var p := PrefixOf(s);
    var u, v := s[p..], t[p..];
    UnsignedIs(s);
    UnsignedIs(t);
    hide *;
    RunAlike(u, v, 16);
    var n := RunLength(u, 16);
    AlikeParts(u, v, n);
    ValueAlike(u[..n], v[..n], 16);
  }

  /** The length of blanks and sign. */
  function SignEnd(s: string): (g: nat)
    ensures g <= |s|
  {
    var w := SpaceRun(s);
    if w < |s| && (s[w] == '+' || s[w] == '-') then w + 1 else w
  }

  predicate IsNegative(s: string) { SpaceRun(s) < |s| && s[SpaceRun(s)] == '-' }

  /** What strtol makes of the digits behind the sign. */
  function Signed(u: Scan, negative: bool, g: nat): Scan {
    if u.size == 0 then Scan(0, 0) else Scan(if negative then -u.value else u.value, g + u.size)
  }

  lemma ScanIs(s: string)
    ensures ScanHex(s) == Signed(ScanUnsigned(s[SignEnd(s)..]), IsNegative(s), SignEnd(s))
  {
    hide ScanUnsigned, SpaceRun, IsSpace;
    var w := SpaceRun(s);
    var signed := w < |s| && (s[w] == '+' || s[w] == '-');
    assert SignEnd(s) == if signed then w + 1 else w;
    assert IsNegative(s) == (signed && s[w] == '-');
  }

  lemma SignAlike(s: string, t: string)
    requires CaseAlike(s, t)
    ensures SignEnd(s) == SignEnd(t) && IsNegative(s) == IsNegative(t)
  {
    SpacesAlike(s, t);
    if SpaceRun(s) < |s| {
      DigitsAlike(s[SpaceRun(s)], t[SpaceRun(s)], 16);
    }
  }

  lemma ScanAlike(s: string, t: string)
    requires CaseAlike(s, t)
    ensures ScanHex(s) == ScanHex(t)
  {
    hide *;
    SignAlike(s, t);
    ScanIs(s);
    ScanIs(t);
    AlikeRests(s, t, SignEnd(s));
    UnsignedAlike(s[SignEnd(s)..], t[SignEnd(s)..]);
  }

  lemma AlikeRests(s: string, t: string, n: nat)
    requires CaseAlike(s, t) && n <= |s|
    ensures CaseAlike(s[n..], t[n..])
  {
  }

  // ---------- parsing the part with the numbers ----------

  /** Behind an at sign and its digits; a Unity hook's text has no digits there. */
  function BehindAddress(s: string, p: nat, jit: JitType): nat
    requires p < |s|
  {
    |s| - p - 1 - if jit == UNITY then 0 else RunLength(s[p + 1..], 16)
  }

  /** The last m characters are the same, and nothing but the address stands between them and an at sign. */
  ghost predicate Variants(s: string, t: string, m: nat, jit: JitType) {
    && CaseAlike(s, t)
    && (forall i :: 0 <= i < |s| && |s| - m <= i ==> s[i] == t[i])
    && (forall p :: 0 <= p < |s| && s[p] == '@' ==> BehindAddress(s, p, jit) <= m)
  }

  lemma VariantsFrom(s: string, t: string, m: nat, jit: JitType, k: nat)
    requires Variants(s, t, m, jit) && k <= |s|
    ensures Variants(s[k..], t[k..], m, jit)
  {
    forall p | 0 <= p < |s[k..]| && s[k..][p] == '@'
      ensures BehindAddress(s[k..], p, jit) <= m
    {
      assert s[k..][p + 1..] == s[k + p + 1..];
      assert BehindAddress(s, k + p, jit) <= m;
    }
  }

  lemma VariantHeads(s: string, t: string, m: nat, jit: JitType)
    requires Variants(s, t, m, jit)
    ensures !IsDigit(Head(s), 16) || !IsDigit(Head(t), 16) ==> Head(s) == Head(t)
    ensures Variants(Tail(s), Tail(t), m, jit)
  {
    if s != "" {
      DigitsAlike(s[0], t[0], 16);
      VariantsFrom(s, t, m, jit, 1);
    }
  }

  lemma VariantNumber(s: string, t: string, m: nat, jit: JitType)
    requires Variants(s, t, m, jit)
    ensures ScanHex(s) == ScanHex(t) && Variants(s[ScanHex(s).size..], t[ScanHex(t).size..], m, jit)
  {
    ScanAlike(s, t);
    VariantsFrom(s, t, m, jit, ScanHex(s).size);
  }

  lemma VariantPrefix(s: string, t: string, m: nat, jit: JitType, base: nat, mark: char)
    requires Variants(s, t, m, jit) && (base == 10 || base == 16) && !IsDigit(mark, 16)
    ensures var u, v := MatchPrefixed(s, base, mark), MatchPrefixed(t, base, mark);
            u.Present? == v.Present? && (u.Present? ==> u.value == v.value && Variants(u.rest, v.rest, m, jit))
  {
    RunAlike(s, t, base);
    var n := RunLength(s, base);
    if 0 < n < |s| {
      DigitsAlike(s[n], t[n], 16);
      VariantsFrom(s, t, m, jit, n + 1);
      AlikeParts(s, t, n);
      hide Variants, CaseAlike, RunLength, Value;
      ValueAlike(s[..n], t[..n], base);
    }
  }

  lemma VariantTarget(s: string, t: string, m: nat, hp: HookParam)
    requires Variants(s, t, m, hp.jittype)
    ensures ParseTarget(s, hp) == ParseTarget(t, hp)
  {
    VariantHeads(s, t, m, hp.jittype);
    if Head(s) == '@' {
      assert s[0] == '@' && BehindAddress(s, 0, hp.jittype) <= m;
      if hp.jittype == UNITY {
        assert s[1..] == t[1..];
        assert s == t;
      } else {
        VariantMatch(s, t, m, hp.jittype);
      }
    }
  }

  lemma VariantMatch(s: string, t: string, m: nat, jit: JitType)
    requires Variants(s, t, m, jit) && jit != UNITY && s != "" && s[0] == '@'
    ensures MatchTarget(s) == MatchTarget(t)
  {
    VariantsFrom(s, t, m, jit, 1);
    RunAlike(s[1..], t[1..], 16);
    var n := RunLength(s[1..], 16);
    ValueAlike(s[1..][..n], t[1..][..n], 16);
    assert BehindAddress(s, 0, jit) <= m;
    assert s[1..][n..] == t[1..][n..];
  }

  lemma VariantSplitIndex(s: string, t: string, m: nat, hp: HookParam)
    requires Variants(s, t, m, hp.jittype)
    ensures ParseSplitIndex(s, hp) == ParseSplitIndex(t, hp)
  {
    hide ParseTarget, Variants, ScanHex;
    VariantTarget(s, t, m, hp);
    VariantHeads(s, t, m, hp.jittype);
    VariantNumber(Tail(s), Tail(t), m, hp.jittype);
    var k := ScanHex(Tail(s));
    VariantTarget(Tail(s)[k.size..], Tail(t)[k.size..], m, With(hp, SPLIT_INDIRECT).(splitIndex := k.value));
  }

  lemma VariantSplit(s: string, t: string, m: nat, hp: HookParam)
    requires Variants(s, t, m, hp.jittype)
    ensures ParseSplit(s, hp) == ParseSplit(t, hp)
  {
    hide ParseTarget, ParseSplitIndex, Variants, ScanHex;
    VariantTarget(s, t, m, hp);
    VariantHeads(s, t, m, hp.jittype);
    VariantNumber(Tail(s), Tail(t), m, hp.jittype);
    var k := ScanHex(Tail(s));
    VariantSplitIndex(Tail(s)[k.size..], Tail(t)[k.size..], m, With(hp, USING_SPLIT).(split := k.value));
  }

  lemma VariantIndex(s: string, t: string, m: nat, hp: HookParam)
    requires Variants(s, t, m, hp.jittype)
    ensures ParseIndex(s, hp) == ParseIndex(t, hp)
  {
    hide ParseSplit, Variants, ScanHex;
    VariantSplit(s, t, m, hp);
    VariantHeads(s, t, m, hp.jittype);
    VariantNumber(Tail(s), Tail(t), m, hp.jittype);
    var k := ScanHex(Tail(s));
    VariantSplit(Tail(s)[k.size..], Tail(t)[k.size..], m, With(hp, DATA_INDIRECT).(index := k.value));
  }

  lemma VariantOffset(s: string, t: string, m: nat, hp: HookParam)
    requires Variants(s, t, m, hp.jittype)
    ensures ParseOffset(s, hp) == ParseOffset(t, hp)
  {
    hide ParseIndex, Variants, ScanHex;
    VariantNumber(s, t, m, hp.jittype);
    var k := ScanHex(s);
    VariantIndex(s[k.size..], t[k.size..], m, hp.(offset := k.value));
  }

  lemma VariantPadding(s: string, t: string, m: nat, hp: HookParam)
    requires Variants(s, t, m, hp.jittype)
    ensures ParsePadding(s, hp) == ParsePadding(t, hp)
  {
    hide ParseOffset, Variants, MatchPrefixed;
    VariantPrefix(s, t, m, hp.jittype, 16, '+');
    match MatchPrefixed(s, 16, '+')
    case Absent => VariantOffset(s, t, m, hp);
    case Present(v, rest) => VariantOffset(rest, MatchPrefixed(t, 16, '+').rest, m, hp.(padding := v));
  }

  lemma VariantCodepage(s: string, t: string, m: nat, hp: HookParam)
    requires Variants(s, t, m, hp.jittype)
    ensures ParseCodepage(s, hp) == ParseCodepage(t, hp)
  {
    hide ParsePadding, Variants, MatchPrefixed;
    VariantPrefix(s, t, m, hp.jittype, 10, '#');
    match MatchPrefixed(s, 10, '#')
    case Absent => VariantPadding(s, t, m, hp);
    case Present(v, rest) => VariantPadding(rest, MatchPrefixed(t, 10, '#').rest, m, hp.(codepage := v));
  }

  lemma VariantContext(s: string, t: string, m: nat, hp: HookParam)
    requires Variants(s, t, m, hp.jittype)
    ensures ParseContext(s, hp) == ParseContext(t, hp)
  {
    hide ParseCodepage, Variants;
    VariantHeads(s, t, m, hp.jittype);
    VariantCodepage(s, t, m, hp);
    VariantCodepage(Tail(s), Tail(t), m, With(hp, NO_CONTEXT));
  }

  /** Only the F that stands for a full-string hook must keep its case. */
  lemma VariantFull(s: string, t: string, m: nat, hp: HookParam)
    requires Variants(s, t, m, hp.jittype) && (USING_STRING in hp.typ ==> (Head(s) == 'F' <==> Head(t) == 'F'))
    ensures ParseFull(s, hp) == ParseFull(t, hp)
  {
    hide ParseContext, Variants;
    VariantHeads(s, t, m, hp.jittype);
    VariantContext(s, t, m, hp);
    VariantContext(Tail(s), Tail(t), m, With(hp, FULL_STRING));
  }

  /** The text behind the letters: numbers, at sign, digits of the address, names. */
  function Numbered(a: string, d: string, x: string): string { a + ("@" + (d + x)) }

  lemma NumberedVary(a: string, b: string, d: string, e: string, x: string, jit: JitType)
    requires CaseAlike(a, b) && CaseAlike(d, e) && '@' !in a && Digits(d) && (jit == UNITY ==> d == e)
    ensures jit != UNITY ==> Variants(Numbered(a, d, x), Numbered(b, e, x), |x|, jit)
    ensures jit == UNITY ==> Variants(Numbered(a, d, x), Numbered(b, e, x), |d + x|, jit)
  {
    var s, t, n := Numbered(a, d, x), Numbered(b, e, x), |a|;
    assert CaseAlike(s, t);
    assert s[n + 1..] == d + x;
    forall p | 0 <= p < |s| && s[p] == '@'
      ensures BehindAddress(s, p, jit) <= if jit == UNITY then |d + x| else |x|
    {
      assert forall i :: 0 <= i < n ==> s[i] == a[i];
      if p == n && jit != UNITY {
        RunCovers(d, x);
      }
    }
  }

  lemma {:induction false} RunCovers(d: string, x: string)
    requires Digits(d)
    ensures RunLength(d + x, 16) >= |d|
  {
    if d != "" {
      assert (d + x)[1..] == d[1..] + x;
      assert (d + x)[0] == d[0] && IsDigit(d[0], 16);
      RunCovers(d[1..], x);
    }
  }

  // ---------- the letters in front ----------

  predicate LettersOk(hp: HookParam) {
    EMBED_ABLE in hp.typ ==>
      && hp.extras.hookBefore == 0 && hp.extras.hookAfter == 0
      && (EMBED_BEFORE_SIMPLE in hp.typ || (EMBED_AFTER_NEW !in hp.typ && EMBED_AFTER_OVERWRITE !in hp.typ))
  }

  function If(f: Flag, typ: set<Flag>): set<Flag> { if f in typ then {f} else {} }

  function EmbedRead(typ: set<Flag>): set<Flag> {
    if EMBED_ABLE !in typ then {}
    else {EMBED_ABLE} + If(EMBED_DYNA_SJIS, typ) + If(EMBED_BEFORE_SIMPLE, typ)
         + if EMBED_AFTER_NEW in typ then {EMBED_AFTER_NEW} else If(EMBED_AFTER_OVERWRITE, typ)
  }

  function CodecRead(hp: HookParam): set<Flag> {
    if CodecOf(CodecLetter(hp)).Sets? then CodecOf(CodecLetter(hp)).flags else {}
  }

  /** The flags that the printed letters stand for. */
  function LettersRead(hp: HookParam): set<Flag> { EmbedRead(hp.typ) + If(BREAK_POINT, hp.typ) + CodecRead(hp) }

  /** The printed letters, and any text behind them. */
  function Lettered(hp: HookParam, v: string): string { EmbedPart(hp) + (TagPart(hp) + ([CodecLetter(hp)] + v)) }

  lemma TagIsRead(hp: HookParam, v: string, h: HookParam)
    requires h.jittype == PC
    ensures ParseH(TagPart(hp) + ([CodecLetter(hp)] + v), h)
         == ParseFull(v, h.(jittype := JitOf([CodecLetter(hp)] + v, PC), typ := h.typ + If(BREAK_POINT, hp.typ) + CodecRead(hp)))
  {
    var body := [CodecLetter(hp)] + v;
    assert Tail(TagPart(hp) + body) == body && Tail(body) == v;
    hide ParseFull, JitOf;
    assert CodecOf(CodecLetter(hp)).Sets?;
    assert h.typ + {} == h.typ;
  }

  lemma LettersAreRead(hp: HookParam, v: string)
    ensures Dispatch(Lettered(hp, v))
         == if LettersOk(hp) then ParseFull(v, ZERO.(jittype := JitOf([CodecLetter(hp)] + v, PC), typ := LettersRead(hp)))
            else NoHook
  {
    hide ParseFull, JitOf, CodecLetter, LettersRead;
    var rest := TagPart(hp) + ([CodecLetter(hp)] + v);
    var typ := EmbedRead(hp.typ);
    assert Head(rest) == 'H' || Head(rest) == 'B';
    EmbedIsRead(hp, rest);
    TagIsRead(hp, v, ZERO.(typ := typ));
    assert LettersRead(hp) == typ + If(BREAK_POINT, hp.typ) + CodecRead(hp) by { LettersReadIs(hp); }
  }

  lemma LettersReadIs(hp: HookParam)
    ensures LettersRead(hp) == EmbedRead(hp.typ) + If(BREAK_POINT, hp.typ) + CodecRead(hp)
  {
  }

  lemma EmbedIsRead(hp: HookParam, rest: string)
    requires Head(rest) == 'H' || Head(rest) == 'B'
    ensures Dispatch(EmbedPart(hp) + rest) == if LettersOk(hp) then ParseH(rest, ZERO.(typ := EmbedRead(hp.typ))) else NoHook
  {
    hide ParseBody, ParseR;
    if EMBED_ABLE !in hp.typ {
      assert EmbedPart(hp) + rest == rest;
    } else if hp.extras.hookBefore != 0 || hp.extras.hookAfter != 0 {
      assert Tail("EX" + rest) == "X" + rest;
    } else {
      hide ParseH, ParseSimple, EmbedRead;
      var d := if EMBED_DYNA_SJIS in hp.typ then "D" else "";
      var later := SimpleLetters(hp) + rest;
      assert EmbedPart(hp) + rest == "E" + (d + later);
      DynaIsRead(d, later);
      var g := ZERO.(typ := {EMBED_ABLE} + If(EMBED_DYNA_SJIS, hp.typ));
      SimpleIsRead(hp, rest, g);
      assert g.typ + SimpleRead(hp.typ) == EmbedRead(hp.typ) by { EmbedReadIs(hp.typ); }
    }
  }

  lemma EmbedReadIs(typ: set<Flag>)
    requires EMBED_ABLE in typ
    ensures {EMBED_ABLE} + If(EMBED_DYNA_SJIS, typ) + SimpleRead(typ) == EmbedRead(typ)
  {
  }

  lemma DynaIsRead(d: string, later: string)
    requires (d == "" || d == "D") && Head(later) != 'D'
    ensures Dispatch("E" + (d + later))
         == ParseSimple(later, ZERO.(typ := {EMBED_ABLE} + if d == "D" then {EMBED_DYNA_SJIS} else {}))
  {
    hide ParseSimple;
    assert Tail("E" + (d + later)) == d + later && Tail("D" + later) == later && "" + later == later;
    assert With(ZERO, EMBED_ABLE).typ == {EMBED_ABLE} + {};
    assert With(With(ZERO, EMBED_ABLE), EMBED_DYNA_SJIS).typ == {EMBED_ABLE} + {EMBED_DYNA_SJIS};
  }

  function SimpleLetters(hp: HookParam): string {
    (if EMBED_BEFORE_SIMPLE in hp.typ then "S" else "")
    + (if EMBED_AFTER_NEW in hp.typ then "N" else if EMBED_AFTER_OVERWRITE in hp.typ then "O" else "")
  }

  function SimpleRead(typ: set<Flag>): set<Flag> {
    If(EMBED_BEFORE_SIMPLE, typ) + if EMBED_AFTER_NEW in typ then {EMBED_AFTER_NEW} else If(EMBED_AFTER_OVERWRITE, typ)
  }

  lemma SimpleIsRead(hp: HookParam, rest: string, h: HookParam)
    requires Head(rest) == 'H' || Head(rest) == 'B'
    ensures ParseSimple(SimpleLetters(hp) + rest, h)
         == if EMBED_BEFORE_SIMPLE in hp.typ || (EMBED_AFTER_NEW !in hp.typ && EMBED_AFTER_OVERWRITE !in hp.typ)
            then ParseH(rest, h.(typ := h.typ + SimpleRead(hp.typ))) else NoHook
  {
    hide ParseSimple, ParseH, SimpleRead;
    var a := if EMBED_AFTER_NEW in hp.typ then "N" else if EMBED_AFTER_OVERWRITE in hp.typ then "O" else "";
    if EMBED_BEFORE_SIMPLE in hp.typ {
      assert SimpleLetters(hp) + rest == "S" + (a + rest);
      AfterIsRead(a, rest, h);
      AddedFlags(hp.typ, h.typ);
    } else {
      assert SimpleLetters(hp) + rest == a + rest;
      NothingSimple(a, rest, h);
      assert a == "" ==> SimpleRead(hp.typ) == {} by {
        if a == "" {
          NoSimpleFlags(hp.typ);
        }
      }
      assert h.typ + {} == h.typ;
    }
  }

  lemma AfterIsRead(a: string, rest: string, h: HookParam)
    requires (a == "" || a == "N" || a == "O") && (Head(rest) == 'H' || Head(rest) == 'B')
    ensures var g := With(h, EMBED_BEFORE_SIMPLE);
            ParseSimple("S" + (a + rest), h)
            == ParseH(rest, if a == "N" then With(g, EMBED_AFTER_NEW) else if a == "O" then With(g, EMBED_AFTER_OVERWRITE) else g)
  {
    hide ParseH;
    assert Tail("S" + (a + rest)) == a + rest;
    assert Tail("N" + rest) == rest && Tail("O" + rest) == rest && "" + rest == rest;
  }

  lemma NothingSimple(a: string, rest: string, h: HookParam)
    requires (a == "" || a == "N" || a == "O") && (Head(rest) == 'H' || Head(rest) == 'B')
    ensures ParseSimple(a + rest, h) == if a == "" then ParseH(rest, h) else NoHook
  {
    hide ParseBody;
    assert "" + rest == rest;
  }

  lemma NoSimpleFlags(typ: set<Flag>)
    requires EMBED_BEFORE_SIMPLE !in typ && EMBED_AFTER_NEW !in typ && EMBED_AFTER_OVERWRITE !in typ
    ensures SimpleRead(typ) == {}
  {
  }

  lemma AddedFlags(typ: set<Flag>, before: set<Flag>)
    requires EMBED_BEFORE_SIMPLE in typ
    ensures var t := before + {EMBED_BEFORE_SIMPLE};
            before + SimpleRead(typ) == if EMBED_AFTER_NEW in typ then t + {EMBED_AFTER_NEW}
                                        else if EMBED_AFTER_OVERWRITE in typ then t + {EMBED_AFTER_OVERWRITE} else t
  {
  }
}
