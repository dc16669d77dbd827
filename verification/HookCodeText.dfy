/** Text facts of the hook-code language: stripping, the part in front of the at sign, the JIT suffix. */
module HookCodeText {
  import opened Numerals
  import opened HookParams
  import opened HookCodeParser
  import opened HookCodeGenerator

  // ---------- what Parse strips at the end ----------

  /** From the first slash on everything goes, then trailing blanks. */
  function Clean(s: string): (r: string)
    ensures r <= s
  {
    TrimRight(CutAt(s, '/'))
  }

  predicate Plain(s: string) { forall i :: 0 <= i < |s| ==> s[i] != '/' && !IsSpace(s[i]) }

  lemma {:induction false} CutAppend(p: string, s: string)
    requires '/' !in p
    ensures CutAt(p + s, '/') == p + CutAt(s, '/')
  {
    if p == "" {
      assert p + s == s;
    } else {
      assert (p + s)[1..] == p[1..] + s;
      CutAppend(p[1..], s);
    }
  }

  lemma {:induction false} TrimAppend(p: string, s: string)
    requires Plain(p)
    ensures TrimRight(p + s) == p + TrimRight(s)
  {
    if s == "" {
      assert p + s == p;
    } else if IsSpace(s[|s| - 1]) {
      assert (p + s)[..|p + s| - 1] == p + s[..|s| - 1];
      TrimAppend(p, s[..|s| - 1]);
    }
  }

  lemma CleanAppend(p: string, s: string)
    requires Plain(p)
    ensures Clean(p + s) == p + Clean(s)
  {
    CutAppend(p, s);
    TrimAppend(p, CutAt(s, '/'));
  }

  lemma {:induction false} CutIgnoresRest(s: string, t: string)
    ensures CutAt(s + "/" + t, '/') == CutAt(s, '/')
  {
    if s == "" {
      assert (s + "/" + t)[0] == '/';
    } else if s[0] != '/' {
      assert (s + "/" + t)[0] == s[0] && (s + "/" + t)[1..] == s[1..] + "/" + t;
      CutIgnoresRest(s[1..], t);
    }
  }

  /** Parse sees a text that starts plainly as its cleaned form. */
  lemma StrippedIsClean(s: string)
    requires Head(s) != '/' && !IsSpace(Head(s))
    ensures Stripped(s) == Clean(s)
  {
    var c := CutAt(s, '/');
    assert s != "" ==> c != "" && c[0] == s[0];
    assert SpaceRun(c) == 0;
    assert c[0..] == c;
  }

  // ---------- the part in front of the at sign ----------

  /** t is s with x appended, and s is plain and ends in the at sign. */
  predicate Fronts(s: string, x: string, t: string) { t == s + x && s != "" && s[|s| - 1] == '@' && Plain(s) }

  lemma Prepend(part: string, s: string, x: string, t: string)
    requires Plain(part) && Fronts(s, x, t)
    ensures Fronts(part + s, x, part + t)
  {
    assert part + (s + x) == (part + s) + x;
  }

  lemma PlainNumeral(n: nat, base: nat)
    requires base == 10 || base == 16
    ensures Plain(Print(n, base))
  {
    assert forall i :: 0 <= i < |Print(n, base)| ==> IsDigit(Print(n, base)[i], base);
  }

  lemma PlainHex(num: int)
    ensures Plain(HexString(num))
  {
    PlainNumeral(if num < 0 then -num else num, 16);
  }

  lemma NumbersFront(hp: HookParam, x: string)
    ensures Fronts(FromOffset(hp, ""), x, FromOffset(hp, x))
  {
    PlainHex(hp.splitIndex);
    PlainHex(Uncorrect(hp.split));
    PlainHex(hp.index);
    PlainHex(LeadNumber(hp));
    assert Fronts("@" + "", x, "@" + x);
    Prepend(SplitIndexPart(hp), "@" + "", x, "@" + x);
    Prepend(SplitPart(hp), FromSplitIndex(hp, ""), x, FromSplitIndex(hp, x));
    Prepend(IndexPart(hp), FromSplit(hp, ""), x, FromSplit(hp, x));
    Prepend(HexString(LeadNumber(hp)), FromIndex(hp, ""), x, FromIndex(hp, x));
  }

  lemma OptionsFront(hp: HookParam, x: string)
    requires Representable(hp)
    ensures Fronts(FromContext(hp, ""), x, FromContext(hp, x))
  {
    NumbersFront(hp, x);
    PlainHex(ToInt64(hp.padding));
    Prepend(PaddingPart(hp), FromOffset(hp, ""), x, FromOffset(hp, x));
    PlainNumeral(hp.codepage, 10);
    Prepend(CodepagePart(hp), FromPadding(hp, ""), x, FromPadding(hp, x));
    Prepend(ContextPart(hp), FromCodepage(hp, ""), x, FromCodepage(hp, x));
  }

  lemma PlainLetters(hp: HookParam)
    ensures Plain(EmbedPart(hp)) && Plain(TagPart(hp)) && Plain([CodecLetter(hp)]) && Plain(FilterPart(hp)) && Plain(FullPart(hp))
  {
    hide IsSpace;
    SpacesAreNoLetters();
  }

  lemma SpacesAreNoLetters()
    ensures forall c :: 'A' <= c <= 'Z' ==> !IsSpace(c)
  {
  }

  lemma BodyFront(hp: HookParam, x: string)
    requires Representable(hp)
    ensures Fronts(FromBody(hp, ""), x, FromBody(hp, x))
  {
    OptionsFront(hp, x);
    hide FromContext, Fronts;
    PlainLetters(hp);
    hide Plain, FullPart, FilterPart, CodecLetter;
    Prepend(FullPart(hp), FromContext(hp, ""), x, FromContext(hp, x));
    Prepend(FilterPart(hp), FromFull(hp, ""), x, FromFull(hp, x));
    Prepend([CodecLetter(hp)], FromFilter(hp, ""), x, FromFilter(hp, x));
  }

  lemma StartFront(hp: HookParam, x: string)
    requires Representable(hp)
    ensures Fronts(FromStart(hp, ""), x, FromStart(hp, x))
  {
    BodyFront(hp, x);
    hide FromBody, Fronts;
    PlainLetters(hp);
    hide Plain, TagPart, EmbedPart;
    Prepend(TagPart(hp), FromBody(hp, ""), x, FromBody(hp, x));
    Prepend(EmbedPart(hp), FromTag(hp, ""), x, FromTag(hp, x));
  }

  /** Stripping a printed code only touches what is behind the at sign. */
  lemma StrippedCode(hp: HookParam, x: string)
    requires Representable(hp)
    ensures Stripped(FromStart(hp, x)) == FromStart(hp, Clean(x))
  {
    var front := FromStart(hp, "");
    StartFront(hp, x);
    StartFront(hp, Clean(x));
    assert Head(front + x) == front[0];
    StrippedIsClean(front + x);
    CleanAppend(front, x);
  }

  // ---------- the JIT suffix ----------

  lemma SuffixIsPart(s: string, suffix: string)
    requires EndsWith(s, suffix)
    ensures forall i :: |s| - |suffix| <= i < |s| ==> s[i] == suffix[i - (|s| - |suffix|)]
  {
    assert forall i :: 0 <= i < |suffix| ==> s[|s| - |suffix|..][i] == suffix[i];
  }

  lemma EndsWithAfterAt(s: string, x: string, suffix: string)
    requires s != "" && s[|s| - 1] == '@' && '@' !in suffix
    ensures EndsWith(s + x, suffix) <==> EndsWith("@" + x, suffix)
  {
    var t := s + x;
    assert t[|s| - 1] == '@';
    if |x| >= |suffix| {
      assert t[|t| - |suffix|..] == x[|x| - |suffix|..];
      assert ("@" + x)[1 + |x| - |suffix|..] == x[|x| - |suffix|..];
    } else if EndsWith(t, suffix) {
      SuffixIsPart(t, suffix);
    }
  }

  /** The jittype of a printed code depends on the text behind the at sign only. */
  lemma JitAfterAt(s: string, x: string)
    requires s != "" && s[|s| - 1] == '@'
    ensures JitOf(s + x, PC) == JitOf("@" + x, PC)
  {
    EndsWithAfterAt(s, x, ":JIT:YUZU");
    EndsWithAfterAt(s, x, ":JIT:PPSSPP");
    EndsWithAfterAt(s, x, ":JIT:VITA3K");
    EndsWithAfterAt(s, x, ":JIT:RPCS3");
    EndsWithAfterAt(s, x, ":JIT:UNITY");
  }

  lemma JitOfBody(hp: HookParam, x: string)
    requires Representable(hp)
    ensures JitOf(FromBody(hp, x), PC) == JitOf("@" + x, PC)
  {
    BodyFront(hp, x);
    JitAfterAt(FromBody(hp, ""), x);
  }

  function LastLetter(j: JitType): char
    requires j != PC
  {
    match j
    case YUZU => 'U'
    case PPSSPP => 'P'
    case VITA3K => 'K'
    case RPCS3 => '3'
    case UNITY => 'Y'
  }

  lemma LastOf(s: string, j: JitType)
    requires j != PC && EndsWith(s, JitSuffix(j))
    ensures s[|s| - 1] == LastLetter(j)
  {
    SuffixIsPart(s, JitSuffix(j));
  }

  /** The five suffixes differ in their last letter. */
  lemma JitOfIs(s: string, j: JitType)
    requires j != PC && EndsWith(s, JitSuffix(j))
    ensures JitOf(s, PC) == j
  {
    LastOf(s, j);
    NotSuffix(s, j, YUZU);
    NotSuffix(s, j, PPSSPP);
    NotSuffix(s, j, VITA3K);
    NotSuffix(s, j, RPCS3);
    NotSuffix(s, j, UNITY);
  }

  lemma NotSuffix(s: string, j: JitType, other: JitType)
    requires j != PC && other != PC && s != "" && s[|s| - 1] == LastLetter(j)
    ensures EndsWith(s, JitSuffix(other)) ==> other == j
  {
    if EndsWith(s, JitSuffix(other)) {
      LastOf(s, other);
    }
  }

  lemma JitOfSuffix(x: string, j: JitType)
    requires j != PC
    ensures JitOf("@" + (x + JitSuffix(j)), PC) == j
  {
    var s := "@" + (x + JitSuffix(j));
    assert s[|s| - |JitSuffix(j)|..] == JitSuffix(j);
    JitOfIs(s, j);
  }

  /** A text with no colon carries no JIT suffix. */
  lemma NoColonNoJit(x: string)
    requires ':' !in x
    ensures JitOf("@" + x, PC) == PC
  {
    var s := "@" + x;
    forall suffix: string | suffix != "" && suffix[0] == ':'
      ensures !EndsWith(s, suffix)
    {
      if EndsWith(s, suffix) {
        SuffixIsPart(s, suffix);
      }
    }
    assert ":JIT:YUZU"[0] == ":JIT:PPSSPP"[0] == ":JIT:VITA3K"[0] == ":JIT:RPCS3"[0] == ":JIT:UNITY"[0] == ':';
  }
}
