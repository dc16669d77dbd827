/** The codes under which the host announces found hooks (LunaHost/host.cpp). */
module HookFinderCodes {
  import opened MachineTypes
  import opened HookParams
  import opened HookFinderModel
  import opened HookFinder
  import opened HookCodeShape
  import opened HookCodeCanonical
  import opened HookCodeGenerator
  import opened HookCodeParser
  import HookCodeRoundTrip

  const CP_UTF8 := 65001

  /** A found hook is announced as it is, without its codec, and as a UTF-8 hook. */
  datatype Copy = AsFound | InCodepage | InUtf8

  function Announced(hp: HookParam, copy: Copy): HookParam {
    match copy
    case AsFound => hp
    case InCodepage => hp.(typ := hp.typ - {CODEC_UTF16})
    case InUtf8 => hp.(typ := hp.typ - {CODEC_UTF16}, codepage := CP_UTF8)
  }

  /** The first copy is a UTF-16 string, the second one in the codepage of the search, the third one in UTF-8. */
  lemma CopiesAre(send: Send, codepage: int)
    ensures (
      var hp := HookOf(Fill(EMPTY, send), codepage).hp;
      var breaks := if send.jittype == PC then {} else {BREAK_POINT};
      && Announced(hp, AsFound) == hp && hp.typ == {USING_STRING, CODEC_UTF16} + breaks
      && Announced(hp, InCodepage) == hp.(typ := {USING_STRING} + breaks)
      && Announced(hp, InUtf8) == hp.(typ := {USING_STRING} + breaks, codepage := 65001))
  {
    assert {CODEC_UTF16, USING_STRING} + {BREAK_POINT} - {CODEC_UTF16} == {USING_STRING} + {BREAK_POINT};
  }

  /** What the host prints: the announced copy, relative to the module its address lies in. */
  function Printed(send: Send, codepage: int, copy: Copy, m: Mapping): HookParam
    requires Representable(Announced(HookOf(Fill(EMPTY, send), codepage).hp, copy))
  {
    Relative(Announced(HookOf(Fill(EMPTY, send), codepage).hp, copy), m)
  }

  /** The target is one that its code tells; a Unity code has no address at all. */
  predicate TargetTold(hp: HookParam)
    requires Representable(hp)
  {
    match hp.jittype
    case PC => hp.address < INT64_LIMIT && (MODULE_OFFSET in hp.typ ==> NamesOk(hp))
    case UNITY => hp.emuAddr == 0
    case _ => hp.emuAddr < INT64_LIMIT && 0 <= hp.argidx
  }

  predicate CodeTells(hp: HookParam)
    requires Representable(hp)
  {
    && (CODEC_UTF16 in hp.typ ==> hp.codepage == 0) && hp.codepage < INT_LIMIT && hp.padding < INT64_LIMIT
    && TargetTold(hp) && !NumberStartsWithF(hp)
  }

  /** An announced hook: a string hook, perhaps with a breakpoint, that fills in only what the search knows. */
  predicate FoundFields(hp: HookParam) {
    && hp.typ - {CODEC_UTF16, BREAK_POINT} == {USING_STRING}
    && hp == ZERO.(codepage := hp.codepage, jittype := hp.jittype, padding := hp.padding, typ := hp.typ,
                   offset := hp.offset, address := hp.address, emuAddr := hp.emuAddr, argidx := hp.argidx)
    && if hp.jittype == PC then hp.emuAddr == hp.argidx == 0 && hp.offset % 8 == 0 else hp.offset == hp.address == 0
  }

  lemma AnnouncedFields(send: Send, codepage: int, copy: Copy)
    ensures FoundFields(Announced(HookOf(Fill(EMPTY, send), codepage).hp, copy))
  {
    var hp := HookOf(Fill(EMPTY, send), codepage).hp;
    assert hp.typ - {CODEC_UTF16, BREAK_POINT} == {USING_STRING};
    assert hp.typ - {CODEC_UTF16} - {CODEC_UTF16, BREAK_POINT} == {USING_STRING};
  }

  /** Its flags and unprinted fields are in order, also relative to a module. */
  predicate FoundInOrder(g: HookParam) {
    && Consistent(g) && DIRECT_READ !in g.typ && HOOK_RETURN !in g.typ && FULL_STRING !in g.typ && USING_STRING in g.typ
    && (IsUnicode(g) <==> CODEC_UTF16 in g.typ) && g.split == 0 && g.unityInfo == ""
    && (JitShape(g) <==> match g.jittype case PC => true case UNITY => g.emuAddr == 0 case _ => Corrected(g.argidx))
  }

  lemma FoundShape(hp: HookParam, m: Mapping)
    requires Representable(hp) && FoundFields(hp)
    ensures FoundInOrder(Relative(hp, m))
  {
    hide ModuleName, Rebased;
    assert forall f :: f in hp.typ ==> f == USING_STRING || f == CODEC_UTF16 || f == BREAK_POINT by {
      forall f | f in hp.typ && f != CODEC_UTF16 && f != BREAK_POINT ensures f == USING_STRING {
        assert f in hp.typ - {CODEC_UTF16, BREAK_POINT};
      }
    }
    assert USING_STRING in hp.typ - {CODEC_UTF16, BREAK_POINT};
  }

  lemma CanonicalIsTold(g: HookParam)
    requires Representable(g) && FoundInOrder(g)
    ensures Canonical(g) <==> CodeTells(g)
  {
    hide Consistent, NumberStartsWithF, NamesOk, Representable;
  }

  /**
   * The code of an announced hook gives the hook, relative to its module, back exactly when it is not a UTF-16
   * hook with a codepage, its numbers can be printed, its target told, and no number starts with F.
   */
  lemma FoundHookCodes(send: Send, codepage: int, copy: Copy, m: Mapping)
    requires Representable(Announced(HookOf(Fill(EMPTY, send), codepage).hp, copy))
    ensures (
      var hp := Announced(HookOf(Fill(EMPTY, send), codepage).hp, copy);
      var g := Printed(send, codepage, copy, m);
      Parse(GenerateFor(hp, m)) == Hook(g) <==> CodeTells(g))
  {
    var hp := Announced(HookOf(Fill(EMPTY, send), codepage).hp, copy);
    AnnouncedFields(send, codepage, copy);
    FoundShape(hp, m);
    assert DIRECT_READ !in hp.typ;
    hide Parse, GenerateFor, Relative, CodeTells, Canonical, Announced, HookOf, FoundFields, Representable;
    HookCodeRoundTrip.RelativeRoundTrip(hp, m);
    CanonicalIsTold(Relative(hp, m));
  }

  /** A function found by a default search, codepage 932, does not come back from the code of its first copy. */
  lemma CodepageIsLost(send: Send, m: Mapping)
    requires send.jittype == PC && Representable(HookOf(Fill(EMPTY, send), 932).hp)
    ensures var hp := HookOf(Fill(EMPTY, send), 932).hp; Parse(GenerateFor(hp, m)) != Hook(Relative(hp, m))
  {
    hide Parse, GenerateFor, NumberStartsWithF, NamesOk;
    FoundHookCodes(send, 932, AsFound, m);
    assert Printed(send, 932, AsFound, m).codepage == 932;
  }
}
