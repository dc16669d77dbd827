/** The descriptors whose printed code means what they say. */
module HookCodeCanonical {
  import opened MachineTypes
  import opened Numerals
  import opened HookParams
  import opened HookCodeParser
  import opened HookCodeGenerator
  import opened HookCodeShape

  /** The first hex digit after the letters is F, which the parser takes for the FULL_STRING letter. */
  predicate NumberStartsWithF(hp: HookParam)
    requires Representable(hp)
  {
    NO_CONTEXT !in hp.typ && CodepagePart(hp) == ""
    && if hp.padding != 0 then Print(hp.padding, 16)[0] == 'F'
       else LeadNumber(hp) >= 0 && Print(LeadNumber(hp), 16)[0] == 'F'
  }

  predicate FullOk(hp: HookParam)
    requires Representable(hp)
  {
    USING_STRING in hp.typ && FULL_STRING !in hp.typ ==> !NumberStartsWithF(hp)
  }

  predicate NumbersOk(hp: HookParam) {
    (hp.codepage != 0 ==> !IsUnicode(hp) && hp.codepage < INT_LIMIT) && hp.padding < INT64_LIMIT
  }

  predicate EndsInJitSuffix(s: string) { JitOf("@" + s, PC) != PC }

  /** The module stands alone: nothing after its first character looks like ":function". */
  predicate NoInnerFunction(m: string) { forall k :: 1 <= k < |m| - 1 ==> m[k] != ':' }

  /** The names of a PC hook can be told apart again. */
  predicate NamesOk(hp: HookParam)
    requires Representable(hp)
  {
    var names := NamesPart(hp);
    && OneLine(names) && '/' !in names && !EndsInJitSuffix(names)
    && (MODULE_OFFSET in hp.typ ==> hp.moduleName != "" && !IsSpace(names[|names| - 1]))
    && (if FUNCTION_OFFSET in hp.typ
        then hp.moduleName != "" && hp.functionName != "" && ':' !in hp.moduleName[1..]
        else MODULE_OFFSET in hp.typ ==> NoInnerFunction(hp.moduleName))
  }

  predicate TargetOk(hp: HookParam)
    requires Representable(hp)
  {
    match hp.jittype
    case PC => hp.address < INT64_LIMIT && (MODULE_OFFSET in hp.typ ==> NamesOk(hp))
    case UNITY => 0 <= hp.split && '/' !in hp.unityInfo
    case _ => hp.emuAddr < INT64_LIMIT && 0 <= hp.argidx
  }

  predicate CanonicalHook(hp: HookParam)
    requires Representable(hp)
  {
    HookShape(hp) && HOOK_RETURN !in hp.typ && FullOk(hp) && NumbersOk(hp) && TargetOk(hp)
  }

  predicate CanonicalRead(hp: HookParam)
    requires Representable(hp)
  {
    ReadShape(hp) && (hp.codepage != 0 ==> !IsUnicode(hp)) && hp.address < INT64_LIMIT
  }

  predicate Canonical(hp: HookParam)
    requires Representable(hp)
  {
    if DIRECT_READ in hp.typ then CanonicalRead(hp) else CanonicalHook(hp)
  }
}
