/** The hook descriptor that hook codes describe (include/types.h, include/const.h). */
module HookParams {
  import opened MachineTypes

  /** One bit of HookParam::type; the field itself is modelled as the set of its bits. */
  datatype Flag =
    | CODEC_ANSI_BE | CODEC_UTF8 | CODEC_UTF16 | CODEC_UTF32
    | USING_CHAR | USING_STRING | SPECIAL_JIT_STRING | FULL_STRING
    | DATA_INDIRECT | USING_SPLIT | SPLIT_INDIRECT | FIXING_SPLIT | NO_CONTEXT
    | MODULE_OFFSET | FUNCTION_OFFSET | KNOWN_UNSTABLE
    | EMBED_ABLE | EMBED_DYNA_SJIS | EMBED_BEFORE_SIMPLE | EMBED_AFTER_NEW | EMBED_AFTER_OVERWRITE
    | EMBED_CODEC_UTF16 | BREAK_POINT | DIRECT_READ | HOOK_RETURN | HOOK_EMPTY

  datatype JitType = PC | YUZU | PPSSPP | VITA3K | RPCS3 | UNITY

  /** The fields no hook code carries; pointers are numbers, 0 for null. */
  datatype Extras = Extras(
    lengthOffset: int, userValue: int,
    textFun: int, filterFun: int, hookBefore: int, hookAfter: int,
    hookFont: int, newlineSeparator: int, name: string, hookcode: string)

  datatype HookParam = HookParam(
    address: int, offset: int, index: int, split: int, splitIndex: int,
    moduleName: string, functionName: string,
    typ: set<Flag>, codepage: int, padding: int,
    emuAddr: int, argidx: int, jittype: JitType, unityInfo: string,
    extras: Extras)

  const NO_EXTRAS := Extras(0, 0, 0, 0, 0, 0, 0, 0, "", "")

  /** HookParam{}: the constructor zeroes the whole structure. */
  const ZERO := HookParam(0, 0, 0, 0, 0, "", "", {}, 0, 0, 0, 0, PC, "", NO_EXTRAS)

  const MAX_MODULE_SIZE := 120
  const MAX_UNITY_SIZE := 1024

  /** The content of a NUL-terminated buffer. */
  predicate IsCString(s: string, size: nat) { |s| < size && '\0' !in s }

  /** A char buffer holds bytes. */
  predicate IsBytes(s: string) { forall i :: 0 <= i < |s| ==> s[i] < '\U{100}' }

  /** What the C++ structure can hold in a 64-bit build. */
  predicate Representable(hp: HookParam) {
    && IsUint64(hp.address) && IsUint64(hp.padding) && IsUint64(hp.emuAddr)
    && IsInt(hp.offset) && IsInt(hp.index) && IsInt(hp.split) && IsInt(hp.splitIndex) && IsInt(hp.argidx)
    && 0 <= hp.codepage < UINT_LIMIT
    && IsCString(hp.moduleName, MAX_MODULE_SIZE)
    && IsCString(hp.functionName, MAX_MODULE_SIZE) && IsBytes(hp.functionName)
    && IsCString(hp.unityInfo, MAX_UNITY_SIZE) && IsBytes(hp.unityInfo)
  }

  function With(hp: HookParam, f: Flag): HookParam { hp.(typ := hp.typ + {f}) }
}
