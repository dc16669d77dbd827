/** Codes printed with a process to ask: the address is the distance from the start of its module. */
module HookCodeDistance {
  import opened MachineTypes
  import opened Numerals
  import opened HookParams
  import opened HookCodeParser
  import opened HookCodeGenerator

  /** The address at a distance from the start of the module, as the injected library finds it. */
  function Placed(distance: int, base: nat): int { (distance + base) % UINT64_LIMIT }

  lemma RebasedIsDistance(address: int, base: nat)
    requires IsUint64(address) && base < UINT64_LIMIT
    ensures Placed(Rebased(address, base), base) == address
    ensures base <= address ==> Rebased(address, base) == address - base
  {
  }

  /** The address becomes the distance from where the module lies, so that the module's place and it give it back. */
  lemma RelativeIsDistance(hp: HookParam, base: nat, path: string)
    requires Representable(hp) && hp.jittype == PC && MODULE_OFFSET !in hp.typ && base < UINT64_LIMIT
    ensures var g := Relative(hp, FileAt(base, path));
            && g == hp.(typ := hp.typ + {MODULE_OFFSET}, address := g.address, moduleName := CopyCString(FileName(path), 119))
            && Placed(g.address, base) == hp.address
            && (base <= hp.address ==> g.address == hp.address - base)
  {
    assert IsUint64(hp.address);
    hide *;
    RelativeFields(hp, base, path);
    RebasedIsDistance(hp.address, base);
  }

  lemma RelativeFields(hp: HookParam, base: nat, path: string)
    requires Representable(hp) && hp.jittype == PC && MODULE_OFFSET !in hp.typ
    ensures Relative(hp, FileAt(base, path))
         == hp.(typ := hp.typ + {MODULE_OFFSET}, address := Rebased(hp.address, base),
                moduleName := CopyCString(FileName(path), 119))
  {
    hide Rebased, CopyCString, FileName;
  }

  function FunctionText(hp: HookParam): string
    requires Representable(hp)
  {
    if FUNCTION_OFFSET in hp.typ then ":" + Widen(hp.functionName) else ""
  }

  /** What stands behind the at sign: the distance, the module and, if there is one, the function. */
  function DistanceCode(distance: nat, moduleName: string, rest: string): string {
    Print(distance, 16) + (":" + moduleName + rest)
  }

  lemma DistanceText(g: HookParam)
    requires Representable(g) && g.jittype == PC && MODULE_OFFSET in g.typ && 0 <= g.address < INT64_LIMIT
    ensures TargetText(g) == DistanceCode(g.address, g.moduleName, FunctionText(g))
  {
    hide Print, Widen;
    assert HexString(ToInt64(g.address)) == Print(g.address, 16);
  }

  lemma PrintedRelative(hp: HookParam, m: Mapping)
    requires Representable(hp) && DIRECT_READ !in hp.typ
    ensures GenerateFor(hp, m) == FromStart(hp, TargetText(Relative(hp, m)))
  {
    hide Relative, FromStart, TargetText, Representable;
    RelativeStart(hp, m, TargetText(Relative(hp, m)));
  }

  lemma DistanceFields(hp: HookParam, base: nat, path: string)
    requires Representable(hp) && hp.jittype == PC && MODULE_OFFSET !in hp.typ && base <= hp.address && base < UINT64_LIMIT
    ensures var g := Relative(hp, FileAt(base, path));
            && g.jittype == PC && MODULE_OFFSET in g.typ && (FUNCTION_OFFSET in g.typ <==> FUNCTION_OFFSET in hp.typ)
            && g.address == hp.address - base && g.moduleName == CopyCString(FileName(path), 119)
            && g.functionName == hp.functionName
  {
    hide *;
    RelativeIsDistance(hp, base, path);
  }

  lemma BaseFits(hp: HookParam, base: nat)
    requires Representable(hp) && base <= hp.address
    ensures base < UINT64_LIMIT
  {
    assert IsUint64(hp.address);
  }

  lemma SameFunctionText(hp: HookParam, g: HookParam)
    requires Representable(hp) && Representable(g) && g.functionName == hp.functionName
    requires FUNCTION_OFFSET in g.typ <==> FUNCTION_OFFSET in hp.typ
    ensures FunctionText(g) == FunctionText(hp)
  {
  }

  /** A hook at or behind the start of its module is printed with its distance from there and the module's name. */
  lemma PrintsDistance(hp: HookParam, base: nat, path: string)
    requires Representable(hp) && hp.jittype == PC && MODULE_OFFSET !in hp.typ && DIRECT_READ !in hp.typ
    requires base <= hp.address && hp.address - base < INT64_LIMIT
    ensures GenerateFor(hp, FileAt(base, path))
         == FromStart(hp, DistanceCode(hp.address - base, CopyCString(FileName(path), 119), FunctionText(hp)))
  {
    hide *;
    var g := Relative(hp, FileAt(base, path));
    BaseFits(hp, base);
    DistanceFields(hp, base, path);
    SameFunctionText(hp, g);
    PrintedRelative(hp, FileAt(base, path));
    DistanceText(g);
  }
}
