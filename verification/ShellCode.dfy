/** makeShellCode, 32-bit branch (libs/yapi.hpp): the stub that unpacks a parameter block and calls. */
module ShellCode {
  import opened MachineTypes
  import opened X86

  const TEMPLATE: seq<byte> := [
    0x55, 0x8B, 0xEC, 0x51, 0x83, 0x7D, 0x08, 0x00, 0x74, 0x0C, 0x8B, 0x45, 0x08, 0x8B, 0x08, 0xFF,
    0xD0, 0x89, 0x45, 0xFC, 0xEB, 0x07, 0xC7, 0x45, 0xFC, 0x00, 0x00, 0x00, 0x00, 0x8B, 0x45, 0xFC,
    0x8B, 0xE5, 0x5D, 0xC3]

  /** The % operator of C++, which truncates towards zero. */
  function Rem(a: int, b: nat): int
    requires b > 0
  {
    if a >= 0 then a % b else -((-a) % b)
  }

  /** char += n wraps around. */
  function Bump(b: byte, n: int): byte { ((b as int + n) % 0x100) as byte }

  /** The seven bytes for one argument, before the displacement is patched. */
  function PushTemplate(i: nat): (r: seq<byte>)
    ensures |r| == 7
  {
    if i % 3 == 0 then [0x8B, 0x48, 0xCC, 0x51, 0x8B, 0x55, 0x08]
    else if i % 3 == 1 then [0x8B, 0x42, 0xCC, 0x50, 0x8B, 0x4D, 0x08]
    else [0x8B, 0x51, 0xCC, 0x52, 0x8B, 0x45, 0x08]
  }

  function PushCode(cnt: nat, i: nat): (r: seq<byte>)
    requires i < cnt
    ensures |r| == 7
  {
    PushTemplate(i)[2 := (((cnt - i) * 4) % 0x100) as byte]
  }

  function Pushes(cnt: nat, n: nat): (r: seq<byte>)
    requires n <= cnt
    ensures |r| == 7 * n
  {
    if n == 0 then [] else Pushes(cnt, n - 1) + PushCode(cnt, n - 1)
  }

  /** push ebp; mov ebp,esp; push ecx; cmp [ebp+8],0; je; mov eax,[ebp+8] */
  function Prologue(cnt: nat): (r: seq<byte>)
    ensures |r| == 13
  {
    [0x55, 0x8B, 0xEC, 0x51, 0x83, 0x7D, 0x08, 0x00, 0x74, Bump(0x0C, cnt * 7), 0x8B, 0x45, 0x08]
  }

  function CallRegister(cnt: nat): byte { Bump(0xD0, (Rem(Rem(1 - cnt as int, 3) + 3, 3))) }

  function FunctionLoad(cnt: nat): byte { if cnt % 3 == 0 then 0x08 else if cnt % 3 == 1 then 0x02 else 0x11 }

  /** mov r,[x]; call r; mov [ebp-4],eax; jmp; mov [ebp-4],0; mov eax,[ebp-4]; mov esp,ebp; pop ebp; ret */
  function Epilogue(cnt: nat, load: byte): (r: seq<byte>)
    ensures |r| == 23
  {
    [0x8B, load, 0xFF, CallRegister(cnt), 0x89, 0x45, 0xFC, 0xEB, 0x07, 0xC7, 0x45, 0xFC, 0x00, 0x00, 0x00, 0x00,
     0x8B, 0x45, 0xFC, 0x8B, 0xE5, 0x5D, 0xC3]
  }

  function Stub(cnt: nat): (r: seq<byte>)
    ensures |r| == 36 + 7 * cnt
  {
    Prologue(cnt) + Pushes(cnt, cnt) + Epilogue(cnt, FunctionLoad(cnt))
  }

  /** std::string::insert */
  function Insert(code: seq<byte>, pos: nat, bytes: seq<byte>): seq<byte>
    requires pos <= |code|
  {
    code[..pos] + bytes + code[pos..]
  }

  lemma InsertBetween(front: seq<byte>, pushes: seq<byte>, back: seq<byte>, bytes: seq<byte>)
    ensures Insert(front + pushes + back, |front| + |pushes|, bytes) == front + (pushes + bytes) + back
  {
    var code := front + pushes + back;
    assert code[..|front| + |pushes|] == front + pushes;
    assert code[|front| + |pushes|..] == back;
  }

  lemma PatchPush(front: seq<byte>, pushes: seq<byte>, push: seq<byte>, back: seq<byte>, b: byte)
    requires |push| == 7
    ensures (front + (pushes + push) + back)[|front| + |pushes| + 2 := b] == front + (pushes + push[2 := b]) + back
  {
  }

  lemma PatchLoad(front: seq<byte>, pushes: seq<byte>, cnt: nat, load: byte)
    ensures (front + pushes + Epilogue(cnt, 0x08))[|front| + |pushes| + 1 := load] == front + pushes + Epilogue(cnt, load)
  {
  }

  method MakeShellCode(cnt: nat) returns (code: seq<byte>)
    ensures code == Stub(cnt)
  {
    code := PatchedTemplate(cnt);
    var pos := 13;
    for i := 0 to cnt
      invariant pos == 13 + 7 * i
      invariant code == Prologue(cnt) + Pushes(cnt, i) + Epilogue(cnt, 0x08)
    {
      hide Prologue, Epilogue, PushTemplate;
      code := Insert(code, pos, PushTemplate(i));
      InsertBetween(Prologue(cnt), Pushes(cnt, i), Epilogue(cnt, 0x08), PushTemplate(i));
      code := code[pos + 2 := (((cnt - i) * 4) % 0x100) as byte];
      PatchPush(Prologue(cnt), Pushes(cnt, i), PushTemplate(i), Epilogue(cnt, 0x08), (((cnt - i) * 4) % 0x100) as byte);
      pos := pos + 7;
    }
    PatchLoad(Prologue(cnt), Pushes(cnt, cnt), cnt, FunctionLoad(cnt));
    match cnt % 3
    case 0 => code := code[pos + 1 := 0x08];
    case 1 => code := code[pos + 1 := 0x02];
    case _ => code := code[pos + 1 := 0x11];
  }

  /** The jump distance and the call register are patched before anything is inserted. */
  method PatchedTemplate(cnt: nat) returns (code: seq<byte>)
    ensures code == Prologue(cnt) + Pushes(cnt, 0) + Epilogue(cnt, 0x08)
  {
    code := TEMPLATE;
    code := code[9 := Bump(code[9], cnt * 7)];
    code := code[16 := Bump(code[16], Rem(Rem(1 - cnt as int, 3) + 3, 3))];
  }
}
