/**
 * The instructions of the 32-bit call stub (ModR/M encoding: section 2.1.5 of the Intel SDM,
 * volume 2). Memory is read and written in aligned words; everything else gets the machine stuck.
 */
module X86 {

  import opened MachineTypes

  const WORD: int := UINT_LIMIT

  const EAX := 0
  const ECX := 1
  const EDX := 2
  const ESP := 4
  const EBP := 5

  type Memory = map<int, int>

  function Load(m: Memory, a: int): int { if a in m then m[a] else 0 }

  /** Target, registers and memory of a call when the callee starts: the return address is on top of the stack. */
  datatype Call = Call(target: int, regs: seq<int>, mem: Memory)

  /** What a callee leaves when it has returned: all registers and memory. */
  datatype Effect = Effect(regs: seq<int>, mem: Memory)

  datatype Status = Running | Returned(address: int) | Stuck

  datatype State = State(regs: seq<int>, zero: bool, ip: int, mem: Memory, calls: seq<Call>, status: Status)

  type Callee = (int, seq<int>, Memory) -> Effect

  predicate Wf(s: State) { |s.regs| == 8 }

  function Sign8(b: byte): int { if b < 0x80 then b as int else b as int - 0x100 }

  function At(code: seq<byte>, i: int): byte { if 0 <= i < |code| then code[i] else 0 }

  /** A decoded ModR/M operand with the number of bytes it takes. */
  datatype Operand = Register(r: nat) | Cell(address: int, size: nat) | Bad

  function Mod(b: byte): nat { (b / 0x40) as nat }

  function Reg(b: byte): nat { (b / 8 % 8) as nat }

  function Rm(b: byte): nat { (b % 8) as nat }

  /** Register, [register] and [register + disp8]; no SIB byte and no 32-bit displacement. */
  function Decode(code: seq<byte>, i: int, regs: seq<int>): (o: Operand)
    requires |regs| == 8
    ensures o.Register? ==> o.r < 8
  {
    var b := At(code, i);
    if Mod(b) == 3 then Register(Rm(b))
    else if Rm(b) == ESP then Bad
    else if Mod(b) == 0 && Rm(b) != EBP then Aligned(regs[Rm(b)] % WORD, 1)
    else if Mod(b) == 1 then Aligned((regs[Rm(b)] + Sign8(At(code, i + 1))) % WORD, 2)
    else Bad
  }

  function Aligned(a: int, size: nat): Operand { if a % 4 == 0 then Cell(a, size) else Bad }

  function Size(o: Operand): nat { if o.Cell? then o.size else 1 }

  function Fetch(o: Operand, s: State): int
    requires Wf(s) && o != Bad && (o.Register? ==> o.r < 8)
  {
    if o.Register? then s.regs[o.r] else Load(s.mem, o.address)
  }

  function Put(o: Operand, s: State, v: int): (t: State)
    requires Wf(s) && (o.Register? ==> o.r < 8)
    ensures Wf(t)
  {
    match o
    case Register(r) => s.(regs := s.regs[r := v])
    case Cell(a, _) => s.(mem := s.mem[a := v])
    case Bad => s.(status := Stuck)
  }

  function Jump(s: State, ip: int): State { s.(ip := ip) }

  function Push(s: State, v: int): (t: State)
    requires Wf(s)
    ensures Wf(t)
  {
    var esp := (s.regs[ESP] - 4) % WORD;
    if esp % 4 != 0 then s.(status := Stuck)
    else s.(regs := s.regs[ESP := esp], mem := s.mem[esp := v])
  }

  function Popped(s: State): (t: State)
    requires Wf(s)
    ensures Wf(t)
  {
    s.(regs := s.regs[ESP := (s.regs[ESP] + 4) % WORD])
  }

  function Imm32(code: seq<byte>, i: int): int {
    At(code, i) as int + 0x100 * At(code, i + 1) as int + 0x1_0000 * At(code, i + 2) as int
    + 0x100_0000 * At(code, i + 3) as int
  }

  /** A ModR/M byte is put together from its three fields. */
  lemma FieldsMakeByte(b: byte)
    ensures Mod(b) < 4 && Reg(b) < 8 && Rm(b) < 8 && b as nat == Mod(b) * 64 + Reg(b) * 8 + Rm(b)
  {
  }

  /** Four bytes, the lowest first, are read as the number they make up. */
  lemma Imm32Reads(code: seq<byte>, i: nat, v: nat)
    requires i + 4 <= |code| && v < WORD && code[i] as nat == v % 0x100 && code[i + 1] as nat == v / 0x100 % 0x100
    requires code[i + 2] as nat == v / 0x1_0000 % 0x100 && code[i + 3] as nat == v / 0x100_0000
    ensures Imm32(code, i) == v
  {
    var upper, top := v / 0x100, v / 0x1_0000;
    assert v == 0x100 * upper + v % 0x100;
    assert top == upper / 0x100 && upper == 0x100 * top + upper % 0x100;
    assert v / 0x100_0000 == top / 0x100 && top == 0x100 * (top / 0x100) + top % 0x100;
  }

  /** The address behind the call is pushed, and the callee runs until it returns there. */
  function Called(callee: Callee, s: State, target: int, next: int): (t: State)
    requires Wf(s)
    ensures Wf(t)
  {
    var p := Push(s, next);
    var e := callee(target, p.regs, p.mem);
    var u := p.(calls := p.calls + [Call(target, p.regs, p.mem)]);
    if p.status == Stuck then p
    else if |e.regs| == 8 then u.(regs := e.regs, mem := e.mem)
    else u.(status := Stuck)
  }

  /** One instruction. */
  function Step(code: seq<byte>, callee: Callee, s: State): (t: State)
    requires Wf(s)
    ensures Wf(t)
  {
    var op, m := At(code, s.ip), At(code, s.ip + 1);
    if s.status != Running then s
    else if 0x50 <= op <= 0x57 then Jump(Push(s, s.regs[(op - 0x50) as int]), s.ip + 1)
    else if 0x58 <= op <= 0x5F && s.regs[ESP] % 4 == 0 then
      var v := Load(s.mem, s.regs[ESP]);
      Jump(Put(Register((op - 0x58) as int), Popped(s), v), s.ip + 1)
    else if op == 0x8B then
      var o := Decode(code, s.ip + 1, s.regs);
      if o == Bad then s.(status := Stuck) else Jump(Put(Register(Reg(m)), s, Fetch(o, s)), s.ip + 1 + Size(o))
    else if op == 0x89 then
      var o := Decode(code, s.ip + 1, s.regs);
      Jump(Put(o, s, s.regs[Reg(m)]), s.ip + 1 + Size(o))
    else if op == 0x83 && Reg(m) == 7 then
      var o := Decode(code, s.ip + 1, s.regs);
      if o == Bad then s.(status := Stuck)
      else Jump(s.(zero := Fetch(o, s) == Sign8(At(code, s.ip + 1 + Size(o))) % WORD), s.ip + 2 + Size(o))
    else if op == 0xC7 && Reg(m) == 0 then
      var o := Decode(code, s.ip + 1, s.regs);
      Jump(Put(o, s, Imm32(code, s.ip + 1 + Size(o))), s.ip + 5 + Size(o))
    else if op == 0x74 then Jump(s, s.ip + 2 + if s.zero then Sign8(m) else 0)
    else if op == 0xEB then Jump(s, s.ip + 2 + Sign8(m))
    else if op == 0xFF && Reg(m) == 2 then
      var o := Decode(code, s.ip + 1, s.regs);
      if o == Bad then s.(status := Stuck) else Jump(Called(callee, s, Fetch(o, s), s.ip + 1 + Size(o)), s.ip + 1 + Size(o))
    else if op == 0xC3 && s.regs[ESP] % 4 == 0 then
      Popped(s).(status := Returned(Load(s.mem, s.regs[ESP])))
    else s.(status := Stuck)
  }

  function Run(code: seq<byte>, callee: Callee, s: State, n: nat): (t: State)
    requires Wf(s)
    ensures Wf(t)
    decreases n
  {
    if n == 0 then s else Run(code, callee, Step(code, callee, s), n - 1)
  }

  lemma {:induction false} RunSplit(code: seq<byte>, callee: Callee, s: State, n: nat, m: nat)
    requires Wf(s)
    ensures Run(code, callee, s, n + m) == Run(code, callee, Run(code, callee, s, n), m)
    decreases n
  {
    if n > 0 {
      RunSplit(code, callee, Step(code, callee, s), n - 1, m);
    }
  }
}
