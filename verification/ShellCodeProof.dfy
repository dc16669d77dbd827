/** Running the generated stub on the machine of X86. */
module ShellCodeProof {
  import opened MachineTypes
  import opened X86
  import opened ShellCode

  // ---------- one instruction each ----------

  /** ModR/M byte of [base + disp8] or of a register pair. */
  predicate Encodes(m: byte, mod: nat, reg: nat, rm: nat) { Mod(m) == mod && Reg(m) == reg && Rm(m) == rm }

  lemma StepPush(code: seq<byte>, callee: Callee, s: State, r: nat)
    requires Wf(s) && s.status == Running && r < 8 && At(code, s.ip) as int == 0x50 + r
    requires s.regs[ESP] % 4 == 0 && 4 <= s.regs[ESP] < WORD
    ensures var esp := s.regs[ESP] - 4;
            Step(code, callee, s) == s.(regs := s.regs[ESP := esp], mem := s.mem[esp := s.regs[r]], ip := s.ip + 1)
  {
  }

  /** mov r, [b + disp8] */
  lemma StepLoad(code: seq<byte>, callee: Callee, s: State, r: nat, b: nat, a: int)
    requires Wf(s) && s.status == Running && r < 8 && b < 8 && b != ESP
    requires At(code, s.ip) == 0x8B && Encodes(At(code, s.ip + 1), 1, r, b)
    requires a == s.regs[b] + Sign8(At(code, s.ip + 2)) && 0 <= a < WORD && a % 4 == 0
    ensures Step(code, callee, s) == s.(regs := s.regs[r := Load(s.mem, a)], ip := s.ip + 3)
  {
  }

  /** mov r, [b] */
  lemma StepLoadPlain(code: seq<byte>, callee: Callee, s: State, r: nat, b: nat)
    requires Wf(s) && s.status == Running && r < 8 && b < 8 && b != ESP && b != EBP
    requires At(code, s.ip) == 0x8B && Encodes(At(code, s.ip + 1), 0, r, b)
    requires 0 <= s.regs[b] < WORD && s.regs[b] % 4 == 0
    ensures Step(code, callee, s) == s.(regs := s.regs[r := Load(s.mem, s.regs[b])], ip := s.ip + 2)
  {
  }

  /** mov r, b */
  lemma StepMove(code: seq<byte>, callee: Callee, s: State, r: nat, b: nat)
    requires Wf(s) && s.status == Running && r < 8 && b < 8
    requires At(code, s.ip) == 0x8B && Encodes(At(code, s.ip + 1), 3, r, b)
    ensures Step(code, callee, s) == s.(regs := s.regs[r := s.regs[b]], ip := s.ip + 2)
  {
  }

  /** mov [b + disp8], r */
  lemma StepStore(code: seq<byte>, callee: Callee, s: State, r: nat, b: nat, a: int)
    requires Wf(s) && s.status == Running && r < 8 && b < 8 && b != ESP
    requires At(code, s.ip) == 0x89 && Encodes(At(code, s.ip + 1), 1, r, b)
    requires a == s.regs[b] + Sign8(At(code, s.ip + 2)) && 0 <= a < WORD && a % 4 == 0
    ensures Step(code, callee, s) == s.(mem := s.mem[a := s.regs[r]], ip := s.ip + 3)
  {
  }

  lemma StepPop(code: seq<byte>, callee: Callee, s: State, r: nat)
    requires Wf(s) && s.status == Running && r < 8 && r != ESP && At(code, s.ip) as int == 0x58 + r
    requires s.regs[ESP] % 4 == 0 && 0 <= s.regs[ESP] < WORD - 4
    ensures var esp := s.regs[ESP];
            Step(code, callee, s) == s.(regs := s.regs[ESP := esp + 4][r := Load(s.mem, esp)], ip := s.ip + 1)
  {
  }

  lemma StepRet(code: seq<byte>, callee: Callee, s: State)
    requires Wf(s) && s.status == Running && At(code, s.ip) == 0xC3
    requires s.regs[ESP] % 4 == 0 && 0 <= s.regs[ESP] < WORD - 4
    ensures var esp := s.regs[ESP];
            Step(code, callee, s) == s.(regs := s.regs[ESP := esp + 4], status := Returned(Load(s.mem, esp)))
  {
  }

  /** The start of the callee of a two-byte call through a register. */
  function AtCall(s: State, r: nat): Call
    requires Wf(s) && r < 8
  {
    var esp := s.regs[ESP] - 4;
    Call(s.regs[r], s.regs[ESP := esp], s.mem[esp := s.ip + 2])
  }

  /** Whatever the callee does, the call is made. */
  lemma StepCalls(code: seq<byte>, callee: Callee, s: State, r: nat)
    requires Wf(s) && s.status == Running && r < 8
    requires At(code, s.ip) == 0xFF && Encodes(At(code, s.ip + 1), 3, 2, r)
    requires s.regs[ESP] % 4 == 0 && 4 <= s.regs[ESP] < WORD
    ensures Step(code, callee, s).calls == s.calls + [AtCall(s, r)]
  {
  }

  /** call r */
  lemma StepCall(code: seq<byte>, callee: Callee, s: State, r: nat)
    requires Wf(s) && s.status == Running && r < 8
    requires At(code, s.ip) == 0xFF && Encodes(At(code, s.ip + 1), 3, 2, r)
    requires s.regs[ESP] % 4 == 0 && 4 <= s.regs[ESP] < WORD
    requires |AtCall(s, r).regs| == 8 && |callee(s.regs[r], AtCall(s, r).regs, AtCall(s, r).mem).regs| == 8
    ensures var c := AtCall(s, r);
            var e := callee(c.target, c.regs, c.mem);
            Step(code, callee, s) == State(e.regs, s.zero, s.ip + 2, e.mem, s.calls + [c], Running)
  {
  }

  /** cmp [b + disp8], imm8 */
  lemma StepCompare(code: seq<byte>, callee: Callee, s: State, b: nat, a: int)
    requires Wf(s) && s.status == Running && b < 8 && b != ESP
    requires At(code, s.ip) == 0x83 && Encodes(At(code, s.ip + 1), 1, 7, b)
    requires a == s.regs[b] + Sign8(At(code, s.ip + 2)) && 0 <= a < WORD && a % 4 == 0
    ensures Step(code, callee, s) == s.(zero := Load(s.mem, a) == Sign8(At(code, s.ip + 3)) % WORD, ip := s.ip + 4)
  {
  }

  lemma StepJump(code: seq<byte>, callee: Callee, s: State)
    requires Wf(s) && s.status == Running && (At(code, s.ip) == 0xEB || At(code, s.ip) == 0x74)
    ensures var taken := At(code, s.ip) == 0xEB || s.zero;
            Step(code, callee, s) == s.(ip := s.ip + 2 + if taken then Sign8(At(code, s.ip + 1)) else 0)
  {
  }

  /** mov [b + disp8], 0 */
  lemma StepClear(code: seq<byte>, callee: Callee, s: State, b: nat, a: int)
    requires Wf(s) && s.status == Running && b < 8 && b != ESP
    requires At(code, s.ip) == 0xC7 && Encodes(At(code, s.ip + 1), 1, 0, b)
    requires a == s.regs[b] + Sign8(At(code, s.ip + 2)) && 0 <= a < WORD && a % 4 == 0
    requires Imm32(code, s.ip + 3) == 0
    ensures Step(code, callee, s) == s.(mem := s.mem[a := 0], ip := s.ip + 7)
  {
  }

  // ---------- where the bytes are ----------

  lemma {:induction false} PushAt(cnt: nat, n: nat, i: nat, k: nat)
    requires i < n <= cnt && k < 7
    ensures Pushes(cnt, n)[7 * i + k] == PushCode(cnt, i)[k]
  {
    if i < n - 1 {
      PushAt(cnt, n - 1, i, k);
    }
  }

  lemma StubAtPush(cnt: nat, i: nat, k: nat)
    requires i < cnt && k < 7
    ensures At(Stub(cnt), 13 + 7 * i + k) == PushCode(cnt, i)[k]
  {
    PushAt(cnt, cnt, i, k);
  }

  lemma StubAtEnd(cnt: nat, k: nat)
    requires k < 23
    ensures At(Stub(cnt), 13 + 7 * cnt + k) == Epilogue(cnt, FunctionLoad(cnt))[k]
  {
  }

  lemma StubStart(cnt: nat)
    ensures forall k :: 0 <= k < 13 ==> At(Stub(cnt), k) == Prologue(cnt)[k]
  {
  }

  /** The patched distance is the wanted one exactly when it fits a signed byte. */
  lemma BumpedDistance(n: nat)
    ensures Sign8(Bump(0x0C, n)) == 12 + n <==> 12 + n <= 127
  {
  }

  /** The je reaches the store of the zero result exactly when the distance fits a signed byte. */
  lemma JumpReachesZeroStore(cnt: nat)
    ensures 10 + Sign8(At(Stub(cnt), 9)) == 22 + 7 * cnt <==> 12 + 7 * cnt <= 127
    ensures At(Stub(cnt), 8) == 0x74 && At(Stub(cnt), 22 + 7 * cnt) == 0xC7
  {
    hide Stub, Bump, Sign8;
    StubStart(cnt);
    BumpedDistance(cnt * 7);
    StubAtEnd(cnt, 9);
  }

  /** Push i reads block word cnt - i exactly when its displacement fits a signed byte. */
  lemma PushReadsWord(cnt: nat, i: nat)
    requires i < cnt
    ensures Sign8(At(Stub(cnt), 13 + 7 * i + 2)) == 4 * (cnt - i) <==> 4 * (cnt - i) <= 127
  {
    hide Stub, PushTemplate;
    StubAtPush(cnt, i, 2);
  }
}
