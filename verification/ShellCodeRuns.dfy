/** Whole runs of the stub: what it calls, with which arguments, and what it returns. */
module ShellCodeRuns {
  import opened MachineTypes
  import opened X86
  import opened ShellCode
  import opened ShellCodeProof

  /** The stack pointer at entry; above it lie the return address and the parameter block's address. */
  function Top(s: State): int
    requires Wf(s)
  {
    s.regs[ESP]
  }

  function Block(s: State): int
    requires Wf(s)
  {
    Load(s.mem, Top(s) + 4)
  }

  function Word(s: State, k: int): int
    requires Wf(s)
  {
    Load(s.mem, Block(s) + 4 * k)
  }

  /** Entry of a thread procedure: room on an aligned stack, an aligned block that the stack does not overwrite. */
  predicate Entry(cnt: nat, s: State) {
    && Wf(s) && s.status == Running && s.ip == 0 && s.calls == []
    && Top(s) % 4 == 0 && 4 * (cnt + 3) <= Top(s) < WORD - 8
    && (Block(s) == 0 ||
        (Block(s) % 4 == 0 && 0 < Block(s) && Block(s) + 4 * (cnt + 1) <= WORD
         && (Block(s) + 4 * (cnt + 1) <= Top(s) - 12 - 4 * cnt || Top(s) <= Block(s))))
  }

  /** The frame the stub has built: saved ebp and return address in place, saved registers untouched. */
  predicate Framed(s0: State, s: State)
    requires Wf(s0)
  {
    && Wf(s) && s.status == Running && s.regs[EBP] == Top(s0) - 4
    && s.regs[3] == s0.regs[3] && s.regs[6] == s0.regs[6] && s.regs[7] == s0.regs[7]
    && Load(s.mem, Top(s0) - 4) == s0.regs[EBP] && Load(s.mem, Top(s0)) == Load(s0.mem, Top(s0))
  }

  // ---------- entry ----------

  lemma RunNext(code: seq<byte>, callee: Callee, s: State, n: nat)
    requires Wf(s)
    ensures Run(code, callee, s, n + 1) == Run(code, callee, Step(code, callee, s), n)
  {
  }

  lemma PrologueBytes(cnt: nat)
    ensures var code := Stub(cnt);
            && At(code, 0) == 0x55
            && At(code, 1) == 0x8B && Encodes(At(code, 2), 3, EBP, ESP)
            && At(code, 3) == 0x51
            && At(code, 4) == 0x83 && Encodes(At(code, 5), 1, 7, EBP) && Sign8(At(code, 6)) == 8 && Sign8(At(code, 7)) == 0
            && At(code, 8) == 0x74
            && At(code, 10) == 0x8B && Encodes(At(code, 11), 1, EAX, EBP) && Sign8(At(code, 12)) == 8
  {
    StubStart(cnt);
  }

  /** The state after push ebp; mov ebp,esp; push ecx. */
  function Pushed(s0: State): State
    requires Wf(s0)
  {
    var top := Top(s0);
    s0.(regs := s0.regs[ESP := top - 8][EBP := top - 4], ip := 4,
        mem := s0.mem[top - 4 := s0.regs[EBP]][top - 8 := s0.regs[ECX]])
  }

  lemma PushFrame(cnt: nat, callee: Callee, s0: State)
    requires Entry(cnt, s0)
    ensures Run(Stub(cnt), callee, s0, 3) == Pushed(s0)
  {
    hide Step, Stub, Encodes, Load;
    var code, top := Stub(cnt), Top(s0);
    PrologueBytes(cnt);
    StepPush(code, callee, s0, EBP);
    var s1 := s0.(regs := s0.regs[ESP := top - 4], mem := s0.mem[top - 4 := s0.regs[EBP]], ip := 1);
    StepMove(code, callee, s1, EBP, ESP);
    var s2 := s1.(regs := s1.regs[EBP := top - 4], ip := 3);
    StepPush(code, callee, s2, ECX);
    assert s2.regs[ESP := top - 8] == Pushed(s0).regs;
    RunNext(code, callee, s0, 2);
    RunNext(code, callee, s1, 1);
    RunNext(code, callee, s2, 0);
  }

  /** Past the je: at the zero store for a null block, else at the code that loads the block. */
  function Tested(cnt: nat, s0: State): State
    requires Wf(s0)
  {
    Pushed(s0).(zero := Block(s0) == 0, ip := if Block(s0) == 0 then 22 + 7 * cnt else 10)
  }

  lemma TestBlock(cnt: nat, callee: Callee, s0: State)
    requires Entry(cnt, s0) && (Block(s0) == 0 ==> 12 + 7 * cnt <= 127)
    ensures Run(Stub(cnt), callee, Pushed(s0), 2) == Tested(cnt, s0)
  {
    hide Step, Stub, Encodes;
    var code, top, s3 := Stub(cnt), Top(s0), Pushed(s0);
    PrologueBytes(cnt);
    JumpReachesZeroStore(cnt);
    StepCompare(code, callee, s3, EBP, top + 4);
    var s4 := s3.(zero := Block(s0) == 0, ip := 8);
    StepJump(code, callee, s4);
    RunNext(code, callee, s3, 1);
    RunNext(code, callee, s4, 0);
  }

  lemma Enter(cnt: nat, callee: Callee, s0: State)
    requires Entry(cnt, s0) && (Block(s0) == 0 ==> 12 + 7 * cnt <= 127)
    ensures Run(Stub(cnt), callee, s0, 5) == Tested(cnt, s0) && Framed(s0, Tested(cnt, s0))
  {
    hide Stub, Run;
    PushFrame(cnt, callee, s0);
    TestBlock(cnt, callee, s0);
    RunSplit(Stub(cnt), callee, s0, 3, 2);
  }

  // ---------- leaving ----------

  /** From the store of the result to the store of zero. */
  lemma ResultBytes(cnt: nat, x: int)
    requires x == 13 + 7 * cnt
    ensures var code := Stub(cnt);
            && At(code, x + 4) == 0x89 && Encodes(At(code, x + 5), 1, EAX, EBP) && Sign8(At(code, x + 6)) == -4
            && At(code, x + 7) == 0xEB && Sign8(At(code, x + 8)) == 7
            && At(code, x + 9) == 0xC7 && Encodes(At(code, x + 10), 1, 0, EBP) && Sign8(At(code, x + 11)) == -4
            && Imm32(code, x + 12) == 0
  {
    hide Stub;
    StubAtEnd(cnt, 4);
    StubAtEnd(cnt, 5);
    StubAtEnd(cnt, 6);
    StubAtEnd(cnt, 7);
    StubAtEnd(cnt, 8);
    StubAtEnd(cnt, 9);
    StubAtEnd(cnt, 10);
    StubAtEnd(cnt, 11);
    StubAtEnd(cnt, 12);
    StubAtEnd(cnt, 13);
    StubAtEnd(cnt, 14);
    StubAtEnd(cnt, 15);
  }

  /** From the load of the result to the ret. */
  lemma ExitBytes(cnt: nat, x: int)
    requires x == 13 + 7 * cnt
    ensures var code := Stub(cnt);
            && At(code, x + 16) == 0x8B && Encodes(At(code, x + 17), 1, EAX, EBP) && Sign8(At(code, x + 18)) == -4
            && At(code, x + 19) == 0x8B && Encodes(At(code, x + 20), 3, ESP, EBP)
            && At(code, x + 21) == 0x5D
            && At(code, x + 22) == 0xC3
  {
    hide Stub;
    StubAtEnd(cnt, 16);
    StubAtEnd(cnt, 17);
    StubAtEnd(cnt, 18);
    StubAtEnd(cnt, 19);
    StubAtEnd(cnt, 20);
    StubAtEnd(cnt, 21);
    StubAtEnd(cnt, 22);
  }

  /** From mov eax,[ebp-4] on: the local is returned and the frame is taken down. */
  lemma Leave(cnt: nat, callee: Callee, s0: State, s: State)
    requires Entry(cnt, s0) && Framed(s0, s) && s.ip == 29 + 7 * cnt
    ensures var t := Run(Stub(cnt), callee, s, 4);
            && t.status == Returned(Load(s0.mem, Top(s0))) && t.regs[EAX] == Load(s.mem, Top(s0) - 8)
            && t.regs[ESP] == Top(s0) + 4 && t.regs[EBP] == s0.regs[EBP]
            && t.regs[3] == s0.regs[3] && t.regs[6] == s0.regs[6] && t.regs[7] == s0.regs[7]
            && t.calls == s.calls
  {
    hide Step, Stub, Encodes, Load;
    var code, top := Stub(cnt), Top(s0);
    ExitBytes(cnt, 13 + 7 * cnt);
    StepLoad(code, callee, s, EAX, EBP, top - 8);
    var s1 := s.(regs := s.regs[EAX := Load(s.mem, top - 8)], ip := 32 + 7 * cnt);
    StepMove(code, callee, s1, ESP, EBP);
    var s2 := s1.(regs := s1.regs[ESP := top - 4], ip := 34 + 7 * cnt);
    StepPop(code, callee, s2, EBP);
    var s3 := s2.(regs := s2.regs[ESP := top][EBP := Load(s.mem, top - 4)], ip := 35 + 7 * cnt);
    StepRet(code, callee, s3);
    RunNext(code, callee, s, 3);
    RunNext(code, callee, s1, 2);
    RunNext(code, callee, s2, 1);
    RunNext(code, callee, s3, 0);
  }

  lemma ClearResult(cnt: nat, callee: Callee, s0: State, s: State)
    requires Entry(cnt, s0) && Framed(s0, s) && s.ip == 22 + 7 * cnt
    ensures var t := Run(Stub(cnt), callee, s, 1);
            Framed(s0, t) && t.ip == 29 + 7 * cnt && Load(t.mem, Top(s0) - 8) == 0 && t.calls == s.calls
  {
    hide Step, Stub, Encodes;
    ResultBytes(cnt, 13 + 7 * cnt);
    StepClear(Stub(cnt), callee, s, EBP, Top(s0) - 8);
    RunNext(Stub(cnt), callee, s, 0);
  }

  /** A null block: nothing is called and the thread returns 0. */
  lemma NullBlockReturnsZero(cnt: nat, callee: Callee, s0: State)
    requires Entry(cnt, s0) && 12 + 7 * cnt <= 127 && Block(s0) == 0
    ensures var t := Run(Stub(cnt), callee, s0, 10);
            && t.status == Returned(Load(s0.mem, Top(s0))) && t.regs[EAX] == 0 && t.calls == []
            && t.regs[ESP] == Top(s0) + 4 && t.regs[EBP] == s0.regs[EBP]
            && t.regs[3] == s0.regs[3] && t.regs[6] == s0.regs[6] && t.regs[7] == s0.regs[7]
  {
    hide Run, Stub, Framed, Load;
    var code, s := Stub(cnt), Tested(cnt, s0);
    Enter(cnt, callee, s0);
    ClearResult(cnt, callee, s0, s);
    Leave(cnt, callee, s0, Run(code, callee, s, 1));
    RunSplit(code, callee, s0, 5, 1);
    RunSplit(code, callee, s0, 6, 4);
  }

  /** With 17 arguments a null block sends the thread to 115 bytes in front of the stub. */
  lemma SeventeenJumpAway(callee: Callee, s0: State)
    requires Entry(17, s0) && Block(s0) == 0
    ensures var t := Run(Stub(17), callee, s0, 5); t.status == Running && t.ip == -115
  {
    hide Step, Stub, Encodes;
    var code, top, s3 := Stub(17), Top(s0), Pushed(s0);
    PrologueBytes(17);
    assert Sign8(At(code, 9)) == -125 by { StubStart(17); }
    PushFrame(17, callee, s0);
    StepCompare(code, callee, s3, EBP, top + 4);
    var s4 := s3.(zero := true, ip := 8);
    StepJump(code, callee, s4);
    RunNext(code, callee, s3, 1);
    RunNext(code, callee, s4, 0);
    RunSplit(code, callee, s0, 3, 2);
  }

  // ---------- the argument pushes ----------

  /** The register that holds the block's address before push i. */
  function Base(i: nat): nat { if i % 3 == 0 then EAX else if i % 3 == 1 then EDX else ECX }

  /** The register that push i goes through, and that the call goes through after the last push. */
  function Via(i: nat): nat { if i % 3 == 0 then ECX else if i % 3 == 1 then EAX else EDX }

  predicate BlockIntact(cnt: nat, s0: State, mem: Memory)
    requires Wf(s0)
  {
    Load(mem, Top(s0) + 4) == Block(s0) && forall k :: 0 <= k <= cnt ==> Load(mem, Block(s0) + 4 * k) == Word(s0, k)
  }

  lemma WordIntact(cnt: nat, s0: State, mem: Memory, k: nat)
    requires Wf(s0) && BlockIntact(cnt, s0, mem) && k <= cnt
    ensures Load(mem, Block(s0) + 4 * k) == Word(s0, k) && Load(mem, Top(s0) + 4) == Block(s0)
  {
  }

  /** Block words cnt, cnt-1, ... have been pushed in that order. */
  predicate ArgumentsPushed(cnt: nat, s0: State, mem: Memory, i: nat)
    requires Wf(s0)
  {
    forall j :: 0 <= j < i ==> Load(mem, Top(s0) - 12 - 4 * j) == Word(s0, cnt - j)
  }

  /** The state in front of push i, written out from the entry on. */
  function Before(cnt: nat, s0: State, i: nat): (s: State)
    requires Wf(s0)
    ensures Wf(s)
  {
    if i == 0 then Tested(cnt, s0).(regs := Pushed(s0).regs[EAX := Block(s0)], ip := 13)
    else
      var s, word := Before(cnt, s0, i - 1), Word(s0, cnt - (i - 1));
      var esp := Top(s0) - 8 - 4 * i;
      s.(regs := s.regs[Via(i - 1) := word][ESP := esp][Base(i) := Block(s0)], mem := s.mem[esp := word], ip := 13 + 7 * i)
  }

  /** The stub has come to that state, and it is in order. */
  predicate BeforePush(cnt: nat, s0: State, s: State, i: nat)
    requires Wf(s0)
  {
    && Framed(s0, s) && s.ip == 13 + 7 * i && s.calls == [] && s == Before(cnt, s0, i)
    && s.regs[Base(i)] == Block(s0) && s.regs[ESP] == Top(s0) - 8 - 4 * i
    && BlockIntact(cnt, s0, s.mem) && ArgumentsPushed(cnt, s0, s.mem, i)
  }

  lemma PushByte(cnt: nat, i: nat, x: int)
    requires i < cnt && 4 * cnt <= 127 && x == 13 + 7 * i
    ensures var code, p := Stub(cnt), PushTemplate(i);
            && At(code, x) == p[0] && At(code, x + 1) == p[1] && At(code, x + 2) as int == 4 * (cnt - i)
            && At(code, x + 3) == p[3] && At(code, x + 4) == p[4] && At(code, x + 5) == p[5] && At(code, x + 6) == p[6]
  {
    hide Stub, PushTemplate;
    StubAtPush(cnt, i, 0);
    StubAtPush(cnt, i, 1);
    StubAtPush(cnt, i, 2);
    StubAtPush(cnt, i, 3);
    StubAtPush(cnt, i, 4);
    StubAtPush(cnt, i, 5);
    StubAtPush(cnt, i, 6);
  }

  lemma PushBytes(cnt: nat, i: nat, x: int)
    requires i < cnt && 4 * cnt <= 127 && x == 13 + 7 * i
    ensures var code := Stub(cnt);
            && At(code, x) == 0x8B && Encodes(At(code, x + 1), 1, Via(i), Base(i)) && Sign8(At(code, x + 2)) == 4 * (cnt - i)
            && At(code, x + 3) as int == 0x50 + Via(i)
            && At(code, x + 4) == 0x8B && Encodes(At(code, x + 5), 1, Base(i + 1), EBP) && Sign8(At(code, x + 6)) == 8
  {
    hide Stub;
    PushByte(cnt, i, x);
  }

  /** A push writes below everything that matters. */
  lemma PushKeepsBlock(cnt: nat, s0: State, mem: Memory, i: nat)
    requires Entry(cnt, s0) && Block(s0) != 0 && i < cnt && BlockIntact(cnt, s0, mem) && ArgumentsPushed(cnt, s0, mem, i)
    ensures var m := mem[Top(s0) - 12 - 4 * i := Word(s0, cnt - i)];
            BlockIntact(cnt, s0, m) && ArgumentsPushed(cnt, s0, m, i + 1)
            && Load(m, Top(s0) - 4) == Load(mem, Top(s0) - 4) && Load(m, Top(s0)) == Load(mem, Top(s0))
  {
  }

  lemma BeforeNext(cnt: nat, s0: State, i: nat)
    requires Wf(s0)
    ensures var s, word, esp := Before(cnt, s0, i), Word(s0, cnt - i), Top(s0) - 12 - 4 * i;
            Before(cnt, s0, i + 1)
            == s.(regs := s.regs[Via(i) := word][ESP := esp][Base(i + 1) := Block(s0)],
                  mem := s.mem[esp := word], ip := 20 + 7 * i)
  {
  }

  lemma PushOne(cnt: nat, callee: Callee, s0: State, s: State, i: nat)
    requires Entry(cnt, s0) && Block(s0) != 0 && 4 * cnt <= 127 && i < cnt && BeforePush(cnt, s0, s, i)
    ensures BeforePush(cnt, s0, Run(Stub(cnt), callee, s, 3), i + 1)
  {
    hide Step, Stub, Encodes, Load, Sign8, BlockIntact, ArgumentsPushed, Before;
    var code, x, top := Stub(cnt), 13 + 7 * i, Top(s0);
    PushBytes(cnt, i, x);
    WordIntact(cnt, s0, s.mem, cnt - i);
    StepLoad(code, callee, s, Via(i), Base(i), Block(s0) + 4 * (cnt - i));
    var s1 := s.(regs := s.regs[Via(i) := Word(s0, cnt - i)], ip := x + 3);
    StepPush(code, callee, s1, Via(i));
    var s2 := s1.(regs := s1.regs[ESP := top - 12 - 4 * i], mem := s.mem[top - 12 - 4 * i := Word(s0, cnt - i)], ip := x + 4);
    PushKeepsBlock(cnt, s0, s.mem, i);
    WordIntact(cnt, s0, s2.mem, 0);
    StepLoad(code, callee, s2, Base(i + 1), EBP, top + 4);
    BeforeNext(cnt, s0, i);
    RunNext(code, callee, s, 2);
    RunNext(code, callee, s1, 1);
    RunNext(code, callee, s2, 0);
  }

  lemma {:induction false} PushAll(cnt: nat, callee: Callee, s0: State, s: State, i: nat)
    requires Entry(cnt, s0) && Block(s0) != 0 && 4 * cnt <= 127 && i <= cnt && Wf(s) && BeforePush(cnt, s0, s, 0)
    ensures BeforePush(cnt, s0, Run(Stub(cnt), callee, s, 3 * i), i)
    decreases i
  {
    hide Stub, Run, BeforePush;
    if i == 0 {
      RunNone(Stub(cnt), callee, s);
    } else {
      PushAll(cnt, callee, s0, s, i - 1);
      PushOne(cnt, callee, s0, Run(Stub(cnt), callee, s, 3 * (i - 1)), i - 1);
      RunSplit(Stub(cnt), callee, s, 3 * (i - 1), 3);
    }
  }

  lemma RunNone(code: seq<byte>, callee: Callee, s: State)
    requires Wf(s)
    ensures Run(code, callee, s, 0) == s
  {
  }

  // ---------- the call ----------

  lemma CallBytes(cnt: nat, x: int)
    requires x == 13 + 7 * cnt
    ensures var code := Stub(cnt);
            && At(code, x) == 0x8B && Encodes(At(code, x + 1), 0, Via(cnt), Base(cnt))
            && At(code, x + 2) == 0xFF && Encodes(At(code, x + 3), 3, 2, Via(cnt))
  {
    hide Stub;
    StubAtEnd(cnt, 0);
    StubAtEnd(cnt, 1);
    StubAtEnd(cnt, 2);
    StubAtEnd(cnt, 3);
  }

  /** The one call of the stub, determined by the state at entry. */
  function TheCall(cnt: nat, s0: State): (c: Call)
    requires Wf(s0)
    ensures |c.regs| == 8
  {
    var s := Before(cnt, s0, cnt);
    AtCall(s.(regs := s.regs[Via(cnt) := Word(s0, 0)], ip := 15 + 7 * cnt), Via(cnt))
  }

  /** Block word 0 with words 1..cnt as its arguments, the first right above the return address. */
  predicate CallsTarget(cnt: nat, s0: State, c: Call)
    requires Wf(s0)
  {
    && |c.regs| == 8 && c.regs[EBP] == Top(s0) - 4 && c.regs[ESP] == Top(s0) - 12 - 4 * cnt && c.target == Word(s0, 0)
    && Load(c.mem, c.regs[ESP]) == 17 + 7 * cnt
    && forall k :: 0 <= k < cnt ==> Load(c.mem, c.regs[ESP] + 4 + 4 * k) == Word(s0, k + 1)
  }

  /** What the stub needs of what its callee leaves: saved registers, saved ebp and return address as they were. */
  predicate Keeps(s0: State, c: Call, e: Effect)
    requires Wf(s0) && |c.regs| == 8
  {
    && |e.regs| == 8 && e.regs[EBP] == c.regs[EBP]
    && e.regs[3] == c.regs[3] && e.regs[6] == c.regs[6] && e.regs[7] == c.regs[7]
    && Load(e.mem, Top(s0) - 4) == Load(c.mem, Top(s0) - 4) && Load(e.mem, Top(s0)) == Load(c.mem, Top(s0))
  }

  /** The callee does so in the one call the stub makes; all else, and every other call, is up to it. */
  predicate Honours(cnt: nat, s0: State, callee: Callee)
    requires Wf(s0)
  {
    var c := TheCall(cnt, s0);
    Keeps(s0, c, callee(c.target, c.regs, c.mem))
  }

  lemma ArgumentOrder(cnt: nat, s0: State, mem: Memory, k: nat)
    requires Wf(s0) && ArgumentsPushed(cnt, s0, mem, cnt) && k < cnt
    ensures Load(mem, Top(s0) - 8 - 4 * cnt + 4 * k) == Word(s0, k + 1)
  {
    var j := cnt - 1 - k;
    assert Load(mem, Top(s0) - 12 - 4 * j) == Word(s0, cnt - j);
    assert Top(s0) - 12 - 4 * j == Top(s0) - 8 - 4 * cnt + 4 * k;
  }

  /** The result of the one call. */
  function Result(callee: Callee, c: Call): int
  {
    var e := callee(c.target, c.regs, c.mem);
    if |e.regs| == 8 then e.regs[EAX] else 0
  }

  /** Below the arguments there is room for the return address. */
  lemma PushKeepsArguments(cnt: nat, s0: State, mem: Memory, next: int, k: nat)
    requires Entry(cnt, s0) && ArgumentsPushed(cnt, s0, mem, cnt) && k < cnt
    ensures Load(mem[Top(s0) - 12 - 4 * cnt := next], Top(s0) - 8 - 4 * cnt + 4 * k) == Word(s0, k + 1)
  {
    ArgumentOrder(cnt, s0, mem, k);
  }

  lemma TheCallParts(cnt: nat, s0: State)
    requires Wf(s0) && BeforePush(cnt, s0, Before(cnt, s0, cnt), cnt)
    ensures var c, mem := TheCall(cnt, s0), Before(cnt, s0, cnt).mem;
            && c.regs[EBP] == Top(s0) - 4 && c.regs[ESP] == Top(s0) - 12 - 4 * cnt && c.target == Word(s0, 0)
            && c.mem == mem[Top(s0) - 12 - 4 * cnt := 17 + 7 * cnt] && ArgumentsPushed(cnt, s0, mem, cnt)
  {
    hide Before, Load, BlockIntact, ArgumentsPushed;
  }

  lemma CallDescribed(cnt: nat, s0: State, c: Call, mem: Memory)
    requires Entry(cnt, s0) && ArgumentsPushed(cnt, s0, mem, cnt) && |c.regs| == 8 && c.target == Word(s0, 0)
    requires c.regs[EBP] == Top(s0) - 4 && c.regs[ESP] == Top(s0) - 12 - 4 * cnt
    requires c.mem == mem[Top(s0) - 12 - 4 * cnt := 17 + 7 * cnt]
    ensures CallsTarget(cnt, s0, c)
  {
    assert Load(c.mem, c.regs[ESP]) == 17 + 7 * cnt;
    hide Load, Entry, ArgumentsPushed, Word;
    forall k | 0 <= k < cnt
      ensures Load(c.mem, c.regs[ESP] + 4 + 4 * k) == Word(s0, k + 1)
    {
      PushKeepsArguments(cnt, s0, mem, 17 + 7 * cnt, k);
      assert c.regs[ESP] + 4 + 4 * k == Top(s0) - 8 - 4 * cnt + 4 * k;
    }
  }

  /** From the state behind the pushes, the call is made as described. */
  lemma TheCallIs(cnt: nat, s0: State)
    requires Entry(cnt, s0) && BeforePush(cnt, s0, Before(cnt, s0, cnt), cnt)
    ensures CallsTarget(cnt, s0, TheCall(cnt, s0))
  {
    assert Wf(s0);
    hide Entry, ArgumentsPushed, Word, Before, TheCall, BeforePush, CallsTarget, Load;
    TheCallParts(cnt, s0);
    CallDescribed(cnt, s0, TheCall(cnt, s0), Before(cnt, s0, cnt).mem);
  }

  /** The call comes second behind the pushes, whatever the callee then does. */
  lemma CallsNext(cnt: nat, callee: Callee, s0: State, s: State)
    requires Entry(cnt, s0) && Block(s0) != 0 && BeforePush(cnt, s0, s, cnt)
    ensures Run(Stub(cnt), callee, s, 2).calls == [TheCall(cnt, s0)]
  {
    hide Step, Stub, Encodes, ArgumentsPushed, Before;
    var code, x := Stub(cnt), 13 + 7 * cnt;
    CallBytes(cnt, x);
    StepLoadPlain(code, callee, s, Via(cnt), Base(cnt));
    assert Load(s.mem, Block(s0) + 4 * 0) == Word(s0, 0);
    var s1 := s.(regs := s.regs[Via(cnt) := Word(s0, 0)], ip := x + 2);
    StepCalls(code, callee, s1, Via(cnt));
    RunNext(code, callee, s, 1);
    RunNext(code, callee, s1, 0);
  }

  lemma MakeCall(cnt: nat, callee: Callee, s0: State, s: State)
    requires Entry(cnt, s0) && Block(s0) != 0 && Honours(cnt, s0, callee) && BeforePush(cnt, s0, s, cnt)
    ensures var t, c := Run(Stub(cnt), callee, s, 2), TheCall(cnt, s0);
            && Framed(s0, t) && t.ip == 17 + 7 * cnt && t.calls == [c] && CallsTarget(cnt, s0, c)
            && t.regs[EAX] == Result(callee, c)
  {
    hide Step, Stub, Encodes, CallsTarget, ArgumentsPushed, Before;
    var code, x := Stub(cnt), 13 + 7 * cnt;
    CallBytes(cnt, x);
    StepLoadPlain(code, callee, s, Via(cnt), Base(cnt));
    assert Load(s.mem, Block(s0) + 4 * 0) == Word(s0, 0);
    var s1 := s.(regs := s.regs[Via(cnt) := Word(s0, 0)], ip := x + 2);
    assert AtCall(s1, Via(cnt)) == TheCall(cnt, s0);
    TheCallIs(cnt, s0);
    StepCall(code, callee, s1, Via(cnt));
    RunNext(code, callee, s, 1);
    RunNext(code, callee, s1, 0);
  }

  /** The result goes to the local, and the zero store is jumped over. */
  lemma KeepResult(cnt: nat, callee: Callee, s0: State, s: State)
    requires Entry(cnt, s0) && Framed(s0, s) && s.ip == 17 + 7 * cnt
    ensures var t := Run(Stub(cnt), callee, s, 2);
            Framed(s0, t) && t.ip == 29 + 7 * cnt && Load(t.mem, Top(s0) - 8) == s.regs[EAX] && t.calls == s.calls
  {
    hide Step, Stub, Encodes;
    var code, x, top := Stub(cnt), 13 + 7 * cnt, Top(s0);
    ResultBytes(cnt, x);
    StepStore(code, callee, s, EAX, EBP, top - 8);
    var s1 := s.(mem := s.mem[top - 8 := s.regs[EAX]], ip := x + 7);
    StepJump(code, callee, s1);
    RunNext(code, callee, s, 1);
    RunNext(code, callee, s1, 0);
  }

  lemma LoadBlock(cnt: nat, callee: Callee, s0: State)
    requires Entry(cnt, s0) && Block(s0) != 0
    ensures BeforePush(cnt, s0, Run(Stub(cnt), callee, s0, 6), 0)
  {
    hide Step, Stub, Encodes;
    var code, s := Stub(cnt), Tested(cnt, s0);
    Enter(cnt, callee, s0);
    PrologueBytes(cnt);
    StepLoad(code, callee, s, EAX, EBP, Top(s0) + 4);
    RunNext(code, callee, s, 0);
    RunSplit(code, callee, s0, 5, 1);
  }

  lemma ComesToCall(cnt: nat, callee: Callee, s0: State)
    requires Entry(cnt, s0) && 4 * cnt <= 127 && Block(s0) != 0
    ensures BeforePush(cnt, s0, Run(Stub(cnt), callee, s0, 6 + 3 * cnt), cnt)
  {
    hide Stub, Run, BeforePush;
    LoadBlock(cnt, callee, s0);
    PushAll(cnt, callee, s0, Run(Stub(cnt), callee, s0, 6), cnt);
    RunSplit(Stub(cnt), callee, s0, 6, 3 * cnt);
  }

  /** A block: its function is called with its arguments in order, whatever the callee then does. */
  lemma CallIsMade(cnt: nat, callee: Callee, s0: State)
    requires Entry(cnt, s0) && 4 * cnt <= 127 && Block(s0) != 0
    ensures Run(Stub(cnt), callee, s0, 8 + 3 * cnt).calls == [TheCall(cnt, s0)] && CallsTarget(cnt, s0, TheCall(cnt, s0))
  {
    ComesToCall(cnt, callee, s0);
    var s := Run(Stub(cnt), callee, s0, 6 + 3 * cnt);
    assert s == Before(cnt, s0, cnt);
    hide Stub, Run, BeforePush, CallsTarget, TheCall, Before;
    CallsNext(cnt, callee, s0, s);
    TheCallIs(cnt, s0);
    RunSplit(Stub(cnt), callee, s0, 6 + 3 * cnt, 2);
  }

  /** When the callee keeps registers and frame in that call, its result is returned, and it was the only call. */
  lemma BlockIsCalled(cnt: nat, callee: Callee, s0: State)
    requires Entry(cnt, s0) && 4 * cnt <= 127 && Block(s0) != 0 && Honours(cnt, s0, callee)
    ensures var t, c := Run(Stub(cnt), callee, s0, 14 + 3 * cnt), TheCall(cnt, s0);
            && t.status == Returned(Load(s0.mem, Top(s0)))
            && t.calls == [c] && CallsTarget(cnt, s0, c) && t.regs[EAX] == Result(callee, c)
            && t.regs[ESP] == Top(s0) + 4 && t.regs[EBP] == s0.regs[EBP]
            && t.regs[3] == s0.regs[3] && t.regs[6] == s0.regs[6] && t.regs[7] == s0.regs[7]
  {
    hide Stub, Run, BeforePush, Honours, Framed, CallsTarget, TheCall;
    var code := Stub(cnt);
    ComesToCall(cnt, callee, s0);
    var s2 := Run(code, callee, s0, 6 + 3 * cnt);
    MakeCall(cnt, callee, s0, s2);
    var s3 := Run(code, callee, s2, 2);
    KeepResult(cnt, callee, s0, s3);
    var s4 := Run(code, callee, s3, 2);
    Leave(cnt, callee, s0, s4);
    RunSplit(code, callee, s0, 6 + 3 * cnt, 2);
    RunSplit(code, callee, s0, 8 + 3 * cnt, 2);
    RunSplit(code, callee, s0, 10 + 3 * cnt, 4);
  }

  // ---------- callees that write memory ----------

  /** The stub has written nothing outside its stack when it calls. */
  lemma {:induction false} BeforeElsewhere(cnt: nat, s0: State, i: nat, a: int)
    requires Entry(cnt, s0) && i <= cnt && (a < Top(s0) - 8 - 4 * i || Top(s0) <= a)
    ensures Load(Before(cnt, s0, i).mem, a) == Load(s0.mem, a)
    decreases i
  {
    if i > 0 {
      BeforeElsewhere(cnt, s0, i - 1, a);
    }
  }

  lemma CallElsewhere(cnt: nat, s0: State, a: int)
    requires Entry(cnt, s0) && (a < Top(s0) - 12 - 4 * cnt || Top(s0) <= a)
    ensures Load(TheCall(cnt, s0).mem, a) == Load(s0.mem, a)
  {
    BeforeElsewhere(cnt, s0, cnt, a);
  }

  /** A callee that uses its stack and stores its result through a pointer: its first argument, or a global variable. */
  function Storing(global: int, result: int): Callee {
    (target: int, regs: seq<int>, mem: Memory) =>
      if |regs| != 8 then Effect(regs, mem)
      else
        var out := Load(mem, if global == 0 then regs[ESP] + 4 else global);
        Effect(regs[EAX := result][ESP := regs[ESP] + 4], mem[regs[ESP] - 4 := target][regs[ESP] := 0][out := result])
  }

  /** It keeps the frame unless the pointer points there. */
  lemma StoringKeeps(cnt: nat, s0: State, c: Call, global: int, result: int)
    requires Wf(s0) && CallsTarget(cnt, s0, c)
    requires var out := Load(c.mem, if global == 0 then c.regs[ESP] + 4 else global); out != Top(s0) - 4 && out != Top(s0)
    ensures var e := Storing(global, result)(c.target, c.regs, c.mem); Keeps(s0, c, e) && e.regs[EAX] == result
  {
  }

  lemma FirstArgument(cnt: nat, s0: State, c: Call)
    requires Wf(s0) && CallsTarget(cnt, s0, c) && 1 <= cnt
    ensures Load(c.mem, c.regs[ESP] + 4) == Word(s0, 1)
  {
    assert Load(c.mem, c.regs[ESP] + 4 + 4 * 0) == Word(s0, 1);
  }

  /** The stub returns its result, wherever the first argument really points outside the stub's frame. */
  lemma OutParamIsCalled(cnt: nat, s0: State, result: int)
    requires Entry(cnt, s0) && 1 <= cnt && 4 * cnt <= 127 && Block(s0) != 0
    requires Word(s0, 1) != Top(s0) - 4 && Word(s0, 1) != Top(s0)
    ensures Honours(cnt, s0, Storing(0, result))
    ensures Run(Stub(cnt), Storing(0, result), s0, 14 + 3 * cnt).regs[EAX] == result
  {
    assert Wf(s0);
    hide Run, Stub, Entry, TheCall, CallsTarget, Storing, Keeps, Load;
    var callee, c := Storing(0, result), TheCall(cnt, s0);
    CallIsMade(cnt, callee, s0);
    FirstArgument(cnt, s0, c);
    StoringKeeps(cnt, s0, c, 0, result);
    BlockIsCalled(cnt, callee, s0);
  }

  /** So it does for a pointer in memory that the stub does not write over. */
  lemma GlobalIsCalled(cnt: nat, s0: State, global: int, result: int)
    requires Entry(cnt, s0) && 4 * cnt <= 127 && Block(s0) != 0 && global != 0
    requires global < Top(s0) - 12 - 4 * cnt || Top(s0) <= global
    requires Load(s0.mem, global) != Top(s0) - 4 && Load(s0.mem, global) != Top(s0)
    ensures Honours(cnt, s0, Storing(global, result))
    ensures Run(Stub(cnt), Storing(global, result), s0, 14 + 3 * cnt).regs[EAX] == result
  {
    assert Wf(s0);
    hide Run, Stub, Entry, TheCall, CallsTarget, Storing, Keeps, Load;
    var callee, c := Storing(global, result), TheCall(cnt, s0);
    CallIsMade(cnt, callee, s0);
    CallElsewhere(cnt, s0, global);
    StoringKeeps(cnt, s0, c, global, result);
    BlockIsCalled(cnt, callee, s0);
  }
}
