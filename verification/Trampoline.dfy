/**
stub_trampoline, instruction by instruction, on a model of the processor with fifteen general
registers, a stack pointer, memory in 8-byte words and the counter of threads inside the stub.
`stub` is any function on machine states that keeps to the calling convention.
 */
module Trampoline {
  import opened CallRel32
  import opened Lists
  import opened Words

  datatype Reg = RAX | RBX | RCX | RDX | RSI | RDI | RBP | R8 | R9 | R10 | R11 | R12 | R13 | R14 | R15

  datatype Pc = At(i: nat)                    // in the trampoline
              | Outside(addr: int)           // anywhere else

  /** Memory is read and written at the addresses `rsp + 8k` only. */
  datatype Machine = Machine(reg: Reg -> int, rsp: int, mem: int -> int, zf: bool, counter: int, pc: Pc)

  datatype Instr =
    | LockInc | LockDec                       // of sysThrot_stub_counter
    | Push(r: Reg) | Pop(r: Reg)
    | CallStub
    | Mov(src: Reg, dst: Reg)
    | Test(r: Reg)
    | Jz(target: nat)
    | AddRsp8
    | Ret

  function Code(): seq<Instr> {
    [
      LockInc,
      Push(RBX), Push(RAX), Push(RDI), Push(RSI), Push(RDX), Push(RCX), Push(R11), Push(R10), Push(R9), Push(R8),
      CallStub,
      Mov(RAX, RBX),
      Pop(R8), Pop(R9), Pop(R10), Pop(R11), Pop(RCX), Pop(RDX), Pop(RSI), Pop(RDI), Pop(RAX),
      Test(RBX),
      Jz(29),
      Mov(RBX, RAX), Pop(RBX), AddRsp8, LockDec, Ret,
      Pop(RBX), LockDec, Ret]
  }

  function SetReg(m: Machine, r: Reg, v: int): Machine { m.(reg := x => if x == r then v else m.reg(x)) }

  function Store(m: Machine, a: int, v: int): Machine { m.(mem := x => if x == a then v else m.mem(x)) }

  function Exec(m: Machine, i: Instr, stub: Machine -> Machine): Machine {
    match i
    case LockInc => m.(counter := m.counter + 1)
    case LockDec => m.(counter := m.counter - 1)
    case Push(r) => Store(m, m.rsp - 8, m.reg(r)).(rsp := m.rsp - 8)
    case Pop(r) => SetReg(m, r, m.mem(m.rsp)).(rsp := m.rsp + 8)
    case CallStub => stub(m)
    case Mov(src, dst) => SetReg(m, dst, m.reg(src))
    case Test(r) => m.(zf := m.reg(r) == 0)
    case AddRsp8 => m.(rsp := m.rsp + 8)
    case Jz(_) => m
    case Ret => m.(rsp := m.rsp + 8)
  }

  function NextPc(m: Machine, k: nat, i: Instr): Pc {
    match i
    case Jz(target) => if m.zf then At(target) else At(k + 1)
    case Ret => Outside(m.mem(m.rsp))
    case _ => At(k + 1)
  }

  function Step(m: Machine, stub: Machine -> Machine): Machine {
    if m.pc.At? && m.pc.i < |Code()|
    then Exec(m, Code()[m.pc.i], stub).(pc := NextPc(m, m.pc.i, Code()[m.pc.i]))
    else m
  }

  function Steps(m: Machine, stub: Machine -> Machine, n: nat): Machine
    decreases n
  {
    if n == 0 then m else Steps(Step(m, stub), stub, n - 1)
  }

  lemma StepsFirst(m: Machine, stub: Machine -> Machine, n: nat)
    ensures Steps(m, stub, n + 1) == Steps(Step(m, stub), stub, n) && Steps(m, stub, 0) == m
  {}

  lemma {:induction false} StepsAdd(m: Machine, stub: Machine -> Machine, a: nat, b: nat)
    ensures Steps(m, stub, a + b) == Steps(Steps(m, stub, a), stub, b)
    decreases a
  {
    if a > 0 {
      StepsAdd(Step(m, stub), stub, a - 1, b);
    }
  }

  // ---------------------------------------------------------------------------------------
  // Runs of pushes and pops

  /** Instructions `k`, `k + 1`, … push the registers `rs` in turn. */
  ghost predicate PushesAt(k: nat, rs: seq<Reg>) {
    k + |rs| <= |Code()| && forall j :: k <= j < k + |rs| ==> Code()[j] == Push(rs[j - k])
  }

  ghost predicate PopsAt(k: nat, rs: seq<Reg>) {
    k + |rs| <= |Code()| && forall j :: k <= j < k + |rs| ==> Code()[j] == Pop(rs[j - k])
  }

  /** Only the stack below the stack pointer changes, and it holds the registers. */
  ghost predicate Pushed(m: Machine, m': Machine, rs: seq<Reg>) {
    && m'.reg == m.reg && m'.counter == m.counter && m'.rsp == m.rsp - 8 * |rs|
    && (forall a :: a >= m.rsp ==> m'.mem(a) == m.mem(a))
    && (forall i :: 0 <= i < |rs| ==> m'.mem(m.rsp - 8 * (i + 1)) == m.reg(rs[i]))
  }

  lemma {:induction false} RunPushes(m: Machine, stub: Machine -> Machine, k: nat, rs: seq<Reg>)
    requires m.pc == At(k) && PushesAt(k, rs)
    ensures var m' := Steps(m, stub, |rs|); Pushed(m, m', rs) && m'.pc == At(k + |rs|)
    decreases |rs|
  {
    hide Code;
    if rs != [] {
      var m1 := Step(m, stub);
      assert m1 == Store(m, m.rsp - 8, m.reg(rs[0])).(rsp := m.rsp - 8, pc := At(k + 1));
      RunPushes(m1, stub, k + 1, rs[1..]);
      PushedMore(m, m1, Steps(m1, stub, |rs| - 1), rs);
    }
  }

  lemma PushedMore(m: Machine, m1: Machine, m': Machine, rs: seq<Reg>)
    requires rs != [] && Pushed(m, m1, rs[..1]) && Pushed(m1, m', rs[1..])
    ensures Pushed(m, m', rs)
  {
    forall i | 0 <= i < |rs| ensures m'.mem(m.rsp - 8 * (i + 1)) == m.reg(rs[i]) {
      if i == 0 {
        assert m1.mem(m.rsp - 8 * (0 + 1)) == m.reg(rs[..1][0]);
      } else {
        assert m'.mem(m1.rsp - 8 * ((i - 1) + 1)) == m1.reg(rs[1..][i - 1]);
      }
    }
  }

  ghost predicate Popped(m: Machine, m': Machine, rs: seq<Reg>) {
    && m'.mem == m.mem && m'.counter == m.counter && m'.rsp == m.rsp + 8 * |rs|
    && (forall r :: r !in rs ==> m'.reg(r) == m.reg(r))
    && (forall i :: 0 <= i < |rs| ==> m'.reg(rs[i]) == m.mem(m.rsp + 8 * i))
  }

  lemma {:induction false} RunPops(m: Machine, stub: Machine -> Machine, k: nat, rs: seq<Reg>)
    requires m.pc == At(k) && PopsAt(k, rs) && NoDup(rs)
    ensures var m' := Steps(m, stub, |rs|); Popped(m, m', rs) && m'.pc == At(k + |rs|)
    decreases |rs|
  {
    hide Code;
    if rs != [] {
      var m1 := Step(m, stub);
      assert m1 == SetReg(m, rs[0], m.mem(m.rsp)).(rsp := m.rsp + 8, pc := At(k + 1));
      RunPops(m1, stub, k + 1, rs[1..]);
      PoppedMore(m, m1, Steps(m1, stub, |rs| - 1), rs);
    }
  }

  lemma PoppedMore(m: Machine, m1: Machine, m': Machine, rs: seq<Reg>)
    requires rs != [] && NoDup(rs) && Popped(m, m1, rs[..1]) && Popped(m1, m', rs[1..])
    ensures Popped(m, m', rs)
  {
    forall i | 0 <= i < |rs| ensures m'.reg(rs[i]) == m.mem(m.rsp + 8 * i) {
      if i == 0 {
        assert m1.reg(rs[..1][0]) == m.mem(m.rsp + 8 * 0);
      } else {
        assert m'.reg(rs[1..][i - 1]) == m1.mem(m1.rsp + 8 * (i - 1));
      }
    }
  }

  // ---------------------------------------------------------------------------------------
  // The whole trampoline

  function Saved(): seq<Reg> { [RBX, RAX, RDI, RSI, RDX, RCX, R11, R10, R9, R8] }

  function Restored(): seq<Reg> { [R8, R9, R10, R11, RCX, RDX, RSI, RDI, RAX] }

  predicate CalleeSaved(r: Reg) { r.RBX? || r.RBP? || r.R12? || r.R13? || r.R14? || r.R15? }

  const CALL := 11                            // the position of `call stub`
  const FRAME := 96                           // ten saved registers and two return addresses

  lemma PushLayout()
    ensures |Saved()| == 10 && PushesAt(1, Saved())
  {}

  lemma PopLayout()
    ensures |Restored()| == 9 && PopsAt(13, Restored()) && NoDup(Restored())
    ensures forall r :: r in Restored() <==> !CalleeSaved(r)
  {}

  lemma CodeLayout()
    ensures |Code()| == 32
    ensures Code()[0] == LockInc && Code()[CALL] == CallStub && Code()[12] == Mov(RAX, RBX)
    ensures Code()[22] == Test(RBX) && Code()[23] == Jz(29)
    ensures Code()[24] == Mov(RBX, RAX) && Code()[25] == Pop(RBX) && Code()[26] == AddRsp8
    ensures Code()[27] == LockDec && Code()[28] == Ret
    ensures Code()[29] == Pop(RBX) && Code()[30] == LockDec && Code()[31] == Ret
  {}

  /** What the calling convention lets a function do: the frame of its caller and six registers survive. */
  ghost predicate Conforms(before: Machine, after: Machine) {
    && after.rsp == before.rsp
    && (forall r :: CalleeSaved(r) ==> after.reg(r) == before.reg(r))
    && (forall a :: before.rsp <= a < before.rsp + FRAME ==> after.mem(a) == before.mem(a))
  }

  /** When the stub is called the wrapper's registers are all in place and saved, and the thread is counted. */
  lemma RunToCall(m: Machine, stub: Machine -> Machine)
    requires m.pc == At(0)
    ensures var call := Steps(m, stub, CALL);
      call.pc == At(CALL) && call.counter == m.counter + 1 && Pushed(m.(counter := m.counter + 1), call, Saved())
  {
    hide Code, Pushed, Steps, Saved, PushesAt;
    CodeLayout();
    PushLayout();
    var m1 := Step(m, stub);
    StepsFirst(m, stub, 10);
    RunPushes(m1, stub, 1, Saved());
    PushedIgnoresPc(m.(counter := m.counter + 1), m1, Steps(m1, stub, 10), Saved());
  }

  lemma PushedIgnoresPc(m: Machine, m1: Machine, m': Machine, rs: seq<Reg>)
    requires m1 == m.(pc := m1.pc) && Pushed(m1, m', rs)
    ensures Pushed(m, m', rs) && m'.counter == m.counter
  {}

  /** After the stub's return: the registers come back, except that rbx holds the result. */
  lemma RunToTest(m: Machine, stub: Machine -> Machine)
    requires m.pc == At(12)
    ensures var b := Steps(m, stub, 10);
      && b.pc == At(22) && Popped(SetReg(m, RBX, m.reg(RAX)), b, Restored())
  {
    hide Code, Restored, Popped, PopsAt, NoDup, Steps;
    CodeLayout();
    PopLayout();
    var m1 := Step(m, stub);
    StepsFirst(m, stub, 9);
    RunPops(m1, stub, 13, Restored());
    PoppedIgnoresPc(SetReg(m, RBX, m.reg(RAX)), m1, Steps(m1, stub, 9), Restored());
  }

  lemma PoppedIgnoresPc(m: Machine, m1: Machine, m': Machine, rs: seq<Reg>)
    requires m1 == m.(pc := m1.pc) && Popped(m1, m', rs)
    ensures Popped(m, m', rs)
  {}

  /** testq and jz */
  lemma RunTest(m: Machine, stub: Machine -> Machine)
    requires m.pc == At(22)
    ensures Steps(m, stub, 2) ==
      m.(zf := m.reg(RBX) == 0, pc := At(if m.reg(RBX) == 0 then 29 else 24))
  {
    hide Code, Steps;
    CodeLayout();
    var m1 := Step(m, stub);
    StepsFirst(m, stub, 1);
    StepsFirst(m1, stub, 0);
    StepsFirst(Step(m1, stub), stub, 0);
  }

  /** Result zero: back into the wrapper. */
  lemma RunToResume(m: Machine, stub: Machine -> Machine)
    requires m.pc == At(29)
    ensures var f := Steps(m, stub, 3);
      && f.pc == Outside(m.mem(m.rsp + 8)) && f.rsp == m.rsp + 16 && f.mem == m.mem && f.counter == m.counter - 1
      && forall r :: f.reg(r) == if r == RBX then m.mem(m.rsp) else m.reg(r)
  {
    hide Code, Steps;
    CodeLayout();
    var m1 := Step(m, stub);
    var m2 := Step(m1, stub);
    StepsFirst(m, stub, 2);
    StepsFirst(m1, stub, 1);
    StepsFirst(m2, stub, 0);
    StepsFirst(Step(m2, stub), stub, 0);
  }

  /** lock decl and ret */
  lemma CountedOut(m: Machine, stub: Machine -> Machine)
    requires m.pc == At(27)
    ensures Steps(m, stub, 2) == m.(counter := m.counter - 1, rsp := m.rsp + 8, pc := Outside(m.mem(m.rsp)))
  {
    hide Code, Steps;
    CodeLayout();
    StepsFirst(m, stub, 1);
    StepsFirst(Step(m, stub), stub, 0);
    StepsFirst(Step(Step(m, stub), stub), stub, 0);
  }

  /** Any other result: past the wrapper, to its caller. */
  lemma RunToSkip(m: Machine, stub: Machine -> Machine)
    requires m.pc == At(24)
    ensures var f := Steps(m, stub, 5);
      && f.pc == Outside(m.mem(m.rsp + 16)) && f.rsp == m.rsp + 24 && f.mem == m.mem && f.counter == m.counter - 1
      && forall r :: f.reg(r) == if r == RBX then m.mem(m.rsp) else if r == RAX then m.reg(RBX) else m.reg(r)
  {
    hide Code, Steps;
    CodeLayout();
    var m1 := Step(m, stub);
    var m2 := Step(m1, stub);
    var m3 := Step(m2, stub);
    assert m3.pc == At(27) && m3.rsp == m.rsp + 16 && m3.mem == m.mem && m3.counter == m.counter;
    StepsFirst(m, stub, 4);
    StepsFirst(m1, stub, 3);
    StepsFirst(m2, stub, 2);
    CountedOut(m3, stub);
  }

  /** The stub's frame survives: what was pushed is still there after the call. */
  lemma FrameSurvives(m: Machine, call: Machine, after: Machine)
    requires Pushed(m, call, Saved()) && Conforms(call, after)
    ensures after.rsp == m.rsp - 80 && after.mem(m.rsp) == m.mem(m.rsp) && after.mem(m.rsp + 8) == m.mem(m.rsp + 8)
    ensures after.mem(m.rsp - 8) == m.reg(RBX)
    ensures forall i :: 0 <= i < 9 ==> after.mem(after.rsp + 8 * i) == m.reg(Restored()[i])
  {
    forall i | 0 <= i < 10 ensures after.mem(m.rsp - 8 * (i + 1)) == m.reg(Saved()[i]) {
      assert call.mem(m.rsp - 8 * (i + 1)) == m.reg(Saved()[i]);
    }
    assert after.mem(m.rsp - 8 * (0 + 1)) == m.reg(Saved()[0]);
    forall i | 0 <= i < 9 ensures after.mem(after.rsp + 8 * i) == m.reg(Restored()[i]) {
      assert Restored()[i] == Saved()[9 - i];
      assert after.mem(m.rsp - 8 * (9 - i + 1)) == m.reg(Saved()[9 - i]);
    }
  }

  /** The registers at the branch: all those of the wrapper but rbx, and the stub's result in rbx. */
  lemma RegistersAreBack(m: Machine, call: Machine, after: Machine, b: Machine)
    requires Pushed(m, call, Saved()) && Conforms(call, after)
    requires Popped(SetReg(after, RBX, after.reg(RAX)), b, Restored())
    ensures b.reg(RBX) == after.reg(RAX) && forall r :: r != RBX ==> b.reg(r) == m.reg(r)
  {
    hide Restored, Saved, Code, PopsAt;
    FrameSurvives(m, call, after);
    PopLayout();
    forall r | r != RBX ensures b.reg(r) == m.reg(r) {
      if r in Restored() {
        var i :| 0 <= i < |Restored()| && Restored()[i] == r;
        assert b.reg(Restored()[i]) == after.mem(after.rsp + 8 * i);
      }
    }
  }

  /** How the trampoline ends: with result 0 at its return address, else at the return address of its caller. */
  ghost predicate Returns(m: Machine, call: Machine, after: Machine, f: Machine) {
    var rax := after.reg(RAX);
    && f.pc == Outside(if rax == 0 then m.mem(m.rsp) else m.mem(m.rsp + 8))
    && f.rsp == (if rax == 0 then m.rsp + 8 else m.rsp + 16)
    && f.mem == after.mem && f.counter == m.counter + (after.counter - call.counter)
    && forall r :: f.reg(r) == if r == RAX && rax != 0 then rax else m.reg(r)
  }

  /** For every machine state and every stub that conforms, from the first instruction to the last. */
  lemma TrampolineReturns(m: Machine, stub: Machine -> Machine)
    requires m.pc == At(0) && Conforms(Steps(m, stub, CALL), stub(Steps(m, stub, CALL)))
    ensures var call := Steps(m, stub, CALL);
      var n := if stub(call).reg(RAX) == 0 then 27 else 29;
      Returns(m, call, stub(call), Steps(m, stub, n))
  {
    hide Code, Steps, Conforms, Saved, Restored;
    var call := Steps(m, stub, CALL);
    RunToBranch(m, stub);
    var t := Steps(m, stub, 24);
    if stub(call).reg(RAX) == 0 {
      RunToResume(t, stub);
      StepsAdd(m, stub, 24, 3);
    } else {
      RunToSkip(t, stub);
      StepsAdd(m, stub, 24, 5);
    }
  }

  /** At the branch: the stub's result in rbx, everything else as it was, and the frame still on the stack. */
  lemma RunToBranch(m: Machine, stub: Machine -> Machine)
    requires m.pc == At(0) && Conforms(Steps(m, stub, CALL), stub(Steps(m, stub, CALL)))
    ensures var call := Steps(m, stub, CALL);
      var after, t := stub(call), Steps(m, stub, 24);
      && call.counter == m.counter + 1
      && t.pc == At(if after.reg(RAX) == 0 then 29 else 24)
      && t.reg(RBX) == after.reg(RAX) && (forall r :: r != RBX ==> t.reg(r) == m.reg(r))
      && t.mem == after.mem && t.counter == after.counter && t.rsp == m.rsp - 8
      && t.mem(m.rsp - 8) == m.reg(RBX) && t.mem(m.rsp) == m.mem(m.rsp) && t.mem(m.rsp + 8) == m.mem(m.rsp + 8)
  {
    hide Code, Steps, Pushed, Popped, Conforms, Saved, Restored;
    var call := Steps(m, stub, CALL);
    var after := stub(call);
    RunToCall(m, stub);
    assert Step(call, stub) == after.(pc := At(12)) by { CodeLayout(); }
    var back := after.(pc := At(12));
    RunToTest(back, stub);
    var b := Steps(back, stub, 10);
    PoppedIgnoresPc(SetReg(after, RBX, after.reg(RAX)), SetReg(back, RBX, after.reg(RAX)), b, Restored());
    var counted := m.(counter := m.counter + 1);
    RegistersAreBack(counted, call, after, b);
    FrameSurvives(counted, call, after);
    PoppedRest(SetReg(after, RBX, after.reg(RAX)), b);
    RunTest(b, stub);
    StepsFirst(call, stub, 0);
    StepsFirst(back, stub, 0);
    StepsAdd(m, stub, CALL, 1);
    StepsAdd(m, stub, 12, 10);
    StepsAdd(m, stub, 22, 2);
  }

  lemma PoppedRest(m: Machine, m': Machine)
    requires Popped(m, m', Restored())
    ensures m'.mem == m.mem && m'.counter == m.counter && m'.rsp == m.rsp + 72
  {}

  // ---------------------------------------------------------------------------------------
  // The patched wrapper

  /** The processor executes the five bytes at `addr`, with the trampoline loaded at `tramp`. */
  function CallStep(w: Machine, addr: Word, bytes: seq<Byte>, tramp: Word): Machine
    requires |bytes| == 5
  {
    var target := Target(addr, bytes);
    Store(w, w.rsp - 8, ULong(addr + 5)).(
      rsp := w.rsp - 8, pc := if target == tramp then At(0) else Outside(target))
  }

  /** What the hook amounts to: nothing at all, or a return from the wrapper with the stub's result. */
  ghost predicate Transparent(w: Machine, addr: Word, after: Machine, f: Machine) {
    var rax := after.reg(RAX);
    && (rax == 0 ==> f.pc == Outside(ULong(addr + 5)) && f.rsp == w.rsp && forall r :: f.reg(r) == w.reg(r))
    && (rax != 0 ==>
        && f.pc == Outside(w.mem(w.rsp)) && f.rsp == w.rsp + 8
        && f.reg(RAX) == rax && forall r :: r != RAX ==> f.reg(r) == w.reg(r))
  }

  /**
  The hook is transparent for every wrapper state, if the displacement fits; otherwise the call
  does not reach the trampoline.
   */
  lemma HookIsTransparent(w: Machine, addr: Word, tramp: Word, stub: Machine -> Machine)
    ensures var m := CallStep(w, addr, Encode(addr, tramp), tramp);
      var call := Steps(m, stub, CALL);
      && (m.pc == At(0) <==> InRange(addr, tramp))
      && (InRange(addr, tramp) && Conforms(call, stub(call)) ==>
          var f := Steps(m, stub, if stub(call).reg(RAX) == 0 then 27 else 29);
          && call.reg == w.reg && call.counter == w.counter + 1
          && Transparent(w, addr, stub(call), f)
          && f.counter == w.counter + (stub(call).counter - call.counter)
          && f.mem == stub(call).mem && forall a :: a >= w.rsp ==> call.mem(a) == w.mem(a))
  {
    hide Code, Steps, Conforms, Encode, Target, InRange;
    CallReachesTarget(addr, tramp);
    var m := CallStep(w, addr, Encode(addr, tramp), tramp);
    var call := Steps(m, stub, CALL);
    if InRange(addr, tramp) {
      RunToCall(m, stub);
      if Conforms(call, stub(call)) {
        TrampolineReturns(m, stub);
      }
    }
  }

  /** The convention wants the stack aligned to 16 bytes at `call stub`; it is, if it was when the wrapper was called. */
  lemma StackIsAligned(w: Machine, addr: Word, tramp: Word, stub: Machine -> Machine)
    requires InRange(addr, tramp)
    ensures var call := Steps(CallStep(w, addr, Encode(addr, tramp), tramp), stub, CALL);
      call.rsp % 16 == 0 <==> w.rsp % 16 == 8
  {
    hide Code, Steps, Encode, Target, InRange;
    CallReachesTarget(addr, tramp);
    RunToCall(CallStep(w, addr, Encode(addr, tramp), tramp), stub);
  }

  // ---------------------------------------------------------------------------------------
  // The result is an int and rax has 64 bits

  /** The state in which the patched wrapper leaves the hook */
  function Final(w: Machine, addr: Word, tramp: Word, stub: Machine -> Machine): Machine {
    Steps(CallStep(w, addr, Encode(addr, tramp), tramp), stub, 29)
  }

  /** The state in which the stub returns to the trampoline */
  function Returned(w: Machine, addr: Word, tramp: Word, stub: Machine -> Machine): Machine {
    stub(Steps(CallStep(w, addr, Encode(addr, tramp), tramp), stub, CALL))
  }

  ghost predicate Obeys(w: Machine, addr: Word, tramp: Word, stub: Machine -> Machine) {
    Conforms(Steps(CallStep(w, addr, Encode(addr, tramp), tramp), stub, CALL), Returned(w, addr, tramp, stub))
  }

  lemma {:induction false} OutsideStays(m: Machine, stub: Machine -> Machine, n: nat)
    requires m.pc.Outside?
    ensures Steps(m, stub, n) == m
    decreases n
  {
    if n > 0 {
      OutsideStays(m, stub, n - 1);
    }
  }

  lemma FinalIsTransparent(w: Machine, addr: Word, tramp: Word, stub: Machine -> Machine)
    requires InRange(addr, tramp) && Obeys(w, addr, tramp, stub)
    ensures Transparent(w, addr, Returned(w, addr, tramp, stub), Final(w, addr, tramp, stub))
  {
    hide Code, Steps, Conforms, Encode, Target, InRange;
    HookIsTransparent(w, addr, tramp, stub);
    var m := CallStep(w, addr, Encode(addr, tramp), tramp);
    if Returned(w, addr, tramp, stub).reg(RAX) == 0 {
      StepsAdd(m, stub, 27, 2);
      OutsideStays(Steps(m, stub, 27), stub, 2);
    }
  }

  /**
  What a stub with this int result is meant to achieve: 0 lets the system call run as if there
  were no hook, any other result is the value that the caller of the wrapper gets.
   */
  ghost predicate Intended(w: Machine, addr: Word, result: int, f: Machine) {
    if result == 0
    then f.pc == Outside(ULong(addr + 5)) && f.rsp == w.rsp && forall r :: f.reg(r) == w.reg(r)
    else
      && f.pc == Outside(w.mem(w.rsp)) && f.rsp == w.rsp + 8 && (forall r :: r != RAX ==> f.reg(r) == w.reg(r))
      && 0 <= f.reg(RAX) < ULONG && Long(f.reg(RAX)) == result
  }

  /** The high half of rax repeats the sign of the low half. */
  predicate Extended(rax: Word) { rax / UINT == if Int32(rax) < 0 then UINT - 1 else 0 }

  lemma ExtendedMeans(rax: Word)
    ensures Extended(rax) <==> Long(rax) == Int32(rax)
    ensures Int32(rax) == 0 ==> (Extended(rax) <==> rax == 0)
  {
    assert rax == UINT * (rax / UINT) + rax % UINT;
  }

  /**
  The stub is declared to return an int, so the convention fixes only the low half of rax, while
  the trampoline tests and returns all of it. For every state and every conforming stub the hook
  does what it is meant to if and only if the stub has extended its result to the high half.
   */
  lemma HighHalfDecides(w: Machine, addr: Word, tramp: Word, stub: Machine -> Machine)
    requires InRange(addr, tramp) && Obeys(w, addr, tramp, stub)
    requires 0 <= Returned(w, addr, tramp, stub).reg(RAX) < ULONG
    ensures var rax := Returned(w, addr, tramp, stub).reg(RAX);
      Intended(w, addr, Int32(rax), Final(w, addr, tramp, stub)) <==> Extended(rax)
  {
    hide Final, Returned, Obeys, InRange, Long, Int32, Extended;
    FinalIsTransparent(w, addr, tramp, stub);
    var rax := Returned(w, addr, tramp, stub).reg(RAX);
    ExtendedMeans(rax);
    assert Int32(0) == 0;
  }

  const EAGAIN := 11

  /** A stub that only puts a value into rax */
  function Answering(rax: int): Machine -> Machine { m => SetReg(m, RAX, rax) }

  lemma AnsweringObeys(w: Machine, addr: Word, tramp: Word, rax: int)
    ensures Obeys(w, addr, tramp, Answering(rax)) && Returned(w, addr, tramp, Answering(rax)).reg(RAX) == rax
  {
    hide Steps, CallStep, Encode;
  }

  /** A stub that leaves a zero-extended -EAGAIN in rax makes the wrapper return the long 4294967285. */
  lemma ZeroExtendedErrorIsPositive(w: Machine, addr: Word, tramp: Word)
    requires InRange(addr, tramp)
    ensures var f := Final(w, addr, tramp, Answering(UINT - EAGAIN));
      && f.pc == Outside(w.mem(w.rsp)) && f.reg(RAX) == 4294967285 && Int32(f.reg(RAX)) == -EAGAIN
      && !Intended(w, addr, -EAGAIN, f)
  {
    hide Final, Returned, Obeys, InRange;
    AnsweringObeys(w, addr, tramp, UINT - EAGAIN);
    FinalIsTransparent(w, addr, tramp, Answering(UINT - EAGAIN));
  }

  /** A stub that returns 0 with anything in the high half skips the system call. */
  lemma GarbageSkipsTheCall(w: Machine, addr: Word, tramp: Word, high: nat)
    requires InRange(addr, tramp) && 0 < high < UINT
    ensures var f := Final(w, addr, tramp, Answering(UINT * high));
      && Int32(UINT * high) == 0 && f.pc == Outside(w.mem(w.rsp)) && f.rsp == w.rsp + 8
      && f.reg(RAX) == UINT * high
  {
    hide Final, Returned, Obeys, InRange, Int32;
    AnsweringObeys(w, addr, tramp, UINT * high);
    FinalIsTransparent(w, addr, tramp, Answering(UINT * high));
    SameInt32(UINT * high, 0, high);
    assert Int32(0) == 0;
  }
}
