/** The clock start-up sequence: SystemInit followed by SetSysClock (STM32F40_41xxx build),
    and the wait loop of RCC_WaitForHSEStartUp.

    SetSysClock polls bits that only the hardware moves, and two of its loops have no
    time-out, so it is a state machine here: one step per register access. Before every
    step the hardware sets HSERDY, PLLRDY and SWS to whatever it likes. A statement about
    every finite sequence of hardware answers is a statement about every behaviour,
    terminating or not. */
module Startup {
  import opened Words
  import opened ClockTree

  datatype Pc =
    | SetHsion | ClearCfgr | ClearOscillators | ResetPll | ClearBypass | ClearInterrupts
    | EnableHse | WaitHse | CheckHse | Failed
    | EnablePwr | SetVos | SetHpre | SetPpre2 | SetPpre1 | WritePll | EnablePll | WaitPll
    | WriteFlash | ClearSw | SelectPll | WaitSwitch | Done

  /** Position in the sequence. */
  function Rank(pc: Pc): nat {
    match pc
    case SetHsion => 0 case ClearCfgr => 1 case ClearOscillators => 2 case ResetPll => 3
    case ClearBypass => 4 case ClearInterrupts => 5 case EnableHse => 6 case WaitHse => 7
    case CheckHse => 8 case Failed => 9 case EnablePwr => 10 case SetVos => 11 case SetHpre => 12
    case SetPpre2 => 13 case SetPpre1 => 14 case WritePll => 15 case EnablePll => 16
    case WaitPll => 17 case WriteFlash => 18 case ClearSw => 19 case SelectPll => 20
    case WaitSwitch => 21 case Done => 22
  }

  datatype Machine = Machine(pc: Pc, cr: Word, cfgr: Word, pllcfgr: Word, apb1enr: Word,
                             pwrcr: Word, flashacr: Word, cir: Word, counter: Word)

  /** What the hardware shows on the next access. */
  datatype Answer = Answer(hserdy: nat, pllrdy: nat, sws: nat)

  type HwAnswer = a: Answer | a.hserdy < 2 && a.pllrdy < 2 && a.sws < 4 witness Answer(0, 0, 0)

  const RESET_PLLCFGR: Word := 0x2400_3010

  /** `PLL_M | (PLL_N << 6) | (((PLL_P >> 1) - 1) << 16) | PLLSRC_HSE | (PLL_Q << 24)` */
  function MainPll(): Word {
    PackPll(0x40_0000, 8, 336, 2, 7)
  }

  /** The hardware-driven bits: HSERDY (17) and PLLRDY (25) of CR, SWS (2..3) of CFGR. */
  function Sense(m: Machine, a: HwAnswer): Machine {
    Powers();
    m.(cr := Put(Put(m.cr, 17, 1, a.hserdy), 25, 1, a.pllrdy), cfgr := Put(m.cfgr, 2, 2, a.sws))
  }

  function Execute(m: Machine, timeout: Word): Machine {
    match m.pc
    case SetHsion => m.(pc := ClearCfgr, cr := Or(m.cr, 0x0000_0001))
    case ClearCfgr => m.(pc := ClearOscillators, cfgr := 0x0000_0000)
    case ClearOscillators => m.(pc := ResetPll, cr := And(m.cr, 0xFEF6_FFFF))
    case ResetPll => m.(pc := ClearBypass, pllcfgr := RESET_PLLCFGR)
    case ClearBypass => m.(pc := ClearInterrupts, cr := And(m.cr, 0xFFFB_FFFF))
    case ClearInterrupts => m.(pc := EnableHse, cir := 0x0000_0000, counter := 0)
    case EnableHse => m.(pc := WaitHse, cr := Or(m.cr, 0x0001_0000))
    case WaitHse =>
      var status := And(m.cr, 0x0002_0000);
      var count := (m.counter + 1) % WORD;
      m.(counter := count, pc := if status == 0 && count != timeout then WaitHse else CheckHse)
    case CheckHse => m.(pc := if And(m.cr, 0x0002_0000) != 0 then EnablePwr else Failed)
    case Failed => m
    case EnablePwr => m.(pc := SetVos, apb1enr := Or(m.apb1enr, 0x1000_0000))
    case SetVos => m.(pc := SetHpre, pwrcr := Or(m.pwrcr, 0x0000_C000))
    case SetHpre => m.(pc := SetPpre2, cfgr := Or(m.cfgr, 0x0000_0000))
    case SetPpre2 => m.(pc := SetPpre1, cfgr := Or(m.cfgr, 0x0000_8000))
    case SetPpre1 => m.(pc := WritePll, cfgr := Or(m.cfgr, 0x0000_1400))
    case WritePll => m.(pc := EnablePll, pllcfgr := MainPll())
    case EnablePll => m.(pc := WaitPll, cr := Or(m.cr, 0x0100_0000))
    case WaitPll => m.(pc := if And(m.cr, 0x0200_0000) == 0 then WaitPll else WriteFlash)
    case WriteFlash => m.(pc := ClearSw, flashacr := Or(Or(Or(0x100, 0x200), 0x400), 0x5))
    case ClearSw => m.(pc := SelectPll, cfgr := And(m.cfgr, Not(0x0000_0003)))
    case SelectPll => m.(pc := WaitSwitch, cfgr := Or(m.cfgr, 0x0000_0002))
    case WaitSwitch => m.(pc := if And(m.cfgr, 0x0000_000C) != 0x0000_0008 then WaitSwitch else Done)
    case Done => m
  }

  function Step(m: Machine, a: HwAnswer, timeout: Word): Machine {
    Execute(Sense(m, a), timeout)
  }

  /** The machine after the given answers. */
  function Run(m: Machine, answers: seq<HwAnswer>, timeout: Word): Machine {
    if answers == [] then m
    else Step(Run(m, answers[..|answers| - 1], timeout), answers[|answers| - 1], timeout)
  }

  // ---------------------------------------------------------------- what holds at every access

  ghost predicate CfgrOk(pc: Pc, c: Cfgr) {
    Rank(pc) >= 2 ==>
      c == Cfgr(if Rank(pc) >= 21 then 2 else 0, c.sws, 0, 0,
                if Rank(pc) >= 15 then 5 else 0, if Rank(pc) >= 14 then 4 else 0,
                0, 0, 0, 0, 0, 0)
  }

  ghost predicate PllOk(pc: Pc, pll: Word) {
    Rank(pc) >= 4 ==> pll == if Rank(pc) >= 16 then MainPll() else RESET_PLLCFGR
  }

  /** Bit i of CR at pc, with b its value at power-on: HSION (0) set first; HSEON (16), CSSON
      (19) and PLLON (24) cleared, then HSEBYP (18); HSEON and later PLLON set again. */
  ghost predicate CrBit(pc: Pc, i: nat, b: bool) {
    match i
    case 0 => Rank(pc) >= 1 || b
    case 16 => Rank(pc) >= 7 || (Rank(pc) < 3 && b)
    case 18 => Rank(pc) < 5 && b
    case 19 => Rank(pc) < 3 && b
    case 24 => Rank(pc) >= 17 || (Rank(pc) < 3 && b)
    case _ => b
  }

  /** All bits of CR that the hardware does not drive. */
  ghost predicate CrOk(pc: Pc, cr: Word, before: Word) {
    forall i: nat :: i < 32 && i != 17 && i != 25 ==> Bit(cr, i) == CrBit(pc, i, Bit(before, i))
  }

  /** PWREN in APB1ENR, both VOS bits in PWR_CR, all other bits there as at power-on; the whole
      of FLASH_ACR (prefetch, caches, five wait states) and CIR. */
  ghost predicate PowerOk(m: Machine, start: Machine) {
    (forall i: nat :: i < 32 ==> Bit(m.apb1enr, i) == ((i == 28 && Rank(m.pc) >= 11) || Bit(start.apb1enr, i))) &&
    (forall i: nat :: i < 32 ==> Bit(m.pwrcr, i) == ((14 <= i < 16 && Rank(m.pc) >= 12) || Bit(start.pwrcr, i))) &&
    m.flashacr == (if Rank(m.pc) >= 19 then 0x705 else start.flashacr) &&
    m.cir == (if Rank(m.pc) >= 6 then 0 else start.cir)
  }

  /** The registers at every access, from the power-on content start. */
  ghost predicate Inv(m: Machine, start: Machine) {
    CfgrOk(m.pc, DecodeCfgr(m.cfgr)) && PllOk(m.pc, m.pllcfgr) && CrOk(m.pc, m.cr, start.cr) && PowerOk(m, start)
  }

  /** The masks the sequence polls with see the hardware's answer. */
  ghost predicate Shows(m: Machine, a: HwAnswer) {
    (And(m.cr, 0x0002_0000) == 0 <==> a.hserdy == 0) && (And(m.cr, 0x0200_0000) == 0 <==> a.pllrdy == 0) &&
    And(m.cfgr, 0xC) == 4 * a.sws
  }

  lemma SenseFields(m: Machine, a: HwAnswer)
    ensures DecodeCfgr(Sense(m, a).cfgr) == DecodeCfgr(m.cfgr).(sws := a.sws)
    ensures forall i: nat :: i < 32 && i != 17 && i != 25 ==> Bit(Sense(m, a).cr, i) == Bit(m.cr, i)
    ensures Shows(Sense(m, a), a)
  {
    hide And, OrBits, Shr, Bit, Get, Put, Up;
    Powers();
    GetPut(m.cfgr, 2, 2, a.sws);
    var x := Put(m.cr, 17, 1, a.hserdy);
    PutReplaces(m.cr, 17, 1, a.hserdy);
    PutReplaces(x, 25, 1, a.pllrdy);
    GetPut(m.cr, 17, 1, a.hserdy);
    GetPut(x, 25, 1, a.pllrdy);
    LiteralMask(Sense(m, a).cr, 0x0002_0000, 17, 1);
    LiteralMask(Sense(m, a).cr, 0x0200_0000, 25, 1);
    LiteralMask(Sense(m, a).cfgr, 0xC, 2, 2);
  }

  lemma CfgrStep(m: Machine, timeout: Word)
    requires CfgrOk(m.pc, DecodeCfgr(m.cfgr))
    ensures CfgrOk(Execute(m, timeout).pc, DecodeCfgr(Execute(m, timeout).cfgr))
  {
    hide And, OrBits, Shr, Get, Put, Up;
    Powers();
    match m.pc
    case ClearCfgr => ZeroFields(Execute(m, timeout).cfgr);
    case SetHpre => OrZero(m.cfgr);
    case SetPpre2 => SetField(m.cfgr, 0x8000, 13, 3, 4);
    case SetPpre1 => SetField(m.cfgr, 0x1400, 10, 3, 5);
    case ClearSw => ClearField(m.cfgr, 0x3, 0, 2);
    case SelectPll => SetField(m.cfgr, 0x2, 0, 2, 2);
    case _ =>
  }

  lemma CrStep(m: Machine, a: HwAnswer, timeout: Word, before: Word)
    requires CrOk(m.pc, m.cr, before) && Shows(m, a)
    ensures CrOk(Execute(m, timeout).pc, Execute(m, timeout).cr, before)
  {
    hide Execute, Shows, Bit, CrBit, NextPc;
    var n := Execute(m, timeout);
    ExecutePc(m, a, timeout);
    forall i: nat | i < 32 && i != 17 && i != 25
      ensures Bit(n.cr, i) == CrBit(n.pc, i, Bit(before, i))
    {
      assert Bit(m.cr, i) == CrBit(m.pc, i, Bit(before, i));
      ExecuteCrBit(m, timeout, i);
      CrBitStep(m.pc, m.counter, a, timeout, i, Bit(before, i));
    }
  }

  /** What an access does to bit i of CR. */
  ghost function NewBit(pc: Pc, i: nat, b: bool): bool {
    match pc
    case SetHsion => i == 0 || b
    case ClearOscillators => i != 16 && i != 19 && i != 24 && b
    case ClearBypass => i != 18 && b
    case EnableHse => i == 16 || b
    case EnablePll => i == 24 || b
    case _ => b
  }

  lemma ExecuteCrBit(m: Machine, timeout: Word, i: nat)
    requires i < 32
    ensures Bit(Execute(m, timeout).cr, i) == NewBit(m.pc, i, Bit(m.cr, i))
  {
    hide And, OrBits, Bit, MainPll, Pow2;
    Powers();
    match m.pc
    case SetHsion => BitAfterSet(m.cr, 0x1, 0, i);
    case ClearOscillators => KeepMask(m.cr, i);
    case ClearBypass => BitAfterClear(m.cr, 0x0004_0000, 18, i);
    case EnableHse => BitAfterSet(m.cr, 0x0001_0000, 16, i);
    case EnablePll => BitAfterSet(m.cr, 0x0100_0000, 24, i);
    case _ =>
  }

  /** The mask of the second CR write clears digits 16, 19 and 24. */
  lemma KeepMask(r: Word, i: nat)
    requires i < 32
    ensures Bit(And(r, 0xFEF6_FFFF), i) == (i != 16 && i != 19 && i != 24 && Bit(r, i))
  {
    hide And, OrBits, Bit, Pow2;
    Powers();
    OrAbove(0x1_0000, 0x8_0000, 1, 19);
    OrAbove(0x9_0000, 0x100_0000, 1, 24);
    BitOfPower(16, i);
    BitOfPower(19, i);
    BitOfPower(24, i);
    BitOr(0x1_0000, 0x8_0000, i);
    BitOr(0x9_0000, 0x100_0000, i);
    BitNot(0x109_0000, i);
    BitAnd(r, 0xFEF6_FFFF, i);
  }

  lemma CrBitStep(pc: Pc, counter: Word, a: HwAnswer, timeout: Word, i: nat, b: bool)
    ensures NewBit(pc, i, CrBit(pc, i, b)) == CrBit(NextPc(pc, counter, a, timeout), i, b)
  {
  }

  /** The accesses to the other registers. */
  lemma ExecutePower(m: Machine, timeout: Word)
    ensures var n := Execute(m, timeout);
            n.apb1enr == (if m.pc == EnablePwr then Or(m.apb1enr, 0x1000_0000) else m.apb1enr) &&
            n.pwrcr == (if m.pc == SetVos then Or(m.pwrcr, 0xC000) else m.pwrcr) &&
            n.flashacr == (if m.pc == WriteFlash then Or(Or(Or(0x100, 0x200), 0x400), 0x5) else m.flashacr) &&
            n.cir == if m.pc == ClearInterrupts then 0 else m.cir
  {
    hide And, Or, Not, MainPll;
  }

  lemma PowerStep(m: Machine, a: HwAnswer, timeout: Word, start: Machine)
    requires PowerOk(m, start) && Shows(m, a)
    ensures PowerOk(Execute(m, timeout), start)
  {
    hide Execute, Shows, OrBits, Or, Bit, Pow2;
    Powers();
    var n := Execute(m, timeout);
    ExecutePc(m, a, timeout);
    ExecutePower(m, timeout);
    forall i: nat | i < 32
      ensures Bit(n.apb1enr, i) == ((i == 28 && Rank(n.pc) >= 11) || Bit(start.apb1enr, i))
      ensures Bit(n.pwrcr, i) == ((14 <= i < 16 && Rank(n.pc) >= 12) || Bit(start.pwrcr, i))
    {
      if m.pc == EnablePwr { BitAfterSet(m.apb1enr, 0x1000_0000, 28, i); }
      if m.pc == SetVos { SetVosBits(m.pwrcr, i); }
    }
    FlashWord();
  }

  lemma SetVosBits(r: Word, i: nat)
    requires i < 32
    ensures Bit(Or(r, 0xC000), i) == (14 <= i < 16 || Bit(r, i))
  {
    hide OrBits, Bit, Pow2;
    Powers();
    OrAbove(0x4000, 0x8000, 1, 15);
    BitOfPower(14, i);
    BitOfPower(15, i);
    BitOr(0x4000, 0x8000, i);
    BitOr(r, 0xC000, i);
  }

  /** PRFTEN | ICEN | DCEN | LATENCY_5WS */
  lemma FlashWord()
    ensures Or(Or(Or(0x100, 0x200), 0x400), 0x5) == 0x705
  {
    hide OrBits;
    Powers();
    OrAbove(0x100, 0x200, 1, 9);
    OrAbove(0x300, 0x400, 1, 10);
    OrAbove(0x5, 0x700, 7, 8);
  }

  lemma StepKeepsInv(m: Machine, a: HwAnswer, timeout: Word, start: Machine)
    requires Inv(m, start)
    ensures Inv(Step(m, a, timeout), start)
  {
    hide And, OrBits, Or, Shr, Bit, Get, Put, Up, Pow2, MainPll, CrBit, Shows;
    SenseFields(m, a);
    CfgrStep(Sense(m, a), timeout);
    CrStep(Sense(m, a), a, timeout, start.cr);
    PowerStep(Sense(m, a), a, timeout, start);
  }

  lemma InitialInv(m: Machine)
    requires m.pc == SetHsion
    ensures Inv(m, m)
  {
    hide DecodeCfgr, MainPll, Bit, Get;
  }

  lemma {:induction false} RunKeepsInv(m: Machine, answers: seq<HwAnswer>, timeout: Word)
    requires m.pc == SetHsion
    ensures Inv(Run(m, answers, timeout), m)
  {
    hide Inv, Step;
    if answers == [] {
      InitialInv(m);
    } else {
      RunKeepsInv(m, answers[..|answers| - 1], timeout);
      StepKeepsInv(Run(m, answers[..|answers| - 1], timeout), answers[|answers| - 1], timeout, m);
    }
  }

  /** The writes of the sequence, over every run, with the numbers of the first access after
      each. HSION is set and stays set; CSS and the crystal bypass are cleared; the power
      interface is clocked and the regulator set, with no other bit of their registers touched;
      the flash has prefetch, both caches and five wait states; interrupts are off. */
  lemma StartupWrites(m: Machine, answers: seq<HwAnswer>, timeout: Word)
    requires m.pc == SetHsion
    ensures var s := Run(m, answers, timeout);
            var at := Rank(s.pc);
            (at >= 1 ==> Bit(s.cr, 0)) && (at >= 3 ==> !Bit(s.cr, 19)) && (at >= 5 ==> !Bit(s.cr, 18)) &&
            (at >= 3 ==> (Bit(s.cr, 24) <==> at >= 17)) && (at >= 3 ==> (Bit(s.cr, 16) <==> at >= 7)) &&
            (at >= 6 ==> s.cir == 0) && (at >= 11 ==> Bit(s.apb1enr, 28)) &&
            (at >= 12 ==> Bit(s.pwrcr, 14) && Bit(s.pwrcr, 15)) && (at >= 19 ==> s.flashacr == 0x705)
    ensures var s := Run(m, answers, timeout);
            (forall i: nat :: i < 32 && i !in {0, 16, 17, 18, 19, 24, 25} ==> Bit(s.cr, i) == Bit(m.cr, i)) &&
            (forall i: nat :: i < 32 && i != 28 ==> Bit(s.apb1enr, i) == Bit(m.apb1enr, i)) &&
            (forall i: nat :: i < 32 && i != 14 && i != 15 ==> Bit(s.pwrcr, i) == Bit(m.pwrcr, i))
  {
    hide DecodeCfgr, MainPll, Run, Bit;
    RunKeepsInv(m, answers, timeout);
  }

  // ---------------------------------------------------------------- control flow

  /** Where one access leads, read off the hardware's answer. */
  function NextPc(pc: Pc, counter: Word, a: HwAnswer, timeout: Word): Pc {
    match pc
    case SetHsion => ClearCfgr case ClearCfgr => ClearOscillators case ClearOscillators => ResetPll
    case ResetPll => ClearBypass case ClearBypass => ClearInterrupts case ClearInterrupts => EnableHse
    case EnableHse => WaitHse
    case WaitHse => if a.hserdy == 0 && (counter + 1) % WORD != timeout then WaitHse else CheckHse
    case CheckHse => if a.hserdy == 0 then Failed else EnablePwr
    case Failed => Failed
    case EnablePwr => SetVos case SetVos => SetHpre case SetHpre => SetPpre2 case SetPpre2 => SetPpre1
    case SetPpre1 => WritePll case WritePll => EnablePll case EnablePll => WaitPll
    case WaitPll => if a.pllrdy == 0 then WaitPll else WriteFlash
    case WriteFlash => ClearSw case ClearSw => SelectPll case SelectPll => WaitSwitch
    case WaitSwitch => if a.sws != 2 then WaitSwitch else Done
    case Done => Done
  }

  lemma ExecutePc(s: Machine, a: HwAnswer, timeout: Word)
    requires Shows(s, a)
    ensures Execute(s, timeout).pc == NextPc(s.pc, s.counter, a, timeout)
  {
    hide And, Or, Not, MainPll;
    match s.pc
    case WaitHse =>
    case CheckHse =>
    case WaitPll =>
    case WaitSwitch =>
    case _ =>
  }

  lemma StepPc(m: Machine, a: HwAnswer, timeout: Word)
    ensures Step(m, a, timeout).pc == NextPc(m.pc, m.counter, a, timeout)
  {
    hide And, Put, Execute, NextPc;
    SenseFields(m, a);
    ExecutePc(Sense(m, a), a, timeout);
  }

  // ---------------------------------------------------------------- safety of the switch

  lemma RankGrows(m: Machine, a: HwAnswer, timeout: Word)
    ensures Rank(Step(m, a, timeout).pc) >= Rank(m.pc)
  {
    hide Step;
    StepPc(m, a, timeout);
  }

  lemma {:induction false} RunRankGrows(m: Machine, answers: seq<HwAnswer>, k: nat, timeout: Word)
    requires k <= |answers|
    ensures Rank(Run(m, answers[..k], timeout).pc) <= Rank(Run(m, answers, timeout).pc)
    decreases |answers|
  {
    hide Step;
    if k == |answers| {
      assert answers[..k] == answers;
    } else {
      var n := |answers| - 1;
      assert answers[..n][..k] == answers[..k];
      RunRankGrows(m, answers[..n], k, timeout);
      RankGrows(Run(m, answers[..n], timeout), answers[n], timeout);
    }
  }

  /** Access k found the machine at pc. */
  ghost predicate At(m: Machine, answers: seq<HwAnswer>, timeout: Word, k: nat, pc: Pc)
    requires k <= |answers|
  {
    Run(m, answers[..k], timeout).pc == pc
  }

  ghost predicate ReadPllReady(m: Machine, answers: seq<HwAnswer>, timeout: Word, k: nat)
    requires k < |answers|
  {
    At(m, answers, timeout, k, WaitPll) && answers[k].pllrdy == 1
  }

  lemma LeaveWaitPll(m: Machine, a: HwAnswer, timeout: Word)
    requires Rank(m.pc) < 18 <= Rank(Step(m, a, timeout).pc)
    ensures m.pc == WaitPll && a.pllrdy == 1
  {
    hide Step;
    StepPc(m, a, timeout);
  }

  /** The only way past the PLL wait is a reading with PLLRDY set. */
  lemma {:induction false} PllReadyWasRead(m: Machine, answers: seq<HwAnswer>, timeout: Word)
    requires m.pc == SetHsion && Rank(Run(m, answers, timeout).pc) >= 18
    ensures exists k: nat :: k < |answers| && ReadPllReady(m, answers, timeout, k)
  {
    hide Step;
    var n := |answers| - 1;
    var before := answers[..n];
    if Rank(Run(m, before, timeout).pc) >= 18 {
      PllReadyWasRead(m, before, timeout);
      var k: nat :| k < |before| && ReadPllReady(m, before, timeout, k);
      assert before[..k] == answers[..k];
      assert ReadPllReady(m, answers, timeout, k);
    } else {
      LeaveWaitPll(Run(m, before, timeout), answers[n], timeout);
      assert ReadPllReady(m, answers, timeout, n);
    }
  }

  /** Start-up safety, for every power-on register content and every hardware behaviour:
      when the sequence is about to select the PLL, or CFGR already selects it, PLLRDY has
      been read set, the PLL is on with M = 8, N = 336, P = 2, Q = 7 from HSE, the
      regulator is at scale 1 and the flash runs at five wait states. */
  lemma SwitchIsSafe(m: Machine, answers: seq<HwAnswer>, timeout: Word)
    requires m.pc == SetHsion
    ensures var s := Run(m, answers, timeout);
            s.pc == SelectPll || (Rank(s.pc) >= 2 && DecodeCfgr(s.cfgr).sw == 2) ==>
              DecodePll(s.pllcfgr) == PllCfgr(8, 336, 0, 1, 7) && Bit(s.cr, 24) && Bit(s.cr, 16) &&
              Bit(s.apb1enr, 28) && Get(s.pwrcr, 14, 2) == 3 && s.flashacr == 0x705 && Get(s.flashacr, 0, 4) == 5 &&
              DecodeCfgr(s.cfgr).hpre == 0 && DecodeCfgr(s.cfgr).ppre1 == 5 && DecodeCfgr(s.cfgr).ppre2 == 4 &&
              exists k: nat :: k < |answers| && ReadPllReady(m, answers, timeout, k)
  {
    hide DecodeCfgr, DecodePll, PackPll, Run, Bit, Get;
    RunKeepsInv(m, answers, timeout);
    PllPacking(0x40_0000, 8, 336, 2, 7);
    var s := Run(m, answers, timeout);
    if Rank(s.pc) >= 20 {
      PllReadyWasRead(m, answers, timeout);
      ScaleOne(s.pwrcr);
      Powers();
      GetDigit(0x705, 0, 4, 1, 0x10, 0x70, 5, 0);
    }
  }

  lemma ScaleOne(r: Word)
    requires Bit(r, 14) && Bit(r, 15)
    ensures Get(r, 14, 2) == 3
  {
    hide Bit, Get;
    Powers();
    forall i: nat | i < 2 ensures Bit(Get(r, 14, 2), i) == Bit(Ones(2), i) {
      BitGet(r, 14, 2, i);
      BitOnes(2, i);
    }
    Extensionality(Get(r, 14, 2), 3, 2);
  }

  /** If the second look at HSERDY finds it clear, the sequence stops: from then on CFGR
      and PLLCFGR keep their reset values, and PLLON is off at every access. */
  lemma HseFailureIsSafe(m: Machine, answers: seq<HwAnswer>, timeout: Word, j: nat, k: nat)
    requires m.pc == SetHsion && j < |answers| && k <= |answers|
    requires At(m, answers, timeout, j, CheckHse) && answers[j].hserdy == 0
    ensures var s := Run(m, answers[..k], timeout);
            (k > j ==>
              s.pc == Failed && s.pllcfgr == RESET_PLLCFGR &&
              DecodeCfgr(s.cfgr) == Cfgr(0, DecodeCfgr(s.cfgr).sws, 0, 0, 0, 0, 0, 0, 0, 0, 0, 0)) &&
            (Rank(s.pc) >= 3 ==> !Bit(s.cr, 24))
    decreases k
  {
    hide DecodeCfgr, MainPll, Step, Bit;
    RunKeepsInv(m, answers[..k], timeout);
    if k <= j {
      assert answers[..j][..k] == answers[..k];
      RunRankGrows(m, answers[..j], k, timeout);
    } else {
      var p := answers[..k - 1];
      assert answers[..k][..k - 1] == p;
      if k - 1 > j { HseFailureIsSafe(m, answers, timeout, j, k - 1); }
      StaysFailed(Run(m, p, timeout), answers[k - 1], timeout);
    }
  }

  lemma StaysFailed(m: Machine, a: HwAnswer, timeout: Word)
    requires m.pc == Failed || (m.pc == CheckHse && a.hserdy == 0)
    ensures Step(m, a, timeout).pc == Failed
  {
    hide Step;
    StepPc(m, a, timeout);
  }

  // ---------------------------------------------------------------- the HSE wait

  /** Iterations a wait loop may make: the time-out, or a whole turn of the 32-bit counter
      when the time-out is 0. */
  function Limit(timeout: Word): nat {
    if timeout == 0 then WORD else timeout
  }

  lemma {:induction false} Prologue(m: Machine, answers: seq<HwAnswer>, timeout: Word)
    requires m.pc == SetHsion && |answers| <= 7
    ensures Rank(Run(m, answers, timeout).pc) == |answers|
    ensures |answers| >= 6 ==> Run(m, answers, timeout).counter == 0
  {
    hide Step;
    if answers != [] {
      Prologue(m, answers[..|answers| - 1], timeout);
      PrologueStep(Run(m, answers[..|answers| - 1], timeout), answers[|answers| - 1], timeout);
    }
  }

  lemma PrologueStep(m: Machine, a: HwAnswer, timeout: Word)
    requires Rank(m.pc) < 7
    ensures Rank(Step(m, a, timeout).pc) == Rank(m.pc) + 1
    ensures m.pc == ClearInterrupts || m.counter == 0 ==> Step(m, a, timeout).counter == 0
  {
    hide Step;
    StepPc(m, a, timeout);
    StepCounter(m, a, timeout);
  }

  lemma StepCounter(m: Machine, a: HwAnswer, timeout: Word)
    ensures Step(m, a, timeout).counter ==
            if m.pc == ClearInterrupts then 0 else if m.pc == WaitHse then (m.counter + 1) % WORD else m.counter
  {
    hide And, Or, Not, Put, MainPll;
  }

  lemma WaitHseStep(m: Machine, a: HwAnswer, timeout: Word)
    ensures m.pc == WaitHse ==>
              Step(m, a, timeout).counter == (m.counter + 1) % WORD &&
              Step(m, a, timeout).pc == if a.hserdy == 0 && (m.counter + 1) % WORD != timeout then WaitHse else CheckHse
  {
    hide Step;
    StepPc(m, a, timeout);
    StepCounter(m, a, timeout);
  }

  /** After i readings SetSysClock is still in its first loop exactly if all of them were
      clear and i is below the limit. So the loop always ends, at the first set reading or
      at the limit. */
  lemma {:induction false} HseWait(m: Machine, answers: seq<HwAnswer>, i: nat, timeout: Word)
    requires m.pc == SetHsion && |answers| == 7 + i
    ensures Rank(Run(m, answers, timeout).pc) >= 7
    ensures Run(m, answers, timeout).pc == WaitHse <==>
            i < Limit(timeout) && forall k :: 7 <= k < 7 + i ==> answers[k].hserdy == 0
    ensures Run(m, answers, timeout).pc == WaitHse ==> Run(m, answers, timeout).counter == i
    decreases i
  {
    hide Step;
    if i == 0 {
      Prologue(m, answers, timeout);
    } else {
      var before := answers[..|answers| - 1];
      var s := Run(m, before, timeout);
      HseWait(m, before, i - 1, timeout);
      WaitHseStep(s, answers[|answers| - 1], timeout);
      RankGrows(s, answers[|answers| - 1], timeout);
      assert forall k :: 7 <= k < 6 + i ==> before[k] == answers[k];
    }
  }

  /** The same wait as a driver call. The k-th look at HSERDY answers hserdy(k). */
  method RCC_WaitForHSEStartUp(hserdy: nat -> bool, timeout: Word) returns (success: bool, looks: nat)
    ensures 1 <= looks <= Limit(timeout)
    ensures forall k: nat :: k < looks - 1 ==> !hserdy(k)
    ensures looks == Limit(timeout) || hserdy(looks - 1)
    ensures success <==> hserdy(looks)
  {
    var hsestatus := hserdy(0);
    looks := 1;
    var startupcounter: Word := 1;
    while startupcounter != timeout && !hsestatus
      invariant 1 <= looks <= Limit(timeout)
      invariant startupcounter == looks % WORD
      invariant looks == WORD ==> timeout == 0
      invariant hsestatus == hserdy(looks - 1)
      invariant forall k: nat :: k < looks - 1 ==> !hserdy(k)
      decreases Limit(timeout) - looks
    {
      hsestatus := hserdy(looks);
      looks := looks + 1;
      startupcounter := (startupcounter + 1) % WORD;
    }
    success := hserdy(looks);
  }

  // ---------------------------------------------------------------- when the sequence completes

  /** The first loop makes i readings, from access 7 on. */
  ghost predicate HseEnds(answers: seq<HwAnswer>, n: nat, timeout: Word, i: nat) {
    1 <= i <= Limit(timeout) && 7 + i <= n <= |answers| &&
    (forall k :: 7 <= k < 6 + i ==> answers[k].hserdy == 0) && (i == Limit(timeout) || answers[6 + i].hserdy == 1)
  }

  ghost predicate HseWaits(answers: seq<HwAnswer>, n: nat, timeout: Word) {
    7 <= n < 7 + Limit(timeout) && n <= |answers| && forall k :: 7 <= k < n ==> answers[k].hserdy == 0
  }

  /** The second look at HSERDY, at access 7 + i, finds it set. */
  ghost predicate HsePassed(answers: seq<HwAnswer>, n: nat, timeout: Word, i: nat) {
    HseEnds(answers, n, timeout, i) && 7 + i < n && answers[7 + i].hserdy == 1
  }

  /** Access p is the first after the PLL is on that reads PLLRDY set. */
  ghost predicate PllEnds(answers: seq<HwAnswer>, n: nat, i: nat, p: nat) {
    15 + i <= p < n <= |answers| && (forall k :: 15 + i <= k < p ==> answers[k].pllrdy == 0) && answers[p].pllrdy == 1
  }

  ghost predicate PllWaits(answers: seq<HwAnswer>, n: nat, i: nat) {
    15 + i <= n <= |answers| && forall k :: 15 + i <= k < n ==> answers[k].pllrdy == 0
  }

  /** Access w is the first after the PLL is selected that reads it in SWS. */
  ghost predicate SwitchEnds(answers: seq<HwAnswer>, n: nat, p: nat, w: nat) {
    p + 4 <= w < n <= |answers| && (forall k :: p + 4 <= k < w ==> answers[k].sws != 2) && answers[w].sws == 2
  }

  ghost predicate SwitchWaits(answers: seq<HwAnswer>, n: nat, p: nat) {
    p + 4 <= n <= |answers| && forall k :: p + 4 <= k < n ==> answers[k].sws != 2
  }

  ghost predicate Schedule(answers: seq<HwAnswer>, n: nat, timeout: Word, i: nat, p: nat, w: nat) {
    HsePassed(answers, n, timeout, i) && PllEnds(answers, n, i, p) && SwitchEnds(answers, n, p, w)
  }

  /** What being at pc after n accesses says about the answers so far. */
  ghost predicate Progress(answers: seq<HwAnswer>, n: nat, timeout: Word, pc: Pc, i: nat, p: nat, w: nat)
    requires n <= |answers|
  {
    if Rank(pc) < 7 then n == Rank(pc)
    else if pc == WaitHse then HseWaits(answers, n, timeout)
    else if pc == CheckHse then HseEnds(answers, n, timeout, i) && n == 7 + i
    else if pc == Failed then HseEnds(answers, n, timeout, i) && 7 + i < n && answers[7 + i].hserdy == 0
    else
      HsePassed(answers, n, timeout, i) &&
      if Rank(pc) < 17 then n == i + Rank(pc) - 2
      else if pc == WaitPll then PllWaits(answers, n, i)
      else
        PllEnds(answers, n, i, p) &&
        if Rank(pc) < 21 then n == p + Rank(pc) - 17
        else if pc == WaitSwitch then SwitchWaits(answers, n, p)
        else SwitchEnds(answers, n, p, w)
  }

  /** What is known of the answers stays known. */
  lemma Extend(answers: seq<HwAnswer>, n: nat, timeout: Word, i: nat, p: nat, w: nat)
    requires n < |answers|
    ensures HseEnds(answers, n, timeout, i) ==> HseEnds(answers, n + 1, timeout, i)
    ensures HsePassed(answers, n, timeout, i) ==> HsePassed(answers, n + 1, timeout, i)
    ensures PllEnds(answers, n, i, p) ==> PllEnds(answers, n + 1, i, p)
    ensures SwitchEnds(answers, n, p, w) ==> SwitchEnds(answers, n + 1, p, w)
  {
  }

  lemma HseWaitEnds(answers: seq<HwAnswer>, n: nat, timeout: Word)
    requires HseWaits(answers, n, timeout) && n < |answers|
    ensures n >= 7
    ensures if answers[n].hserdy == 0 && (n - 6) % WORD != timeout then HseWaits(answers, n + 1, timeout)
            else HseEnds(answers, n + 1, timeout, n - 6)
  {
  }

  lemma HseWaitBegins(answers: seq<HwAnswer>, timeout: Word)
    requires 7 <= |answers|
    ensures HseWaits(answers, 7, timeout)
  {
  }

  lemma PllWaitEnds(answers: seq<HwAnswer>, n: nat, i: nat)
    requires n < |answers|
    ensures n + 1 == 15 + i ==> PllWaits(answers, n + 1, i)
    ensures PllWaits(answers, n, i) ==>
              if answers[n].pllrdy == 0 then PllWaits(answers, n + 1, i) else PllEnds(answers, n + 1, i, n)
  {
  }

  lemma SwitchWaitEnds(answers: seq<HwAnswer>, n: nat, p: nat)
    requires n < |answers|
    ensures n + 1 == p + 4 ==> SwitchWaits(answers, n + 1, p)
    ensures SwitchWaits(answers, n, p) ==>
              if answers[n].sws != 2 then SwitchWaits(answers, n + 1, p) else SwitchEnds(answers, n + 1, p, n)
  {
  }

  lemma HsePasses(answers: seq<HwAnswer>, timeout: Word, i: nat)
    requires HseEnds(answers, 7 + i, timeout, i) && 7 + i < |answers|
    ensures HseEnds(answers, 8 + i, timeout, i)
    ensures answers[7 + i].hserdy == 1 ==> HsePassed(answers, 8 + i, timeout, i)
  {
  }

  /** One access, from what is known before it to what is known after it. */
  lemma ProgressStep(answers: seq<HwAnswer>, n: nat, timeout: Word, pc: Pc, counter: Word, i: nat, p: nat, w: nat)
    returns (i2: nat, p2: nat, w2: nat)
    requires n < |answers| && Progress(answers, n, timeout, pc, i, p, w)
    requires pc == WaitHse ==> counter == n - 7
    ensures Progress(answers, n + 1, timeout, NextPc(pc, counter, answers[n], timeout), i2, p2, w2)
  {
    i2, p2, w2 := i, p, w;
    if Rank(pc) < 10 {
      i2 := FirstWaitStep(answers, n, timeout, pc, counter, i, p, w);
    } else if Rank(pc) < 18 {
      p2 := SecondWaitStep(answers, n, timeout, pc, counter, i, p, w);
    } else {
      w2 := ThirdWaitStep(answers, n, timeout, pc, counter, i, p, w);
    }
  }

  lemma FirstWaitStep(answers: seq<HwAnswer>, n: nat, timeout: Word, pc: Pc, counter: Word, i: nat, p: nat, w: nat)
    returns (i2: nat)
    requires n < |answers| && Progress(answers, n, timeout, pc, i, p, w) && Rank(pc) < 10
    requires pc == WaitHse ==> counter == n - 7
    ensures Progress(answers, n + 1, timeout, NextPc(pc, counter, answers[n], timeout), i2, p, w)
  {
    hide HseEnds, HseWaits, HsePassed, PllEnds, SwitchEnds;
    i2 := i;
    Extend(answers, n, timeout, i, p, w);
    match pc
    case EnableHse => HseWaitBegins(answers, timeout);
    case WaitHse =>
      HseWaitEnds(answers, n, timeout);
      if answers[n].hserdy == 1 || (n - 6) % WORD == timeout { i2 := n - 6; }
    case CheckHse => HsePasses(answers, timeout, i);
    case _ =>
  }

  lemma SecondWaitStep(answers: seq<HwAnswer>, n: nat, timeout: Word, pc: Pc, counter: Word, i: nat, p: nat, w: nat)
    returns (p2: nat)
    requires n < |answers| && Progress(answers, n, timeout, pc, i, p, w) && 10 <= Rank(pc) < 18
    ensures Progress(answers, n + 1, timeout, NextPc(pc, counter, answers[n], timeout), i, p2, w)
  {
    hide HseEnds, HsePassed, PllWaits, PllEnds, SwitchEnds;
    p2 := if pc == WaitPll then n else p;
    Extend(answers, n, timeout, i, p, w);
    PllWaitEnds(answers, n, i);
  }

  lemma ThirdWaitStep(answers: seq<HwAnswer>, n: nat, timeout: Word, pc: Pc, counter: Word, i: nat, p: nat, w: nat)
    returns (w2: nat)
    requires n < |answers| && Progress(answers, n, timeout, pc, i, p, w) && 18 <= Rank(pc)
    ensures Progress(answers, n + 1, timeout, NextPc(pc, counter, answers[n], timeout), i, p, w2)
  {
    hide HseEnds, HsePassed, PllEnds, SwitchWaits, SwitchEnds;
    w2 := if pc == WaitSwitch then n else w;
    Extend(answers, n, timeout, i, p, w);
    SwitchWaitEnds(answers, n, p);
  }

  lemma {:induction false} Trace(m: Machine, answers: seq<HwAnswer>, n: nat, timeout: Word)
    returns (i: nat, p: nat, w: nat)
    requires m.pc == SetHsion && n <= |answers|
    ensures Progress(answers, n, timeout, Run(m, answers[..n], timeout).pc, i, p, w)
    decreases n
  {
    hide *;
    RunAccess(m, answers, n, timeout);
    if n == 0 {
      i, p, w := 0, 0, 0;
      ProgressStart(answers, timeout);
    } else {
      var before := answers[..n - 1];
      var s := Run(m, before, timeout);
      i, p, w := Trace(m, answers, n - 1, timeout);
      if s.pc == WaitHse {
        WaitingSince(answers, n - 1, timeout, i, p, w);
        HseWait(m, before, n - 8, timeout);
      }
      i, p, w := ProgressStep(answers, n - 1, timeout, s.pc, s.counter, i, p, w);
      StepPc(s, answers[n - 1], timeout);
    }
  }

  lemma RunAccess(m: Machine, answers: seq<HwAnswer>, n: nat, timeout: Word)
    requires n <= |answers|
    ensures if n == 0 then Run(m, answers[..n], timeout) == m
            else Run(m, answers[..n], timeout) == Step(Run(m, answers[..n - 1], timeout), answers[n - 1], timeout)
  {
    hide Step;
    if n > 0 { assert answers[..n][..n - 1] == answers[..n - 1]; }
  }

  lemma ProgressStart(answers: seq<HwAnswer>, timeout: Word)
    ensures Progress(answers, 0, timeout, SetHsion, 0, 0, 0)
  {
  }

  lemma WaitingSince(answers: seq<HwAnswer>, n: nat, timeout: Word, i: nat, p: nat, w: nat)
    requires n <= |answers| && Progress(answers, n, timeout, WaitHse, i, p, w)
    ensures n >= 7
  {
  }

  /** The readings that end each wait are determined by the answers. */
  lemma ScheduleIsUnique(answers: seq<HwAnswer>, n: nat, timeout: Word, i: nat, p: nat, w: nat, i2: nat, p2: nat)
    requires Schedule(answers, n, timeout, i, p, w) && HseEnds(answers, n, timeout, i2)
    ensures i2 == i
    ensures PllEnds(answers, n, i2, p2) ==> p2 == p
  {
  }

  /** The sequence has completed exactly when the answers hold, in this order: an end of the
      HSE wait after i readings, a set second look at HSERDY, a first set PLLRDY after the PLL
      is on, and a first SWS that shows the PLL after it is selected. So every wait is left at
      the first suitable reading. */
  lemma CompletesExactly(m: Machine, answers: seq<HwAnswer>, timeout: Word)
    requires m.pc == SetHsion
    ensures Run(m, answers, timeout).pc == Done <==>
            exists i: nat, p: nat, w: nat :: Schedule(answers, |answers|, timeout, i, p, w)
  {
    hide Run;
    var n := |answers|;
    assert answers[..n] == answers;
    var i2, p2, w2 := Trace(m, answers, n, timeout);
    if Run(m, answers, timeout).pc == Done {
      assert Schedule(answers, n, timeout, i2, p2, w2);
    }
    if i: nat, p: nat, w: nat :| Schedule(answers, n, timeout, i, p, w) {
      ScheduleEnds(answers, timeout, Run(m, answers, timeout).pc, i, p, w, i2, p2, w2);
    }
  }

  lemma ScheduleEnds(answers: seq<HwAnswer>, timeout: Word, pc: Pc, i: nat, p: nat, w: nat, i2: nat, p2: nat, w2: nat)
    requires Schedule(answers, |answers|, timeout, i, p, w) && Progress(answers, |answers|, timeout, pc, i2, p2, w2)
    ensures pc == Done
  {
    if Rank(pc) >= 8 { ScheduleIsUnique(answers, |answers|, timeout, i, p, w, i2, p2); }
  }

  /** Hardware that is always ready: 21 accesses, whatever the time-out. */
  lemma ReadyHardwareCompletes(m: Machine, answers: seq<HwAnswer>, timeout: Word)
    requires m.pc == SetHsion && forall k :: 0 <= k < |answers| ==> answers[k] == Answer(1, 1, 2)
    ensures Run(m, answers, timeout).pc == Done <==> |answers| >= 21
  {
    hide Run;
    CompletesExactly(m, answers, timeout);
    var n := |answers|;
    if n >= 21 { assert Schedule(answers, n, timeout, 1, 16, 20); }
    if i: nat, p: nat, w: nat :| Schedule(answers, n, timeout, i, p, w) {
      assert p + 4 <= w < n && 15 + i <= p;
    }
  }

  ghost predicate PllReadyAfter(hw: nat -> HwAnswer, k: nat) {
    exists z: nat :: k <= z && hw(z).pllrdy == 1
  }

  ghost predicate SwitchedAfter(hw: nat -> HwAnswer, k: nat) {
    exists z: nat :: k <= z && hw(z).sws == 2
  }

  function Prefix(hw: nat -> HwAnswer, n: nat): (s: seq<HwAnswer>)
    ensures |s| == n && forall k :: 0 <= k < n ==> s[k] == hw(k)
  {
    seq(n, k requires 0 <= k < n => hw(k))
  }

  lemma {:induction false} FirstPll(hw: nat -> HwAnswer, lo: nat, z: nat) returns (p: nat)
    requires lo <= z && hw(z).pllrdy == 1
    ensures lo <= p && hw(p).pllrdy == 1 && forall k: nat :: lo <= k < p ==> hw(k).pllrdy == 0
    decreases z - lo
  {
    if hw(lo).pllrdy == 1 { p := lo; } else { p := FirstPll(hw, lo + 1, z); }
  }

  lemma PllTime(hw: nat -> HwAnswer, lo: nat) returns (p: nat)
    requires PllReadyAfter(hw, lo)
    ensures lo <= p && hw(p).pllrdy == 1 && forall k: nat :: lo <= k < p ==> hw(k).pllrdy == 0
  {
    var z: nat :| lo <= z && hw(z).pllrdy == 1;
    p := FirstPll(hw, lo, z);
  }

  lemma {:induction false} FirstSwitch(hw: nat -> HwAnswer, lo: nat, z: nat) returns (w: nat)
    requires lo <= z && hw(z).sws == 2
    ensures lo <= w && hw(w).sws == 2 && forall k: nat :: lo <= k < w ==> hw(k).sws != 2
    decreases z - lo
  {
    if hw(lo).sws == 2 { w := lo; } else { w := FirstSwitch(hw, lo + 1, z); }
  }

  lemma SwitchTime(hw: nat -> HwAnswer, lo: nat) returns (w: nat)
    requires SwitchedAfter(hw, lo)
    ensures lo <= w && hw(w).sws == 2 && forall k: nat :: lo <= k < w ==> hw(k).sws != 2
  {
    var z: nat :| lo <= z && hw(z).sws == 2;
    w := FirstSwitch(hw, lo, z);
  }

  /** Liveness: on hardware whose crystal is first seen ready within the time-out and still is
      at the next look, and that never stops showing PLLRDY and the switch again, the sequence
      reaches its end. */
  lemma StartupCompletes(m: Machine, hw: nat -> HwAnswer, timeout: Word, h: nat)
    requires m.pc == SetHsion && 7 <= h < 7 + Limit(timeout)
    requires (forall k: nat :: 7 <= k < h ==> hw(k).hserdy == 0) && hw(h).hserdy == 1 && hw(h + 1).hserdy == 1
    requires forall k: nat :: PllReadyAfter(hw, k)
    requires forall k: nat :: SwitchedAfter(hw, k)
    ensures exists n: nat :: Run(m, Prefix(hw, n), timeout).pc == Done
  {
    hide *;
    var p := PllTime(hw, 9 + h);
    var w := SwitchTime(hw, p + 4);
    PrefixSchedule(hw, timeout, h, p, w);
    ScheduledRun(m, Prefix(hw, w + 1), timeout, h - 6, p, w);
  }

  lemma ScheduledRun(m: Machine, answers: seq<HwAnswer>, timeout: Word, i: nat, p: nat, w: nat)
    requires m.pc == SetHsion && Schedule(answers, |answers|, timeout, i, p, w)
    ensures Run(m, answers, timeout).pc == Done
  {
    hide Run, Schedule;
    CompletesExactly(m, answers, timeout);
  }

  lemma PrefixSchedule(hw: nat -> HwAnswer, timeout: Word, h: nat, p: nat, w: nat)
    requires 7 <= h < 7 + Limit(timeout)
    requires (forall k: nat :: 7 <= k < h ==> hw(k).hserdy == 0) && hw(h).hserdy == 1 && hw(h + 1).hserdy == 1
    requires 9 + h <= p && hw(p).pllrdy == 1 && forall k: nat :: 9 + h <= k < p ==> hw(k).pllrdy == 0
    requires p + 4 <= w && hw(w).sws == 2 && forall k: nat :: p + 4 <= k < w ==> hw(k).sws != 2
    ensures Schedule(Prefix(hw, w + 1), w + 1, timeout, h - 6, p, w)
  {
    hide Limit;
  }

  // ---------------------------------------------------------------- the clocks after start-up

  /** Whenever the sequence has selected the PLL and the hardware confirms the switch, both
      reporting functions agree: HCLK is the PLL output, PCLK1 a quarter, PCLK2 a half. */
  lemma ClocksAfterStartup(m: Machine, answers: seq<HwAnswer>, timeout: Word, hsi: Word, hse: Word)
    requires m.pc == SetHsion && Rank(Run(m, answers, timeout).pc) >= 21
    ensures var s := Run(m, answers, timeout);
            var c := Clocks(DecodeCfgr(s.cfgr), DecodePll(s.pllcfgr));
            InRange(c) && LegalPrescaler(c) && Programmed(c, Dividers(1, 4, 2)) &&
            (c.cfgr.sws == 2 ==>
              var f := hse / 8 * 336 % WORD / 2;
              f < WORD && CoreClock(c, hsi, hse) == Some(f) &&
              Report(c, hsi, hse) == Some(Frequencies(f, f, f / 4, f / 2)))
  {
    hide DecodeCfgr, DecodePll, PackPll, Run, Bit, Get, Shr;
    RunKeepsInv(m, answers, timeout);
    PllPacking(0x40_0000, 8, 336, 2, 7);
    var s := Run(m, answers, timeout);
    DecodeInRange(s.cfgr, s.pllcfgr);
    Powers();
    var f := hse / 8 * 336 % WORD / 2;
    ShrIsDiv(f, 0);
    ShrIsDiv(f, 1);
    ShrIsDiv(f, 2);
  }

  /** With the board's 8 MHz crystal: 168, 42 and 84 MHz, the initial SystemCoreClock. */
  lemma BoardClocks(m: Machine, answers: seq<HwAnswer>, timeout: Word)
    requires m.pc == SetHsion && Rank(Run(m, answers, timeout).pc) >= 21
    requires DecodeCfgr(Run(m, answers, timeout).cfgr).sws == 2
    ensures var s := Run(m, answers, timeout);
            var c := Clocks(DecodeCfgr(s.cfgr), DecodePll(s.pllcfgr));
            InRange(c) && Report(c, 16_000_000, 8_000_000) ==
              Some(Frequencies(168_000_000, 168_000_000, 42_000_000, 84_000_000))
  {
    hide DecodeCfgr, DecodePll, Run, Report, CoreClock, InRange, Programmed;
    ClocksAfterStartup(m, answers, timeout, 16_000_000, 8_000_000);
  }

  /** From power-on, through start-up with any hardware, at any access after CFGR has been
      reset, and then through any history of clock configuration calls: the two functions
      report the same HCLK, or both divide by zero. */
  lemma ReportsAgreeFromPowerOn(m: Machine, answers: seq<HwAnswer>, timeout: Word, calls: seq<Call>, hsi: Word, hse: Word)
    requires m.pc == SetHsion && Rank(Run(m, answers, timeout).pc) >= 2 && AllLegal(calls)
    ensures var s := Run(m, answers, timeout);
            var c := ClockTree.Run(Clocks(DecodeCfgr(s.cfgr), DecodePll(s.pllcfgr)), calls);
            InRange(c) &&
            match Report(c, hsi, hse)
            case None => CoreClock(c, hsi, hse) == None
            case Some(f) => CoreClock(c, hsi, hse) == Some(f.hclk)
  {
    hide DecodeCfgr, DecodePll, MainPll, Run, ClockTree.Run, Bit, Get;
    RunKeepsInv(m, answers, timeout);
    var s := Run(m, answers, timeout);
    DecodeInRange(s.cfgr, s.pllcfgr);
    ReportsAgreeAfterAnyHistory(Clocks(DecodeCfgr(s.cfgr), DecodePll(s.pllcfgr)), calls, hsi, hse);
  }
}
