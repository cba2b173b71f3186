/** The USART driver: the baud-rate divider of USART_Init, and the interrupt-enable bits
    under every function that writes CR1, CR2 or CR3. */
module Usart {
  import opened Words
  import C = ClockTree

  // ---------------------------------------------------------------- baud rate: specification

  /** Samples per bit: 16, or 8 with OVER8 set. */
  predicate IsOversampling(n: nat) { n == 16 || n == 8 }

  predicate IsBaudRate(b: Word) { 0 < b < 7_500_001 }

  /** integerdivider: the divider in hundredths, `25 * f / (4 * b)` or `25 * f / (2 * b)`,
      with the product 25 * f kept to 32 bits. */
  function Hundredths(f: Word, b: Word, n: nat): nat
    requires IsBaudRate(b) && IsOversampling(n)
  {
    25 * f % WORD / (n / 4 * b)
  }

  /** The fraction in n-ths, rounded to nearest; it can come out as n itself. */
  function Fraction(id: nat, n: nat): nat {
    (id % 100 * n + 50) / 100
  }

  /** A 12-bit mantissa above a fraction that is masked to n values. */
  function Register(id: nat, n: nat): nat
    requires n > 0
  {
    id / 100 % 4096 * 16 + Fraction(id, n) % n
  }

  /** The BRR content. */
  function BaudRegister(f: Word, b: Word, n: nat): nat
    requires IsBaudRate(b) && IsOversampling(n)
  {
    Register(Hundredths(f, b, n), n)
  }

  /** The clock divider the hardware applies for a BRR content. */
  function Divisor(brr: nat, n: nat): nat {
    n * (brr / 16) + brr % 16
  }

  /** The divider the rounding aims at, before BRR loses any carry or high bit. */
  function Rounded(id: nat, n: nat): nat {
    n * (id / 100) + Fraction(id, n)
  }

  // ---------------------------------------------------------------- baud rate: accuracy

  /** Rounding stays within half a step of the hundredths. */
  lemma RoundedBounds(id: nat, n: nat)
    requires IsOversampling(n)
    ensures n * id - 49 <= 100 * Rounded(id, n) <= n * id + 50
    ensures Fraction(id, n) <= n
  {
  }

  /** What BRR keeps of the rounded divider. */
  lemma DivisorValue(id: nat, n: nat)
    requires IsOversampling(n)
    ensures Divisor(Register(id, n), n) ==
            Rounded(id, n) - 4096 * n * (id / 409600) - (if Fraction(id, n) == n then n else 0)
  {
    RoundedBounds(id, n);
    var m, f := id / 100, Fraction(id, n);
    DivDiv(id, 100, 4096);
    var low := if f == n then 0 else f;
    DivModUnique(f, n, if f == n then 1 else 0, low);
    Unpack(m, low, n);
  }

  lemma Unpack(m: nat, low: nat, n: nat)
    requires IsOversampling(n) && low < 16
    ensures Divisor(m % 4096 * 16 + low, n) == n * m - 4096 * n * (m / 4096) + low
  {
    DivModUnique(m % 4096 * 16 + low, 16, m % 4096, low);
  }

  lemma Bracket(x: nat, a: nat)
    requires a > 0
    ensures a * (x / a) <= x < a * (x / a) + a
  {
  }

  lemma QuotientBounds(x: nat, b: nat, q: nat)
    requires b > 0 && q > 0
    ensures q * b > 0 && q * (b * (x / (q * b))) <= x < q * (b * (x / (q * b))) + q * b
  {
    MulMono(q, 1, b);
    Bracket(x, q * b);
    MulAssoc(q, b, x / (q * b));
  }

  /** The quotient brackets the wrapped product. */
  lemma HundredthsBounds(f: Word, b: Word, n: nat)
    requires IsBaudRate(b) && IsOversampling(n)
    ensures var id, x := Hundredths(f, b, n), 25 * f % WORD;
            n * (b * id) <= 4 * x < n * (b * id) + n * b
  {
    QuotientBounds(25 * f % WORD, b, n / 4);
  }

  ghost predicate Accurate(f: nat, b: nat, n: nat, d: nat) {
    100 * f - (n + 49) * b < 100 * (b * d) <= 100 * f + 50 * b
  }

  /** The baud rate is right exactly when 25 * f fits 32 bits, the mantissa fits 12 bits and
      the rounding does not carry into the mantissa. "Right" means that 100 * b * divisor
      lies within 65 b below (57 b with OVER8) and 50 b above 100 * f. */
  lemma BaudRateIsExact(f: Word, b: Word, n: nat)
    requires IsBaudRate(b) && IsOversampling(n)
    ensures var id := Hundredths(f, b, n);
            Accurate(f, b, n, Divisor(BaudRegister(f, b, n), n)) <==>
            25 * f < WORD && id < 409600 && id % 100 * n + 50 < 100 * n
  {
    hide Hundredths, Register, Divisor, Rounded, Fraction, Accurate;
    var id := Hundredths(f, b, n);
    Loss(id, n);
    CarryExactly(id, n);
    JudgeBaud(f, b, n, Divisor(Register(id, n), n), id < 409600 && Fraction(id, n) != n);
  }

  /** Multiplication under a name that can be hidden, so that the judgement is linear. */
  function Times(a: nat, b: nat): nat { a * b }

  /** The judgement from the bounds on the quotient, on the rounding and on the loss. */
  lemma JudgeBaud(f: Word, b: Word, n: nat, d: nat, kept: bool)
    requires IsBaudRate(b) && IsOversampling(n)
    requires var r := Rounded(Hundredths(f, b, n), n); if kept then d == r else d + n <= r
    ensures Accurate(f, b, n, d) <==> 25 * f < WORD && kept
  {
    hide *;
    var id := Hundredths(f, b, n);
    var r := Rounded(id, n);
    QuotientTimes(f, b, n);
    RoundingTimes(b, n, id);
    LossTimes(b, n, r, d, kept);
    WrapBounds(25 * f);
    AccurateTimes(f, b, n, d);
    JudgeDivisor(f, 25 * f % WORD, b, Times(n, b), Times(n, Times(b, id)), Times(b, r), Times(b, d), kept);
  }

  lemma QuotientTimes(f: Word, b: Word, n: nat)
    requires IsBaudRate(b) && IsOversampling(n)
    ensures var y := Times(n, Times(b, Hundredths(f, b, n)));
            y <= 4 * (25 * f % WORD) < y + Times(n, b)
  {
    hide Hundredths;
    HundredthsBounds(f, b, n);
  }

  lemma RoundingTimes(b: nat, n: nat, id: nat)
    requires IsOversampling(n)
    ensures var y := Times(n, Times(b, id));
            y - 49 * b <= 100 * Times(b, Rounded(id, n)) <= y + 50 * b
  {
    hide Rounded;
    RoundedBounds(id, n);
    ScaledBounds(b, n, id, Rounded(id, n));
  }

  lemma LossTimes(b: nat, n: nat, r: nat, d: nat, kept: bool)
    requires IsOversampling(n) && if kept then d == r else d + n <= r
    ensures if kept then Times(b, d) == Times(b, r) else Times(b, d) + Times(n, b) <= Times(b, r)
    ensures b <= Times(n, b) <= 16 * b
  {
    if !kept { ScaledLoss(b, d, r, n); }
    StepBounds(b, n);
  }

  lemma AccurateTimes(f: nat, b: nat, n: nat, d: nat)
    ensures Accurate(f, b, n, d) <==>
            100 * f - (Times(n, b) + 49 * b) < 100 * Times(b, d) <= 100 * f + 50 * b
  {
    assert (n + 49) * b == n * b + 49 * b;
  }

  lemma StepBounds(b: nat, n: nat)
    requires IsOversampling(n)
    ensures b <= n * b <= 16 * b
  {
  }

  lemma WrapBounds(x: nat)
    ensures if x < WORD then x % WORD == x else x % WORD <= x - WORD
  {
  }

  /** BRR loses nothing, or at least one mantissa step. */
  lemma Loss(id: nat, n: nat)
    requires IsOversampling(n)
    ensures var r, d := Rounded(id, n), Divisor(Register(id, n), n);
            if id < 409600 && Fraction(id, n) != n then d == r else d + n <= r
  {
    hide Register, Divisor, Rounded, Fraction;
    DivisorValue(id, n);
  }

  lemma ScaledLoss(b: nat, d: nat, r: nat, n: nat)
    requires d + n <= r
    ensures b * d + n * b <= b * r
  {
    MulMono(b, d + n, r);
  }

  /** The linear core: nb, nbi, br, bd stand for b times the samples, the hundredths, the
      rounded divider and the divider kept; x is 25 * f after wrapping. */
  lemma JudgeDivisor(f: nat, x: nat, b: Word, nb: nat, nbi: nat, br: nat, bd: nat, kept: bool)
    requires IsBaudRate(b) && b <= nb <= 16 * b
    requires if 25 * f < WORD then x == 25 * f else x <= 25 * f - WORD
    requires nbi <= 4 * x < nbi + nb
    requires nbi - 49 * b <= 100 * br <= nbi + 50 * b
    requires if kept then bd == br else bd + nb <= br
    ensures 100 * f - (nb + 49 * b) < 100 * bd <= 100 * f + 50 * b <==> 25 * f < WORD && kept
  {
  }

  lemma ScaledBounds(b: nat, n: nat, id: nat, r: nat)
    requires n * id - 49 <= 100 * r <= n * id + 50
    ensures n * (b * id) - 49 * b <= 100 * (b * r) <= n * (b * id) + 50 * b
  {
    MulMono(b, 100 * r, n * id + 50);
    MulMono(b, n * id, 100 * r + 49);
    Scale(b, n, id, 50);
    Scale(b, n, id, 0);
    Scale(b, 100, r, 49);
    Scale(b, 100, r, 0);
  }

  lemma Scale(b: nat, n: nat, k: nat, c: nat)
    ensures b * (n * k + c) == n * (b * k) + c * b
  {
    MulAssoc(b, n, k);
    MulAssoc(n, b, k);
  }

  lemma CarryExactly(id: nat, n: nat)
    requires IsOversampling(n)
    ensures Fraction(id, n) == n <==> id % 100 * n + 50 >= 100 * n
  {
  }

  /** The two thresholds: 97 hundredths with 16 samples, 94 with 8. With no other loss the
      divider is then exactly one mantissa step below the rounded value. */
  lemma LostCarry(f: Word, b: Word, n: nat)
    requires IsBaudRate(b) && IsOversampling(n)
    ensures var id := Hundredths(f, b, n);
            (id % 100 * n + 50 >= 100 * n <==> id % 100 >= (if n == 16 then 97 else 94)) &&
            (id < 409600 && id % 100 * n + 50 >= 100 * n ==>
               Divisor(BaudRegister(f, b, n), n) == Rounded(id, n) - n)
  {
    hide Hundredths, Register, Divisor, Rounded, Fraction;
    DivisorValue(Hundredths(f, b, n), n);
    CarryExactly(Hundredths(f, b, n), n);
  }

  /** A clock and a baud rate where the carry is lost: BRR is 0 instead of 16. */
  lemma LostCarryExample()
    ensures BaudRegister(15_600_000, 1_000_000, 16) == 0
    ensures Rounded(Hundredths(15_600_000, 1_000_000, 16), 16) == 16
  {
    hide Register, Rounded;
    assert Hundredths(15_600_000, 1_000_000, 16) == 97 by { assert 390_000_000 / 4_000_000 == 97; }
    CarriedFraction(97, 16);
  }

  /** Below one whole step, a carry leaves nothing in BRR. */
  lemma CarriedFraction(id: nat, n: nat)
    requires IsOversampling(n) && id < 100 && id * n + 50 >= 100 * n
    ensures Register(id, n) == 0 && Rounded(id, n) == n
  {
    hide Fraction;
    CarryExactly(id, n);
  }

  /** The same against the clock tree: after any history of clock configuration calls, with
      T the product of the last AHB and APB dividers asked for, the divider USART_Init
      writes is accurate for the system clock itself, up to the truncation of the bus clock. */
  lemma BaudRateAfterAnyClockHistory(s: C.Clocks, d: C.Dividers, calls: seq<C.Call>, hsi: Word, hse: Word,
                                     apb2: bool, b: Word, n: nat)
    requires C.Programmed(s, d) && C.AllLegal(calls) && IsBaudRate(b) && IsOversampling(n)
    requires C.InRange(C.Run(s, calls)) && C.Report(C.Run(s, calls), hsi, hse).Some?
    ensures var r := C.Report(C.Run(s, calls), hsi, hse).value;
            var f := if apb2 then r.pclk2 else r.pclk1;
            var e := C.LastDividers(d, calls);
            var t := e.ahb * (if apb2 then e.apb2 else e.apb1);
            var id := Hundredths(f, b, n);
            25 * f < WORD && id < 409600 && id % 100 * n + 50 < 100 * n ==>
              var x := 100 * (b * Divisor(BaudRegister(f, b, n), n));
              t > 0 && 100 * r.sysclk - t * ((n + 49) * b + 100) < t * x <= 100 * r.sysclk + t * (50 * b)
  {
    hide BaudRegister, Divisor, Hundredths, C.Run, C.Report, C.InRange, C.LastDividers, C.Sysclk;
    C.DividersCompose(s, d, calls, hsi, hse);
    var r := C.Report(C.Run(s, calls), hsi, hse).value;
    var f := if apb2 then r.pclk2 else r.pclk1;
    var e := C.LastDividers(d, calls);
    BaudRateOnBus(r.sysclk, f, e.ahb * (if apb2 then e.apb2 else e.apb1), b, n);
  }

  /** The accuracy against a clock that is divided by t. */
  lemma BaudRateOnBus(sysclk: Word, f: Word, t: nat, b: Word, n: nat)
    requires t > 0 && f == sysclk / t && IsBaudRate(b) && IsOversampling(n)
    ensures var id, x := Hundredths(f, b, n), 100 * (b * Divisor(BaudRegister(f, b, n), n));
            25 * f < WORD && id < 409600 && id % 100 * n + 50 < 100 * n ==>
              100 * sysclk - t * ((n + 49) * b + 100) < t * x <= 100 * sysclk + t * (50 * b)
  {
    hide BaudRegister, Divisor, Hundredths;
    BaudRateIsExact(f, b, n);
    if Accurate(f, b, n, Divisor(BaudRegister(f, b, n), n)) {
      ScaleByDividers(sysclk, f, t, (n + 49) * b, 50 * b, 100 * (b * Divisor(BaudRegister(f, b, n), n)));
    }
  }

  lemma ScaleByDividers(sysclk: nat, f: nat, t: nat, lo: nat, hi: nat, x: nat)
    requires t > 0 && f == sysclk / t && 100 * f - lo < x <= 100 * f + hi
    ensures 100 * sysclk - t * (lo + 100) < t * x <= 100 * sysclk + t * hi
  {
    Bracket(sysclk, t);
    MulMono(t, x, 100 * f + hi);
    MulMono(t, 100 * f + 1, x + lo);
    Scale(t, 100, f, 0);
    DistributeLeft(t, 100 * f, hi);
    DistributeLeft(t, 100 * f, 1);
    DistributeLeft(t, x, lo);
    DistributeLeft(t, lo, 100);
  }

  // ---------------------------------------------------------------- interrupts: specification

  datatype Interrupt = PE | TXE | TC | RXNE | IDLE | LBD | CTS | ERR

  /** USART_IT_x: status bit, register number and bit in one code. */
  function ConfigCode(it: Interrupt): Word {
    match it
    case PE => 0x0028 case TXE => 0x0727 case TC => 0x0626 case RXNE => 0x0525
    case IDLE => 0x0424 case LBD => 0x0846 case CTS => 0x096A case ERR => 0x0060
  }

  /** The enable bits by name: PEIE, TXEIE, TCIE, RXNEIE, IDLEIE in CR1, LBDIE in CR2,
      CTSIE and EIE in CR3. */
  function EnableRegister(it: Interrupt): nat {
    match it
    case LBD => 2
    case CTS => 3
    case ERR => 3
    case _ => 1
  }

  function EnableBit(it: Interrupt): nat {
    match it
    case PE => 8 case TXE => 7 case TC => 6 case RXNE => 5
    case IDLE => 4 case LBD => 6 case CTS => 10 case ERR => 0
  }

  /** The sources USART_GetITStatus can be asked about, with the interrupt that enables
      each and its flag in SR. */
  datatype Source = Enabled(it: Interrupt) | OreRx | OreEr | Noise | Framing

  predicate IsSource(s: Source) { s != Enabled(ERR) }

  function SourceCode(s: Source): Word {
    match s
    case Enabled(it) => ConfigCode(it)
    case OreRx => 0x0325
    case OreEr => 0x0360
    case Noise => 0x0260
    case Framing => 0x0160
  }

  function EnabledBy(s: Source): Interrupt {
    match s
    case Enabled(it) => it
    case OreRx => RXNE
    case _ => ERR
  }

  function StatusBit(s: Source): nat {
    match s
    case Enabled(it) =>
      (match it case PE => 0 case TXE => 7 case TC => 6 case RXNE => 5 case IDLE => 4 case LBD => 8 case CTS => 9 case ERR => 0)
    case OreRx => 3
    case OreEr => 3
    case Noise => 2
    case Framing => 1
  }

  datatype Control = Control(cr1: Word, cr2: Word, cr3: Word)

  function RegisterOf(c: Control, number: nat): Word {
    if number == 1 then c.cr1 else if number == 2 then c.cr2 else c.cr3
  }

  predicate IsEnabled(c: Control, it: Interrupt) {
    Bit(RegisterOf(c, EnableRegister(it)), EnableBit(it))
  }

  /** The enable bits PEIE, TXEIE, TCIE, RXNEIE, IDLEIE, LBDIE, CTSIE and EIE and the flags of SR
      at the places the reference manual gives them. */
  lemma RegisterBits(c: Control)
    ensures IsEnabled(c, PE) == Bit(c.cr1, 8) && IsEnabled(c, TXE) == Bit(c.cr1, 7) && IsEnabled(c, TC) == Bit(c.cr1, 6)
    ensures IsEnabled(c, RXNE) == Bit(c.cr1, 5) && IsEnabled(c, IDLE) == Bit(c.cr1, 4) && IsEnabled(c, LBD) == Bit(c.cr2, 6)
    ensures IsEnabled(c, CTS) == Bit(c.cr3, 10) && IsEnabled(c, ERR) == Bit(c.cr3, 0)
    ensures StatusBit(Enabled(PE)) == 0 && StatusBit(Framing) == 1 && StatusBit(Noise) == 2
    ensures StatusBit(OreRx) == StatusBit(OreEr) == 3 && StatusBit(Enabled(IDLE)) == 4 && StatusBit(Enabled(RXNE)) == 5
    ensures StatusBit(Enabled(TC)) == 6 && StatusBit(Enabled(TXE)) == 7 && StatusBit(Enabled(LBD)) == 8
    ensures StatusBit(Enabled(CTS)) == 9 && EnabledBy(OreRx) == RXNE
    ensures EnabledBy(OreEr) == EnabledBy(Noise) == EnabledBy(Framing) == ERR
  {
  }

  // ---------------------------------------------------------------- the control register writers

  datatype Call =
    | ITConfig(it: Interrupt, on: bool)
    | Init(stopBits: Word, wordLength: Word, parity: Word, mode: Word, flowControl: Word)
    | ClockInit(clock: Word, cpol: Word, cpha: Word, lastBit: Word)
    | Cmd(on: bool)
    | OverSampling8Cmd(on: bool)
    | OneBitMethodCmd(on: bool)
    | SetAddress(address: Word)
    | ReceiverWakeUpCmd(on: bool)
    | WakeUpConfig(wakeUp: Word)
    | LINBreakDetectLengthConfig(length: Word)
    | LINCmd(on: bool)
    | SendBreak
    | HalfDuplexCmd(on: bool)
    | SmartCardCmd(on: bool)
    | SmartCardNACKCmd(on: bool)
    | IrDAConfig(irdaMode: Word)
    | IrDACmd(on: bool)
    | DMACmd(request: Word, on: bool)

  predicate Legal(c: Call) {
    match c
    case Init(stop, len, parity, mode, flow) =>
      stop in {0, 0x1000, 0x2000, 0x3000} && len in {0, 0x1000} && parity in {0, 0x400, 0x600} &&
      mode in {4, 8, 12} && flow in {0, 0x100, 0x200, 0x300}
    case ClockInit(clock, cpol, cpha, last) =>
      clock in {0, 0x800} && cpol in {0, 0x400} && cpha in {0, 0x200} && last in {0, 0x100}
    case SetAddress(a) => a <= 0xF
    case WakeUpConfig(w) => w in {0, 0x800}
    case LINBreakDetectLengthConfig(l) => l in {0, 0x20}
    case IrDAConfig(m) => m in {0, 4}
    case DMACmd(r, _) => r in {0x40, 0x80, 0xC0}
    case _ => true
  }

  /** Clear m, then set x. */
  function Write(r: Word, m: Word, x: Word): Word {
    Or(And(r, Not(m)), x)
  }

  function Switch(r: Word, bit: Word, on: bool): Word {
    if on then Or(r, bit) else And(r, Not(bit))
  }

  /** The registers after a call. */
  function Apply(c: Control, call: Call): Control
    requires Legal(call)
  {
    match call
    case ITConfig(it, on) =>
      var bit := Shl(1, EnableBit(it));
      (match EnableRegister(it)
       case 1 => c.(cr1 := Switch(c.cr1, bit, on))
       case 2 => c.(cr2 := Switch(c.cr2, bit, on))
       case _ => c.(cr3 := Switch(c.cr3, bit, on)))
    case Init(stop, len, parity, mode, flow) =>
      Control(Write(c.cr1, 0x160C, Or(Or(len, parity), mode)), Write(c.cr2, 0x3000, stop), Write(c.cr3, 0x0300, flow))
    case ClockInit(clock, cpol, cpha, last) =>
      c.(cr2 := Write(c.cr2, 0x0F00, Or(Or(Or(clock, cpol), cpha), last)))
    case Cmd(on) => c.(cr1 := Switch(c.cr1, 0x2000, on))
    case OverSampling8Cmd(on) => c.(cr1 := Switch(c.cr1, 0x8000, on))
    case OneBitMethodCmd(on) => c.(cr3 := Switch(c.cr3, 0x0800, on))
    case SetAddress(a) => c.(cr2 := Write(c.cr2, 0x000F, a))
    case ReceiverWakeUpCmd(on) => c.(cr1 := Switch(c.cr1, 0x0002, on))
    case WakeUpConfig(w) => c.(cr1 := Write(c.cr1, 0x0800, w))
    case LINBreakDetectLengthConfig(l) => c.(cr2 := Write(c.cr2, 0x0020, l))
    case LINCmd(on) => c.(cr2 := Switch(c.cr2, 0x4000, on))
    case SendBreak => c.(cr1 := Or(c.cr1, 0x0001))
    case HalfDuplexCmd(on) => c.(cr3 := Switch(c.cr3, 0x0008, on))
    case SmartCardCmd(on) => c.(cr3 := Switch(c.cr3, 0x0020, on))
    case SmartCardNACKCmd(on) => c.(cr3 := Switch(c.cr3, 0x0010, on))
    case IrDAConfig(m) => c.(cr3 := Write(c.cr3, 0x0004, m))
    case IrDACmd(on) => c.(cr3 := Switch(c.cr3, 0x0002, on))
    case DMACmd(r, on) => c.(cr3 := Switch(c.cr3, r, on))
  }

  predicate AllLegal(calls: seq<Call>) {
    forall i :: 0 <= i < |calls| ==> Legal(calls[i])
  }

  function Run(c: Control, calls: seq<Call>): Control
    requires AllLegal(calls)
  {
    if calls == [] then c else Apply(Run(c, calls[..|calls| - 1]), calls[|calls| - 1])
  }

  /** The interrupt's state read off the USART_ITConfig calls alone: the last one wins. */
  predicate Asked(before: bool, calls: seq<Call>, it: Interrupt) {
    if calls == [] then before
    else match calls[|calls| - 1]
      case ITConfig(i, on) => if i == it then on else Asked(before, calls[..|calls| - 1], it)
      case _ => Asked(before, calls[..|calls| - 1], it)
  }

  // ---------------------------------------------------------------- no other writer touches the enable bits

  /** v has no digit at an interrupt-enable position of register number. */
  ghost predicate Clean(number: nat, v: Word) {
    match number
    case 1 => v / 16 % 32 == 0
    case 2 => v / 64 % 2 == 0
    case _ => v % 2 == 0 && v / 1024 % 2 == 0
  }

  lemma CleanBits(v: Word, it: Interrupt)
    requires Clean(EnableRegister(it), v)
    ensures !Bit(v, EnableBit(it))
  {
    hide Bit, Get, Pow2;
    Powers();
    var (pos, w) := match EnableRegister(it) case 1 => (4, 5) case _ => (EnableBit(it), 1);
    GetIsDivMod(v, pos, w);
    BitGet(v, pos, w, EnableBit(it) - pos);
    BitZero(EnableBit(it) - pos);
  }

  lemma OrKeepsBit(r: Word, x: Word, it: Interrupt)
    requires Clean(EnableRegister(it), x)
    ensures Bit(Or(r, x), EnableBit(it)) == Bit(r, EnableBit(it))
  {
    hide Bit, OrBits;
    CleanBits(x, it);
    BitOr(r, x, EnableBit(it));
  }

  lemma WriteKeepsBit(r: Word, m: Word, x: Word, it: Interrupt)
    requires Clean(EnableRegister(it), m) && !Bit(x, EnableBit(it))
    ensures Bit(Write(r, m, x), EnableBit(it)) == Bit(r, EnableBit(it))
  {
    hide Bit, OrBits, And;
    CleanBits(m, it);
    BitMaskedUpdate(r, m, x, EnableBit(it));
  }

  lemma SwitchKeepsBit(r: Word, x: Word, on: bool, it: Interrupt)
    requires Clean(EnableRegister(it), x)
    ensures Bit(Switch(r, x, on), EnableBit(it)) == Bit(r, EnableBit(it))
  {
    hide Bit, OrBits, And;
    CleanBits(x, it);
    BitOr(r, x, EnableBit(it));
    BitAnd(r, Not(x), EnableBit(it));
    BitNot(x, EnableBit(it));
  }

  lemma InitKeepsBits(c: Control, call: Call, it: Interrupt)
    requires call.Init? && Legal(call)
    ensures IsEnabled(Apply(c, call), it) == IsEnabled(c, it)
  {
    hide Bit, OrBits, Or, And, Write;
    match EnableRegister(it)
    case 1 =>
      CleanBits(call.wordLength, it);
      OrKeepsBit(call.wordLength, call.parity, it);
      OrKeepsBit(Or(call.wordLength, call.parity), call.mode, it);
      WriteKeepsBit(c.cr1, 0x160C, Or(Or(call.wordLength, call.parity), call.mode), it);
    case 2 =>
      CleanBits(call.stopBits, it);
      WriteKeepsBit(c.cr2, 0x3000, call.stopBits, it);
    case _ =>
      CleanBits(call.flowControl, it);
      WriteKeepsBit(c.cr3, 0x0300, call.flowControl, it);
  }

  lemma ClockInitKeepsBits(c: Control, call: Call, it: Interrupt)
    requires call.ClockInit? && Legal(call)
    ensures IsEnabled(Apply(c, call), it) == IsEnabled(c, it)
  {
    hide Bit, OrBits, Or, And, Write;
    if EnableRegister(it) == 2 {
      CleanBits(call.clock, it);
      OrKeepsBit(call.clock, call.cpol, it);
      OrKeepsBit(Or(call.clock, call.cpol), call.cpha, it);
      OrKeepsBit(Or(Or(call.clock, call.cpol), call.cpha), call.lastBit, it);
      WriteKeepsBit(c.cr2, 0x0F00, Or(Or(Or(call.clock, call.cpol), call.cpha), call.lastBit), it);
    }
  }

  predicate WritesCr1(call: Call) {
    call.Cmd? || call.OverSampling8Cmd? || call.ReceiverWakeUpCmd? || call.WakeUpConfig? || call.SendBreak?
  }

  predicate WritesCr2(call: Call) {
    call.SetAddress? || call.LINBreakDetectLengthConfig? || call.LINCmd?
  }

  lemma Cr1WritersKeepBits(c: Control, call: Call, it: Interrupt)
    requires WritesCr1(call) && Legal(call)
    ensures IsEnabled(Apply(c, call), it) == IsEnabled(c, it)
  {
    hide Bit, OrBits, Or, And, Write, Switch;
    if EnableRegister(it) == 1 {
      match call
      case Cmd(on) => SwitchKeepsBit(c.cr1, 0x2000, on, it);
      case OverSampling8Cmd(on) => SwitchKeepsBit(c.cr1, 0x8000, on, it);
      case ReceiverWakeUpCmd(on) => SwitchKeepsBit(c.cr1, 0x0002, on, it);
      case WakeUpConfig(w) => CleanBits(w, it); WriteKeepsBit(c.cr1, 0x0800, w, it);
      case SendBreak => OrKeepsBit(c.cr1, 0x0001, it);
    }
  }

  lemma Cr2WritersKeepBits(c: Control, call: Call, it: Interrupt)
    requires WritesCr2(call) && Legal(call)
    ensures IsEnabled(Apply(c, call), it) == IsEnabled(c, it)
  {
    hide Bit, OrBits, Or, And, Write, Switch;
    if EnableRegister(it) == 2 {
      match call
      case SetAddress(a) => CleanBits(a, it); WriteKeepsBit(c.cr2, 0x000F, a, it);
      case LINBreakDetectLengthConfig(l) => CleanBits(l, it); WriteKeepsBit(c.cr2, 0x0020, l, it);
      case LINCmd(on) => SwitchKeepsBit(c.cr2, 0x4000, on, it);
    }
  }

  lemma Cr3WritersKeepBits(c: Control, call: Call, it: Interrupt)
    requires !WritesCr1(call) && !WritesCr2(call) && !call.ITConfig? && !call.Init? && !call.ClockInit? && Legal(call)
    ensures IsEnabled(Apply(c, call), it) == IsEnabled(c, it)
  {
    hide Bit, OrBits, Or, And, Write, Switch;
    if EnableRegister(it) == 3 {
      match call
      case OneBitMethodCmd(on) => SwitchKeepsBit(c.cr3, 0x0800, on, it);
      case HalfDuplexCmd(on) => SwitchKeepsBit(c.cr3, 0x0008, on, it);
      case SmartCardCmd(on) => SwitchKeepsBit(c.cr3, 0x0020, on, it);
      case SmartCardNACKCmd(on) => SwitchKeepsBit(c.cr3, 0x0010, on, it);
      case IrDAConfig(m) => CleanBits(m, it); WriteKeepsBit(c.cr3, 0x0004, m, it);
      case IrDACmd(on) => SwitchKeepsBit(c.cr3, 0x0002, on, it);
      case DMACmd(r, on) => SwitchKeepsBit(c.cr3, r, on, it);
    }
  }

  /** Every writer except USART_ITConfig leaves every enable bit. */
  lemma OthersKeepBits(c: Control, call: Call, it: Interrupt)
    requires !call.ITConfig? && Legal(call)
    ensures IsEnabled(Apply(c, call), it) == IsEnabled(c, it)
  {
    hide IsEnabled, Apply;
    if call.Init? {
      InitKeepsBits(c, call, it);
    } else if call.ClockInit? {
      ClockInitKeepsBits(c, call, it);
    } else if WritesCr1(call) {
      Cr1WritersKeepBits(c, call, it);
    } else if WritesCr2(call) {
      Cr2WritersKeepBits(c, call, it);
    } else {
      Cr3WritersKeepBits(c, call, it);
    }
  }

  // ---------------------------------------------------------------- what each writer writes

  /** A field of a control register and the value a call gives it. */
  datatype Request = Request(number: nat, pos: nat, w: nat, value: nat)

  function OnOff(on: bool): nat { if on then 1 else 0 }

  /** The field each function is for, by its place in the register: enables as single bits,
      options as the value the header's code has at that place. USART_Init has five fields
      and its own statement. */
  function Requested(call: Call): Request
    requires Legal(call) && !call.Init?
  {
    match call
    case ITConfig(it, on) => Request(EnableRegister(it), EnableBit(it), 1, OnOff(on))
    case ClockInit(clock, cpol, cpha, last) =>
      Request(2, 8, 4, 8 * OnOff(clock != 0) + 4 * OnOff(cpol != 0) + 2 * OnOff(cpha != 0) + OnOff(last != 0))
    case Cmd(on) => Request(1, 13, 1, OnOff(on))
    case OverSampling8Cmd(on) => Request(1, 15, 1, OnOff(on))
    case OneBitMethodCmd(on) => Request(3, 11, 1, OnOff(on))
    case SetAddress(a) => Request(2, 0, 4, a)
    case ReceiverWakeUpCmd(on) => Request(1, 1, 1, OnOff(on))
    case WakeUpConfig(w) => Request(1, 11, 1, w / 0x800)
    case LINBreakDetectLengthConfig(l) => Request(2, 5, 1, l / 0x20)
    case LINCmd(on) => Request(2, 14, 1, OnOff(on))
    case SendBreak => Request(1, 0, 1, 1)
    case HalfDuplexCmd(on) => Request(3, 3, 1, OnOff(on))
    case SmartCardCmd(on) => Request(3, 5, 1, OnOff(on))
    case SmartCardNACKCmd(on) => Request(3, 4, 1, OnOff(on))
    case IrDAConfig(m) => Request(3, 2, 1, m / 4)
    case IrDACmd(on) => Request(3, 1, 1, OnOff(on))
    case DMACmd(r, on) =>
      if r == 0x40 then Request(3, 6, 1, OnOff(on))
      else if r == 0x80 then Request(3, 7, 1, OnOff(on))
      else Request(3, 6, 2, if on then 3 else 0)
  }

  /** The field holds the value, and the rest of the register is as it was. */
  ghost predicate Holds(x: Word, r: Word, pos: nat, w: nat, value: nat) {
    Get(x, pos, w) == value && SameOutside(x, r, pos, w)
  }

  lemma WriteHolds(r: Word, m: Word, x: Word, pos: nat, w: nat, v: nat)
    requires pos + w <= 32 && v < Pow2(w) && m == Ones(w) * Pow2(pos) && x == v * Pow2(pos)
    ensures Holds(Write(r, m, x), r, pos, w, v)
  {
    hide And, Or, Get, Pow2;
    UpdateField(r, m, x, pos, w, v);
  }

  lemma SwitchHolds(r: Word, m: Word, on: bool, pos: nat, w: nat)
    requires pos + w <= 32 && m == Ones(w) * Pow2(pos)
    ensures Holds(Switch(r, m, on), r, pos, w, if on then Ones(w) else 0)
  {
    hide And, Or, Get, Pow2;
    if on { SetField(r, m, pos, w, Ones(w)); } else { ClearField(r, m, pos, w); }
  }

  /** The register a call is for; the other two stay. */
  ghost predicate Writes(c: Control, d: Control, q: Request) {
    Holds(RegisterOf(d, q.number), RegisterOf(c, q.number), q.pos, q.w, q.value) &&
    (q.number != 1 ==> d.cr1 == c.cr1) && (q.number != 2 ==> d.cr2 == c.cr2) && (q.number != 3 ==> d.cr3 == c.cr3)
  }

  lemma Cr1Writes(c: Control, call: Call)
    requires WritesCr1(call) && Legal(call)
    ensures Writes(c, Apply(c, call), Requested(call))
  {
    hide And, Or, Holds, Write, Switch, Pow2;
    Powers();
    match call
    case Cmd(on) => SwitchHolds(c.cr1, 0x2000, on, 13, 1);
    case OverSampling8Cmd(on) => SwitchHolds(c.cr1, 0x8000, on, 15, 1);
    case ReceiverWakeUpCmd(on) => SwitchHolds(c.cr1, 0x0002, on, 1, 1);
    case WakeUpConfig(w) => WriteHolds(c.cr1, 0x0800, w, 11, 1, w / 0x800);
    case SendBreak => SwitchHolds(c.cr1, 0x0001, true, 0, 1); SwitchOn(c.cr1, 0x0001);
  }

  lemma SwitchOn(r: Word, m: Word)
    ensures Switch(r, m, true) == Or(r, m)
  {
  }

  lemma Cr2Writes(c: Control, call: Call)
    requires WritesCr2(call) && Legal(call)
    ensures Writes(c, Apply(c, call), Requested(call))
  {
    hide And, Or, Holds, Write, Switch, Pow2;
    Powers();
    match call
    case SetAddress(a) => WriteHolds(c.cr2, 0x000F, a, 0, 4, a);
    case LINBreakDetectLengthConfig(l) => WriteHolds(c.cr2, 0x0020, l, 5, 1, l / 0x20);
    case LINCmd(on) => SwitchHolds(c.cr2, 0x4000, on, 14, 1);
  }

  lemma Cr3Writes(c: Control, call: Call)
    requires !WritesCr1(call) && !WritesCr2(call) && !call.ITConfig? && !call.Init? && !call.ClockInit? && Legal(call)
    ensures Writes(c, Apply(c, call), Requested(call))
  {
    hide And, Or, Holds, Write, Switch, Pow2;
    Powers();
    match call
    case OneBitMethodCmd(on) => SwitchHolds(c.cr3, 0x0800, on, 11, 1);
    case HalfDuplexCmd(on) => SwitchHolds(c.cr3, 0x0008, on, 3, 1);
    case SmartCardCmd(on) => SwitchHolds(c.cr3, 0x0020, on, 5, 1);
    case SmartCardNACKCmd(on) => SwitchHolds(c.cr3, 0x0010, on, 4, 1);
    case IrDAConfig(m) => WriteHolds(c.cr3, 0x0004, m, 2, 1, m / 4);
    case IrDACmd(on) => SwitchHolds(c.cr3, 0x0002, on, 1, 1);
    case DMACmd(r, on) =>
      if r == 0x40 {
        SwitchHolds(c.cr3, r, on, 6, 1);
      } else if r == 0x80 {
        SwitchHolds(c.cr3, r, on, 7, 1);
      } else {
        SwitchHolds(c.cr3, r, on, 6, 2);
      }
  }

  /** The four clock options lie side by side. */
  lemma ClockOptions(clock: Word, cpol: Word, cpha: Word, last: Word)
    requires Legal(ClockInit(clock, cpol, cpha, last))
    ensures Or(Or(Or(clock, cpol), cpha), last) == clock + cpol + cpha + last
  {
    hide OrBits;
    Powers();
    OrAbove(cpol, clock, clock / 0x800, 11);
    OrAbove(cpha, clock + cpol, (clock + cpol) / 0x400, 10);
    OrAbove(last, clock + cpol + cpha, (clock + cpol + cpha) / 0x200, 9);
  }

  lemma ClockValue(clock: Word, cpol: Word, cpha: Word, last: Word)
    requires Legal(ClockInit(clock, cpol, cpha, last))
    ensures var v := Requested(ClockInit(clock, cpol, cpha, last)).value;
            v < 16 && clock + cpol + cpha + last == v * 0x100
  {
  }

  lemma ClockInitWrites(c: Control, call: Call)
    requires call.ClockInit? && Legal(call)
    ensures Writes(c, Apply(c, call), Requested(call))
  {
    hide And, Or, Holds, Write, Legal, OnOff;
    ClockOptions(call.clock, call.cpol, call.cpha, call.lastBit);
    ClockValue(call.clock, call.cpol, call.cpha, call.lastBit);
    ClockFieldHolds(c.cr2, call.clock + call.cpol + call.cpha + call.lastBit, Requested(call).value);
  }

  lemma ClockFieldHolds(r: Word, x: Word, v: nat)
    requires v < 16 && x == v * 0x100
    ensures Holds(Write(r, 0x0F00, x), r, 8, 4, v)
  {
    hide Holds, Write, Pow2;
    Powers();
    WriteHolds(r, 0x0F00, x, 8, 4, v);
  }

  lemma ITConfigWrites(c: Control, call: Call)
    requires call.ITConfig?
    ensures Writes(c, Apply(c, call), Requested(call))
  {
    hide And, Or, Holds, Switch, Shl, Pow2;
    var i := EnableBit(call.it);
    Powers();
    ShlOne(i);
    SwitchHolds(RegisterOf(c, EnableRegister(call.it)), Shl(1, i), call.on, i, 1);
  }

  /** Every function other than USART_Init writes exactly the field it is for. */
  lemma WritersWriteTheirField(c: Control, call: Call)
    requires Legal(call) && !call.Init?
    ensures Writes(c, Apply(c, call), Requested(call))
  {
    hide Writes, Apply, Requested;
    if call.ITConfig? {
      ITConfigWrites(c, call);
    } else if call.ClockInit? {
      ClockInitWrites(c, call);
    } else if WritesCr1(call) {
      Cr1Writes(c, call);
    } else if WritesCr2(call) {
      Cr2Writes(c, call);
    } else {
      Cr3Writes(c, call);
    }
  }

  /** The frame options of USART_Init: mode in bits 2 and 3, parity in 9 and 10, word length in
      12, with the rest of CR1 around them. */
  lemma InitOptions(len: Word, parity: Word, mode: Word)
    requires len in {0, 0x1000} && parity in {0, 0x400, 0x600} && mode in {4, 8, 12}
    ensures Or(Or(len, parity), mode) == len + parity + mode
  {
    hide OrBits;
    Powers();
    OrAbove(parity, len, len / 0x1000, 12);
    OrAbove(mode, len + parity, (len + parity) / 0x200, 9);
  }

  lemma InitDigits(m: nat, p: nat, l: nat, x: Word)
    requires m < 4 && p < 4 && l < 2 && x == 4 * m + 0x200 * p + 0x1000 * l
    ensures Get(x, 0, 2) == 0 && Get(x, 2, 2) == m && Get(x, 4, 5) == 0 && Get(x, 9, 2) == p
    ensures Get(x, 11, 1) == 0 && Get(x, 12, 1) == l && Get(x, 13, 19) == 0
  {
    hide Get, Pow2;
    Powers();
    GetDigit(x, 0, 2, 1, 4, m + 0x80 * p + 0x400 * l, 0, 0);
    GetDigit(x, 2, 2, 4, 4, 0x20 * p + 0x100 * l, m, 0);
    GetDigit(x, 4, 5, 0x10, 0x20, p + 8 * l, 0, 4 * m);
    GetDigit(x, 9, 2, 0x200, 4, 2 * l, p, 4 * m);
    GetDigit(x, 11, 1, 0x800, 2, l, 0, 4 * m + 0x200 * p);
    GetDigit(x, 12, 1, 0x1000, 2, 0, l, 4 * m + 0x200 * p);
    GetDigit(x, 13, 19, 0x2000, 0x8_0000, 0, 0, x);
  }

  ghost predicate FrameIs(x: Word, r: Word, mode: nat, parity: nat, len: nat) {
    Get(x, 2, 2) * 4 == mode && Get(x, 9, 2) * 0x200 == parity && Get(x, 12, 1) * 0x1000 == len &&
    Get(x, 0, 2) == Get(r, 0, 2) && Get(x, 4, 5) == Get(r, 4, 5) && Get(x, 11, 1) == Get(r, 11, 1) &&
    Get(x, 13, 19) == Get(r, 13, 19)
  }

  lemma InitWrites(r: Word, len: Word, parity: Word, mode: Word)
    requires len in {0, 0x1000} && parity in {0, 0x400, 0x600} && mode in {4, 8, 12}
    ensures FrameIs(Write(r, 0x160C, Or(Or(len, parity), mode)), r, mode, parity, len)
  {
    hide And, Or, Get, Pow2, Write, FrameIs;
    InitOptions(len, parity, mode);
    var x := len + parity + mode;
    InitDigits(mode / 4, parity / 0x200, len / 0x1000, x);
    InitFields(r, x);
  }

  lemma InitFields(r: Word, x: Word)
    requires Get(x, 0, 2) == Get(x, 4, 5) == Get(x, 11, 1) == Get(x, 13, 19) == 0
    ensures FrameIs(Write(r, 0x160C, x), r, Get(x, 2, 2) * 4, Get(x, 9, 2) * 0x200, Get(x, 12, 1) * 0x1000)
  {
    hide And, Or, Get, Pow2;
    Powers();
    InitDigits(3, 3, 1, 0x160C);
    MaskedField(r, 0x160C, x, 0, 2);
    MaskedField(r, 0x160C, x, 2, 2);
    MaskedField(r, 0x160C, x, 4, 5);
    MaskedField(r, 0x160C, x, 9, 2);
    MaskedField(r, 0x160C, x, 11, 1);
    MaskedField(r, 0x160C, x, 12, 1);
    MaskedField(r, 0x160C, x, 13, 19);
  }

  lemma SwitchOne(r: Word, i: nat, on: bool, k: nat)
    requires i < 32 && k < 32
    ensures Bit(Switch(r, Shl(1, i), on), k) == if k == i then on else Bit(r, k)
  {
    hide Bit, OrBits, And, Shl;
    Powers();
    ShlIsUp(1, i, 1);
    BitOr(r, Shl(1, i), k);
    BitAnd(r, Not(Shl(1, i)), k);
    BitNot(Shl(1, i), k);
    BitUp(1, i, k);
    if k >= i { BitOnes(1, k - i); }
  }

  lemma ITConfigSetsOne(c: Control, i: Interrupt, on: bool, it: Interrupt)
    ensures IsEnabled(Apply(c, ITConfig(i, on)), it) == if i == it then on else IsEnabled(c, it)
  {
    hide Bit, Switch, Shl;
    SwitchOne(RegisterOf(c, EnableRegister(i)), EnableBit(i), on, EnableBit(it));
  }

  /** After any history of driver calls an interrupt is enabled exactly when the
      USART_ITConfig calls alone say so. */
  lemma {:induction false} EnabledAfterAnyHistory(c: Control, calls: seq<Call>, it: Interrupt)
    requires AllLegal(calls)
    ensures IsEnabled(Run(c, calls), it) == Asked(IsEnabled(c, it), calls, it)
    decreases |calls|
  {
    hide IsEnabled, Apply;
    if calls != [] {
      var before, last := calls[..|calls| - 1], calls[|calls| - 1];
      EnabledAfterAnyHistory(c, before, it);
      if last.ITConfig? {
        ITConfigSetsOne(Run(c, before), last.it, last.on, it);
      } else {
        OthersKeepBits(Run(c, before), last, it);
      }
    }
  }

  // ---------------------------------------------------------------- the peripheral

  lemma QuotientBound(x: nat, d: nat)
    requires d > 0
    ensures x / d <= x
  {
    Bracket(x, d);
    MulMono(x / d, 1, d);
  }

  lemma HundredthsForm(f: Word, b: Word)
    requires IsBaudRate(b)
    ensures 2 * b % WORD == 2 * b > 0 && 4 * b % WORD == 4 * b > 0
    ensures Hundredths(f, b, 8) == 25 * f % WORD / (2 * b) < WORD
    ensures Hundredths(f, b, 16) == 25 * f % WORD / (4 * b) < WORD
  {
    QuotientBound(25 * f % WORD, 2 * b);
    QuotientBound(25 * f % WORD, 4 * b);
  }

  lemma RegisterForm(id: nat)
    ensures Register(id, 8) == id / 100 % 0x1000 * 16 + (id % 100 * 8 + 50) / 100 % 8
    ensures Register(id, 16) == id / 100 % 0x1000 * 16 + (id % 100 * 16 + 50) / 100 % 16
  {
  }

  /** The BRR section of USART_Init. */
  method BaudSection(apbclock: Word, baud: Word, over8: bool) returns (brr: Word)
    requires IsBaudRate(baud)
    ensures brr == BaudRegister(apbclock, baud, if over8 then 8 else 16)
    ensures over8 ==>
      var id := 25 * apbclock % 0x1_0000_0000 / (2 * baud);
      brr == id / 100 % 0x1000 * 16 + (id % 100 * 8 + 50) / 100 % 8
    ensures !over8 ==>
      var id := 25 * apbclock % 0x1_0000_0000 / (4 * baud);
      brr == id / 100 % 0x1000 * 16 + (id % 100 * 16 + 50) / 100 % 16
  {
    hide And, OrBits, Or, Shl, Shr, Register, Hundredths;
    var integerdivider;
    if over8 {
      integerdivider := 25 * apbclock % WORD / (2 * baud % WORD);
    } else {
      integerdivider := 25 * apbclock % WORD / (4 * baud % WORD);
    }
    ghost var n := if over8 then 8 else 16;
    HundredthsForm(apbclock, baud);
    PackBaud(integerdivider, n);
    RegisterForm(integerdivider);
    var tmpreg := Shl(integerdivider / 100, 4);
    var fractionaldivider := integerdivider - 100 * Shr(tmpreg, 4);
    if over8 {
      tmpreg := Or(tmpreg, And((fractionaldivider * 8 + 50) / 100, 0x07));
    } else {
      tmpreg := Or(tmpreg, And((fractionaldivider * 16 + 50) / 100, 0x0F));
    }
    brr := tmpreg % 0x1_0000;
  }

  class Peripheral {
    var SR: Word
    var BRR: Word
    var CR1: Word
    var CR2: Word
    var CR3: Word

    function Registers(): Control
      reads this
    {
      Control(CR1, CR2, CR3)
    }

    /** Samples per bit as CR1 has them. */
    function Oversampling(): nat
      reads this
    {
      if Bit(CR1, 15) then 8 else 16
    }

    method USART_OverSampling8Cmd(on: bool)
      modifies this`CR1
      ensures Registers() == Apply(old(Registers()), OverSampling8Cmd(on))
      ensures Get(CR1, 15, 1) == (if on then 1 else 0) && SameOutside(CR1, old(CR1), 15, 1)
      ensures Oversampling() == if on then 8 else 16
    {
      hide Bit, And, OrBits, Get;
      Over8Bit(CR1);
      Powers();
      SwitchHolds(CR1, 0x8000, on, 15, 1);
      if on {
        CR1 := Or(CR1, 0x8000);
      } else {
        CR1 := And(CR1, Not(0x8000));
      }
    }

    /** USART1 and USART6 are on APB2, the others on APB1. The result is false where reading
        the clocks divides by zero; BRR is then left. */
    method USART_Init(rcc: C.Rcc, number: nat, baud: Word, stop: Word, len: Word, parity: Word, mode: Word, flow: Word)
      returns (ok: bool)
      requires 1 <= number <= 8 && IsBaudRate(baud) && Legal(Init(stop, len, parity, mode, flow))
      modifies this`BRR, this`CR1, this`CR2, this`CR3
      ensures Registers() == Apply(old(Registers()), Init(stop, len, parity, mode, flow))
      ensures Get(CR1, 2, 2) * 4 == mode && Get(CR1, 9, 2) * 0x200 == parity && Get(CR1, 12, 1) * 0x1000 == len
      ensures Get(CR1, 0, 2) == Get(old(CR1), 0, 2) && Get(CR1, 4, 5) == Get(old(CR1), 4, 5)
      ensures Get(CR1, 11, 1) == Get(old(CR1), 11, 1) && Get(CR1, 13, 19) == Get(old(CR1), 13, 19)
      ensures Get(CR2, 12, 2) * 0x1000 == stop && SameOutside(CR2, old(CR2), 12, 2)
      ensures Get(CR3, 8, 2) * 0x100 == flow && SameOutside(CR3, old(CR3), 8, 2)
      ensures Oversampling() == old(Oversampling())
      ensures C.InRange(rcc.Fields())
      ensures match C.Report(rcc.Fields(), rcc.HSI_VALUE, rcc.HSE_VALUE)
              case None => !ok && BRR == old(BRR)
              case Some(r) => ok && BRR == BaudRegister(if number == 1 || number == 6 then r.pclk2 else r.pclk1, baud, Oversampling())
    {
      hide Bit, And, OrBits, Or, Shl, Shr, Get, BaudRegister;
      InitWrites(CR1, len, parity, mode);
      Powers();
      WriteHolds(CR2, 0x3000, stop, 12, 2, stop / 0x1000);
      WriteHolds(CR3, 0x0300, flow, 8, 2, flow / 0x100);
      var tmpreg := CR2;
      tmpreg := And(tmpreg, Not(0x3000));
      tmpreg := Or(tmpreg, stop);
      CR2 := tmpreg;

      tmpreg := CR1;
      tmpreg := And(tmpreg, Not(0x160C));
      tmpreg := Or(tmpreg, Or(Or(len, parity), mode));
      InitKeepsOver8(CR1, len, parity, mode);
      CR1 := tmpreg;

      tmpreg := CR3;
      tmpreg := And(tmpreg, Not(0x0300));
      tmpreg := Or(tmpreg, flow);
      CR3 := tmpreg;

      var clocks := rcc.RCC_GetClocksFreq();
      if clocks == C.None { return false; }
      var apbclock := if number == 1 || number == 6 then clocks.value.pclk2 else clocks.value.pclk1;
      Over8Bit(CR1);
      BRR := BaudSection(apbclock, baud, And(CR1, 0x8000) != 0);
      return true;
    }

    method USART_ITConfig(it: Interrupt, on: bool)
      modifies this`CR1, this`CR2, this`CR3
      ensures Registers() == Apply(old(Registers()), ITConfig(it, on))
      ensures forall i :: IsEnabled(Registers(), i) == if i == it then on else IsEnabled(old(Registers()), i)
      ensures Writes(old(Registers()), Registers(), Requested(ITConfig(it, on)))
    {
      hide Bit, And, OrBits, Or, Shl, Shr, IsEnabled, Writes, Requested;
      ITConfigWrites(Registers(), ITConfig(it, on));
      var code := ConfigCode(it);
      CodeParts(code, Enabled(it));
      var usartreg := Shr(code % 256, 5);
      var itpos := And(code, 0x1F);
      var itmask := Shl(1, itpos);
      forall i ensures IsEnabled(Apply(Registers(), ITConfig(it, on)), i) == if i == it then on else IsEnabled(Registers(), i) {
        ITConfigSetsOne(Registers(), it, on, i);
      }
      if usartreg == 0x01 {
        CR1 := Switch(CR1, itmask, on);
      } else if usartreg == 0x02 {
        CR2 := Switch(CR2, itmask, on);
      } else {
        CR3 := Switch(CR3, itmask, on);
      }
    }

    /** SET exactly when the source's interrupt is enabled and its flag is up. */
    method USART_GetITStatus(source: Source) returns (pending: bool)
      requires IsSource(source)
      ensures pending <==> IsEnabled(Registers(), EnabledBy(source)) && Bit(SR, StatusBit(source))
    {
      hide Bit, And, OrBits, Or, Shl, Shr;
      var code := SourceCode(source);
      CodeParts(code, source);
      var usartreg := Shr(code % 256, 5);
      var itmask := And(code, 0x1F);
      itmask := Shl(1, itmask);
      TestBit(RegisterOf(Registers(), EnableRegister(EnabledBy(source))), EnableBit(EnabledBy(source)));
      if usartreg == 0x01 {
        itmask := And(itmask, CR1);
      } else if usartreg == 0x02 {
        itmask := And(itmask, CR2);
      } else {
        itmask := And(itmask, CR3);
      }
      var bitpos := Shr(code, 8);
      bitpos := Shl(1, bitpos);
      TestBit(SR, StatusBit(source));
      bitpos := And(bitpos, SR);
      pending := itmask != 0 && bitpos != 0;
    }
  }

  // ---------------------------------------------------------------- register idioms

  lemma Over8Bit(r: Word)
    ensures And(r, 0x8000) != 0 <==> Bit(r, 15)
    ensures Bit(Or(r, 0x8000), 15) && !Bit(And(r, Not(0x8000)), 15)
  {
    hide And, OrBits, Bit, Get, Shr;
    Powers();
    LiteralMask(r, 0x8000, 15, 1);
    GetOneBit(r, 15);
    BitOr(r, 0x8000, 15);
    BitIsDivMod(0x8000, 15);
    BitAnd(r, Not(0x8000), 15);
    BitNot(0x8000, 15);
  }

  lemma InitKeepsOver8(r: Word, len: Word, parity: Word, mode: Word)
    requires len in {0, 0x1000} && parity in {0, 0x400, 0x600} && mode in {4, 8, 12}
    ensures Bit(Or(And(r, Not(0x160C)), Or(Or(len, parity), mode)), 15) == Bit(r, 15)
  {
    hide And, OrBits, Bit, Shr;
    Powers();
    BitMaskedUpdate(r, 0x160C, Or(Or(len, parity), mode), 15);
    BitOr(Or(len, parity), mode, 15);
    BitOr(len, parity, 15);
    BitIsDivMod(0x160C, 15);
    BitIsDivMod(len, 15);
    BitIsDivMod(parity, 15);
    BitIsDivMod(mode, 15);
  }

  /** The code of a source holds the register number in bits 5 to 7, the enable bit in bits
      0 to 4 and the status bit in bits 8 and up. */
  lemma CodeParts(code: Word, s: Source)
    requires code == SourceCode(s)
    ensures Shr(code % 256, 5) == EnableRegister(EnabledBy(s))
    ensures And(code, 0x1F) == EnableBit(EnabledBy(s))
    ensures Shr(code, 8) == StatusBit(s)
  {
    hide And, Shr, Pow2;
    Powers();
    ShrIsDiv(code % 256, 5);
    ShrIsDiv(code, 8);
    AndOnes(code, 5);
  }

  lemma LowHalf(m: nat, low: nat)
    requires low < 16
    ensures (low + m * 16) % 0x1_0000 == m % 4096 * 16 + low
  {
    DivModUnique(low + m * 16, 0x1_0000, m / 4096, m % 4096 * 16 + low);
  }

  lemma MaskFraction(v: nat, n: nat)
    requires IsOversampling(n)
    ensures And(v, n - 1) == v % n < n
  {
    hide And;
    Powers();
    AndOnes(v, 4);
    AndOnes(v, 3);
  }

  lemma PackParts(m: nat, v: nat, n: nat)
    requires IsOversampling(n) && m < 0x1000_0000
    ensures Shr(Shl(m, 4), 4) == m
    ensures Or(Shl(m, 4), And(v, n - 1)) % 0x1_0000 == m % 4096 * 16 + v % n
  {
    hide And, OrBits, Shl, Shr, Pow2;
    Powers();
    MaskFraction(v, n);
    ShlIsUp(m, 4, 28);
    UpIsTimes(m, 4);
    ShrUp(m, 4);
    OrAbove(v % n, m * 16, m, 4);
    LowHalf(m, v % n);
  }

  /** The shifts and masks of the BRR computation as arithmetic. */
  lemma PackBaud(id: nat, n: nat)
    requires IsOversampling(n) && id < WORD
    ensures Shr(Shl(id / 100, 4), 4) == id / 100
    ensures Or(Shl(id / 100, 4), And(Fraction(id, n), n - 1)) % 0x1_0000 == Register(id, n)
  {
    hide And, Or, Shl, Shr, Fraction;
    PackParts(id / 100, Fraction(id, n), n);
  }
}
