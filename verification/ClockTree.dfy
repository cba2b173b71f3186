/** The RCC clock tree: the functions that program CFGR and PLLCFGR, and the two functions
    that read the registers back as frequencies (RCC_GetClocksFreq in the RCC driver,
    SystemCoreClockUpdate in the system file).

    The specification state is the list of register fields; the class holds the packed
    registers and its methods follow the driver. Frequencies are unsigned 32-bit numbers. */
module ClockTree {
  import opened Words

  datatype Option<T> = None | Some(value: T)

  // ---------------------------------------------------------------- register fields

  /** All 32 bits of RCC_CFGR, lowest field first. */
  datatype Cfgr = Cfgr(sw: nat, sws: nat, hpre: nat, reserved: nat, ppre1: nat, ppre2: nat,
                       rtcpre: nat, mco1: nat, i2ssrc: nat, mco1pre: nat, mco2pre: nat, mco2: nat)

  datatype PllCfgr = PllCfgr(m: nat, n: nat, p: nat, src: nat, q: nat)

  datatype Clocks = Clocks(cfgr: Cfgr, pll: PllCfgr)

  function DecodeCfgr(r: Word): Cfgr {
    Cfgr(Get(r, 0, 2), Get(r, 2, 2), Get(r, 4, 4), Get(r, 8, 2), Get(r, 10, 3), Get(r, 13, 3),
         Get(r, 16, 5), Get(r, 21, 2), Get(r, 23, 1), Get(r, 24, 3), Get(r, 27, 3), Get(r, 30, 2))
  }

  function DecodePll(r: Word): PllCfgr {
    PllCfgr(Get(r, 0, 6), Get(r, 6, 9), Get(r, 16, 2), Get(r, 22, 1), Get(r, 24, 4))
  }

  /** What any 32-bit register content decodes to. */
  ghost predicate InRange(s: Clocks) {
    s.cfgr.sws < 4 && s.cfgr.hpre < 16 && s.cfgr.ppre1 < 8 && s.cfgr.ppre2 < 8 &&
    s.pll.m < 64 && s.pll.n < 512 && s.pll.p < 4 && s.pll.src < 2 && s.pll.q < 16
  }

  lemma DecodeInRange(cfgr: Word, pll: Word)
    ensures InRange(Clocks(DecodeCfgr(cfgr), DecodePll(pll)))
  {
    Powers();
  }

  // ---------------------------------------------------------------- legal arguments

  predicate IsSysclkSource(x: Word) { x == 0 || x == 1 || x == 2 }
  predicate IsHclk(x: Word) { x == 0 || (0x80 <= x <= 0xF0 && x % 16 == 0) }
  predicate IsPclk(x: Word) { x == 0 || (0x1000 <= x <= 0x1C00 && x % 0x400 == 0) }
  predicate IsMco1(source: Word, div: Word) {
    source <= 0x60_0000 && source % 0x20_0000 == 0 &&
    (div == 0 || (0x400_0000 <= div <= 0x700_0000 && div % 0x100_0000 == 0))
  }
  predicate IsMco2(source: Word, div: Word) {
    source <= 0xC000_0000 && source % 0x4000_0000 == 0 &&
    (div == 0 || (0x2000_0000 <= div <= 0x3800_0000 && div % 0x800_0000 == 0))
  }
  predicate IsRtcclk(x: Word) {
    x == 0x100 || x == 0x200 || (0x2_0300 <= x <= 0x1F_0300 && x % 0x1_0000 == 0x300)
  }
  predicate IsPll(source: Word, m: Word, n: Word, p: Word, q: Word) {
    (source == 0 || source == 0x40_0000) && m <= 63 && 192 <= n <= 432 &&
    (p == 2 || p == 4 || p == 6 || p == 8) && 4 <= q <= 15
  }

  // ---------------------------------------------------------------- specification of the calls

  /** Every writer of CFGR and PLLCFGR, and the hardware's own move of the SWS field. */
  datatype Call =
    | DeInit
    | PllConfig(source: Word, m: Word, n: Word, p: Word, q: Word)
    | SysclkConfig(sw: Word)
    | HclkConfig(sysclk: Word)
    | Pclk1Config(hclk1: Word)
    | Pclk2Config(hclk2: Word)
    | Mco1Config(source1: Word, div1: Word)
    | Mco2Config(source2: Word, div2: Word)
    | RtcclkConfig(rtc: Word)
    | I2sclkConfig(i2s: Word)
    | HardwareSwitch(sws: nat)

  predicate Legal(c: Call) {
    match c
    case DeInit => true
    case PllConfig(source, m, n, p, q) => IsPll(source, m, n, p, q)
    case SysclkConfig(x) => IsSysclkSource(x)
    case HclkConfig(x) => IsHclk(x)
    case Pclk1Config(x) => IsPclk(x)
    case Pclk2Config(x) => IsPclk(x)
    case Mco1Config(x, d) => IsMco1(x, d)
    case Mco2Config(x, d) => IsMco2(x, d)
    case RtcclkConfig(x) => IsRtcclk(x)
    case I2sclkConfig(x) => x < 2
    case HardwareSwitch(x) => x < 4
  }

  /** The effect of one call on the fields. */
  function Step(s: Clocks, c: Call): Clocks
    requires Legal(c)
  {
    match c
    case DeInit => Clocks(Cfgr(0, 0, 0, 0, 0, 0, 0, 0, 0, 0, 0, 0), PllCfgr(16, 192, 0, 0, 4))
    case PllConfig(source, m, n, p, q) => s.(pll := PllCfgr(m, n, p / 2 - 1, source / 0x40_0000, q))
    case SysclkConfig(x) => s.(cfgr := s.cfgr.(sw := x))
    case HclkConfig(x) => s.(cfgr := s.cfgr.(hpre := x / 16))
    case Pclk1Config(x) => s.(cfgr := s.cfgr.(ppre1 := x / 0x400))
    case Pclk2Config(x) => s.(cfgr := s.cfgr.(ppre2 := x / 0x400))
    case Mco1Config(x, d) => s.(cfgr := s.cfgr.(mco1 := x / 0x20_0000, mco1pre := d / 0x100_0000))
    case Mco2Config(x, d) => s.(cfgr := s.cfgr.(mco2 := x / 0x4000_0000, mco2pre := d / 0x800_0000))
    case RtcclkConfig(x) => if x < 0x300 then s else s.(cfgr := s.cfgr.(rtcpre := x / 0x1_0000))
    case I2sclkConfig(x) => s.(cfgr := s.cfgr.(i2ssrc := x))
    case HardwareSwitch(x) => s.(cfgr := s.cfgr.(sws := x))
  }

  predicate AllLegal(calls: seq<Call>) {
    forall i :: 0 <= i < |calls| ==> Legal(calls[i])
  }

  function Run(s: Clocks, calls: seq<Call>): Clocks
    requires AllLegal(calls)
    decreases |calls|
  {
    if calls == [] then s else Run(Step(s, calls[0]), calls[1..])
  }

  // ---------------------------------------------------------------- specification of the reports

  /** APBAHBPrescTable of the RCC driver and AHBPrescTable of the system file. */
  const APB_AHB_PRESC: seq<nat> := [0, 0, 0, 0, 1, 2, 3, 4, 1, 2, 3, 4, 6, 7, 8, 9]
  const AHB_PRESC: seq<nat> := [0, 0, 0, 0, 0, 0, 0, 0, 1, 2, 3, 4, 6, 7, 8, 9]

  /** The selected system clock; None is the division by zero of an M field of 0. */
  function Sysclk(s: Clocks, hsi: Word, hse: Word): (f: Option<Word>)
  {
    if s.cfgr.sws == 1 then Some(hse)
    else if s.cfgr.sws == 2 then
      if s.pll.m == 0 then None
      else
        var source := if s.pll.src != 0 then hse else hsi;
        Some(Div(Vco(source, s.pll.m, s.pll.n), (s.pll.p + 1) * 2))
    else Some(hsi)
  }

  /** Unsigned division. */
  function Div(x: Word, d: nat): Word
    requires d > 0
  {
    assert x / d <= x by {
      if x / d > x { MulMono(d, x + 1, x / d); MulMono(x + 1, 1, d); }
    }
    x / d
  }

  /** `(source / m) * n` with the product kept to 32 bits. */
  function Vco(source: Word, m: nat, n: nat): Word
    requires m > 0
  {
    Div(source, m) * n % WORD
  }

  datatype Frequencies = Frequencies(sysclk: Word, hclk: Word, pclk1: Word, pclk2: Word)

  /** What RCC_GetClocksFreq reports. */
  function Report(s: Clocks, hsi: Word, hse: Word): Option<Frequencies>
    requires InRange(s)
  {
    match Sysclk(s, hsi, hse)
    case None => None
    case Some(f) =>
      var hclk := Shr(f, APB_AHB_PRESC[s.cfgr.hpre]);
      Some(Frequencies(f, hclk, Shr(hclk, APB_AHB_PRESC[s.cfgr.ppre1]), Shr(hclk, APB_AHB_PRESC[s.cfgr.ppre2])))
  }

  /** What SystemCoreClockUpdate stores. */
  function CoreClock(s: Clocks, hsi: Word, hse: Word): Option<Word>
    requires InRange(s)
  {
    match Sysclk(s, hsi, hse)
    case None => None
    case Some(f) => Some(Shr(f, AHB_PRESC[s.cfgr.hpre]))
  }

  // ---------------------------------------------------------------- the driver

  /** The word RCC_PLLConfig writes. */
  function PackPll(source: Word, m: Word, n: Word, p: Word, q: Word): Word
    requires p >= 2
  {
    assert Shr(p, 1) == p / 2;
    Or(Or(Or(Or(m, Shl(n, 6)), Shl(Shr(p, 1) - 1, 16)), source), Shl(q, 24))
  }

  class Rcc {
    var CR: Word
    var PLLCFGR: Word
    var CFGR: Word
    var PLLI2SCFGR: Word
    var PLLSAICFGR: Word
    var CIR: Word
    var DCKCFGR: Word
    var BDCR: Word
    var SystemCoreClock: Word
    const HSI_VALUE: Word
    const HSE_VALUE: Word

    constructor (hsi: Word, hse: Word, cr: Word, pllcfgr: Word, cfgr: Word, bdcr: Word)
      ensures HSI_VALUE == hsi && HSE_VALUE == hse
      ensures CR == cr && PLLCFGR == pllcfgr && CFGR == cfgr && BDCR == bdcr
    {
      HSI_VALUE, HSE_VALUE, CR, PLLCFGR, CFGR, BDCR := hsi, hse, cr, pllcfgr, cfgr, bdcr;
      SystemCoreClock := 168_000_000;
    }

    function Fields(): Clocks
      reads this
    {
      Clocks(DecodeCfgr(CFGR), DecodePll(PLLCFGR))
    }

    method RCC_DeInit()
      modifies this`CR, this`CFGR, this`PLLCFGR, this`PLLI2SCFGR, this`PLLSAICFGR, this`CIR, this`DCKCFGR
      ensures Fields() == Step(old(Fields()), DeInit)
      ensures CFGR == 0 && PLLCFGR == 0x2400_3010
      ensures CR == And(And(Or(old(CR), 1), 0xEAF6_FFFF), 0xFFFB_FFFF)
      ensures PLLI2SCFGR == 0x2000_3000 && PLLSAICFGR == 0x2400_3000 && CIR == 0 && DCKCFGR == 0
      ensures Bit(CR, 0)
      ensures !Bit(CR, 16) && !Bit(CR, 18) && !Bit(CR, 19) && !Bit(CR, 24) && !Bit(CR, 26) && !Bit(CR, 28)
    {
      hide And, OrBits, Shr, Shl, Up, Bit, Get, Pow2;
      CR := Or(CR, 0x0000_0001);
      CFGR := 0;
      CR := And(CR, 0xEAF6_FFFF);
      PLLCFGR := 0x2400_3010;
      PLLI2SCFGR := 0x2000_3000;
      PLLSAICFGR := 0x2400_3000;
      CR := And(CR, 0xFFFB_FFFF);
      CIR := 0;
      DCKCFGR := 0;
      PllDigits(16, 192, 0, 0, 4, 2, PLLCFGR);
      ZeroFields(CFGR);
      DeInitBits(old(CR));
    }

    method RCC_PLLConfig(source: Word, m: Word, n: Word, p: Word, q: Word)
      requires IsPll(source, m, n, p, q)
      modifies this`PLLCFGR
      ensures Fields() == Step(old(Fields()), PllConfig(source, m, n, p, q))
      ensures Get(PLLCFGR, 0, 6) == m && Get(PLLCFGR, 6, 9) == n && Get(PLLCFGR, 16, 2) * 2 + 2 == p
      ensures Get(PLLCFGR, 22, 1) * 0x40_0000 == source && Get(PLLCFGR, 24, 4) == q
    {
      hide And, OrBits, Shr, Shl, Up;
      PllPacking(source, m, n, p, q);
      PLLCFGR := PackPll(source, m, n, p, q);
    }

    method RCC_SYSCLKConfig(source: Word)
      requires IsSysclkSource(source)
      modifies this`CFGR
      ensures Fields() == Step(old(Fields()), SysclkConfig(source))
      ensures Get(CFGR, 0, 2) == source && SameOutside(CFGR, old(CFGR), 0, 2)
    {
      hide And, OrBits, Shr, Shl, Up;
      var tmpreg := CFGR;
      tmpreg := And(tmpreg, Not(0x0000_0003));
      tmpreg := Or(tmpreg, source);
      Powers();
      UpdateField(CFGR, 0x3, source, 0, 2, source);
      CFGR := tmpreg;
    }

    method RCC_HCLKConfig(sysclk: Word)
      requires IsHclk(sysclk)
      modifies this`CFGR
      ensures Fields() == Step(old(Fields()), HclkConfig(sysclk))
      ensures Get(CFGR, 4, 4) * 16 == sysclk && SameOutside(CFGR, old(CFGR), 4, 4)
    {
      hide And, OrBits, Shr, Shl, Up;
      var tmpreg := CFGR;
      tmpreg := And(tmpreg, Not(0x0000_00F0));
      tmpreg := Or(tmpreg, sysclk);
      Powers();
      UpdateField(CFGR, 0xF0, sysclk, 4, 4, sysclk / 16);
      CFGR := tmpreg;
    }

    method RCC_PCLK1Config(hclk: Word)
      requires IsPclk(hclk)
      modifies this`CFGR
      ensures Fields() == Step(old(Fields()), Pclk1Config(hclk))
      ensures Get(CFGR, 10, 3) * 0x400 == hclk && SameOutside(CFGR, old(CFGR), 10, 3)
    {
      hide And, OrBits, Shr, Shl, Up;
      var tmpreg := CFGR;
      tmpreg := And(tmpreg, Not(0x0000_1C00));
      tmpreg := Or(tmpreg, hclk);
      Powers();
      UpdateField(CFGR, 0x1C00, hclk, 10, 3, hclk / 0x400);
      CFGR := tmpreg;
    }

    method RCC_PCLK2Config(hclk: Word)
      requires IsPclk(hclk)
      modifies this`CFGR
      ensures Fields() == Step(old(Fields()), Pclk2Config(hclk))
      ensures Get(CFGR, 13, 3) * 0x400 == hclk && SameOutside(CFGR, old(CFGR), 13, 3)
    {
      hide And, OrBits, Shr, Shl, Up;
      var tmpreg := CFGR;
      tmpreg := And(tmpreg, Not(0x0000_E000));
      tmpreg := Or(tmpreg, Shl(hclk, 3));
      Powers();
      ShlIsUp(hclk, 3, 13);
      UpIsTimes(hclk, 3);
      UpdateField(CFGR, 0xE000, 8 * hclk, 13, 3, hclk / 0x400);
      CFGR := tmpreg;
    }

    method RCC_MCO1Config(source: Word, div: Word)
      requires IsMco1(source, div)
      modifies this`CFGR
      ensures Fields() == Step(old(Fields()), Mco1Config(source, div))
      ensures Get(CFGR, 21, 2) * 0x20_0000 == source && Get(CFGR, 24, 3) * 0x100_0000 == div
      ensures Get(CFGR, 0, 21) == Get(old(CFGR), 0, 21) && Get(CFGR, 23, 1) == Get(old(CFGR), 23, 1)
      ensures Get(CFGR, 27, 5) == Get(old(CFGR), 27, 5)
    {
      hide And, OrBits, Shr, Shl, Up;
      var tmpreg := CFGR;
      tmpreg := And(tmpreg, 0xF89F_FFFF);
      tmpreg := Or(tmpreg, Or(source, div));
      Powers();
      UpdateTwoFields(CFGR, 0x60_0000, source, 21, 2, source / 0x20_0000,
                      0x700_0000, div, 24, 3, div / 0x100_0000);
      CFGR := tmpreg;
    }

    method RCC_MCO2Config(source: Word, div: Word)
      requires IsMco2(source, div)
      modifies this`CFGR
      ensures Fields() == Step(old(Fields()), Mco2Config(source, div))
      ensures Get(CFGR, 30, 2) * 0x4000_0000 == source && Get(CFGR, 27, 3) * 0x800_0000 == div
      ensures Get(CFGR, 0, 27) == Get(old(CFGR), 0, 27)
    {
      hide And, OrBits, Shr, Shl, Up;
      var tmpreg := CFGR;
      tmpreg := And(tmpreg, 0x07FF_FFFF);
      tmpreg := Or(tmpreg, Or(source, div));
      OrCommutes(source, div);
      Powers();
      UpdateTwoFields(CFGR, 0x3800_0000, div, 27, 3, div / 0x800_0000,
                      0xC000_0000, source, 30, 2, source / 0x4000_0000);
      CFGR := tmpreg;
    }

    method RCC_RTCCLKConfig(source: Word)
      requires IsRtcclk(source)
      modifies this`CFGR, this`BDCR
      ensures Fields() == Step(old(Fields()), RtcclkConfig(source))
      ensures source >= 0x300 ==> Get(CFGR, 16, 5) * 0x1_0000 == source - 0x300 && SameOutside(CFGR, old(CFGR), 16, 5)
      ensures source < 0x300 ==> CFGR == old(CFGR)
      ensures BDCR == Or(old(BDCR), source % 0x1000)
    {
      hide And, OrBits, Shr, Shl, Up;
      RtcSource(source);
      if And(source, 0x0000_0300) == 0x0000_0300 {
        var tmpreg := CFGR;
        tmpreg := And(tmpreg, Not(0x001F_0000));
        tmpreg := Or(tmpreg, And(source, 0xFFF_FCFF));
        Powers();
        UpdateField(CFGR, 0x1F_0000, source - 0x300, 16, 5, source / 0x1_0000);
        CFGR := tmpreg;
      }
      BDCR := Or(BDCR, And(source, 0x0000_0FFF));
    }

    /** RCC_I2SCLKConfig writes the I2SSRC bit through its bit-band alias. */
    method RCC_I2SCLKConfig(source: Word)
      requires source < 2
      modifies this`CFGR
      ensures Fields() == Step(old(Fields()), I2sclkConfig(source))
      ensures Get(CFGR, 23, 1) == source && SameOutside(CFGR, old(CFGR), 23, 1)
    {
      hide And, OrBits, Shr, Shl, Up;
      Powers();
      GetPut(CFGR, 23, 1, source);
      CFGR := Put(CFGR, 23, 1, source);
    }

    /** Returns None where the C code divides by zero. */
    method RCC_GetClocksFreq() returns (clocks: Option<Frequencies>)
      ensures InRange(Fields())
      ensures clocks == Report(Fields(), HSI_VALUE, HSE_VALUE)
      ensures clocks == None <==> Get(CFGR, 2, 2) == 2 && Get(PLLCFGR, 0, 6) == 0
      ensures Get(CFGR, 2, 2) == 0 || Get(CFGR, 2, 2) == 3 ==> clocks.Some? && clocks.value.sysclk == HSI_VALUE
      ensures Get(CFGR, 2, 2) == 1 ==> clocks.Some? && clocks.value.sysclk == HSE_VALUE
    {
      hide And, OrBits, Shr, Shl, Up;
      var SYSCLK_Frequency: Word;
      DecodeInRange(CFGR, PLLCFGR);
      ReadFields(CFGR, PLLCFGR);
      var tmp := And(CFGR, 0xC);
      if tmp == 0x00 {
        SYSCLK_Frequency := HSI_VALUE;
      } else if tmp == 0x04 {
        SYSCLK_Frequency := HSE_VALUE;
      } else if tmp == 0x08 {
        var pllsource := Shr(And(PLLCFGR, 0x40_0000), 22);
        var pllm := And(PLLCFGR, 0x3F);
        if pllm == 0 { return None; }
        var pllvco: Word;
        if pllsource != 0 {
          pllvco := Vco(HSE_VALUE, pllm, Shr(And(PLLCFGR, 0x7FC0), 6));
        } else {
          pllvco := Vco(HSI_VALUE, pllm, Shr(And(PLLCFGR, 0x7FC0), 6));
        }
        var pllp := (Shr(And(PLLCFGR, 0x3_0000), 16) + 1) * 2;
        SYSCLK_Frequency := Div(pllvco, pllp);
      } else {
        SYSCLK_Frequency := HSI_VALUE;
      }
      tmp := And(CFGR, 0xF0);
      tmp := Shr(tmp, 4);
      var presc := APB_AHB_PRESC[tmp];
      var HCLK_Frequency := Shr(SYSCLK_Frequency, presc);
      tmp := And(CFGR, 0x1C00);
      tmp := Shr(tmp, 10);
      presc := APB_AHB_PRESC[tmp];
      var PCLK1_Frequency := Shr(HCLK_Frequency, presc);
      tmp := And(CFGR, 0xE000);
      tmp := Shr(tmp, 13);
      presc := APB_AHB_PRESC[tmp];
      var PCLK2_Frequency := Shr(HCLK_Frequency, presc);
      clocks := Some(Frequencies(SYSCLK_Frequency, HCLK_Frequency, PCLK1_Frequency, PCLK2_Frequency));
    }

    /** The result is false where the C code divides by zero. */
    method SystemCoreClockUpdate() returns (ok: bool)
      modifies this`SystemCoreClock
      ensures InRange(Fields())
      ensures ok <==> CoreClock(Fields(), HSI_VALUE, HSE_VALUE).Some?
      ensures ok ==> SystemCoreClock == CoreClock(Fields(), HSI_VALUE, HSE_VALUE).value
      ensures !ok <==> Get(CFGR, 2, 2) == 2 && Get(PLLCFGR, 0, 6) == 0
      ensures Get(CFGR, 4, 4) == 0 && (Get(CFGR, 2, 2) == 0 || Get(CFGR, 2, 2) == 3) ==> SystemCoreClock == HSI_VALUE
      ensures Get(CFGR, 4, 4) == 0 && Get(CFGR, 2, 2) == 1 ==> SystemCoreClock == HSE_VALUE
    {
      hide And, OrBits, Shr, Shl, Up;
      DecodeInRange(CFGR, PLLCFGR);
      ReadFields(CFGR, PLLCFGR);
      var tmp := And(CFGR, 0xC);
      if tmp == 0x00 {
        SystemCoreClock := HSI_VALUE;
      } else if tmp == 0x04 {
        SystemCoreClock := HSE_VALUE;
      } else if tmp == 0x08 {
        var pllsource := Shr(And(PLLCFGR, 0x40_0000), 22);
        var pllm := And(PLLCFGR, 0x3F);
        if pllm == 0 { return false; }
        var pllvco: Word;
        if pllsource != 0 {
          pllvco := Vco(HSE_VALUE, pllm, Shr(And(PLLCFGR, 0x7FC0), 6));
        } else {
          pllvco := Vco(HSI_VALUE, pllm, Shr(And(PLLCFGR, 0x7FC0), 6));
        }
        var pllp := (Shr(And(PLLCFGR, 0x3_0000), 16) + 1) * 2;
        SystemCoreClock := Div(pllvco, pllp);
      } else {
        SystemCoreClock := HSI_VALUE;
      }
      ShrNone(SystemCoreClock);
      tmp := AHB_PRESC[Shr(And(CFGR, 0xF0), 4)];
      SystemCoreClock := Shr(SystemCoreClock, tmp);
      return true;
    }
  }

  // ---------------------------------------------------------------- the packed writes

  lemma ZeroFields(x: Word)
    requires x == 0
    ensures DecodeCfgr(x) == Cfgr(0, 0, 0, 0, 0, 0, 0, 0, 0, 0, 0, 0)
  {
    hide Get;
    forall pos: nat, w: nat ensures Get(x, pos, w) == 0 { GetZero(pos, w); }
  }

  lemma DeInitBit(cr: Word, i: nat)
    requires i < 32
    ensures Bit(And(And(Or(cr, 1), 0xEAF6_FFFF), 0xFFFB_FFFF), i) <==>
            (Bit(cr, i) || Bit(1, i)) && Bit(0xEAF6_FFFF, i) && Bit(0xFFFB_FFFF, i)
  {
    BitAnd(And(Or(cr, 1), 0xEAF6_FFFF), 0xFFFB_FFFF, i);
    BitAnd(Or(cr, 1), 0xEAF6_FFFF, i);
    BitOr(cr, 1, i);
  }

  lemma DeInitBits(cr: Word)
    ensures var x := And(And(Or(cr, 1), 0xEAF6_FFFF), 0xFFFB_FFFF);
            Bit(x, 0) && !Bit(x, 16) && !Bit(x, 18) && !Bit(x, 19) && !Bit(x, 24) && !Bit(x, 26) && !Bit(x, 28)
  {
    hide And, OrBits, Shr, Shl, Up;
    Powers();
    DeInitBit(cr, 0);
    DeInitBit(cr, 16);
    DeInitBit(cr, 18);
    DeInitBit(cr, 19);
    DeInitBit(cr, 24);
    DeInitBit(cr, 26);
    DeInitBit(cr, 28);
    BitIsDivMod(1, 0);
    BitIsDivMod(0xEAF6_FFFF, 0);
    BitIsDivMod(0xFFFB_FFFF, 0);
    BitIsDivMod(0xEAF6_FFFF, 16);
    BitIsDivMod(0xFFFB_FFFF, 18);
    BitIsDivMod(0xEAF6_FFFF, 19);
    BitIsDivMod(0xEAF6_FFFF, 24);
    BitIsDivMod(0xEAF6_FFFF, 26);
    BitIsDivMod(0xEAF6_FFFF, 28);
  }

  /** The five PLL fields do not overlap, so `|` adds them. */
  lemma PllSum(source: Word, m: Word, n: Word, p: Word, q: Word)
    requires IsPll(source, m, n, p, q)
    ensures PackPll(source, m, n, p, q) ==
            m + n * 0x40 + (p / 2 - 1) * 0x1_0000 + source + q * 0x100_0000
  {
    hide And, OrBits, Shr, Shl, Up;
    Powers();
    ShlIsUp(n, 6, 9);
    UpIsTimes(n, 6);
    ShrIsDiv(p, 1);
    ShlIsUp(p / 2 - 1, 16, 2);
    UpIsTimes(p / 2 - 1, 16);
    ShlIsUp(q, 24, 4);
    UpIsTimes(q, 24);
    OrAbove(m, n * 0x40, n, 6);
    OrAbove(m + n * 0x40, (p / 2 - 1) * 0x1_0000, p / 2 - 1, 16);
    OrAbove(m + n * 0x40 + (p / 2 - 1) * 0x1_0000, source, source / 0x40_0000, 22);
    OrAbove(m + n * 0x40 + (p / 2 - 1) * 0x1_0000 + source, q * 0x100_0000, q, 24);
  }

  /** The digits of PLLCFGR, with r in the reserved top bits. */
  lemma PllDigits(m: nat, n: nat, p: nat, s: nat, q: nat, r: nat, x: Word)
    requires m < 0x40 && n < 0x200 && p < 4 && s < 2 && q < 16
    requires x == m + n * 0x40 + p * 0x1_0000 + s * 0x40_0000 + q * 0x100_0000 + r * 0x1000_0000
    ensures DecodePll(x) == PllCfgr(m, n, p, s, q)
  {
    hide Get, Pow2;
    Powers();
    GetDigit(x, 0, 6, 1, 0x40, n + p * 0x400 + s * 0x1_0000 + q * 0x4_0000 + r * 0x40_0000, m, 0);
    GetDigit(x, 6, 9, 0x40, 0x200, p * 2 + s * 0x80 + q * 0x200 + r * 0x2000, n, m);
    GetDigit(x, 16, 2, 0x1_0000, 4, s * 0x10 + q * 0x40 + r * 0x400, p, m + n * 0x40);
    GetDigit(x, 22, 1, 0x40_0000, 2, q * 2 + r * 0x20, s, m + n * 0x40 + p * 0x1_0000);
    GetDigit(x, 24, 4, 0x100_0000, 0x10, r, q, m + n * 0x40 + p * 0x1_0000 + s * 0x40_0000);
  }

  lemma PllPacking(source: Word, m: Word, n: Word, p: Word, q: Word)
    requires IsPll(source, m, n, p, q)
    ensures DecodePll(PackPll(source, m, n, p, q)) ==
            PllCfgr(m, n, p / 2 - 1, source / 0x40_0000, q)
  {
    hide And, OrBits, Shr, Shl, Up, Get, PackPll;
    PllSum(source, m, n, p, q);
    PllDigits(m, n, p / 2 - 1, source / 0x40_0000, q, 0, PackPll(source, m, n, p, q));
  }

  lemma RtcSource(x: Word)
    requires IsRtcclk(x)
    ensures And(x, 0x300) == 0x300 <==> x >= 0x300
    ensures x >= 0x300 ==> And(x, 0xFFF_FCFF) == x - 0x300
    ensures And(x, 0xFFF) == x % 0x1000
  {
    hide And, OrBits, Shr, Shl, Up;
    Powers();
    LiteralMask(x, 0x300, 8, 2);
    GetIsDivMod(x, 8, 2);
    AndOnes(x, 12);
    if x >= 0x300 {
      ClearSubtracts(x, 0x300);
      DoublePut(x, 0x300, 0, 8, 2, 0, 0xF000_0000, 0, 28, 4, 0);
      LiteralUpdate(x, 0x300, 0, 8, 2, 0);
      LiteralUpdate(x - 0x300, 0xF000_0000, 0, 28, 4, 0);
      OrZero(x - 0x300);
      OrZero(0);
      OrZero(And(x, 0xFFF_FCFF));
      OrZero(And(x - 0x300, 0xFFF_FFFF));
      AndOnes(x - 0x300, 28);
    }
  }

  /** The mask-and-shift expressions of the two reading functions are the fields. */
  lemma ReadFields(cfgr: Word, pll: Word)
    ensures And(cfgr, 0xC) == Get(cfgr, 2, 2) * 4
    ensures Shr(And(cfgr, 0xF0), 4) == Get(cfgr, 4, 4)
    ensures Shr(And(cfgr, 0x1C00), 10) == Get(cfgr, 10, 3)
    ensures Shr(And(cfgr, 0xE000), 13) == Get(cfgr, 13, 3)
    ensures Shr(And(pll, 0x40_0000), 22) == Get(pll, 22, 1)
    ensures And(pll, 0x3F) == Get(pll, 0, 6)
    ensures Shr(And(pll, 0x7FC0), 6) == Get(pll, 6, 9)
    ensures Shr(And(pll, 0x3_0000), 16) == Get(pll, 16, 2)
  {
    hide And, OrBits, Shr, Shl, Up;
    Powers();
    LiteralMask(cfgr, 0xC, 2, 2);
    LiteralGet(cfgr, 0xF0, 4, 4);
    LiteralGet(cfgr, 0x1C00, 10, 3);
    LiteralGet(cfgr, 0xE000, 13, 3);
    LiteralGet(pll, 0x40_0000, 22, 1);
    LiteralMask(pll, 0x3F, 0, 6);
    LiteralGet(pll, 0x7FC0, 6, 9);
    LiteralGet(pll, 0x3_0000, 16, 2);
  }

  // ---------------------------------------------------------------- the two reports agree

  /** Which register contents make the two reports differ: exactly the AHB prescaler
      codes 4 to 7 with a system clock that is not 0. */
  lemma ReportsAgreeExactly(s: Clocks, hsi: Word, hse: Word)
    requires InRange(s)
    ensures Report(s, hsi, hse).None? <==> CoreClock(s, hsi, hse).None?
    ensures Report(s, hsi, hse).Some? ==>
              (Report(s, hsi, hse).value.hclk == CoreClock(s, hsi, hse).value <==>
               !(4 <= s.cfgr.hpre < 8) || Sysclk(s, hsi, hse) == Some(0))
  {
    if Report(s, hsi, hse).Some? && 4 <= s.cfgr.hpre < 8 {
      ShrShrinks(Sysclk(s, hsi, hse).value, APB_AHB_PRESC[s.cfgr.hpre]);
    }
  }

  lemma {:induction false} ShrShrinks(x: nat, k: nat)
    requires k > 0
    ensures Shr(x, k) == x <==> x == 0
  {
    if k > 1 { ShrShrinks(x / 2, k - 1); }
  }

  /** The invariant behind the agreement. */
  ghost predicate LegalPrescaler(s: Clocks) {
    s.cfgr.hpre == 0 || 8 <= s.cfgr.hpre < 16
  }

  lemma {:induction false} RunKeepsPrescaler(s: Clocks, calls: seq<Call>)
    requires InRange(s) && LegalPrescaler(s) && AllLegal(calls)
    ensures InRange(Run(s, calls)) && LegalPrescaler(Run(s, calls))
    decreases |calls|
  {
    if calls != [] { RunKeepsPrescaler(Step(s, calls[0]), calls[1..]); }
  }

  /** After any history of legal calls and hardware clock switches, both functions report
      the same HCLK, or both divide by zero. */
  lemma ReportsAgreeAfterAnyHistory(s: Clocks, calls: seq<Call>, hsi: Word, hse: Word)
    requires InRange(s) && LegalPrescaler(s) && AllLegal(calls)
    ensures InRange(Run(s, calls))
    ensures match Report(Run(s, calls), hsi, hse)
            case None => CoreClock(Run(s, calls), hsi, hse) == None
            case Some(f) => CoreClock(Run(s, calls), hsi, hse) == Some(f.hclk)
  {
    RunKeepsPrescaler(s, calls);
    ReportsAgreeExactly(Run(s, calls), hsi, hse);
  }

  /** A register content that no legal history reaches, on which they differ. */
  lemma ReportsCanDiffer()
    ensures var s := Step(Clocks(Cfgr(0, 0, 0, 0, 0, 0, 0, 0, 0, 0, 0, 0), PllCfgr(0, 0, 0, 0, 0)), DeInit);
            var t := s.(cfgr := s.cfgr.(hpre := 4));
            InRange(t) && Report(t, 16_000_000, 8_000_000).value.hclk != CoreClock(t, 16_000_000, 8_000_000).value
  {
  }

  // ---------------------------------------------------------------- dividers compose

  /** The dividers as the header names its codes (RCC_SYSCLK_DivN, RCC_HCLK_DivN). */
  datatype Dividers = Dividers(ahb: nat, apb1: nat, apb2: nat)

  function SysclkDiv(x: Word): nat
    requires IsHclk(x)
  {
    if x == 0 then 1 else [2, 4, 8, 16, 64, 128, 256, 512][x / 16 - 8]
  }

  function HclkDiv(x: Word): nat
    requires IsPclk(x)
  {
    if x == 0 then 1 else [2, 4, 8, 16][x / 0x400 - 4]
  }

  /** The dividers last asked for, read off the call history alone. */
  function LastDividers(d: Dividers, calls: seq<Call>): Dividers
    requires AllLegal(calls)
    decreases |calls|
  {
    if calls == [] then d else LastDividers(AskedFor(d, calls[0]), calls[1..])
  }

  function AskedFor(d: Dividers, c: Call): Dividers
    requires Legal(c)
  {
    match c
    case DeInit => Dividers(1, 1, 1)
    case HclkConfig(x) => d.(ahb := SysclkDiv(x))
    case Pclk1Config(x) => d.(apb1 := HclkDiv(x))
    case Pclk2Config(x) => d.(apb2 := HclkDiv(x))
    case _ => d
  }

  ghost predicate Programmed(s: Clocks, d: Dividers) {
    InRange(s) && Pow2(APB_AHB_PRESC[s.cfgr.hpre]) == d.ahb &&
    Pow2(APB_AHB_PRESC[s.cfgr.ppre1]) == d.apb1 && Pow2(APB_AHB_PRESC[s.cfgr.ppre2]) == d.apb2
  }

  lemma HclkCode(x: Word)
    requires IsHclk(x)
    ensures x / 16 < 16 && Pow2(APB_AHB_PRESC[x / 16]) == SysclkDiv(x)
  {
    Powers();
  }

  lemma PclkCode(x: Word)
    requires IsPclk(x)
    ensures x / 0x400 < 8 && Pow2(APB_AHB_PRESC[x / 0x400]) == HclkDiv(x)
  {
    Powers();
  }

  lemma StepKeepsDividers(s: Clocks, d: Dividers, c: Call)
    requires Programmed(s, d) && Legal(c)
    ensures Programmed(Step(s, c), AskedFor(d, c))
  {
    hide Pow2, IsHclk, IsPclk, SysclkDiv, HclkDiv;
    match c
    case DeInit => Pow2Zero();
    case HclkConfig(x) => HclkCode(x);
    case Pclk1Config(x) => PclkCode(x);
    case Pclk2Config(x) => PclkCode(x);
    case _ =>
  }

  lemma {:induction false} RunKeepsDividers(s: Clocks, d: Dividers, calls: seq<Call>)
    requires Programmed(s, d) && AllLegal(calls)
    ensures Programmed(Run(s, calls), LastDividers(d, calls))
    decreases |calls|
  {
    if calls != [] {
      StepKeepsDividers(s, d, calls[0]);
      RunKeepsDividers(Step(s, calls[0]), AskedFor(d, calls[0]), calls[1..]);
    }
  }

  /** After any interleaving of the configuration calls the reported bus clocks are the
      system clock divided once by the product of the last dividers asked for. */
  lemma DividersCompose(s: Clocks, d: Dividers, calls: seq<Call>, hsi: Word, hse: Word)
    requires Programmed(s, d) && AllLegal(calls)
    ensures InRange(Run(s, calls))
    ensures var e := LastDividers(d, calls);
            e.ahb > 0 && e.ahb * e.apb1 > 0 && e.ahb * e.apb2 > 0 &&
            match Report(Run(s, calls), hsi, hse)
            case None => Sysclk(Run(s, calls), hsi, hse) == None
            case Some(f) =>
              Sysclk(Run(s, calls), hsi, hse) == Some(f.sysclk) && f.hclk == f.sysclk / e.ahb &&
              f.pclk1 == f.sysclk / (e.ahb * e.apb1) && f.pclk2 == f.sysclk / (e.ahb * e.apb2)
  {
    hide And, OrBits, Shr, Shl, Up;
    RunKeepsDividers(s, d, calls);
    var t, e := Run(s, calls), LastDividers(d, calls);
    var f := match Sysclk(t, hsi, hse) case None => 0 case Some(f) => f;
    var a, b, c := APB_AHB_PRESC[t.cfgr.hpre], APB_AHB_PRESC[t.cfgr.ppre1], APB_AHB_PRESC[t.cfgr.ppre2];
    ShrIsDiv(f, a);
    ShrIsDiv(f / e.ahb, b);
    ShrIsDiv(f / e.ahb, c);
    DivDiv(f, e.ahb, e.apb1);
    DivDiv(f, e.ahb, e.apb2);
  }

  // ---------------------------------------------------------------- every field, after any history

  /** The programmable fields of the two registers. */
  datatype Field = SW | SWS | HPRE | PPRE1 | PPRE2 | RTCPRE | MCO1 | MCO1PRE | MCO2 | MCO2PRE | I2SSRC
                 | RESERVED | PLLM | PLLN | PLLP | PLLSRC | PLLQ

  function ValueOf(s: Clocks, f: Field): nat {
    match f
    case SW => s.cfgr.sw case SWS => s.cfgr.sws case HPRE => s.cfgr.hpre case PPRE1 => s.cfgr.ppre1
    case PPRE2 => s.cfgr.ppre2 case RTCPRE => s.cfgr.rtcpre case MCO1 => s.cfgr.mco1
    case MCO1PRE => s.cfgr.mco1pre case MCO2 => s.cfgr.mco2 case MCO2PRE => s.cfgr.mco2pre
    case I2SSRC => s.cfgr.i2ssrc case RESERVED => s.cfgr.reserved case PLLM => s.pll.m
    case PLLN => s.pll.n case PLLP => s.pll.p case PLLSRC => s.pll.src case PLLQ => s.pll.q
  }

  /** The field's reset value in the reference manual. */
  function ResetValue(f: Field): nat {
    match f
    case PLLM => 16
    case PLLN => 192
    case PLLQ => 4
    case _ => 0
  }

  /** What a call asks of a field; None if it has nothing to do with it. The arguments are the
      header's codes, which hold the value at the field's place in the register. */
  function Asks(c: Call, f: Field): Option<nat>
    requires Legal(c)
  {
    if c.DeInit? then Some(ResetValue(f))
    else match f
      case SW => if c.SysclkConfig? then Some(c.sw) else None
      case SWS => if c.HardwareSwitch? then Some(c.sws) else None
      case HPRE => if c.HclkConfig? then Some(c.sysclk / 0x10) else None
      case PPRE1 => if c.Pclk1Config? then Some(c.hclk1 / 0x400) else None
      case PPRE2 => if c.Pclk2Config? then Some(c.hclk2 / 0x400) else None
      case RTCPRE => if c.RtcclkConfig? && c.rtc % 0x400 == 0x300 then Some(c.rtc / 0x1_0000) else None
      case MCO1 => if c.Mco1Config? then Some(c.source1 / 0x20_0000) else None
      case MCO1PRE => if c.Mco1Config? then Some(c.div1 / 0x100_0000) else None
      case MCO2 => if c.Mco2Config? then Some(c.source2 / 0x4000_0000) else None
      case MCO2PRE => if c.Mco2Config? then Some(c.div2 / 0x800_0000) else None
      case I2SSRC => if c.I2sclkConfig? then Some(c.i2s) else None
      case RESERVED => None
      case PLLM => if c.PllConfig? then Some(c.m) else None
      case PLLN => if c.PllConfig? then Some(c.n) else None
      case PLLP => if c.PllConfig? then Some((c.p - 2) / 2) else None
      case PLLSRC => if c.PllConfig? then Some(c.source / 0x40_0000) else None
      case PLLQ => if c.PllConfig? then Some(c.q) else None
  }

  /** The value last asked for, read off the calls alone. */
  function LastAsked(before: nat, calls: seq<Call>, f: Field): nat
    requires AllLegal(calls)
    decreases |calls|
  {
    if calls == [] then before
    else LastAsked(Updated(Asks(calls[0], f), before), calls[1..], f)
  }

  /** The value of a field after a call that asks for v, if it asks for one. */
  function Updated(asked: Option<nat>, before: nat): nat {
    match asked case Some(v) => v case None => before
  }

  lemma StepPllField(s: Clocks, c: Call, f: Field)
    requires Legal(c) && (c.PllConfig? || c.DeInit?)
    ensures ValueOf(Step(s, c), f) == Updated(Asks(c, f), ValueOf(s, f))
  {
  }

  lemma StepRtcField(s: Clocks, c: Call, f: Field)
    requires Legal(c) && c.RtcclkConfig?
    ensures ValueOf(Step(s, c), f) == Updated(Asks(c, f), ValueOf(s, f))
  {
  }

  lemma StepField(s: Clocks, c: Call, f: Field)
    requires Legal(c)
    ensures ValueOf(Step(s, c), f) == Updated(Asks(c, f), ValueOf(s, f))
  {
    if c.PllConfig? || c.DeInit? {
      hide ValueOf, Step, Asks, Updated;
      StepPllField(s, c, f);
    } else if c.RtcclkConfig? {
      hide ValueOf, Step, Asks, Updated;
      StepRtcField(s, c, f);
    } else {
      hide IsHclk, IsPclk, IsMco1, IsMco2, IsPll, IsRtcclk;
    }
  }

  /** After any history every field holds the value last asked for, and calls that do not ask
      for a field leave it. */
  lemma {:induction false} FieldsAfterAnyHistory(s: Clocks, calls: seq<Call>, f: Field)
    requires AllLegal(calls)
    ensures ValueOf(Run(s, calls), f) == LastAsked(ValueOf(s, f), calls, f)
    decreases |calls|
  {
    hide Step, ValueOf, Asks, Legal;
    if calls != [] {
      StepField(s, calls[0], f);
      FieldsAfterAnyHistory(Step(s, calls[0]), calls[1..], f);
    }
  }

  /** The system clock as the field's codes name it: 1 is the crystal, 2 the PLL, 0 and the
      unused code 3 the internal oscillator. */
  lemma SelectedClock(s: Clocks, hsi: Word, hse: Word)
    ensures s.cfgr.sws == 0 || s.cfgr.sws == 3 ==> Sysclk(s, hsi, hse) == Some(hsi)
    ensures s.cfgr.sws == 1 ==> Sysclk(s, hsi, hse) == Some(hse)
  {
  }

  /** From reset, after any calls while the hardware stays on an oscillator: the clocks are
      that oscillator divided by the dividers last asked for. */
  lemma ClocksFromReset(s: Clocks, calls: seq<Call>, hsi: Word, hse: Word)
    requires AllLegal(calls)
    ensures var t, e, w := Run(Step(s, DeInit), calls), LastDividers(Dividers(1, 1, 1), calls), LastAsked(0, calls, SWS);
            InRange(t) && e.ahb > 0 && e.ahb * e.apb1 > 0 && e.ahb * e.apb2 > 0 &&
            (w == 0 || w == 1 || w == 3 ==>
              var f := if w == 1 then hse else hsi;
              Report(t, hsi, hse).Some? && CoreClock(t, hsi, hse).Some? &&
              var r := Report(t, hsi, hse).value;
              r.sysclk == f && r.hclk == f / e.ahb && r.pclk1 == f / (e.ahb * e.apb1) && r.pclk2 == f / (e.ahb * e.apb2) &&
              CoreClock(t, hsi, hse).value == f / e.ahb)
  {
    hide Run, Report, CoreClock, Sysclk, LastDividers, LastAsked, Pow2;
    var reset := Step(s, DeInit);
    Pow2Zero();
    DividersCompose(reset, Dividers(1, 1, 1), calls, hsi, hse);
    FieldsAfterAnyHistory(reset, calls, SWS);
    SelectedClock(Run(reset, calls), hsi, hse);
    ReportsAgreeAfterAnyHistory(reset, calls, hsi, hse);
  }

  predicate LeavesClocks(c: Call) {
    !c.HardwareSwitch? && !c.HclkConfig? && !c.Pclk1Config? && !c.Pclk2Config?
  }

  lemma {:induction false} UntouchedDividers(calls: seq<Call>)
    requires AllLegal(calls) && forall i :: 0 <= i < |calls| ==> LeavesClocks(calls[i])
    ensures LastDividers(Dividers(1, 1, 1), calls) == Dividers(1, 1, 1) && LastAsked(0, calls, SWS) == 0
    decreases |calls|
  {
    if calls != [] { UntouchedDividers(calls[1..]); }
  }

  /** So after RCC_DeInit and any calls that leave the clock switch and the prescalers alone,
      all four clocks are reported as the internal oscillator. */
  lemma ResetRunsOnHsi(s: Clocks, calls: seq<Call>, hsi: Word, hse: Word)
    requires AllLegal(calls) && forall i :: 0 <= i < |calls| ==> LeavesClocks(calls[i])
    ensures var t := Run(Step(s, DeInit), calls);
            InRange(t) && Report(t, hsi, hse) == Some(Frequencies(hsi, hsi, hsi, hsi)) &&
            CoreClock(t, hsi, hse) == Some(hsi)
  {
    hide Run, Report, CoreClock, LastDividers, LastAsked, LeavesClocks, AllLegal;
    UntouchedDividers(calls);
    ClocksFromReset(s, calls, hsi, hse);
  }

  // ---------------------------------------------------------------- PLL round trip

  /** Configuring the PLL and reading the frequency back while it drives the system clock
      recovers the factors and loses only the two truncations, exactly when the product
      (source / M) * N fits in 32 bits. */
  lemma PllRoundTrip(s: Clocks, source: Word, m: Word, n: Word, p: Word, q: Word, hsi: Word, hse: Word)
    requires IsPll(source, m, n, p, q) && s.cfgr.sws == 2
    ensures var t := Step(s, PllConfig(source, m, n, p, q));
            var f := if source == 0 then hsi else hse;
            t.pll.m == m && t.pll.n == n && (t.pll.p + 1) * 2 == p && t.pll.q == q && t.pll.src * 0x40_0000 == source &&
            match Sysclk(t, hsi, hse)
            case None => m == 0
            case Some(sysclk) =>
              m >= 1 &&
              (f / m * n < WORD <==> 0 <= f * n - sysclk * m * p <= m * (p - 1) + (m - 1) * n)
  {
    hide Vco, Div;
    if m >= 1 {
      var f := if source == 0 then hsi else hse;
      assert Sysclk(Step(s, PllConfig(source, m, n, p, q)), hsi, hse) == Some(Div(Vco(f, m, n), p));
      if f / m * n < WORD {
        PllOutput(f, m, n, p);
        TruncationBound(f, m, n, p);
      } else {
        WrappedOutput(f, m, n, p);
      }
    }
  }

  lemma WrappedOutput(f: Word, m: nat, n: nat, p: nat)
    requires 1 <= m && 1 <= p <= 8 && n <= 432 && f / m * n >= WORD
    ensures f * n - Div(Vco(f, m, n), p) * m * p > m * (p - 1) + (m - 1) * n
  {
    hide Vco, Div;
    var a, r := f / m, f % m;
    var y := Div(Vco(f, m, n), p);
    QuotientParts(f, m);
    LostTurn(a * n, p, Vco(f, m, n), y) by { VcoValue(f, m, n, p); }
    TwoRemainders(f, m, n, p, a, r, y, a * n - p * y);
    LostWord(m, n, p, a * n - p * y, r);
  }

  lemma VcoValue(f: Word, m: nat, n: nat, p: nat)
    requires m >= 1 && p >= 1
    ensures Vco(f, m, n) == f / m * n % WORD && Div(Vco(f, m, n), p) == Vco(f, m, n) / p
  {
  }

  lemma QuotientParts(f: nat, m: nat)
    requires m >= 1
    ensures f == m * (f / m) + f % m && 0 <= f % m < m
  {
  }

  lemma LostTurn(x: nat, p: nat, vco: nat, y: nat)
    requires x >= WORD && p >= 1 && vco == x % WORD && y == vco / p
    ensures x - p * y >= WORD
  {
    QuotientParts(vco, p);
    assert x % WORD <= x - WORD;
  }

  lemma LostWord(m: nat, n: nat, p: nat, t: nat, r: nat)
    requires 1 <= m && 1 <= p <= 8 && n <= 432 && t >= WORD
    ensures m * t + n * r > m * (p - 1) + (m - 1) * n
  {
    MulMono(m, WORD, t);
    MulMono(m, p - 1, 7);
    MulMono(m - 1, n, 432);
  }

  lemma PllOutput(f: Word, m: nat, n: nat, p: nat)
    requires m >= 1 && p >= 1 && f / m * n < WORD
    ensures Div(Vco(f, m, n), p) == f / m * n / p
  {
    hide Vco, Div;
    VcoValue(f, m, n, p);
    DivModUnique(f / m * n, WORD, 0, f / m * n);
  }

  lemma TruncationBound(f: nat, m: nat, n: nat, p: nat)
    requires m >= 1 && p >= 1
    ensures 0 <= f * n - f / m * n / p * m * p <= m * (p - 1) + (m - 1) * n
  {
    QuotientParts(f, m);
    QuotientParts(f / m * n, p);
    BoundFromParts(f, m, n, p, f / m, f % m, f / m * n / p, f / m * n % p);
  }

  lemma BoundFromParts(f: nat, m: nat, n: nat, p: nat, a: nat, r: nat, y: nat, t: nat)
    requires f == m * a + r && a * n == p * y + t && r < m && t < p
    ensures 0 <= f * n - y * m * p <= m * (p - 1) + (m - 1) * n
  {
    TwoRemainders(f, m, n, p, a, r, y, t);
    MulMono(m, t, p - 1);
    MulMono(n, r, m - 1);
    assert n * (m - 1) == (m - 1) * n;
    assert m * t >= 0 && n * r >= 0;
  }

  lemma TwoRemainders(f: nat, m: nat, n: nat, p: nat, a: nat, r: nat, y: nat, t: nat)
    requires f == m * a + r && a * n == p * y + t
    ensures f * n - y * m * p == m * t + n * r
  {
    assert f * n == m * (a * n) + n * r by { Distribute(m, a, r, n); }
    assert m * (a * n) == m * (p * y) + m * t;
    assert m * (p * y) == y * m * p by { MulAssoc(m, p, y); MulAssoc(y, m, p); }
  }

  /** The limit is within reach: a 25 MHz crystal with M = 1 already wraps. */
  lemma PllProductCanWrap()
    ensures IsPll(0x40_0000, 1, 192, 2, 4) && 25_000_000 / 1 * 192 >= WORD
  {
  }
}
