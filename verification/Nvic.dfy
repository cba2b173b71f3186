/** Interrupt priorities: the CMSIS coding functions (core_cm4.h) for any number of priority
    bits, and the independent implementation in NVIC_Init (misc.c). */
module Nvic {
  import opened Words

  type Byte = n: nat | n < 256

  // ---------------------------------------------------------------- CMSIS coding

  function PreemptBits(group: Word, bits: nat): nat {
    var g := And(group, 7);
    if 7 - g > bits then bits else 7 - g
  }

  function SubBits(group: Word, bits: nat): nat {
    var g := And(group, 7);
    if g + bits < 7 then 0 else g - 7 + bits
  }

  /** `(1 << k) - 1` */
  function LowMask(k: nat): Word
    requires k < 32
  {
    ShlOne(k);
    Shl(1, k) - 1
  }

  /** The width of the preemption field: what lies above bit PRIGROUP of the priority byte, as
      far as it is implemented. The subpriority has the other implemented bits. */
  function PreemptWidth(group: Word, bits: nat): (w: nat)
    ensures w <= bits
  {
    if 7 - group % 8 < bits then 7 - group % 8 else bits
  }

  lemma BitsSplit(group: Word, bits: nat)
    requires bits <= 8
    ensures And(group, 7) == group % 8
    ensures PreemptBits(group, bits) == PreemptWidth(group, bits)
    ensures SubBits(group, bits) == bits - PreemptWidth(group, bits)
    ensures PreemptBits(group, bits) + SubBits(group, bits) == bits
    ensures PreemptBits(group, bits) <= 7 && SubBits(group, bits) <= 8
  {
    Powers();
    AndOnes(group, 3);
  }

  function NVIC_EncodePriority(group: Word, preempt: Word, sub: Word, bits: nat): Word
    requires bits <= 8
  {
    BitsSplit(group, bits);
    Or(Shl(And(preempt, LowMask(PreemptBits(group, bits))), SubBits(group, bits)),
       And(sub, LowMask(SubBits(group, bits))))
  }

  function NVIC_DecodePriority(priority: Word, group: Word, bits: nat): (Word, Word)
    requires bits <= 8
  {
    BitsSplit(group, bits);
    (And(Shr(priority, SubBits(group, bits)), LowMask(PreemptBits(group, bits))),
     And(priority, LowMask(SubBits(group, bits))))
  }

  /** Two fields as one number, each reduced to its size, and the fields of a number. */
  function Join(p: nat, s: nat, hi: nat, lo: nat): nat
    requires p > 0 && s > 0
  {
    hi % p * s + lo % s
  }

  function Split(p: nat, s: nat, code: nat): (nat, nat)
    requires p > 0 && s > 0
  {
    (code / s % p, code % s)
  }

  lemma JoinInRange(p: nat, s: nat, hi: nat, lo: nat)
    requires hi < p && lo < s
    ensures Join(p, s, hi, lo) == hi * s + lo
  {
    DivModUnique(hi, p, 0, hi);
    DivModUnique(lo, s, 0, lo);
  }

  lemma JoinBound(p: nat, s: nat, hi: nat, lo: nat)
    requires hi < p && lo < s
    ensures Join(p, s, hi, lo) < p * s
  {
    hide Join;
    JoinInRange(p, s, hi, lo);
    MulMono(s, hi + 1, p);
  }

  lemma SplitJoin(p: nat, s: nat, hi: nat, lo: nat)
    requires hi < p && lo < s
    ensures Split(p, s, Join(p, s, hi, lo)) == (hi, lo)
  {
    hide Join;
    JoinInRange(p, s, hi, lo);
    DivModUnique(Join(p, s, hi, lo), s, hi, lo);
    DivModUnique(hi, p, 0, hi);
  }

  lemma JoinSplit(p: nat, s: nat, code: nat)
    requires p > 0 && s > 0 && code < p * s
    ensures var (hi, lo) := Split(p, s, code);
            hi < p && lo < s && Join(p, s, hi, lo) == code
  {
    hide Join;
    var q, r := code / s, code % s;
    assert code == s * q + r;
    MulMono(s, if p <= q then p else q, q);
    DivModUnique(q, p, 0, q);
    JoinInRange(p, s, q, r);
  }

  lemma JoinOrder(p: nat, s: nat, h1: nat, l1: nat, h2: nat, l2: nat)
    requires h1 < p && l1 < s && h2 < p && l2 < s
    ensures Join(p, s, h1, l1) < Join(p, s, h2, l2) <==> h1 < h2 || (h1 == h2 && l1 < l2)
  {
    hide Join;
    JoinInRange(p, s, h1, l1);
    JoinInRange(p, s, h2, l2);
    LexOrder(s, h1, l1, h2, l2);
  }

  lemma LexOrder(s: nat, h1: nat, l1: nat, h2: nat, l2: nat)
    requires l1 < s && l2 < s
    ensures h1 * s + l1 < h2 * s + l2 <==> h1 < h2 || (h1 == h2 && l1 < l2)
  {
    if h1 < h2 { MulMono(s, h1 + 1, h2); }
    if h2 < h1 { MulMono(s, h2 + 1, h1); }
  }

  /** The code as a number: the preemption priority above the subpriority. */
  lemma EncodeValue(group: Word, preempt: Word, sub: Word, bits: nat)
    requires bits <= 8
    ensures NVIC_EncodePriority(group, preempt, sub, bits) ==
            Join(Pow2(PreemptBits(group, bits)), Pow2(SubBits(group, bits)), preempt, sub)
  {
    hide And, Or, Shl, PreemptBits, SubBits, Pow2, Join;
    BitsSplit(group, bits);
    var pb, sb := PreemptBits(group, bits), SubBits(group, bits);
    ShlOne(pb);
    ShlOne(sb);
    JoinFields(preempt, sub, pb, sb);
  }

  /** Masking both parts and joining them with `|`. */
  lemma JoinFields(hi: Word, lo: Word, pb: nat, sb: nat)
    requires pb + sb <= 32
    ensures Ones(pb) < WORD && Ones(sb) < WORD
    ensures Or(Shl(And(hi, Ones(pb)), sb), And(lo, Ones(sb))) == Join(Pow2(pb), Pow2(sb), hi, lo)
  {
    hide And, OrBits, Shl, Pow2;
    Powers();
    Pow2Mono(pb, 32);
    Pow2Mono(sb, 32);
    AndOnes(hi, pb);
    AndOnes(lo, sb);
    var p, u := hi % Pow2(pb), lo % Pow2(sb);
    ShlIsUp(p, sb, pb);
    UpIsTimes(p, sb);
    OrAbove(u, p * Pow2(sb), p, sb);
  }

  lemma DecodeValue(priority: Word, group: Word, bits: nat)
    requires bits <= 8
    ensures NVIC_DecodePriority(priority, group, bits) ==
            Split(Pow2(PreemptBits(group, bits)), Pow2(SubBits(group, bits)), priority)
  {
    hide And, Shr, Shl, PreemptBits, SubBits, Pow2;
    BitsSplit(group, bits);
    var pb, sb := PreemptBits(group, bits), SubBits(group, bits);
    ShlOne(pb);
    ShlOne(sb);
    ShrIsDiv(priority, sb);
    AndOnes(Shr(priority, sb), pb);
    AndOnes(priority, sb);
  }

  ghost predicate InRange(group: Word, preempt: Word, sub: Word, bits: nat) {
    preempt < Pow2(PreemptWidth(group, bits)) && sub < Pow2(bits - PreemptWidth(group, bits))
  }

  /** What the code of any pair is, for every group and up to 8 bits: each part is reduced to
      its width, the preemption part above the subpriority. */
  lemma CodeValue(group: Word, preempt: Word, sub: Word, bits: nat)
    requires bits <= 8
    ensures var s := Pow2(bits - PreemptWidth(group, bits));
            NVIC_EncodePriority(group, preempt, sub, bits) ==
            preempt % Pow2(PreemptWidth(group, bits)) * s + sub % s
  {
    hide And, PreemptBits, SubBits, NVIC_EncodePriority, Pow2, PreemptWidth;
    BitsSplit(group, bits);
    EncodeValue(group, preempt, sub, bits);
  }

  lemma CodeFits(pb: nat, sb: nat, hi: nat, lo: nat)
    requires hi < Pow2(pb) && lo < Pow2(sb)
    ensures Join(Pow2(pb), Pow2(sb), hi, lo) < Pow2(pb + sb)
  {
    hide Pow2, Join;
    Pow2Add(pb, sb);
    JoinBound(Pow2(pb), Pow2(sb), hi, lo);
  }

  lemma CodeSplits(pb: nat, sb: nat, code: nat)
    requires code < Pow2(pb + sb)
    ensures var (hi, lo) := Split(Pow2(pb), Pow2(sb), code);
            hi < Pow2(pb) && lo < Pow2(sb) && Join(Pow2(pb), Pow2(sb), hi, lo) == code
  {
    hide Pow2, Join, Split;
    Pow2Add(pb, sb);
    JoinSplit(Pow2(pb), Pow2(sb), code);
  }

  /** Encoding then decoding gives back every in-range pair, and the code fits the bits. */
  lemma DecodeEncode(group: Word, preempt: Word, sub: Word, bits: nat)
    requires bits <= 8 && InRange(group, preempt, sub, bits)
    ensures NVIC_EncodePriority(group, preempt, sub, bits) < Pow2(bits)
    ensures NVIC_DecodePriority(NVIC_EncodePriority(group, preempt, sub, bits), group, bits) == (preempt, sub)
  {
    hide *;
    var pb, sb := PreemptBits(group, bits), SubBits(group, bits);
    BitsSplit(group, bits);
    RangeOfPair(group, preempt, sub, bits);
    EncodeValue(group, preempt, sub, bits);
    DecodeValue(NVIC_EncodePriority(group, preempt, sub, bits), group, bits);
    CodeFits(pb, sb, preempt, sub);
    SplitJoin(Pow2(pb), Pow2(sb), preempt, sub);
  }

  lemma RangeOfPair(group: Word, preempt: Word, sub: Word, bits: nat)
    requires bits <= 8
    ensures InRange(group, preempt, sub, bits) <==>
            preempt < Pow2(PreemptBits(group, bits)) && sub < Pow2(SubBits(group, bits))
  {
    hide And, PreemptBits, SubBits, PreemptWidth, Pow2;
    BitsSplit(group, bits);
  }

  /** Decoding then encoding gives back every code: the coding is a bijection. */
  lemma EncodeDecode(group: Word, code: Word, bits: nat)
    requires bits <= 8 && code < Pow2(bits)
    ensures var (preempt, sub) := NVIC_DecodePriority(code, group, bits);
            InRange(group, preempt, sub, bits) && NVIC_EncodePriority(group, preempt, sub, bits) == code
  {
    hide And, PreemptBits, SubBits, PreemptWidth, NVIC_EncodePriority, NVIC_DecodePriority, Pow2, Join, Split;
    var pb, sb := PreemptBits(group, bits), SubBits(group, bits);
    BitsSplit(group, bits);
    DecodeValue(code, group, bits);
    CodeSplits(pb, sb, code);
    var (preempt, sub) := NVIC_DecodePriority(code, group, bits);
    EncodeValue(group, preempt, sub, bits);
  }

  /** Numeric order of the codes is the documented order: preemption priority first, then
      subpriority. */
  lemma CodeOrder(group: Word, p1: Word, s1: Word, p2: Word, s2: Word, bits: nat)
    requires bits <= 8 && InRange(group, p1, s1, bits) && InRange(group, p2, s2, bits)
    ensures NVIC_EncodePriority(group, p1, s1, bits) < NVIC_EncodePriority(group, p2, s2, bits) <==>
            p1 < p2 || (p1 == p2 && s1 < s2)
  {
    hide And, PreemptBits, SubBits, PreemptWidth, NVIC_EncodePriority, Pow2, Join;
    BitsSplit(group, bits);
    EncodeValue(group, p1, s1, bits);
    EncodeValue(group, p2, s2, bits);
    JoinOrder(Pow2(PreemptBits(group, bits)), Pow2(SubBits(group, bits)), p1, s1, p2, s2);
  }

  // ---------------------------------------------------------------- the controller

  /** Priority bytes of device interrupts and of system handlers 4 to 15, enable bits and the
      AIRCR register. */
  datatype State = State(ip: seq<Byte>, shp: seq<Byte>, enabled: seq<Word>, aircr: Word)

  ghost predicate Shape(s: State) {
    |s.ip| == 240 && |s.shp| == 12 && |s.enabled| == 8
  }

  /** Interrupt numbers with a priority byte: negative for system handlers. */
  predicate HasPriority(irq: int) { -12 <= irq < 240 }

  ghost function PriorityByte(s: State, irq: int): Byte
    requires Shape(s) && HasPriority(irq)
  {
    if irq < 0 then s.shp[irq + 12] else s.ip[irq]
  }

  ghost function PriorityGroup(s: State): nat {
    Get(s.aircr, 8, 3)
  }

  ghost predicate IsEnabled(s: State, irq: nat)
    requires Shape(s) && irq < 240
  {
    Bit(s.enabled[irq / 32], irq % 32)
  }

  /** The priority byte holds the code in its upper bits. */
  ghost function WithPriority(s: State, irq: int, code: nat): (t: State)
    requires Shape(s) && HasPriority(irq)
    ensures Shape(t)
  {
    if irq < 0 then s.(shp := s.shp[irq + 12 := code * 16 % 256]) else s.(ip := s.ip[irq := code * 16 % 256])
  }

  /** Setting one priority changes that interrupt's byte and no other, and every 4-bit code
      can be read back. */
  lemma PriorityIsLocal(s: State, irq: int, code: nat, other: int)
    requires Shape(s) && HasPriority(irq) && HasPriority(other)
    ensures PriorityByte(WithPriority(s, irq, code), other) / 16 ==
            if other == irq then code % 16 else PriorityByte(s, other) / 16
  {
    CodeByte(code, code % 16);
  }

  lemma CodeByte(code: nat, c: nat)
    requires c == code % 16
    ensures code * 16 % 256 == 16 * c && 16 * c / 16 == c
  {
    ScaleMod(code, 16, 16);
  }

  ghost function WithEnable(s: State, irq: nat, on: nat): State
    requires Shape(s) && irq < 240 && on < 2
  {
    Powers();
    s.(enabled := s.enabled[irq / 32 := Put(s.enabled[irq / 32], irq % 32, 1, on)])
  }

  /** Enabling or disabling one interrupt changes that interrupt's bit and no other. */
  lemma EnableIsLocal(s: State, irq: nat, on: nat, other: nat)
    requires Shape(s) && irq < 240 && other < 240 && on < 2
    ensures IsEnabled(WithEnable(s, irq, on), other) <==> if other == irq then on == 1 else IsEnabled(s, other)
  {
    hide Put, Bit;
    Powers();
    PutReplaces(s.enabled[irq / 32], irq % 32, 1, on);
    BitOfBit(on);
    assert Replaced(WithEnable(s, irq, on).enabled[irq / 32], s.enabled[irq / 32], irq % 32, 1, on);
    if other / 32 == irq / 32 && other != irq {
      assert other % 32 != irq % 32;
    }
  }

  class Controller {
    const IP: array<Byte>
    const SHP: array<Byte>
    const ENABLED: array<Word>
    var AIRCR: Word

    constructor (aircr: Word)
      ensures Valid() && fresh(IP) && fresh(SHP) && fresh(ENABLED) && AIRCR == aircr
    {
      IP, SHP, ENABLED, AIRCR := new Byte[240], new Byte[12], new Word[8], aircr;
    }

    ghost predicate Valid()
      reads this
    {
      IP.Length == 240 && SHP.Length == 12 && ENABLED.Length == 8
    }

    ghost function Current(): (s: State)
      reads this, IP, SHP, ENABLED
      requires Valid()
      ensures Shape(s)
    {
      State(IP[..], SHP[..], ENABLED[..], AIRCR)
    }

    method NVIC_SetPriorityGrouping(group: Word)
      requires Valid()
      modifies this`AIRCR
      ensures PriorityGroup(Current()) == group % 8
      ensures Get(AIRCR, 0, 8) == old(Get(AIRCR, 0, 8)) && Get(AIRCR, 11, 5) == old(Get(AIRCR, 11, 5))
      ensures Get(AIRCR, 16, 16) == 0x5FA
    {
      hide And, OrBits, Or, Shl, Shr, Get, Put, Up;
      var tmp := And(group, 7);
      var reg := AIRCR;
      reg := And(reg, Not(Or(0xFFFF_0000, 0x700)));
      reg := Or(Or(reg, Shl(0x5FA, 16)), Shl(tmp, 8));
      GroupingWord(AIRCR, group);
      AIRCR := reg;
    }

    method NVIC_GetPriorityGrouping() returns (group: nat)
      requires Valid()
      ensures group == PriorityGroup(Current())
    {
      hide And, Shr, Get;
      Powers();
      LiteralGet(AIRCR, 0x700, 8, 3);
      group := Shr(And(AIRCR, 0x700), 8);
    }

    method NVIC_EnableIRQ(irq: nat)
      requires Valid() && irq < 240
      modifies ENABLED
      ensures Current() == WithEnable(old(Current()), irq, 1)
      ensures Get(ENABLED[irq / 32], irq % 32, 1) == 1 && SameOutside(ENABLED[irq / 32], old(ENABLED[irq / 32]), irq % 32, 1)
    {
      hide And, OrBits, Shl, Shr, Get, Put, Up, Pow2;
      Powers();
      GetPut(ENABLED[irq / 32], irq % 32, 1, 1);
      IrqIndex(irq);
      SetBit(ENABLED[irq / 32], irq % 32);
      var bit := Shl(1, And(irq, 0x1F));
      ENABLED[Shr(irq, 5)] := Or(ENABLED[Shr(irq, 5)], bit);
    }

    method NVIC_DisableIRQ(irq: nat)
      requires Valid() && irq < 240
      modifies ENABLED
      ensures Current() == WithEnable(old(Current()), irq, 0)
      ensures Get(ENABLED[irq / 32], irq % 32, 1) == 0 && SameOutside(ENABLED[irq / 32], old(ENABLED[irq / 32]), irq % 32, 1)
    {
      hide And, OrBits, Shl, Shr, Get, Put, Up, Pow2;
      Powers();
      GetPut(ENABLED[irq / 32], irq % 32, 1, 0);
      IrqIndex(irq);
      ClearBit(ENABLED[irq / 32], irq % 32);
      var bit := Shl(1, And(irq, 0x1F));
      ENABLED[Shr(irq, 5)] := And(ENABLED[Shr(irq, 5)], Not(bit));
    }

    /** With the four priority bits of this family. The C index of a system handler is
        `((uint32_t)irq & 0xF) - 4`; handlers below 4 have no byte. */
    method NVIC_SetPriority(irq: int, priority: Word)
      requires Valid() && HasPriority(irq)
      modifies IP, SHP
      ensures Current() == WithPriority(old(Current()), irq, priority)
      ensures irq >= 0 ==> IP[irq] == priority % 16 * 16
      ensures irq < 0 ==> SHP[irq + 12] == priority % 16 * 16
    {
      hide And, Shl;
      ByteShift(priority);
      CodeByte(priority, priority % 16);
      if irq < 0 {
        HandlerIndex(irq);
        SHP[And(irq % WORD, 0xF) - 4] := And(Shl(priority, 4), 0xFF);
      } else {
        IP[irq] := And(Shl(priority, 4), 0xFF);
      }
    }

    method NVIC_GetPriority(irq: int) returns (priority: nat)
      requires Valid() && HasPriority(irq)
      ensures priority == PriorityByte(Current(), irq) / 16
      ensures priority == if irq < 0 then SHP[irq + 12] / 16 else IP[irq] / 16
    {
      hide And, Shr, Pow2;
      Powers();
      ShrIsDiv(PriorityByte(Current(), irq), 4);
      if irq < 0 {
        HandlerIndex(irq);
        priority := Shr(SHP[And(irq % WORD, 0xF) - 4], 4);
      } else {
        priority := Shr(IP[irq], 4);
      }
    }

    method NVIC_PriorityGroupConfig(group: Word)
      requires Valid()
      requires group == 0x300 || group == 0x400 || group == 0x500 || group == 0x600 || group == 0x700
      modifies this`AIRCR
      ensures PriorityGroup(Current()) == group / 0x100 >= 3
      ensures Get(AIRCR, 16, 16) == 0x5FA && Get(AIRCR, 0, 8) == 0 && Get(AIRCR, 11, 5) == 0
    {
      hide OrBits, Get, Pow2;
      Powers();
      OrAbove(group, 0x05FA_0000, 0x5FA, 16);
      AIRCR := Or(0x05FA_0000, group);
      var g := group / 0x100;
      GetDigit(AIRCR, 0, 8, 1, 0x100, 0x5_FA00 + g, 0, 0);
      GetDigit(AIRCR, 8, 3, 0x100, 8, 0xBF40, g, 0);
      GetDigit(AIRCR, 11, 5, 0x800, 0x20, 0x5FA, 0, group);
      GetDigit(AIRCR, 16, 16, 0x1_0000, 0x1_0000, 0, 0x5FA, group);
    }

    /** For every priority group that NVIC_PriorityGroupConfig can select and all 8-bit
        priorities, enabling a channel here leaves the state that NVIC_EncodePriority,
        NVIC_SetPriority and NVIC_EnableIRQ leave with four priority bits. */
    method NVIC_Init(channel: Byte, preempt: Byte, sub: Byte, enable: bool)
      requires Valid() && channel < 240
      requires enable ==> PriorityGroup(Current()) >= 3
      modifies IP, ENABLED
      ensures Current() ==
              if enable then
                WithEnable(WithPriority(old(Current()), channel,
                           NVIC_EncodePriority(PriorityGroup(old(Current())), preempt, sub, 4)), channel, 1)
              else WithEnable(old(Current()), channel, 0)
      ensures Get(ENABLED[channel / 32], channel % 32, 1) == if enable then 1 else 0
      ensures enable ==>
        var g := Get(AIRCR, 8, 3);
        3 <= g <= 7 && IP[channel] == (preempt % Pow2(7 - g) * Pow2(g - 3) + sub % Pow2(g - 3)) * 16
    {
      hide And, OrBits, Shl, Shr, Get, Put, Up, NVIC_EncodePriority, Pow2;
      Powers();
      GetPut(ENABLED[channel / 32], channel % 32, 1, 1);
      GetPut(ENABLED[channel / 32], channel % 32, 1, 0);
      IrqIndex(channel);
      if enable {
        ghost var group := PriorityGroup(Current());
        GroupShift(AIRCR);
        var tmppriority := Shr(0x700 - And(AIRCR, 0x700), 8);
        var tmppre := 4 - tmppriority;
        var tmpsub := Shr(0xF, tmppriority);
        InitCode(group, preempt, sub);
        FourBitByte(group, preempt, sub);
        tmppriority := Shl(preempt, tmppre) % 256;
        tmppriority := Or(tmppriority, And(sub, tmpsub));
        tmppriority := Shl(tmppriority, 4) % 256;
        IP[channel] := tmppriority;
        SetBit(ENABLED[channel / 32], channel % 32);
        ENABLED[Shr(channel, 5)] := Or(ENABLED[Shr(channel, 5)], Shl(1, And(channel, 0x1F)));
      } else {
        ClearBit(ENABLED[channel / 32], channel % 32);
        ENABLED[Shr(channel, 5)] := And(ENABLED[Shr(channel, 5)], Not(Shl(1, And(channel, 0x1F))));
      }
    }
  }

  // ---------------------------------------------------------------- register idioms

  lemma IrqIndex(irq: nat)
    requires irq < 240
    ensures Shr(irq, 5) == irq / 32 < 8 && And(irq, 0x1F) == irq % 32
  {
    Powers();
    ShrIsDiv(irq, 5);
    AndOnes(irq, 5);
  }

  lemma HandlerIndex(irq: int)
    requires -12 <= irq < 0
    ensures And(irq % WORD, 0xF) == irq + 16
  {
    hide And;
    Powers();
    AndOnes(irq % WORD, 4);
  }

  lemma ByteShift(x: Word)
    ensures And(Shl(x, 4), 0xFF) == x * 16 % 256
  {
    hide And, Shl, Pow2;
    Powers();
    AndOnes(Shl(x, 4), 8);
    ShlValue(x, 4);
    assert x * 16 % WORD % 256 == x * 16 % 256 by { ModMod(x * 16, 256, 0x100_0000); }
  }

  lemma GroupingWord(aircr: Word, group: Word)
    ensures var x := Or(Or(And(aircr, Not(Or(0xFFFF_0000, 0x700))), Shl(0x5FA, 16)), Shl(And(group, 7), 8));
            Get(x, 8, 3) == group % 8 && Get(x, 0, 8) == Get(aircr, 0, 8) &&
            Get(x, 11, 5) == Get(aircr, 11, 5) && Get(x, 16, 16) == 0x5FA
  {
    hide And, OrBits, Or, Shl, Shr, Get, Put, Up;
    Powers();
    AndOnes(group, 3);
    var cleared := And(aircr, Not(Or(0xFFFF_0000, 0x700)));
    ClearTwo(aircr);
    ShlValue(0x5FA, 16);
    SetField(cleared, 0x5FA_0000, 16, 16, 0x5FA);
    var keyed := Or(cleared, 0x5FA_0000);
    ShlValue(group % 8, 8);
    SetField(keyed, group % 8 * 0x100, 8, 3, group % 8);
  }

  lemma ClearTwo(r: Word)
    ensures var x := And(r, Not(Or(0xFFFF_0000, 0x700)));
            Get(x, 8, 3) == 0 && Get(x, 16, 16) == 0 && Get(x, 0, 8) == Get(r, 0, 8) && Get(x, 11, 5) == Get(r, 11, 5)
  {
    hide And, OrBits, Shl, Shr, Get, Put, Up;
    Powers();
    DoubleUpdate(r, 0xFFFF_0000, 0, 0x700, 0);
    var y := And(r, Not(0xFFFF_0000));
    ClearField(r, 0xFFFF_0000, 16, 16);
    ClearField(y, 0x700, 8, 3);
    OrZero(And(r, Not(Or(0xFFFF_0000, 0x700))));
    OrZero(y);
    OrZero(And(y, Not(0x700)));
    OrZero(0);
  }

  /** The shift counts NVIC_Init derives from PRIGROUP: with a group below 3, which is the
      state before NVIC_PriorityGroupConfig has been called, `4 - tmppriority` is negative
      and the 8-bit shift count exceeds the operand width. */
  lemma GroupShift(aircr: Word)
    ensures And(aircr, 0x700) == 0x100 * Get(aircr, 8, 3) <= 0x700
    ensures Shr(0x700 - And(aircr, 0x700), 8) == 7 - Get(aircr, 8, 3)
    ensures 4 - Shr(0x700 - And(aircr, 0x700), 8) >= 0 <==> Get(aircr, 8, 3) >= 3
    ensures (4 - Shr(0x700 - And(aircr, 0x700), 8)) % 256 < 32 <==> Get(aircr, 8, 3) >= 3
  {
    hide And, Shr, Get;
    Powers();
    LiteralMask(aircr, 0x700, 8, 3);
    ShrIsDiv(0x700 - And(aircr, 0x700), 8);
  }

  /** Although NVIC_Init never masks the preemption value, the final 8-bit shift drops what
      NVIC_EncodePriority masks away. */
  lemma InitCode(group: nat, preempt: Byte, sub: Byte)
    requires 3 <= group <= 7
    ensures var tmp := Shl(preempt, group - 3) % 256;
            Or(tmp, And(sub, Shr(0xF, 7 - group))) < 256 &&
            Shl(Or(tmp, And(sub, Shr(0xF, 7 - group))), 4) % 256 == NVIC_EncodePriority(group, preempt, sub, 4) * 16 % 256
  {
    hide And, Or, Shl, Shr, NVIC_EncodePriority, Pow2, Join;
    var sb := group - 3;
    FourBitCode(group, preempt, sub);
    InitHigh(preempt, sub, sb);
    JoinByte(preempt, sub, sb);
    ShiftNibble(Join(Pow2(8 - sb), Pow2(sb), preempt, sub));
    DroppedBits(preempt, sub, sb);
  }

  lemma FourBitCode(group: nat, preempt: Byte, sub: Byte)
    requires 3 <= group <= 7
    ensures NVIC_EncodePriority(group, preempt, sub, 4) == Join(Pow2(7 - group), Pow2(group - 3), preempt, sub)
  {
    hide And, NVIC_EncodePriority, Pow2, Join;
    BitsSplit(group, 4);
    EncodeValue(group, preempt, sub, 4);
  }

  lemma FourBitByte(group: nat, preempt: Byte, sub: Byte)
    requires 3 <= group <= 7
    ensures NVIC_EncodePriority(group, preempt, sub, 4) * 16 % 256 ==
            (preempt % Pow2(7 - group) * Pow2(group - 3) + sub % Pow2(group - 3)) * 16
  {
    hide NVIC_EncodePriority, Pow2, Join;
    var p, s := Pow2(7 - group), Pow2(group - 3);
    FourBitCode(group, preempt, sub);
    FourBitsFit(preempt, sub, group - 3);
    NibbleByte(Join(p, s, preempt, sub));
    JoinParts(p, s, preempt, sub);
  }

  lemma FourBitsFit(preempt: nat, sub: nat, sb: nat)
    requires sb <= 4
    ensures Join(Pow2(4 - sb), Pow2(sb), preempt, sub) < 16
  {
    hide Pow2, Join;
    Powers();
    Pow2Add(4 - sb, sb);
    JoinBelow(Pow2(4 - sb), Pow2(sb), preempt, sub);
  }

  lemma NibbleByte(c: nat)
    requires c < 16
    ensures c * 16 % 256 == c * 16
  {
  }

  lemma JoinParts(p: nat, s: nat, hi: nat, lo: nat)
    requires p > 0 && s > 0
    ensures Join(p, s, hi, lo) == hi % p * s + lo % s
  {
  }

  /** What NVIC_Init has computed before its last shift. */
  lemma InitHigh(preempt: Byte, sub: Byte, sb: nat)
    requires sb <= 4
    ensures Or(Shl(preempt, sb) % 256, And(sub, Shr(0xF, 4 - sb))) == Join(Pow2(8 - sb), Pow2(sb), preempt, sub)
  {
    hide And, OrBits, Shl, Shr, Pow2;
    ShiftByte(preempt, sb);
    SubMask(sb);
    AndOnes(sub, sb);
    var high := preempt % Pow2(8 - sb);
    OrAbove(sub % Pow2(sb), high * Pow2(sb), high, sb);
  }

  lemma ShiftByte(x: Byte, sb: nat)
    requires sb <= 4
    ensures Shl(x, sb) % 256 == x % Pow2(8 - sb) * Pow2(sb)
  {
    hide Shl, Pow2;
    Powers();
    ShlIsUp(x, sb, 8);
    UpIsTimes(x, sb);
    Pow2Add(sb, 8 - sb);
    ScaleMod(x, Pow2(sb), Pow2(8 - sb));
  }

  lemma SubMask(sb: nat)
    requires sb <= 4
    ensures Shr(0xF, 4 - sb) == Ones(sb)
  {
    hide Shr, Pow2;
    Powers();
    ShrIsDiv(0xF, 4 - sb);
  }

  lemma JoinBelow(p: nat, s: nat, hi: nat, lo: nat)
    requires p > 0 && s > 0
    ensures Join(p, s, hi, lo) < p * s
  {
    MulMono(s, hi % p + 1, p);
    DistributeLeft(s, hi % p, 1);
  }

  lemma JoinByte(preempt: nat, sub: nat, sb: nat)
    requires sb <= 4
    ensures Join(Pow2(8 - sb), Pow2(sb), preempt, sub) < 256
  {
    hide Pow2, Join;
    Powers();
    Pow2Add(8 - sb, sb);
    JoinBelow(Pow2(8 - sb), Pow2(sb), preempt, sub);
  }

  lemma ShiftNibble(x: Byte)
    ensures Shl(x, 4) == x * 16
  {
    hide Shl, Pow2;
    Powers();
    ShlIsUp(x, 4, 8);
    UpIsTimes(x, 4);
  }

  /** The four preemption bits above the field vanish in the final byte. */
  lemma DroppedBits(preempt: nat, sub: nat, sb: nat)
    requires sb <= 4
    ensures Join(Pow2(8 - sb), Pow2(sb), preempt, sub) * 16 % 256 == Join(Pow2(4 - sb), Pow2(sb), preempt, sub) * 16 % 256
  {
    hide Pow2, Join;
    Powers();
    Pow2Add(4 - sb, 4);
    Pow2Add(4 - sb, sb);
    LowNibble(Pow2(4 - sb), Pow2(sb), preempt, sub);
    ScaleMod(Join(Pow2(8 - sb), Pow2(sb), preempt, sub), 16, 16);
    ScaleMod(Join(Pow2(4 - sb), Pow2(sb), preempt, sub), 16, 16);
  }

  lemma LowNibble(p: nat, s: nat, hi: nat, lo: nat)
    requires p > 0 && s > 0 && p * s == 16
    ensures p * 16 > 0 && Join(p * 16, s, hi, lo) % 16 == Join(p, s, hi, lo) % 16
  {
    ModMod(hi, p, 16);
    NibbleParts(hi % (p * 16), hi % p, lo % s, p, s);
  }

  lemma NibbleParts(a: nat, r: nat, u: nat, p: nat, s: nat)
    requires p > 0 && p * s == 16 && a % p == r && u < s
    ensures (a * s + u) % 16 == (r * s + u) % 16
  {
    var k := a / p;
    assert a == p * k + r;
    WholeNibbles(a, k, r, p, s);
    NibbleOf(k, r * s + u);
  }

  lemma WholeNibbles(a: nat, k: nat, r: nat, p: nat, s: nat)
    requires a == p * k + r && p * s == 16
    ensures a * s == 16 * k + r * s
  {
    Distribute(p, k, r, s);
    MulAssoc(p, s, k);
  }

  lemma NibbleOf(k: nat, x: nat)
    ensures (16 * k + x) % 16 == x % 16
  {
  }
}
