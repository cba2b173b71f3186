/** The ADC channel sequencers: SQR1 to SQR3 and SMPR1, SMPR2 as packed maps from rank to
    channel and from channel to sample time, and the injected sequencer JSQR, whose slot
    numbers depend on the length field in the same word. */
module Adc {
  import opened Words

  // ---------------------------------------------------------------- specification

  /** Ranks 1 to 16 (entry rank-1), the L field, sample times of channels 0 to 18, the four
      JSQR slots and the JL field. */
  datatype Sequencer = Sequencer(ranks: seq<nat>, l: nat, samples: seq<nat>, slots: seq<nat>, jl: nat)

  ghost predicate Shape(s: Sequencer) {
    |s.ranks| == 16 && |s.samples| == 19 && |s.slots| == 4 && s.jl < 4
  }

  datatype Call =
    | Init(length: nat)
    | Regular(channel: nat, rank: nat, time: nat)
    | Injected(channel: nat, rank: nat, time: nat)
    | InjectedLength(length: nat)

  predicate Legal(c: Call) {
    match c
    case Init(n) => 1 <= n <= 16
    case Regular(ch, rank, t) => ch <= 18 && 1 <= rank <= 16 && t <= 7
    case Injected(ch, rank, t) => ch <= 18 && 1 <= rank <= 4 && t <= 7
    case InjectedLength(n) => 1 <= n <= 4
  }

  /** What programming an injected rank does to the slots and to the length field. Ranks up to
      the length have a slot. The rank above them overwrites the length field itself with the
      low two bits of the channel. Higher ranks have no visible effect. */
  ghost function WithInjected(s: Sequencer, ch: nat, rank: nat): (t: Sequencer)
    requires Shape(s) && 1 <= rank <= 4
    ensures Shape(t)
  {
    if rank <= s.jl + 1 then s.(slots := s.slots[rank + 2 - s.jl := ch])
    else if rank == s.jl + 2 then s.(jl := ch % 4)
    else s
  }

  ghost function Step(s: Sequencer, c: Call): (t: Sequencer)
    requires Shape(s) && Legal(c)
    ensures Shape(t)
  {
    match c
    case Init(n) => s.(l := n - 1)
    case Regular(ch, rank, t) => s.(ranks := s.ranks[rank - 1 := ch], samples := s.samples[ch := t])
    case Injected(ch, rank, t) => WithInjected(s.(samples := s.samples[ch := t]), ch, rank)
    case InjectedLength(n) => s.(jl := n - 1)
  }

  ghost predicate AllLegal(calls: seq<Call>) {
    forall i :: 0 <= i < |calls| ==> Legal(calls[i])
  }

  ghost function Run(s: Sequencer, calls: seq<Call>): (t: Sequencer)
    requires Shape(s) && AllLegal(calls)
    ensures Shape(t)
  {
    if calls == [] then s else Step(Run(s, calls[..|calls| - 1]), calls[|calls| - 1])
  }

  /** The injected channels in conversion order: the top jl+1 slots. */
  ghost function InjectedList(s: Sequencer): seq<nat>
    requires Shape(s)
  {
    s.slots[3 - s.jl..]
  }

  // ---------------------------------------------------------------- the driver

  /** The init structure; switches are 0 or 1, the rest as the header encodes them. */
  datatype InitStruct = InitStruct(length: nat, scan: nat, resolution: Word, continuous: nat, align: Word,
                                   trigger: Word, edge: Word)

  predicate IsInit(i: InitStruct) {
    1 <= i.length <= 16 && i.scan < 2 && i.continuous < 2 && (i.align == 0 || i.align == 0x800) &&
    i.resolution <= 0x300_0000 && i.resolution % 0x100_0000 == 0 &&
    i.trigger <= 0xF00_0000 && i.trigger % 0x100_0000 == 0 &&
    i.edge <= 0x3000_0000 && i.edge % 0x1000_0000 == 0
  }

  /** SCAN and RES of CR1, and the fields of CR1 around them. */
  ghost function Mode1(cr1: Word): (nat, nat) {
    (Get(cr1, 8, 1), Get(cr1, 24, 2))
  }

  ghost predicate SameAroundMode1(x: Word, y: Word) {
    Get(x, 0, 8) == Get(y, 0, 8) && Get(x, 9, 15) == Get(y, 9, 15) && Get(x, 26, 6) == Get(y, 26, 6)
  }

  /** CONT, ALIGN, EXTSEL and EXTEN of CR2, and the fields of CR2 around them. */
  ghost function Mode2(cr2: Word): (nat, nat, nat, nat) {
    (Get(cr2, 1, 1), Get(cr2, 11, 1), Get(cr2, 24, 4), Get(cr2, 28, 2))
  }

  ghost predicate SameAroundMode2(x: Word, y: Word) {
    Get(x, 0, 1) == Get(y, 0, 1) && Get(x, 2, 9) == Get(y, 2, 9) && Get(x, 12, 12) == Get(y, 12, 12) &&
    Get(x, 30, 2) == Get(y, 30, 2)
  }

  /** SMPR2 holds the sample times of channels 0 to 9, SMPR1 those of 10 to 18; one is replaced. */
  ghost predicate SampleTimeIs(smpr1: Word, smpr2: Word, before1: Word, before2: Word, ch: nat, time: nat)
    requires ch <= 18
  {
    if ch <= 9 then Get(smpr2, 3 * ch, 3) == time && SameOutside(smpr2, before2, 3 * ch, 3) && smpr1 == before1
    else Get(smpr1, 3 * (ch - 10), 3) == time && SameOutside(smpr1, before1, 3 * (ch - 10), 3) && smpr2 == before2
  }

  class Registers {
    var CR1: Word
    var CR2: Word
    var SMPR1: Word
    var SMPR2: Word
    var SQR1: Word
    var SQR2: Word
    var SQR3: Word
    var JSQR: Word

    ghost function Current(): (s: Sequencer)
      reads this
      ensures Shape(s)
    {
      Decode(SQR1, SQR2, SQR3, SMPR1, SMPR2, JSQR)
    }

    /** Conversion mode into CR1 and CR2, and the length of the regular sequence. */
    method ADC_Init(init: InitStruct)
      requires IsInit(init)
      modifies this`CR1, this`CR2, this`SQR1
      ensures Get(CR1, 8, 1) == init.scan && Get(CR1, 24, 2) * 0x100_0000 == init.resolution
      ensures SameAroundMode1(CR1, old(CR1))
      ensures Get(CR2, 1, 1) == init.continuous && Get(CR2, 11, 1) * 0x800 == init.align
      ensures Get(CR2, 24, 4) * 0x100_0000 == init.trigger && Get(CR2, 28, 2) * 0x1000_0000 == init.edge
      ensures SameAroundMode2(CR2, old(CR2))
      ensures Get(SQR1, 20, 4) + 1 == init.length && SameOutside(SQR1, old(SQR1), 20, 4)
      ensures Current() == Step(old(Current()), Init(init.length))
    {
      hide And, Or, OrBits, Shl, Get, Decode, SameAroundMode1, SameAroundMode2;
      var tmpreg1 := CR1;
      tmpreg1 := And(tmpreg1, 0xFCFF_FEFF);
      tmpreg1 := Or(tmpreg1, Or(Shl(init.scan, 8), init.resolution));
      Cr1Write(CR1, init);
      CR1 := tmpreg1;
      tmpreg1 := CR2;
      tmpreg1 := And(tmpreg1, 0xC0FF_F7FD);
      tmpreg1 := Or(tmpreg1, Or(Or(Or(init.align, init.trigger), init.edge), Shl(init.continuous, 1)));
      Cr2Write(CR2, init);
      CR2 := tmpreg1;
      tmpreg1 := SQR1;
      tmpreg1 := And(tmpreg1, 0xFF0F_FFFF);
      var tmpreg2 := init.length - 1;
      tmpreg1 := Or(tmpreg1, Shl(tmpreg2, 20));
      LengthWrite(SQR1, SQR2, SQR3, SMPR1, SMPR2, JSQR, init.length);
      SQR1 := tmpreg1;
    }

    method ADC_RegularChannelConfig(channel: nat, rank: nat, time: nat)
      requires Legal(Regular(channel, rank, time))
      modifies this`SMPR1, this`SMPR2, this`SQR1, this`SQR2, this`SQR3
      ensures Current() == Step(old(Current()), Regular(channel, rank, time))
      ensures SampleTimeIs(SMPR1, SMPR2, old(SMPR1), old(SMPR2), channel, time)
      ensures if rank <= 6 then
                Get(SQR3, 5 * (rank - 1), 5) == channel && SameOutside(SQR3, old(SQR3), 5 * (rank - 1), 5) &&
                SQR2 == old(SQR2) && SQR1 == old(SQR1)
              else if rank <= 12 then
                Get(SQR2, 5 * (rank - 7), 5) == channel && SameOutside(SQR2, old(SQR2), 5 * (rank - 7), 5) &&
                SQR3 == old(SQR3) && SQR1 == old(SQR1)
              else
                Get(SQR1, 5 * (rank - 13), 5) == channel && SameOutside(SQR1, old(SQR1), 5 * (rank - 13), 5) &&
                SQR3 == old(SQR3) && SQR2 == old(SQR2)
    {
      hide And, Or, OrBits, Shl, Get, Decode, SampleTimeIs, Pow2;
      Powers();
      SampleTimeSection(channel, time);
      var tmpreg1: Word;
      var tmpreg2: Word;
      if rank < 7 {
        RankWrite3(SQR1, SQR2, SQR3, SMPR1, SMPR2, JSQR, channel, rank);
        ShiftedField(SQR3, 5 * (rank - 1), 5, 0x1F, channel);
        tmpreg1 := SQR3;
        tmpreg2 := Shl(0x1F, 5 * (rank - 1));
        tmpreg1 := And(tmpreg1, Not(tmpreg2));
        tmpreg2 := Shl(channel, 5 * (rank - 1));
        tmpreg1 := Or(tmpreg1, tmpreg2);
        SQR3 := tmpreg1;
      } else if rank < 13 {
        RankWrite2(SQR1, SQR2, SQR3, SMPR1, SMPR2, JSQR, channel, rank);
        ShiftedField(SQR2, 5 * (rank - 7), 5, 0x1F, channel);
        tmpreg1 := SQR2;
        tmpreg2 := Shl(0x1F, 5 * (rank - 7));
        tmpreg1 := And(tmpreg1, Not(tmpreg2));
        tmpreg2 := Shl(channel, 5 * (rank - 7));
        tmpreg1 := Or(tmpreg1, tmpreg2);
        SQR2 := tmpreg1;
      } else {
        RankWrite1(SQR1, SQR2, SQR3, SMPR1, SMPR2, JSQR, channel, rank);
        ShiftedField(SQR1, 5 * (rank - 13), 5, 0x1F, channel);
        tmpreg1 := SQR1;
        tmpreg2 := Shl(0x1F, 5 * (rank - 13));
        tmpreg1 := And(tmpreg1, Not(tmpreg2));
        tmpreg2 := Shl(channel, 5 * (rank - 13));
        tmpreg1 := Or(tmpreg1, tmpreg2);
        SQR1 := tmpreg1;
      }
    }

    /** The part the two channel functions share. */
    method SampleTimeSection(channel: nat, time: nat)
      requires channel <= 18 && time <= 7
      modifies this`SMPR1, this`SMPR2
      ensures Current() == old(Current()).(samples := old(Current()).samples[channel := time])
      ensures SampleTimeIs(SMPR1, SMPR2, old(SMPR1), old(SMPR2), channel, time)
    {
      hide And, Or, OrBits, Shl, Get, Decode, Pow2;
      Powers();
      if channel > 9 {
        ShiftedField(SMPR1, 3 * (channel - 10), 3, 7, time);
      } else {
        ShiftedField(SMPR2, 3 * channel, 3, 7, time);
      }
      SampleWrite(SQR1, SQR2, SQR3, SMPR1, SMPR2, JSQR, channel, time);
      var tmpreg1: Word;
      var tmpreg2: Word;
      if channel > 9 {
        tmpreg1 := SMPR1;
        tmpreg2 := Shl(7, 3 * (channel - 10));
        tmpreg1 := And(tmpreg1, Not(tmpreg2));
        tmpreg2 := Shl(time, 3 * (channel - 10));
        tmpreg1 := Or(tmpreg1, tmpreg2);
        SMPR1 := tmpreg1;
      } else {
        tmpreg1 := SMPR2;
        tmpreg2 := Shl(7, 3 * channel);
        tmpreg1 := And(tmpreg1, Not(tmpreg2));
        tmpreg2 := Shl(time, 3 * channel);
        tmpreg1 := Or(tmpreg1, tmpreg2);
        SMPR2 := tmpreg1;
      }
    }

    /** For every rank, also above the current length. */
    method ADC_InjectedChannelConfig(channel: nat, rank: nat, time: nat)
      requires Legal(Injected(channel, rank, time))
      modifies this`SMPR1, this`SMPR2, this`JSQR
      ensures JSQR == InjectedWord(old(JSQR), channel, rank)
      ensures Current() == Step(old(Current()), Injected(channel, rank, time))
      ensures SampleTimeIs(SMPR1, SMPR2, old(SMPR1), old(SMPR2), channel, time)
      ensures var first := 3 - Get(old(JSQR), 20, 2);
              first + rank <= 4 ==>
                0 <= first && Get(JSQR, 5 * (first + rank - 1), 5) == channel &&
                SameOutside(JSQR, old(JSQR), 5 * (first + rank - 1), 5)
    {
      hide And, Or, OrBits, Shl, Shr, Decode, Get, SampleTimeIs, Pow2;
      Powers();
      SampleTimeSection(channel, time);
      InjectedWrite(SQR1, SQR2, SQR3, SMPR1, SMPR2, JSQR, channel, rank);
      var tmpreg1 := JSQR;
      var tmpreg3 := Shr(And(tmpreg1, 0x0030_0000), 20);
      ReadJl(JSQR);
      if rank + 2 - tmpreg3 < 4 { ShiftedField(JSQR, 5 * (rank + 2 - tmpreg3), 5, 0x1F, channel); }
      var tmpreg2 := Shl(0x1F, 5 * ((rank + 3 - (tmpreg3 + 1)) % 256));
      tmpreg1 := And(tmpreg1, Not(tmpreg2));
      tmpreg2 := Shl(channel, 5 * ((rank + 3 - (tmpreg3 + 1)) % 256));
      tmpreg1 := Or(tmpreg1, tmpreg2);
      JSQR := tmpreg1;
    }

    method ADC_InjectedSequencerLengthConfig(length: nat)
      requires 1 <= length <= 4
      modifies this`JSQR
      ensures Current() == Step(old(Current()), InjectedLength(length))
      ensures Get(JSQR, 20, 2) + 1 == length && SameOutside(JSQR, old(JSQR), 20, 2)
    {
      hide And, Or, OrBits, Shl, Get, Decode;
      InjectedLengthWrite(SQR1, SQR2, SQR3, SMPR1, SMPR2, JSQR, length);
      var tmpreg1 := JSQR;
      tmpreg1 := And(tmpreg1, 0xFFCF_FFFF);
      var tmpreg2 := length - 1;
      tmpreg1 := Or(tmpreg1, Shl(tmpreg2, 20));
      JSQR := tmpreg1;
    }
  }

  // ---------------------------------------------------------------- packed form

  ghost function Decode(sqr1: Word, sqr2: Word, sqr3: Word, smpr1: Word, smpr2: Word, jsqr: Word): (s: Sequencer)
    ensures Shape(s)
  {
    Powers();
    Sequencer(Slots(sqr3, 5, 6) + Slots(sqr2, 5, 6) + Slots(sqr1, 5, 4), Get(sqr1, 20, 4),
              Slots(smpr2, 3, 10) + Slots(smpr1, 3, 9), Slots(jsqr, 5, 4), Get(jsqr, 20, 2))
  }

  /** The word ADC_InjectedChannelConfig writes to JSQR. */
  function InjectedWord(jsqr: Word, channel: nat, rank: nat): Word
    requires channel <= 18 && 1 <= rank <= 4
  {
    assert Get(jsqr, 20, 2) < 4 by { Powers(); }
    var slot := rank + 2 - Get(jsqr, 20, 2);
    Or(And(jsqr, Not(Shl(0x1F, 5 * slot))), Shl(channel, 5 * slot))
  }

  lemma ReadJl(jsqr: Word)
    ensures Shr(And(jsqr, 0x0030_0000), 20) == Get(jsqr, 20, 2) < 4
  {
    hide And, Shr, Get;
    Powers();
    LiteralGet(jsqr, 0x0030_0000, 20, 2);
  }

  lemma RankWrite3(sqr1: Word, sqr2: Word, sqr3: Word, smpr1: Word, smpr2: Word, jsqr: Word, ch: nat, rank: nat)
    requires ch <= 18 && 1 <= rank < 7
    ensures var s := Decode(sqr1, sqr2, sqr3, smpr1, smpr2, jsqr);
            var x := Or(And(sqr3, Not(Shl(0x1F, 5 * (rank - 1)))), Shl(ch, 5 * (rank - 1)));
            Decode(sqr1, sqr2, x, smpr1, smpr2, jsqr) == s.(ranks := s.ranks[rank - 1 := ch])
  {
    hide And, Or, Shl, Slots, Get;
    Powers();
    WriteSlot(sqr3, 5, 6, rank - 1, ch);
  }

  lemma RankWrite2(sqr1: Word, sqr2: Word, sqr3: Word, smpr1: Word, smpr2: Word, jsqr: Word, ch: nat, rank: nat)
    requires ch <= 18 && 7 <= rank < 13
    ensures var s := Decode(sqr1, sqr2, sqr3, smpr1, smpr2, jsqr);
            var x := Or(And(sqr2, Not(Shl(0x1F, 5 * (rank - 7)))), Shl(ch, 5 * (rank - 7)));
            Decode(sqr1, x, sqr3, smpr1, smpr2, jsqr) == s.(ranks := s.ranks[rank - 1 := ch])
  {
    hide And, Or, Shl, Slots, Get;
    Powers();
    WriteSlot(sqr2, 5, 6, rank - 7, ch);
  }

  lemma RankWrite1(sqr1: Word, sqr2: Word, sqr3: Word, smpr1: Word, smpr2: Word, jsqr: Word, ch: nat, rank: nat)
    requires ch <= 18 && 13 <= rank <= 16
    ensures var s := Decode(sqr1, sqr2, sqr3, smpr1, smpr2, jsqr);
            var x := Or(And(sqr1, Not(Shl(0x1F, 5 * (rank - 13)))), Shl(ch, 5 * (rank - 13)));
            Decode(x, sqr2, sqr3, smpr1, smpr2, jsqr) == s.(ranks := s.ranks[rank - 1 := ch])
  {
    hide And, Or, Shl, Slots, Get;
    Powers();
    WriteSlot(sqr1, 5, 4, rank - 13, ch);
  }

  lemma SampleWrite(sqr1: Word, sqr2: Word, sqr3: Word, smpr1: Word, smpr2: Word, jsqr: Word, ch: nat, t: nat)
    requires ch <= 18 && t <= 7
    ensures var s := Decode(sqr1, sqr2, sqr3, smpr1, smpr2, jsqr);
            if ch > 9 then
              var x := Or(And(smpr1, Not(Shl(7, 3 * (ch - 10)))), Shl(t, 3 * (ch - 10)));
              Decode(sqr1, sqr2, sqr3, x, smpr2, jsqr) == s.(samples := s.samples[ch := t])
            else
              var x := Or(And(smpr2, Not(Shl(7, 3 * ch))), Shl(t, 3 * ch));
              Decode(sqr1, sqr2, sqr3, smpr1, x, jsqr) == s.(samples := s.samples[ch := t])
  {
    hide And, Or, Shl, Slots, Get;
    Powers();
    if ch > 9 {
      WriteSlot(smpr1, 3, 9, ch - 10, t);
    } else {
      WriteSlot(smpr2, 3, 10, ch, t);
    }
  }

  lemma LengthWrite(sqr1: Word, sqr2: Word, sqr3: Word, smpr1: Word, smpr2: Word, jsqr: Word, n: nat)
    requires 1 <= n <= 16
    ensures var s := Decode(sqr1, sqr2, sqr3, smpr1, smpr2, jsqr);
            var x := Or(And(sqr1, 0xFF0F_FFFF), Shl(n - 1, 20));
            Decode(x, sqr2, sqr3, smpr1, smpr2, jsqr) == s.(l := n - 1) &&
            Get(x, 20, 4) == n - 1 && SameOutside(x, sqr1, 20, 4)
  {
    hide And, Or, Shl, Slots, Get;
    Powers();
    ShlValue(n - 1, 20);
    UpdateField(sqr1, 0x00F0_0000, (n - 1) * 0x10_0000, 20, 4, n - 1);
    WriteAbove(sqr1, Or(And(sqr1, Not(0x00F0_0000)), (n - 1) * 0x10_0000), 5, 4, 20);
  }

  lemma InjectedLengthWrite(sqr1: Word, sqr2: Word, sqr3: Word, smpr1: Word, smpr2: Word, jsqr: Word, n: nat)
    requires 1 <= n <= 4
    ensures var s := Decode(sqr1, sqr2, sqr3, smpr1, smpr2, jsqr);
            var x := Or(And(jsqr, 0xFFCF_FFFF), Shl(n - 1, 20));
            Decode(sqr1, sqr2, sqr3, smpr1, smpr2, x) == s.(jl := n - 1) &&
            Get(x, 20, 2) == n - 1 && SameOutside(x, jsqr, 20, 2)
  {
    hide And, Or, Shl, Slots, Get;
    Powers();
    ShlValue(n - 1, 20);
    UpdateField(jsqr, 0x0030_0000, (n - 1) * 0x10_0000, 20, 2, n - 1);
    WriteAbove(jsqr, Or(And(jsqr, Not(0x0030_0000)), (n - 1) * 0x10_0000), 5, 4, 20);
  }

  lemma InjectedWrite(sqr1: Word, sqr2: Word, sqr3: Word, smpr1: Word, smpr2: Word, jsqr: Word, ch: nat, rank: nat)
    requires ch <= 18 && 1 <= rank <= 4
    ensures Decode(sqr1, sqr2, sqr3, smpr1, smpr2, InjectedWord(jsqr, ch, rank)) ==
            WithInjected(Decode(sqr1, sqr2, sqr3, smpr1, smpr2, jsqr), ch, rank)
  {
    hide InjectedWord, Slots, Get;
    InjectedWordEffect(jsqr, ch, rank);
  }

  lemma Cr1Write(r: Word, i: InitStruct)
    requires IsInit(i)
    ensures var x := Or(And(r, 0xFCFF_FEFF), Or(Shl(i.scan, 8), i.resolution));
            Mode1(x) == (i.scan, i.resolution / 0x100_0000) && SameAroundMode1(x, r)
  {
    hide And, Or, OrBits, Shl, Get;
    Powers();
    ShlIsUp(i.scan, 8, 1);
    UpIsTimes(i.scan, 8);
    UpdateTwoFields(r, 0x100, i.scan * 0x100, 8, 1, i.scan, 0x300_0000, i.resolution, 24, 2, i.resolution / 0x100_0000);
  }

  /** The value ADC_Init puts into CR2: the four arguments share no digit. */
  lemma Cr2Value(i: InitStruct)
    requires IsInit(i)
    ensures Or(Or(Or(i.align, i.trigger), i.edge), Shl(i.continuous, 1)) ==
            2 * i.continuous + i.align + i.trigger + i.edge
  {
    hide OrBits, Shl, Up;
    Powers();
    ShlIsUp(i.continuous, 1, 1);
    UpIsTimes(i.continuous, 1);
    OrAbove(i.align, i.trigger, i.trigger / 0x100_0000, 24);
    OrAbove(i.align + i.trigger, i.edge, i.edge / 0x1000_0000, 28);
    var high := i.align + i.trigger + i.edge;
    OrAbove(2 * i.continuous, high, high / 0x800, 11);
  }

  lemma Cr2Digits(c: nat, a: nat, t: nat, e: nat, x: nat)
    requires c < 2 && a < 2 && t < 16 && e < 4 && x == 2 * c + 0x800 * a + 0x100_0000 * t + 0x1000_0000 * e
    ensures Get(x, 0, 1) == 0 && Get(x, 1, 1) == c && Get(x, 2, 9) == 0 && Get(x, 11, 1) == a
    ensures Get(x, 12, 12) == 0 && Get(x, 24, 4) == t && Get(x, 28, 2) == e && Get(x, 30, 2) == 0
  {
    hide Get, Pow2;
    Powers();
    GetDigit(x, 0, 1, 1, 2, c + 0x400 * a + 0x80_0000 * t + 0x800_0000 * e, 0, 0);
    GetDigit(x, 1, 1, 2, 2, 0x200 * a + 0x40_0000 * t + 0x400_0000 * e, c, 0);
    GetDigit(x, 2, 9, 4, 0x200, a + 0x2000 * t + 0x2_0000 * e, 0, 2 * c);
    GetDigit(x, 11, 1, 0x800, 2, 0x1000 * t + 0x1_0000 * e, a, 2 * c);
    GetDigit(x, 12, 12, 0x1000, 0x1000, t + 0x10 * e, 0, 2 * c + 0x800 * a);
    GetDigit(x, 24, 4, 0x100_0000, 0x10, e, t, 2 * c + 0x800 * a);
    GetDigit(x, 28, 2, 0x1000_0000, 4, 0, e, 2 * c + 0x800 * a + 0x100_0000 * t);
    GetDigit(x, 30, 2, 0x4000_0000, 4, 0, 0, x);
  }

  lemma Cr2Write(r: Word, i: InitStruct)
    requires IsInit(i)
    ensures var x := Or(And(r, 0xC0FF_F7FD), Or(Or(Or(i.align, i.trigger), i.edge), Shl(i.continuous, 1)));
            Mode2(x) == (i.continuous, i.align / 0x800, i.trigger / 0x100_0000, i.edge / 0x1000_0000) &&
            SameAroundMode2(x, r)
  {
    hide And, Or, OrBits, Shl, Get, Pow2;
    var x := 2 * i.continuous + i.align + i.trigger + i.edge;
    Cr2Value(i);
    Cr2Digits(i.continuous, i.align / 0x800, i.trigger / 0x100_0000, i.edge / 0x1000_0000, x);
    Cr2Fields(r, x);
  }

  lemma Cr2Fields(r: Word, x: Word)
    requires Get(x, 0, 1) == Get(x, 2, 9) == Get(x, 12, 12) == Get(x, 30, 2) == 0
    ensures var y := Or(And(r, 0xC0FF_F7FD), x);
            Mode2(y) == Mode2(x) && SameAroundMode2(y, r)
  {
    hide And, Or, Get;
    Powers();
    Cr2Digits(1, 1, 15, 3, 0x3F00_0802);
    MaskedField(r, 0x3F00_0802, x, 0, 1);
    MaskedField(r, 0x3F00_0802, x, 1, 1);
    MaskedField(r, 0x3F00_0802, x, 2, 9);
    MaskedField(r, 0x3F00_0802, x, 11, 1);
    MaskedField(r, 0x3F00_0802, x, 12, 12);
    MaskedField(r, 0x3F00_0802, x, 24, 4);
    MaskedField(r, 0x3F00_0802, x, 28, 2);
    MaskedField(r, 0x3F00_0802, x, 30, 2);
  }

  // ---------------------------------------------------------------- when the length field survives

  /** What an injected write does to JSQR for every rank, with n the programmed length.
      Ranks up to n change one slot. Rank n+1 lands on the JL field itself and replaces the
      length by the low two bits of the channel. Ranks above n+1 land in reserved bits. */
  lemma InjectedWordEffect(jsqr: Word, ch: nat, rank: nat)
    requires ch <= 18 && 1 <= rank <= 4
    ensures var x, n := InjectedWord(jsqr, ch, rank), Get(jsqr, 20, 2) + 1;
            if rank <= n then
              Get(x, 20, 2) == n - 1 && rank + 3 - n < 4 && Slots(x, 5, 4) == Slots(jsqr, 5, 4)[rank + 3 - n := ch]
            else
              Slots(x, 5, 4) == Slots(jsqr, 5, 4) && Get(x, 20, 2) == if rank == n + 1 then ch % 4 else n - 1
  {
    hide And, Or, Shl, Slots, Get, Put;
    Powers();
    var jl := Get(jsqr, 20, 2);
    var slot := rank + 2 - jl;
    if slot < 4 {
      WriteSlot(jsqr, 5, 4, slot, ch);
    } else if slot < 6 {
      ShiftedUpdate(jsqr, 5 * slot, 5, ch);
      GetPut(jsqr, 5 * slot, 5, ch);
      var x := Put(jsqr, 5 * slot, 5, ch);
      WriteAbove(jsqr, x, 5, 4, 20);
      if slot == 4 { LowPart(x, 20, 5, 2); }
    } else {
      TopSlot(jsqr, ch);
      var x := Put(jsqr, 30, 2, ch % 4);
      GetPut(jsqr, 30, 2, ch % 4);
      WriteAbove(jsqr, x, 5, 4, 20);
    }
  }

  /** Slot 6 would start at bit 30: only its two low bits are inside the word. */
  lemma TopSlot(r: Word, ch: nat)
    requires ch <= 18
    ensures Pow2(2) == 4 && Or(And(r, Not(Shl(0x1F, 30))), Shl(ch, 30)) == Put(r, 30, 2, ch % 4)
  {
    hide And, Or, Shl, Put, Pow2;
    Powers();
    ShlValue(0x1F, 30);
    ShlValue(ch, 30);
    TopBits(ch);
    LiteralUpdate(r, 0xC000_0000, ch % 4 * 0x4000_0000, 30, 2, ch % 4);
  }

  lemma TopBits(ch: nat)
    ensures ch * 0x4000_0000 % WORD == ch % 4 * 0x4000_0000
  {
    ScaleMod(ch, 0x4000_0000, 4);
  }

  /** So the length survives exactly unless the rank is one above it and the channel does
      not happen to carry the length in its low bits. */
  lemma LengthSurvivesExactly(jsqr: Word, ch: nat, rank: nat)
    requires ch <= 18 && 1 <= rank <= 4
    ensures var jl := Get(jsqr, 20, 2);
            Get(InjectedWord(jsqr, ch, rank), 20, 2) == jl <==> rank != jl + 2 || ch % 4 == jl
  {
    hide InjectedWord, Get, Slots;
    InjectedWordEffect(jsqr, ch, rank);
  }

  /** Programming rank 2 of a sequencer of length 1 with channel 3 makes the length 4. */
  lemma LengthLost()
    ensures Get(InjectedWord(0, 3, 2), 20, 2) == 3
  {
    hide InjectedWord, Get, Slots;
    Powers();
    GetIsDivMod(0, 20, 2);
    InjectedWordEffect(0, 3, 2);
  }

  // ---------------------------------------------------------------- histories

  /** The value a history leaves in a map entry: the last call that writes it. */
  function LastRank(before: nat, calls: seq<Call>, rank: nat): nat {
    if calls == [] then before
    else
      var c := calls[|calls| - 1];
      if c.Regular? && c.rank == rank then c.channel else LastRank(before, calls[..|calls| - 1], rank)
  }

  function LastSample(before: nat, calls: seq<Call>, channel: nat): nat {
    if calls == [] then before
    else
      var c := calls[|calls| - 1];
      if (c.Regular? || c.Injected?) && c.channel == channel then c.time
      else LastSample(before, calls[..|calls| - 1], channel)
  }

  function LastLength(before: nat, calls: seq<Call>): int {
    if calls == [] then before
    else
      var c := calls[|calls| - 1];
      if c.Init? then c.length - 1 else LastLength(before, calls[..|calls| - 1])
  }

  function LastInjected(before: nat, calls: seq<Call>, rank: nat): nat {
    if calls == [] then before
    else
      var c := calls[|calls| - 1];
      if c.Injected? && c.rank == rank then c.channel else LastInjected(before, calls[..|calls| - 1], rank)
  }

  lemma StepSamples(s: Sequencer, c: Call)
    requires Shape(s) && Legal(c)
    ensures Step(s, c).samples == if c.Regular? || c.Injected? then s.samples[c.channel := c.time] else s.samples
    ensures Step(s, c).ranks == if c.Regular? then s.ranks[c.rank - 1 := c.channel] else s.ranks
    ensures Step(s, c).l == if c.Init? then c.length - 1 else s.l
  {
  }

  /** After any history of calls, injected ranks above the length included, the registers hold
      the last-writer map: each rank its last channel, each channel its last sample time, and
      the last length. */
  lemma {:induction false} LastWriterWins(s: Sequencer, calls: seq<Call>)
    requires Shape(s) && AllLegal(calls)
    ensures forall k :: 0 <= k < 16 ==> Run(s, calls).ranks[k] == LastRank(s.ranks[k], calls, k + 1)
    ensures forall c :: 0 <= c <= 18 ==> Run(s, calls).samples[c] == LastSample(s.samples[c], calls, c)
    ensures Run(s, calls).l == LastLength(s.l, calls)
    decreases |calls|
  {
    hide Step;
    if calls != [] {
      var front := calls[..|calls| - 1];
      LastWriterWins(s, front);
      StepSamples(Run(s, front), calls[|calls| - 1]);
    }
  }

  /** The calls that program a list of channels: its length, then ranks 1 to n. */
  function Program(channels: seq<nat>, times: seq<nat>): seq<Call>
    requires |channels| == |times|
  {
    [Init(|channels|)] + seq(|channels|, i requires 0 <= i < |channels| => Regular(channels[i], i + 1, times[i]))
  }

  ghost predicate Programmable(channels: seq<nat>, times: seq<nat>) {
    1 <= |channels| <= 16 && |times| == |channels| &&
    (forall i :: 0 <= i < |channels| ==> channels[i] <= 18) && (forall i :: 0 <= i < |times| ==> times[i] <= 7)
  }

  lemma ProgramCalls(channels: seq<nat>, times: seq<nat>)
    requires Programmable(channels, times)
    ensures var calls := Program(channels, times);
            |calls| == |channels| + 1 && AllLegal(calls) && calls[0] == Init(|channels|) &&
            forall i :: 1 <= i < |calls| ==> calls[i] == Regular(channels[i - 1], i, times[i - 1])
  {
  }

  lemma {:induction false} LastRankInPrefix(before: nat, channels: seq<nat>, times: seq<nat>, k: nat, r: nat)
    requires |channels| == |times| && 1 <= r <= k <= |channels|
    ensures LastRank(before, Program(channels, times)[..k + 1], r) == channels[r - 1]
  {
    var calls := Program(channels, times)[..k + 1];
    assert calls[..k] == Program(channels, times)[..k];
    if r < k { LastRankInPrefix(before, channels, times, k - 1, r); }
  }

  lemma {:induction false} LastLengthInPrefix(before: nat, channels: seq<nat>, times: seq<nat>, k: nat)
    requires |channels| == |times| && k <= |channels|
    ensures LastLength(before, Program(channels, times)[..k + 1]) == |channels| - 1
  {
    var calls := Program(channels, times)[..k + 1];
    assert calls[..k] == Program(channels, times)[..k];
    if k > 0 { LastLengthInPrefix(before, channels, times, k - 1); }
  }

  /** Programming a list and reading the sequencer back gives exactly the list. */
  lemma ProgramRoundTrip(s: Sequencer, channels: seq<nat>, times: seq<nat>)
    requires Shape(s) && Programmable(channels, times)
    ensures AllLegal(Program(channels, times))
    ensures var t := Run(s, Program(channels, times));
            t.l == |channels| - 1 && t.ranks[..t.l + 1] == channels && t.slots == s.slots && t.jl == s.jl
  {
    hide Run, AllLegal, LastRank, LastLength, LastSample, Program;
    var calls := Program(channels, times);
    ProgramCalls(channels, times);
    LastWriterWins(s, calls);
    assert calls[..|channels| + 1] == calls;
    LastLengthInPrefix(s.l, channels, times, |channels|);
    forall k | 0 <= k < |channels|
      ensures Run(s, calls).ranks[k] == channels[k]
    {
      LastRankInPrefix(s.ranks[k], channels, times, |channels|, k + 1);
    }
    RegularKeepsSlots(s, calls);
  }

  lemma {:induction false} RegularKeepsSlots(s: Sequencer, calls: seq<Call>)
    requires Shape(s) && AllLegal(calls)
    requires forall i :: 0 <= i < |calls| ==> calls[i].Init? || calls[i].Regular?
    ensures Run(s, calls).slots == s.slots && Run(s, calls).jl == s.jl
    decreases |calls|
  {
    if calls != [] { RegularKeepsSlots(s, calls[..|calls| - 1]); }
  }

  // ---------------------------------------------------------------- the injected list

  /** The call takes the injected length away from n. */
  predicate Breaks(c: Call, n: nat) {
    (c.InjectedLength? && c.length != n) || (c.Injected? && c.rank == n + 1 && c.channel % 4 != n - 1)
  }

  lemma StepInjected(s: Sequencer, c: Call, n: nat)
    requires Shape(s) && Legal(c) && 1 <= n <= 4 && s.jl == n - 1
    ensures Step(s, c).jl == n - 1 <==> !Breaks(c, n)
    ensures Step(s, c).slots ==
            if c.Injected? && c.rank <= n then s.slots[c.rank + 3 - n := c.channel] else s.slots
  {
  }

  /** The injected length stays n through a history exactly when no call of the history sets
      another length or programs rank n + 1 with a channel that does not end in n - 1. */
  lemma LengthStaysExactly(s: Sequencer, calls: seq<Call>, n: nat)
    requires Shape(s) && AllLegal(calls) && 1 <= n <= 4 && s.jl == n - 1
    ensures (forall k :: 0 <= k <= |calls| ==> Run(s, calls[..k]).jl == n - 1) <==>
            (forall i :: 0 <= i < |calls| ==> !Breaks(calls[i], n))
  {
    hide Step, Run, Breaks;
    forall i: nat | i < |calls| && Run(s, calls[..i]).jl == n - 1
      ensures Run(s, calls[..i + 1]).jl == n - 1 <==> !Breaks(calls[i], n)
    {
      RunNext(s, calls, i);
      StepInjected(Run(s, calls[..i]), calls[i], n);
    }
    if forall i :: 0 <= i < |calls| ==> !Breaks(calls[i], n) {
      forall k | 0 <= k <= |calls| ensures Run(s, calls[..k]).jl == n - 1 {
        LengthThrough(s, calls, k, n);
      }
    }
    if forall k :: 0 <= k <= |calls| ==> Run(s, calls[..k]).jl == n - 1 {
      forall i | 0 <= i < |calls| ensures !Breaks(calls[i], n) {
        assert Run(s, calls[..i]).jl == n - 1 && Run(s, calls[..i + 1]).jl == n - 1;
      }
    }
  }

  lemma RunNext(s: Sequencer, calls: seq<Call>, i: nat)
    requires Shape(s) && AllLegal(calls) && i < |calls|
    ensures Run(s, calls[..i + 1]) == Step(Run(s, calls[..i]), calls[i]) && Run(s, calls[..0]) == s
  {
    hide Step;
    assert calls[..i + 1][..i] == calls[..i];
  }

  lemma {:induction false} LengthThrough(s: Sequencer, calls: seq<Call>, k: nat, n: nat)
    requires Shape(s) && AllLegal(calls) && 1 <= n <= 4 && s.jl == n - 1 && k <= |calls|
    requires forall i :: 0 <= i < |calls| ==> !Breaks(calls[i], n)
    ensures Run(s, calls[..k]).jl == n - 1
  {
    hide Step, Breaks;
    if k > 0 {
      LengthThrough(s, calls, k - 1, n);
      RunNext(s, calls, k - 1);
      StepInjected(Run(s, calls[..k - 1]), calls[k - 1], n);
    }
  }

  /** With the injected length at n, after any history that leaves it alone, whatever other
      calls are in between: every rank up to n holds its last channel. */
  lemma {:induction false} LastInjectedWins(s: Sequencer, n: nat, calls: seq<Call>, r: nat)
    requires Shape(s) && AllLegal(calls) && 1 <= n <= 4 && s.jl == n - 1
    requires forall i :: 0 <= i < |calls| ==> !Breaks(calls[i], n)
    requires 1 <= r <= n
    ensures Run(s, calls).jl == n - 1
    ensures Run(s, calls).slots[r + 3 - n] == LastInjected(s.slots[r + 3 - n], calls, r)
    decreases |calls|
  {
    hide Step, Breaks;
    if calls != [] {
      var front := calls[..|calls| - 1];
      LastInjectedWins(s, n, front, r);
      StepInjected(Run(s, front), calls[|calls| - 1], n);
    }
  }

  /** Every call on a rank up to n asks for the channel the list has there. */
  ghost predicate Follows(calls: seq<Call>, channels: seq<nat>) {
    forall i :: 0 <= i < |calls| && calls[i].Injected? && 1 <= calls[i].rank <= |channels| ==>
      calls[i].channel == channels[calls[i].rank - 1]
  }

  ghost predicate Mentions(calls: seq<Call>, rank: nat) {
    exists i :: 0 <= i < |calls| && calls[i].Injected? && calls[i].rank == rank
  }

  lemma {:induction false} LastMentioned(before: nat, calls: seq<Call>, channels: seq<nat>, rank: nat)
    requires Follows(calls, channels) && 1 <= rank <= |channels| && Mentions(calls, rank)
    ensures LastInjected(before, calls, rank) == channels[rank - 1]
    decreases |calls|
  {
    var front, c := calls[..|calls| - 1], calls[|calls| - 1];
    if !(c.Injected? && c.rank == rank) {
      var i :| 0 <= i < |calls| && calls[i].Injected? && calls[i].rank == rank;
      assert front[i] == calls[i];
      LastMentioned(before, front, channels, rank);
    }
  }

  /** After setting the injected length to n, programming ranks 1 to n in any order, repeated
      or mixed with calls on the regular sequence, leaves the intended list and the length. */
  lemma InjectedAnyOrder(s: Sequencer, n: nat, calls: seq<Call>, channels: seq<nat>)
    requires Shape(s) && 1 <= n <= 4 && |channels| == n && AllLegal(calls) && Follows(calls, channels)
    requires forall i :: 0 <= i < |calls| ==> !Breaks(calls[i], n)
    requires forall r :: 1 <= r <= n ==> Mentions(calls, r)
    ensures var t := Run(Step(s, InjectedLength(n)), calls);
            t.jl == n - 1 && InjectedList(t) == channels
  {
    hide Run, Breaks, AllLegal, Follows, Mentions, LastInjected;
    var t := Step(s, InjectedLength(n));
    LastInjectedWins(t, n, calls, 1);
    var u := Run(t, calls);
    forall i | 0 <= i < n ensures InjectedList(u)[i] == channels[i] {
      LastMentioned(t.slots[(i + 1) + 3 - n], calls, channels, i + 1);
      LastInjectedWins(t, n, calls, i + 1);
    }
  }
}
