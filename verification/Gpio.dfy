/** GPIO pin configuration and the pin multiplexers (GPIO alternate functions and the EXTI
    line selection of SYSCFG): packed registers as implementations of a map from pin to
    setting. */
module Gpio {
  import opened Words

  /** The init structure. `pins` is the pin mask. */
  datatype Init = Init(pins: Word, mode: nat, speed: nat, otype: nat, pull: nat)

  const MODE_OUT: nat := 1
  const MODE_AF: nat := 2

  predicate Drives(mode: nat) { mode == MODE_OUT || mode == MODE_AF }

  predicate Legal(i: Init) {
    i.mode < 4 && i.pull < 3 && (Drives(i.mode) ==> i.speed < 4 && i.otype < 2)
  }

  /** The four settings of each of the 16 pins, and the unused half of OTYPER. */
  datatype Port = Port(mode: seq<nat>, speed: seq<nat>, otype: seq<nat>, pull: seq<nat>, unused: nat)

  ghost predicate Shape(p: Port) {
    |p.mode| == 16 && |p.speed| == 16 && |p.otype| == 16 && |p.pull| == 16
  }

  /** Selected pins get mode and pull, and in the driving modes speed and output type;
      everything else stays. Only pins below `upto` are considered. */
  ghost function Configured(p: Port, i: Init, upto: nat): (q: Port)
    requires Shape(p)
    ensures Shape(q)
  {
    Port(seq(16, k requires 0 <= k < 16 => if k < upto && Bit(i.pins, k) then i.mode else p.mode[k]),
         seq(16, k requires 0 <= k < 16 => if k < upto && Bit(i.pins, k) && Drives(i.mode) then i.speed else p.speed[k]),
         seq(16, k requires 0 <= k < 16 => if k < upto && Bit(i.pins, k) && Drives(i.mode) then i.otype else p.otype[k]),
         seq(16, k requires 0 <= k < 16 => if k < upto && Bit(i.pins, k) then i.pull else p.pull[k]),
         p.unused)
  }

  datatype Registers = Registers(moder: Word, ospeedr: Word, otyper: Word, pupdr: Word)

  ghost function Decode(r: Registers): (p: Port)
    ensures Shape(p)
  {
    Port(Slots(r.moder, 2, 16), Slots(r.ospeedr, 2, 16), Slots(r.otyper, 1, 16), Slots(r.pupdr, 2, 16), Get(r.otyper, 16, 16))
  }

  /** The fields of pin k in the four registers. */
  datatype PinFields = PinFields(mode: nat, speed: nat, otype: nat, pull: nat)

  ghost function Pin(r: Registers, k: nat): PinFields {
    PinFields(Get(r.moder, 2 * k, 2), Get(r.ospeedr, 2 * k, 2), Get(r.otyper, k, 1), Get(r.pupdr, 2 * k, 2))
  }

  class PortRegisters {
    var MODER: Word
    var OTYPER: Word
    var OSPEEDR: Word
    var PUPDR: Word
    const AFR: array<Word>

    constructor (r: Registers)
      ensures Current() == r && fresh(AFR) && AFR.Length == 2
    {
      MODER, OSPEEDR, OTYPER, PUPDR := r.moder, r.ospeedr, r.otyper, r.pupdr;
      AFR := new Word[2];
    }

    ghost function Current(): Registers
      reads this
    {
      Registers(MODER, OSPEEDR, OTYPER, PUPDR)
    }

    /** The 16-step loop is one simultaneous map update. */
    method GPIO_Init(init: Init)
      requires Legal(init)
      modifies this`MODER, this`OTYPER, this`OSPEEDR, this`PUPDR
      ensures Decode(Current()) == Configured(Decode(old(Current())), init, 16)
      ensures forall k: nat :: k < 16 && !Bit(init.pins, k) ==> Pin(Current(), k) == Pin(old(Current()), k)
      ensures init.mode == 1 || init.mode == 2 ==>
        forall k: nat :: k < 16 && Bit(init.pins, k) ==>
          Pin(Current(), k) == PinFields(init.mode, init.speed, init.otype, init.pull)
      ensures init.mode == 0 || init.mode == 3 ==>
        forall k: nat :: k < 16 && Bit(init.pins, k) ==>
          Pin(Current(), k) == Pin(old(Current()), k).(mode := init.mode, pull := init.pull)
      ensures Get(OTYPER, 16, 16) == Get(old(OTYPER), 16, 16)
    {
      hide Bit, And, Or, Shl, Get, Decode, Configured, Pin;
      ghost var before := Decode(Current());
      ConfiguredNone(before, init);
      var pinpos := 0;
      while pinpos < 16
        invariant 0 <= pinpos <= 16
        invariant Decode(Current()) == Configured(before, init, pinpos)
      {
        var pos := Shl(1, pinpos);
        var currentpin := And(init.pins, pos);
        PinSelected(init.pins, pinpos);
        ConfiguredNext(before, init, pinpos);
        if currentpin == pos {
          ghost var r := Current();
          PinWrite(r, init, pinpos);
          MODER := And(MODER, Not(Shl(3, pinpos * 2)));
          MODER := Or(MODER, Shl(init.mode, pinpos * 2));
          if init.mode == MODE_OUT || init.mode == MODE_AF {
            OSPEEDR := And(OSPEEDR, Not(Shl(3, pinpos * 2)));
            OSPEEDR := Or(OSPEEDR, Shl(init.speed, pinpos * 2));
            OTYPER := And(OTYPER, Not(Shl(1, pinpos)));
            OTYPER := Or(OTYPER, Shl(init.otype, pinpos) % 0x1_0000);
          }
          PUPDR := And(PUPDR, Not(Shl(3, pinpos * 2)));
          PUPDR := Or(PUPDR, Shl(init.pull, pinpos * 2));
        }
        pinpos := pinpos + 1;
      }
      PinsConfigured(old(Current()), Current(), init);
    }

    /** Alternate functions: eight 4-bit slots in each of two words, one per pin. */
    method GPIO_PinAFConfig(pin: nat, af: nat)
      requires AFR.Length == 2 && pin < 16 && af < 16
      modifies AFR
      ensures Lines(AFR[..], 8) == old(Lines(AFR[..], 8))[pin := af]
      ensures Get(AFR[pin / 8], 4 * (pin % 8), 4) == af && AFR[1 - pin / 8] == old(AFR[1 - pin / 8])
      ensures SameOutside(AFR[pin / 8], old(AFR[pin / 8]), 4 * (pin % 8), 4)
    {
      hide And, Or, Shl, Shr, Put, Lines, Get, Pow2;
      Powers();
      ShiftedField(AFR[pin / 8], 4 * (pin % 8), 4, 0xF, af);
      MultiplexerIndex(pin, 3);
      MultiplexerWrite(AFR[..], 8, pin, af);
      ghost var ws := AFR[..];
      var temp := Shl(af, And(pin, 7) * 4);
      AFR[Shr(pin, 3)] := And(AFR[Shr(pin, 3)], Not(Shl(0xF, And(pin, 7) * 4)));
      var temp_2 := Or(AFR[Shr(pin, 3)], temp);
      AFR[Shr(pin, 3)] := temp_2;
      assert AFR[..] == ws[pin / 8 := Or(And(ws[pin / 8], Not(Shl(0xF, 4 * (pin % 8)))), Shl(af, 4 * (pin % 8)))];
    }
  }

  predicate IsMultiplexer(ws: seq<Word>, n: nat) {
    (n == 4 && |ws| == 4) || (n == 8 && |ws| == 2)
  }

  /** A multiplexer's words as one 4-bit setting per pin. */
  ghost function Lines(ws: seq<Word>, n: nat): (s: seq<nat>)
    requires IsMultiplexer(ws, n)
    ensures |s| == 16
  {
    PackedLength(ws, 4, n);
    Packed(ws, 4, n)
  }

  /** EXTI line selection: four 4-bit slots in each of four words, one per line. */
  method SYSCFG_EXTILineConfig(EXTICR: array<Word>, port: nat, line: nat)
    requires EXTICR.Length == 4 && port <= 10 && line < 16
    modifies EXTICR
    ensures Lines(EXTICR[..], 4) == old(Lines(EXTICR[..], 4))[line := port]
    ensures Get(EXTICR[line / 4], 4 * (line % 4), 4) == port
    ensures SameOutside(EXTICR[line / 4], old(EXTICR[line / 4]), 4 * (line % 4), 4)
    ensures forall k :: 0 <= k < 4 && k != line / 4 ==> EXTICR[k] == old(EXTICR[k])
  {
    hide And, Or, Shl, Shr, Put, Lines, Get, Pow2;
    Powers();
    ShiftedField(EXTICR[line / 4], 4 * (line % 4), 4, 0xF, port);
    MultiplexerIndex(line, 2);
    MultiplexerWrite(EXTICR[..], 4, line, port);
    ghost var ws := EXTICR[..];
    var tmp := Shl(0xF, 4 * And(line, 3));
    EXTICR[Shr(line, 2)] := And(EXTICR[Shr(line, 2)], Not(tmp));
    EXTICR[Shr(line, 2)] := Or(EXTICR[Shr(line, 2)], Shl(port, 4 * And(line, 3)));
    assert EXTICR[..] == ws[line / 4 := Or(And(ws[line / 4], Not(Shl(0xF, 4 * (line % 4)))), Shl(port, 4 * (line % 4)))];
  }

  // ---------------------------------------------------------------- one pin

  lemma ConfiguredNone(p: Port, i: Init)
    requires Shape(p)
    ensures Configured(p, i, 0) == p
  {
    hide Bit;
  }

  lemma DecodedPin(r: Registers, k: nat)
    requires k < 16
    ensures var p := Decode(r);
            Pin(r, k) == PinFields(p.mode[k], p.speed[k], p.otype[k], p.pull[k])
  {
    hide Get;
  }

  /** The map update read off the registers, pin by pin: modes 1 (output) and 2 (alternate
      function) take speed and output type, modes 0 (input) and 3 (analog) leave them. */
  lemma PinsConfigured(r: Registers, s: Registers, i: Init)
    requires Legal(i) && Decode(s) == Configured(Decode(r), i, 16)
    ensures forall k: nat :: k < 16 && !Bit(i.pins, k) ==> Pin(s, k) == Pin(r, k)
    ensures i.mode == 1 || i.mode == 2 ==>
              forall k: nat :: k < 16 && Bit(i.pins, k) ==> Pin(s, k) == PinFields(i.mode, i.speed, i.otype, i.pull)
    ensures i.mode == 0 || i.mode == 3 ==>
              forall k: nat :: k < 16 && Bit(i.pins, k) ==> Pin(s, k) == Pin(r, k).(mode := i.mode, pull := i.pull)
    ensures Get(s.otyper, 16, 16) == Get(r.otyper, 16, 16)
  {
    hide Bit, Get, Pin, Slots;
    forall k: nat | k < 16
      ensures !Bit(i.pins, k) ==> Pin(s, k) == Pin(r, k)
      ensures Bit(i.pins, k) && (i.mode == 1 || i.mode == 2) ==>
                Pin(s, k) == PinFields(i.mode, i.speed, i.otype, i.pull)
      ensures Bit(i.pins, k) && (i.mode == 0 || i.mode == 3) ==>
                Pin(s, k) == Pin(r, k).(mode := i.mode, pull := i.pull)
    {
      DecodedPin(r, k);
      DecodedPin(s, k);
    }
  }

  /** One step of the loop on the map. */
  lemma ConfiguredNext(p: Port, i: Init, k: nat)
    requires Shape(p) && k < 16
    ensures var q, r := Configured(p, i, k), Configured(p, i, k + 1);
            if !Bit(i.pins, k) then r == q
            else r == q.(mode := q.mode[k := i.mode], pull := q.pull[k := i.pull],
                         speed := if Drives(i.mode) then q.speed[k := i.speed] else q.speed,
                         otype := if Drives(i.mode) then q.otype[k := i.otype] else q.otype)
  {
    hide Bit;
  }

  lemma PinSelected(pins: Word, k: nat)
    requires k < 16
    ensures And(pins, Shl(1, k)) == Shl(1, k) <==> Bit(pins, k)
  {
    hide And, Shl, Bit, Get;
    Powers();
    ShlIsUp(1, k, 1);
    UpIsTimes(1, k);
    MaskInPlace(pins, k, 1);
    UpIsTimes(Get(pins, k, 1), k);
    GetIsDivMod(pins, k, 1);
    BitIsDivMod(pins, k);
  }

  /** The read-modify-write statements for one selected pin. */
  lemma PinWrite(r: Registers, i: Init, k: nat)
    requires Legal(i) && k < 16
    ensures var moder := Or(And(r.moder, Not(Shl(3, k * 2))), Shl(i.mode, k * 2));
            var pupdr := Or(And(r.pupdr, Not(Shl(3, k * 2))), Shl(i.pull, k * 2));
            var p := Decode(r);
            Decode(r.(moder := moder, pupdr := pupdr)) == p.(mode := p.mode[k := i.mode], pull := p.pull[k := i.pull]) &&
            (Drives(i.mode) ==>
              var ospeedr := Or(And(r.ospeedr, Not(Shl(3, k * 2))), Shl(i.speed, k * 2));
              var otyper := Or(And(r.otyper, Not(Shl(1, k))), Shl(i.otype, k) % 0x1_0000);
              Decode(Registers(moder, ospeedr, otyper, pupdr)) ==
                p.(mode := p.mode[k := i.mode], pull := p.pull[k := i.pull],
                   speed := p.speed[k := i.speed], otype := p.otype[k := i.otype]))
  {
    hide And, Or, Shl, Put, Slots, Get;
    Powers();
    WriteSlot(r.moder, 2, 16, k, i.mode);
    WriteSlot(r.pupdr, 2, 16, k, i.pull);
    if Drives(i.mode) {
      WriteSlot(r.ospeedr, 2, 16, k, i.speed);
      WriteSlot(r.otyper, 1, 16, k, i.otype);
      OutputTypeFits(i.otype, k);
      GetPut(r.otyper, k, 1, i.otype);
    }
  }

  lemma OutputTypeFits(v: nat, k: nat)
    requires v < 2 && k < 16
    ensures Shl(v, k) % 0x1_0000 == Shl(v, k)
  {
    hide Shl, Up, Pow2;
    Powers();
    ShlIsUp(v, k, 1);
    UpBound(v, k, 1);
    Pow2Mono(k + 1, 16);
  }

  // ---------------------------------------------------------------- multiplexers

  lemma MultiplexerIndex(pin: nat, bits: nat)
    requires pin < 16 && (bits == 2 || bits == 3)
    ensures Shr(pin, bits) == pin / Pow2(bits) && And(pin, Ones(bits)) == pin % Pow2(bits)
    ensures Pow2(2) == 4 && Pow2(3) == 8
  {
    hide And, Shr;
    Powers();
    ShrIsDiv(pin, bits);
    AndOnes(pin, bits);
  }

  lemma MultiplexerWrite(ws: seq<Word>, n: nat, pin: nat, v: nat)
    requires IsMultiplexer(ws, n)
    requires pin < 16 && v < 16
    ensures Lines(ws[pin / n := Or(And(ws[pin / n], Not(Shl(0xF, 4 * (pin % n)))), Shl(v, 4 * (pin % n)))], n) ==
            Lines(ws, n)[pin := v]
  {
    hide And, Or, Shl, Put, Packed;
    Powers();
    ShiftedUpdate(ws[pin / n], 4 * (pin % n), 4, v);
    PackedPut(ws, 4, n, pin / n, pin % n, v, 4 * (pin % n), pin);
  }

  // ---------------------------------------------------------------- order of calls

  /** The decoded settings determine the four registers. */
  lemma DecodeIsInjective(r: Registers, q: Registers)
    requires Decode(r) == Decode(q)
    ensures r == q
  {
    hide Slots, Bit, Get;
    SlotsDetermineWord(r.moder, q.moder, 2, 16);
    SlotsDetermineWord(r.ospeedr, q.ospeedr, 2, 16);
    SlotsDetermineWord(r.pupdr, q.pupdr, 2, 16);
    forall i: nat | i < 32 ensures Bit(r.otyper, i) == Bit(q.otyper, i) {
      if i < 16 {
        SlotsDetermineBits(r.otyper, q.otyper, 1, 16, i);
      } else {
        BitGet(r.otyper, 16, 16, i - 16);
        BitGet(q.otyper, 16, 16, i - 16);
      }
    }
    WordExtensionality(r.otyper, q.otyper);
  }

  ghost predicate Disjoint(a: Init, b: Init) {
    forall k: nat :: k < 16 ==> !(Bit(a.pins, k) && Bit(b.pins, k))
  }

  /** Calls on disjoint pin sets commute, down to the register contents: r1 is left by
      configuring a then b, r2 by configuring b then a. */
  lemma DisjointCallsCommute(r: Registers, a: Init, b: Init, r1: Registers, r2: Registers)
    requires Disjoint(a, b)
    requires Decode(r1) == Configured(Configured(Decode(r), a, 16), b, 16)
    requires Decode(r2) == Configured(Configured(Decode(r), b, 16), a, 16)
    ensures r1 == r2
  {
    hide Bit, Decode;
    assert Configured(Configured(Decode(r), a, 16), b, 16) == Configured(Configured(Decode(r), b, 16), a, 16);
    DecodeIsInjective(r1, r2);
  }

  // ---------------------------------------------------------------- histories

  /** The settings after a history of calls. */
  ghost function Run(p: Port, calls: seq<Init>): (q: Port)
    requires Shape(p)
    ensures Shape(q)
  {
    if calls == [] then p else Configured(Run(p, calls[..|calls| - 1]), calls[|calls| - 1], 16)
  }

  /** The last call that selects pin k; with `driving`, the last that also drives it. */
  function LastCall(calls: seq<Init>, k: nat, driving: bool): (i: int)
    ensures -1 <= i < |calls|
  {
    if calls == [] then -1
    else
      var c := calls[|calls| - 1];
      if Bit(c.pins, k) && (driving ==> Drives(c.mode)) then |calls| - 1
      else LastCall(calls[..|calls| - 1], k, driving)
  }

  /** Over every history a pin has the mode and pull of the last call that selects it, the
      speed and output type of the last one that selects it in a driving mode, and its old
      settings where there is none. */
  lemma {:induction false} LastCallWins(p: Port, calls: seq<Init>, k: nat)
    requires Shape(p) && k < 16
    ensures var i := LastCall(calls, k, false);
            Run(p, calls).mode[k] == (if i < 0 then p.mode[k] else calls[i].mode) &&
            Run(p, calls).pull[k] == (if i < 0 then p.pull[k] else calls[i].pull)
    ensures var i := LastCall(calls, k, true);
            Run(p, calls).speed[k] == (if i < 0 then p.speed[k] else calls[i].speed) &&
            Run(p, calls).otype[k] == (if i < 0 then p.otype[k] else calls[i].otype)
    decreases |calls|
  {
    hide Bit;
    if calls != [] { LastCallWins(p, calls[..|calls| - 1], k); }
  }

  lemma {:induction false} RunKeepsUnused(p: Port, calls: seq<Init>)
    requires Shape(p)
    ensures Run(p, calls).unused == p.unused
    decreases |calls|
  {
    hide Bit;
    if calls != [] { RunKeepsUnused(p, calls[..|calls| - 1]); }
  }

  /** The call at index i of one history and at index j of the other ask for the same. */
  ghost predicate SameSettings(xs: seq<Init>, i: int, ys: seq<Init>, j: int)
    requires -1 <= i < |xs| && -1 <= j < |ys|
  {
    if i < 0 || j < 0 then i == j
    else xs[i].(pins := 0) == ys[j].(pins := 0)
  }

  /** Two histories whose last calls on every pin ask for the same leave the same registers,
      whatever else the histories hold and in whatever order: r1 is left by one, r2 by the other. */
  lemma SameLastCallsSameRegisters(r: Registers, xs: seq<Init>, ys: seq<Init>, r1: Registers, r2: Registers)
    requires forall k: nat, d: bool :: k < 16 ==> SameSettings(xs, LastCall(xs, k, d), ys, LastCall(ys, k, d))
    requires Decode(r1) == Run(Decode(r), xs) && Decode(r2) == Run(Decode(r), ys)
    ensures r1 == r2
  {
    hide Bit, Decode, Run, LastCall;
    var p := Decode(r);
    RunKeepsUnused(p, xs);
    RunKeepsUnused(p, ys);
    forall k: nat | k < 16
      ensures Run(p, xs).mode[k] == Run(p, ys).mode[k] && Run(p, xs).pull[k] == Run(p, ys).pull[k]
      ensures Run(p, xs).speed[k] == Run(p, ys).speed[k] && Run(p, xs).otype[k] == Run(p, ys).otype[k]
    {
      LastCallWins(p, xs, k);
      LastCallWins(p, ys, k);
      assert SameSettings(xs, LastCall(xs, k, false), ys, LastCall(ys, k, false));
      assert SameSettings(xs, LastCall(xs, k, true), ys, LastCall(ys, k, true));
    }
    DecodeIsInjective(r1, r2);
  }
}
