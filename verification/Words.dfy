/** Unsigned 32-bit words as the C sources use them.

    A word is a natural number below 2^32. The bitwise operators are defined by
    recursion on binary digits, so every fact below holds for all operands and all bit
    positions and is proved once, by induction. The second half is the theory of packed
    fields: reading a field, replacing a field, and a word seen as an array of slots. */
module Words {

  const WORD: nat := 0x1_0000_0000

  type Word = n: nat | n < WORD

  // ---------------------------------------------------------------- operators

  function Pow2(k: nat): (p: nat)
    ensures p >= 1
  {
    if k == 0 then 1 else 2 * Pow2(k - 1)
  }

  /** `x & y` */
  function And(x: nat, y: nat): (r: nat)
    ensures r <= x && r <= y
  {
    if x == 0 || y == 0 then 0
    else 2 * And(x / 2, y / 2) + if x % 2 == 1 && y % 2 == 1 then 1 else 0
  }

  /** `x | y` */
  function OrBits(x: nat, y: nat): nat {
    if x == 0 then y
    else if y == 0 then x
    else 2 * OrBits(x / 2, y / 2) + if x % 2 == 1 || y % 2 == 1 then 1 else 0
  }

  function Or(x: Word, y: Word): Word {
    Powers();
    OrBound(x, y, 32);
    OrBits(x, y)
  }

  /** `~x` on 32 bits */
  function Not(x: Word): Word {
    WORD - 1 - x
  }

  /** `x >> k` */
  function Shr(x: nat, k: nat): (r: nat)
    ensures r <= x
  {
    if k == 0 then x else Shr(x / 2, k - 1)
  }

  /** x moved up by k digits with nothing dropped: x * 2^k. */
  function Up(x: nat, k: nat): nat {
    if k == 0 then x else 2 * Up(x, k - 1)
  }

  /** `x << k` on 32 bits: digits above 31 are dropped at every step */
  function Shl(x: Word, k: nat): Word
    decreases k, x
  {
    if k == 0 then x else Shl(2 * x % WORD, k - 1)
  }

  /** The value with bits 0 to w-1 set. */
  function Ones(w: nat): nat {
    Pow2(w) - 1
  }

  predicate Bit(x: nat, i: nat) {
    Shr(x, i) % 2 == 1
  }

  // ---------------------------------------------------------------- powers of two

  lemma {:induction false} Pow2Add(a: nat, b: nat)
    ensures Pow2(a + b) == Pow2(a) * Pow2(b)
  {
    hide Pow2;
    if a == 0 {
      Pow2Zero();
    } else {
      Pow2Add(a - 1, b);
      Pow2Next(a - 1);
      Pow2Next(a - 1 + b);
      MulAssoc(2, Pow2(a - 1), Pow2(b));
    }
  }

  lemma Pow2Zero()
    ensures Pow2(0) == 1
  {
  }

  lemma Pow2Next(a: nat)
    ensures Pow2(a + 1) == 2 * Pow2(a)
  {
  }

  lemma MulAssoc(a: int, b: int, c: int)
    ensures (a * b) * c == a * (b * c)
  {
  }

  lemma {:induction false} Pow2Mono(a: nat, b: nat)
    requires a <= b
    ensures Pow2(a) <= Pow2(b)
    decreases b
  {
    if a < b { Pow2Mono(a, b - 1); }
  }

  /** The powers used as field positions and widths. */
  lemma Powers()
    ensures Pow2(0) == 1 && Pow2(1) == 2 && Pow2(2) == 4 && Pow2(3) == 8 && Pow2(4) == 16
    ensures Pow2(5) == 0x20 && Pow2(6) == 0x40 && Pow2(7) == 0x80 && Pow2(8) == 0x100
    ensures Pow2(9) == 0x200 && Pow2(10) == 0x400 && Pow2(11) == 0x800 && Pow2(12) == 0x1000
    ensures Pow2(13) == 0x2000 && Pow2(14) == 0x4000 && Pow2(15) == 0x8000 && Pow2(16) == 0x1_0000
    ensures Pow2(17) == 0x2_0000 && Pow2(18) == 0x4_0000 && Pow2(19) == 0x8_0000 && Pow2(20) == 0x10_0000
    ensures Pow2(21) == 0x20_0000 && Pow2(22) == 0x40_0000 && Pow2(23) == 0x80_0000 && Pow2(24) == 0x100_0000
    ensures Pow2(25) == 0x200_0000 && Pow2(27) == 0x800_0000 && Pow2(28) == 0x1000_0000
    ensures Pow2(30) == 0x4000_0000 && Pow2(31) == 0x8000_0000 && Pow2(32) == WORD
  {
    assert Pow2(8) == 0x100;
    assert Pow2(16) == 0x1_0000;
    assert Pow2(24) == 0x100_0000;
  }

  // ---------------------------------------------------------------- digit by digit

  lemma {:induction false} OrBound(x: nat, y: nat, k: nat)
    requires x < Pow2(k) && y < Pow2(k)
    ensures OrBits(x, y) < Pow2(k)
    decreases k
  {
    if x != 0 && y != 0 { OrBound(x / 2, y / 2, k - 1); }
  }

  lemma {:induction false} BitZero(i: nat)
    ensures !Bit(0, i)
  {
    if i > 0 { BitZero(i - 1); }
  }

  /** The operators act on the last digit and on the rest. */
  lemma AndHalf(x: nat, y: nat)
    ensures And(x, y) / 2 == And(x / 2, y / 2)
    ensures And(x, y) % 2 == 1 <==> x % 2 == 1 && y % 2 == 1
  {
  }

  lemma OrHalf(x: nat, y: nat)
    ensures OrBits(x, y) / 2 == OrBits(x / 2, y / 2)
    ensures OrBits(x, y) % 2 == 1 <==> x % 2 == 1 || y % 2 == 1
  {
  }

  lemma {:induction false} BitAnd(x: nat, y: nat, i: nat)
    ensures Bit(And(x, y), i) <==> Bit(x, i) && Bit(y, i)
  {
    hide And;
    AndHalf(x, y);
    if i > 0 { BitAnd(x / 2, y / 2, i - 1); }
  }

  lemma {:induction false} BitOr(x: nat, y: nat, i: nat)
    ensures Bit(OrBits(x, y), i) <==> Bit(x, i) || Bit(y, i)
  {
    hide OrBits;
    OrHalf(x, y);
    if i > 0 { BitOr(x / 2, y / 2, i - 1); }
  }

  lemma {:induction false} BitComplement(x: nat, k: nat, i: nat)
    requires x < Pow2(k) && i < k
    ensures Bit(Pow2(k) - 1 - x, i) <==> !Bit(x, i)
  {
    hide Pow2;
    Pow2Next(k - 1);
    ComplementHalf(Pow2(k - 1), x, Pow2(k) - 1 - x);
    if i > 0 { BitComplement(x / 2, k - 1, i - 1); }
  }

  lemma BitNot(x: Word, i: nat)
    requires i < 32
    ensures Bit(Not(x), i) <==> !Bit(x, i)
  {
    Powers();
    BitComplement(x, 32, i);
  }

  lemma {:induction false} BitShr(x: nat, k: nat, i: nat)
    ensures Bit(Shr(x, k), i) <==> Bit(x, k + i)
  {
    if k > 0 { BitShr(x / 2, k - 1, i); }
  }

  lemma {:induction false} BitOnes(w: nat, i: nat)
    ensures Bit(Ones(w), i) <==> i < w
  {
    if w == 0 {
      BitZero(i);
    } else {
      assert Ones(w) / 2 == Ones(w - 1);
      if i > 0 { BitOnes(w - 1, i - 1); }
    }
  }

  lemma {:induction false} BitUp(x: nat, k: nat, i: nat)
    ensures Bit(Up(x, k), i) <==> i >= k && Bit(x, i - k)
    decreases k
  {
    if k > 0 && i > 0 { BitUp(x, k - 1, i - 1); }
  }

  lemma {:induction false} BitSmall(x: nat, w: nat, i: nat)
    requires x < Pow2(w) && i >= w
    ensures !Bit(x, i)
  {
    if w == 0 { BitZero(i); } else { BitSmall(x / 2, w - 1, i - 1); }
  }

  /** Two numbers with the same k binary digits are the same number. */
  lemma {:induction false} Extensionality(x: nat, y: nat, k: nat)
    requires x < Pow2(k) && y < Pow2(k)
    requires forall i: nat :: i < k ==> Bit(x, i) == Bit(y, i)
    ensures x == y
  {
    if k > 0 {
      assert Bit(x, 0) == Bit(y, 0);
      forall i: nat | i < k - 1
        ensures Bit(x / 2, i) == Bit(y / 2, i)
      {
        assert Bit(x, i + 1) == Bit(y, i + 1);
      }
      Extensionality(x / 2, y / 2, k - 1);
    }
  }

  lemma WordExtensionality(x: Word, y: Word)
    requires forall i: nat :: i < 32 ==> Bit(x, i) == Bit(y, i)
    ensures x == y
  {
    Powers();
    Extensionality(x, y, 32);
  }

  // ---------------------------------------------------------------- shifts as arithmetic

  lemma MulMono(d: nat, a: nat, b: nat)
    requires a <= b
    ensures d * a <= d * b
  {
  }

  lemma DivModUnique(x: nat, d: nat, q: nat, r: nat)
    requires d > 0 && x == d * q + r && r < d
    ensures x / d == q && x % d == r
  {
    var q', r' := x / d, x % d;
    assert x == d * q' + r';
    if q' < q {
      MulMono(d, q' + 1, q);
    } else if q < q' {
      MulMono(d, q + 1, q');
    }
  }

  /** Dividing twice is dividing once by the product. */
  lemma DivDiv(x: nat, a: nat, b: nat)
    requires a > 0 && b > 0
    ensures a * b > 0 && x / a / b == x / (a * b)
  {
    var q, r := x / a, x % a;
    var p, s := q / b, q % b;
    MulMono(a, 1, b);
    NestedParts(x, a, b, q, r, p, s);
    DivModUnique(x, a * b, p, a * s + r);
  }

  lemma NestedParts(x: nat, a: nat, b: nat, q: nat, r: nat, p: nat, s: nat)
    requires x == a * q + r && q == b * p + s && r < a && s < b
    ensures x == (a * b) * p + (a * s + r) && a * s + r < a * b
  {
    MulAssoc(a, b, p);
    DistributeLeft(a, b * p, s);
    MulMono(a, s + 1, b);
    DistributeLeft(a, s, 1);
  }

  lemma DistributeLeft(a: int, b: int, c: int)
    ensures a * (b + c) == a * b + a * c
  {
  }

  /** Scaling both sides of a remainder. */
  lemma ScaleMod(x: nat, s: nat, q: nat)
    requires s > 0 && q > 0
    ensures s * q > 0 && x * s % (s * q) == x % q * s
  {
    var k, r := x / q, x % q;
    MulMono(s, 1, q);
    ScaledParts(x, s, q, k, r);
    DivModUnique(x * s, s * q, k, r * s);
  }

  lemma ScaledParts(x: nat, s: nat, q: nat, k: nat, r: nat)
    requires x == q * k + r && r < q && s > 0
    ensures x * s == (s * q) * k + r * s && r * s < s * q
  {
    Distribute(q, k, r, s);
    MulAssoc(q, k, s);
    MulAssoc(s, q, k);
    MulMono(s, r + 1, q);
    DistributeLeft(s, r, 1);
  }

  /** A remainder by a multiple of q has the same remainder by q. */
  lemma ModMod(x: nat, q: nat, c: nat)
    requires q > 0 && c > 0
    ensures q * c > 0 && x % (q * c) % q == x % q
  {
    MulMono(q, 1, c);
    var k, a := x / (q * c), x % (q * c);
    var j, r := a / q, a % q;
    Regroup(x, q, c, k, a, j, r);
    DivModUnique(x, q, c * k + j, r);
  }

  lemma Regroup(x: nat, q: nat, c: nat, k: nat, a: nat, j: nat, r: nat)
    requires x == (q * c) * k + a && a == q * j + r
    ensures x == q * (c * k + j) + r
  {
    assert (q * c) * k == q * (c * k);
  }

  lemma {:induction false} ShrIsDiv(x: nat, k: nat)
    ensures Shr(x, k) == x / Pow2(k)
  {
    if k > 0 {
      ShrIsDiv(x / 2, k - 1);
      DivDiv(x, 2, Pow2(k - 1));
    }
  }

  lemma ShrNone(x: nat)
    ensures Shr(x, 0) == x
  {
  }

  lemma {:induction false} UpIsTimes(x: nat, k: nat)
    ensures Up(x, k) == x * Pow2(k)
  {
    if k > 0 { UpIsTimes(x, k - 1); }
  }

  lemma {:induction false} UpTwice(x: nat, k: nat)
    ensures Up(2 * x, k) == 2 * Up(x, k)
  {
    if k > 0 { UpTwice(x, k - 1); }
  }

  lemma ModDouble(x: nat, p: nat)
    requires p > 0
    ensures x % (2 * p) == 2 * (x / 2 % p) + x % 2
  {
    var q, r := x / 2 / p, x / 2 % p;
    assert x / 2 == p * q + r;
    assert 2 * (p * q) == (2 * p) * q;
    DivModUnique(x, 2 * p, q, 2 * r + x % 2);
  }

  /** Masking with the low ones is taking the remainder. */
  lemma {:induction false} AndOnes(x: nat, w: nat)
    ensures And(x, Ones(w)) == x % Pow2(w)
  {
    if x == 0 {
    } else if w == 0 {
    } else {
      AndOnes(x / 2, w - 1);
      assert Ones(w) / 2 == Ones(w - 1);
      ModDouble(x, Pow2(w - 1));
    }
  }

  /** `|` of numbers that share no digit is addition. */
  lemma {:induction false} OrDisjoint(hi: nat, lo: nat, k: nat)
    requires lo < Pow2(k)
    ensures OrBits(Up(hi, k), lo) == Up(hi, k) + lo
    decreases k
  {
    if k > 0 { OrDisjoint(hi, lo / 2, k - 1); }
  }

  /** A field value fits in its place in the word. */
  lemma {:induction false} UpBound(v: nat, pos: nat, w: nat)
    requires v < Pow2(w)
    ensures Up(v, pos) < Pow2(pos + w)
  {
    if pos > 0 { UpBound(v, pos - 1, w); }
  }

  lemma FieldFits(v: nat, pos: nat, w: nat)
    requires pos + w <= 32 && v < Pow2(w)
    ensures Up(v, pos) < WORD
  {
    UpBound(v, pos, w);
    Pow2Mono(pos + w, 32);
    Powers();
  }

  lemma DoubleFits(v: nat, w: nat)
    requires w < 32 && v < Pow2(w)
    ensures 2 * v < Pow2(w + 1) && 2 * v < WORD
  {
    Pow2Mono(w + 1, 32);
    Powers();
  }

  lemma ShlUnfold(v: Word, k: nat)
    ensures Shl(v, 0) == v
    ensures k > 0 && 2 * v < WORD ==> Shl(v, k) == Shl(2 * v, k - 1)
  {
  }

  /** A left shift that loses no bit is a multiplication. */
  lemma {:induction false} ShlIsUp(v: Word, pos: nat, w: nat)
    requires pos + w <= 32 && v < Pow2(w)
    ensures Shl(v, pos) == Up(v, pos)
    decreases pos
  {
    hide Shl, Pow2;
    ShlUnfold(v, pos);
    if pos > 0 {
      DoubleFits(v, w);
      ShlIsUp(2 * v, pos - 1, w + 1);
      UpTwice(v, pos - 1);
    }
  }

  /** `x << k` keeps the low 32 bits of x * 2^k. */
  lemma {:induction false} ShlValue(x: Word, k: nat)
    ensures Shl(x, k) == x * Pow2(k) % WORD
    decreases k
  {
    hide Shl, Pow2;
    ShlOnce(x, k);
    if k == 0 {
      Pow2Zero();
    } else {
      ShlValue(2 * x % WORD, k - 1);
      ModTimes(2 * x, Pow2(k - 1));
      Pow2Next(k - 1);
      MulAssoc(x, 2, Pow2(k - 1));
    }
  }

  lemma ShlOnce(x: Word, k: nat)
    ensures Shl(x, k) == if k == 0 then x else Shl(2 * x % WORD, k - 1)
  {
  }

  lemma Distribute(d: int, q: int, r: int, p: int)
    ensures (d * q + r) * p == d * (q * p) + r * p
  {
  }

  lemma ModTimes(x: nat, p: nat)
    ensures x % WORD * p % WORD == x * p % WORD
  {
    var q, r := x / WORD, x % WORD;
    assert x * p == WORD * (q * p) + r * p by { Distribute(WORD, q, r, p); }
    var y := r * p;
    DivModUnique(x * p, WORD, q * p + y / WORD, y % WORD);
  }

  // ---------------------------------------------------------------- packed fields

  /** The w bits of r from bit pos upwards: `(r >> pos) & ones`. */
  function Get(r: nat, pos: nat, w: nat): (v: nat)
    ensures v < Pow2(w)
  {
    And(Shr(r, pos), Ones(w))
  }

  /** r with the w bits from pos upwards replaced by v: clear the field, then set it. */
  function Put(r: Word, pos: nat, w: nat, v: nat): Word
    requires pos + w <= 32 && v < Pow2(w)
  {
    FieldFits(Ones(w), pos, w);
    FieldFits(v, pos, w);
    Or(And(r, Not(Up(Ones(w), pos))), Up(v, pos))
  }

  /** x is r with the w bits from pos upwards replaced by v, digit by digit. */
  ghost predicate Replaced(x: nat, r: nat, pos: nat, w: nat, v: nat) {
    forall i: nat :: i < 32 ==> Bit(x, i) == if pos <= i < pos + w then Bit(v, i - pos) else Bit(r, i)
  }

  /** Every field of x that does not overlap the w bits from pos upwards is as in r. */
  ghost predicate SameOutside(x: nat, r: nat, pos: nat, w: nat) {
    forall q: nat, u: nat :: q + u <= pos || pos + w <= q <= 32 - u ==> Get(x, q, u) == Get(r, q, u)
  }

  lemma BitGet(r: nat, pos: nat, w: nat, i: nat)
    ensures Bit(Get(r, pos, w), i) <==> i < w && Bit(r, pos + i)
  {
    BitAnd(Shr(r, pos), Ones(w), i);
    BitOnes(w, i);
    BitShr(r, pos, i);
  }

  lemma GetIsDivMod(r: nat, pos: nat, w: nat)
    ensures Get(r, pos, w) == r / Pow2(pos) % Pow2(w)
  {
    ShrIsDiv(r, pos);
    AndOnes(Shr(r, pos), w);
  }

  /** A field of a number given by its digits: hi above the field, v in it, lo below. */
  lemma GetDigit(x: nat, pos: nat, w: nat, p: nat, m: nat, hi: nat, v: nat, lo: nat)
    requires p == Pow2(pos) && m == Pow2(w) && x == (hi * m + v) * p + lo && v < m && lo < p
    ensures Get(x, pos, w) == v
  {
    hide Get, Pow2;
    GetIsDivMod(x, pos, w);
    DivModUnique(x, p, hi * m + v, lo);
    DivModUnique(hi * m + v, m, hi, v);
  }

  lemma {:induction false} ShrAnd(x: nat, y: nat, k: nat)
    ensures Shr(And(x, y), k) == And(Shr(x, k), Shr(y, k))
  {
    hide And;
    AndHalf(x, y);
    if k > 0 { ShrAnd(x / 2, y / 2, k - 1); }
  }

  lemma {:induction false} ShrUp(x: nat, k: nat)
    ensures Shr(Up(x, k), k) == x
  {
    if k > 0 { ShrUp(x, k - 1); }
  }

  /** `(r & mask) >> pos` with the mask in place is the same field. */
  lemma MaskThenShift(r: nat, pos: nat, w: nat)
    ensures Shr(And(r, Up(Ones(w), pos)), pos) == Get(r, pos, w)
  {
    ShrAnd(r, Up(Ones(w), pos), pos);
    ShrUp(Ones(w), pos);
  }

  lemma BitMaskedUpdate(r: Word, m: Word, v: Word, i: nat)
    requires i < 32
    ensures Bit(Or(And(r, Not(m)), v), i) <==> (Bit(r, i) && !Bit(m, i)) || Bit(v, i)
  {
    BitOr(And(r, Not(m)), v, i);
    BitAnd(r, Not(m), i);
    BitNot(m, i);
  }

  lemma BitPut(r: Word, pos: nat, w: nat, v: nat, i: nat)
    requires pos + w <= 32 && v < Pow2(w) && i < 32
    ensures Bit(Put(r, pos, w, v), i) == if pos <= i < pos + w then Bit(v, i - pos) else Bit(r, i)
  {
    hide And, Or, Bit, Up, Pow2;
    FieldFits(Ones(w), pos, w);
    FieldFits(v, pos, w);
    BitMaskedUpdate(r, Up(Ones(w), pos), Up(v, pos), i);
    BitUp(Ones(w), pos, i);
    BitUp(v, pos, i);
    if i >= pos { BitOnes(w, i - pos); }
    if i >= pos + w { BitSmall(v, w, i - pos); }
  }

  lemma PutReplaces(r: Word, pos: nat, w: nat, v: nat)
    requires pos + w <= 32 && v < Pow2(w)
    ensures Replaced(Put(r, pos, w, v), r, pos, w, v)
  {
    hide Put, Bit, Pow2;
    forall i: nat | i < 32
      ensures Bit(Put(r, pos, w, v), i) == if pos <= i < pos + w then Bit(v, i - pos) else Bit(r, i)
    {
      BitPut(r, pos, w, v, i);
    }
  }

  lemma GetExtensionality(x: nat, y: nat, pos: nat, w: nat)
    requires forall i: nat :: pos <= i < pos + w ==> Bit(x, i) == Bit(y, i)
    ensures Get(x, pos, w) == Get(y, pos, w)
  {
    hide And, OrBits, Shr, Bit, Shl, Up;
    forall i: nat | i < w
      ensures Bit(Get(x, pos, w), i) == Bit(Get(y, pos, w), i)
    {
      BitGet(x, pos, w, i);
      BitGet(y, pos, w, i);
      assert Bit(x, pos + i) == Bit(y, pos + i);
    }
    Extensionality(Get(x, pos, w), Get(y, pos, w), w);
  }

  lemma GetReplaced(x: nat, r: nat, pos: nat, w: nat, v: nat)
    requires pos + w <= 32 && v < Pow2(w) && Replaced(x, r, pos, w, v)
    ensures Get(x, pos, w) == v
    ensures forall q: nat, u: nat :: q + u <= pos || pos + w <= q <= 32 - u ==> Get(x, q, u) == Get(r, q, u)
  {
    hide And, OrBits, Shr, Bit, Shl, Up;
    forall i: nat | i < w ensures Bit(Get(x, pos, w), i) == Bit(v, i) {
      BitGet(x, pos, w, i);
      assert Bit(x, pos + i) == Bit(v, i);
    }
    Extensionality(Get(x, pos, w), v, w);
    forall q: nat, u: nat | q + u <= pos || pos + w <= q <= 32 - u
      ensures Get(x, q, u) == Get(r, q, u)
    {
      GetExtensionality(x, r, q, u);
    }
  }

  /** What was put is what is read back, and every field that does not overlap the one
      written is unchanged. */
  lemma GetPut(r: Word, pos: nat, w: nat, v: nat)
    requires pos + w <= 32 && v < Pow2(w)
    ensures Get(Put(r, pos, w, v), pos, w) == v
    ensures forall q: nat, u: nat :: q + u <= pos || pos + w <= q <= 32 - u ==>
              Get(Put(r, pos, w, v), q, u) == Get(r, q, u)
  {
    hide And, OrBits, Shr, Bit, Shl, Up;
    PutReplaces(r, pos, w, v);
    GetReplaced(Put(r, pos, w, v), r, pos, w, v);
  }

  /** The driver idiom `(r & ~(ones << pos)) | (v << pos)` replaces one field. */
  lemma ShiftedUpdate(r: Word, pos: nat, w: nat, v: nat)
    requires pos + w <= 32 && v < Pow2(w)
    ensures Ones(w) < WORD && v < WORD
    ensures Or(And(r, Not(Shl(Ones(w), pos))), Shl(v, pos)) == Put(r, pos, w, v)
  {
    hide And, OrBits, Shr, Bit, Shl, Up;
    Pow2Mono(w, 32);
    Powers();
    ShlIsUp(Ones(w), pos, w);
    ShlIsUp(v, pos, w);
  }

  /** The idiom seen through the fields. */
  lemma ShiftedField(r: Word, pos: nat, w: nat, m: Word, v: Word)
    requires pos + w <= 32 && v < Pow2(w) && m == Ones(w)
    ensures var x := Or(And(r, Not(Shl(m, pos))), Shl(v, pos));
            Get(x, pos, w) == v && SameOutside(x, r, pos, w)
  {
    hide And, Or, Shl, Put, Get, Pow2;
    ShiftedUpdate(r, pos, w, v);
    GetPut(r, pos, w, v);
  }

  /** The same idiom with the mask and the value already in place, as the header
      constants give them. */
  lemma LiteralUpdate(r: Word, m: Word, x: Word, pos: nat, w: nat, v: nat)
    requires pos + w <= 32 && v < Pow2(w)
    requires m == Ones(w) * Pow2(pos) && x == v * Pow2(pos)
    ensures Or(And(r, Not(m)), x) == Put(r, pos, w, v)
  {
    UpIsTimes(Ones(w), pos);
    UpIsTimes(v, pos);
  }

  lemma LiteralGet(r: nat, m: nat, pos: nat, w: nat)
    requires m == Ones(w) * Pow2(pos)
    ensures Shr(And(r, m), pos) == Get(r, pos, w)
  {
    UpIsTimes(Ones(w), pos);
    MaskThenShift(r, pos, w);
  }

  lemma {:induction false} OrCommutes(x: nat, y: nat)
    ensures OrBits(x, y) == OrBits(y, x)
  {
    if x != 0 && y != 0 { OrCommutes(x / 2, y / 2); }
  }

  /** Adding a field above everything set so far. */
  lemma OrAbove(lo: nat, x: nat, hi: nat, k: nat)
    requires lo < Pow2(k) && x == hi * Pow2(k)
    ensures OrBits(lo, x) == OrBits(x, lo) == lo + x
  {
    UpIsTimes(hi, k);
    OrDisjoint(hi, lo, k);
    OrCommutes(lo, x);
  }

  /** Two fields cleared with one mask and set with one `|`. */
  lemma DoubleUpdate(r: Word, m1: Word, x1: Word, m2: Word, x2: Word)
    ensures Or(And(r, Not(Or(m1, m2))), Or(x1, x2)) == Or(And(Or(And(r, Not(m1)), x1), Not(m2)), x2)
    requires And(x1, m2) == 0
  {
    hide And, OrBits, Shr, Bit, Shl, Up;
    var a := Or(And(r, Not(Or(m1, m2))), Or(x1, x2));
    var b := Or(And(Or(And(r, Not(m1)), x1), Not(m2)), x2);
    forall i: nat | i < 32 ensures Bit(a, i) == Bit(b, i) {
      BitMaskedUpdate(r, Or(m1, m2), Or(x1, x2), i);
      BitOr(m1, m2, i);
      BitOr(x1, x2, i);
      BitMaskedUpdate(Or(And(r, Not(m1)), x1), m2, x2, i);
      BitMaskedUpdate(r, m1, x1, i);
      BitAnd(x1, m2, i);
      BitZero(i);
    }
    WordExtensionality(a, b);
  }

  /** A literal update seen through the fields. */
  lemma UpdateField(r: Word, m: Word, x: Word, pos: nat, w: nat, v: nat)
    requires pos + w <= 32 && v < Pow2(w)
    requires m == Ones(w) * Pow2(pos) && x == v * Pow2(pos)
    ensures Get(Or(And(r, Not(m)), x), pos, w) == v
    ensures forall q: nat, u: nat :: q + u <= pos || pos + w <= q <= 32 - u ==>
              Get(Or(And(r, Not(m)), x), q, u) == Get(r, q, u)
  {
    hide And, OrBits, Shr, Bit, Shl, Up;
    LiteralUpdate(r, m, x, pos, w, v);
    GetPut(r, pos, w, v);
  }

  /** Masking in place gives the field in place. */
  lemma {:induction false} MaskInPlace(r: nat, pos: nat, w: nat)
    ensures And(r, Up(Ones(w), pos)) == Up(Get(r, pos, w), pos)
  {
    hide And, Pow2;
    AndHalf(r, Up(Ones(w), pos));
    if pos > 0 { MaskInPlace(r / 2, pos - 1, w); }
  }

  lemma LiteralMask(r: nat, m: nat, pos: nat, w: nat)
    requires m == Ones(w) * Pow2(pos)
    ensures And(r, m) == Get(r, pos, w) * Pow2(pos)
  {
    UpIsTimes(Ones(w), pos);
    UpIsTimes(Get(r, pos, w), pos);
    MaskInPlace(r, pos, w);
  }

  /** `r | x` on a field of r that is clear, and with a value of all ones. */
  lemma SetField(r: Word, x: Word, pos: nat, w: nat, v: nat)
    requires pos + w <= 32 && v < Pow2(w) && x == v * Pow2(pos)
    requires Get(r, pos, w) == 0 || v == Ones(w)
    ensures Get(Or(r, x), pos, w) == v
    ensures forall q: nat, u: nat :: q + u <= pos || pos + w <= q <= 32 - u ==>
              Get(Or(r, x), q, u) == Get(r, q, u)
  {
    hide And, OrBits, Shr, Bit, Get, Up, Pow2;
    UpIsTimes(v, pos);
    forall i: nat | i < 32
      ensures Bit(Or(r, x), i) == if pos <= i < pos + w then Bit(v, i - pos) else Bit(r, i)
    {
      BitOr(r, x, i);
      BitUp(v, pos, i);
      if pos <= i < pos + w {
        BitGet(r, pos, w, i - pos);
        BitZero(i - pos);
        BitOnes(w, i - pos);
      } else if i >= pos + w {
        BitSmall(v, w, i - pos);
      }
    }
    GetReplaced(Or(r, x), r, pos, w, v);
  }

  /** `r & ~mask` */
  lemma ClearField(r: Word, m: Word, pos: nat, w: nat)
    requires pos + w <= 32 && m == Ones(w) * Pow2(pos)
    ensures Get(And(r, Not(m)), pos, w) == 0
    ensures forall q: nat, u: nat :: q + u <= pos || pos + w <= q <= 32 - u ==>
              Get(And(r, Not(m)), q, u) == Get(r, q, u)
  {
    hide And, Shr, Bit, Get, Up, Pow2;
    UpdateField(r, m, 0, pos, w, 0);
    assert Or(And(r, Not(m)), 0) == And(r, Not(m));
  }

  lemma BitIsDivMod(x: nat, i: nat)
    ensures Bit(x, i) <==> x / Pow2(i) % 2 == 1
  {
    ShrIsDiv(x, i);
  }

  lemma GetZero(pos: nat, w: nat)
    ensures Get(0, pos, w) == 0
  {
    GetIsDivMod(0, pos, w);
  }

  lemma OrZero(x: Word)
    ensures Or(x, 0) == x
  {
  }

  /** Clearing the digits of m takes `x & m` away. */
  lemma {:induction false} AndComplement(x: nat, m: nat, k: nat)
    requires x < Pow2(k) && m < Pow2(k)
    ensures And(x, Pow2(k) - 1 - m) + And(x, m) == x
    decreases k
  {
    hide And, Pow2;
    if k == 0 {
      Pow2Zero();
      AndHalf(0, 0);
    } else {
      Pow2Next(k - 1);
      var n := Pow2(k) - 1 - m;
      ComplementHalf(Pow2(k - 1), m, n);
      AndComplement(x / 2, m / 2, k - 1);
      AndHalf(x, m);
      AndHalf(x, n);
    }
  }

  lemma ComplementHalf(p: nat, m: nat, n: nat)
    requires m + n == 2 * p - 1
    ensures n / 2 == p - 1 - m / 2 && n % 2 == 1 - m % 2
  {
  }

  lemma ClearSubtracts(x: Word, m: Word)
    ensures And(x, Not(m)) == x - And(x, m)
  {
    hide And;
    Powers();
    AndComplement(x, m, 32);
  }

  /** A field under a mask that covers it, or that misses it. */
  lemma MaskedField(r: Word, m: Word, x: Word, pos: nat, w: nat)
    requires pos + w <= 32
    ensures Get(m, pos, w) == Ones(w) ==> Get(Or(And(r, Not(m)), x), pos, w) == Get(x, pos, w)
    ensures Get(m, pos, w) == 0 && Get(x, pos, w) == 0 ==> Get(Or(And(r, Not(m)), x), pos, w) == Get(r, pos, w)
  {
    hide And, Or, Bit, Get, Pow2;
    var y := Or(And(r, Not(m)), x);
    forall i: nat | pos <= i < pos + w
      ensures Get(m, pos, w) == Ones(w) ==> Bit(y, i) == Bit(x, i)
      ensures Get(m, pos, w) == 0 && Get(x, pos, w) == 0 ==> Bit(y, i) == Bit(r, i)
    {
      BitMaskedUpdate(r, m, x, i);
      BitGet(m, pos, w, i - pos);
      BitGet(x, pos, w, i - pos);
      BitOnes(w, i - pos);
      BitZero(i - pos);
    }
    if Get(m, pos, w) == Ones(w) { GetExtensionality(y, x, pos, w); }
    if Get(m, pos, w) == 0 && Get(x, pos, w) == 0 { GetExtensionality(y, r, pos, w); }
  }

  /** Two fields at once, both masks and both values in place. */
  lemma DoublePut(r: Word, m1: Word, x1: Word, p1: nat, w1: nat, v1: nat,
                  m2: Word, x2: Word, p2: nat, w2: nat, v2: nat)
    requires p1 + w1 <= p2 && p2 + w2 <= 32 && v1 < Pow2(w1) && v2 < Pow2(w2)
    requires m1 == Ones(w1) * Pow2(p1) && x1 == v1 * Pow2(p1)
    requires m2 == Ones(w2) * Pow2(p2) && x2 == v2 * Pow2(p2) && m1 < Pow2(p2) && x1 < Pow2(p2)
    ensures m1 + m2 < WORD
    ensures Or(And(r, Not(m1 + m2)), Or(x1, x2)) == Put(Put(r, p1, w1, v1), p2, w2, v2)
  {
    hide And, OrBits, Shr, Shl, Up, Get, Put, Pow2, Ones;
    OrAbove(m1, m2, Ones(w2), p2);
    assert Or(m1, m2) == m1 + m2;
    DisjointMask(x1, m2, p2, w2);
    DoubleUpdate(r, m1, x1, m2, x2);
    LiteralUpdate(r, m1, x1, p1, w1, v1);
    LiteralUpdate(Put(r, p1, w1, v1), m2, x2, p2, w2, v2);
  }

  lemma DisjointMask(x: nat, m: nat, pos: nat, w: nat)
    requires x < Pow2(pos) && m == Ones(w) * Pow2(pos)
    ensures And(x, m) == 0
  {
    hide And, Get, Pow2;
    LiteralMask(x, m, pos, w);
    GetIsDivMod(x, pos, w);
    DivModUnique(x, Pow2(pos), 0, x);
    DivModUnique(0, Pow2(w), 0, 0);
  }

  /** One mask that clears two fields and one `|` that sets both. */
  lemma UpdateTwoFields(r: Word, m1: Word, x1: Word, p1: nat, w1: nat, v1: nat,
                        m2: Word, x2: Word, p2: nat, w2: nat, v2: nat)
    requires p1 + w1 <= p2 && p2 + w2 <= 32 && v1 < Pow2(w1) && v2 < Pow2(w2)
    requires m1 == Ones(w1) * Pow2(p1) && x1 == v1 * Pow2(p1)
    requires m2 == Ones(w2) * Pow2(p2) && x2 == v2 * Pow2(p2) && m1 < Pow2(p2) && x1 < Pow2(p2)
    ensures m1 + m2 < WORD
    ensures var x := Or(And(r, Not(m1 + m2)), Or(x1, x2));
            Get(x, p1, w1) == v1 && Get(x, p2, w2) == v2 &&
            forall q: nat, u: nat :: q + u <= p1 || p1 + w1 <= q <= p2 - u || p2 + w2 <= q <= 32 - u ==>
              Get(x, q, u) == Get(r, q, u)
  {
    hide And, OrBits, Or, Shr, Shl, Up, Get, Put, Pow2, Ones;
    DoublePut(r, m1, x1, p1, w1, v1, m2, x2, p2, w2, v2);
    GetPut(r, p1, w1, v1);
    GetPut(Put(r, p1, w1, v1), p2, w2, v2);
  }

  /** The low u bits of a wider field. */
  lemma LowPart(x: Word, pos: nat, w: nat, u: nat)
    requires u <= w
    ensures Get(x, pos, u) == Get(x, pos, w) % Pow2(u)
  {
    hide And, Shr, Pow2;
    AndOnes(Shr(x, pos), w);
    AndOnes(Shr(x, pos), u);
    ModPow2(Shr(x, pos), w, u);
  }

  lemma ModPow2(y: nat, w: nat, u: nat)
    requires u <= w
    ensures y % Pow2(w) % Pow2(u) == y % Pow2(u)
  {
    hide Pow2;
    Pow2Add(u, w - u);
    ModMod(y, Pow2(u), Pow2(w - u));
  }

  // ---------------------------------------------------------------- single bits

  lemma ShlOne(k: nat)
    requires k < 32
    ensures Shl(1, k) == Pow2(k)
  {
    hide Shl;
    Powers();
    ShlIsUp(1, k, 1);
    UpIsTimes(1, k);
  }

  lemma BitOfBit(v: nat)
    requires v < 2
    ensures Bit(v, 0) <==> v == 1
  {
  }

  /** Only digit k of 2^k is set. */
  lemma BitOfPower(k: nat, i: nat)
    ensures Bit(Pow2(k), i) <==> i == k
  {
    hide Bit, Pow2;
    UpIsTimes(1, k);
    BitUp(1, k, i);
    BitOfBit(1);
    if i > k {
      Powers();
      BitSmall(1, 1, i - k);
    }
  }

  /** `r | 2^k` and `r & ~2^k`, digit by digit. */
  lemma BitAfterSet(r: Word, x: Word, k: nat, i: nat)
    requires x == Pow2(k)
    ensures Bit(Or(r, x), i) == (i == k || Bit(r, i))
  {
    hide OrBits, Bit, Pow2;
    BitOfPower(k, i);
    BitOr(r, x, i);
  }

  lemma BitAfterClear(r: Word, x: Word, k: nat, i: nat)
    requires x == Pow2(k) && i < 32
    ensures Bit(And(r, Not(x)), i) == (i != k && Bit(r, i))
  {
    hide And, Bit, Pow2;
    BitOfPower(k, i);
    BitAnd(r, Not(x), i);
    BitNot(x, i);
  }

  /** Testing one bit with a shifted one. */
  lemma TestBit(r: Word, i: nat)
    requires i < 32
    ensures And(Shl(1, i), r) != 0 <==> Bit(r, i)
  {
    hide And, Shl, Bit;
    Powers();
    ShlIsUp(1, i, 1);
    AndCommutes(Shl(1, i), r);
    MaskInPlace(r, i, 1);
    UpIsTimes(Get(r, i, 1), i);
    GetOneBit(r, i);
    MulMono(Pow2(i), 0, Get(r, i, 1));
    if Get(r, i, 1) >= 1 { MulMono(Pow2(i), 1, Get(r, i, 1)); }
  }

  lemma {:induction false} AndCommutes(x: nat, y: nat)
    ensures And(x, y) == And(y, x)
  {
    if x != 0 && y != 0 { AndCommutes(x / 2, y / 2); }
  }

  lemma GetOneBit(r: nat, i: nat)
    ensures Pow2(1) == 2 && Get(r, i, 1) == if Bit(r, i) then 1 else 0
  {
    hide And, Shr, Get;
    Powers();
    GetIsDivMod(r, i, 1);
    BitIsDivMod(r, i);
  }

  lemma SetBit(r: Word, i: nat)
    requires i < 32
    ensures Pow2(1) == 2 && Or(r, Shl(1, i)) == Put(r, i, 1, 1)
  {
    hide And, Or, Shl, Bit, Put;
    Powers();
    ShlIsUp(1, i, 1);
    PutReplaces(r, i, 1, 1);
    forall k: nat | k < 32
      ensures Bit(Or(r, Shl(1, i)), k) == Bit(Put(r, i, 1, 1), k)
    {
      OrBit(r, Shl(1, i), k);
      BitUp(1, i, k);
      if k > i { BitSmall(1, 1, k - i); }
      BitOfBit(1);
    }
    WordExtensionality(Or(r, Shl(1, i)), Put(r, i, 1, 1));
  }

  lemma OrBit(x: Word, y: Word, i: nat)
    ensures Bit(Or(x, y), i) <==> Bit(x, i) || Bit(y, i)
  {
    BitOr(x, y, i);
  }

  lemma ClearBit(r: Word, i: nat)
    requires i < 32
    ensures Pow2(1) == 2 && And(r, Not(Shl(1, i))) == Put(r, i, 1, 0)
  {
    hide And, Shl, Bit;
    Powers();
    ShlIsUp(1, i, 1);
    UpIsTimes(0, i);
    assert Or(And(r, Not(Up(1, i))), 0) == And(r, Not(Up(1, i)));
  }

  // ---------------------------------------------------------------- packed arrays

  /** A word read as n slots of w bits, slot 0 in the low bits. */
  function Slots(r: nat, w: nat, n: nat): (s: seq<nat>)
    ensures |s| == n && forall i :: 0 <= i < n ==> s[i] == Get(r, w * i, w)
  {
    seq(n, i requires i >= 0 => Get(r, w * i, w))
  }

  lemma SlotFits(w: nat, n: nat, s: nat)
    requires s < n
    ensures w * s + w <= w * n
  {
    MulMono(w, s + 1, n);
  }

  /** Replacing one packed slot is updating one entry of the array. */
  lemma SlotsReplaced(x: nat, r: nat, w: nat, n: nat, s: nat, v: nat)
    requires w * n <= 32 && s < n && v < Pow2(w) && Replaced(x, r, w * s, w, v)
    ensures Slots(x, w, n) == Slots(r, w, n)[s := v]
  {
    hide Get, Replaced, Pow2;
    SlotFits(w, n, s);
    GetReplaced(x, r, w * s, w, v);
    forall t: nat | t < n && t != s
      ensures Get(x, w * t, w) == Get(r, w * t, w)
    {
      SlotFits(w, n, t);
      if t < s { SlotFits(w, s, t); } else { SlotFits(w, t, s); }
    }
  }

  lemma SlotsPut(r: Word, w: nat, n: nat, s: nat, v: nat)
    requires w * n <= 32 && s < n && v < Pow2(w)
    ensures w * s + w <= 32
    ensures Slots(Put(r, w * s, w, v), w, n) == Slots(r, w, n)[s := v]
  {
    hide And, OrBits, Shr, Bit, Shl, Up;
    SlotFits(w, n, s);
    PutReplaces(r, w * s, w, v);
    SlotsReplaced(Put(r, w * s, w, v), r, w, n, s, v);
  }

  /** One slot written with the driver idiom, seen through the slots and any field above. */
  lemma WriteSlot(r: Word, w: nat, n: nat, k: nat, v: nat)
    requires w * n <= 32 && k < n && v < Pow2(w)
    ensures Ones(w) < WORD && v < WORD
    ensures var x := Or(And(r, Not(Shl(Ones(w), w * k))), Shl(v, w * k));
            Slots(x, w, n) == Slots(r, w, n)[k := v] &&
            forall q: nat, u: nat :: w * n <= q <= 32 - u ==> Get(x, q, u) == Get(r, q, u)
  {
    hide And, Or, Shl, Put, Slots, Get, Pow2;
    SlotFits(w, n, k);
    ShiftedUpdate(r, w * k, w, v);
    SlotsPut(r, w, n, k, v);
    GetPut(r, w * k, w, v);
  }

  /** A field above the slots written, seen through the slots. */
  lemma WriteAbove(r: Word, x: Word, w: nat, n: nat, q: nat)
    requires w * n <= q
    requires forall p: nat, u: nat :: p + u <= q ==> Get(x, p, u) == Get(r, p, u)
    ensures Slots(x, w, n) == Slots(r, w, n)
  {
    hide Get;
    forall i: nat | i < n ensures Get(x, w * i, w) == Get(r, w * i, w) {
      SlotFits(w, n, i);
    }
  }

  /** Slots that tile the first w * n bits determine those bits. */
  lemma SlotsDetermineBits(x: nat, y: nat, w: nat, n: nat, i: nat)
    requires Slots(x, w, n) == Slots(y, w, n) && i < w * n
    ensures Bit(x, i) == Bit(y, i)
  {
    hide And, OrBits, Shr, Bit, Shl, Up;
    var s, j := i / w, i % w;
    assert i == w * s + j;
    assert s < n by {
      if s >= n { MulMono(w, n, s); }
    }
    assert Slots(x, w, n)[s] == Slots(y, w, n)[s];
    BitGet(x, w * s, w, j);
    BitGet(y, w * s, w, j);
  }

  /** Two words with the same slots over all 32 bits are the same word. */
  lemma SlotsDetermineWord(x: Word, y: Word, w: nat, n: nat)
    requires Slots(x, w, n) == Slots(y, w, n) && w * n == 32
    ensures x == y
  {
    hide Slots, Bit;
    forall i: nat | i < 32 ensures Bit(x, i) == Bit(y, i) {
      SlotsDetermineBits(x, y, w, n, i);
    }
    WordExtensionality(x, y);
  }

  /** Several words read as one array, n slots of w bits in each. */
  function Packed(ws: seq<Word>, w: nat, n: nat): seq<nat> {
    if ws == [] then [] else Slots(ws[0], w, n) + Packed(ws[1..], w, n)
  }

  lemma TimesNext(k: int, n: int)
    ensures (k + 1) * n == k * n + n
  {
  }

  lemma {:induction false} PackedLength(ws: seq<Word>, w: nat, n: nat)
    ensures |Packed(ws, w, n)| == |ws| * n
  {
    if ws != [] {
      PackedLength(ws[1..], w, n);
      TimesNext(|ws| - 1, n);
    }
  }

  /** Updating slot s of word k updates entry k * n + s of the array. */
  lemma {:induction false} PackedUpdate(ws: seq<Word>, w: nat, n: nat, k: nat, s: nat, v: nat, x: Word, at: nat)
    requires k < |ws| && s < n && Slots(x, w, n) == Slots(ws[k], w, n)[s := v] && at == k * n + s
    ensures at < |Packed(ws, w, n)| && Packed(ws[k := x], w, n) == Packed(ws, w, n)[at := v]
    decreases k
  {
    hide Slots, Packed;
    var us := ws[k := x];
    PackedParts(ws, w, n);
    PackedParts(us, w, n);
    if k == 0 {
      assert us[1..] == ws[1..];
      UpdateHead(Slots(ws[0], w, n), Packed(ws[1..], w, n), s, v);
    } else {
      TimesNext(k - 1, n);
      PackedUpdate(ws[1..], w, n, k - 1, s, v, x, at - n);
      assert us[1..] == ws[1..][k - 1 := x];
      UpdateTail(Slots(ws[0], w, n), Packed(ws[1..], w, n), at - n, v);
    }
  }

  lemma PackedParts(ws: seq<Word>, w: nat, n: nat)
    requires ws != []
    ensures Packed(ws, w, n) == Slots(ws[0], w, n) + Packed(ws[1..], w, n) && |Slots(ws[0], w, n)| == n
  {
  }

  lemma UpdateHead(a: seq<nat>, b: seq<nat>, i: nat, v: nat)
    requires i < |a|
    ensures (a + b)[i := v] == a[i := v] + b
  {
  }

  lemma UpdateTail(a: seq<nat>, b: seq<nat>, i: nat, v: nat)
    requires i < |b|
    ensures (a + b)[|a| + i := v] == a + b[i := v]
  {
  }

  /** So replacing one slot of one word is one update of the array. */
  lemma PackedPut(ws: seq<Word>, w: nat, n: nat, k: nat, s: nat, v: nat, pos: nat, at: nat)
    requires w * n <= 32 && k < |ws| && s < n && v < Pow2(w) && pos == w * s && at == k * n + s
    ensures pos + w <= 32 && at < |Packed(ws, w, n)|
    ensures Packed(ws[k := Put(ws[k], pos, w, v)], w, n) == Packed(ws, w, n)[at := v]
  {
    hide Put, Pow2, Slots, Packed;
    SlotsPut(ws[k], w, n, s, v);
    PackedUpdate(ws, w, n, k, s, v, Put(ws[k], pos, w, v), at);
  }
}
