/** The three checksums of grbl/crc.c, and the polynomial divisions two of them stand for. */
module Crc {

  type Bits = seq<bool>

  // ----- division of polynomials over GF(2) -----

  /** The divisors without x^16: V.41 is x^16 + x^12 + x^5 + 1, MODBUS x^16 + x^15 + x^2 + 1. */
  const V41: bv16 := 0x1021
  const MODBUS: bv16 := 0x8005

  predicate Top(r: bv16) { r & 0x8000 != 0 }

  predicate Odd(r: bv16) { r & 1 != 0 }

  function Shl(r: bv16): bv16 { r << 1 }

  function Xor(a: bv16, b: bv16): bv16 { a ^ b }

  function Low(b: bool): bv16 { if b then 1 else 0 }

  function High(b: bool): bv16 { if b then 0x8000 else 0 }

  /** r times x, modulo the divisor. */
  function TimesX(p: bv16, r: bv16): bv16 {
    if Top(r) then Xor(Shl(r), p) else Shl(r)
  }

  function TimesXToThe(p: bv16, n: nat, r: bv16): bv16 {
    if n == 0 then r else TimesX(p, TimesXToThe(p, n - 1, r))
  }

  /** Remainder of the polynomial whose coefficients are the bits, highest first. */
  function Remainder(p: bv16, s: Bits): bv16 {
    if s == [] then 0 else Xor(TimesX(p, Remainder(p, s[..|s| - 1])), Low(s[|s| - 1]))
  }

  /** The shift register: bits enter at the top end. */
  function Register(p: bv16, init: bv16, s: Bits): bv16 {
    if s == [] then init else TimesX(p, Xor(Register(p, init, s[..|s| - 1]), High(s[|s| - 1])))
  }

  function Zeros(n: nat): (s: Bits)
    ensures |s| == n
  {
    seq(n, i => false)
  }

  // ----- laws of single steps -----

  lemma XorLaws(a: bv16, b: bv16, c: bv16)
    ensures Xor(Xor(a, b), c) == Xor(a, Xor(b, c))
    ensures Xor(a, b) == Xor(b, a)
    ensures Xor(a, 0) == a && Xor(a, a) == 0
  {
  }

  lemma XorCancels(a: bv16, b: bv16, c: bv16)
    requires Xor(a, c) == Xor(b, c) || Xor(c, a) == Xor(c, b)
    ensures a == b
  {
    assert a == Xor(Xor(a, c), c) && b == Xor(Xor(b, c), c);
    assert a == Xor(c, Xor(c, a)) && b == Xor(c, Xor(c, b));
  }

  lemma TopXor(a: bv16, b: bv16)
    ensures Top(Xor(a, b)) <==> Top(a) != Top(b)
    ensures Shl(Xor(a, b)) == Xor(Shl(a), Shl(b))
  {
  }

  lemma ShlInjective(a: bv16, b: bv16)
    requires Shl(a) == Shl(b) && Top(a) == Top(b)
    ensures a == b
  {
  }

  lemma ShlEven(a: bv16, p: bv16)
    requires Odd(p)
    ensures !Odd(Shl(a)) && Odd(Xor(Shl(a), p)) && Odd(Xor(Shl(a), 1))
  {
  }

  lemma TimesXLinear(p: bv16, a: bv16, b: bv16)
    ensures TimesX(p, Xor(a, b)) == Xor(TimesX(p, a), TimesX(p, b))
  {
    hide Top, Shl, Xor;
    TopXor(a, b);
    var u, v := Shl(a), Shl(b);
    XorLaws(Xor(u, p), p, v);
    XorLaws(u, p, v);
    XorLaws(u, v, p);
    XorLaws(u, p, p);
    XorLaws(p, v, p);
    XorLaws(v, p, p);
    XorLaws(u, p, Xor(p, v));
    XorLaws(u, p, Xor(v, p));
    XorLaws(p, p, v);
    XorLaws(v, p, 0);
  }

  lemma TimesXInjective(p: bv16, a: bv16, b: bv16)
    requires Odd(p) && TimesX(p, a) == TimesX(p, b)
    ensures a == b
  {
    hide Top, Shl, Xor, Odd;
    ShlEven(a, p);
    ShlEven(b, p);
    if Top(a) && Top(b) {
      XorCancels(Shl(a), Shl(b), p);
    }
    ShlInjective(a, b);
  }

  lemma {:induction false} PowerLinear(p: bv16, n: nat, a: bv16, b: bv16)
    ensures TimesXToThe(p, n, Xor(a, b)) == Xor(TimesXToThe(p, n, a), TimesXToThe(p, n, b))
  {
    hide TimesX, Xor;
    if n > 0 {
      PowerLinear(p, n - 1, a, b);
      TimesXLinear(p, TimesXToThe(p, n - 1, a), TimesXToThe(p, n - 1, b));
    }
  }

  lemma {:induction false} PowerAdds(p: bv16, m: nat, n: nat, a: bv16)
    ensures TimesXToThe(p, m + n, a) == TimesXToThe(p, n, TimesXToThe(p, m, a))
  {
    hide TimesX;
    if n > 0 { PowerAdds(p, m, n - 1, a); }
  }

  lemma {:induction false} PowerInjective(p: bv16, n: nat, a: bv16, b: bv16)
    requires Odd(p) && TimesXToThe(p, n, a) == TimesXToThe(p, n, b)
    ensures a == b
  {
    hide TimesX, Odd;
    if n > 0 {
      TimesXInjective(p, TimesXToThe(p, n - 1, a), TimesXToThe(p, n - 1, b));
      PowerInjective(p, n - 1, a, b);
    }
  }

  /** A bit at the bottom is at the top fifteen steps later. */
  lemma BitToTop(p: bv16, b: bool)
    ensures TimesXToThe(p, 16, Low(b)) == TimesX(p, High(b))
  {
    var one := Low(b);
    assert TimesXToThe(p, 4, one) == if b then 16 else 0 by {
      assert TimesXToThe(p, 1, one) == if b then 2 else 0;
      assert TimesXToThe(p, 2, one) == if b then 4 else 0;
      assert TimesXToThe(p, 3, one) == if b then 8 else 0;
    }
    assert TimesXToThe(p, 8, one) == if b then 256 else 0 by {
      assert TimesXToThe(p, 5, one) == if b then 32 else 0;
      assert TimesXToThe(p, 6, one) == if b then 64 else 0;
      assert TimesXToThe(p, 7, one) == if b then 128 else 0;
    }
    assert TimesXToThe(p, 12, one) == if b then 4096 else 0 by {
      assert TimesXToThe(p, 9, one) == if b then 512 else 0;
      assert TimesXToThe(p, 10, one) == if b then 1024 else 0;
      assert TimesXToThe(p, 11, one) == if b then 2048 else 0;
    }
    assert TimesXToThe(p, 13, one) == if b then 8192 else 0;
    assert TimesXToThe(p, 14, one) == if b then 16384 else 0;
    assert TimesXToThe(p, 15, one) == if b then 32768 else 0;
  }

  // ----- the register divides -----

  lemma RegisterStep(p: bv16, i: bv16, r: bv16, b: bool)
    ensures TimesX(p, Xor(Xor(i, TimesXToThe(p, 16, r)), High(b)))
         == Xor(TimesX(p, i), TimesXToThe(p, 16, Xor(TimesX(p, r), Low(b))))
  {
    hide *;
    var t := TimesXToThe(p, 16, r);
    TimesXLinear(p, Xor(i, t), High(b));
    TimesXLinear(p, i, t);
    PowerLinear(p, 16, TimesX(p, r), Low(b));
    SeventeenTimes(p, r);
    BitToTop(p, b);
    XorLaws(TimesX(p, i), TimesX(p, t), TimesX(p, High(b)));
  }

  lemma SeventeenTimes(p: bv16, r: bv16)
    ensures TimesXToThe(p, 16, TimesX(p, r)) == TimesX(p, TimesXToThe(p, 16, r))
  {
    hide TimesX;
    assert TimesX(p, r) == TimesXToThe(p, 1, r);
    PowerAdds(p, 1, 16, r);
  }

  /** The register holds the remainder of init * x^n + s * x^16, for n bits s. */
  lemma {:induction false} RegisterIsRemainder(p: bv16, init: bv16, s: Bits)
    ensures Register(p, init, s) == Xor(TimesXToThe(p, |s|, init), TimesXToThe(p, 16, Remainder(p, s)))
  {
    hide Xor, TimesX, High, Low;
    if s == [] {
      PowerLinear(p, 16, 0, 0);
      XorLaws(0, 0, 0);
      XorLaws(TimesXToThe(p, 16, 0), 0, 0);
      XorLaws(init, 0, 0);
    } else {
      var t, b := s[..|s| - 1], s[|s| - 1];
      RegisterIsRemainder(p, init, t);
      RegisterStep(p, TimesXToThe(p, |t|, init), Remainder(p, t), b);
    }
  }

  lemma {:induction false} RemainderOfZeros(p: bv16, s: Bits, n: nat)
    ensures Remainder(p, s + Zeros(n)) == TimesXToThe(p, n, Remainder(p, s))
  {
    hide Xor, TimesX;
    if n == 0 {
      assert s + Zeros(n) == s;
    } else {
      var t := s + Zeros(n);
      assert t[..|t| - 1] == s + Zeros(n - 1);
      RemainderOfZeros(p, s, n - 1);
      XorLaws(TimesXToThe(p, n, Remainder(p, s)), 0, 0);
    }
  }

  lemma {:induction false} RegisterAppend(p: bv16, init: bv16, s: Bits, t: Bits)
    ensures Register(p, init, s + t) == Register(p, Register(p, init, s), t)
  {
    hide Xor, TimesX, High;
    if t == [] {
      assert s + t == s;
    } else {
      var u := s + t;
      assert u[..|u| - 1] == s + t[..|t| - 1];
      RegisterAppend(p, init, s, t[..|t| - 1]);
    }
  }

  lemma ZeroStays(p: bv16, n: nat)
    ensures TimesXToThe(p, n, 0) == 0
  {
    hide TimesX, TimesXToThe, Xor;
    PowerLinear(p, n, 0, 0);
    XorLaws(0, 0, 0);
    XorLaws(TimesXToThe(p, n, 0), 0, 0);
  }

  // ----- short runs of bits are their own remainder -----

  /** The top k bits are clear. */
  predicate Clear(k: nat, r: bv16) {
    k == 0 || (!Top(r) && Clear(k - 1, Shl(r)))
  }

  lemma {:induction false} ClearLess(k: nat, j: nat, r: bv16)
    requires j <= k && Clear(k, r)
    ensures Clear(j, r)
  {
    hide Top, Shl;
    if j > 0 { ClearLess(k - 1, j - 1, Shl(r)); }
  }

  lemma {:induction false} ClearXor(k: nat, a: bv16, b: bv16)
    requires Clear(k, a) && Clear(k, b)
    ensures Clear(k, Xor(a, b))
  {
    hide Top, Shl, Xor;
    if k > 0 {
      TopXor(a, b);
      ClearXor(k - 1, Shl(a), Shl(b));
    }
  }

  lemma LowIsClear(b: bool)
    ensures Clear(15, Low(b))
  {
    assert Clear(0, 0x8000) && Clear(1, 0x4000) && Clear(2, 0x2000) && Clear(3, 0x1000);
    assert Clear(4, 0x800) && Clear(5, 0x400) && Clear(6, 0x200) && Clear(7, 0x100);
    assert Clear(8, 0x80) && Clear(9, 0x40) && Clear(10, 0x20) && Clear(11, 0x10);
    assert Clear(12, 8) && Clear(13, 4) && Clear(14, 2) && Clear(15, 1);
    ZeroIsClear(15);
  }

  lemma {:induction false} ZeroIsClear(k: nat)
    ensures Clear(k, 0)
  {
    if k > 0 { ZeroIsClear(k - 1); }
  }

  lemma {:induction false} ShortIsClear(p: bv16, s: Bits)
    requires |s| <= 16
    ensures Clear(16 - |s|, Remainder(p, s))
  {
    hide Xor, Shl, Top, Low;
    if s == [] {
      ZeroIsClear(16);
    } else {
      var t, b := s[..|s| - 1], s[|s| - 1];
      ShortIsClear(p, t);
      LowIsClear(b);
      ClearLess(15, 16 - |s|, Low(b));
      ClearXor(16 - |s|, Shl(Remainder(p, t)), Low(b));
    }
  }

  lemma LastBit(a: bv16, b: bv16, x: bool, y: bool)
    requires Xor(Shl(a), Low(x)) == Xor(Shl(b), Low(y)) && !Top(a) && !Top(b)
    ensures a == b && x == y
  {
    hide Xor, Shl, Top, Odd;
    ShlEven(a, 1);
    ShlEven(b, 1);
    XorLaws(Shl(a), 0, 0);
    XorLaws(Shl(b), 0, 0);
    assert x == y;
    XorCancels(Shl(a), Shl(b), Low(x));
    ShlInjective(a, b);
  }

  /** Up to sixteen bits can be read back from their remainder. */
  lemma {:induction false} ShortInjective(p: bv16, s: Bits, t: Bits)
    requires |s| == |t| <= 16 && Remainder(p, s) == Remainder(p, t)
    ensures s == t
  {
    hide Xor, Shl, Top, Low;
    if s != [] {
      var n := |s| - 1;
      ShortIsClear(p, s[..n]);
      ShortIsClear(p, t[..n]);
      LastBit(Remainder(p, s[..n]), Remainder(p, t[..n]), s[n], t[n]);
      ShortInjective(p, s[..n], t[..n]);
      assert s == s[..n] + [s[n]] && t == t[..n] + [t[n]];
    }
  }

  /** The register tells apart any two messages that differ within sixteen bits. */
  lemma BurstSeen(p: bv16, init: bv16, u: Bits, s: Bits, t: Bits, v: Bits)
    requires Odd(p) && |s| == |t| <= 16 && s != t
    ensures Register(p, init, u + s + v) != Register(p, init, u + t + v)
  {
    hide *;
    RegisterAppend(p, init, u + s, v);
    RegisterAppend(p, init, u + t, v);
    RegisterAppend(p, init, u, s);
    RegisterAppend(p, init, u, t);
    var r := Register(p, init, u);
    if Register(p, init, u + s + v) == Register(p, init, u + t + v) {
      RegisterInjective(p, Register(p, r, s), Register(p, r, t), v);
      RegisterIsRemainder(p, r, s);
      RegisterIsRemainder(p, r, t);
      XorCancels(TimesXToThe(p, 16, Remainder(p, s)), TimesXToThe(p, 16, Remainder(p, t)), TimesXToThe(p, |s|, r));
      PowerInjective(p, 16, Remainder(p, s), Remainder(p, t));
      ShortInjective(p, s, t);
    }
  }

  lemma RegisterInjective(p: bv16, a: bv16, b: bv16, v: Bits)
    requires Odd(p) && Register(p, a, v) == Register(p, b, v)
    ensures a == b
  {
    hide *;
    RegisterIsRemainder(p, a, v);
    RegisterIsRemainder(p, b, v);
    XorCancels(TimesXToThe(p, |v|, a), TimesXToThe(p, |v|, b), TimesXToThe(p, 16, Remainder(p, v)));
    PowerInjective(p, |v|, a, b);
  }

  // ----- bytes -----

  /** A byte as bits, highest first and lowest first. */
  function HighFirst(b: bv8): (s: Bits)
    ensures |s| == 8
  {
    [b & 0x80 != 0, b & 0x40 != 0, b & 0x20 != 0, b & 0x10 != 0, b & 8 != 0, b & 4 != 0, b & 2 != 0, b & 1 != 0]
  }

  function LowFirst(b: bv8): (s: Bits)
    ensures |s| == 8
  {
    [b & 1 != 0, b & 2 != 0, b & 4 != 0, b & 8 != 0, b & 0x10 != 0, b & 0x20 != 0, b & 0x40 != 0, b & 0x80 != 0]
  }

  function AllHighFirst(m: seq<bv8>): (s: Bits)
    ensures |s| == 8 * |m|
  {
    if m == [] then [] else AllHighFirst(m[..|m| - 1]) + HighFirst(m[|m| - 1])
  }

  function AllLowFirst(m: seq<bv8>): (s: Bits)
    ensures |s| == 8 * |m|
  {
    if m == [] then [] else AllLowFirst(m[..|m| - 1]) + LowFirst(m[|m| - 1])
  }

  /** The eight highest bits of w. */
  predicate TopBits(w: bv16, s: Bits)
    requires |s| == 8
  {
    && s[0] == Odd(w >> 15) && s[1] == Odd(w >> 14) && s[2] == Odd(w >> 13) && s[3] == Odd(w >> 12)
    && s[4] == Odd(w >> 11) && s[5] == Odd(w >> 10) && s[6] == Odd(w >> 9) && s[7] == Odd(w >> 8)
  }

  /** v is w without its last bit. */
  predicate Half(v: bv16, w: bv16) {
    w >> 1 == v && !Top(w)
  }

  lemma ShiftIn(p: bv16, v: bv16, w: bv16)
    requires Half(v, w)
    ensures Xor(TimesX(p, v), Low(Odd(w))) == w
  {
    HalfUp(v, w);
    if Odd(w) { HalfUpOdd(v, w); }
    hide Top, Shl, Xor, Odd;
    XorLaws(Shl(v), 0, 0);
  }

  lemma HalfUp(v: bv16, w: bv16)
    requires Half(v, w)
    ensures !Top(v)
    ensures !Odd(w) ==> w == Shl(v)
  {
  }

  lemma HalfUpOdd(v: bv16, w: bv16)
    requires Half(v, w) && Odd(w)
    ensures w == Xor(Shl(v), 1)
  {
  }

  lemma RemainderStep(p: bv16, s: Bits, k: nat, v: bv16, w: bv16)
    requires k < |s| && Remainder(p, s[..k]) == v && s[k] == Odd(w) && Half(v, w)
    ensures Remainder(p, s[..k + 1]) == w
  {
    hide Xor, TimesX, Odd, Half, Low;
    ShiftIn(p, v, w);
    assert s[..k + 1][..k] == s[..k];
  }

  lemma Halves(w: bv16)
    ensures Half(0, w >> 15) && Half(w >> 15, w >> 14) && Half(w >> 14, w >> 13) && Half(w >> 13, w >> 12)
    ensures Half(w >> 12, w >> 11) && Half(w >> 11, w >> 10) && Half(w >> 10, w >> 9) && Half(w >> 9, w >> 8)
  {
  }

  /** Eight bits are their own remainder. */
  lemma RemainderOfEight(p: bv16, s: Bits, w: bv16)
    requires |s| == 8 && TopBits(w, s)
    ensures Remainder(p, s) == w >> 8
  {
    Halves(w);
    EightSteps(p, s, w >> 15, w >> 14, w >> 13, w >> 12, w >> 11, w >> 10, w >> 9, w >> 8);
  }

  lemma NoRemainder(p: bv16, s: Bits)
    ensures Remainder(p, s[..0]) == 0
  {
  }

  lemma EightSteps(p: bv16, s: Bits, a: bv16, b: bv16, c: bv16, d: bv16, e: bv16, f: bv16, g: bv16, h: bv16)
    requires |s| == 8
    requires Half(0, a) && Half(a, b) && Half(b, c) && Half(c, d) && Half(d, e) && Half(e, f) && Half(f, g)
             && Half(g, h)
    requires s[0] == Odd(a) && s[1] == Odd(b) && s[2] == Odd(c) && s[3] == Odd(d)
    requires s[4] == Odd(e) && s[5] == Odd(f) && s[6] == Odd(g) && s[7] == Odd(h)
    ensures Remainder(p, s) == h
  {
    hide *;
    NoRemainder(p, s);
    RemainderStep(p, s, 0, 0, a);
    RemainderStep(p, s, 1, a, b);
    RemainderStep(p, s, 2, b, c);
    RemainderStep(p, s, 3, c, d);
    RemainderStep(p, s, 4, d, e);
    RemainderStep(p, s, 5, e, f);
    RemainderStep(p, s, 6, f, g);
    RemainderStep(p, s, 7, g, h);
    assert s[..8] == s;
  }

  /** The register after the bits of a byte is eight steps from the byte laid over its top. */
  lemma ByteAtOnce(p: bv16, r: bv16, s: Bits, w: bv16)
    requires |s| == 8 && TopBits(w, s) && w & 0xFF == 0
    ensures Register(p, r, s) == TimesXToThe(p, 8, Xor(r, w))
  {
    hide *;
    RemainderOfEight(p, s, w);
    RegisterIsRemainder(p, r, s);
    PowerAdds(p, 8, 8, w >> 8);
    EightUp(p, w);
    PowerLinear(p, 8, r, w);
  }

  lemma StepUp(p: bv16, n: nat, v: bv16, a: bv16)
    requires TimesXToThe(p, n, v) == a && !Top(a)
    ensures TimesXToThe(p, n + 1, v) == Shl(a)
  {
    hide Top, Shl, Xor;
  }

  lemma EightUp(p: bv16, w: bv16)
    requires w & 0xFF == 0
    ensures TimesXToThe(p, 8, w >> 8) == w
  {
    hide *;
    EightClear(w);
    NoSteps(p, w >> 8);
    StepUp(p, 0, w >> 8, w >> 8);
    StepUp(p, 1, w >> 8, Shl(w >> 8));
    StepUp(p, 2, w >> 8, Shl(Shl(w >> 8)));
    StepUp(p, 3, w >> 8, Shl(Shl(Shl(w >> 8))));
    StepUp(p, 4, w >> 8, Shl(Shl(Shl(Shl(w >> 8)))));
    StepUp(p, 5, w >> 8, Shl(Shl(Shl(Shl(Shl(w >> 8))))));
    StepUp(p, 6, w >> 8, Shl(Shl(Shl(Shl(Shl(Shl(w >> 8)))))));
    StepUp(p, 7, w >> 8, Shl(Shl(Shl(Shl(Shl(Shl(Shl(w >> 8))))))));
  }

  lemma NoSteps(p: bv16, v: bv16)
    ensures TimesXToThe(p, 0, v) == v
  {
  }

  lemma EightClear(w: bv16)
    requires w & 0xFF == 0
    ensures var v := w >> 8;
            && !Top(v) && !Top(Shl(v)) && !Top(Shl(Shl(v))) && !Top(Shl(Shl(Shl(v))))
            && !Top(Shl(Shl(Shl(Shl(v))))) && !Top(Shl(Shl(Shl(Shl(Shl(v))))))
            && !Top(Shl(Shl(Shl(Shl(Shl(Shl(v))))))) && !Top(Shl(Shl(Shl(Shl(Shl(Shl(Shl(v))))))))
            && Shl(Shl(Shl(Shl(Shl(Shl(Shl(Shl(v)))))))) == w
  {
  }

  lemma BitsOfByte(b: bv8)
    ensures TopBits((b as bv16) << 8, HighFirst(b)) && ((b as bv16) << 8) & 0xFF == 0
  {
  }

  lemma ReversedBitsOfByte(b: bv8)
    ensures TopBits(Reversed(b as bv16), LowFirst(b)) && Reversed(b as bv16) & 0xFF == 0
  {
  }

  /** The bits of a word in the opposite order. */
  function Reversed(a: bv16): bv16 {
    var b := ((a & 0x5555) << 1) | ((a >> 1) & 0x5555);
    var c := ((b & 0x3333) << 2) | ((b >> 2) & 0x3333);
    var d := ((c & 0x0F0F) << 4) | ((c >> 4) & 0x0F0F);
    (d << 8) | (d >> 8)
  }

  lemma ReversedShift(a: bv16)
    ensures Reversed(a >> 1) == Shl(Reversed(a)) && (Top(Reversed(a)) <==> Odd(a))
  {
  }

  lemma ReversedXor(a: bv16, b: bv16)
    ensures Reversed(Xor(a, b)) == Xor(Reversed(a), Reversed(b))
  {
  }

  lemma ReversedTwice(a: bv16)
    ensures Reversed(Reversed(a)) == a
  {
  }

  /** Different bytes have different bits. */
  lemma BytesDiffer(a: bv8, b: bv8)
    requires a != b
    ensures HighFirst(a) != HighFirst(b) && LowFirst(a) != LowFirst(b)
  {
    hide *;
    if HighFirst(a) == HighFirst(b) {
      BitsOfByte(a);
      BitsOfByte(b);
      RemainderOfEight(V41, HighFirst(a), (a as bv16) << 8);
      RemainderOfEight(V41, HighFirst(b), (b as bv16) << 8);
      WideInjective(a, b);
    }
    OppositeOrder(a);
    OppositeOrder(b);
  }

  lemma WideInjective(a: bv8, b: bv8)
    requires ((a as bv16) << 8) >> 8 == ((b as bv16) << 8) >> 8
    ensures a == b
  {
  }

  lemma OppositeOrder(b: bv8)
    ensures var s := LowFirst(b); HighFirst(b) == [s[7], s[6], s[5], s[4], s[3], s[2], s[1], s[0]]
  {
  }

  // ----- ccitt_crc16 -----

  function Mixed(x: bv16): bv16 { x ^ (x >> 4) }

  function Spread(crc: bv16, y: bv16): bv16 { (crc << 8) ^ (y << 12) ^ (y << 5) ^ y }

  /** One turn of the fast loop. */
  function CcittTurn(crc: bv16, b: bv8): bv16 {
    Spread(crc, Mixed((crc >> 8) ^ (b as bv16)))
  }

  /** t times the divisor V.41, for t of four bits. */
  function Taps(t: bv16): bv16 { (t << 12) ^ (t << 5) ^ t }

  function OneUp(r: bv16): bv16 { (r << 1) ^ Taps(r >> 15) }

  function TwoUp(r: bv16): bv16 { (r << 2) ^ Taps(r >> 14) }

  function FourUp(r: bv16): bv16 { (r << 4) ^ Taps(r >> 12) }

  function ByteUp(r: bv16): bv16 { (r << 8) ^ Taps((r >> 8) ^ (r >> 12)) }

  lemma OneUpIsStep(r: bv16)
    ensures OneUp(r) == TimesX(V41, r)
  {
    if Top(r) { assert r >> 15 == 1; } else { assert r >> 15 == 0; }
  }

  lemma TwoUpIs(r: bv16)
    ensures TwoUp(r) == OneUp(OneUp(r))
  {
  }

  lemma FourUpIs(r: bv16)
    ensures FourUp(r) == TwoUp(TwoUp(r))
  {
  }

  lemma XorSwap(a: bv16, b: bv16, c: bv16, d: bv16)
    ensures Xor(Xor(a, b), Xor(c, d)) == Xor(Xor(a, c), Xor(b, d))
  {
    hide *;
    XorLaws(a, b, Xor(c, d));
    XorLaws(b, c, d);
    XorLaws(c, b, d);
    XorLaws(a, c, Xor(b, d));
  }

  lemma TapsIs(t: bv16)
    ensures Taps(t) == Xor(Xor(t << 12, t << 5), t)
    ensures Taps(t << 4) == Taps(t) << 4
  {
  }

  lemma ShiftsLinear(a: bv16, b: bv16)
    ensures Xor(a, b) << 12 == Xor(a << 12, b << 12) && Xor(a, b) << 5 == Xor(a << 5, b << 5)
  {
  }

  lemma TapsLinear(a: bv16, b: bv16)
    ensures Taps(Xor(a, b)) == Xor(Taps(a), Taps(b))
  {
    hide *;
    TapsIs(a);
    TapsIs(b);
    TapsIs(Xor(a, b));
    ShiftsLinear(a, b);
    XorSwap(a << 12, b << 12, a << 5, b << 5);
    XorSwap(Xor(a << 12, a << 5), Xor(b << 12, b << 5), a, b);
  }

  lemma FourUpParts(r: bv16)
    ensures FourUp(r) >> 12 == Xor((r >> 8) & 0xF, r >> 12)
    ensures FourUp(r) << 4 == Xor(r << 8, Taps(r >> 12) << 4)
    ensures r >> 8 == Xor((r >> 8) & 0xF, (r >> 12) << 4)
  {
  }

  lemma UpIs(r: bv16)
    ensures FourUp(r) == Xor(r << 4, Taps(r >> 12))
    ensures ByteUp(r) == Xor(r << 8, Taps(Xor(r >> 8, r >> 12)))
  {
    hide Taps;
  }

  lemma ByteUpIs(r: bv16)
    ensures ByteUp(r) == FourUp(FourUp(r))
  {
    hide *;
    UpIs(r);
    UpIs(FourUp(r));
    FourUpParts(r);
    var a, t := (r >> 8) & 0xF, r >> 12;
    TapsIs(t);
    TapsLinear(a, t);
    TapsLinear(a, t << 4);
    TapsLinear(r >> 8, t);
    var lead, k, l, m := r << 8, Taps(a), Taps(t << 4), Taps(t);
    XorLaws(k, l, m);
    XorLaws(l, k, m);
    XorLaws(lead, l, Xor(k, m));
  }

  /** The fast turn is eight steps of the division. */
  lemma ByteUpIsEight(r: bv16)
    ensures ByteUp(r) == TimesXToThe(V41, 8, r)
  {
    hide *;
    ByteUpIs(r);
    FourUpIsFour(r);
    FourUpIsFour(FourUp(r));
    PowerAdds(V41, 4, 4, r);
  }

  lemma FourUpIsFour(r: bv16)
    ensures FourUp(r) == TimesXToThe(V41, 4, r)
  {
    hide *;
    FourUpIs(r);
    TwoUpIsTwo(r);
    TwoUpIsTwo(TwoUp(r));
    PowerAdds(V41, 2, 2, r);
  }

  lemma TwoUpIsTwo(r: bv16)
    ensures TwoUp(r) == TimesXToThe(V41, 2, r)
  {
    hide OneUp, TwoUp, TimesX;
    TwoUpIs(r);
    OneUpIsStep(r);
    OneUpIsStep(OneUp(r));
    assert TimesXToThe(V41, 1, r) == TimesX(V41, r);
  }

  lemma TurnIsByteUp(crc: bv16, b: bv8)
    ensures CcittTurn(crc, b) == ByteUp(Xor(crc, (b as bv16) << 8))
  {
    hide *;
    TurnParts(crc, b);
    UpIs(Xor(crc, (b as bv16) << 8));
    var x := Xor(crc >> 8, b as bv16);
    var y := Xor(x, x >> 4);
    TapsIs(y);
    XorLaws(crc << 8, Xor(y << 12, y << 5), y);
    XorLaws(crc << 8, y << 12, y << 5);
  }

  lemma TurnParts(crc: bv16, b: bv8)
    ensures var x := Xor(crc >> 8, b as bv16); var y := Xor(x, x >> 4);
            && CcittTurn(crc, b) == Xor(Xor(Xor(crc << 8, y << 12), y << 5), y)
            && Xor(crc, (b as bv16) << 8) << 8 == crc << 8
            && Xor(crc, (b as bv16) << 8) >> 8 == x
            && Xor(crc, (b as bv16) << 8) >> 12 == x >> 4
  {
    hide *;
    TurnIs(crc, b);
    WithByte(crc, b as bv16);
  }

  lemma TurnIs(crc: bv16, b: bv8)
    ensures var x := Xor(crc >> 8, b as bv16); var y := Xor(x, x >> 4);
            CcittTurn(crc, b) == Xor(Xor(Xor(crc << 8, y << 12), y << 5), y)
  {
    hide Mixed, Spread, Xor;
    XorIs(crc >> 8, b as bv16);
    var x := Xor(crc >> 8, b as bv16);
    MixedIs(x);
    SpreadIs(crc, Mixed(x));
  }

  lemma MixedIs(x: bv16)
    ensures Mixed(x) == x ^ (x >> 4) == Xor(x, x >> 4)
  {
  }

  lemma SpreadIs(crc: bv16, y: bv16)
    ensures Spread(crc, y) == (crc << 8) ^ (y << 12) ^ (y << 5) ^ y == Xor(Xor(Xor(crc << 8, y << 12), y << 5), y)
  {
  }

  lemma WithByte(crc: bv16, b: bv16)
    ensures Xor(crc, b << 8) << 8 == crc << 8
    ensures Xor(crc, b << 8) >> 8 == Xor(crc >> 8, (b << 8) >> 8)
  {
  }

  /** What ccitt_crc16 computes, turn by turn. */
  function CcittFold(m: seq<bv8>): bv16 {
    if m == [] then 0 else CcittTurn(CcittFold(m[..|m| - 1]), m[|m| - 1])
  }

  lemma {:induction false} CcittFoldIsRegister(m: seq<bv8>)
    ensures CcittFold(m) == Register(V41, 0, AllHighFirst(m))
  {
    hide CcittTurn, TimesX, Xor, High, HighFirst;
    if m != [] {
      var t, b := m[..|m| - 1], m[|m| - 1];
      CcittFoldIsRegister(t);
      RegisterAppend(V41, 0, AllHighFirst(t), HighFirst(b));
      TurnIsRegister(CcittFold(t), b);
    }
  }

  lemma TurnIsRegister(crc: bv16, b: bv8)
    ensures CcittTurn(crc, b) == Register(V41, crc, HighFirst(b))
  {
    hide *;
    BitsOfByte(b);
    ByteAtOnce(V41, crc, HighFirst(b), (b as bv16) << 8);
    TurnIsByteUp(crc, b);
    ByteUpIsEight(Xor(crc, (b as bv16) << 8));
  }

  /** The fast loop computes the remainder of the message followed by sixteen zeros. */
  lemma CcittIsDivision(m: seq<bv8>)
    ensures CcittFold(m) == Remainder(V41, AllHighFirst(m) + Zeros(16))
  {
    hide *;
    CcittFoldIsRegister(m);
    RegisterIsRemainder(V41, 0, AllHighFirst(m));
    RemainderOfZeros(V41, AllHighFirst(m), 16);
    ZeroStays(V41, |AllHighFirst(m)|);
    XorLaws(0, Remainder(V41, AllHighFirst(m) + Zeros(16)), 0);
    XorLaws(Remainder(V41, AllHighFirst(m) + Zeros(16)), 0, 0);
  }

  method CcittCrc16(buf: array<bv8>, len: nat) returns (crc: bv16)
    requires len <= buf.Length
    ensures crc == Remainder(V41, AllHighFirst(buf[..len]) + Zeros(16))
  {
    hide *;
    NothingFolded();
    crc := 0;
    var i := 0;
    assert buf[..0] == [];
    while i < len
      invariant i <= len && crc == CcittFold(buf[..i])
    {
      var x := (crc >> 8) ^ (buf[i] as bv16);
      TurnOf(crc, buf[i]);
      MixedIs(x);
      x := x ^ (x >> 4);
      SpreadIs(crc, x);
      CcittFoldMore(buf[..i], buf[i]);
      assert buf[..i + 1] == buf[..i] + [buf[i]];
      crc := (crc << 8) ^ (x << 12) ^ (x << 5) ^ x;
      i := i + 1;
    }
    CcittIsDivision(buf[..len]);
  }

  lemma NothingFolded()
    ensures CcittFold([]) == 0 && ModbusFold([]) == 0xFFFF && SumFold([]) == 0
  {
  }

  lemma CcittFoldMore(m: seq<bv8>, b: bv8)
    ensures CcittFold(m + [b]) == CcittTurn(CcittFold(m), b)
  {
    hide CcittTurn;
    assert (m + [b])[..|m|] == m;
  }

  lemma TurnOf(crc: bv16, b: bv8)
    ensures CcittTurn(crc, b) == Spread(crc, Mixed((crc >> 8) ^ (b as bv16)))
  {
  }

  // ----- modbus_crc16x -----

  function ModbusShift(c: bv16): bv16 {
    if c & 1 != 0 then (c >> 1) ^ 0xA001 else c >> 1
  }

  function ModbusShifts(n: nat, c: bv16): bv16 {
    if n == 0 then c else ModbusShift(ModbusShifts(n - 1, c))
  }

  function ModbusFold(m: seq<bv8>): bv16 {
    if m == [] then 0xFFFF else ModbusShifts(8, ModbusFold(m[..|m| - 1]) ^ (m[|m| - 1] as bv16))
  }

  /** Read from the other end, a shift is a step of the division. */
  lemma ShiftReversed(c: bv16)
    ensures Reversed(ModbusShift(c)) == TimesX(MODBUS, Reversed(c))
  {
    hide Top, Shl, Reversed;
    ShiftIs(c);
    ReversedShift(c);
    ReversedXor(c >> 1, 0xA001);
    ReversedDivisor();
  }

  lemma ShiftIs(c: bv16)
    ensures ModbusShift(c) == if Odd(c) then Xor(c >> 1, 0xA001) else c >> 1
  {
  }

  lemma ReversedDivisor()
    ensures Reversed(0xA001) == MODBUS && Reversed(0xFFFF) == 0xFFFF
  {
  }

  lemma {:induction false} ShiftsReversed(n: nat, c: bv16)
    ensures Reversed(ModbusShifts(n, c)) == TimesXToThe(MODBUS, n, Reversed(c))
  {
    hide Reversed, TimesX, ModbusShift;
    if n > 0 {
      ShiftsReversed(n - 1, c);
      ShiftReversed(ModbusShifts(n - 1, c));
    }
  }

  lemma {:induction false} ModbusFoldIsRegister(m: seq<bv8>)
    ensures Reversed(ModbusFold(m)) == Register(MODBUS, 0xFFFF, AllLowFirst(m))
  {
    hide Reversed, TimesX, ModbusShifts, Xor, High, LowFirst;
    if m == [] {
      ReversedDivisor();
    } else {
      var t, b := m[..|m| - 1], m[|m| - 1];
      ModbusFoldIsRegister(t);
      RegisterAppend(MODBUS, 0xFFFF, AllLowFirst(t), LowFirst(b));
      ModbusTurn(ModbusFold(t), b);
    }
  }

  lemma ModbusTurn(c: bv16, b: bv8)
    ensures Reversed(ModbusShifts(8, c ^ (b as bv16))) == Register(MODBUS, Reversed(c), LowFirst(b))
  {
    hide *;
    ShiftsReversed(8, c ^ (b as bv16));
    XorIs(c, b as bv16);
    ReversedXor(c, b as bv16);
    ReversedBitsOfByte(b);
    ByteAtOnce(MODBUS, Reversed(c), LowFirst(b), Reversed(b as bv16));
  }

  lemma XorIs(a: bv16, b: bv16)
    ensures Xor(a, b) == a ^ b
  {
  }

  /** The MODBUS check is the remainder of the message begun with ones and followed by sixteen
      zeros, bits taken lowest first and the check read lowest bit first too. */
  lemma ModbusIsDivision(m: seq<bv8>)
    ensures ModbusFold(m) ==
            Reversed(Xor(TimesXToThe(MODBUS, 8 * |m|, 0xFFFF), Remainder(MODBUS, AllLowFirst(m) + Zeros(16))))
  {
    hide *;
    ModbusFoldIsRegister(m);
    ReversedTwice(ModbusFold(m));
    RegisterIsRemainder(MODBUS, 0xFFFF, AllLowFirst(m));
    RemainderOfZeros(MODBUS, AllLowFirst(m), 16);
  }

  method ModbusCrc16x(buf: array<bv8>, len: nat) returns (crc: bv16)
    requires len <= buf.Length
    ensures crc == ModbusFold(buf[..len])
  {
    hide *;
    NothingFolded();
    crc := 0xFFFF;
    var i := 0;
    assert buf[..0] == [];
    while i < len
      invariant i <= len && crc == ModbusFold(buf[..i])
    {
      ghost var before := crc ^ (buf[i] as bv16);
      crc := crc ^ (buf[i] as bv16);
      NoShifts(before);
      var n := 8;
      while n != 0
        invariant 0 <= n <= 8 && crc == ModbusShifts(8 - n, before)
      {
        OneShift(8 - n, before, crc);
        if crc & 1 != 0 {
          crc := crc >> 1;
          crc := crc ^ 0xA001;
        } else {
          crc := crc >> 1;
        }
        n := n - 1;
      }
      OneMoreModbus(buf[..], i);
      assert buf[..][..i] == buf[..i] && buf[..][..i + 1] == buf[..i + 1];
      i := i + 1;
    }
  }

  lemma NoShifts(c: bv16)
    ensures ModbusShifts(0, c) == c
  {
  }

  lemma OneShift(n: nat, c: bv16, crc: bv16)
    requires crc == ModbusShifts(n, c)
    ensures ModbusShifts(n + 1, c) == if crc & 1 != 0 then (crc >> 1) ^ 0xA001 else crc >> 1
  {
  }

  lemma OneMoreModbus(m: seq<bv8>, i: nat)
    requires i < |m|
    ensures ModbusFold(m[..i + 1]) == ModbusShifts(8, ModbusFold(m[..i]) ^ (m[i] as bv16))
  {
    assert m[..i + 1][..i] == m[..i];
  }

  // ----- grbl_crc8 -----

  function Rotated(c: bv8): bv8 { (c << 1) | (c >> 7) }

  function SumFold(m: seq<bv8>): bv8 {
    if m == [] then 0 else Rotated(SumFold(m[..|m| - 1])) + m[|m| - 1]
  }

  method GrblCrc8(buf: array<bv8>, size: nat) returns (checksum: bv8)
    requires size <= buf.Length
    ensures checksum == SumFold(buf[..size])
  {
    hide *;
    NothingFolded();
    checksum := 0;
    var i := 0;
    assert buf[..0] == [];
    while i < size
      invariant i <= size && checksum == SumFold(buf[..i])
    {
      OneMoreSum(buf[..], i);
      assert buf[..][..i] == buf[..i] && buf[..][..i + 1] == buf[..i + 1];
      checksum := (checksum << 1) | (checksum >> 7);
      checksum := checksum + buf[i];
      i := i + 1;
    }
  }

  lemma OneMoreSum(m: seq<bv8>, i: nat)
    requires i < |m|
    ensures SumFold(m[..i + 1]) == ((SumFold(m[..i]) << 1) | (SumFold(m[..i]) >> 7)) + m[i]
  {
    assert m[..i + 1][..i] == m[..i];
  }

  // ----- what the checks find -----

  lemma {:induction false} AllHighFirstAppend(m: seq<bv8>, n: seq<bv8>)
    ensures AllHighFirst(m + n) == AllHighFirst(m) + AllHighFirst(n)
  {
    hide HighFirst;
    if n == [] {
      assert m + n == m;
    } else {
      assert (m + n)[..|m + n| - 1] == m + n[..|n| - 1];
      AllHighFirstAppend(m, n[..|n| - 1]);
    }
  }

  lemma {:induction false} AllLowFirstAppend(m: seq<bv8>, n: seq<bv8>)
    ensures AllLowFirst(m + n) == AllLowFirst(m) + AllLowFirst(n)
  {
    hide LowFirst;
    if n == [] {
      assert m + n == m;
    } else {
      assert (m + n)[..|m + n| - 1] == m + n[..|n| - 1];
      AllLowFirstAppend(m, n[..|n| - 1]);
    }
  }

  /** ccitt_crc16 tells apart any two messages whose bits differ within a run of sixteen. */
  lemma CcittSeesBursts(m: seq<bv8>, n: seq<bv8>, u: Bits, s: Bits, t: Bits, v: Bits)
    requires AllHighFirst(m) == u + s + v && AllHighFirst(n) == u + t + v
    requires |s| == |t| <= 16 && s != t
    ensures CcittFold(m) != CcittFold(n)
  {
    hide *;
    DivisorsOdd();
    CcittFoldIsRegister(m);
    CcittFoldIsRegister(n);
    BurstSeen(V41, 0, u, s, t, v);
  }

  lemma DivisorsOdd()
    ensures Odd(V41) && Odd(MODBUS)
  {
  }

  /** So does modbus_crc16x, in the order in which the bits of a byte are sent. */
  lemma ModbusSeesBursts(m: seq<bv8>, n: seq<bv8>, u: Bits, s: Bits, t: Bits, v: Bits)
    requires AllLowFirst(m) == u + s + v && AllLowFirst(n) == u + t + v
    requires |s| == |t| <= 16 && s != t
    ensures ModbusFold(m) != ModbusFold(n)
  {
    hide *;
    DivisorsOdd();
    ModbusFoldIsRegister(m);
    ModbusFoldIsRegister(n);
    BurstSeen(MODBUS, 0xFFFF, u, s, t, v);
  }

  lemma BitsAround(a: seq<bv8>, b: bv8, c: seq<bv8>)
    ensures AllHighFirst(a + [b] + c) == AllHighFirst(a) + HighFirst(b) + AllHighFirst(c)
    ensures AllLowFirst(a + [b] + c) == AllLowFirst(a) + LowFirst(b) + AllLowFirst(c)
  {
    hide HighFirst, LowFirst;
    AllHighFirstAppend(a + [b], c);
    AllHighFirstAppend(a, [b]);
    AllLowFirstAppend(a + [b], c);
    AllLowFirstAppend(a, [b]);
    assert [b][..0] == [];
  }

  /** One wrong byte changes every one of the three checks. */
  lemma OneByteSeen(a: seq<bv8>, b: bv8, b': bv8, c: seq<bv8>)
    requires b != b'
    ensures CcittFold(a + [b] + c) != CcittFold(a + [b'] + c)
    ensures ModbusFold(a + [b] + c) != ModbusFold(a + [b'] + c)
    ensures SumFold(a + [b] + c) != SumFold(a + [b'] + c)
  {
    hide *;
    BytesDiffer(b, b');
    BitsAround(a, b, c);
    BitsAround(a, b', c);
    CcittSeesBursts(a + [b] + c, a + [b'] + c, AllHighFirst(a), HighFirst(b), HighFirst(b'), AllHighFirst(c));
    ModbusSeesBursts(a + [b] + c, a + [b'] + c, AllLowFirst(a), LowFirst(b), LowFirst(b'), AllLowFirst(c));
    SumSees(a, b, b', c);
  }

  lemma {:induction false} SumSees(a: seq<bv8>, b: bv8, b': bv8, c: seq<bv8>)
    requires b != b'
    ensures SumFold(a + [b] + c) != SumFold(a + [b'] + c)
  {
    hide *;
    if c == [] {
      assert a + [b] + c == a + [b] && a + [b'] + c == a + [b'];
      SumFoldMore(a, b);
      SumFoldMore(a, b');
      AddDiffers(Rotated(SumFold(a)), Rotated(SumFold(a)), b, b');
    } else {
      var d, x := c[..|c| - 1], c[|c| - 1];
      assert a + [b] + c == a + [b] + d + [x] && a + [b'] + c == a + [b'] + d + [x];
      SumSees(a, b, b', d);
      SumFoldMore(a + [b] + d, x);
      SumFoldMore(a + [b'] + d, x);
      RotatedDiffers(SumFold(a + [b] + d), SumFold(a + [b'] + d));
      AddDiffers(Rotated(SumFold(a + [b] + d)), Rotated(SumFold(a + [b'] + d)), x, x);
    }
  }

  lemma SumFoldMore(m: seq<bv8>, b: bv8)
    ensures SumFold(m + [b]) == Rotated(SumFold(m)) + b
  {
    hide Rotated;
    assert (m + [b])[..|m|] == m;
  }

  lemma AddDiffers(x: bv8, y: bv8, b: bv8, c: bv8)
    requires (x == y) != (b == c)
    ensures x + b != y + c
  {
    assert x == (x + b) - b && y == (y + c) - c;
    assert b == (x + b) - x && c == (y + c) - y;
  }

  lemma RotatedDiffers(x: bv8, y: bv8)
    requires x != y
    ensures Rotated(x) != Rotated(y)
  {
    assert x == (Rotated(x) >> 1) | (Rotated(x) << 7);
    assert y == (Rotated(y) >> 1) | (Rotated(y) << 7);
  }

  function LowerByte(crc: bv16): bv8 { (crc & 0xFF) as bv8 }

  function UpperByte(crc: bv16): bv8 { (crc >> 8) as bv8 }

  /** A message with its ccitt_crc16 appended, high byte first, has the check zero. */
  lemma CcittResidue(m: seq<bv8>)
    ensures var crc := CcittFold(m); CcittFold(m + [UpperByte(crc), LowerByte(crc)]) == 0
  {
    hide *;
    var crc := CcittFold(m);
    var hi, lo := UpperByte(crc), LowerByte(crc);
    assert m + [hi, lo] == m + [hi] + [lo];
    CcittFoldMore(m, hi);
    CcittFoldMore(m + [hi], lo);
    FirstTurn(crc);
    SecondTurn(crc);
  }

  lemma FirstTurn(crc: bv16)
    ensures CcittTurn(crc, UpperByte(crc)) == crc << 8
  {
    hide *;
    TurnOf(crc, UpperByte(crc));
    UpperCancels(crc);
    SpreadOfZero(crc);
  }

  lemma UpperCancels(crc: bv16)
    ensures (crc >> 8) ^ (UpperByte(crc) as bv16) == 0 && Mixed(0) == 0
  {
  }

  lemma SpreadOfZero(crc: bv16)
    ensures Spread(crc, 0) == crc << 8
  {
  }

  lemma SecondTurn(crc: bv16)
    ensures CcittTurn(crc << 8, LowerByte(crc)) == 0
  {
  }

  /** For modbus_crc16x the low byte goes first. */
  lemma ModbusResidue(m: seq<bv8>)
    ensures var crc := ModbusFold(m); ModbusFold(m + [LowerByte(crc), UpperByte(crc)]) == 0
  {
    hide *;
    var crc := ModbusFold(m);
    var lo, hi := LowerByte(crc), UpperByte(crc);
    assert m + [lo, hi] == m + [lo] + [hi];
    ModbusFoldMore(m, lo);
    ModbusFoldMore(m + [lo], hi);
    HalvesCancel(crc);
    EightDown(crc & 0xFF00);
    EightDown(0);
  }

  lemma ModbusFoldMore(m: seq<bv8>, b: bv8)
    ensures ModbusFold(m + [b]) == ModbusShifts(8, ModbusFold(m) ^ (b as bv16))
  {
    hide ModbusShifts;
    assert (m + [b])[..|m|] == m;
  }

  lemma HalvesCancel(crc: bv16)
    ensures crc ^ (LowerByte(crc) as bv16) == crc & 0xFF00
    ensures ((crc & 0xFF00) >> 8) ^ (UpperByte(crc) as bv16) == 0
  {
  }

  lemma EightDown(c: bv16)
    requires c & 0xFF == 0
    ensures ModbusShifts(8, c) == c >> 8
  {
    assert ModbusShifts(0, c) == c;
    assert ModbusShifts(1, c) == c >> 1;
    assert ModbusShifts(2, c) == c >> 2;
    assert ModbusShifts(3, c) == c >> 3;
    assert ModbusShifts(4, c) == c >> 4;
    assert ModbusShifts(5, c) == c >> 5;
    assert ModbusShifts(6, c) == c >> 6;
    assert ModbusShifts(7, c) == c >> 7;
  }
}
