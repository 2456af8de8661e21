/** Bitwise operators on natural numbers, bit by bit, and little-endian words. */
module Bits {
  import opened Common

  type UInt8 = x: nat | x < 256

  predicate Bit(a: nat, k: nat) {
    if k == 0 then a % 2 == 1 else Bit(a / 2, k - 1)
  }

  function Power2(k: nat): (p: nat)
    ensures p > 0
  {
    if k == 0 then 1 else 2 * Power2(k - 1)
  }

  function Or(a: nat, b: nat): nat
    decreases a + b
  {
    if a == 0 then b else if b == 0 then a
    else 2 * Or(a / 2, b / 2) + (if a % 2 == 1 || b % 2 == 1 then 1 else 0)
  }

  function And(a: nat, b: nat): nat
    decreases a + b
  {
    if a == 0 || b == 0 then 0
    else 2 * And(a / 2, b / 2) + (if a % 2 == 1 && b % 2 == 1 then 1 else 0)
  }

  /** a & ~b */
  function AndNot(a: nat, b: nat): nat
    decreases a
  {
    if a == 0 then 0 else 2 * AndNot(a / 2, b / 2) + (if a % 2 == 1 && b % 2 == 0 then 1 else 0)
  }

  lemma {:induction false} ZeroBit(k: nat)
    ensures !Bit(0, k)
  {
    if k > 0 {
      ZeroBit(k - 1);
    }
  }

  lemma {:induction false} OrBit(a: nat, b: nat, k: nat)
    ensures Bit(Or(a, b), k) == (Bit(a, k) || Bit(b, k))
    decreases k
  {
    ZeroBit(k);
    if k > 0 && a != 0 && b != 0 {
      OrBit(a / 2, b / 2, k - 1);
    }
  }

  lemma {:induction false} AndNotBit(a: nat, b: nat, k: nat)
    ensures Bit(AndNot(a, b), k) == (Bit(a, k) && !Bit(b, k))
    decreases k
  {
    ZeroBit(k);
    if k > 0 && a != 0 {
      AndNotBit(a / 2, b / 2, k - 1);
    }
  }

  lemma {:induction false} PowerBit(k: nat, j: nat)
    ensures Bit(Power2(k), j) == (j == k)
    decreases k
  {
    if k == 0 {
      if j > 0 { ZeroBit(j - 1); }
    } else if j > 0 {
      PowerBit(k - 1, j - 1);
    }
  }

  lemma {:induction false} AndPower(a: nat, k: nat)
    ensures And(a, Power2(k)) == 0 <==> !Bit(a, k)
    decreases k
  {
    if a == 0 {
      ZeroBit(k);
    } else if k > 0 {
      AndPower(a / 2, k - 1);
    } else if a / 2 != 0 {
      assert And(a / 2, 0) == 0;
    }
  }

  lemma {:induction false} BelowPower(a: nat, b: nat, n: nat)
    requires a < Power2(n)
    ensures b < Power2(n) ==> Or(a, b) < Power2(n)
    ensures AndNot(a, b) < Power2(n)
    decreases n
  {
    if n > 0 {
      BelowPower(a / 2, b / 2, n - 1);
    }
  }

  ghost predicate Ones(a: nat, n: nat) {
    forall k :: 0 <= k < n ==> Bit(a, k)
  }

  lemma OnesStep(a: nat, n: nat)
    requires n > 0
    ensures Ones(a, n) <==> a % 2 == 1 && Ones(a / 2, n - 1)
  {
    if Ones(a, n) {
      assert Bit(a, 0);
      forall k | 0 <= k < n - 1 ensures Bit(a / 2, k) {
        assert Bit(a, k + 1);
      }
    }
    if a % 2 == 1 && Ones(a / 2, n - 1) {
      forall k | 0 <= k < n ensures Bit(a, k) {
        if k > 0 {
          var j := k - 1;
          assert Bit(a / 2, j);
        }
      }
    }
  }

  lemma {:induction false} AllOnes(a: nat, n: nat)
    requires a < Power2(n)
    ensures a == Power2(n) - 1 <==> Ones(a, n)
    decreases n
  {
    if n > 0 {
      OnesStep(a, n);
      AllOnes(a / 2, n - 1);
    }
  }

  function Shl(a: nat, k: nat): nat {
    if k == 0 then a else 2 * Shl(a, k - 1)
  }

  function Shr(a: nat, k: nat): nat
    decreases k
  {
    if k == 0 then a else Shr(a / 2, k - 1)
  }

  /** A base shifted past an offset: `|` is `+`. */
  lemma {:induction false} OrAligned(f: nat, g: nat, k: nat)
    requires g < Power2(k)
    ensures Or(Shl(f, k), g) == Shl(f, k) + g
    decreases k
  {
    if k > 0 {
      OrAligned(f, g / 2, k - 1);
      assert Shl(f, k) / 2 == Shl(f, k - 1);
    }
  }

  lemma {:induction false} AndLow(a: nat, n: nat)
    ensures And(a, Power2(n) - 1) == a % Power2(n)
    decreases n
  {
    if n > 0 {
      var p := Power2(n - 1);
      AndLow(a / 2, n - 1);
      AndOdd(a, p);
      ModTwice(a, p);
    }
  }

  lemma AndOdd(a: nat, p: nat)
    requires p > 0
    ensures And(a, 2 * p - 1) == 2 * And(a / 2, p - 1) + a % 2
  {
    var b := 2 * p - 1;
    assert b / 2 == p - 1 && b % 2 == 1;
    assert a == 0 ==> And(a, b) == 0 && And(a / 2, p - 1) == 0;
  }

  lemma ModTwice(a: nat, p: nat)
    requires p > 0
    ensures a % (2 * p) == 2 * (a / 2 % p) + a % 2
  {
    var q, r := a / 2 / p, a / 2 % p;
    assert a == (2 * p) * q + (2 * r + a % 2);
    RemainderIs(a, 2 * p, q, 2 * r + a % 2);
  }

  lemma RemainderIs(a: int, d: nat, q: int, r: nat)
    requires d > 0 && a == d * q + r && r < d
    ensures a % d == r && a / d == q
  {
    var k := a / d - q;
    assert d * k == r - a % d;
    MultipleIsLarge(d, k);
  }

  lemma MultipleIsLarge(d: int, k: int)
    requires d > 0
    ensures k >= 1 ==> d * k >= d
    ensures k <= -1 ==> d * k <= 0 - d
  {
    MulMonotone(d, 1, if k >= 1 then k else 1);
    MulMonotone(d, if k <= -1 then k else -1, -1);
  }

  lemma MulMonotone(d: nat, x: int, y: int)
    requires x <= y
    ensures d * x <= d * y
  {
  }

  lemma AndEven(a: nat, x: nat)
    ensures And(a, 2 * x) == 2 * And(a / 2, x)
  {
    if a != 0 && x != 0 {
      assert (2 * x) / 2 == x;
    }
  }

  /** Masking with a shifted mask masks the shifted field. */
  lemma {:induction false} AndShift(a: nat, m: nat, k: nat)
    ensures And(a, Shl(m, k)) == Shl(And(Shr(a, k), m), k)
    decreases k
  {
    if k > 0 {
      AndShift(a / 2, m, k - 1);
      AndEven(a, Shl(m, k - 1));
    }
  }

  lemma {:induction false} OrShr(a: nat, b: nat, k: nat)
    ensures Shr(Or(a, b), k) == Or(Shr(a, k), Shr(b, k))
    decreases k
  {
    if k > 0 {
      assert Or(a, b) / 2 == Or(a / 2, b / 2);
      OrShr(a / 2, b / 2, k - 1);
    }
  }

  lemma {:induction false} ShlBits(a: nat, k: nat)
    ensures Shr(Shl(a, k), k) == a
    ensures forall j :: 0 <= j < k ==> !Bit(Shl(a, k), j)
    decreases k
  {
    if k > 0 {
      ShlBits(a, k - 1);
      assert Shl(a, k) / 2 == Shl(a, k - 1);
      forall j | 0 <= j < k ensures !Bit(Shl(a, k), j) {
        if j > 0 {
          var i := j - 1;
          assert !Bit(Shl(a, k - 1), i);
        }
      }
    }
  }

  lemma {:induction false} ShlTimes(a: nat, k: nat)
    ensures Shl(a, k) == a * Power2(k)
    decreases k
  {
    if k > 0 {
      ShlTimes(a, k - 1);
    }
  }

  lemma {:induction false} ShrDivides(a: nat, k: nat)
    ensures Shr(a, k) == a / Power2(k)
    decreases k
  {
    if k > 0 {
      ShrDivides(a / 2, k - 1);
      DivTwice(a, Power2(k - 1));
    }
  }

  lemma DivTwice(a: nat, p: nat)
    requires p > 0
    ensures a / (2 * p) == a / 2 / p
  {
    var q, r := a / 2 / p, a / 2 % p;
    assert a == (2 * p) * q + (2 * r + a % 2);
    RemainderIs(a, 2 * p, q, 2 * r + a % 2);
  }

  // ---------- little-endian words ----------

  function Le(s: seq<UInt8>): nat {
    if s == [] then 0 else s[0] + 256 * Le(s[1..])
  }

  function ToLe(x: nat, n: nat): (s: seq<UInt8>)
    ensures |s| == n
  {
    if n == 0 then [] else [x % 256] + ToLe(x / 256, n - 1)
  }

  function Power256(n: nat): (p: nat)
    ensures p > 0
  {
    if n == 0 then 1 else 256 * Power256(n - 1)
  }

  lemma {:induction false} LeRoundTrip(x: nat, n: nat)
    requires x < Power256(n)
    ensures Le(ToLe(x, n)) == x
  {
    if n > 0 {
      LeRoundTrip(x / 256, n - 1);
      assert ToLe(x, n)[1..] == ToLe(x / 256, n - 1);
    }
  }

  lemma {:induction false} LeBound(s: seq<UInt8>)
    ensures Le(s) < Power256(|s|)
  {
    if s != [] {
      LeBound(s[1..]);
    }
  }

  lemma {:induction false} LeZero(s: seq<UInt8>)
    requires forall i :: 0 <= i < |s| ==> s[i] == 0
    ensures Le(s) == 0
  {
    if s != [] {
      LeZero(s[1..]);
    }
  }

  /** The 64-bit word at byte `i`. */
  function Get64(s: seq<UInt8>, i: nat): (x: nat)
    requires i + 8 <= |s|
    ensures x < WORD_LIMIT
  {
    LeBound(s[i..i + 8]);
    assert Power256(8) == WORD_LIMIT by { PowerOf8(); }
    Le(s[i..i + 8])
  }

  lemma PowerOf8()
    ensures Power256(8) == WORD_LIMIT && Power256(4) == 0x1_0000_0000
  {
    assert Power256(1) == 256;
    assert Power256(2) == 256 * 256;
    assert Power256(3) == 256 * 256 * 256;
    assert Power256(4) == 256 * 256 * 256 * 256;
    assert Power256(5) == 256 * 256 * 256 * 256 * 256;
    assert Power256(6) == 256 * 256 * 256 * 256 * 256 * 256;
    assert Power256(7) == 256 * 256 * 256 * 256 * 256 * 256 * 256;
  }

  function Splice(s: seq<UInt8>, i: nat, t: seq<UInt8>): (r: seq<UInt8>)
    requires i + |t| <= |s|
    ensures |r| == |s|
    ensures forall k :: 0 <= k < |s| ==> r[k] == if i <= k < i + |t| then t[k - i] else s[k]
  {
    s[..i] + t + s[i + |t|..]
  }

  function Put64(s: seq<UInt8>, i: nat, x: nat): (r: seq<UInt8>)
    requires i + 8 <= |s|
    ensures |r| == |s|
  {
    Splice(s, i, ToLe(x, 8))
  }

  /** A word reads back as written; a word elsewhere is as before. */
  lemma PutGet(s: seq<UInt8>, i: nat, x: nat, j: nat)
    requires i + 8 <= |s| && j + 8 <= |s| && x < WORD_LIMIT && (i == j || i + 8 <= j || j + 8 <= i)
    ensures Get64(Put64(s, i, x), j) == if i == j then x else Get64(s, j)
  {
    var r := Put64(s, i, x);
    if i == j {
      assert r[i..i + 8] == ToLe(x, 8);
      PowerOf8();
      LeRoundTrip(x, 8);
    } else {
      assert r[j..j + 8] == s[j..j + 8];
    }
  }
}
