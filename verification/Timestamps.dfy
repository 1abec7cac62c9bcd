/**
  The cache's `ts REAL` column: microseconds stored as binary64 seconds and
  read back. Division and multiplication round as section 4.3.1 of
  IEEE 754-2019 says, to the nearest value and to the even one on a tie.
*/
module Timestamps {

  const TWO51: int := 0x8_0000_0000_0000
  const TWO52: int := 0x10_0000_0000_0000
  const TWO53: int := 0x20_0000_0000_0000
  /** 2^32 and 2^33 seconds, in microseconds. */
  const SECS32: int := 4294967296 * 1_000_000
  const SECS33: int := 8589934592 * 1_000_000

  /** `v` doubled, and halved, `s` times over. */
  ghost function Double(v: real, s: nat): real
    decreases s
  {
    if s == 0 then v else Double(2.0 * v, s - 1)
  }

  ghost function Halve(v: real, s: nat): real
    decreases s
  {
    if s == 0 then v else Halve(v / 2.0, s - 1)
  }

  /** The nearest integer, and the even one on a tie. */
  function RoundEven(x: real): int
  {
    var f := x.Floor;
    if x - f as real < 0.5 then f
    else if x - f as real > 0.5 then f + 1
    else if f % 2 == 0 then f else f + 1
  }

  /** `f64::round`: the nearest integer, and the one further from zero on a tie. */
  function RoundAway(x: real): int
  {
    if x >= 0.0 then (x + 0.5).Floor else -(0.5 - x).Floor
  }

  /** Positive values every step here stays within: normal, and below 2^53. */
  ghost predicate InRange(q: real)
  {
    0.0 < q < TWO53 as real && Double(q, 80) >= TWO52 as real
  }

  /** How many places of the 53-bit significand of `q` are below the point. */
  ghost function Places(q: real, n: nat): (s: nat)
    requires 0.0 < q < TWO53 as real && Double(q, n) >= TWO52 as real
    ensures TWO52 as real <= Double(q, s) < TWO53 as real
    decreases n
  {
    if q >= TWO52 as real then 0 else 1 + Places(2.0 * q, n - 1)
  }

  /** The binary64 value nearest a positive real. */
  ghost function Nearest(q: real): real
    requires InRange(q)
  {
    var s := Places(q, 80);
    Halve(RoundEven(Double(q, s)) as real, s)
  }

  ghost predicate Representable(q: real)
  {
    q == 0.0 || InRange(q) || InRange(-q)
  }

  ghost function Binary64(q: real): real
    requires Representable(q)
  {
    if q == 0.0 then 0.0 else if q > 0.0 then Nearest(q) else -Nearest(-q)
  }

  /** `ts_us as f64 / 1_000_000.0`; the conversion is exact below 2^53. */
  ghost function ToSecs(ts: int): real
    requires -TWO53 < ts < TWO53
  {
    Dividend(ts);
    Binary64(ts as real / 1_000_000.0)
  }

  /** `(ts * 1_000_000.0).round() as i64`. */
  ghost function FromSecs(secs: real): int
    requires Representable(secs * 1_000_000.0)
  {
    RoundAway(Binary64(secs * 1_000_000.0))
  }

  // -------------------------------------------------------------------------

  lemma Dividend(ts: int)
    requires -TWO53 < ts < TWO53
    ensures Representable(ts as real / 1_000_000.0)
    ensures ts > 0 ==> InRange(ts as real / 1_000_000.0)
  {
    if ts > 0 {
      Wide(ts as real / 1_000_000.0);
    } else if ts < 0 {
      Wide(-(ts as real / 1_000_000.0));
    }
  }

  lemma Wide(q: real)
    requires 0.000001 <= q < TWO53 as real
    ensures InRange(q)
  {
    DoubledBy(q);
  }

  lemma {:induction false} DoubleAdd(v: real, a: nat, b: nat)
    ensures Double(v, a + b) == Double(Double(v, a), b)
    decreases a
  {
    if a > 0 {
      DoubleAdd(2.0 * v, a - 1, b);
    }
  }

  lemma Double10(v: real)
    ensures Double(v, 10) == 1024.0 * v
  {
  }

  /** The powers the proofs name. */
  lemma DoubledBy(v: real)
    ensures Double(v, 20) == 1048576.0 * v && Double(v, 21) == 2097152.0 * v
    ensures Double(v, 80) == 1208925819614629174706176.0 * v
  {
    Double10(v);
    Double10(1024.0 * v);
    DoubleAdd(v, 10, 10);
    DoubleAdd(v, 20, 1);
    var w := 1048576.0 * v;
    Double10(w);
    Double10(1024.0 * w);
    DoubleAdd(w, 10, 10);
    DoubleAdd(v, 20, 20);
    var x := 1048576.0 * w;
    Double10(x);
    Double10(1024.0 * x);
    DoubleAdd(x, 10, 10);
    DoubleAdd(v, 40, 20);
    var y := 1048576.0 * x;
    Double10(y);
    Double10(1024.0 * y);
    DoubleAdd(y, 10, 10);
    DoubleAdd(v, 60, 20);
  }

  lemma {:induction false} DoubleGrows(v: real, s: nat)
    requires v > 0.0 && s > 0
    ensures Double(v, s) >= 2.0 * v
    decreases s
  {
    if s > 1 {
      DoubleGrows(2.0 * v, s - 1);
    }
  }

  /** The place of the significand is determined. */
  lemma {:induction false} PlacesAt(q: real, n: nat, k: nat)
    requires 0.0 < q < TWO53 as real && Double(q, n) >= TWO52 as real
    requires TWO52 as real <= Double(q, k) < TWO53 as real
    ensures Places(q, n) == k
    decreases k
  {
    if k > 0 {
      DoubleGrows(q, k);
      PlacesAt(2.0 * q, n - 1, k - 1);
    }
  }

  lemma {:induction false} HalveDouble(v: real, s: nat)
    ensures Halve(Double(v, s), s) == v
    decreases s
  {
    if s > 0 {
      DoubleTwice(v, s - 1);
      HalveDouble(v, s - 1);
    }
  }

  lemma {:induction false} DoubleTwice(v: real, s: nat)
    ensures Double(2.0 * v, s) == 2.0 * Double(v, s)
    decreases s
  {
    if s > 0 {
      DoubleTwice(2.0 * v, s - 1);
    }
  }

  lemma {:induction false} HalveMonotone(a: real, b: real, s: nat)
    requires a <= b
    ensures Halve(a, s) <= Halve(b, s)
    decreases s
  {
    if s > 0 {
      HalveMonotone(a / 2.0, b / 2.0, s - 1);
    }
  }

  lemma {:induction false} HalveSum(a: real, b: real, s: nat)
    ensures Halve(a + b, s) == Halve(a, s) + Halve(b, s)
    decreases s
  {
    if s > 0 {
      HalveSum(a / 2.0, b / 2.0, s - 1);
      assert (a + b) / 2.0 == a / 2.0 + b / 2.0;
    }
  }

  lemma {:induction false} HalveShare(a: real, s: nat)
    ensures Halve(a / TWO53 as real, s) == Halve(a, s) / TWO53 as real
    decreases s
  {
    if s > 0 {
      HalveShare(a / 2.0, s - 1);
    }
  }

  lemma RoundEvenNear(x: real)
    ensures -0.5 <= RoundEven(x) as real - x <= 0.5
  {
  }

  /** Half a unit in the last place. */
  lemma HalfUlp(q: real, k: nat)
    requires InRange(q)
    requires TWO52 as real <= Double(q, k) < TWO53 as real
    ensures Nearest(q) == Halve(RoundEven(Double(q, k)) as real, k)
    ensures -Halve(0.5, k) <= Nearest(q) - q <= Halve(0.5, k)
  {
    PlacesAt(q, 80, k);
    var m := Double(q, k);
    var r := RoundEven(m) as real;
    RoundEvenNear(m);
    HalveDouble(q, k);
    HalveMonotone(r, m + 0.5, k);
    HalveMonotone(m, r + 0.5, k);
    HalveSum(m, 0.5, k);
    HalveSum(r, 0.5, k);
  }

  /** No other value with as many places is closer: what section 4.3.1 of IEEE 754-2019 asks of the result. */
  lemma NearestIsClosest(q: real, k: int)
    requires InRange(q)
    ensures var other := Halve(k as real, Places(q, 80));
            Distance(Nearest(q), q) <= Distance(other, q)
  {
    var s := Places(q, 80);
    var x := Double(q, s);
    var r := RoundEven(x);
    HalveDouble(q, s);
    RoundEvenClosest(x, k);
    var far := if k as real >= x then k as real - x else x - k as real;
    HalveGap(r as real, x, s);
    HalveGap(k as real, x, s);
    HalveMonotone(-far, r as real - x, s);
    HalveMonotone(r as real - x, far, s);
    HalveGap(0.0, far, s);
    HalveGap(0.0, k as real - x, s);
    HalveZero(s);
  }

  function Distance(a: real, b: real): real
  {
    if a >= b then a - b else b - a
  }

  lemma RoundEvenClosest(x: real, k: int)
    ensures Distance(RoundEven(x) as real, x) <= Distance(k as real, x)
  {
    var f := x.Floor;
    RoundEvenSides(x);
    if k <= f {
      assert k as real <= f as real;
    } else {
      assert k as real >= (f + 1) as real;
    }
  }

  lemma RoundEvenSides(x: real)
    ensures var f := x.Floor;
            && f as real <= x < (f + 1) as real
            && Distance(RoundEven(x) as real, x) <= x - f as real
            && Distance(RoundEven(x) as real, x) <= (f + 1) as real - x
  {
  }

  lemma HalveGap(a: real, b: real, s: nat)
    ensures Halve(a - b, s) == Halve(a, s) - Halve(b, s)
  {
    HalveSum(a - b, b, s);
  }

  lemma {:induction false} HalveZero(s: nat)
    ensures Halve(0.0, s) == 0.0
    decreases s
  {
    if s > 0 {
      HalveZero(s - 1);
    }
  }

  /** A relative error of at most 2^-53, at any size. */
  lemma RelativeError(q: real)
    requires InRange(q)
    ensures -(q / TWO53 as real) <= Nearest(q) - q <= q / TWO53 as real
  {
    var k := Places(q, 80);
    HalfUlp(q, k);
    var m := Double(q, k);
    HalveMonotone(0.5, m / TWO53 as real, k);
    HalveShare(m, k);
    HalveDouble(q, k);
  }

  // -------------------------------------------------------------------------
  // The round trip, by size

  /** Where the column misreads before 2^52 microseconds: the seconds round up by more than a quarter of one. */
  predicate Misread(ts: int)
  {
    SECS32 <= ts < TWO52 && 7813 <= ts * 16384 % 15625 < 11529
  }

  /** And from 2^33 seconds on: they round down, or up, by more than a half, or by a half of an odd one. */
  predicate MisreadDown(ts: int)
  {
    var r := ts * 8192 % 15625;
    SECS33 <= ts && (4096 < r <= 7812 || (r == 4096 && ts % 2 == 1))
  }

  predicate MisreadUp(ts: int)
  {
    var r := ts * 8192 % 15625;
    SECS33 <= ts && (7812 < r < 11529 || (r == 11529 && ts % 2 == 1))
  }

  /** How many microseconds a timestamp gains on its way through the column. */
  function Slip(ts: int): int
  {
    if Misread(ts) || MisreadUp(ts) || MisreadDown(-ts) then 1
    else if Misread(-ts) || MisreadUp(-ts) || MisreadDown(ts) then -1
    else 0
  }

  /** The product handed to the second rounding, for a positive timestamp. */
  ghost function Product(ts: int): real
    requires 0 < ts < TWO53
  {
    Dividend(ts);
    Nearest(ts as real / 1_000_000.0) * 1_000_000.0
  }

  lemma SmallProduct(ts: int)
    requires 0 < ts < TWO53
    ensures -(ts as real / TWO53 as real) <= Product(ts) - ts as real <= ts as real / TWO53 as real
    ensures 0.9 < Product(ts)
  {
    Dividend(ts);
    var q := ts as real / 1_000_000.0;
    RelativeError(q);
    assert q * 1_000_000.0 == ts as real;
    var bound := ts as real / TWO53 as real;
    assert q / TWO53 as real * 1_000_000.0 == bound;
    assert bound < 1.0 && bound <= ts as real / 1000.0;
  }

  lemma BelowTwo51(ts: int)
    requires 0 < ts < TWO51
    ensures InRange(Product(ts)) && RoundAway(Nearest(Product(ts))) == ts
  {
    SmallProduct(ts);
    var z := Product(ts);
    Wide(z);
    RelativeError(z);
    assert -0.5 < Nearest(z) - ts as real < 0.5;
  }

  /** Above 2^31 seconds the seconds are on a grid of 2^-21, above 2^32 of 2^-20. */
  lemma LargeProduct(ts: int)
    requires TWO51 <= ts < SECS33
    ensures ts < SECS32 ==> -0.2385 < Product(ts) - ts as real < 0.2385
    ensures SECS32 <= ts ==> -0.4769 < Product(ts) - ts as real < 0.4769
    ensures SECS32 <= ts ==> Product(ts) == RoundEven(ts as real * 1.048576) as real * 1_000_000.0 / 1048576.0
  {
    Dividend(ts);
    var q := ts as real / 1_000_000.0;
    DoubledBy(q);
    if ts < SECS32 {
      HalfUlp(q, 21);
      Halved(0.5);
    } else {
      HalfUlp(q, 20);
      Halved(0.5);
      Halved(RoundEven(Double(q, 20)) as real);
      assert Double(q, 20) == ts as real * 1.048576;
    }
  }

  lemma Halved(v: real)
    ensures Halve(v, 20) == v / 1048576.0 && Halve(v, 21) == v / 2097152.0
  {
    DoubledBy(v / 1048576.0);
    HalveDouble(v / 1048576.0, 20);
    DoubledBy(v / 2097152.0);
    HalveDouble(v / 2097152.0, 21);
  }

  /** From 2^31 up to 2^32 seconds the two errors together stay under a half. */
  lemma BelowSecs32(ts: int)
    requires TWO51 <= ts < SECS32
    ensures InRange(Product(ts)) && RoundAway(Nearest(Product(ts))) == ts
  {
    LargeProduct(ts);
    var z := Product(ts);
    Wide(z);
    if z >= TWO51 as real {
      assert Double(z, 1) == 2.0 * z;
      HalfUlp(z, 1);
      assert Halve(0.5, 1) == 0.25;
    } else {
      assert Double(z, 2) == 4.0 * z;
      HalfUlp(z, 2);
      assert Halve(0.5, 2) == 0.125;
    }
    assert -0.5 < Nearest(z) - ts as real < 0.5;
  }

  /** What the first rounding adds, exactly, above 2^32 seconds. */
  lemma Drift(ts: int)
    requires SECS32 <= ts < SECS33
    ensures var r := ts * 16384 % 15625;
            Product(ts) - ts as real == if r <= 7812 then -(r as real) / 16384.0 else (15625 - r) as real / 16384.0
  {
    LargeProduct(ts);
    var n := ts * 16384;
    var q, r := n / 15625, n % 15625;
    var x := ts as real * 1.048576;
    assert x == n as real / 15625.0;
    assert n == q * 15625 + r;
    assert x == q as real + r as real / 15625.0;
    assert x.Floor == q;
    assert RoundEven(x) == if r <= 7812 then q else q + 1;
    var m := RoundEven(x) as real;
    assert Product(ts) - ts as real == (m - x) * 15625.0 / 16384.0 by {
      assert m * 1_000_000.0 / 1048576.0 == m * 15625.0 / 16384.0;
      assert x * 15625.0 / 16384.0 == ts as real;
    }
  }

  /** From 2^32 seconds up to 2^52 microseconds the second rounding is to halves. */
  lemma BelowTwo52(ts: int)
    requires SECS32 <= ts < TWO52
    ensures InRange(Product(ts))
    ensures RoundAway(Nearest(Product(ts))) == if Misread(ts) then ts + 1 else ts
  {
    hide Nearest, InRange, RoundEven;
    LargeProduct(ts);
    Drift(ts);
    var z := Product(ts);
    var d := z - ts as real;
    HalfGrid(z);
    ToHalves(ts, d);
    assert Misread(ts) <==> d > 0.25;
  }

  lemma ToHalves(ts: int, d: real)
    requires -0.5 < d < 0.5
    ensures RoundEven(2.0 * (ts as real + d)) ==
            if d > 0.25 then 2 * ts + 1 else if d < -0.25 then 2 * ts - 1 else 2 * ts
  {
  }

  lemma ToWhole(x: real, n: int)
    requires -0.5 < x - n as real < 0.5
    ensures RoundEven(x) == n
    ensures n >= 1 ==> RoundAway(x) == n && RoundAway(n as real) == n
    ensures n >= 1 ==> RoundAway(n as real - 0.5) == n
  {
  }

  lemma WholeGrid(z: real)
    requires TWO52 as real <= z < TWO53 as real
    ensures InRange(z) && Nearest(z) == RoundEven(z) as real
  {
    Wide(z);
    assert Double(z, 0) == z;
    HalfUlp(z, 0);
    assert Halve(RoundEven(z) as real, 0) == RoundEven(z) as real;
  }

  lemma HalfGrid(z: real)
    requires TWO51 as real <= z < TWO52 as real
    ensures InRange(z) && Nearest(z) == RoundEven(2.0 * z) as real / 2.0
  {
    Wide(z);
    assert Double(z, 1) == 2.0 * z;
    HalfUlp(z, 1);
    var m := RoundEven(2.0 * z) as real;
    assert Halve(m, 1) == m / 2.0;
  }

  /** From 2^52 microseconds up to 2^33 seconds it is to whole microseconds. */
  lemma BelowSecs33(ts: int)
    requires TWO52 <= ts < SECS33
    ensures InRange(Product(ts)) && RoundAway(Nearest(Product(ts))) == ts
  {
    hide Nearest, InRange, RoundEven, RoundAway;
    LargeProduct(ts);
    var z := Product(ts);
    ToWhole(z, ts);
    if z >= TWO52 as real {
      WholeGrid(z);
    } else {
      HalfGrid(z);
      ToHalves(ts, z - ts as real);
    }
  }

  /** What the first rounding adds from 2^33 seconds on, where the seconds are on a grid of 2^-19. */
  lemma FarDrift(ts: int)
    requires SECS33 <= ts < TWO53
    ensures var r := ts * 8192 % 15625;
            Product(ts) - ts as real == if r <= 7812 then -(r as real) / 8192.0 else (15625 - r) as real / 8192.0
  {
    Dividend(ts);
    var s := ts as real / 1_000_000.0;
    Double19(s);
    HalfUlp(s, 19);
    var x := ts as real * 0.524288;
    assert Double(s, 19) == x;
    Halved19(RoundEven(x) as real);
    var n := ts * 8192;
    var q, r := n / 15625, n % 15625;
    assert x == n as real / 15625.0;
    assert n == q * 15625 + r;
    assert x == q as real + r as real / 15625.0;
    assert x.Floor == q;
    assert RoundEven(x) == if r <= 7812 then q else q + 1;
    var m := RoundEven(x) as real;
    assert Product(ts) - ts as real == (m - x) * 15625.0 / 8192.0 by {
      assert m * 1_000_000.0 / 524288.0 == m * 15625.0 / 8192.0;
      assert x * 15625.0 / 8192.0 == ts as real;
    }
  }

  lemma ToEven(ts: int, d: real)
    requires -1.0 < d < 1.0
    ensures RoundEven(ts as real + d) ==
            if d < -0.5 || (d == -0.5 && ts % 2 == 1) then ts - 1
            else if d > 0.5 || (d == 0.5 && ts % 2 == 1) then ts + 1
            else ts
  {
    var x := ts as real + d;
    if d < 0.0 {
      assert x.Floor == ts - 1;
    } else {
      assert x.Floor == ts;
    }
  }

  /** From 2^33 seconds up to 2^53 microseconds the second rounding takes the nearest whole one. */
  lemma BelowTwo53(ts: int)
    requires SECS33 <= ts < TWO53
    ensures InRange(Product(ts))
    ensures RoundAway(Nearest(Product(ts))) == ts + Slip(ts)
  {
    hide Nearest, InRange, RoundEven, RoundAway;
    FarDrift(ts);
    var z := Product(ts);
    var d := z - ts as real;
    assert z == ts as real + d;
    WholeGrid(z);
    ToEven(ts, d);
    FarSlip(ts, d);
    ToWhole((ts + Slip(ts)) as real, ts + Slip(ts));
  }

  lemma FarSlip(ts: int, d: real)
    requires SECS33 <= ts
    requires var r := ts * 8192 % 15625; d == if r <= 7812 then -(r as real) / 8192.0 else (15625 - r) as real / 8192.0
    ensures MisreadDown(ts) <==> d < -0.5 || (d == -0.5 && ts % 2 == 1)
    ensures MisreadUp(ts) <==> d > 0.5 || (d == 0.5 && ts % 2 == 1)
  {
  }

  lemma RoundTripPositive(ts: int)
    requires 0 < ts < TWO53
    ensures InRange(Product(ts))
    ensures RoundAway(Nearest(Product(ts))) == ts + Slip(ts)
  {
    hide Nearest, InRange, RoundAway, Product;
    if ts < TWO51 {
      BelowTwo51(ts);
    } else if ts < SECS32 {
      BelowSecs32(ts);
    } else if ts < TWO52 {
      BelowTwo52(ts);
    } else if ts < SECS33 {
      BelowSecs33(ts);
    } else {
      BelowTwo53(ts);
    }
  }

  /**
    The round trip, exactly, for every timestamp an integer of 53 bits can
    hold: it is read back as it was unless it is one of those `Slip` names,
    and then it is one microsecond out.
  */
  lemma RoundTrip(ts: int)
    requires -TWO53 < ts < TWO53
    ensures Representable(ToSecs(ts) * 1_000_000.0)
    ensures FromSecs(ToSecs(ts)) == ts + Slip(ts)
  {
    hide Nearest, InRange, RoundAway;
    if ts > 0 {
      Dividend(ts);
      RoundTripPositive(ts);
      ProductPositive(ts);
    } else if ts < 0 {
      var t := -ts;
      Dividend(t);
      Dividend(ts);
      RoundTripPositive(t);
      ProductPositive(t);
      Mirrored(t);
      assert ts as real / 1_000_000.0 == -(t as real / 1_000_000.0);
      assert ToSecs(ts) * 1_000_000.0 == -Product(t);
    } else {
      RoundZero();
    }
  }

  lemma Mirrored(ts: int)
    ensures Slip(-ts) == -Slip(ts)
  {
  }

  lemma ProductPositive(ts: int)
    requires 0 < ts < TWO53
    ensures Product(ts) > 0.0 && InRange(Product(ts)) && Nearest(Product(ts)) > 0.0
    ensures RoundAway(-Nearest(Product(ts))) == -RoundAway(Nearest(Product(ts)))
  {
    hide Slip;
    SmallProduct(ts);
    RoundTripPositive(ts);
    RelativeError(Product(ts));
    MirrorRound(Nearest(Product(ts)));
  }

  lemma RoundZero()
    ensures RoundAway(0.0) == 0
  {
  }

  lemma MirrorRound(x: real)
    requires x > 0.0
    ensures RoundAway(-x) == -RoundAway(x)
  {
  }

  /** Every date up to 2^32 seconds, early in 2106, comes back as it was. */
  lemma ExactUntil2106(ts: int)
    requires -SECS32 < ts < SECS32
    ensures Representable(ToSecs(ts) * 1_000_000.0) && FromSecs(ToSecs(ts)) == ts
  {
    RoundTrip(ts);
  }

  /** The first date that does not, eleven microseconds later. */
  lemma FirstMisread()
    ensures Misread(SECS32 + 11)
    ensures forall ts :: SECS32 <= ts < SECS32 + 11 ==> !Misread(ts)
    ensures Representable(ToSecs(SECS32 + 11) * 1_000_000.0)
    ensures FromSecs(ToSecs(SECS32 + 11)) == SECS32 + 12
  {
    hide ToSecs, FromSecs, Representable, MisreadUp, MisreadDown, Misread;
    forall ts | SECS32 <= ts < SECS32 + 11 ensures !Misread(ts) {
      AfterSecs32(ts - SECS32);
    }
    AfterSecs32(11);
    RoundTrip(SECS32 + 11);
  }

  lemma AfterSecs32(k: int)
    requires 0 <= k <= 11
    ensures Misread(SECS32 + k) <==> k == 11
  {
    var ts := SECS32 + k;
    Residue(TWO52 + k, 759 * k);
    assert ts * 16384 == (TWO52 + k) * 15625 + 759 * k;
  }

  lemma Residue(q: int, r: int)
    requires 0 <= r < 15625
    ensures (q * 15625 + r) % 15625 == r
  {
  }

  /** And after 2^33 seconds the very next microsecond is misread. */
  lemma PastSecs33()
    ensures Representable(ToSecs(SECS33 + 1) * 1_000_000.0)
    ensures FromSecs(ToSecs(SECS33 + 1)) == SECS33 + 2
  {
    hide ToSecs, FromSecs, Representable;
    RoundTrip(SECS33 + 1);
  }

  lemma Double19(v: real)
    ensures Double(v, 19) == 524288.0 * v
  {
    DoubledBy(v / 2.0);
    assert Double(v / 2.0, 20) == Double(2.0 * (v / 2.0), 19);
  }

  lemma Halved19(v: real)
    ensures Halve(v, 19) == v / 524288.0
  {
    Double19(v / 524288.0);
    HalveDouble(v / 524288.0, 19);
  }
}
