// Lot-size rounding per exchange (internal/exchange/formats.go), over reals.
module Formats {

  datatype Option<T> = None | Some(value: T)

  // Round half away from zero.
  function Round(x: real): int {
    if x >= 0.0 then (x + 0.5).Floor else -(0.5 - x).Floor
  }

  const Grain := 100000000.0

  function Grains(v: real): real { v * Grain }

  function Snap(v: real): real { Round(Grains(v)) as real / Grain }

  predicate Whole(x: real) { x == x.Floor as real }

  // A multiple of 1e-8.
  predicate Fine(v: real) { Whole(Grains(v)) }

  function OrDefault(step: real): (s: real)
    ensures s > 0.0
  {
    if step <= 0.0 then 0.01 else step
  }

  function FormatBinance(qty: real, step: real): real {
    var s := OrDefault(step);
    Snap(Times((qty / s).Floor, s))
  }

  function FormatKuCoin(qty: real, step: real): real {
    var s := OrDefault(step);
    Snap(Times(Round(qty / s), s))
  }

  // Scale up, round, scale down.
  function RoundAt(q: real, mult: real): real
    requires mult > 0.0
  {
    Round(q * mult) as real / mult
  }

  function FloorAt(q: real, mult: real): real
    requires mult > 0.0
  {
    (q * mult).Floor as real / mult
  }

  function Times(k: int, s: real): real { k as real * s }

  // ---------- Round and Snap ----------

  /** Round(x) is the nearest integer, halves going away from zero. */
  lemma RoundIs(x: real, k: int)
    ensures x - 0.5 <= Round(x) as real <= x + 0.5
    ensures Round(x) == k <==>
      if x >= 0.0 then k as real - 0.5 <= x < k as real + 0.5 else k as real - 0.5 < x <= k as real + 0.5
  {
  }

  lemma RoundMonotone(x: real, y: real)
    requires x <= y
    ensures Round(x) <= Round(y)
  {
    RoundIs(x, Round(x));
    RoundIs(y, Round(y));
  }

  lemma SnapGrains(v: real)
    ensures Snap(v) * Grain == Round(Grains(v)) as real
  {
  }

  /** Snap moves a value by at most 5e-9, and leaves exactly the multiples of 1e-8 alone. */
  lemma SnapIdentityIff(v: real)
    ensures Snap(v) == v <==> Fine(v)
    ensures v - 0.000000005 <= Snap(v) <= v + 0.000000005
  {
    SnapGrains(v);
    RoundIs(Grains(v), (Grains(v)).Floor);
  }

  lemma SnapMonotone(v: real, w: real)
    requires v <= w
    ensures Snap(v) <= Snap(w)
  {
    RoundMonotone(Grains(v), Grains(w));
  }

  lemma TimesNext(k: int, s: real)
    ensures Times(k + 1, s) == Times(k, s) + s
  {
    assert (k + 1) as real == k as real + 1.0;
  }

  lemma TimesWhole(k: int, n: int)
    ensures Times(k, n as real) == (k * n) as real
  {
  }

  lemma TimesGrains(k: int, s: real)
    ensures Grains(Times(k, s)) == Times(k, Grains(s))
  {
  }

  lemma TimesFine(k: int, s: real)
    requires Fine(s)
    ensures Fine(Times(k, s))
  {
    TimesGrains(k, s);
    TimesWhole(k, Grains(s).Floor);
  }

  // x steps fit into q exactly when they are at most q.
  lemma StepsFit(q: real, s: real, x: real)
    requires s > 0.0
    ensures x <= q / s <==> x * s <= q
    ensures x >= q / s <==> x * s >= q
  {
    assert q / s * s == q;
    Scaled(x, q / s, s);
    Scaled(q / s, x, s);
  }

  // k * s is the greatest multiple of s up to q.
  lemma FloorIs(q: real, s: real, k: int)
    requires s > 0.0
    ensures (q / s).Floor == k <==> Times(k, s) <= q < Times(k, s) + s
  {
    StepsFit(q, s, k as real);
    StepsFit(q, s, (k + 1) as real);
    TimesNext(k, s);
  }

  lemma Scaled(x: real, y: real, s: real)
    requires s > 0.0
    ensures x <= y <==> x * s <= y * s
  {
    if x <= y {
      assert (y - x) * s >= 0.0;
    } else {
      assert (x - y) * s > 0.0;
    }
  }

  // ---------- floor to a step ----------

  /** With a step that is a multiple of 1e-8, the result is the one multiple r of the step with
      r <= qty < r + step. */
  lemma BinanceIsFloor(qty: real, step: real, k: int)
    requires Fine(OrDefault(step))
    ensures var s := OrDefault(step);
      && FormatBinance(qty, step) == Times((qty / s).Floor, s)
      && FormatBinance(qty, step) <= qty < FormatBinance(qty, step) + s
      && (Times(k, s) <= qty < Times(k, s) + s ==> FormatBinance(qty, step) == Times(k, s))
  {
    var s := OrDefault(step);
    var n := (qty / s).Floor;
    TimesFine(n, s);
    SnapIdentityIff(Times(n, s));
    FloorIs(qty, s, n);
    FloorIs(qty, s, k);
  }

  /** Whatever the step, the result is within half a grain of that floor, and monotone. */
  lemma BinanceBounds(qty: real, step: real)
    ensures qty - OrDefault(step) - 0.000000005 < FormatBinance(qty, step) <= qty + 0.000000005
  {
    var s := OrDefault(step);
    var n := (qty / s).Floor;
    FloorIs(qty, s, n);
    SnapIdentityIff(Times(n, s));
  }

  lemma BinanceMonotone(qty: real, more: real, step: real)
    requires qty <= more
    ensures FormatBinance(qty, step) <= FormatBinance(more, step)
  {
    var s := OrDefault(step);
    assert qty / s <= more / s by {
      QuotientsInOrder(qty, more, s);
    }
    TimesMonotone((qty / s).Floor, (more / s).Floor, s);
    SnapMonotone(Times((qty / s).Floor, s), Times((more / s).Floor, s));
  }

  lemma QuotientsInOrder(x: real, y: real, s: real)
    requires s > 0.0 && x <= y
    ensures x / s <= y / s
  {
    assert x / s * s == x && y / s * s == y;
    Scaled(x / s, y / s, s);
  }

  lemma TimesMonotone(k: int, n: int, s: real)
    requires s > 0.0 && k <= n
    ensures Times(k, s) <= Times(n, s)
  {
    Scaled(k as real, n as real, s);
  }

  /** A formatted quantity stays when formatted again. */
  lemma BinanceIdempotent(qty: real, step: real)
    requires Fine(OrDefault(step))
    ensures FormatBinance(FormatBinance(qty, step), step) == FormatBinance(qty, step)
  {
    var s := OrDefault(step);
    BinanceIsFloor(qty, step, 0);
    BinanceIsFloor(FormatBinance(qty, step), step, (qty / s).Floor);
  }

  // ---------- steps finer than the grain ----------

  // A multiple k of the step that lies half a grain or more above a grain.
  function Riser(a: real): (k: nat)
    requires !Whole(a)
  {
    var f := a - a.Floor as real;
    if f >= 0.5 then 1 else (0.5 / f).Floor + 1
  }

  lemma RiserRises(a: real)
    requires !Whole(a)
    ensures HalfUp(Times(Riser(a), a))
  {
    var n, k := a.Floor, Riser(a);
    var f := a - n as real;
    if f < 0.5 {
      RiserOf(f, k);
      TimesSplit(k, n, f);
      HalfUpFrom(k * n, Times(k, f), Times(k, a));
    } else {
      HalfUpFrom(n, f, Times(1, a));
    }
  }

  // Half a unit or more above an integer.
  predicate HalfUp(x: real) { 0.5 <= x - x.Floor as real < 1.0 }

  lemma HalfUpFrom(n: int, f: real, x: real)
    requires x == n as real + f && 0.5 <= f < 1.0
    ensures HalfUp(x)
  {
    assert x.Floor < n + 1 && n < x.Floor + 1;
  }

  lemma RiserOf(f: real, k: int)
    requires 0.0 < f < 0.5 && k == (0.5 / f).Floor + 1
    ensures 0.5 < Times(k, f) < 1.0
  {
    FloorIs(0.5, f, k - 1);
    TimesNext(k - 1, f);
  }

  lemma TimesSplit(k: int, n: int, f: real)
    ensures Times(k, n as real + f) == (k * n) as real + Times(k, f)
  {
    assert (k * n) as real == k as real * n as real;
  }

  /** Formatting a non-negative quantity never exceeds it if and only if the step is a multiple of
      1e-8: with any other step some exact lot is snapped upwards. */
  lemma NeverExceedsIff(step: real)
    ensures (forall q :: q >= 0.0 ==> FormatBinance(q, step) <= q) <==> Fine(OrDefault(step))
  {
    var s := OrDefault(step);
    if Fine(s) {
      forall q | q >= 0.0
        ensures FormatBinance(q, step) <= q
      {
        BinanceIsFloor(q, step, 0);
      }
    } else {
      var q := Times(Riser(Grains(s)), s);
      assert q >= 0.0 && FormatBinance(q, step) > q by {
        LotSnappedUp(step);
      }
    }
  }

  lemma LotSnappedUp(step: real)
    requires !Fine(OrDefault(step))
    ensures var q := Times(Riser(Grains(OrDefault(step))), OrDefault(step));
      q >= 0.0 && FormatBinance(q, step) > q
  {
    var s := OrDefault(step);
    var k := Riser(Grains(s));
    var q := Times(k, s);
    var x := Times(k, Grains(s));
    assert x == Grains(q);
    RiserRises(Grains(s));
    FloorIs(q, s, k);
    Scaled(0.0, k as real, s);
    RoundIs(x, x.Floor + 1);
    Scaled(0.0, x, 1.0 / Grain);
    SnapGrains(q);
  }

  // ---------- formatting twice ----------

  // A multiple k of the step that lies less than half a grain above a grain.
  function Faller(a: real): nat
    requires !Whole(a) && !Whole(2.0 * a)
  {
    var f := a - a.Floor as real;
    if f < 0.5 then 1 else (0.5 / (1.0 - f)).Floor + 1
  }

  predicate HalfDown(x: real) { 0.0 < x - x.Floor as real < 0.5 }

  lemma HalfDownFrom(n: int, f: real, x: real)
    requires x == n as real + f && 0.0 < f < 0.5
    ensures HalfDown(x)
  {
    assert x.Floor < n + 1 && n < x.Floor + 1;
  }

  lemma FallerFalls(a: real)
    requires !Whole(a) && !Whole(2.0 * a)
    ensures HalfDown(Times(Faller(a), a))
  {
    var n, k := a.Floor, Faller(a);
    var f := a - n as real;
    HalfIsWhole(n);
    if f < 0.5 {
      HalfDownFrom(n, f, Times(1, a));
    } else {
      var g := 1.0 - f;
      RiserOf(g, k);
      TimesSplit(k, n + 1, -g);
      TimesNegative(k, g);
      HalfDownFrom(k * (n + 1) - 1, 1.0 - Times(k, g), Times(k, a));
    }
  }

  lemma HalfIsWhole(n: int)
    ensures Whole(2.0 * (n as real + 0.5))
  {
    WholeInt(2 * n + 1);
  }

  lemma WholeInt(n: int)
    ensures Whole(n as real)
  {
  }

  lemma TimesNegative(k: int, f: real)
    ensures Times(k, -f) == -Times(k, f)
  {
  }

  // Half a grain up, within the step: the lot is found again.
  lemma SnappedWithinLot(k: nat, s: real)
    requires Grains(s) >= 1.0 && Whole(2.0 * Grains(s))
    ensures Times(k, s) <= Snap(Times(k, s)) < Times(k, s) + s
  {
    var x := Times(k, Grains(s));
    TimesGrains(k, s);
    TwiceWhole(k, Grains(s));
    Scaled(0.0, k as real, Grains(s));
    HalvesRoundUp(x);
    SnapGrains(Times(k, s));
  }

  lemma TwiceWhole(k: int, a: real)
    requires Whole(2.0 * a)
    ensures Whole(2.0 * Times(k, a))
  {
    var n := (2.0 * a).Floor;
    TimesWhole(k, n);
    TimesDouble(k, a);
  }

  lemma TimesDouble(k: int, a: real)
    ensures Times(k, 2.0 * a) == 2.0 * Times(k, a)
  {
  }

  lemma HalvesRoundUp(x: real)
    requires x >= 0.0 && Whole(2.0 * x)
    ensures x <= Round(x) as real <= x + 0.5
  {
    var n := (2.0 * x).Floor;
    var j := n / 2;
    assert n == 2 * j || n == 2 * j + 1;
    RoundIs(x, j);
    RoundIs(x, j + 1);
  }

  lemma RoundsDown(x: real)
    requires HalfDown(x) && x >= 1.0
    ensures Round(x) == x.Floor && Round(x - 1.0) == x.Floor - 1
  {
    RoundIs(x, x.Floor);
    RoundIs(x - 1.0, x.Floor - 1);
  }

  lemma AtLeastOne(k: nat, a: real)
    requires a >= 1.0 && k > 0
    ensures Times(k, a) >= 1.0 && Times(k - 1, a) <= Times(k, a) - 1.0
  {
    TimesNext(k - 1, a);
    Scaled(0.0, k as real - 1.0, a);
  }

  // The next lot below is at least a whole grain away.
  lemma SnappedBelowLot(k: nat, s: real)
    requires Grains(s) >= 1.0 && HalfDown(Times(k, Grains(s))) && k > 0
    ensures 0.0 <= Snap(Times(k, s)) < Times(k, s)
    ensures Snap(Times(k - 1, s)) < Snap(Times(k, s))
  {
    var x := Times(k, Grains(s));
    TimesGrains(k, s);
    TimesGrains(k - 1, s);
    AtLeastOne(k, Grains(s));
    RoundsDown(x);
    RoundMonotone(Times(k - 1, Grains(s)), x - 1.0);
    SnapGrains(Times(k, s));
    SnapGrains(Times(k - 1, s));
  }

  predicate Stable(q: real, step: real) {
    FormatBinance(FormatBinance(q, step), step) == FormatBinance(q, step)
  }

  /** For steps of at least 1e-8, formatting non-negative quantities is idempotent if and only if
      the step is a multiple of 5e-9: half grains are snapped up, into the same lot. */
  lemma CoarseIdempotentIff(step: real)
    requires OrDefault(step) >= 0.00000001
    ensures (forall q :: q >= 0.0 ==> Stable(q, step)) <==> Whole(2.0 * Grains(OrDefault(step)))
  {
    var s := OrDefault(step);
    if Whole(2.0 * Grains(s)) {
      forall q | q >= 0.0
        ensures Stable(q, step)
      {
        var k := (q / s).Floor;
        SnappedWithinLot(k, s);
        FloorIs(FormatBinance(q, step), s, k);
      }
    } else {
      assert !Whole(Grains(s)) by {
        if Whole(Grains(s)) {
          WholeTwice(Grains(s));
        }
      }
      var k := Faller(Grains(s));
      FallerFalls(Grains(s));
      UnstableLot(k, step);
      Scaled(0.0, k as real, s);
      assert !Stable(Times(k, s), step);
    }
  }

  lemma WholeTwice(a: real)
    requires Whole(a)
    ensures Whole(2.0 * a)
  {
    assert 2.0 * a == (2 * a.Floor) as real;
  }

  lemma UnstableLot(k: nat, step: real)
    requires OrDefault(step) >= 0.00000001 && k > 0 && HalfDown(Times(k, Grains(OrDefault(step))))
    ensures !Stable(Times(k, OrDefault(step)), step)
  {
    var s := OrDefault(step);
    var q := Times(k, s);
    var r := FormatBinance(q, step);
    FloorIs(q, s, k);
    SnappedBelowLot(k, s);
    var m := (r / s).Floor;
    FloorIs(r, s, m);
    if m >= k {
      TimesMonotone(k, m, s);
    }
    TimesMonotone(m, k - 1, s);
    SnapMonotone(Times(m, s), Times(k - 1, s));
  }

  // ---------- rounding to a step ----------

  /** With a step that is a multiple of 1e-8, the result is a multiple of the step, at most half a
      step away and no farther than any other multiple. */
  lemma KuCoinIsNearest(qty: real, step: real, k: int)
    requires Fine(OrDefault(step))
    ensures var s, r := OrDefault(step), FormatKuCoin(qty, step);
      && r == Times(Round(qty / s), s)
      && qty - 0.5 * s <= r <= qty + 0.5 * s
      && Distance(qty, r) <= Distance(qty, Times(k, s))
      && (qty == Times(k, s) ==> r == qty)
  {
    var s := OrDefault(step);
    var n := Round(qty / s);
    TimesFine(n, s);
    SnapIdentityIff(Times(n, s));
    RoundToStep(qty, s);
    TimesNext(n, s);
    TimesNext(n - 1, s);
    if k > n {
      TimesMonotone(n + 1, k, s);
    } else if k < n {
      TimesMonotone(k, n - 1, s);
    }
  }

  function Distance(x: real, y: real): real { if x <= y then y - x else x - y }

  lemma RoundToStep(qty: real, s: real)
    requires s > 0.0
    ensures var r := Times(Round(qty / s), s); qty - 0.5 * s <= r <= qty + 0.5 * s
  {
    var n := Round(qty / s);
    RoundIs(qty / s, n);
    StepsFit(qty, s, n as real - 0.5);
    StepsFit(qty, s, n as real + 0.5);
    HalfSteps(n, s);
  }

  lemma HalfSteps(n: int, s: real)
    ensures (n as real - 0.5) * s == Times(n, s) - 0.5 * s
    ensures (n as real + 0.5) * s == Times(n, s) + 0.5 * s
  {
  }

  lemma KuCoinMonotone(qty: real, more: real, step: real)
    requires qty <= more
    ensures FormatKuCoin(qty, step) <= FormatKuCoin(more, step)
  {
    var s := OrDefault(step);
    QuotientsInOrder(qty, more, s);
    RoundMonotone(qty / s, more / s);
    TimesMonotone(Round(qty / s), Round(more / s), s);
    SnapMonotone(Times(Round(qty / s), s), Times(Round(more / s), s));
  }

  // ---------- powers of ten ----------

  function Pow10(n: int): (p: real)
    ensures p > 0.0
    decreases if n >= 0 then n else -n
  {
    if n == 0 then 1.0 else if n > 0 then 10.0 * Pow10(n - 1) else Pow10(n + 1) / 10.0
  }

  lemma Pow10Next(n: int)
    ensures Pow10(n + 1) == 10.0 * Pow10(n)
  {
  }

  lemma {:induction false} Reciprocal(n: int)
    ensures Pow10(-n) == 1.0 / Pow10(n)
    decreases if n >= 0 then n else -n
  {
    if n > 0 {
      Reciprocal(n - 1);
      assert Pow10(-n) == Pow10(-(n - 1)) / 10.0;
    } else if n < 0 {
      Reciprocal(n + 1);
      assert Pow10(n) == Pow10(n + 1) / 10.0;
    }
  }

  // Scaling by m is dividing by the step 1 / m.
  lemma ScaleIsStep(q: real, m: real, step: real)
    requires m > 0.0 && step == 1.0 / m
    ensures q * m == q / step
  {
    assert step * m == 1.0;
    assert q / step * step == q;
    assert q / step == q / step * (step * m);
  }

  lemma UnscaleIsStep(k: int, m: real, step: real)
    requires m > 0.0 && step == 1.0 / m
    ensures k as real / m == Times(k, step)
  {
  }

  lemma RoundByScale(q: real, m: real, step: real)
    requires m > 0.0 && step > 0.0 && step == 1.0 / m
    ensures RoundAt(q, m) == Times(Round(q / step), step)
  {
    ScaleIsStep(q, m, step);
    UnscaleIsStep(Round(q * m), m, step);
  }

  lemma FloorByScale(q: real, m: real, step: real)
    requires m > 0.0 && step > 0.0 && step == 1.0 / m
    ensures FloorAt(q, m) == Times((q / step).Floor, step)
  {
    ScaleIsStep(q, m, step);
    UnscaleIsStep((q * m).Floor, m, step);
  }

  lemma {:induction false} Pow10Monotone(m: int, n: int)
    requires m <= n
    ensures Pow10(m) <= Pow10(n)
    decreases n - m
  {
    if m < n {
      Pow10Monotone(m, n - 1);
      Pow10Next(n - 1);
    }
  }

  // The exponent d with 10^(d-1) < q <= 10^d, the rounded-up decimal logarithm.
  function Digits(q: real): (d: int)
    requires q > 0.0
    ensures Pow10(d - 1) < q <= Pow10(d)
  {
    if q > 1.0 then DigitsUp(q) else DigitsDown(q)
  }

  function DigitsUp(q: real): (d: int)
    requires q > 0.1
    ensures q > 0.1 ==> Pow10(d - 1) < q && (q <= Pow10(d) || d == 0) && d >= 0
    decreases q.Floor
  {
    if q <= 1.0 then 0 else DigitsUp(q / 10.0) + 1
  }

  function DigitsDown(q: real): (d: int)
    requires 0.0 < q <= 1.0
    ensures Pow10(d - 1) < q <= Pow10(d)
    decreases (1.0 / q).Floor
  {
    if q > 0.1 then 0 else DigitsDown(10.0 * q) - 1
  }

  /** Digits is the only exponent of its kind. */
  lemma DigitsAre(q: real, d: int)
    requires q > 0.0 && Pow10(d - 1) < q <= Pow10(d)
    ensures Digits(q) == d
  {
    var e := Digits(q);
    if e < d {
      Pow10Monotone(e, d - 1);
    } else if e > d {
      Pow10Monotone(d, e - 1);
    }
  }

  lemma DigitsMonotone(q: real, more: real)
    requires 0.0 < q <= more
    ensures Digits(q) <= Digits(more)
  {
    var d, e := Digits(q), Digits(more);
    if e < d {
      Pow10Monotone(e, d - 1);
    }
  }

  // ---------- five significant digits ----------

  function FormatHyperliquid(qty: real): real {
    if qty <= 0.0 then 0.0
    else
      RoundAt(qty, Pow10(5 - Digits(qty)))
  }

  // The place value of the fifth digit.
  function Unit(qty: real): (u: real)
    requires qty > 0.0
    ensures u > 0.0
  {
    Pow10(Digits(qty) - 5)
  }

  lemma FiveDigits(d: int)
    ensures Times(10000, Pow10(d - 5)) == Pow10(d - 1) && Times(100000, Pow10(d - 5)) == Pow10(d)
  {
    Pow10Next(d - 5);
    Pow10Next(d - 4);
    Pow10Next(d - 3);
    Pow10Next(d - 2);
    Pow10Next(d - 1);
  }

  lemma HyperliquidIsStep(qty: real)
    requires qty > 0.0
    ensures FormatHyperliquid(qty) == Times(Round(qty / Unit(qty)), Unit(qty))
  {
    Reciprocal(5 - Digits(qty));
    RoundByScale(qty, Pow10(5 - Digits(qty)), Unit(qty));
  }

  lemma UnitsRange(qty: real)
    requires qty > 0.0
    ensures 10000.0 < qty / Unit(qty) <= 100000.0
    ensures 10000 <= Round(qty / Unit(qty)) <= 100000
  {
    FiveDigits(Digits(qty));
    StepsFit(qty, Unit(qty), 10000 as real);
    StepsFit(qty, Unit(qty), 100000 as real);
  }

  /** The result has five significant digits, 10^4 to 10^5 units, and is off by at most 5e-5 of
      the quantity. */
  lemma HyperliquidBounds(qty: real)
    requires qty > 0.0
    ensures var r, u := FormatHyperliquid(qty), Unit(qty);
      && (exists n :: 10000 <= n <= 100000 && r == Times(n, u))
      && Distance(qty, r) <= 0.00005 * qty
  {
    var u := Unit(qty);
    HyperliquidIsStep(qty);
    UnitsRange(qty);
    RoundToStep(qty, u);
    FiveDigits(Digits(qty));
    assert Times(10000, u) == 10000.0 * u;
  }

  // Between 10^4 and 10^5 units a number is formatted to itself, even at the power of ten.
  lemma FiveDigitsStay(n: int, d: int)
    requires 10000 <= n <= 100000
    ensures var r := Times(n, Pow10(d - 5)); r > 0.0 && FormatHyperliquid(r) == r
  {
    var u := Pow10(d - 5);
    var r := Times(n, u);
    FiveDigits(d);
    TimesMonotone(10000, n, u);
    TimesMonotone(n, 100000, u);
    if n > 10000 {
      TimesNext(10000, u);
      TimesMonotone(10001, n, u);
      DigitsAre(r, d);
      RoundTimes(n, u);
    } else {
      Pow10Next(d - 2);
      DigitsAre(r, d - 1);
      FiveDigits(d - 1);
      RoundTimes(100000, Pow10(d - 6));
    }
    HyperliquidIsStep(r);
  }

  lemma RoundTimes(n: int, s: real)
    requires s > 0.0
    ensures Round(Times(n, s) / s) == n
  {
    StepsFit(Times(n, s), s, n as real);
  }

  /** Formatting again changes nothing. */
  lemma HyperliquidIdempotent(qty: real)
    ensures FormatHyperliquid(FormatHyperliquid(qty)) == FormatHyperliquid(qty)
  {
    if qty > 0.0 {
      UnitsRange(qty);
      HyperliquidIsStep(qty);
      FiveDigitsStay(Round(qty / Unit(qty)), Digits(qty));
    }
  }

  // The result lies between the powers of ten around the quantity.
  lemma HyperliquidRange(qty: real)
    requires qty > 0.0
    ensures Pow10(Digits(qty) - 1) <= FormatHyperliquid(qty) <= Pow10(Digits(qty))
  {
    var u := Unit(qty);
    UnitsRange(qty);
    HyperliquidIsStep(qty);
    FiveDigits(Digits(qty));
    TimesMonotone(10000, Round(qty / u), u);
    TimesMonotone(Round(qty / u), 100000, u);
  }

  /** A larger quantity never gets a smaller result, also across a power of ten. */
  lemma HyperliquidMonotone(qty: real, more: real)
    requires qty <= more
    ensures FormatHyperliquid(qty) <= FormatHyperliquid(more)
  {
    if 0.0 < qty {
      var d, e := Digits(qty), Digits(more);
      HyperliquidRange(qty);
      HyperliquidRange(more);
      DigitsMonotone(qty, more);
      if d == e {
        var u := Unit(qty);
        HyperliquidIsStep(qty);
        HyperliquidIsStep(more);
        QuotientsInOrder(qty, more, u);
        RoundMonotone(qty / u, more / u);
        TimesMonotone(Round(qty / u), Round(more / u), u);
      } else {
        Pow10Monotone(d, e - 1);
      }
    } else if 0.0 < more {
      HyperliquidRange(more);
    }
  }

  // ---------- decimal places ----------

  function FormatBitget(qty: real, place: int): real {
    FloorAt(qty, Pow10(place))
  }

  /** The result is the one multiple r of 10^-place with r <= qty < r + 10^-place, for any number
      of places, negative ones included. */
  lemma BitgetIsFloor(qty: real, place: int, k: int)
    ensures var r, unit := FormatBitget(qty, place), Pow10(-place);
      && r == Times((qty / unit).Floor, unit) && r <= qty < r + unit
      && (Times(k, unit) <= qty < Times(k, unit) + unit ==> r == Times(k, unit))
  {
    var unit := Pow10(-place);
    var n := (qty / unit).Floor;
    Reciprocal(place);
    FloorByScale(qty, Pow10(place), unit);
    FloorIs(qty, unit, n);
    FloorIs(qty, unit, k);
  }

  // ---------- the common entry ----------

  function FormatLighter(qty: real): real { FloorAt(qty, 10000.0) }

  function FormatQty(exchange: string, qty: real, step: real): Option<real> {
    match exchange
    case "binance" => Some(FormatBinance(qty, step))
    case "bybit" => Some(FormatBinance(qty, step))
    case "okx" => Some(qty.Floor as real)
    case "hyperliquid" => Some(FormatHyperliquid(qty))
    case "gate" => Some(qty.Floor as real)
    case "bitget" => Some(FormatBitget(qty, 4))
    case "kucoin" => Some(FormatKuCoin(qty, step))
    case "aster" => Some(FormatKuCoin(qty, step))
    case "indodax" => Some(qty.Floor as real)
    case "lighter" => Some(FormatLighter(qty))
    case _ => None
  }

  const Exchanges :=
    ["binance", "bybit", "okx", "hyperliquid", "gate", "bitget", "kucoin", "aster", "indodax", "lighter"]

  lemma LighterIdempotent(qty: real)
    ensures FormatLighter(FormatLighter(qty)) == FormatLighter(qty)
  {
    LighterIsBitget(qty);
    LighterIsBitget(FormatLighter(qty));
    BitgetIdempotent(qty, 4);
  }

  lemma LighterIsBitget(qty: real)
    ensures FormatLighter(qty) == FormatBitget(qty, 4)
  {
    Pow10Next(0);
    Pow10Next(1);
    Pow10Next(2);
    Pow10Next(3);
  }

  lemma BitgetIdempotent(qty: real, place: int)
    ensures FormatBitget(FormatBitget(qty, place), place) == FormatBitget(qty, place)
  {
    BitgetIsFloor(qty, place, 0);
    BitgetIsFloor(FormatBitget(qty, place), place, (qty / Pow10(-place)).Floor);
  }
}
