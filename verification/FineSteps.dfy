// Formatting twice, for every step (internal/exchange/formats.go): a step finer than 1e-8 is
// rounded to grains of 1e-8 that are not lots.
module FineSteps {
  import opened Formats

  // The grains of k lots of a grains each, and the lots that fit into m grains.
  function GrainsOf(k: int, a: real): int { Round(Times(k, a)) }

  function LotsIn(m: int, a: real): int
    requires a > 0.0
  {
    (m as real / a).Floor
  }

  // m grains are formatted to themselves.
  predicate Kept(m: int, a: real)
    requires a > 0.0
  {
    GrainsOf(LotsIn(m, a), a) == m
  }

  lemma PositiveGrains(s: real)
    requires s > 0.0
    ensures Grains(s) > 0.0
  {
  }

  lemma LotsOfSnapped(v: real, s: real)
    requires s > 0.0
    ensures Grains(s) > 0.0 && (Snap(v) / s).Floor == LotsIn(Round(Grains(v)), Grains(s))
  {
    var m, a := Round(Grains(v)), Grains(s);
    var k := LotsIn(m, a);
    FloorIs(m as real, a, k);
    TimesGrains(k, s);
    SnapGrains(v);
    FloorIs(Snap(v), s, k);
  }

  lemma FormattedGrains(q: real, step: real)
    ensures var s := OrDefault(step);
      Grains(s) > 0.0 && Grains(FormatBinance(q, step)) == GrainsOf((q / s).Floor, Grains(s)) as real
  {
    var s := OrDefault(step);
    TimesGrains((q / s).Floor, s);
    SnapGrains(Times((q / s).Floor, s));
  }

  /** A formatted quantity stays exactly when its grains do. */
  lemma StableIs(q: real, step: real)
    ensures var s := OrDefault(step);
      Grains(s) > 0.0 && (Stable(q, step) <==> Kept(GrainsOf((q / s).Floor, Grains(s)), Grains(s)))
  {
    var s := OrDefault(step);
    var v := Times((q / s).Floor, s);
    FormattedGrains(q, step);
    FormattedGrains(FormatBinance(q, step), step);
    LotsOfSnapped(v, s);
    TimesGrains((q / s).Floor, s);
  }

  // What is left over of m grains after the lots that fit.
  lemma LotsFit(m: int, a: real)
    requires a > 0.0
    ensures m as real - a < Times(LotsIn(m, a), a) <= m as real
    ensures m >= 0 ==> LotsIn(m, a) >= 0 && Times(LotsIn(m, a), a) >= 0.0
  {
    FloorIs(m as real, a, LotsIn(m, a));
    if m >= 0 {
      QuotientsInOrder(0.0, m as real, a);
      TimesMonotone(0, LotsIn(m, a), a);
    }
  }

  lemma GrainsNonNegative(q: real, s: real)
    requires s > 0.0 && q >= 0.0
    ensures Grains(s) > 0.0 && GrainsOf((q / s).Floor, Grains(s)) >= 0
  {
    QuotientsInOrder(0.0, q, s);
    TimesMonotone(0, (q / s).Floor, Grains(s));
    RoundMonotone(0.0, Times((q / s).Floor, Grains(s)));
  }

  // ---------- half a grain and less ----------

  lemma TinyStepKeeps(m: int, a: real)
    requires 0.0 < a <= 0.5
    ensures Kept(m, a)
  {
    LotsFit(m, a);
    RoundIs(Times(LotsIn(m, a), a), m);
  }

  // ---------- between half a grain and a grain ----------

  // How far the step exceeds half a grain, twice.
  function Excess(a: real): real { 2.0 * a - 1.0 }

  lemma TimesScaled(c: real, k: int, a: real)
    ensures c * Times(k, a) == Times(k, c * a)
  {
  }

  // With a = (n + 1) / 2n no remainder lies strictly between a half and a.
  lemma WholeExcessKeeps(m: nat, a: real)
    requires 0.5 < a < 1.0 && Whole(1.0 / Excess(a))
    ensures Kept(m, a)
  {
    var k, n := LotsIn(m, a), (1.0 / Excess(a)).Floor;
    LotsFit(m, a);
    var c := 2.0 * n as real;
    assert n as real * Excess(a) == 1.0;
    assert c > 0.0 && c * a == (n + 1) as real by {
      HalfAndExcess(n, a);
    }
    TimesScaled(c, k, a);
    TimesWhole(k, n + 1);
    var rest := m as real - Times(k, a);
    assert rest <= 0.5 by {
      RestIsHalf(m, n, k, a, rest);
    }
    RoundIs(Times(k, a), m);
  }

  lemma HalfAndExcess(n: int, a: real)
    requires Excess(a) > 0.0 && n as real * Excess(a) == 1.0
    ensures 2.0 * n as real > 0.0 && 2.0 * n as real * a == (n + 1) as real
  {
  }

  lemma RestIsHalf(m: nat, n: int, k: int, a: real, rest: real)
    requires n >= 1 && rest < a && rest == m as real - Times(k, a)
    requires 2.0 * n as real * a == (n + 1) as real
    requires 2.0 * n as real * Times(k, a) == (k * (n + 1)) as real
    ensures rest <= 0.5
  {
    var y := 2 * n * m - k * (n + 1);
    assert 2.0 * n as real * rest == y as real;
    Scaled(a, rest, 2.0 * n as real);
    assert y < n + 1;
    Scaled(rest, 0.5, 2.0 * n as real);
  }

  // A remainder strictly between a half and the step: the lots that fit round to fewer grains.
  predicate Misses(m: nat, k: nat, a: real) {
    0.5 < m as real - Times(k, a) < a
  }

  lemma MissIsLost(m: nat, k: nat, a: real)
    requires 0.0 < a && Misses(m, k, a)
    ensures !Kept(m, a)
  {
    FloorIs(m as real, a, k);
    RoundIs(Times(k, a), m);
  }

  lemma TimesHalf(k: int, a: real)
    ensures 2.0 * Times(k, a) == k as real + Times(k, Excess(a))
  {
  }

  lemma TimesTimes(t: int, k: int, w: real)
    ensures Times(k * t, w) == Times(t, Times(k, w))
  {
  }

  // The excess fits f times into 1, with something left over.
  lemma Remainder(w: real)
    requires 0.0 < w < 1.0 && !Whole(1.0 / w)
    ensures var f := (1.0 / w).Floor; f >= 1 && 1.0 - w < Times(f, w) < 1.0
  {
    var f := (1.0 / w).Floor;
    FloorIs(1.0, w, f);
    StepsFit(1.0, w, f as real);
    QuotientsInOrder(w, 1.0, w);
    assert w / w == 1.0;
  }

  lemma EvenMiss(a: real, f: nat)
    requires 0.5 < a < 1.0 && 1.0 - Excess(a) < Times(f, Excess(a)) < 1.0 && f % 2 == 0
    ensures Misses(f / 2 + 1, f, a)
  {
    TimesHalf(f, a);
    assert 2.0 * (f / 2 + 1) as real == f as real + 2.0;
  }

  lemma OddMiss(a: real, f: nat) returns (m: nat, k: nat)
    requires 0.5 < a < 1.0 && 1.0 - Excess(a) < Times(f, Excess(a)) < 1.0 && f % 2 == 1
    ensures Misses(m, k, a)
  {
    var w := Excess(a);
    var d := 1.0 - Times(f, w);
    var t := (1.0 / d).Floor + 1;
    FloorIs(1.0, d, t - 1);
    TimesNext(t - 1, d);
    QuotientsInOrder(0.0, 1.0, d);
    assert 1.0 < Times(t, d) <= 1.0 + d;
    m, k := t * ((f + 1) / 2), f * t;
    TimesHalf(k, a);
    TimesTimes(t, f, w);
    TimesSplit(t, 1, -d);
    TimesNegative(t, d);
    OddSum(t, f, m);
  }

  lemma OddSum(t: nat, f: nat, m: nat)
    requires f % 2 == 1 && m == t * ((f + 1) / 2)
    ensures 2.0 * m as real == (f * t) as real + t as real
  {
    var h := (f + 1) / 2;
    assert f == 2 * h - 1;
    assert f * t == 2 * (t * h) - t;
  }

  lemma SomeMiss(a: real) returns (m: nat, k: nat)
    requires 0.5 < a < 1.0 && !Whole(1.0 / Excess(a))
    ensures Misses(m, k, a)
  {
    Remainder(Excess(a));
    var f := (1.0 / Excess(a)).Floor;
    if f % 2 == 0 {
      EvenMiss(a, f);
      m, k := f / 2 + 1, f;
    } else {
      m, k := OddMiss(a, f);
    }
  }

  // Lots finer than a grain leave no number of grains out.
  lemma Reached(m: nat, a: real) returns (k: nat)
    requires 0.0 < a < 1.0 && m >= 1
    ensures GrainsOf(k, a) == m
  {
    var x := m as real - 0.5;
    var j := (x / a).Floor;
    FloorIs(x, a, j);
    TimesNext(j, a);
    QuotientsInOrder(0.0, x, a);
    k := j + 1;
    TimesMonotone(0, k, a);
    RoundIs(Times(k, a), m);
  }

  lemma UnstableQuantity(step: real)
    requires var a := Grains(OrDefault(step)); 0.5 < a < 1.0 && !Whole(1.0 / Excess(a))
    ensures exists q :: q >= 0.0 && !Stable(q, step)
  {
    var s := OrDefault(step);
    var m, k := SomeMiss(Grains(s));
    MissIsLost(m, k, Grains(s));
    TimesMonotone(0, k, Grains(s));
    var j := Reached(m, Grains(s));
    var q := Times(j, s);
    FloorIs(q, s, j);
    TimesMonotone(0, j, s);
    StableIs(q, step);
    assert q >= 0.0 && !Stable(q, step);
  }

  // ---------- every step ----------

  /** The steps with which formatting twice is formatting once, by their size in grains: up to
      half a grain any, up to a grain those of (n + 1) / 2n grains, above the multiples of half a
      grain. */
  predicate SafeStep(a: real)
    requires a > 0.0
  {
    if a <= 0.5 then true else if a < 1.0 then Whole(1.0 / Excess(a)) else Whole(2.0 * a)
  }

  /** Formatting non-negative quantities is idempotent if and only if the step is safe. */
  lemma IdempotentIff(step: real)
    ensures Grains(OrDefault(step)) > 0.0
    ensures (forall q :: q >= 0.0 ==> Stable(q, step)) <==> SafeStep(Grains(OrDefault(step)))
  {
    var s := OrDefault(step);
    PositiveGrains(s);
    if Grains(s) >= 1.0 {
      CoarseIdempotentIff(step);
    } else if SafeStep(Grains(s)) {
      forall q | q >= 0.0
        ensures Stable(q, step)
      {
        SafeStable(q, step);
      }
    } else {
      UnstableQuantity(step);
    }
  }

  lemma SafeStable(q: real, step: real)
    requires q >= 0.0 && 0.0 < Grains(OrDefault(step)) < 1.0 && SafeStep(Grains(OrDefault(step)))
    ensures Stable(q, step)
  {
    var s := OrDefault(step);
    StableIs(q, step);
    GrainsNonNegative(q, s);
    if Grains(s) <= 0.5 {
      TinyStepKeeps(GrainsOf((q / s).Floor, Grains(s)), Grains(s));
    } else {
      WholeExcessKeeps(GrainsOf((q / s).Floor, Grains(s)), Grains(s));
    }
  }

  // ---------- rounding to a step ----------

  /** Whatever the step, the result is within half a step and half a grain of the quantity. */
  lemma KuCoinBounds(qty: real, step: real)
    ensures var s := OrDefault(step);
      qty - 0.5 * s - 0.000000005 <= FormatKuCoin(qty, step) <= qty + 0.5 * s + 0.000000005
  {
    RoundToStep(qty, OrDefault(step));
    SnapIdentityIff(Times(Round(qty / OrDefault(step)), OrDefault(step)));
  }

  lemma QuotientIs(r: real, s: real, x: real)
    requires s > 0.0 && x * s == r
    ensures r / s == x
  {
  }

  lemma GrainsQuotient(v: real, s: real)
    requires s > 0.0
    ensures Grains(s) > 0.0 && Snap(v) / s == Round(Grains(v)) as real / Grains(s)
  {
    var m := Round(Grains(v));
    var x := m as real / Grains(s);
    assert x * Grains(s) == m as real;
    SnapGrains(v);
    assert x * s == Snap(v);
    QuotientIs(Snap(v), s, x);
  }

  // Rounding m grains to lots and back gives m, if m came from n lots.
  lemma NearestKeeps(n: int, m: int, a: real)
    requires a > 0.0 && m == GrainsOf(n, a) && a != 1.0
    ensures GrainsOf(Round(m as real / a), a) == m
  {
    if a < 1.0 {
      RoundToStep(m as real, a);
      RoundIs(Times(Round(m as real / a), a), m);
    } else {
      SameLot(n, m, a);
    }
  }

  lemma SameLot(n: int, m: int, a: real)
    requires a > 1.0 && m == GrainsOf(n, a)
    ensures Round(m as real / a) == n
  {
    RoundIs(Times(n, a), m);
    HalfSteps(n, a);
    StepsFit(m as real, a, n as real - 0.5);
    StepsFit(m as real, a, n as real + 0.5);
    RoundIs(m as real / a, n);
  }

  /** Rounding to a step is idempotent for every step and every quantity. */
  lemma KuCoinIdempotent(qty: real, step: real)
    ensures FormatKuCoin(FormatKuCoin(qty, step), step) == FormatKuCoin(qty, step)
  {
    var s := OrDefault(step);
    var n := Round(qty / s);
    if Grains(s) == 1.0 {
      KuCoinIsNearest(qty, step, 0);
      KuCoinIsNearest(FormatKuCoin(qty, step), step, n);
    } else {
      GrainsQuotient(Times(n, s), s);
      TimesGrains(n, s);
      NearestKeeps(n, GrainsOf(n, Grains(s)), Grains(s));
      TimesGrains(Round(FormatKuCoin(qty, step) / s), s);
    }
  }

  // ---------- the common entry ----------

  predicate Repeatable(exchange: string, qty: real, step: real) {
    var r := FormatQty(exchange, qty, step);
    r.Some? ==> FormatQty(exchange, r.value, step) == r
  }

  /** Only an unknown exchange is refused, and formatting non-negative quantities is idempotent for
      every exchange and step, except where an unsafe step is floored to. */
  lemma FormattingIsStableIff(exchange: string, step: real)
    ensures forall q :: FormatQty(exchange, q, step).Some? <==> exchange in Exchanges
    ensures Grains(OrDefault(step)) > 0.0
    ensures (forall q :: q >= 0.0 ==> Repeatable(exchange, q, step))
      <==> (exchange == "binance" || exchange == "bybit" ==> SafeStep(Grains(OrDefault(step))))
  {
    PositiveGrains(OrDefault(step));
    if exchange == "binance" || exchange == "bybit" {
      IdempotentIff(step);
      assert forall q :: Repeatable(exchange, q, step) <==> Stable(q, step);
    } else {
      forall q
        ensures Repeatable(exchange, q, step)
      {
        OthersRepeat(exchange, q, step);
      }
    }
  }

  lemma OthersRepeat(exchange: string, qty: real, step: real)
    requires exchange != "binance" && exchange != "bybit"
    ensures Repeatable(exchange, qty, step)
  {
    match exchange
    case "hyperliquid" => HyperliquidIdempotent(qty);
    case "bitget" => BitgetIdempotent(qty, 4);
    case "kucoin" => KuCoinIdempotent(qty, step);
    case "aster" => KuCoinIdempotent(qty, step);
    case "lighter" => LighterIdempotent(qty);
    case _ =>
  }

  // ---------- what each exchange gets ----------

  // The number has the five digits of n, in units of 10^e.
  predicate InUnits(r: real, n: int, e: int) { 10000 <= n <= 100000 && r == Times(n, Pow10(e)) }

  /** What the formatted quantity is, exchange by exchange: whole contracts rounded down; four
      decimals rounded down; five significant digits; lots rounded down; lots rounded to the nearest.
      Lots off the grid of 1e-8 are moved by half a grain at most. */
  predicate FormatMeans(exchange: string, qty: real, step: real, r: real) {
    var s := if step > 0.0 then step else 0.01;
    && (exchange == "okx" || exchange == "gate" || exchange == "indodax" ==> r == r.Floor as real && r <= qty < r + 1.0)
    && (exchange == "bitget" || exchange == "lighter" ==> Whole(r * 10000.0) && r <= qty < r + 0.0001)
    && (exchange == "hyperliquid" ==>
          if qty <= 0.0 then r == 0.0 else -0.00005 * qty <= r - qty <= 0.00005 * qty)
    && (exchange == "binance" || exchange == "bybit" ==>
          && qty - s - 0.000000005 < r <= qty + 0.000000005
          && (Fine(s) ==> Whole(r / s) && r <= qty < r + s))
    && (exchange == "kucoin" || exchange == "aster" ==>
          && -0.5 * s - 0.000000005 <= r - qty <= 0.5 * s + 0.000000005
          && (Fine(s) ==> Whole(r / s) && -0.5 * s <= r - qty <= 0.5 * s))
  }

  lemma FormatIs(exchange: string, qty: real, step: real)
    requires exchange in Exchanges
    ensures FormatMeans(exchange, qty, step, FormatQty(exchange, qty, step).value)
  {
    if exchange == "binance" || exchange == "bybit" {
      FloorMeans(qty, step);
    } else if exchange == "kucoin" || exchange == "aster" {
      NearestMeans(qty, step);
    } else {
      LighterIsBitget(qty);
      TenThousandths(qty);
      if qty > 0.0 {
        HyperliquidBounds(qty);
      }
    }
  }

  lemma FloorMeans(qty: real, step: real)
    ensures FormatMeans("binance", qty, step, FormatBinance(qty, step))
    ensures FormatMeans("bybit", qty, step, FormatBinance(qty, step))
  {
    var s := OrDefault(step);
    BinanceBounds(qty, step);
    if Fine(s) {
      BinanceIsFloor(qty, step, 0);
      TimesOver((qty / s).Floor, s);
    }
  }

  lemma NearestMeans(qty: real, step: real)
    ensures FormatMeans("kucoin", qty, step, FormatKuCoin(qty, step))
    ensures FormatMeans("aster", qty, step, FormatKuCoin(qty, step))
  {
    var s := OrDefault(step);
    KuCoinBounds(qty, step);
    if Fine(s) {
      KuCoinIsNearest(qty, step, 0);
      TimesOver(Round(qty / s), s);
    }
  }

  lemma TimesOver(n: int, s: real)
    requires s > 0.0
    ensures Times(n, s) / s == n as real
  {
    QuotientIs(Times(n, s), s, n as real);
  }

  lemma TenThousandths(qty: real)
    ensures var r := FormatBitget(qty, 4); Whole(r * 10000.0) && r <= qty < r + 0.0001
  {
    LighterIsBitget(qty);
    var n := (qty * 10000.0).Floor;
    assert FormatLighter(qty) == n as real / 10000.0;
  }

  /** Five significant digits: a whole number from ten thousand to a hundred thousand of units of a
      power of ten. */
  lemma HyperliquidDigits(qty: real)
    requires qty > 0.0
    ensures exists n, e :: InUnits(FormatHyperliquid(qty), n, e)
  {
    HyperliquidBounds(qty);
    var n :| 10000 <= n <= 100000 && FormatHyperliquid(qty) == Times(n, Unit(qty));
    assert InUnits(FormatHyperliquid(qty), n, Digits(qty) - 5);
  }
}
