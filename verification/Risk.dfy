// The risk filter of the live engine and the order of execution of one cycle
// (internal/trader/engine/risk.go, and runCycle in engine.go).
module Risk {
  import opened Trading

  datatype Config = Config(maxPositions: int, btcEthMaxLeverage: int, altMaxLeverage: int,
                           btcEthRatio: real, altRatio: real, maxMarginUsage: real)

  datatype Decision = Decision(action: Action, symbol: string, quantity: real, price: real, leverage: real)

  // Go's conversion of a float to int drops the fraction.
  function Trunc(x: real): int {
    if x >= 0.0 then x.Floor else -((-x).Floor)
  }

  function MarginRate(leverage: int): real {
    1.01 / (if leverage <= 0 then 1 else leverage) as real + 0.001
  }

  function MarginNeeded(notional: real, leverage: int): real { notional * MarginRate(leverage) }

  // Only the ASCII letters have upper-case forms that matter for the two prefixes.
  function Upper(c: char): char {
    if 'a' <= c <= 'z' then c - 'a' + 'A' else c
  }

  predicate HasPrefix(symbol: string, prefix: string) {
    |symbol| >= |prefix| && forall i :: 0 <= i < |prefix| ==> Upper(symbol[i]) == prefix[i]
  }

  predicate IsBtcEth(symbol: string) {
    HasPrefix(symbol, "BTC") || HasPrefix(symbol, "ETH")
  }

  function MinSize(symbol: string): real { if IsBtcEth(symbol) then 60.0 else 12.0 }

  function MaxOpen(rc: Config): int { if rc.maxPositions <= 0 then 3 else rc.maxPositions }

  function Ratio(rc: Config, symbol: string): real {
    var ratio := if IsBtcEth(symbol) then rc.btcEthRatio else rc.altRatio;
    if ratio <= 0.0 then 1.0 else ratio
  }

  function Cap(rc: Config, symbol: string): int {
    if IsBtcEth(symbol) then rc.btcEthMaxLeverage else rc.altMaxLeverage
  }

  predicate Opens(d: Decision) { d.action.OpenLong? || d.action.OpenShort? }
  predicate Closes(d: Decision) { d.action.CloseLong? || d.action.CloseShort? }

  predicate Quoted(d: Decision) { d.quantity > 0.0 && d.price > 0.0 }

  function Notional(d: Decision): real { d.quantity * d.price }

  /** An opening decision that passes the size, ratio and margin checks on its own. */
  predicate Admissible(rc: Config, balance: real, d: Decision) {
    && (Quoted(d) ==> Notional(d) >= MinSize(d.symbol))
    && (Quoted(d) && balance > 0.0 ==>
          && Notional(d) <= Ratio(rc, d.symbol) * balance
          && (rc.maxMarginUsage > 0.0 ==> MarginNeeded(Notional(d), Trunc(d.leverage)) <= rc.maxMarginUsage * balance))
  }

  predicate Clamped(rc: Config, d: Decision) {
    Cap(rc, d.symbol) > 0 && Trunc(d.leverage) > Cap(rc, d.symbol)
  }

  function Clamp(rc: Config, d: Decision): Decision {
    if Clamped(rc, d) then d.(leverage := Cap(rc, d.symbol) as real) else d
  }

  /** Steps 2 to 4 of the filter: size, value ratio, margin. */
  method PassesChecks(rc: Config, balance: real, a: Decision) returns (ok: bool)
    ensures ok == Admissible(rc, balance, a)
  {
    var minUsd := MinSize(a.symbol);
    if a.quantity > 0.0 && a.price > 0.0 {
      var notional := Notional(a);
      if notional < minUsd {
        return false;
      }
    }
    if balance > 0.0 && a.quantity > 0.0 && a.price > 0.0 {
      var ratio := if IsBtcEth(a.symbol) then rc.btcEthRatio else rc.altRatio;
      if ratio <= 0.0 {
        ratio := 1.0;
      }
      var notional := Notional(a);
      if notional > ratio * balance {
        return false;
      }
      if rc.maxMarginUsage > 0.0 {
        var margin := MarginNeeded(notional, Trunc(a.leverage));
        if margin > rc.maxMarginUsage * balance {
          return false;
        }
      }
    }
    return true;
  }

  method FilterByRisk(rc: Config, open: nat, balance: real, actions: seq<Decision>) returns (out: seq<Decision>)
    ensures out == Chosen(rc, balance, MaxOpen(rc) - open, actions)
  {
    var maxPositions := MaxOpen(rc);
    var openCount := open;
    out := [];
    for i := 0 to |actions|
      invariant out == Chosen(rc, balance, maxPositions - open, actions[..i])
      invariant openCount == open + Min(Admissibles(rc, balance, actions[..i]), maxPositions - open)
    {
      assert actions[..i + 1][..i] == actions[..i];
      var a := actions[i];
      match a.action
      case CloseLong | CloseShort | Hold | Wait =>
        out := out + [a];
      case OpenLong | OpenShort =>
        var ok := PassesChecks(rc, balance, a);
        if openCount < maxPositions && ok {
          var lev, maxLev := Trunc(a.leverage), Cap(rc, a.symbol);
          if lev <= 0 {
            lev := 1;
          }
          if maxLev > 0 && lev > maxLev {
            a := a.(leverage := maxLev as real);
          }
          openCount := openCount + 1;
          out := out + [a];
        }
    }
    assert actions[..|actions|] == actions;
  }

  // ---------- the limits, symbol by symbol ----------

  // BTC or ETH in any letter case, whatever follows.
  predicate Major(symbol: string) {
    && |symbol| >= 3
    && var a, b, c := symbol[0], symbol[1], symbol[2];
      || ((a == 'B' || a == 'b') && (b == 'T' || b == 't') && (c == 'C' || c == 'c'))
      || ((a == 'E' || a == 'e') && (b == 'T' || b == 't') && (c == 'H' || c == 'h'))
  }

  lemma MajorIs(symbol: string)
    ensures IsBtcEth(symbol) <==> Major(symbol)
  {
    UpperIs();
    if |symbol| >= 3 {
      var btc, eth := "BTC", "ETH";
      assert HasPrefix(symbol, btc) <==> Upper(symbol[0]) == 'B' && Upper(symbol[1]) == 'T' && Upper(symbol[2]) == 'C';
      assert HasPrefix(symbol, eth) <==> Upper(symbol[0]) == 'E' && Upper(symbol[1]) == 'T' && Upper(symbol[2]) == 'H';
    }
  }

  lemma UpperIs()
    ensures forall c :: Upper(c) == 'B' <==> c == 'B' || c == 'b'
    ensures forall c :: Upper(c) == 'C' <==> c == 'C' || c == 'c'
    ensures forall c :: Upper(c) == 'E' <==> c == 'E' || c == 'e'
    ensures forall c :: Upper(c) == 'H' <==> c == 'H' || c == 'h'
    ensures forall c :: Upper(c) == 'T' <==> c == 'T' || c == 't'
  {
  }

  // n is x without its fraction.
  predicate Truncated(x: real, n: int) {
    if x >= 0.0 then n as real <= x < n as real + 1.0 else n as real - 1.0 < x <= n as real
  }

  lemma TruncIs(x: real)
    ensures Truncated(x, Trunc(x))
    ensures forall n :: Truncated(x, n) ==> n == Trunc(x)
  {
  }

  lemma MarginIs(n: real, lev: int)
    ensures MarginNeeded(n, lev) * (if lev <= 0 then 1 else lev) as real
      == n * 1.01 + n * 0.001 * (if lev <= 0 then 1 else lev) as real
  {
    var l := (if lev <= 0 then 1 else lev) as real;
    var x := 1.01 / l;
    assert x * l == 1.01;
    assert n * (x + 0.001) * l == n * (x * l) + n * 0.001 * l;
  }

  lemma Compare(margin: real, limit: real, l: real)
    requires l > 0.0
    ensures margin <= limit <==> margin * l <= limit * l
  {
    assert margin <= limit ==> (limit - margin) * l >= 0.0;
    assert margin > limit ==> (margin - limit) * l > 0.0;
    assert (limit - margin) * l == limit * l - margin * l;
  }

  /** An opening with quantity and price is admissible if and only if it is worth at least 60, or 12
      for other symbols than BTC and ETH, no more than the configured multiple (or once) the balance,
      and its margin with 1% reserve and 0.1% fee at the whole part of its leverage, at least 1, fits
      the share of the balance that may be used; the last two only where there is a balance. */
  lemma AdmissibleIff(rc: Config, balance: real, d: Decision, lev: int, share: real)
    requires d.quantity > 0.0 && d.price > 0.0
    requires Truncated(d.leverage, lev) || (lev == 1 && d.leverage < 1.0)
    requires lev >= 1 && share == if Major(d.symbol) then rc.btcEthRatio else rc.altRatio
    ensures Admissible(rc, balance, d) <==>
      var n := d.quantity * d.price;
      && n >= (if Major(d.symbol) then 60.0 else 12.0)
      && (balance > 0.0 ==>
            && n <= (if share > 0.0 then share else 1.0) * balance
            && (rc.maxMarginUsage > 0.0 ==>
                  n * 1.01 + n * 0.001 * lev as real <= rc.maxMarginUsage * balance * lev as real))
  {
    MajorIs(d.symbol);
    TruncIs(d.leverage);
    var n, t := Notional(d), Trunc(d.leverage);
    MarginIs(n, t);
    assert lev == if t <= 0 then 1 else t;
    Compare(MarginNeeded(n, t), rc.maxMarginUsage * balance, lev as real);
  }

  /** What is kept of an admitted opening's leverage: all of it unless its whole part exceeds a
      positive cap, the cap of BTC and ETH or that of the other symbols; then the cap. */
  lemma ClampIs(rc: Config, d: Decision, cap: int, lev: int)
    requires Truncated(d.leverage, lev) && cap == if Major(d.symbol) then rc.btcEthMaxLeverage else rc.altMaxLeverage
    ensures Clamp(rc, d) == if 0 < cap < lev then d.(leverage := cap as real) else d
  {
    MajorIs(d.symbol);
    TruncIs(d.leverage);
  }

  // ---------- what is kept ----------

  // 0 when the budget is negative.
  function Min(n: nat, budget: int): nat {
    if budget < 0 then 0 else if n < budget then n else budget
  }

  function Admissibles(rc: Config, balance: real, actions: seq<Decision>): nat {
    if actions == [] then 0
    else
      var last := actions[|actions| - 1];
      Admissibles(rc, balance, actions[..|actions| - 1]) + if Opens(last) && Admissible(rc, balance, last) then 1 else 0
  }

  /** The reference selection: everything that opens nothing, and an opening if it is admissible
      on its own and fewer than `budget` admissible openings came before it. */
  predicate Selected(rc: Config, balance: real, budget: int, before: seq<Decision>, d: Decision) {
    !Opens(d) || (Admissible(rc, balance, d) && Admissibles(rc, balance, before) < budget)
  }

  function Chosen(rc: Config, balance: real, budget: int, actions: seq<Decision>): seq<Decision> {
    if actions == [] then []
    else
      var front, last := actions[..|actions| - 1], actions[|actions| - 1];
      var kept := Chosen(rc, balance, budget, front);
      if !Selected(rc, balance, budget, front, last) then kept
      else if Opens(last) then kept + [Clamp(rc, last)]
      else kept + [last]
  }

  function CountOpens(ds: seq<Decision>): nat {
    if ds == [] then 0 else CountOpens(ds[..|ds| - 1]) + if Opens(ds[|ds| - 1]) then 1 else 0
  }

  /** The filter lets through the first openings that are admissible, up to the number of free
      places, and all other decisions. */
  lemma {:induction false} KeptOpens(rc: Config, balance: real, budget: int, actions: seq<Decision>)
    ensures var out := Chosen(rc, balance, budget, actions);
      && CountOpens(out) == Min(Admissibles(rc, balance, actions), budget)
      && |out| - CountOpens(out) == |actions| - CountOpens(actions)
  {
    if actions != [] {
      KeptOpens(rc, balance, budget, actions[..|actions| - 1]);
    }
  }

  /** Beside the positions that are open, no opening is kept beyond the configured maximum, or three. */
  lemma KeptWithinMaximum(rc: Config, balance: real, open: nat, actions: seq<Decision>)
    ensures var kept := CountOpens(Chosen(rc, balance, MaxOpen(rc) - open, actions));
      kept == 0 || open + kept <= if rc.maxPositions > 0 then rc.maxPositions else 3
  {
    KeptOpens(rc, balance, MaxOpen(rc) - open, actions);
  }

  function OthersOf(ds: seq<Decision>): seq<Decision> {
    if ds == [] then []
    else
      var rest, last := OthersOf(ds[..|ds| - 1]), ds[|ds| - 1];
      if Opens(last) then rest else rest + [last]
  }

  function OpensOf(ds: seq<Decision>): seq<Decision> {
    if ds == [] then []
    else
      var rest, last := OpensOf(ds[..|ds| - 1]), ds[|ds| - 1];
      if Opens(last) then rest + [last] else rest
  }

  function AdmissibleOf(rc: Config, balance: real, ds: seq<Decision>): (r: seq<Decision>)
    ensures |r| == Admissibles(rc, balance, ds)
  {
    if ds == [] then []
    else
      var rest, last := AdmissibleOf(rc, balance, ds[..|ds| - 1]), ds[|ds| - 1];
      if Opens(last) && Admissible(rc, balance, last) then rest + [last] else rest
  }

  function ClampAll(rc: Config, ds: seq<Decision>): (r: seq<Decision>)
    ensures |r| == |ds|
  {
    if ds == [] then [] else ClampAll(rc, ds[..|ds| - 1]) + [Clamp(rc, ds[|ds| - 1])]
  }

  /** In order and unchanged: every decision that opens nothing; in order and with the leverage
      clamped: exactly the first admissible openings, as many as there are free places. */
  lemma {:induction false} KeptInOrder(rc: Config, balance: real, budget: int, actions: seq<Decision>)
    ensures var out, admissible := Chosen(rc, balance, budget, actions), AdmissibleOf(rc, balance, actions);
      && OthersOf(out) == OthersOf(actions)
      && OpensOf(out) == ClampAll(rc, admissible[..Min(|admissible|, budget)])
  {
    if actions != [] {
      var front, last := actions[..|actions| - 1], actions[|actions| - 1];
      KeptInOrder(rc, balance, budget, front);
      var kept, before := Chosen(rc, balance, budget, front), AdmissibleOf(rc, balance, front);
      Snoc(kept, last);
      Snoc(kept, Clamp(rc, last));
      if Opens(last) && Admissible(rc, balance, last) {
        PrefixWithOneMore(before, last, budget);
        assert (before + [last])[..|before|] == before && before[..|before|] == before;
      }
    }
  }

  lemma Snoc(ds: seq<Decision>, d: Decision)
    ensures OthersOf(ds + [d]) == if Opens(d) then OthersOf(ds) else OthersOf(ds) + [d]
    ensures OpensOf(ds + [d]) == if Opens(d) then OpensOf(ds) + [d] else OpensOf(ds)
  {
    assert (ds + [d])[..|ds|] == ds;
  }

  // One more element only shows in a prefix that was not full.
  lemma PrefixWithOneMore(ds: seq<Decision>, d: Decision, budget: int)
    ensures (ds + [d])[..Min(|ds| + 1, budget)]
      == if |ds| < budget then ds + [d] else ds[..Min(|ds|, budget)]
  {
  }

  lemma TruncOfInt(n: int)
    ensures Trunc(n as real) == n
  {
  }

  // What holds of an opening decision that the filter let through.
  predicate Safe(rc: Config, balance: real, d: Decision) {
    && (Quoted(d) ==> Notional(d) >= MinSize(d.symbol))
    && (Quoted(d) && balance > 0.0 ==> Notional(d) <= Ratio(rc, d.symbol) * balance)
    && (Cap(rc, d.symbol) > 0 ==> Trunc(d.leverage) <= Cap(rc, d.symbol))
  }

  /** Every opening that is kept respects the minimum size, the value ratio and the leverage cap,
      and stems from a requested one whose margin fits at the leverage requested. */
  lemma {:induction false} KeptOpensAreSafe(rc: Config, balance: real, budget: int, actions: seq<Decision>, k: nat)
    requires k < |Chosen(rc, balance, budget, actions)| && Opens(Chosen(rc, balance, budget, actions)[k])
    ensures var d := Chosen(rc, balance, budget, actions)[k];
      && Safe(rc, balance, d)
      && exists i :: 0 <= i < |actions| && Opens(actions[i]) && d == Clamp(rc, actions[i])
                     && Admissible(rc, balance, actions[i])
  {
    var front, last := actions[..|actions| - 1], actions[|actions| - 1];
    var kept := Chosen(rc, balance, budget, front);
    if k < |kept| {
      KeptOpensAreSafe(rc, balance, budget, front, k);
      var i :| 0 <= i < |front| && Opens(front[i]) && kept[k] == Clamp(rc, front[i]) && Admissible(rc, balance, front[i]);
      assert actions[i] == front[i];
    } else {
      TruncOfInt(Cap(rc, last.symbol));
      assert actions[|front|] == last && Clamp(rc, last) == Chosen(rc, balance, budget, actions)[k];
    }
  }

  /** In terms of the actions: closings, holds and waits always pass as they are; an opening of
      either side that passes stems from an admissible one, clamped. */
  lemma {:induction false} FilterIs(rc: Config, balance: real, budget: int, actions: seq<Decision>, d: Decision)
    ensures d in actions && (d.action.CloseLong? || d.action.CloseShort? || d.action.Hold? || d.action.Wait?) ==>
      d in Chosen(rc, balance, budget, actions)
    ensures d in Chosen(rc, balance, budget, actions) ==>
      exists a :: a in actions && a.action == d.action && if a.action.OpenLong? || a.action.OpenShort? then
        Admissible(rc, balance, a) && d == Clamp(rc, a) else d == a
  {
    if actions != [] {
      var front, last := actions[..|actions| - 1], actions[|actions| - 1];
      FilterIs(rc, balance, budget, front, d);
      assert actions == front + [last];
      var kept := Chosen(rc, balance, budget, front);
      if d in Chosen(rc, balance, budget, actions) && d !in kept {
        assert last in actions && last.action == d.action;
      }
    }
  }

  // ---------- the margin at the leverage actually used ----------

  lemma RateDecreases(a: int, b: int)
    requires 1 <= a < b
    ensures MarginRate(a) > MarginRate(b)
  {
    var x, y := 1.01 / a as real, 1.01 / b as real;
    assert x * a as real == 1.01 && y * b as real == 1.01;
    assert y > 0.0;
    assert y * b as real == y * a as real + y * (b - a) as real;
    assert y * (b - a) as real > 0.0;
    assert (x - y) * a as real > 0.0;
  }

  lemma RatePositive(leverage: int)
    ensures MarginRate(leverage) > 0.0
  {
    var l := if leverage <= 0 then 1 else leverage;
    var x := 1.01 / l as real;
    assert x * l as real == 1.01;
  }

  lemma Product(a: real, b: real, c: real)
    requires a <= b && c >= 0.0
    ensures a * c <= b * c
    ensures a < b && c > 0.0 ==> a * c < b * c
  {
    assert (b - a) * c >= 0.0;
    assert b * c - a * c == (b - a) * c;
    if a < b && c > 0.0 {
      assert (b - a) * c > 0.0;
    }
  }

  ghost predicate MarginAlwaysFits(rc: Config, d: Decision) {
    forall balance :: balance > 0.0 && Admissible(rc, balance, d) ==>
      MarginNeeded(Notional(d), Trunc(Clamp(rc, d).leverage)) <= rc.maxMarginUsage * balance
  }

  lemma FitsWhenLimitCoversRatio(rc: Config, d: Decision, balance: real, rate: real)
    requires balance > 0.0 && rate > 0.0 && Notional(d) <= Ratio(rc, d.symbol) * balance
    requires Ratio(rc, d.symbol) * rate <= rc.maxMarginUsage
    ensures Notional(d) * rate <= rc.maxMarginUsage * balance
  {
    var ratio := Ratio(rc, d.symbol);
    Product(Notional(d), ratio * balance, rate);
    Product(ratio * rate, rc.maxMarginUsage, balance);
    assert (ratio * balance) * rate == (ratio * rate) * balance;
  }

  // A balance at which the check passes but the clamped leverage needs too much margin.
  lemma OverdrawnBalance(n: real, ratio: real, usage: real, requested: real, actual: real) returns (balance: real)
    requires n > 0.0 && ratio > 0.0 && usage > 0.0 && 0.0 < requested < actual && ratio * actual > usage
    ensures balance > 0.0 && n <= ratio * balance && n * requested <= usage * balance && n * actual > usage * balance
  {
    var b1, b2 := n * requested / usage, n / ratio;
    assert b1 * usage == n * requested && b2 * ratio == n;
    Product(requested, actual, n);
    assert b2 > 0.0;
    Product(usage, ratio * actual, b2);
    assert (ratio * actual) * b2 == (b2 * ratio) * actual;
    balance := if b1 > b2 then b1 else b2;
    Product(b1, balance, usage);
    Product(b2, balance, ratio);
  }

  lemma UnclampedFits(rc: Config, d: Decision)
    requires Quoted(d) && rc.maxMarginUsage > 0.0 && !Clamped(rc, d)
    ensures MarginAlwaysFits(rc, d)
  {
  }

  lemma CoveredFits(rc: Config, d: Decision)
    requires Quoted(d) && Clamped(rc, d)
    requires Ratio(rc, d.symbol) * MarginRate(Cap(rc, d.symbol)) <= rc.maxMarginUsage
    ensures MarginAlwaysFits(rc, d)
  {
    var cap := Cap(rc, d.symbol);
    TruncOfInt(cap);
    RatePositive(cap);
    assert Trunc(Clamp(rc, d).leverage) == cap;
    var n, rate := Notional(d), MarginRate(cap);
    forall balance | balance > 0.0 && Admissible(rc, balance, d)
      ensures n * rate <= rc.maxMarginUsage * balance
    {
      FitsWhenLimitCoversRatio(rc, d, balance, rate);
    }
  }

  lemma UncoveredDoesNotFit(rc: Config, d: Decision)
    requires Quoted(d) && Notional(d) >= MinSize(d.symbol) && rc.maxMarginUsage > 0.0 && Clamped(rc, d)
    requires Ratio(rc, d.symbol) * MarginRate(Cap(rc, d.symbol)) > rc.maxMarginUsage
    ensures !MarginAlwaysFits(rc, d)
  {
    var cap, ratio, rate := Cap(rc, d.symbol), Ratio(rc, d.symbol), MarginRate(Trunc(d.leverage));
    TruncOfInt(cap);
    RatePositive(Trunc(d.leverage));
    RateDecreases(cap, Trunc(d.leverage));
    var balance := OverdrawnBalance(Notional(d), ratio, rc.maxMarginUsage, rate, MarginRate(cap));
    assert Admissible(rc, balance, d);
    assert Trunc(Clamp(rc, d).leverage) == cap;
  }

  /** The margin check uses the requested leverage and the cap comes after it, so the margin limit
      holds at the leverage actually used, for every balance, if and only if the decision is not
      clamped or the limit covers the whole value ratio at the capped leverage. */
  lemma MarginFitsIff(rc: Config, d: Decision)
    requires Opens(d) && Quoted(d) && Notional(d) >= MinSize(d.symbol) && rc.maxMarginUsage > 0.0
    ensures MarginAlwaysFits(rc, d) <==>
      !Clamped(rc, d) || Ratio(rc, d.symbol) * MarginRate(Cap(rc, d.symbol)) <= rc.maxMarginUsage
  {
    if !Clamped(rc, d) {
      UnclampedFits(rc, d);
    } else if Ratio(rc, d.symbol) * MarginRate(Cap(rc, d.symbol)) <= rc.maxMarginUsage {
      CoveredFits(rc, d);
    } else {
      UncoveredDoesNotFit(rc, d);
    }
  }

  // ---------- closing before opening ----------

  function Only(ds: seq<Decision>, closing: bool): seq<Decision> {
    if ds == [] then []
    else
      var rest := Only(ds[..|ds| - 1], closing);
      if Closes(ds[|ds| - 1]) == closing then rest + [ds[|ds| - 1]] else rest
  }

  method CloseFirst(actions: seq<Decision>) returns (ordered: seq<Decision>)
    ensures ordered == Only(actions, true) + Only(actions, false)
  {
    var closeFirst, openActions := [], [];
    for i := 0 to |actions|
      invariant closeFirst == Only(actions[..i], true) && openActions == Only(actions[..i], false)
    {
      assert actions[..i + 1][..i] == actions[..i];
      var a := actions[i];
      match a.action
      case CloseLong | CloseShort => closeFirst := closeFirst + [a];
      case _ => openActions := openActions + [a];
    }
    assert actions[..|actions|] == actions;
    return closeFirst + openActions;
  }

  /** Reordering drops and invents nothing. */
  lemma {:induction false} CloseFirstPermutes(ds: seq<Decision>)
    ensures multiset(Only(ds, true)) + multiset(Only(ds, false)) == multiset(ds)
  {
    if ds != [] {
      var front, last := ds[..|ds| - 1], ds[|ds| - 1];
      CloseFirstPermutes(front);
      assert ds == front + [last];
      assert multiset(Only(ds, Closes(last))) == multiset(Only(front, Closes(last))) + multiset{last};
      assert Only(ds, !Closes(last)) == Only(front, !Closes(last));
    }
  }

  /** All closings come first. */
  lemma {:induction false} ClosingsComeFirst(ds: seq<Decision>)
    ensures forall d :: d in Only(ds, true) ==> d.action.CloseLong? || d.action.CloseShort?
    ensures forall d ::
      d in Only(ds, false) ==> d.action.OpenLong? || d.action.OpenShort? || d.action.Hold? || d.action.Wait?
  {
    if ds != [] {
      ClosingsComeFirst(ds[..|ds| - 1]);
    }
  }

  lemma {:induction false} CloseFirstOpens(ds: seq<Decision>)
    ensures CountOpens(Only(ds, true)) == 0 && CountOpens(Only(ds, false)) == CountOpens(ds)
  {
    if ds != [] {
      CloseFirstOpens(ds[..|ds| - 1]);
    }
  }

  // ---------- the number of open positions while a cycle executes ----------

  function OpenCount(s: State, trader: string): nat { |ListOpen(s.positions, trader)| }

  /** The decisions in order, each with what the exchange answers. */
  function ExecuteAll(s: State, trader: string, ds: seq<Decision>, results: seq<Option<Result>>): State
    requires |ds| == |results|
  {
    if ds == [] then s
    else
      var n := |ds| - 1;
      Execute(ExecuteAll(s, trader, ds[..n], results[..n]), trader, ds[n].action, ds[n].symbol, ds[n].quantity, results[n])
  }

  lemma {:induction false} ClosingOpensNone(ps: seq<Position>, id: nat, pnl: real, trader: string)
    ensures |ListOpen(ClosePosition(ps, id, pnl), trader)| <= |ListOpen(ps, trader)|
  {
    if id < |ps| && !ps[id].closed {
      var n := |ps| - 1;
      var qs := ClosePosition(ps, id, pnl);
      if id < n {
        ClosingOpensNone(ps[..n], id, pnl, trader);
        assert qs[..n] == ClosePosition(ps[..n], id, pnl);
      } else {
        assert qs[..n] == ps[..n];
      }
    }
  }

  lemma ExecuteOpens(s: State, trader: string, d: Decision, result: Option<Result>)
    ensures OpenCount(Execute(s, trader, d.action, d.symbol, d.quantity, result), trader)
      <= OpenCount(s, trader) + if Opens(d) then 1 else 0
  {
    if result.Some? {
      var price := result.value.price;
      var m := Match(ListOpen(s.positions, trader), d.symbol, None);
      if m.Some? {
        ClosingOpensNone(s.positions, m.value.id, Profit(m.value, price), trader);
      }
      assert AddPosition(s, trader, d.symbol, Long, d.quantity, price).positions[..|s.positions|] == s.positions;
      assert AddPosition(s, trader, d.symbol, Short, d.quantity, price).positions[..|s.positions|] == s.positions;
    }
  }

  lemma {:induction false} ExecuteAllOpens(s: State, trader: string, ds: seq<Decision>, results: seq<Option<Result>>)
    requires |ds| == |results|
    ensures OpenCount(ExecuteAll(s, trader, ds, results), trader) <= OpenCount(s, trader) + CountOpens(ds)
  {
    if ds != [] {
      var n := |ds| - 1;
      ExecuteAllOpens(s, trader, ds[..n], results[..n]);
      ExecuteOpens(ExecuteAll(s, trader, ds[..n], results[..n]), trader, ds[n], results[n]);
    }
  }

  lemma {:induction false} CountOpensPrefix(ds: seq<Decision>, k: nat)
    requires k <= |ds|
    ensures CountOpens(ds[..k]) <= CountOpens(ds)
  {
    if k == |ds| {
      assert ds[..k] == ds;
    } else {
      var front := ds[..|ds| - 1];
      CountOpensPrefix(front, k);
      assert front[..k] == ds[..k];
    }
  }

  lemma {:induction false} CountOpensAppend(a: seq<Decision>, b: seq<Decision>)
    ensures CountOpens(a + b) == CountOpens(a) + CountOpens(b)
  {
    if b == [] {
      assert a + b == a;
    } else {
      CountOpensAppend(a, b[..|b| - 1]);
      assert (a + b)[..|a + b| - 1] == a + b[..|b| - 1];
    }
  }

  // What runCycle executes, in order.
  function Plan(rc: Config, balance: real, open: nat, actions: seq<Decision>): seq<Decision> {
    var kept := Chosen(rc, balance, MaxOpen(rc) - open, actions);
    Only(kept, true) + Only(kept, false)
  }

  lemma PlanOpens(rc: Config, balance: real, open: nat, actions: seq<Decision>)
    ensures open + CountOpens(Plan(rc, balance, open, actions)) <= if open > MaxOpen(rc) then open else MaxOpen(rc)
  {
    var kept := Chosen(rc, balance, MaxOpen(rc) - open, actions);
    KeptOpens(rc, balance, MaxOpen(rc) - open, actions);
    CloseFirstOpens(kept);
    CountOpensAppend(Only(kept, true), Only(kept, false));
  }

  /** At every point of a cycle's execution, whatever the exchange answers, the trader has at most
      as many open positions as the configured maximum, or as it had at the start if that was
      more. */
  lemma OpenCountStaysBounded(rc: Config, balance: real, s: State, trader: string, actions: seq<Decision>,
                              k: nat, results: seq<Option<Result>>)
    requires k <= |Plan(rc, balance, OpenCount(s, trader), actions)| && |results| == k
    ensures var start := OpenCount(s, trader); var plan := Plan(rc, balance, start, actions);
      OpenCount(ExecuteAll(s, trader, plan[..k], results), trader) <= if start > MaxOpen(rc) then start else MaxOpen(rc)
  {
    var plan := Plan(rc, balance, OpenCount(s, trader), actions);
    PlanOpens(rc, balance, OpenCount(s, trader), actions);
    CountOpensPrefix(plan, k);
    ExecuteAllOpens(s, trader, plan[..k], results);
  }

  // ---------- the drawdown guard ----------

  /** The guard closes everything exactly when the equity is more than 5% above the first snapshot
      and yet at least 40% below some snapshot. */
  method MaxDrawdownGuard(snapshots: seq<real>, equity: real) returns (trips: bool)
    ensures trips <==>
      && snapshots != [] && snapshots[0] > 0.0 && equity > snapshots[0] * 1.05
      && exists i :: 0 <= i < |snapshots| && equity <= 0.6 * snapshots[i]
  {
    if |snapshots| == 0 {
      return false;
    }
    var peak := snapshots[0];
    for i := 0 to |snapshots|
      invariant peak in snapshots && snapshots[0] <= peak
      invariant forall j :: 0 <= j < i ==> snapshots[j] <= peak
    {
      if snapshots[i] > peak {
        peak := snapshots[i];
      }
    }
    var base := snapshots[0];
    if base <= 0.0 || equity <= base * 1.05 {
      return false;
    }
    if peak <= 0.0 {
      return false;
    }
    DropIff(peak, equity);
    if (peak - equity) / peak < 0.40 {
      return false;
    }
    return true;
  }

  lemma DropIff(peak: real, equity: real)
    requires peak > 0.0
    ensures (peak - equity) / peak < 0.40 <==> equity > 0.6 * peak
  {
    var drop := (peak - equity) / peak;
    assert drop * peak == peak - equity;
    var gap := 0.40 - drop;
    assert gap * peak == equity - 0.6 * peak;
    if gap > 0.0 {
      assert gap * peak > 0.0;
    } else {
      assert -gap * peak >= 0.0;
    }
  }
}
