/** animation.rs: the bounded best rational approximation, and the delays built on it. */
module Animation {
  import opened Arithmetic
  import opened BestFraction
  import opened Options

  const U64_MAX: int := 0xFFFF_FFFF_FFFF_FFFF

  newtype u32 = x: int | 0 <= x <= 0xFFFF_FFFF
  newtype u64 = x: int | 0 <= x <= 0xFFFF_FFFF_FFFF_FFFF

  datatype Ordering = Less | Equal | Greater

  function Cmp(a: u64, b: u64): Ordering {
    if a < b then Less else if a == b then Equal else Greater
  }

  /** A product of two values that fit into a u32 fits into a u64. */
  lemma ProductFits(a: int, b: int)
    requires 0 <= a <= U32_MAX && 0 <= b <= U32_MAX
    ensures 0 <= a * b <= U64_MAX
  {
    MulMono(a, U32_MAX, b);
    MulMono(b, U32_MAX, U32_MAX);
  }

  predicate Small(x: u64) {
    x as int <= U32_MAX
  }

  function CompareFraction(an: u64, ad: u64, bn: u64, bd: u64): (r: Ordering)
    requires Small(an) && Small(ad) && Small(bn) && Small(bd)
    ensures r.Less? <==> an as int * bd as int < bn as int * ad as int
    ensures r.Equal? <==> an as int * bd as int == bn as int * ad as int
  {
    ProductFits(an as int, bd as int);
    ProductFits(bn as int, ad as int);
    Cmp(an * bd, bn * ad)
  }

  function AbsDiffNom(an: u64, ad: u64, bn: u64, bd: u64): (r: u64)
    requires Small(an) && Small(ad) && Small(bn) && Small(bd)
    ensures r as int == Dist(an as int, ad as int, bn as int, bd as int)
  {
    ProductFits(an as int, bd as int);
    ProductFits(bn as int, ad as int);
    var c0, c1 := an * bd, ad * bn;
    var d0 := if c0 >= c1 then c0 else c1;
    var d1 := if c0 >= c1 then c1 else c0;
    d0 - d1
  }

  /** Comparing x/n with y/g by quotient and then by remainder is comparing x * g with y * n. */
  lemma QuotientThenRemainder(x: int, n: int, qx: int, rx: int, y: int, g: int, qy: int, ry: int)
    requires x == n * qx + rx && 0 <= rx < n
    requires y == g * qy + ry && 0 <= ry < g
    ensures qx < qy ==> x * g < y * n
    ensures qx > qy ==> x * g > y * n
    ensures qx == qy ==> (x * g < y * n <==> rx * g < ry * n)
  {
    Parts(x, n, qx, rx, g);
    Parts(y, g, qy, ry, n);
    MulMono(rx + 1, n, g);
    MulMono(ry + 1, g, n);
    MulMono(0, ry, n);
    MulMono(0, rx, g);
    assert n * g == g * n;
    if qx < qy {
      MulMono(qx + 1, qy, n * g);
    } else if qx > qy {
      MulMono(qy + 1, qx, n * g);
    }
  }

  lemma Divided(x: u64, n: u64)
    requires n >= 1
    ensures x as int == n as int * (x / n) as int + (x % n) as int
    ensures 0 <= (x % n) as int < n as int
  {
  }

  lemma Parts(x: int, n: int, q: int, r: int, g: int)
    requires x == n * q + r
    ensures x * g == q * (n * g) + r * g
    ensures (r + 1) * g == r * g + g && (q + 1) * (n * g) == q * (n * g) + n * g
  {
    assert (n * q + r) * g == n * q * g + r * g;
  }

  /** n/d is closer to the target than g/h: the test made before the guess is replaced. */
  function IsCloser(nDiff: u64, nd: u64, gDiff: u64, gd: u64): (r: bool)
    requires Small(nd) && Small(gd) && nd >= 1 && gd >= 1
    ensures r <==> nDiff as int * gd as int < gDiff as int * nd as int
  {
    var qn, rn, qg, rg := nDiff / nd, nDiff % nd, gDiff / gd, gDiff % gd;
    Divided(nDiff, nd);
    Divided(gDiff, gd);
    QuotientThenRemainder(nDiff as int, nd as int, qn as int, rn as int, gDiff as int, gd as int, qg as int, rg as int);
    match Cmp(qn, qg)
    case Less => true
    case Greater => false
    case Equal => CompareFraction(rn, nd, rg, gd).Less?
  }

  /** `nom * 2` as a u32: the product loses its carry. */
  function Doubled(nom: u32): u32 {
    (nom as int * 2 % 0x1_0000_0000) as u32
  }

  predicate Wraps(nom: int) {
    2 * nom > U32_MAX
  }

  /**
   * The Farey search. Its result is the best fraction, the unique first of all fractions with a
   * bounded denominator, unless the doubling of `nom` wraps around and 1/1 was the answer.
   */
  method ClosestBoundedFraction(denomBound: u32, nom: u32, denom: u32) returns (a: u32, b: u32)
    requires 0 < denom && 0 < denomBound && nom < denom
    ensures a <= b && 1 <= b <= denomBound
    ensures var (bound, n, d) := (denomBound as int, nom as int, denom as int);
            && (IsBest(a as int, b as int, bound, n, d) <==> !MissesOne(bound, n, d, Wraps(n)))
            && (!MissesOne(bound, n, d, Wraps(n)) ==> 2 * bound * Dist(a as int, b as int, n, d) <= b as int * d)
  {
    var lower: (u64, u64) := (0, 1);
    var upper: (u64, u64) := (1, 1);
    var guess: (u64, u64) := (if Doubled(nom) > denom then 1 else 0, 1);
    var exact: (u64, u64) := (nom as u64, denom as u64);
    ghost var bound, n, d := denomBound as int, nom as int, denom as int;
    InvStart(guess.0 as int, bound, n, d, Wraps(n));
    while true
      invariant lower.1 <= denomBound as u64 && upper.1 <= denomBound as u64
      invariant Inv(SearchOf(lower, upper, guess), bound, n, d, Wraps(n))
      decreases 2 * denomBound as int - lower.1 as int - upper.1 as int
    {
      hide Inv, BestFraction.Step, Dist;
      InvParts(SearchOf(lower, upper, guess), bound, n, d, Wraps(n));
      if CompareFraction(guess.0, guess.1, exact.0, exact.1) == Equal {
        break;
      }
      if denomBound as u64 - lower.1 < upper.1 {
        break;
      }
      InvStep(SearchOf(lower, upper, guess), bound, n, d, Wraps(n));
      lower, upper, guess := Advance(lower, upper, guess, exact);
      InvParts(SearchOf(lower, upper, guess), bound, n, d, Wraps(n));
    }
    InvDone(SearchOf(lower, upper, guess), bound, n, d, Wraps(n));
    a, b := guess.0 as u32, guess.1 as u32;
  }

  /** The rest of the loop body: the next Farey fraction, the neighbour it replaces, and the guess. */
  method Advance(lower: (u64, u64), upper: (u64, u64), guess: (u64, u64), exact: (u64, u64))
    returns (lower': (u64, u64), upper': (u64, u64), guess': (u64, u64))
    requires Small(lower.0) && Small(lower.1) && Small(upper.0) && Small(upper.1) && Small(guess.0) && Small(guess.1)
    requires lower.1 >= 1 && upper.1 >= 1 && guess.1 >= 1
    requires lower.0 as int + upper.0 as int <= U32_MAX && lower.1 as int + upper.1 as int <= U32_MAX
    requires Small(exact.0) && Small(exact.1)
    ensures SearchOf(lower', upper', guess') == BestFraction.Step(SearchOf(lower, upper, guess), exact.0 as int, exact.1 as int)
    ensures lower'.1 as int + upper'.1 as int > lower.1 as int + upper.1 as int
  {
    hide Dist;
    lower', upper', guess' := lower, upper, guess;
    var next := (lower.0 + upper.0, lower.1 + upper.1);
    if CompareFraction(exact.0, exact.1, next.0, next.1) == Less {
      upper' := next;
    } else {
      lower' := next;
    }
    var gDiffNom := AbsDiffNom(guess.0, guess.1, exact.0, exact.1);
    var nDiffNom := AbsDiffNom(next.0, next.1, exact.0, exact.1);
    if IsCloser(nDiffNom, next.1, gDiffNom, guess.1) {
      guess' := next;
    }
  }

  ghost function SearchOf(lower: (u64, u64), upper: (u64, u64), guess: (u64, u64)): Search {
    Search(lower.0 as int, lower.1 as int, upper.0 as int, upper.1 as int, guess.0 as int, guess.1 as int)
  }

  lemma InvParts(s: Search, bound: int, nom: int, denom: int, wrapped: bool)
    requires Inv(s, bound, nom, denom, wrapped)
    ensures 0 <= s.ln <= s.ld <= bound && 0 <= s.un <= s.ud <= bound && 0 <= s.gn <= s.gd <= bound
    ensures s.ld >= 1 && s.ud >= 1 && s.gd >= 1
    ensures Dist(s.gn, s.gd, nom, denom) == 0 <==> s.gn * denom == nom * s.gd
  {
  }

  // ---- durations and delays --------------------------------------------------------------------

  /** `std::time::Duration`: whole seconds in a u64, and nanoseconds below one second. */
  datatype RawDuration = Duration(secs: nat, nanos: nat)
  type Duration = d: RawDuration | d.secs <= U64_MAX && d.nanos < 1_000_000_000 witness Duration(0, 0)

  datatype Delay = Delay(numer: u32, denom: u32)

  function AsMillis(d: Duration): nat {
    d.secs * 1000 + d.nanos / 1_000_000
  }

  function AsNanos(d: Duration): nat {
    d.secs * 1_000_000_000 + d.nanos
  }

  /** The nanoseconds beyond the last whole millisecond. */
  function SubMillis(d: Duration): nat {
    AsNanos(d) % 1_000_000
  }

  function ClampedMillis(d: Duration): nat {
    if AsMillis(d) <= U32_MAX then AsMillis(d) else U32_MAX
  }

  /** The largest denominator for which `b * millis + (b - 1)` fits into a u32. */
  function MaxDenom(millis: nat): (b: nat)
    requires millis <= U32_MAX
    ensures 1 <= b <= U32_MAX
    ensures millis > 0 ==> b * (millis + 1) <= U32_MAX + 1
  {
    if millis > 0 then
      Quotient(U32_MAX + 1, millis + 1);
      (U32_MAX + 1) / (millis + 1)
    else U32_MAX
  }

  /** The denominator bound is the largest for which every fraction below 1 fits behind the milliseconds. */
  lemma {:induction false} MaxDenomIsLargest(millis: nat, b: nat)
    requires 0 < millis <= U32_MAX
    ensures b * millis + (b - 1) <= U32_MAX <==> b <= MaxDenom(millis)
  {
    var q, m := MaxDenom(millis), millis + 1;
    assert U32_MAX + 1 == m * q + (U32_MAX + 1) % m && 0 <= (U32_MAX + 1) % m < m;
    assert b * m == b * millis + b && q * m == m * q && (q + 1) * m == q * m + m;
    if b <= q {
      MulMono(b, q, m);
    } else {
      MulMono(q + 1, b, m);
    }
  }

  lemma Quotient(n: int, m: int)
    requires 2 <= m <= n
    ensures 1 <= n / m < n && (n / m) * m <= n
  {
    assert n == m * (n / m) + n % m;
    if n / m <= 0 {
      MulSign(m, n / m);
    }
    AtLeast(n / m, m - 1);
    assert (n / m) * m == (n / m) * (m - 1) + n / m;
  }

  /** `delay` is the clamped whole milliseconds plus the best fraction for the rest. */
  ghost predicate IsDelayOf(d: Duration, delay: Delay) {
    var millis := ClampedMillis(d);
    var a, b := delay.numer as int - delay.denom as int * millis, delay.denom as int;
    0 <= a <= b && IsBest(a, b, MaxDenom(millis), SubMillis(d), 1_000_000)
  }

  /** The numerator fits into a u32 unless the duration saturates and its fraction rounds up. */
  lemma NumeratorFits(a: int, b: int, millis: nat, sub: nat)
    requires millis <= U32_MAX && sub < 1_000_000 && 0 <= a <= b
    requires IsBest(a, b, MaxDenom(millis), sub, 1_000_000)
    ensures a + b * millis <= U32_MAX <==> millis < U32_MAX || sub <= 500_000
    ensures millis == U32_MAX && sub <= 500_000 ==> a == 0 && b == 1
  {
    if millis == 0 {
    } else if millis == U32_MAX {
      assert MaxDenom(millis) == 1;
      assert Beats(a, b, 0, 1, sub, 1_000_000) && Beats(a, b, 1, 1, sub, 1_000_000);
    } else {
      MulMono(b, MaxDenom(millis), millis + 1);
      assert b * (millis + 1) == b * millis + b;
      if a == b {
        BestIsReduced(a, b, MaxDenom(millis), sub, 1_000_000, b, 1, 1);
      }
    }
  }

  /** None: `a + b * millis` does not fit into a u32, which happens exactly for the durations named. */
  method FromSaturatingDuration(d: Duration) returns (r: Option<Delay>)
    ensures r.None? <==> AsMillis(d) >= U32_MAX && SubMillis(d) > 500_000
    ensures r.Some? ==> IsDelayOf(d, r.value)
    ensures r.Some? && AsMillis(d) >= U32_MAX ==> r.value == Delay(0xFFFF_FFFF, 1)
  {
    hide IsBest, AsNanos, AsMillis, MaxDenom;
    var millis, submillis := ClampedMillis(d), SubMillis(d);
    var maxB := MaxDenom(millis);
    var a, b := ClosestBoundedFraction(maxB as u32, submillis as u32, 1_000_000);
    assert IsBest(a as int, b as int, maxB, submillis, 1_000_000);
    NumeratorFits(a as int, b as int, millis, submillis);
    var numer := a as int + b as int * millis;
    if numer > U32_MAX {
      return None;
    }
    r := Some(Delay(numer as u32, b));
  }

  /** `Duration::from(delay)`: whole milliseconds, and the rest truncated to nanoseconds. */
  function ToDuration(delay: Delay): Duration
    requires delay.denom != 0
  {
    var ms, rest := delay.numer / delay.denom, delay.numer % delay.denom;
    Divided(delay.numer as u64, delay.denom as u64);
    NanosFit(rest as int, delay.denom as int);
    var nanos := rest as int * 1_000_000 / delay.denom as int;
    Duration(ms as int / 1000, ms as int % 1000 * 1_000_000 + nanos)
  }

  lemma NanosFit(rest: int, denom: int)
    requires 0 <= rest < denom
    ensures 0 <= rest * 1_000_000 / denom < 1_000_000
  {
    DivisionBounds(rest * 1_000_000, denom, 1_000_000);
  }

  lemma DivisionBounds(x: int, m: int, k: int)
    requires 0 <= x < k * m && m >= 1
    ensures 0 <= x / m < k
  {
    DivisionParts(x, m);
    var q := x / m;
    NegTimes(m, q);
    if q >= k {
      MulMono(k, q, m);
    }
    if q < 0 {
      AtLeast(m, -q);
    }
  }

  lemma DivisionParts(x: int, m: int)
    requires m >= 1
    ensures x == m * (x / m) + x % m && 0 <= x % m < m
  {
  }

  lemma NegTimes(m: int, e: int)
    ensures m * e == -(m * -e)
  {
  }

  lemma DivisionIs(x: int, m: int, k: int, r: int)
    requires m >= 1 && x == k * m + r && 0 <= r < m
    ensures x / m == k && x % m == r
  {
    DivisionParts(x, m);
    var e := x / m - k;
    assert m * e == r - x % m by { assert m * (x / m) == m * e + m * k; }
    NegTimes(m, e);
    if e >= 1 {
      AtLeast(m, e);
    } else if e <= -1 {
      AtLeast(m, -e);
    }
  }

  /** A duration is its whole milliseconds and its nanoseconds beyond them. */
  lemma DurationIs(d: Duration, nanos: nat)
    requires nanos < 1_000_000
    ensures d == Duration(AsMillis(d) / 1000, AsMillis(d) % 1000 * 1_000_000 + nanos) <==> nanos == SubMillis(d)
  {
    var ms, rest := d.nanos / 1_000_000, d.nanos % 1_000_000;
    DivisionParts(d.nanos, 1_000_000);
    DivisionIs(AsNanos(d), 1_000_000, d.secs * 1000 + ms, rest);
    DivisionIs(AsMillis(d), 1000, d.secs, ms);
  }

  /** Converting back gives the duration exactly when the fraction gives the nanoseconds exactly. */
  lemma BackIs(d: Duration, delay: Delay)
    requires AsMillis(d) <= U32_MAX && IsDelayOf(d, delay)
    ensures var a, b := delay.numer as int - delay.denom as int * AsMillis(d), delay.denom as int;
            ToDuration(delay) == d <==> a < b && a * 1_000_000 / b == SubMillis(d)
  {
    var m := AsMillis(d);
    var a, b := delay.numer as int - delay.denom as int * m, delay.denom as int;
    if a < b {
      assert delay.numer as int == m * b + a;
      DivisionIs(delay.numer as int, b, m, a);
      NanosFit(a, b);
      DurationIs(d, a * 1_000_000 / b);
    } else {
      BestIsReduced(a, b, MaxDenom(m), SubMillis(d), 1_000_000, b, 1, 1);
      DivisionIs(delay.numer as int, b, m + 1, 0);
      assert AsMillis(ToDuration(delay)) == m + 1;
    }
  }

  /** If the nanoseconds are a fraction p/q of a millisecond with a fitting q, nothing is lost. */
  lemma RoundTripOfFraction(d: Duration, delay: Delay, p: nat, q: nat)
    requires AsMillis(d) <= U32_MAX && IsDelayOf(d, delay)
    requires 1 <= q <= MaxDenom(AsMillis(d)) && p * 1_000_000 == SubMillis(d) * q
    ensures ToDuration(delay) == d
  {
    var sub := SubMillis(d);
    var a, b := delay.numer as int - delay.denom as int * AsMillis(d), delay.denom as int;
    BestOfExact(a, b, MaxDenom(AsMillis(d)), sub, 1_000_000, p, q);
    MulMono(sub, 999_999, b);
    DivisionIs(a * 1_000_000, b, sub, 0);
    BackIs(d, delay);
  }

  /**
   * The round trip is exact for all durations of at most 4293 whole milliseconds and for all whole
   * milliseconds; and 4293 is the last whole millisecond after which every nanosecond survives.
   */
  lemma RoundTrip(d: Duration, delay: Delay)
    requires AsMillis(d) <= U32_MAX && IsDelayOf(d, delay)
    ensures AsMillis(d) <= 4293 || SubMillis(d) == 0 ==> ToDuration(delay) == d
    ensures SubMillis(d) == 999_999 ==> (ToDuration(delay) == d <==> AsMillis(d) <= 4293)
  {
    var m := AsMillis(d);
    if SubMillis(d) == 0 {
      RoundTripOfFraction(d, delay, 0, 1);
    } else if m <= 4293 {
      FineEnough(m);
      RoundTripOfFraction(d, delay, SubMillis(d), 1_000_000);
    } else if SubMillis(d) == 999_999 {
      TooCoarse(m);
      var a, b := delay.numer as int - delay.denom as int * m, delay.denom as int;
      BackIs(d, delay);
      if a < b {
        DivisionBounds(a * 1_000_000, b, 999_999);
      }
    }
  }

  lemma FineEnough(millis: nat)
    requires millis <= 4293
    ensures MaxDenom(millis) >= 1_000_000
  {
    if millis > 0 {
      var m, q := millis + 1, (U32_MAX + 1) / (millis + 1);
      assert U32_MAX + 1 == m * q + (U32_MAX + 1) % m;
      if q < 1_000_000 {
        MulMono(q, 999_999, m);
      }
    }
  }

  lemma TooCoarse(millis: nat)
    requires 4294 <= millis <= U32_MAX
    ensures MaxDenom(millis) < 1_000_000
  {
    if MaxDenom(millis) >= 1_000_000 {
      MulMono(1_000_000, MaxDenom(millis), millis + 1);
    }
  }

  /** With bound 1, every wrapped doubling loses the answer: 1/1 is best, and 0/1 is returned. */
  lemma WrapMissesOne(nom: int, denom: int)
    requires 0 <= nom < denom <= U32_MAX && Wraps(nom)
    ensures MissesOne(1, nom, denom, true)
    ensures IsBest(1, 1, 1, nom, denom) && !IsBest(0, 1, 1, nom, denom)
  {
    hide IsBest;
    BestOfBracket(1, 1, 0, 1, 1, 1, 1, nom, denom);
    if IsBest(0, 1, 1, nom, denom) {
      BestIsUnique(0, 1, 1, 1, 1, nom, denom);
      assert false;
    }
  }
}
