/** What "the closest fraction with a bounded denominator" means, and the facts about neighbours. */
module BestFraction {
  import opened Arithmetic

  function Abs(x: int): nat {
    if x < 0 then -x else x
  }

  /** The numerator of |a/b - nom/denom|, over the denominator b * denom. */
  function Dist(a: int, b: int, nom: int, denom: int): nat {
    Abs(a * denom - nom * b)
  }

  /**
   * a/b comes before p/q: it is closer to nom/denom, or equally close with a smaller denominator,
   * or equally close with the same denominator and no larger numerator.
   */
  predicate Beats(a: int, b: int, p: int, q: int, nom: int, denom: int) {
    var x, y := Dist(a, b, nom, denom) * q, Dist(p, q, nom, denom) * b;
    x < y || (x == y && (b < q || (b == q && a <= p)))
  }

  /** a/b comes before every fraction whose denominator is at most `bound`. */
  ghost predicate IsBest(a: int, b: int, bound: int, nom: int, denom: int) {
    && 1 <= b <= bound
    && forall p: nat, q: nat :: 1 <= q <= bound ==> Beats(a, b, p, q, nom, denom)
  }

  /** The best fraction is unique. */
  lemma BestIsUnique(a: nat, b: nat, c: nat, d: nat, bound: int, nom: int, denom: int)
    requires IsBest(a, b, bound, nom, denom) && IsBest(c, d, bound, nom, denom)
    ensures a == c && b == d
  {
    assert Beats(a, b, c, d, nom, denom) && Beats(c, d, a, b, nom, denom);
  }

  /** The best fraction is in lowest terms. */
  lemma BestIsReduced(a: nat, b: nat, bound: int, nom: int, denom: int, k: nat, a': nat, b': nat)
    requires IsBest(a, b, bound, nom, denom)
    requires a == k * a' && b == k * b'
    ensures k == 1
  {
    PositiveFactors(k, b');
    assert Beats(a, b, a', b', nom, denom);
    ScaledDist(k, a', b', nom, denom);
    var d := Dist(a', b', nom, denom);
    assert (k * d) * b' == d * (k * b') by { Rearrange(k, d, b'); }
  }

  lemma ScaledDist(k: nat, a: int, b: int, nom: int, denom: int)
    ensures Dist(k * a, k * b, nom, denom) == k * Dist(a, b, nom, denom)
  {
    var d := a * denom - nom * b;
    assert (k * a) * denom == k * (a * denom);
    assert nom * (k * b) == k * (nom * b);
    assert k * d == k * (a * denom) - k * (nom * b);
    AbsTimes(k, d);
  }

  /** If some fraction hits the target exactly, so does the best one. */
  lemma BestOfExact(a: int, b: int, bound: int, nom: int, denom: int, p: nat, q: nat)
    requires IsBest(a, b, bound, nom, denom) && 1 <= q <= bound && p * denom == nom * q
    ensures a * denom == nom * b
  {
    assert Beats(a, b, p, q, nom, denom);
    var d := Dist(a, b, nom, denom);
    assert Dist(p, q, nom, denom) * b == 0;
    if d >= 1 {
      AtLeast(q, d);
    }
  }

  lemma AbsTimes(k: nat, d: int)
    ensures Abs(k * d) == k * Abs(d)
  {
  }

  lemma BeatsTransitive(a: int, b: int, c: int, d: int, p: int, q: int, nom: int, denom: int)
    requires b > 0 && d > 0 && q > 0
    requires Beats(a, b, c, d, nom, denom) && Beats(c, d, p, q, nom, denom)
    ensures Beats(a, b, p, q, nom, denom)
  {
    var x, y, z := Dist(a, b, nom, denom), Dist(c, d, nom, denom), Dist(p, q, nom, denom);
    CrossTransitive(x, b, y, d, z, q);
  }

  /** x/b <= y/d <= z/q, with equality only if both are equalities. */
  lemma CrossTransitive(x: nat, b: int, y: nat, d: int, z: nat, q: int)
    requires b > 0 && d > 0 && q > 0
    requires x * d <= y * b && y * q <= z * d
    ensures x * q <= z * b
    ensures x * q == z * b ==> x * d == y * b && y * q == z * d
  {
    var l, m, r := x * d, y * b, z * b;
    MulMono(x * d, y * b, q);
    MulMono(y * q, z * d, b);
    assert x * d * q == d * (x * q) && y * b * q == y * q * b && z * d * b == d * (z * b);
    CancelLeft(d, x * q, z * b);
    if x * q == z * b {
      assert y * b * q == x * d * q;
      CancelRight(x * d, y * b, q);
      CancelRight(y * q, z * d, b);
    }
  }

  // ---- Farey neighbours ------------------------------------------------------------------------

  /** ln/ld and un/ud are neighbours, and nom/denom lies in between. */
  predicate Bracket(ln: int, ld: int, un: int, ud: int, nom: int, denom: int) {
    && 0 <= ln && 1 <= ld && 0 <= un && 1 <= ud
    && un * ld - ln * ud == 1
    && ln * denom <= nom * ld
    && nom * ud < un * denom
  }

  /** Any fraction strictly between two neighbours has a denominator of at least their sum. */
  lemma NothingBetween(ln: int, ld: int, un: int, ud: int, p: int, q: int)
    requires ld >= 1 && ud >= 1 && un * ld - ln * ud == 1
    requires ln * q < p * ld && p * ud < un * q
    ensures q >= ld + ud
  {
    Combination(ln, ld, un, ud, p, q);
    AtLeast(ud, p * ld - ln * q);
    AtLeast(ld, un * q - p * ud);
  }

  /** q is a combination of the two denominators. */
  lemma Combination(ln: int, ld: int, un: int, ud: int, p: int, q: int)
    requires un * ld - ln * ud == 1
    ensures q == ud * (p * ld - ln * q) + ld * (un * q - p * ud)
  {
    assert ud * (p * ld - ln * q) == p * ld * ud - (ln * ud) * q;
    assert ld * (un * q - p * ud) == (un * ld) * q - p * ld * ud;
    assert (un * ld) * q - (ln * ud) * q == (un * ld - ln * ud) * q;
  }

  /** A fraction equal to the lower neighbour has a denominator at least as large. */
  lemma EqualToLower(ln: int, ld: int, un: int, ud: int, p: int, q: int)
    requires ld >= 1 && q >= 1 && un * ld - ln * ud == 1 && p * ld == ln * q
    ensures q >= ld && (q == ld ==> p == ln)
  {
    Combination(ln, ld, un, ud, p, q);
    FactorAtLeast(q, ld, un * q - p * ud);
    if q == ld {
      CancelRight(p, ln, ld);
    }
  }

  lemma EqualToUpper(ln: int, ld: int, un: int, ud: int, p: int, q: int)
    requires ud >= 1 && q >= 1 && un * ld - ln * ud == 1 && p * ud == un * q
    ensures q >= ud && (q == ud ==> p == un)
  {
    Combination(ln, ld, un, ud, p, q);
    FactorAtLeast(q, ud, p * ld - ln * q);
    if q == ud {
      CancelRight(p, un, ud);
    }
  }

  /** Scaling the comparison of p/q with c/d by the positive target denominator. */
  lemma DistBelow(c: int, d: int, p: int, q: int, nom: int, denom: int)
    requires d >= 1 && q >= 1 && denom >= 1
    requires c * denom <= nom * d && p * d <= c * q
    ensures p * denom <= nom * q
    ensures Dist(c, d, nom, denom) * q <= Dist(p, q, nom, denom) * d
    ensures Dist(c, d, nom, denom) * q == Dist(p, q, nom, denom) * d ==> p * d == c * q
  {
    StillBelow(c, d, p, q, nom, denom);
    CrossDifference(c, d, p, q, nom, denom);
    MulMono(p * d, c * q, denom);
    if p * d < c * q {
      AtLeast(denom, c * q - p * d);
    }
  }

  lemma StillBelow(c: int, d: int, p: int, q: int, nom: int, denom: int)
    requires d >= 1 && q >= 1 && denom >= 1
    requires c * denom <= nom * d && p * d <= c * q
    ensures p * denom <= nom * q
  {
    MulMono(p * d, c * q, denom);
    MulMono(c * denom, nom * d, q);
    Rearrange(d, p, denom);
    Rearrange(c, q, denom);
    Rearrange(d, nom, q);
    BelowChain(d, p * denom, c * q * denom, nom * q);
  }

  lemma BelowChain(d: int, x: int, m: int, y: int)
    requires d >= 1 && d * x <= m <= d * y
    ensures x <= y
  {
    CancelLeft(d, x, y);
  }

  lemma CrossDifference(c: int, d: int, p: int, q: int, nom: int, denom: int)
    ensures (nom * q - p * denom) * d - (nom * d - c * denom) * q == denom * (c * q - p * d)
    ensures denom * (c * q - p * d) == (c * q) * denom - (p * d) * denom
  {
    assert (nom * q - p * denom) * d == nom * q * d - p * denom * d;
    assert (nom * d - c * denom) * q == nom * d * q - c * denom * q;
    assert nom * q * d == nom * d * q;
    assert c * denom * q == (c * q) * denom && p * denom * d == (p * d) * denom;
  }

  lemma DistAbove(c: int, d: int, p: int, q: int, nom: int, denom: int)
    requires d >= 1 && q >= 1 && denom >= 1
    requires c * denom >= nom * d && p * d >= c * q
    ensures Dist(c, d, nom, denom) * q <= Dist(p, q, nom, denom) * d
    ensures Dist(c, d, nom, denom) * q == Dist(p, q, nom, denom) * d ==> p * d == c * q
  {
    DistBelow(-c, d, -p, q, -nom, denom);
    Mirror(c, d, nom, denom);
    Mirror(p, q, nom, denom);
  }

  lemma Mirror(c: int, d: int, nom: int, denom: int)
    ensures Dist(-c, d, -nom, denom) == Dist(c, d, nom, denom)
  {
    assert (-c) * denom - (-nom) * d == -(c * denom - nom * d);
  }

  lemma LowerBeatsBelow(ln: int, ld: int, un: int, ud: int, p: int, q: int, nom: int, denom: int)
    requires Bracket(ln, ld, un, ud, nom, denom) && denom >= 1 && q >= 1 && p * ld <= ln * q
    ensures Beats(ln, ld, p, q, nom, denom)
  {
    DistBelow(ln, ld, p, q, nom, denom);
    if p * ld == ln * q {
      EqualToLower(ln, ld, un, ud, p, q);
    }
  }

  lemma UpperBeatsAbove(ln: int, ld: int, un: int, ud: int, p: int, q: int, nom: int, denom: int)
    requires Bracket(ln, ld, un, ud, nom, denom) && denom >= 1 && q >= 1 && p * ud >= un * q
    ensures Beats(un, ud, p, q, nom, denom)
  {
    DistAbove(un, ud, p, q, nom, denom);
    if p * ud == un * q {
      EqualToUpper(ln, ld, un, ud, p, q);
    }
  }

  /** What beats both neighbours of a full bracket is best. */
  lemma BestOfBracket(g: int, h: int, ln: int, ld: int, un: int, ud: int, bound: int, nom: int, denom: int)
    requires Bracket(ln, ld, un, ud, nom, denom) && denom >= 1 && ld + ud > bound && 1 <= h <= bound
    requires Beats(g, h, ln, ld, nom, denom) && Beats(g, h, un, ud, nom, denom)
    ensures IsBest(g, h, bound, nom, denom)
  {
    forall p: nat, q: nat | 1 <= q <= bound
      ensures Beats(g, h, p, q, nom, denom)
    {
      if p * ld <= ln * q {
        LowerBeatsBelow(ln, ld, un, ud, p, q, nom, denom);
        BeatsTransitive(g, h, ln, ld, p, q, nom, denom);
      } else if p * ud >= un * q {
        UpperBeatsAbove(ln, ld, un, ud, p, q, nom, denom);
        BeatsTransitive(g, h, un, ud, p, q, nom, denom);
      } else {
        NothingBetween(ln, ld, un, ud, p, q);
        assert false;
      }
    }
  }

  /** A lower neighbour that hits the target exactly is best. */
  lemma BestWhenExact(ln: int, ld: int, un: int, ud: int, bound: int, nom: int, denom: int)
    requires Bracket(ln, ld, un, ud, nom, denom) && denom >= 1 && ld <= bound && Dist(ln, ld, nom, denom) == 0
    ensures IsBest(ln, ld, bound, nom, denom)
  {
    forall p: nat, q: nat | 1 <= q <= bound
      ensures Beats(ln, ld, p, q, nom, denom)
    {
      if Dist(p, q, nom, denom) == 0 {
        assert ln * denom == nom * ld && p * denom == nom * q;
        assert (p * ld) * denom == (ln * q) * denom by {
          assert (p * denom) * ld == (nom * q) * ld && (ln * denom) * q == (nom * ld) * q;
        }
        CancelRight(p * ld, ln * q, denom);
        EqualToLower(ln, ld, un, ud, p, q);
      } else {
        assert Dist(p, q, nom, denom) * ld >= 1;
      }
    }
  }

  /** What beats both neighbours of a full bracket is off by at most 1 / (2 * bound). */
  lemma ErrorBound(g: int, h: int, ln: int, ld: int, un: int, ud: int, bound: int, nom: int, denom: int)
    requires Bracket(ln, ld, un, ud, nom, denom) && denom >= 1 && ld + ud > bound >= 1 && h >= 1
    requires Beats(g, h, ln, ld, nom, denom) && Beats(g, h, un, ud, nom, denom)
    ensures 2 * bound * Dist(g, h, nom, denom) <= h * denom
  {
    var d, dl, du := Dist(g, h, nom, denom), Dist(ln, ld, nom, denom), Dist(un, ud, nom, denom);
    DistsAddUp(ln, ld, un, ud, nom, denom);
    BoundFromNeighbours(d, h, dl, ld, du, ud, denom);
    ProductAtLeast(ld, ud, bound);
    MulMono(bound, ld * ud, 2 * d);
  }

  lemma DistsAddUp(ln: int, ld: int, un: int, ud: int, nom: int, denom: int)
    requires Bracket(ln, ld, un, ud, nom, denom)
    ensures Dist(ln, ld, nom, denom) * ud + Dist(un, ud, nom, denom) * ld == denom
  {
    assert (nom * ld - ln * denom) * ud == nom * ld * ud - (ln * ud) * denom;
    assert (un * denom - nom * ud) * ld == (un * ld) * denom - nom * ld * ud;
    assert (un * ld) * denom - (ln * ud) * denom == (un * ld - ln * ud) * denom;
  }

  lemma BoundFromNeighbours(d: nat, h: int, dl: nat, ld: int, du: nat, ud: int, denom: int)
    requires ld >= 1 && ud >= 1 && h >= 1
    requires d * ld <= dl * h && d * ud <= du * h && dl * ud + du * ld == denom
    ensures (ld * ud) * (2 * d) <= h * denom
  {
    MulMono(d * ld, dl * h, ud);
    MulMono(d * ud, du * h, ld);
    assert (ld * ud) * (2 * d) == (d * ld) * ud + (d * ud) * ld;
    assert h * denom == (dl * h) * ud + (du * h) * ld;
  }

  // ---- the search ------------------------------------------------------------------------------

  /** Lower and upper neighbour and the best guess so far, as numerator and denominator each. */
  datatype Search = Search(ln: int, ld: int, un: int, ud: int, gn: int, gd: int)

  /** The upper neighbour is still 1/1 and was wrongly ruled out as a first guess. */
  predicate Blind(s: Search, wrapped: bool) {
    wrapped && s.un == 1 && s.ud == 1
  }

  /** Kept by every iteration. `wrapped`: the first comparison lost its carry, so the guess began at 0/1. */
  predicate Inv(s: Search, bound: int, nom: int, denom: int, wrapped: bool) {
    && Bracket(s.ln, s.ld, s.un, s.ud, nom, denom)
    && s.ln <= s.ld <= bound && s.un <= s.ud <= bound
    && 0 <= s.gn <= s.gd && 1 <= s.gd <= bound && (s.gd <= s.ld || s.gd <= s.ud)
    && Beats(s.gn, s.gd, s.ln, s.ld, nom, denom)
    && (if Blind(s, wrapped) then s.gn == s.ln && s.gd == s.ld else Beats(s.gn, s.gd, s.un, s.ud, nom, denom))
    && (Dist(s.gn, s.gd, nom, denom) == 0 ==> s.gn == s.ln && s.gd == s.ld)
  }

  /** One iteration: the mediant replaces a neighbour, and the guess if it is strictly closer. */
  function Step(s: Search, nom: int, denom: int): Search {
    var nn, nd := s.ln + s.un, s.ld + s.ud;
    var moved := if nom * nd < nn * denom then s.(un := nn, ud := nd) else s.(ln := nn, ld := nd);
    if Dist(nn, nd, nom, denom) * s.gd < Dist(s.gn, s.gd, nom, denom) * nd then moved.(gn := nn, gd := nd) else moved
  }

  lemma Mediant(ln: int, ld: int, un: int, ud: int)
    requires un * ld - ln * ud == 1
    ensures (ln + un) * ld - ln * (ld + ud) == 1
    ensures un * (ld + ud) - (ln + un) * ud == 1
  {
    assert (ln + un) * ld == ln * ld + un * ld && ln * (ld + ud) == ln * ld + ln * ud;
    assert un * (ld + ud) == un * ld + un * ud && (ln + un) * ud == ln * ud + un * ud;
  }

  lemma BeatsItself(a: int, b: int, nom: int, denom: int)
    ensures Beats(a, b, a, b, nom, denom)
  {
  }

  /** The new guess beats the mediant and everything the old guess beat. */
  lemma GuessStep(s: Search, p: int, q: int, nom: int, denom: int)
    requires s.gd >= 1 && s.ld + s.ud > s.gd && q >= 1
    ensures var r := Step(s, nom, denom); r.gd >= 1 && Beats(r.gn, r.gd, s.ln + s.un, s.ld + s.ud, nom, denom)
    ensures var r := Step(s, nom, denom);
            Beats(s.gn, s.gd, p, q, nom, denom) ==> Beats(r.gn, r.gd, p, q, nom, denom)
  {
    var nn, nd := s.ln + s.un, s.ld + s.ud;
    BeatsItself(nn, nd, nom, denom);
    if Dist(nn, nd, nom, denom) * s.gd < Dist(s.gn, s.gd, nom, denom) * nd && Beats(s.gn, s.gd, p, q, nom, denom) {
      BeatsTransitive(nn, nd, s.gn, s.gd, p, q, nom, denom);
    }
  }

  /** Below the target, the mediant is strictly closer than the lower neighbour. */
  lemma MediantIsCloser(s: Search, nom: int, denom: int)
    requires Bracket(s.ln, s.ld, s.un, s.ud, nom, denom) && denom >= 1
    requires (s.ln + s.un) * denom <= nom * (s.ld + s.ud)
    ensures Dist(s.ln + s.un, s.ld + s.ud, nom, denom) * s.ld < Dist(s.ln, s.ld, nom, denom) * (s.ld + s.ud)
  {
    Mediant(s.ln, s.ld, s.un, s.ud);
    DistBelow(s.ln + s.un, s.ld + s.ud, s.ln, s.ld, nom, denom);
  }

  /** Every iteration keeps the invariant. */
  lemma InvStep(s: Search, bound: int, nom: int, denom: int, wrapped: bool)
    requires Inv(s, bound, nom, denom, wrapped) && denom >= 1
    requires s.ld + s.ud <= bound && Dist(s.gn, s.gd, nom, denom) != 0
    ensures Inv(Step(s, nom, denom), bound, nom, denom, wrapped)
  {
    hide Beats;
    Mediant(s.ln, s.ld, s.un, s.ud);
    GuessStep(s, s.ln, s.ld, nom, denom);
    GuessStep(s, s.un, s.ud, nom, denom);
    if !(nom * (s.ld + s.ud) < (s.ln + s.un) * denom) {
      MediantIsCloser(s, nom, denom);
    }
  }

  lemma InvStart(g: int, bound: int, nom: int, denom: int, wrapped: bool)
    requires 0 <= nom < denom && bound >= 1
    requires g == if !wrapped && 2 * nom > denom then 1 else 0
    ensures Inv(Search(0, 1, 1, 1, g, 1), bound, nom, denom, wrapped)
  {
  }

  /** The inputs on which a lost carry makes the search miss 1/1, the fraction it never reconsiders. */
  predicate MissesOne(bound: int, nom: int, denom: int, wrapped: bool) {
    wrapped && 2 * (nom * bound) >= (2 * bound - 1) * denom
  }

  lemma FarFromOne(d: int, bound: int, nom: int, denom: int)
    requires 1 <= d <= bound && denom >= 1 && nom * d <= (d - 1) * denom
    ensures 2 * (nom * bound) < (2 * bound - 1) * denom
  {
    var b2 := 2 * bound;
    MulMono(nom * d, (d - 1) * denom, b2);
    assert (nom * d) * b2 == d * (2 * (nom * bound)) by { Rearrange(nom, d, b2); Rearrange(d, nom, b2); }
    assert ((d - 1) * denom) * b2 == d * (b2 * denom) - b2 * denom by {
      assert (d - 1) * denom == d * denom - denom;
      Rearrange(d, denom, b2);
    }
    assert d * ((b2 - 1) * denom) == d * (b2 * denom) - d * denom by {
      assert (b2 - 1) * denom == b2 * denom - denom;
    }
    AtLeast(denom, b2 - d);
    assert denom * (b2 - d) == b2 * denom - d * denom;
    StrictCancel(d, 2 * (nom * bound), (b2 - 1) * denom);
  }

  /** A neighbour pair with equal upper parts is 1/1. */
  lemma UpperBelowOne(ln: int, ld: int, un: int, ud: int)
    requires ud >= 1 && un * ld - ln * ud == 1 && 0 <= un <= ud
    ensures un < ud || (un == 1 && ud == 1)
  {
    if un == ud {
      assert ud * (ld - ln) == 1;
      FactorAtLeast(1, ud, ld - ln);
    }
  }

  lemma BlindVerdict(bound: int, nom: int, denom: int)
    requires bound >= 1 && 0 <= nom < denom && 2 * nom > denom && (bound - 1) * denom <= nom * bound
    ensures Beats(bound - 1, bound, 1, 1, nom, denom) <==> 2 * (nom * bound) < (2 * bound - 1) * denom
  {
    assert Dist(1, 1, nom, denom) == denom - nom;
    assert Dist(bound - 1, bound, nom, denom) == nom * bound - (bound - 1) * denom;
    assert (denom - nom) * bound == denom * bound - nom * bound;
    assert (bound - 1) * denom == bound * denom - denom;
    assert (2 * bound - 1) * denom == 2 * (bound * denom) - denom;
  }

  /** When the search stops, its guess is best, except where a lost carry makes it miss 1/1. */
  lemma InvDone(s: Search, bound: int, nom: int, denom: int, wrapped: bool)
    requires Inv(s, bound, nom, denom, wrapped) && 0 <= nom < denom && bound >= 1
    requires wrapped ==> 2 * nom > denom
    requires Dist(s.gn, s.gd, nom, denom) == 0 || s.ld + s.ud > bound
    ensures IsBest(s.gn, s.gd, bound, nom, denom) <==> !MissesOne(bound, nom, denom, wrapped)
    ensures !MissesOne(bound, nom, denom, wrapped) ==> 2 * bound * Dist(s.gn, s.gd, nom, denom) <= s.gd * denom
  {
    hide IsBest, Beats;
    if Dist(s.gn, s.gd, nom, denom) == 0 {
      BestWhenExact(s.ln, s.ld, s.un, s.ud, bound, nom, denom);
      if wrapped {
        ExactIsFar(s, bound, nom, denom);
      }
    } else if !Blind(s, wrapped) {
      BestOfBracket(s.gn, s.gd, s.ln, s.ld, s.un, s.ud, bound, nom, denom);
      ErrorBound(s.gn, s.gd, s.ln, s.ld, s.un, s.ud, bound, nom, denom);
      if wrapped {
        UpperIsFar(s, bound, nom, denom);
      }
    } else {
      assert s.ld == bound && s.gn == bound - 1 && s.gd == bound;
      BlindVerdict(bound, nom, denom);
      if Beats(s.gn, s.gd, 1, 1, nom, denom) {
        BestOfBracket(s.gn, s.gd, s.ln, s.ld, s.un, s.ud, bound, nom, denom);
        ErrorBound(s.gn, s.gd, s.ln, s.ld, s.un, s.ud, bound, nom, denom);
      } else {
        NotBest(s.gn, s.gd, 1, 1, bound, nom, denom);
      }
    }
  }

  lemma NotBest(g: int, h: int, p: nat, q: nat, bound: int, nom: int, denom: int)
    requires 1 <= q <= bound && !Beats(g, h, p, q, nom, denom)
    ensures !IsBest(g, h, bound, nom, denom)
  {
  }

  lemma ExactIsFar(s: Search, bound: int, nom: int, denom: int)
    requires Bracket(s.ln, s.ld, s.un, s.ud, nom, denom) && denom >= 1 && 0 <= nom < denom
    requires s.ld <= bound && Dist(s.ln, s.ld, nom, denom) == 0
    ensures 2 * (nom * bound) < (2 * bound - 1) * denom
  {
    assert s.ln * denom == nom * s.ld;
    if s.ln >= s.ld {
      assert s.ld * denom == denom * s.ld;
      MulMono(s.ld, s.ln, denom);
      MulStrict(nom, denom, s.ld);
      assert false;
    }
    MulMono(s.ln, s.ld - 1, denom);
    FarFromOne(s.ld, bound, nom, denom);
  }

  lemma UpperIsFar(s: Search, bound: int, nom: int, denom: int)
    requires Bracket(s.ln, s.ld, s.un, s.ud, nom, denom) && denom >= 1
    requires s.un <= s.ud <= bound && !(s.un == 1 && s.ud == 1)
    ensures 2 * (nom * bound) < (2 * bound - 1) * denom
  {
    UpperBelowOne(s.ln, s.ld, s.un, s.ud);
    MulMono(s.un, s.ud - 1, denom);
    FarFromOne(s.ud, bound, nom, denom);
  }
}
