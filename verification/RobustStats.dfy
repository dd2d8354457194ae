/** Robust statistics (seamtech_search/confiance_reutilisation.py) over exact real numbers,
    before the original rounds them. */
module RobustStats {
  import opened Options
  import Sorting

  predicate Le(x: real, y: real) { x <= y }

  function Trier(s: seq<real>): seq<real> { Sorting.Sort(Le, s) }

  ghost predicate Triee(s: seq<real>) { forall i, j :: 0 <= i < j < |s| ==> s[i] <= s[j] }

  lemma TrierTrie(s: seq<real>)
    ensures Triee(Trier(s)) && |Trier(s)| == |s| && multiset(Trier(s)) == multiset(s)
  {
    Sorting.SortSorts(Le, s);
    forall i, j | 0 <= i < j < |Trier(s)| ensures Trier(s)[i] <= Trier(s)[j] {
      assert Le(Trier(s)[i], Trier(s)[j]);
    }
  }

  lemma TrierIgnoreOrdre(s: seq<real>, t: seq<real>)
    requires multiset(s) == multiset(t)
    ensures Trier(s) == Trier(t)
  {
    Sorting.SortIgnoresOrder(Le, s, t);
  }

  // ---------------------------------------------------------------------------
  // The interpolated quantile
  // ---------------------------------------------------------------------------

  function Plafond(x: real): int { if x == x.Floor as real then x.Floor else x.Floor + 1 }

  function Barycentre(u: real, v: real, poids: real): real { u * (1.0 - poids) + v * poids }

  /** The value at a fractional position of a sorted list. */
  function Interpoler(s: seq<real>, position: real): real
    requires 0.0 <= position <= (|s| - 1) as real
  {
    var bas, haut := position.Floor, Plafond(position);
    if bas == haut then s[bas]
    else
      Barycentre(s[bas], s[haut], position - bas as real)
  }

  /** The fractional position of quantile `p` among `n` values. */
  function Position(p: real, n: nat): (x: real)
    requires n >= 1 && 0.0 <= p <= 1.0
    ensures 0.0 <= x <= (n - 1) as real
  {
    p * (n - 1) as real
  }

  function Quantile(triees: seq<real>, p: real): real
    requires triees != [] && 0.0 <= p <= 1.0
  {
    if |triees| == 1 then triees[0] else Interpoler(triees, Position(p, |triees|))
  }

  lemma Produit(x: real, y: real, k: real)
    requires x <= y && k >= 0.0
    ensures x * k <= y * k
  {
    assert (y - x) * k >= 0.0;
  }

  lemma BarycentreEntre(u: real, v: real, w: real)
    requires u <= v && 0.0 <= w <= 1.0
    ensures u <= Barycentre(u, v, w) <= v
  {
    Produit(u, v, w);
    Produit(u, v, 1.0 - w);
    assert u * (1.0 - w) + u * w == u && v * (1.0 - w) + v * w == v;
  }

  lemma BarycentreDroite(u: real, v: real, w: real)
    ensures Barycentre(u, v, w) == u + w * (v - u)
  {
  }

  lemma BarycentreMonotone(u: real, v: real, w: real, w': real)
    requires u <= v && w <= w'
    ensures Barycentre(u, v, w) <= Barycentre(u, v, w')
  {
    Produit(w, w', v - u);
    BarycentreDroite(u, v, w);
    BarycentreDroite(u, v, w');
  }

  lemma BarycentreCroissant(u: real, v: real, u': real, v': real, w: real)
    requires u <= u' && v <= v' && 0.0 <= w <= 1.0
    ensures Barycentre(u, v, w) <= Barycentre(u', v', w)
  {
    Somme(u, v, u', v', 1.0 - w, w);
  }

  lemma Somme(u: real, v: real, u': real, v': real, k: real, w: real)
    requires u <= u' && v <= v' && k >= 0.0 && w >= 0.0
    ensures u * k + v * w <= u' * k + v' * w
  {
    Produit(u, u', k);
    Produit(v, v', w);
  }

  /** Interpolation stays between its two neighbours. */
  lemma InterpolerEntre(s: seq<real>, x: real)
    requires Triee(s) && 0.0 <= x <= (|s| - 1) as real
    ensures s[x.Floor] <= Interpoler(s, x) <= s[Plafond(x)]
  {
    if x != x.Floor as real {
      BarycentreEntre(s[x.Floor], s[x.Floor + 1], x - x.Floor as real);
    }
  }

  lemma InterpolerMonotone(s: seq<real>, x: real, y: real)
    requires Triee(s) && 0.0 <= x <= y <= (|s| - 1) as real
    ensures Interpoler(s, x) <= Interpoler(s, y)
  {
    InterpolerEntre(s, x);
    InterpolerEntre(s, y);
    var b := x.Floor;
    if b == y.Floor && x != b as real {
      BarycentreMonotone(s[b], s[b + 1], x - b as real, y - b as real);
    }
  }

  lemma QuantilePosition(s: seq<real>, p: real)
    requires s != [] && 0.0 <= p <= 1.0
    ensures Quantile(s, p) == Interpoler(s, Position(p, |s|))
  {
  }

  lemma PositionMonotone(p: real, q: real, n: nat)
    requires n >= 1 && 0.0 <= p <= q <= 1.0
    ensures Position(p, n) <= Position(q, n)
  {
    Produit(p, q, (n - 1) as real);
  }

  /** Monotone in `p`, and between the extremes. */
  lemma QuantileMonotone(s: seq<real>, p: real, q: real)
    requires s != [] && Triee(s) && 0.0 <= p <= q <= 1.0
    ensures s[0] <= Quantile(s, p) <= Quantile(s, q) <= s[|s| - 1]
  {
    QuantilePosition(s, p);
    QuantilePosition(s, q);
    PositionMonotone(p, q, |s|);
    InterpolerMonotone(s, Position(p, |s|), Position(q, |s|));
    InterpolerEntre(s, Position(p, |s|));
    InterpolerEntre(s, Position(q, |s|));
  }

  // ---------------------------------------------------------------------------
  // Shift and scale
  // ---------------------------------------------------------------------------

  function Image(x: real, a: real, b: real): real { a * x + b }

  function Affine(s: seq<real>, a: real, b: real): (r: seq<real>)
    ensures |r| == |s| && forall i :: 0 <= i < |s| ==> r[i] == Image(s[i], a, b)
  {
    if s == [] then [] else [Image(s[0], a, b)] + Affine(s[1..], a, b)
  }

  lemma Echelle(x: real, y: real, a: real, b: real)
    requires a > 0.0
    ensures Image(x, a, b) <= Image(y, a, b) <==> x <= y
  {
    if x <= y { Produit(x, y, a); } else { assert (x - y) * a > 0.0; }
  }

  lemma {:induction false} InsererAffine(x: real, s: seq<real>, a: real, b: real)
    requires a > 0.0
    ensures Sorting.Insert(Le, Image(x, a, b), Affine(s, a, b)) == Affine(Sorting.Insert(Le, x, s), a, b)
  {
    if s != [] {
      Echelle(x, s[0], a, b);
      if !Le(x, s[0]) {
        InsererAffine(x, s[1..], a, b);
        assert ([s[0]] + Sorting.Insert(Le, x, s[1..]))[1..] == Sorting.Insert(Le, x, s[1..]);
      } else {
        assert ([x] + s)[1..] == s;
      }
    }
  }

  lemma {:induction false} TrierAffine(s: seq<real>, a: real, b: real)
    requires a > 0.0
    ensures Trier(Affine(s, a, b)) == Affine(Trier(s), a, b)
  {
    if s != [] {
      TrierAffine(s[1..], a, b);
      InsererAffine(s[0], Trier(s[1..]), a, b);
    }
  }

  lemma BarycentreAffine(u: real, v: real, w: real, a: real, b: real)
    ensures Barycentre(Image(u, a, b), Image(v, a, b), w) == Image(Barycentre(u, v, w), a, b)
  {
    assert (a * u + b) * (1.0 - w) == a * (u * (1.0 - w)) + b * (1.0 - w);
    assert (a * v + b) * w == a * (v * w) + b * w;
    assert a * (u * (1.0 - w)) + a * (v * w) == a * (u * (1.0 - w) + v * w);
    assert b * (1.0 - w) + b * w == b;
  }

  lemma InterpolerAffine(s: seq<real>, a: real, b: real, x: real)
    requires 0.0 <= x <= (|s| - 1) as real
    ensures Interpoler(Affine(s, a, b), x) == Image(Interpoler(s, x), a, b)
  {
    if x != x.Floor as real {
      BarycentreAffine(s[x.Floor], s[x.Floor + 1], x - x.Floor as real, a, b);
    }
  }

  lemma QuantileAffine(s: seq<real>, a: real, b: real, p: real)
    requires s != [] && 0.0 <= p <= 1.0
    ensures Quantile(Affine(s, a, b), p) == Image(Quantile(s, p), a, b)
  {
    QuantilePosition(s, p);
    QuantilePosition(Affine(s, a, b), p);
    InterpolerAffine(s, a, b, Position(p, |s|));
  }

  // ---------------------------------------------------------------------------
  // Summary of a sample, before rounding
  // ---------------------------------------------------------------------------

  function Abs(x: real): real { if x < 0.0 then -x else x }

  function Ecarts(s: seq<real>, m: real): (r: seq<real>)
    ensures |r| == |s|
  {
    seq(|s|, i requires 0 <= i < |s| => Abs(s[i] - m))
  }

  function Mediane(s: seq<real>): real
    requires s != []
  {
    TrierTrie(s); Quantile(Trier(s), 0.5)
  }

  datatype Resume = Resume(mediane: real, q1: real, q3: real, iqr: real, mad: real, min: real, max: real)

  function ResumerTriee(t: seq<real>): Resume
    requires t != []
  {
    var m := Quantile(t, 0.5);
    var q1, q3 := Quantile(t, 0.25), Quantile(t, 0.75);
    TrierTrie(Ecarts(t, m));
    Resume(m, q1, q3, q3 - q1, Quantile(Trier(Ecarts(t, m)), 0.5), t[0], t[|t| - 1])
  }

  function Resumer(s: seq<real>): Resume
    requires s != []
  {
    TrierTrie(s); ResumerTriee(Trier(s))
  }

  /** min <= q1 <= median <= q3 <= max, and both spreads are non-negative. */
  lemma ResumeOrdonne(s: seq<real>)
    requires s != []
    ensures var r := Resumer(s);
            r.min <= r.q1 <= r.mediane <= r.q3 <= r.max && r.iqr >= 0.0 && r.mad >= 0.0
  {
    TrierTrie(s);
    var t := Trier(s);
    QuantileMonotone(t, 0.25, 0.5);
    QuantileMonotone(t, 0.5, 0.75);
    var e := Ecarts(t, Quantile(t, 0.5));
    TrierTrie(e);
    QuantileMonotone(Trier(e), 0.5, 0.5);
    Sorting.SameElements(e, Trier(e));
    assert Trier(e)[0] in e;
  }

  /** The summary depends on the values only, not on their order. */
  lemma ResumeIgnoreOrdre(s: seq<real>, t: seq<real>)
    requires s != [] && multiset(s) == multiset(t)
    ensures t != [] && Resumer(s) == Resumer(t)
  {
    Sorting.SameElements(s, t);
    TrierIgnoreOrdre(s, t);
  }

  lemma EcartImage(x: real, m: real, a: real, b: real)
    requires a > 0.0
    ensures Abs(Image(x, a, b) - Image(m, a, b)) == Image(Abs(x - m), a, 0.0)
  {
    assert Image(x, a, b) - Image(m, a, b) == a * (x - m);
    Echelle(x - m, 0.0, a, 0.0);
  }

  lemma EcartsAffine(s: seq<real>, m: real, a: real, b: real)
    requires a > 0.0
    ensures Ecarts(Affine(s, a, b), Image(m, a, b)) == Affine(Ecarts(s, m), a, 0.0)
  {
    forall i | 0 <= i < |s| ensures Abs(Affine(s, a, b)[i] - Image(m, a, b)) == Affine(Ecarts(s, m), a, 0.0)[i] {
      EcartImage(s[i], m, a, b);
    }
  }

  lemma DispersionAffine(t: seq<real>, m: real, a: real, b: real)
    requires t != [] && a > 0.0
    ensures Trier(Ecarts(t, m)) != [] && Trier(Ecarts(Affine(t, a, b), Image(m, a, b))) != []
    ensures Quantile(Trier(Ecarts(Affine(t, a, b), Image(m, a, b))), 0.5) == Image(Quantile(Trier(Ecarts(t, m)), 0.5), a, 0.0)
  {
    var e := Ecarts(t, m);
    EcartsAffine(t, m, a, b);
    TrierAffine(e, a, 0.0);
    TrierTrie(e);
    QuantileAffine(Trier(e), a, 0.0, 0.5);
  }

  lemma EtendueImage(x: real, y: real, a: real, b: real)
    ensures Image(x, a, b) - Image(y, a, b) == Image(x - y, a, 0.0)
  {
  }

  /** How a summary moves under `x -> a * x + b`: the spreads ignore the shift. */
  function ImageResume(r: Resume, a: real, b: real): Resume {
    Resume(Image(r.mediane, a, b), Image(r.q1, a, b), Image(r.q3, a, b),
           Image(r.iqr, a, 0.0), Image(r.mad, a, 0.0), Image(r.min, a, b), Image(r.max, a, b))
  }

  lemma QuartilesAffines(t: seq<real>, a: real, b: real)
    requires t != [] && a > 0.0
    ensures Quantile(Affine(t, a, b), 0.25) == Image(Quantile(t, 0.25), a, b)
    ensures Quantile(Affine(t, a, b), 0.5) == Image(Quantile(t, 0.5), a, b)
    ensures Quantile(Affine(t, a, b), 0.75) == Image(Quantile(t, 0.75), a, b)
    ensures Quantile(Affine(t, a, b), 0.75) - Quantile(Affine(t, a, b), 0.25) == Image(Quantile(t, 0.75) - Quantile(t, 0.25), a, 0.0)
  {
    QuantileAffine(t, a, b, 0.5);
    QuantileAffine(t, a, b, 0.25);
    QuantileAffine(t, a, b, 0.75);
    EtendueImage(Quantile(t, 0.75), Quantile(t, 0.25), a, b);
  }

  lemma ResumeTrieeAffine(t: seq<real>, a: real, b: real)
    requires t != [] && a > 0.0
    ensures ResumerTriee(Affine(t, a, b)) == ImageResume(ResumerTriee(t), a, b)
  {
    QuartilesAffines(t, a, b);
    DispersionAffine(t, Quantile(t, 0.5), a, b);
  }

  /** Shift and positive scaling move the centre and scale the spreads. */
  lemma ResumeAffine(s: seq<real>, a: real, b: real)
    requires s != [] && a > 0.0
    ensures Resumer(Affine(s, a, b)) == ImageResume(Resumer(s), a, b)
  {
    TrierTrie(s);
    TrierAffine(s, a, b);
    ResumeTrieeAffine(Trier(s), a, b);
  }

  // ---------------------------------------------------------------------------
  // Ranks and robustness
  // ---------------------------------------------------------------------------

  function Compte(f: real -> bool, s: seq<real>): nat {
    if s == [] then 0 else Compte(f, s[..|s| - 1]) + (if f(s[|s| - 1]) then 1 else 0)
  }

  ghost predicate Descendante(f: real -> bool) { forall x, y :: f(y) && x <= y ==> f(x) }

  lemma {:induction false} CompteInsere(f: real -> bool, x: real, s: seq<real>)
    ensures Compte(f, Sorting.Insert(Le, x, s)) == Compte(f, s) + (if f(x) then 1 else 0)
  {
    if s == [] {
      assert [x][..0] == [];
    } else if Le(x, s[0]) {
      CompteConcat(f, [x], s);
      assert [x][..0] == [];
    } else {
      CompteInsere(f, x, s[1..]);
      CompteConcat(f, [s[0]], Sorting.Insert(Le, x, s[1..]));
      CompteConcat(f, [s[0]], s[1..]);
      assert s == [s[0]] + s[1..];
    }
  }

  lemma {:induction false} CompteConcat(f: real -> bool, a: seq<real>, b: seq<real>)
    ensures Compte(f, a + b) == Compte(f, a) + Compte(f, b)
  {
    if b == [] {
      assert a + b == a;
    } else {
      assert (a + b)[..|a + b| - 1] == a + b[..|b| - 1];
      CompteConcat(f, a, b[..|b| - 1]);
    }
  }

  lemma {:induction false} CompteTri(f: real -> bool, s: seq<real>)
    ensures Compte(f, Trier(s)) == Compte(f, s)
  {
    if s != [] {
      CompteTri(f, s[1..]);
      CompteInsere(f, s[0], Trier(s[1..]));
      CompteConcat(f, [s[0]], s[1..]);
      assert [s[0]][..0] == [];
      assert s == [s[0]] + s[1..];
    }
  }

  /** In a sorted list, rank `k` satisfies a downward-closed test exactly when more than `k` values do. */
  lemma {:induction false} RangSelonCompte(f: real -> bool, s: seq<real>, k: nat)
    requires Triee(s) && Descendante(f) && k < |s|
    ensures f(s[k]) <==> Compte(f, s) > k
  {
    var d := s[..|s| - 1];
    if k < |d| {
      RangSelonCompte(f, d, k);
      if f(s[|s| - 1]) { assert s[k] <= s[|s| - 1]; ToutCompte(f, d); }
    } else {
      if f(s[k]) { ToutCompte(f, d); } else { CompteBorne(f, d); }
    }
  }

  lemma {:induction false} ToutCompte(f: real -> bool, s: seq<real>)
    ensures (forall i :: 0 <= i < |s| ==> f(s[i])) ==> Compte(f, s) == |s|
  {
    if s != [] { ToutCompte(f, s[..|s| - 1]); }
  }

  lemma {:induction false} CompteBorne(f: real -> bool, s: seq<real>)
    ensures Compte(f, s) <= |s|
  {
    if s != [] { CompteBorne(f, s[..|s| - 1]); }
  }

  lemma {:induction false} CompteCroissant(f: real -> bool, a: seq<real>, b: seq<real>)
    requires Descendante(f) && |a| == |b| && forall i :: 0 <= i < |a| ==> a[i] <= b[i]
    ensures Compte(f, b) <= Compte(f, a)
  {
    if a != [] { CompteCroissant(f, a[..|a| - 1], b[..|b| - 1]); }
  }

  /** Raising values raises every order statistic. */
  lemma TriCroissant(a: seq<real>, b: seq<real>, k: nat)
    requires |a| == |b| && forall i :: 0 <= i < |a| ==> a[i] <= b[i]
    requires k < |a|
    ensures |Trier(a)| == |Trier(b)| == |a| && Trier(a)[k] <= Trier(b)[k]
  {
    TrierTrie(a);
    TrierTrie(b);
    var f := x => x <= Trier(b)[k];
    RangSelonCompte(f, Trier(b), k);
    RangSelonCompte(f, Trier(a), k);
    CompteTri(f, a);
    CompteTri(f, b);
    CompteCroissant(f, a, b);
  }

  lemma InterpolerCroissant(s: seq<real>, t: seq<real>, x: real)
    requires |s| == |t| && 0.0 <= x <= (|s| - 1) as real
    requires forall k :: 0 <= k < |s| ==> s[k] <= t[k]
    ensures Interpoler(s, x) <= Interpoler(t, x)
  {
    if x != x.Floor as real {
      BarycentreCroissant(s[x.Floor], s[x.Floor + 1], t[x.Floor], t[x.Floor + 1], x - x.Floor as real);
    }
  }

  /** The median never falls when no value falls. */
  lemma MedianeCroissante(a: seq<real>, b: seq<real>)
    requires a != [] && |a| == |b| && forall i :: 0 <= i < |a| ==> a[i] <= b[i]
    ensures Mediane(a) <= Mediane(b)
  {
    TrierTrie(a);
    TrierTrie(b);
    forall k | 0 <= k < |a| ensures Trier(a)[k] <= Trier(b)[k] {
      TriCroissant(a, b, k);
    }
    QuantilePosition(Trier(a), 0.5);
    QuantilePosition(Trier(b), 0.5);
    InterpolerCroissant(Trier(a), Trier(b), Position(0.5, |a|));
  }

  lemma {:induction false} CompteAuMoins(f: real -> bool, s: seq<real>, lieux: set<nat>)
    requires forall i :: i in lieux ==> i < |s| && f(s[i])
    ensures Compte(f, s) >= |lieux|
  {
    if s == [] {
      assert lieux == {};
    } else {
      var n := |s| - 1;
      var reste := lieux - {n};
      CompteAuMoins(f, s[..n], reste);
      assert lieux == if n in lieux then reste + {n} else reste;
    }
  }

  lemma {:induction false} CompteComplement(f: real -> bool, s: seq<real>, lieux: set<nat>)
    requires forall i :: i in lieux ==> i < |s| && !f(s[i])
    ensures Compte(f, s) + |lieux| <= |s|
  {
    if s == [] {
      assert lieux == {};
    } else {
      var n := |s| - 1;
      var reste := lieux - {n};
      CompteComplement(f, s[..n], reste);
      assert lieux == if n in lieux then reste + {n} else reste;
    }
  }

  /** Breakdown: whatever is written over fewer than half of the values, the median
      stays within the range of the untouched ones. */
  lemma MedianeRobuste(v: seq<real>, w: seq<real>, intacts: set<nat>, lo: real, hi: real)
    requires |v| == |w| && w != [] && 2 * |intacts| > |w|
    requires forall i :: i in intacts ==> i < |v| && w[i] == v[i] && lo <= v[i] <= hi
    ensures lo <= Mediane(w) <= hi
  {
    TrierTrie(w);
    var t, n := Trier(w), |w|;
    var sous, moins := (x: real) => x <= hi, (x: real) => x < lo;
    CompteAuMoins(sous, w, intacts);
    CompteTri(sous, w);
    RangSelonCompte(sous, t, n / 2);
    CompteComplement(moins, w, intacts);
    CompteTri(moins, w);
    RangSelonCompte(moins, t, (n - 1) / 2);
    QuantilePosition(t, 0.5);
    InterpolerEntre(t, Position(0.5, n));
    MilieuEntier(n);
  }

  lemma MilieuEntier(n: nat)
    requires n >= 1
    ensures Position(0.5, n).Floor == (n - 1) / 2 && Plafond(Position(0.5, n)) == n / 2
  {
    var k := (n - 1) / 2;
    if (n - 1) % 2 == 0 {
      assert 0.5 * (n - 1) as real == k as real;
    } else {
      assert 0.5 * (n - 1) as real == k as real + 0.5;
    }
  }

  // ---------------------------------------------------------------------------
  // The summary written out
  // ---------------------------------------------------------------------------

  /** `x` is the quantile at `k` quarters of a rank: that rank, or the weighted mean of two. */
  ghost predicate AuQuart(t: seq<real>, k: nat, x: real) {
    var m := k / 4;
    && m < |t| && (k % 4 != 0 ==> m + 1 < |t|)
    && match k % 4
       case 0 => x == t[m]
       case 1 => 4.0 * x == 3.0 * t[m] + t[m + 1]
       case 2 => 2.0 * x == t[m] + t[m + 1]
       case _ => 4.0 * x == t[m] + 3.0 * t[m + 1]
  }

  lemma PoidsEnQuarts(u: real, v: real)
    ensures 4.0 * Barycentre(u, v, 0.25) == 3.0 * u + v
    ensures 2.0 * Barycentre(u, v, 0.5) == u + v
    ensures 4.0 * Barycentre(u, v, 0.75) == u + 3.0 * v
  {
  }

  lemma InterpolerAuQuart(t: seq<real>, x: real, k: nat)
    requires 4.0 * x == k as real && k <= 4 * (|t| - 1)
    ensures 0.0 <= x <= (|t| - 1) as real && AuQuart(t, k, Interpoler(t, x))
  {
    var m, r := k / 4, k % 4;
    assert k as real == 4.0 * m as real + r as real;
    assert x.Floor == m;
    if r != 0 {
      PoidsEnQuarts(t[m], t[m + 1]);
      assert x - m as real == if r == 1 then 0.25 else if r == 2 then 0.5 else 0.75;
    }
  }

  lemma QuantileAuQuart(t: seq<real>, j: nat)
    requires t != [] && j <= 4
    ensures AuQuart(t, j * (|t| - 1), Quantile(t, j as real / 4.0))
  {
    var p := j as real / 4.0;
    QuantilePosition(t, p);
    InterpolerAuQuart(t, Position(p, |t|), j * (|t| - 1));
  }

  /** The deviations from `m`, in the order of `t`. */
  ghost predicate EcartsA(t: seq<real>, m: real, d: seq<real>) {
    |d| == |t| && forall i :: 0 <= i < |t| ==> d[i] == if t[i] >= m then t[i] - m else m - t[i]
  }

  /** The same values in order. */
  ghost predicate Rangement(s: seq<real>, t: seq<real>) { Triee(t) && |t| == |s| && multiset(t) == multiset(s) }

  /** The whole summary from the sorted values `t` and the sorted deviations from the median. */
  lemma ResumeEcrit(s: seq<real>) returns (t: seq<real>, d: seq<real>, e: seq<real>)
    requires s != []
    ensures Rangement(s, t) && EcartsA(t, Resumer(s).mediane, d) && Rangement(d, e)
    ensures var r, n := Resumer(s), |s|;
            && r.min == t[0] && r.max == t[n - 1]
            && AuQuart(t, 2 * (n - 1), r.mediane) && AuQuart(t, n - 1, r.q1) && AuQuart(t, 3 * (n - 1), r.q3)
            && r.iqr == r.q3 - r.q1 && AuQuart(e, 2 * (n - 1), r.mad)
  {
    hide AuQuart, Quantile, Trier;
    t := Trier(s);
    TrierTrie(s);
    var m := Quantile(t, 0.5);
    d := Ecarts(t, m);
    e := Trier(d);
    TrierTrie(d);
    assert 1.0 / 4.0 == 0.25 && 2.0 / 4.0 == 0.5 && 3.0 / 4.0 == 0.75;
    QuantileAuQuart(t, 1);
    QuantileAuQuart(t, 2);
    QuantileAuQuart(t, 3);
    QuantileAuQuart(e, 2);
  }
}
