/** The reuse-confidence verdict of a sail against a reference population
    (seamtech_search/confiance_reutilisation.py).

    Rounding is half to even; the exponential is a parameter of which only monotonicity,
    sign and exp(0) = 1 are used. */
module ReuseConfidence {
  import opened Options
  import opened RobustStats
  import Sorting

  const MIN_ECHANTILLONS := 5
  const SEUIL_ALERTE := 75.0
  const SEUIL_HETEROGENEITE := 0.075
  const MIN_N_SCORE := 3
  const NB_DIMENSIONS := 7

  /** The seven compared dimensions of a sail, each known or not. */
  type Voile = m: seq<Option<real>> | |m| == NB_DIMENSIONS witness [None, None, None, None, None, None, None]

  type Expo = real -> real

  /** What is used of the exponential. */
  ghost predicate LoiExpo(e: Expo) {
    && e(0.0) == 1.0
    && (forall x :: e(x) >= 0.0)
    && (forall x, y :: x <= y ==> e(x) <= e(y))
  }

  // ---------------------------------------------------------------------------
  // Rounding half to even
  // ---------------------------------------------------------------------------

  function ArrondiEntier(x: real): int {
    var b := x.Floor;
    var d := x - b as real;
    if d < 0.5 then b else if d > 0.5 then b + 1 else if b % 2 == 0 then b else b + 1
  }

  /** `round(x, k)`, with `unite` = 10^k. */
  function Arrondi(x: real, unite: real): real
    requires unite > 0.0
  {
    ArrondiEntier(x * unite) as real / unite
  }

  lemma Quotient(x: real, y: real, u: real)
    requires x <= y && u > 0.0
    ensures x / u <= y / u
  {
    assert y / u - x / u == (y - x) / u;
  }

  lemma ArrondiEntierMonotone(x: real, y: real)
    requires x <= y
    ensures ArrondiEntier(x) <= ArrondiEntier(y)
  {
  }

  lemma ArrondiMonotone(x: real, y: real, unite: real)
    requires x <= y && unite > 0.0
    ensures Arrondi(x, unite) <= Arrondi(y, unite)
  {
    Produit(x, y, unite);
    ArrondiEntierMonotone(x * unite, y * unite);
    Quotient(ArrondiEntier(x * unite) as real, ArrondiEntier(y * unite) as real, unite);
  }

  /** The bounds of the scale round to themselves. */
  lemma ArrondiBornes(unite: real)
    requires unite == 10.0 || unite == 1000.0
    ensures Arrondi(0.0, unite) == 0.0 && Arrondi(100.0, unite) == 100.0
  {
  }

  // ---------------------------------------------------------------------------
  // Statistics of one dimension
  // ---------------------------------------------------------------------------

  datatype Stats = Vides | Stats(n: nat, mediane: real, q1: real, q3: real, iqr: real, mad: real, min: real, max: real)

  function Nombre(st: Stats): nat { if st.Vides? then 0 else st.n }

  function Statistiques(valeurs: seq<real>): Stats {
    if valeurs == [] then Vides
    else
      var r := Resumer(valeurs);
      Stats(|valeurs|, Arrondi(r.mediane, 1000.0), Arrondi(r.q1, 1000.0), Arrondi(r.q3, 1000.0),
            Arrondi(r.iqr, 1000.0), Arrondi(r.mad, 1000.0), Arrondi(r.min, 1000.0), Arrondi(r.max, 1000.0))
  }

  /** Rounded statistics keep their order and sign. */
  lemma StatistiquesOrdonnees(valeurs: seq<real>)
    requires valeurs != []
    ensures var st := Statistiques(valeurs);
            st.min <= st.q1 <= st.mediane <= st.q3 <= st.max && st.iqr >= 0.0 && st.mad >= 0.0
  {
    var r := Resumer(valeurs);
    ResumeOrdonne(valeurs);
    ArrondiMonotone(r.min, r.q1, 1000.0);
    ArrondiMonotone(r.q1, r.mediane, 1000.0);
    ArrondiMonotone(r.mediane, r.q3, 1000.0);
    ArrondiMonotone(r.q3, r.max, 1000.0);
    ArrondiBornes(1000.0);
    ArrondiMonotone(0.0, r.iqr, 1000.0);
    ArrondiMonotone(0.0, r.mad, 1000.0);
  }

  function SigmaRobuste(st: Stats): real
    requires st.Stats?
  {
    if st.iqr > 0.0 then st.iqr / 1.349 else if st.mad > 0.0 then 1.4826 * st.mad else 0.0
  }

  function ScoreGauss(e: Expo, ecart: real, sigma: real): real
    requires sigma > 0.0
  {
    Arrondi(100.0 * e(Exposant(ecart / sigma)), 10.0)
  }

  function Exposant(z: real): real { -0.5 * z * z }

  function Borner(x: real): real { if x > 100.0 then 100.0 else if x < 0.0 then 0.0 else x }

  function ScoreLineaire(ecart: real, base: real): real
    requires base > 0.0
  {
    Arrondi(Borner(100.0 * (1.0 - (ecart / base) / 0.10)), 10.0)
  }

  /** Score 0-100 of a gap to the median. */
  function ScoreEcart(e: Expo, ecart: real, st: Stats): real
    requires st.Stats?
  {
    var sigma := SigmaRobuste(st);
    if sigma > 0.0 then ScoreGauss(e, ecart, sigma)
    else if ecart == 0.0 then 100.0
    else ScoreLineaire(ecart, if st.mediane != 0.0 then Abs(st.mediane) else 1.0)
  }

  function ScoreDimension(e: Expo, valeur: real, st: Stats): real
    requires st.Stats?
  {
    ScoreEcart(e, Abs(valeur - st.mediane), st)
  }

  lemma CarreCroissant(z: real, z': real)
    requires 0.0 <= z <= z'
    ensures Exposant(z') <= Exposant(z) <= 0.0
  {
    Produit(z, z', z);
    Produit(z, z', z');
    assert z * z <= z' * z';
    assert z * z >= 0.0;
  }

  lemma ArrondiBorne(x: real)
    requires 0.0 <= x <= 100.0
    ensures 0.0 <= Arrondi(x, 10.0) <= 100.0
  {
    ArrondiBornes(10.0);
    ArrondiMonotone(0.0, x, 10.0);
    ArrondiMonotone(x, 100.0, 10.0);
  }

  lemma ArrondiCentieme(x: real, x': real)
    requires 0.0 <= x' <= x <= 1.0
    ensures 0.0 <= Arrondi(100.0 * x', 10.0) <= Arrondi(100.0 * x, 10.0) <= 100.0
  {
    ArrondiBorne(100.0 * x);
    ArrondiBorne(100.0 * x');
    ArrondiMonotone(100.0 * x', 100.0 * x, 10.0);
  }

  lemma ExpoDecroissante(e: Expo, z: real, z': real)
    requires LoiExpo(e) && 0.0 <= z <= z'
    ensures 0.0 <= e(Exposant(z')) <= e(Exposant(z)) <= 1.0
  {
    CarreCroissant(z, z');
  }

  lemma EcartReduit(ecart: real, ecart': real, sigma: real)
    requires sigma > 0.0 && 0.0 <= ecart <= ecart'
    ensures 0.0 <= ecart / sigma <= ecart' / sigma
  {
    Quotient(0.0, ecart, sigma);
    Quotient(ecart, ecart', sigma);
  }

  lemma GaussDecroissant(e: Expo, ecart: real, ecart': real, sigma: real)
    requires LoiExpo(e) && sigma > 0.0 && 0.0 <= ecart <= ecart'
    ensures 0.0 <= ScoreGauss(e, ecart', sigma) <= ScoreGauss(e, ecart, sigma) <= 100.0
  {
    EcartReduit(ecart, ecart', sigma);
    ExpoDecroissante(e, ecart / sigma, ecart' / sigma);
    ArrondiCentieme(e(Exposant(ecart / sigma)), e(Exposant(ecart' / sigma)));
  }

  lemma LineaireDecroissant(ecart: real, ecart': real, base: real)
    requires base > 0.0 && ecart <= ecart'
    ensures 0.0 <= ScoreLineaire(ecart', base) <= ScoreLineaire(ecart, base) <= 100.0
  {
    Quotient(ecart, ecart', base);
    var q, q' := ecart / base, ecart' / base;
    var x, x' := 100.0 * (1.0 - q / 0.10), 100.0 * (1.0 - q' / 0.10);
    assert x' <= x;
    ArrondiBorne(Borner(x));
    ArrondiBorne(Borner(x'));
    ArrondiMonotone(Borner(x'), Borner(x), 10.0);
  }

  /** A dimension score lies in 0..100 and never rises as the candidate moves away from the median. */
  lemma ScoreDecroissant(e: Expo, ecart: real, ecart': real, st: Stats)
    requires LoiExpo(e) && st.Stats? && 0.0 <= ecart <= ecart'
    ensures 0.0 <= ScoreEcart(e, ecart', st) <= ScoreEcart(e, ecart, st) <= 100.0
  {
    var sigma := SigmaRobuste(st);
    if sigma > 0.0 {
      GaussDecroissant(e, ecart, ecart', sigma);
    } else {
      LineaireDecroissant(ecart, ecart', if st.mediane != 0.0 then Abs(st.mediane) else 1.0);
    }
  }

  predicate Heterogene(st: Stats) {
    st.Stats? &&
    (if st.mediane == 0.0 then st.iqr > 0.0 else st.iqr / Abs(st.mediane) > SEUIL_HETEROGENEITE)
  }

  // ---------------------------------------------------------------------------
  // The verdict
  // ---------------------------------------------------------------------------

  datatype Verdict = DonneesInsuffisantes | PopulationHeterogene | AExaminer | Compatible

  datatype Dimension = Dimension(champ: nat, stats: Stats, heterogene: bool, score: Option<real>)

  datatype Evaluation = Evaluation(n: nat, score: Option<real>, verdict: Verdict, dimensions: seq<Dimension>)

  function Valeurs(population: seq<Voile>, d: nat): seq<real>
    requires d < NB_DIMENSIONS
  {
    if population == [] then []
    else (if population[0][d].Some? then [population[0][d].value] else []) + Valeurs(population[1..], d)
  }

  function JustifierDimension(e: Expo, d: nat, valeur: Option<real>, st: Stats): Dimension {
    Dimension(d, st, Heterogene(st),
              if valeur.Some? && Nombre(st) >= MIN_N_SCORE then Some(ScoreDimension(e, valeur.value, st)) else None)
  }

  /** What the evaluation reads of the population: the statistics of each dimension. */
  function Profil(population: seq<Voile>): (stats: seq<Stats>)
    ensures |stats| == NB_DIMENSIONS
  {
    seq(NB_DIMENSIONS, d requires 0 <= d < NB_DIMENSIONS => Statistiques(Valeurs(population, d)))
  }

  /** The line of dimension `d`, if there is anything to compare. */
  function LigneDimension(e: Expo, valeur: Option<real>, st: Stats, d: nat): seq<Dimension> {
    if st.Stats? || valeur.Some? then [JustifierDimension(e, d, valeur, st)] else []
  }

  function Dimensions(e: Expo, candidat: Voile, stats: seq<Stats>, k: nat): seq<Dimension>
    requires k <= NB_DIMENSIONS == |stats|
  {
    if k == 0 then []
    else Dimensions(e, candidat, stats, k - 1) + LigneDimension(e, candidat[k - 1], stats[k - 1], k - 1)
  }

  function Communes(ds: seq<Dimension>): seq<Dimension> {
    if ds == [] then [] else (if Nombre(ds[0].stats) >= MIN_N_SCORE then [ds[0]] else []) + Communes(ds[1..])
  }

  function NbHeterogenes(ds: seq<Dimension>): nat {
    if ds == [] then 0 else (if ds[0].heterogene then 1 else 0) + NbHeterogenes(ds[1..])
  }

  function Scores(ds: seq<Dimension>): seq<real> {
    if ds == [] then [] else (if ds[0].score.Some? then [ds[0].score.value] else []) + Scores(ds[1..])
  }

  function Conclure(n: nat, dimensions: seq<Dimension>): Evaluation {
    var communes := Communes(dimensions);
    if n < MIN_ECHANTILLONS then Evaluation(n, None, DonneesInsuffisantes, dimensions)
    else if communes != [] && 2 * NbHeterogenes(communes) >= |communes| then
      Evaluation(n, None, PopulationHeterogene, dimensions)
    else if |Scores(communes)| < 2 then Evaluation(n, None, DonneesInsuffisantes, dimensions)
    else
      var score := Arrondi(Statistiques(Scores(communes)).mediane, 10.0);
      Evaluation(n, Some(score), if score >= SEUIL_ALERTE then Compatible else AExaminer, dimensions)
  }

  function Evaluer(e: Expo, candidat: Voile, population: seq<Voile>): Evaluation {
    Conclure(|population|, Dimensions(e, candidat, Profil(population), NB_DIMENSIONS))
  }

  /** `evaluer_population`, dimension by dimension. */
  method EvaluerPopulation(e: Expo, candidat: Voile, population: seq<Voile>) returns (r: Evaluation)
    ensures r == Evaluer(e, candidat, population)
  {
    var dimensions: seq<Dimension> := [];
    for d := 0 to NB_DIMENSIONS
      invariant dimensions == Dimensions(e, candidat, Profil(population), d)
    {
      var valeurs := Releve(population, d);
      assert Profil(population)[d] == Statistiques(valeurs);
      if valeurs != [] || candidat[d].Some? {
        dimensions := dimensions + [JustifierDimension(e, d, candidat[d], Statistiques(valeurs))];
      }
    }
    r := Conclure(|population|, dimensions);
  }

  method Releve(population: seq<Voile>, d: nat) returns (valeurs: seq<real>)
    requires d < NB_DIMENSIONS
    ensures valeurs == Valeurs(population, d)
  {
    valeurs := [];
    for i := 0 to |population|
      invariant valeurs + Valeurs(population[i..], d) == Valeurs(population, d)
    {
      assert population[i..][1..] == population[i + 1..];
      if population[i][d].Some? {
        valeurs := valeurs + [population[i][d].value];
      }
    }
  }

  // ---------------------------------------------------------------------------
  // What a verdict is worth
  // ---------------------------------------------------------------------------

  lemma {:induction false} ValeursConcat(a: seq<Voile>, b: seq<Voile>, d: nat)
    requires d < NB_DIMENSIONS
    ensures Valeurs(a + b, d) == Valeurs(a, d) + Valeurs(b, d)
  {
    if a == [] {
      assert a + b == b;
      assert [] + Valeurs(b, d) == Valeurs(b, d);
    } else {
      assert (a + b)[1..] == a[1..] + b;
      ValeursConcat(a[1..], b, d);
      var tete := if a[0][d].Some? then [a[0][d].value] else [];
      assert tete + (Valeurs(a[1..], d) + Valeurs(b, d)) == tete + Valeurs(a[1..], d) + Valeurs(b, d);
    }
  }

  /** Moving the first sail to position |a| moves its value only. */
  lemma ValeursDeplacees(x: Voile, a: seq<Voile>, b: seq<Voile>, d: nat)
    requires d < NB_DIMENSIONS
    ensures multiset(Valeurs(a + [x] + b, d)) == multiset(Valeurs([x], d)) + multiset(Valeurs(a + b, d))
  {
    ValeursConcat(a + [x], b, d);
    ValeursConcat(a, [x], d);
    ValeursConcat(a, b, d);
  }

  lemma {:induction false} ValeursIgnorentOrdre(p: seq<Voile>, q: seq<Voile>, d: nat)
    requires d < NB_DIMENSIONS && multiset(p) == multiset(q)
    ensures multiset(Valeurs(p, d)) == multiset(Valeurs(q, d))
  {
    if p == [] {
      Sorting.SameElements(p, q);
    } else {
      var a, b := Sorting.SplitAt(p, q);
      ValeursIgnorentOrdre(p[1..], a + b, d);
      ValeursDeplacees(p[0], a, b, d);
      ValeursConcat([p[0]], p[1..], d);
      assert p == [p[0]] + p[1..];
    }
  }

  lemma StatistiquesIgnorentOrdre(s: seq<real>, t: seq<real>)
    requires multiset(s) == multiset(t)
    ensures Statistiques(s) == Statistiques(t)
  {
    Sorting.SameElements(s, t);
    if s != [] { ResumeIgnoreOrdre(s, t); }
  }

  lemma ProfilIgnoreOrdre(p: seq<Voile>, q: seq<Voile>)
    requires multiset(p) == multiset(q)
    ensures Profil(p) == Profil(q)
  {
    forall d | 0 <= d < NB_DIMENSIONS ensures Statistiques(Valeurs(p, d)) == Statistiques(Valeurs(q, d)) {
      ValeursIgnorentOrdre(p, q, d);
      StatistiquesIgnorentOrdre(Valeurs(p, d), Valeurs(q, d));
    }
  }

  /** The score, the verdict and every statistic shown are the same for every ordering of the population. */
  lemma EvaluationIgnoreOrdre(e: Expo, c: Voile, p: seq<Voile>, q: seq<Voile>)
    requires multiset(p) == multiset(q)
    ensures Evaluer(e, c, p) == Evaluer(e, c, q)
  {
    Sorting.SameElements(p, q);
    ProfilIgnoreOrdre(p, q);
  }

  ghost predicate ScoresEntre0Et100(ds: seq<Dimension>) {
    forall i :: 0 <= i < |ds| && ds[i].score.Some? ==> 0.0 <= ds[i].score.value <= 100.0
  }

  lemma LigneBornee(e: Expo, valeur: Option<real>, st: Stats, d: nat)
    requires LoiExpo(e)
    ensures ScoresEntre0Et100(LigneDimension(e, valeur, st, d))
  {
    if valeur.Some? && Nombre(st) >= MIN_N_SCORE {
      var ecart := Abs(valeur.value - st.mediane);
      ScoreDecroissant(e, ecart, ecart, st);
    }
  }

  lemma {:induction false} ScoresBornes(e: Expo, c: Voile, stats: seq<Stats>, k: nat)
    requires LoiExpo(e) && k <= NB_DIMENSIONS == |stats|
    ensures ScoresEntre0Et100(Dimensions(e, c, stats, k))
  {
    if k > 0 {
      ScoresBornes(e, c, stats, k - 1);
      LigneBornee(e, c[k - 1], stats[k - 1], k - 1);
    }
  }

  ghost predicate Bornes(s: seq<real>) { forall i :: 0 <= i < |s| ==> 0.0 <= s[i] <= 100.0 }

  lemma {:induction false} ScoresCommunsBornes(ds: seq<Dimension>)
    requires ScoresEntre0Et100(ds)
    ensures Bornes(Scores(Communes(ds)))
  {
    if ds != [] {
      ScoresCommunsBornes(ds[1..]);
      var reste := Communes(ds[1..]);
      assert ([ds[0]] + reste)[1..] == reste && [] + reste == reste;
    }
  }

  lemma MedianeBornee(s: seq<real>)
    requires s != [] && Bornes(s)
    ensures 0.0 <= Statistiques(s).mediane <= 100.0
  {
    ResumeOrdonne(s);
    TrierTrie(s);
    Sorting.SameElements(s, Trier(s));
    assert Trier(s)[0] in s && Trier(s)[|s| - 1] in s;
    var m := Resumer(s).mediane;
    ArrondiBornes(1000.0);
    ArrondiMonotone(0.0, m, 1000.0);
    ArrondiMonotone(m, 100.0, 1000.0);
  }

  /** A score exists exactly for the verdicts compatible and to-examine, lies in 0..100,
      and is compatible exactly from 75; under five samples, or with at least half of
      the common dimensions dispersed, there is none. */
  lemma VerdictHonnete(e: Expo, c: Voile, p: seq<Voile>)
    requires LoiExpo(e)
    ensures var r := Evaluer(e, c, p);
            var communes := Communes(r.dimensions);
            && (r.score.Some? <==> r.verdict.Compatible? || r.verdict.AExaminer?)
            && (r.score.Some? ==> 0.0 <= r.score.value <= 100.0 && (r.verdict.Compatible? <==> r.score.value >= 75.0))
            && (r.verdict.PopulationHeterogene? <==>
                  |p| >= 5 && communes != [] && 2 * NbHeterogenes(communes) >= |communes|)
            && (r.verdict.DonneesInsuffisantes? <==>
                  |p| < 5 || (!r.verdict.PopulationHeterogene? && |Scores(communes)| < 2))
  {
    var ds := Dimensions(e, c, Profil(p), NB_DIMENSIONS);
    ScoresBornes(e, c, Profil(p), NB_DIMENSIONS);
    ScoresCommunsBornes(ds);
    var s := Scores(Communes(ds));
    if s != [] {
      MedianeBornee(s);
      ArrondiBorne(Statistiques(s).mediane);
    }
  }

  // ---------------------------------------------------------------------------
  // A strict majority of the dimensions decides
  // ---------------------------------------------------------------------------

  /** Whole tenths, as every dimension score is. */
  ghost predicate Dixiemes(s: seq<real>) { forall i :: 0 <= i < |s| ==> Dixieme(s[i]) }

  ghost predicate Dixieme(x: real) { exists n: int :: x == EnDixiemes(n) }

  function EnDixiemes(n: int): real { n as real / 10.0 }

  lemma ScoreEnDixiemes(e: Expo, ecart: real, st: Stats)
    requires st.Stats?
    ensures Dixieme(ScoreEcart(e, ecart, st))
  {
    var sigma := SigmaRobuste(st);
    if sigma > 0.0 {
      assert ScoreEcart(e, ecart, st) == EnDixiemes(ArrondiEntier(100.0 * e(Exposant(ecart / sigma)) * 10.0));
    } else if ecart == 0.0 {
      assert ScoreEcart(e, ecart, st) == EnDixiemes(1000);
    } else {
      var base := if st.mediane != 0.0 then Abs(st.mediane) else 1.0;
      assert ScoreEcart(e, ecart, st) == EnDixiemes(ArrondiEntier(Borner(100.0 * (1.0 - (ecart / base) / 0.10)) * 10.0));
    }
  }

  ghost predicate LignesEnDixiemes(ds: seq<Dimension>) {
    forall i :: 0 <= i < |ds| && ds[i].score.Some? ==> Dixieme(ds[i].score.value)
  }

  lemma LigneEnDixiemes(e: Expo, valeur: Option<real>, st: Stats, d: nat)
    ensures LignesEnDixiemes(LigneDimension(e, valeur, st, d))
  {
    if valeur.Some? && Nombre(st) >= MIN_N_SCORE { ScoreEnDixiemes(e, Abs(valeur.value - st.mediane), st); }
  }

  lemma {:induction false} DimensionsEnDixiemes(e: Expo, c: Voile, stats: seq<Stats>, k: nat)
    requires k <= NB_DIMENSIONS == |stats|
    ensures LignesEnDixiemes(Dimensions(e, c, stats, k))
  {
    if k > 0 {
      DimensionsEnDixiemes(e, c, stats, k - 1);
      LigneEnDixiemes(e, c[k - 1], stats[k - 1], k - 1);
    }
  }

  lemma {:induction false} ScoresEnDixiemes(ds: seq<Dimension>)
    requires LignesEnDixiemes(ds)
    ensures Dixiemes(Scores(Communes(ds)))
  {
    if ds != [] {
      ScoresEnDixiemes(ds[1..]);
      var reste := Communes(ds[1..]);
      assert ([ds[0]] + reste)[1..] == reste && [] + reste == reste;
    }
  }

  lemma SousLeSeuil(x: real)
    requires Dixieme(x) && x < SEUIL_ALERTE
    ensures x <= 74.9
  {
    var n: int :| x == EnDixiemes(n);
  }

  lemma SeuilArrondi(m: real)
    ensures m >= 75.0 ==> Arrondi(Arrondi(m, 1000.0), 10.0) >= 75.0
    ensures m <= 74.9 ==> Arrondi(Arrondi(m, 1000.0), 10.0) < 75.0
  {
    if m >= 75.0 {
      ArrondiMonotone(75.0, m, 1000.0);
      ArrondiMonotone(75.0, Arrondi(m, 1000.0), 10.0);
    } else if m <= 74.9 {
      ArrondiMonotone(m, 74.9, 1000.0);
      ArrondiMonotone(Arrondi(m, 1000.0), 74.9, 10.0);
    }
  }

  /** When a score is given, more than half of the scored dimensions at 75 or above make the
      sail compatible, and more than half below make it to-examine. */
  lemma MajoriteDecide(e: Expo, c: Voile, p: seq<Voile>, majorite: set<nat>)
    requires LoiExpo(e)
    ensures var r := Evaluer(e, c, p);
            var s := Scores(Communes(r.dimensions));
            r.score.Some? && Majoritaire(majorite, s) ==>
              && ((forall i :: i in majorite ==> s[i] >= 75.0) ==> r.verdict.Compatible?)
              && ((forall i :: i in majorite ==> s[i] < 75.0) ==> r.verdict.AExaminer?)
  {
    var ds := Dimensions(e, c, Profil(p), NB_DIMENSIONS);
    ScoresBornes(e, c, Profil(p), NB_DIMENSIONS);
    ScoresCommunsBornes(ds);
    DimensionsEnDixiemes(e, c, Profil(p), NB_DIMENSIONS);
    ScoresEnDixiemes(ds);
    MajoriteCentrale(Scores(Communes(ds)), majorite);
  }

  /** Places of more than half of the scores. */
  ghost predicate Majoritaire(majorite: set<nat>, s: seq<real>) {
    2 * |majorite| > |s| && forall i :: i in majorite ==> i < |s|
  }

  lemma MajoriteCentrale(s: seq<real>, majorite: set<nat>)
    requires Bornes(s) && Dixiemes(s)
    ensures s != [] && Majoritaire(majorite, s) ==>
              var score := Arrondi(Statistiques(s).mediane, 10.0);
              && ((forall i :: i in majorite ==> s[i] >= 75.0) ==> score >= 75.0)
              && ((forall i :: i in majorite ==> s[i] < 75.0) ==> score < 75.0)
  {
    if s != [] && Majoritaire(majorite, s) {
      SeuilArrondi(Mediane(s));
      if forall i :: i in majorite ==> s[i] >= 75.0 {
        MedianeRobuste(s, s, majorite, 75.0, 100.0);
      }
      if forall i :: i in majorite ==> s[i] < 75.0 {
        forall i | i in majorite ensures 0.0 <= s[i] <= 74.9 { SousLeSeuil(s[i]); }
        MedianeRobuste(s, s, majorite, 0.0, 74.9);
      }
    }
  }

  // ---------------------------------------------------------------------------
  // Moving away from the population
  // ---------------------------------------------------------------------------

  ghost predicate ValeurPlusLoin(valeur: Option<real>, valeur': Option<real>, st: Stats) {
    && (valeur.Some? <==> valeur'.Some?)
    && (valeur.Some? && st.Stats? ==> Abs(valeur.value - st.mediane) <= Abs(valeur'.value - st.mediane))
  }

  /** `c'` knows the same dimensions as `c` and is nowhere closer to the medians. */
  ghost predicate PlusLoin(c: Voile, c': Voile, stats: seq<Stats>)
    requires |stats| == NB_DIMENSIONS
  {
    forall d :: 0 <= d < NB_DIMENSIONS ==> ValeurPlusLoin(c[d], c'[d], stats[d])
  }

  /** Same dimensions, scores nowhere higher. */
  ghost predicate PasMieux(ds: seq<Dimension>, ds': seq<Dimension>) {
    && |ds| == |ds'|
    && forall i :: 0 <= i < |ds| ==> PasMieuxUne(ds[i], ds'[i])
  }

  ghost predicate PasMieuxUne(d: Dimension, d': Dimension) {
    && d' == d.(score := d'.score)
    && (d.score.Some? <==> d'.score.Some?)
    && (d.score.Some? ==> d'.score.value <= d.score.value)
  }

  lemma LignePasMieux(e: Expo, valeur: Option<real>, valeur': Option<real>, st: Stats, d: nat)
    requires LoiExpo(e) && ValeurPlusLoin(valeur, valeur', st)
    ensures PasMieux(LigneDimension(e, valeur, st, d), LigneDimension(e, valeur', st, d))
  {
    if valeur.Some? && Nombre(st) >= MIN_N_SCORE {
      ScoreDecroissant(e, Abs(valeur.value - st.mediane), Abs(valeur'.value - st.mediane), st);
    }
  }

  lemma {:induction false} DimensionsPasMieux(e: Expo, c: Voile, c': Voile, stats: seq<Stats>, k: nat)
    requires k <= NB_DIMENSIONS == |stats| && LoiExpo(e) && PlusLoin(c, c', stats)
    ensures PasMieux(Dimensions(e, c, stats, k), Dimensions(e, c', stats, k))
  {
    if k > 0 {
      DimensionsPasMieux(e, c, c', stats, k - 1);
      LignePasMieux(e, c[k - 1], c'[k - 1], stats[k - 1], k - 1);
    }
  }

  lemma {:induction false} CommunesPasMieux(ds: seq<Dimension>, ds': seq<Dimension>)
    requires PasMieux(ds, ds')
    ensures PasMieux(Communes(ds), Communes(ds'))
  {
    if ds != [] {
      CommunesPasMieux(ds[1..], ds'[1..]);
      assert PasMieuxUne(ds[0], ds'[0]);
      PasMieuxReunis(if Nombre(ds[0].stats) >= MIN_N_SCORE then [ds[0]] else [], Communes(ds[1..]),
                     if Nombre(ds[0].stats) >= MIN_N_SCORE then [ds'[0]] else [], Communes(ds'[1..]));
    }
  }

  lemma PasMieuxReunis(a: seq<Dimension>, b: seq<Dimension>, a': seq<Dimension>, b': seq<Dimension>)
    requires PasMieux(a, a') && PasMieux(b, b')
    ensures PasMieux(a + b, a' + b')
  {
  }

  lemma {:induction false} ScoresPasMieux(ds: seq<Dimension>, ds': seq<Dimension>)
    requires PasMieux(ds, ds')
    ensures NbHeterogenes(ds) == NbHeterogenes(ds')
    ensures |Scores(ds)| == |Scores(ds')|
    ensures forall i :: 0 <= i < |Scores(ds)| ==> Scores(ds')[i] <= Scores(ds)[i]
  {
    if ds != [] {
      assert PasMieuxUne(ds[0], ds'[0]);
      ScoresPasMieux(ds[1..], ds'[1..]);
    }
  }

  /** A candidate that moves away from the population in some dimensions, and closer in
      none, is scored exactly when it was and never higher: a verdict can fall from
      compatible to to-examine, never rise. */
  lemma EloignementNeRemontePas(e: Expo, c: Voile, c': Voile, p: seq<Voile>)
    requires LoiExpo(e) && PlusLoin(c, c', Profil(p))
    ensures var r, r' := Evaluer(e, c, p), Evaluer(e, c', p);
            && (r.score.Some? <==> r'.score.Some?)
            && (r.score.Some? ==> r'.score.value <= r.score.value)
            && (r'.verdict.Compatible? ==> r.verdict.Compatible?)
            && (r.score.None? ==> r'.verdict == r.verdict)
  {
    var stats := Profil(p);
    var ds, ds' := Dimensions(e, c, stats, NB_DIMENSIONS), Dimensions(e, c', stats, NB_DIMENSIONS);
    DimensionsPasMieux(e, c, c', stats, NB_DIMENSIONS);
    CommunesPasMieux(ds, ds');
    ScoresPasMieux(Communes(ds), Communes(ds'));
    var s, s' := Scores(Communes(ds)), Scores(Communes(ds'));
    if s != [] {
      MedianeCroissante(s', s);
      ArrondiMonotone(Mediane(s'), Mediane(s), 1000.0);
      ArrondiMonotone(Statistiques(s').mediane, Statistiques(s).mediane, 10.0);
    }
  }
}
