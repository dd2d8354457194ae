/** The reuse-confidence verdict written out from the population
    (seamtech_search/confiance_reutilisation.py:88-315): which dimensions are compared, what each
    score is, when there is a verdict and which, without the functions that compute them. */
module ReuseVerdict {
  import opened Options
  import opened RobustStats
  import opened ReuseConfidence

  // ---------------------------------------------------------------------------
  // Rounding
  // ---------------------------------------------------------------------------

  /** `r` is `k` units of `1 / unite`, and `k` the integer nearest to `x * unite`, the even one of two. */
  ghost predicate Proche(x: real, unite: real, k: int, r: real) {
    var reste := x * unite - k as real;
    && -0.5 <= reste <= 0.5 && (reste == 0.5 || reste == -0.5 ==> k % 2 == 0)
    && r * unite == k as real
  }

  ghost predicate Arrondie(x: real, unite: real, r: real) { exists k: int :: Proche(x, unite, k, r) }

  lemma ArrondiEcrit(x: real, unite: real)
    requires unite > 0.0
    ensures Arrondie(x, unite, Arrondi(x, unite))
  {
    assert Proche(x, unite, ArrondiEntier(x * unite), Arrondi(x, unite));
  }

  // ---------------------------------------------------------------------------
  // The statistics of a dimension
  // ---------------------------------------------------------------------------

  ghost predicate Croissante(s: seq<nat>) { forall i, j :: 0 <= i < j < |s| ==> s[i] < s[j] }

  ghost predicate Enumere(s: seq<nat>, e: set<nat>) { Croissante(s) && forall k :: k in s <==> k in e }

  lemma {:induction false} Cardinal(s: seq<nat>, e: set<nat>)
    requires Enumere(s, e)
    ensures |s| == |e|
  {
    if s == [] {
      assert e == {};
    } else {
      var x, d := s[|s| - 1], s[..|s| - 1];
      forall k ensures k in d <==> k in e - {x} {
        assert k in s <==> k in d || k == x;
      }
      Cardinal(d, e - {x});
    }
  }

  /** The sails of the population that know dimension `d`. */
  ghost function Connaisseurs(p: seq<Voile>, d: nat): set<nat>
    requires d < NB_DIMENSIONS
  {
    set k | 0 <= k < |p| && p[k][d].Some?
  }

  ghost predicate ValeursAux(p: seq<Voile>, d: nat, lieux: seq<nat>, valeurs: seq<real>)
    requires d < NB_DIMENSIONS
  {
    && Enumere(lieux, Connaisseurs(p, d)) && |valeurs| == |lieux|
    && forall i :: 0 <= i < |lieux| ==> lieux[i] < |p| && p[lieux[i]][d].Some? && valeurs[i] == p[lieux[i]][d].value
  }

  lemma ValeurDePlus(p: seq<Voile>, x: Voile, d: nat, lieux: seq<nat>, valeurs: seq<real>)
    requires d < NB_DIMENSIONS && ValeursAux(p, d, lieux, valeurs)
    ensures x[d].Some? ==> ValeursAux(p + [x], d, lieux + [|p|], valeurs + [x[d].value])
    ensures x[d].None? ==> ValeursAux(p + [x], d, lieux, valeurs)
  {
    assert Connaisseurs(p + [x], d) == Connaisseurs(p, d) + if x[d].Some? then {|p|} else {};
    forall i | 0 <= i < |lieux| ensures lieux[i] < |p| && (p + [x])[lieux[i]] == p[lieux[i]] {}
  }

  /** The values compared are those of the sails that know the dimension, in order. */
  lemma {:induction false} ValeursEcrites(p: seq<Voile>, d: nat) returns (lieux: seq<nat>)
    requires d < NB_DIMENSIONS
    ensures ValeursAux(p, d, lieux, Valeurs(p, d)) && |Valeurs(p, d)| == |Connaisseurs(p, d)|
  {
    if p == [] {
      lieux := [];
    } else {
      var dernier, avant := p[|p| - 1], p[..|p| - 1];
      lieux := ValeursEcrites(avant, d);
      assert p == avant + [dernier];
      ValeursConcat(avant, [dernier], d);
      assert Valeurs([dernier], d) == if dernier[d].Some? then [dernier[d].value] else [];
      ValeurDePlus(avant, dernier, d, lieux, Valeurs(avant, d));
      hide ValeursAux;
      if dernier[d].Some? { lieux := lieux + [|p| - 1]; }
    }
    Cardinal(lieux, Connaisseurs(p, d));
  }

  /** Each statistic shown is the exact one to three decimals. */
  lemma StatistiquesEcrites(valeurs: seq<real>)
    ensures Statistiques(valeurs).Vides? <==> valeurs == []
    ensures valeurs != [] ==>
              var st, r := Statistiques(valeurs), Resumer(valeurs);
              && st.n == |valeurs|
              && Arrondie(r.mediane, 1000.0, st.mediane) && Arrondie(r.q1, 1000.0, st.q1) && Arrondie(r.q3, 1000.0, st.q3)
              && Arrondie(r.iqr, 1000.0, st.iqr) && Arrondie(r.mad, 1000.0, st.mad)
              && Arrondie(r.min, 1000.0, st.min) && Arrondie(r.max, 1000.0, st.max)
  {
    hide Arrondie;
    if valeurs != [] {
      var r := Resumer(valeurs);
      ArrondiEcrit(r.mediane, 1000.0);
      ArrondiEcrit(r.q1, 1000.0);
      ArrondiEcrit(r.q3, 1000.0);
      ArrondiEcrit(r.iqr, 1000.0);
      ArrondiEcrit(r.mad, 1000.0);
      ArrondiEcrit(r.min, 1000.0);
      ArrondiEcrit(r.max, 1000.0);
    }
  }

  // ---------------------------------------------------------------------------
  // The score of a dimension
  // ---------------------------------------------------------------------------

  ghost function Distance(x: real, y: real): real { if x >= y then x - y else y - x }

  ghost function Cloche(z: real): real { -(z * z) / 2.0 }

  /** What 10 % is measured against. */
  ghost function Reference(m: real): real { if m > 0.0 then m else if m < 0.0 then -m else 1.0 }

  /** The score of a candidate's value: Gaussian on the IQR, else on the MAD; when both are zero,
      100 at the median, 0 from 10 % away on, and linear in between. */
  ghost predicate ScoreEcrit(e: Expo, valeur: real, st: Stats, score: real)
    requires st.Stats?
  {
    var g, base := Distance(valeur, st.mediane), Reference(st.mediane);
    && (st.iqr > 0.0 ==> var z := 1.349 * g / st.iqr; Arrondie(100.0 * e(Cloche(z)), 10.0, score))
    && (st.iqr <= 0.0 && st.mad > 0.0 ==> var z := g / (1.4826 * st.mad); Arrondie(100.0 * e(Cloche(z)), 10.0, score))
    && (st.iqr <= 0.0 && st.mad <= 0.0 ==>
          && (g == 0.0 ==> score == 100.0)
          && (10.0 * g >= base ==> score == 0.0)
          && (10.0 * g < base ==> Arrondie(100.0 - 1000.0 * g / base, 10.0, score)))
  }

  lemma DemiCarre(z: real)
    ensures Exposant(z) == Cloche(z)
  {
  }

  lemma SigmaIqr(g: real, iqr: real)
    requires iqr > 0.0
    ensures iqr / 1.349 > 0.0 && g / (iqr / 1.349) == 1.349 * g / iqr
  {
    var z, w := g / (iqr / 1.349), 1.349 * g / iqr;
    assert z * (iqr / 1.349) == g && w * iqr == 1.349 * g;
    assert z * iqr == 1.349 * (z * (iqr / 1.349));
    assert (z - w) * iqr == 0.0;
  }

  lemma GaussEcrit(e: Expo, g: real, sigma: real, z: real)
    requires sigma > 0.0 && g / sigma == z
    ensures Arrondie(100.0 * e(Cloche(z)), 10.0, ScoreGauss(e, g, sigma))
  {
    DemiCarre(z);
    ArrondiEcrit(100.0 * e(Exposant(z)), 10.0);
  }

  lemma EnDixieme(g: real, base: real)
    requires base > 0.0
    ensures 1000.0 * g / base == 1000.0 * (g / base)
    ensures 100.0 * (1.0 - (g / base) / 0.10) == 100.0 - 1000.0 * (g / base)
  {
    var q, w := g / base, 1000.0 * g / base;
    assert q * base == g && w * base == 1000.0 * g;
    assert (w - 1000.0 * q) * base == 0.0;
  }

  lemma Lineaire(g: real, base: real)
    requires base > 0.0
    ensures 100.0 * (1.0 - (g / base) / 0.10) == 100.0 - 1000.0 * g / base
    ensures g == 0.0 ==> 1000.0 * g / base == 0.0
    ensures g >= 0.0 ==> 1000.0 * g / base >= 0.0
    ensures 10.0 * g >= base ==> 1000.0 * g / base >= 100.0
    ensures 10.0 * g < base ==> 1000.0 * g / base < 100.0
  {
    EnDixieme(g, base);
    var q := g / base;
    SigneQuotient(q, 0.1, base);
    SigneQuotient(q, 0.0, base);
    assert q * base == g && 0.1 * base == base / 10.0 && 0.0 * base == 0.0;
    assert g == 0.0 ==> q == 0.0;
  }

  lemma SigneQuotient(q: real, seuil: real, base: real)
    requires base > 0.0
    ensures q * base >= seuil * base <==> q >= seuil
  {
    if q >= seuil { Produit(seuil, q, base); } else { assert (seuil - q) * base > 0.0; }
  }

  lemma ScoreLineaireEcrit(g: real, base: real)
    requires base > 0.0 && g >= 0.0
    ensures var s := ScoreLineaire(g, base);
            && (g == 0.0 ==> s == 100.0) && (10.0 * g >= base ==> s == 0.0)
            && (10.0 * g < base ==> Arrondie(100.0 - 1000.0 * g / base, 10.0, s))
  {
    hide Arrondie, Arrondi;
    Lineaire(g, base);
    ArrondiBornes(10.0);
    ArrondiEcrit(Borner(100.0 - 1000.0 * g / base), 10.0);
  }

  lemma ScoreDimensionEcrit(e: Expo, valeur: real, st: Stats)
    requires st.Stats?
    ensures ScoreEcrit(e, valeur, st, ScoreDimension(e, valeur, st))
  {
    hide Arrondie, ScoreGauss, ScoreLineaire, Cloche;
    var g := Distance(valeur, st.mediane);
    if st.iqr > 0.0 {
      SigmaIqr(g, st.iqr);
      GaussEcrit(e, g, st.iqr / 1.349, 1.349 * g / st.iqr);
    } else if st.mad > 0.0 {
      GaussEcrit(e, g, 1.4826 * st.mad, g / (1.4826 * st.mad));
    } else {
      ScoreLineaireEcrit(g, Reference(st.mediane));
    }
  }

  /** Dispersed: the IQR exceeds 7.5 % of the median, or is not zero around a zero median. */
  ghost predicate Disperse(st: Stats) {
    st.Stats? && if st.mediane == 0.0 then st.iqr > 0.0 else 1000.0 * st.iqr > 75.0 * Distance(st.mediane, 0.0)
  }

  lemma HeterogeneEcrit(st: Stats)
    ensures Heterogene(st) <==> Disperse(st)
  {
    if st.Stats? && st.mediane != 0.0 {
      var a := Distance(st.mediane, 0.0);
      var q := st.iqr / a;
      assert a > 0.0 && q * a == st.iqr && Abs(st.mediane) == a;
      if q > 0.075 { assert (q - 0.075) * a > 0.0; } else { assert (0.075 - q) * a >= 0.0; }
    }
  }

  // ---------------------------------------------------------------------------
  // The lines
  // ---------------------------------------------------------------------------

  ghost predicate LigneJuste(e: Expo, c: Voile, p: seq<Voile>, l: Dimension) {
    && l.champ < NB_DIMENSIONS && l.stats == Statistiques(Valeurs(p, l.champ))
    && Nombre(l.stats) == |Connaisseurs(p, l.champ)|
    && (l.heterogene <==> Disperse(l.stats))
    && (l.score.Some? <==> c[l.champ].Some? && |Connaisseurs(p, l.champ)| >= 3)
    && (l.score.Some? ==> l.stats.Stats? && ScoreEcrit(e, c[l.champ].value, l.stats, l.score.value))
  }

  ghost predicate Lignes(e: Expo, c: Voile, p: seq<Voile>, ds: seq<Dimension>, k: nat) {
    && k <= NB_DIMENSIONS
    && (forall i :: 0 <= i < |ds| ==> ds[i].champ < k && LigneJuste(e, c, p, ds[i]))
    && (forall i, j :: 0 <= i < j < |ds| ==> ds[i].champ < ds[j].champ)
    && (forall d :: 0 <= d < k && (c[d].Some? || Connaisseurs(p, d) != {}) ==> Montree(ds, d))
    && (forall d :: 0 <= d < k && Montree(ds, d) ==> c[d].Some? || Connaisseurs(p, d) != {})
  }

  ghost predicate Montree(ds: seq<Dimension>, d: nat) { exists i :: 0 <= i < |ds| && ds[i].champ == d }

  lemma LigneEcrite(e: Expo, c: Voile, p: seq<Voile>, d: nat)
    requires d < NB_DIMENSIONS
    ensures var l := LigneDimension(e, c[d], Statistiques(Valeurs(p, d)), d);
            && (l != [] <==> c[d].Some? || Connaisseurs(p, d) != {})
            && (l != [] ==> |l| == 1 && l[0].champ == d && LigneJuste(e, c, p, l[0]))
  {
    hide ScoreEcrit, Disperse, Heterogene, ScoreDimension;
    var lieux := ValeursEcrites(p, d);
    var st := Statistiques(Valeurs(p, d));
    HeterogeneEcrit(st);
    if c[d].Some? && st.Stats? { ScoreDimensionEcrit(e, c[d].value, st); }
  }

  lemma {:induction false} LignesEcrites(e: Expo, c: Voile, p: seq<Voile>, k: nat)
    requires k <= NB_DIMENSIONS
    ensures Lignes(e, c, p, Dimensions(e, c, Profil(p), k), k)
  {
    hide LigneJuste, Statistiques;
    if k > 0 {
      LignesEcrites(e, c, p, k - 1);
      LigneEcrite(e, c, p, k - 1);
      var avant, l := Dimensions(e, c, Profil(p), k - 1), LigneDimension(e, c[k - 1], Profil(p)[k - 1], k - 1);
      LigneAjoutee(e, c, p, avant, l, k);
    }
  }

  lemma LigneAjoutee(e: Expo, c: Voile, p: seq<Voile>, avant: seq<Dimension>, l: seq<Dimension>, k: nat)
    requires 0 < k <= NB_DIMENSIONS && Lignes(e, c, p, avant, k - 1)
    requires l != [] <==> c[k - 1].Some? || Connaisseurs(p, k - 1) != {}
    requires l != [] ==> |l| == 1 && l[0].champ == k - 1 && LigneJuste(e, c, p, l[0])
    ensures Lignes(e, c, p, avant + l, k)
  {
    hide LigneJuste;
    var ds := avant + l;
    forall d | 0 <= d < k - 1 ensures Montree(ds, d) <==> Montree(avant, d) {
      if Montree(avant, d) {
        var i :| 0 <= i < |avant| && avant[i].champ == d;
        assert ds[i].champ == d;
      }
    }
    if l != [] { assert ds[|avant|].champ == k - 1; }
  }

  // ---------------------------------------------------------------------------
  // The verdict
  // ---------------------------------------------------------------------------

  predicate Commune(l: Dimension) { Nombre(l.stats) >= 3 }
  predicate CommuneDispersee(l: Dimension) { Commune(l) && l.heterogene }
  predicate Notee(l: Dimension) { Commune(l) && l.score.Some? }

  ghost function ChampsSi(f: Dimension -> bool, ds: seq<Dimension>): seq<nat> {
    if ds == [] then [] else (if f(ds[0]) then [ds[0].champ] else []) + ChampsSi(f, ds[1..])
  }

  ghost predicate Porte(f: Dimension -> bool, ds: seq<Dimension>, d: nat) { exists i :: 0 <= i < |ds| && ds[i].champ == d && f(ds[i]) }

  lemma {:induction false} ChampsOrdonnes(f: Dimension -> bool, ds: seq<Dimension>)
    requires forall i, j :: 0 <= i < j < |ds| ==> ds[i].champ < ds[j].champ
    ensures Croissante(ChampsSi(f, ds)) && forall d :: d in ChampsSi(f, ds) <==> Porte(f, ds, d)
  {
    if ds != [] {
      var reste := ds[1..];
      ChampsOrdonnes(f, reste);
      forall d ensures Porte(f, ds, d) <==> (f(ds[0]) && ds[0].champ == d) || Porte(f, reste, d) {
        if Porte(f, reste, d) {
          var i :| 0 <= i < |reste| && reste[i].champ == d && f(reste[i]);
          assert ds[i + 1].champ == d;
        }
        if Porte(f, ds, d) && !(f(ds[0]) && ds[0].champ == d) {
          var i :| 0 <= i < |ds| && ds[i].champ == d && f(ds[i]);
          assert reste[i - 1].champ == d;
        }
      }
      forall d | d in ChampsSi(f, reste) ensures ds[0].champ < d {
        var i :| 0 <= i < |reste| && reste[i].champ == d && f(reste[i]);
        assert ds[i + 1].champ == d;
      }
      Precede(ds[0].champ, ChampsSi(f, reste));
    }
  }

  lemma Precede(x: nat, s: seq<nat>)
    requires Croissante(s) && forall y :: y in s ==> x < y
    ensures Croissante([x] + s) && Croissante([] + s)
  {
    forall i, j | 0 <= i < j < |[x] + s| ensures ([x] + s)[i] < ([x] + s)[j] {
      assert ([x] + s)[j] == s[j - 1] && s[j - 1] in s;
    }
  }

  lemma LigneEnTete(l: Dimension, reste: seq<Dimension>)
    ensures NbHeterogenes([l] + reste) == (if l.heterogene then 1 else 0) + NbHeterogenes(reste)
    ensures Scores([l] + reste) == (if l.score.Some? then [l.score.value] else []) + Scores(reste)
  {
    assert ([l] + reste)[1..] == reste;
  }

  /** One line more in front, in each count. */
  lemma ComptesEnTete(ds: seq<Dimension>)
    requires ds != []
    ensures var c, c' := Communes(ds[1..]), Communes(ds);
            if Commune(ds[0]) then
              && |c'| == 1 + |c| && NbHeterogenes(c') == (if ds[0].heterogene then 1 else 0) + NbHeterogenes(c)
              && Scores(c') == (if ds[0].score.Some? then [ds[0].score.value] else []) + Scores(c)
            else c' == c
  {
    LigneEnTete(ds[0], Communes(ds[1..]));
    hide NbHeterogenes, Scores;
    assert [] + Communes(ds[1..]) == Communes(ds[1..]);
  }

  lemma ChampsEnTete(f: Dimension -> bool, ds: seq<Dimension>)
    requires ds != []
    ensures ChampsSi(f, ds) == if f(ds[0]) then [ds[0].champ] + ChampsSi(f, ds[1..]) else ChampsSi(f, ds[1..])
  {
    assert [] + ChampsSi(f, ds[1..]) == ChampsSi(f, ds[1..]);
  }

  ghost predicate SontNotees(ds: seq<Dimension>, champs: seq<nat>, scores: seq<real>) {
    |champs| == |scores| && forall i :: 0 <= i < |champs| ==> EstNotee(ds, champs[i], scores[i])
  }

  lemma NotesEnTete(ds: seq<Dimension>, champs: seq<nat>, scores: seq<real>)
    requires ds != [] && SontNotees(ds[1..], champs, scores)
    ensures SontNotees(ds, champs, scores)
    ensures ds[0].score.Some? ==> SontNotees(ds, [ds[0].champ] + champs, [ds[0].score.value] + scores)
  {
    forall i | 0 <= i < |champs| ensures EstNotee(ds, champs[i], scores[i]) {
      var j :| 0 <= j < |ds[1..]| && ds[1..][j].champ == champs[i] && ds[1..][j].score == Some(scores[i]);
      assert ds[j + 1] == ds[1..][j];
    }
    assert ds[0].score.Some? ==> EstNotee(ds, ds[0].champ, ds[0].score.value);
  }

  /** The counts and the scores of the verdict, line by line. */
  lemma {:induction false} ComptesDesLignes(ds: seq<Dimension>)
    ensures |Communes(ds)| == |ChampsSi(Commune, ds)|
    ensures NbHeterogenes(Communes(ds)) == |ChampsSi(CommuneDispersee, ds)|
    ensures SontNotees(ds, ChampsSi(Notee, ds), Scores(Communes(ds)))
  {
    if ds != [] {
      var reste := ds[1..];
      ComptesDesLignes(reste);
      ComptesEnTete(ds);
      ChampsEnTete(Commune, ds);
      ChampsEnTete(CommuneDispersee, ds);
      ChampsEnTete(Notee, ds);
      NotesEnTete(ds, ChampsSi(Notee, reste), Scores(Communes(reste)));
      hide NbHeterogenes, Scores, Communes, ChampsSi, SontNotees;
      assert [] + Scores(Communes(reste)) == Scores(Communes(reste));
    }
  }

  ghost predicate EstNotee(ds: seq<Dimension>, d: nat, score: real) {
    exists j :: 0 <= j < |ds| && ds[j].champ == d && ds[j].score == Some(score)
  }

  /** At least three sails of the population know the dimension. */
  ghost function DimensionsCommunes(p: seq<Voile>): set<nat> { set d | 0 <= d < NB_DIMENSIONS && |Connaisseurs(p, d)| >= 3 }

  ghost function Dispersees(p: seq<Voile>): set<nat> { set d | d in DimensionsCommunes(p) && Disperse(Statistiques(Valeurs(p, d))) }

  ghost function Notees(c: Voile, p: seq<Voile>): set<nat> { set d | d in DimensionsCommunes(p) && c[d].Some? }

  lemma PorteSsi(e: Expo, c: Voile, p: seq<Voile>, ds: seq<Dimension>, d: nat)
    requires Lignes(e, c, p, ds, NB_DIMENSIONS)
    ensures Porte(Commune, ds, d) <==> d in DimensionsCommunes(p)
    ensures Porte(CommuneDispersee, ds, d) <==> d in Dispersees(p)
    ensures Porte(Notee, ds, d) <==> d in Notees(c, p)
  {
    hide ScoreEcrit, Disperse, Statistiques, Valeurs;
    if Montree(ds, d) {
      var i :| 0 <= i < |ds| && ds[i].champ == d;
      assert LigneJuste(e, c, p, ds[i]);
      forall j | 0 <= j < |ds| && ds[j].champ == d ensures j == i {}
    }
  }

  /** The final score: the median of the scores to three decimals, then to one. */
  ghost predicate ScoreFinal(scores: seq<real>, x: real)
    requires scores != []
  {
    exists t, m, a :: Rangement(scores, t) && AuQuart(t, 2 * (|scores| - 1), m) && Arrondie(m, 1000.0, a) && Arrondie(a, 10.0, x)
  }

  ghost predicate ScoresEcrits(e: Expo, c: Voile, p: seq<Voile>, champs: seq<nat>, scores: seq<real>) {
    && Enumere(champs, Notees(c, p)) && |scores| == |champs| == |Notees(c, p)|
    && forall i :: 0 <= i < |champs| ==> champs[i] in Notees(c, p) && NoteEcrite(e, c, p, champs[i], scores[i])
  }

  ghost predicate NoteEcrite(e: Expo, c: Voile, p: seq<Voile>, d: nat, score: real) {
    && d < NB_DIMENSIONS && c[d].Some?
    && var st := Statistiques(Valeurs(p, d)); st.Stats? && ScoreEcrit(e, c[d].value, st, score)
  }

  /** The three counts of the verdict are those of sets of dimensions. */
  lemma ComptesEcrits(e: Expo, c: Voile, p: seq<Voile>, ds: seq<Dimension>)
    requires Lignes(e, c, p, ds, NB_DIMENSIONS)
    ensures Enumere(ChampsSi(Notee, ds), Notees(c, p)) && |Scores(Communes(ds))| == |ChampsSi(Notee, ds)| == |Notees(c, p)|
    ensures |Communes(ds)| == |DimensionsCommunes(p)| && NbHeterogenes(Communes(ds)) == |Dispersees(p)|
  {
    ComptesDesLignes(ds);
    ChampsOrdonnes(Commune, ds);
    ChampsOrdonnes(CommuneDispersee, ds);
    ChampsOrdonnes(Notee, ds);
    hide LigneJuste, DimensionsCommunes, Dispersees, Notees, Porte, ChampsSi, Communes, Scores, NbHeterogenes, Croissante;
    forall d ensures Porte(Commune, ds, d) <==> d in DimensionsCommunes(p)
             ensures Porte(CommuneDispersee, ds, d) <==> d in Dispersees(p)
             ensures Porte(Notee, ds, d) <==> d in Notees(c, p)
    {
      PorteSsi(e, c, p, ds, d);
    }
    Cardinal(ChampsSi(Commune, ds), DimensionsCommunes(p));
    Cardinal(ChampsSi(CommuneDispersee, ds), Dispersees(p));
    Cardinal(ChampsSi(Notee, ds), Notees(c, p));
  }

  lemma NotesEcrites(e: Expo, c: Voile, p: seq<Voile>, ds: seq<Dimension>, i: nat)
    requires Lignes(e, c, p, ds, NB_DIMENSIONS) && |Scores(Communes(ds))| == |ChampsSi(Notee, ds)| && i < |ChampsSi(Notee, ds)|
    ensures NoteEcrite(e, c, p, ChampsSi(Notee, ds)[i], Scores(Communes(ds))[i])
  {
    ComptesDesLignes(ds);
    hide ScoreEcrit, Statistiques, Valeurs, Disperse, ChampsSi, Communes, Scores;
    var d, score := ChampsSi(Notee, ds)[i], Scores(Communes(ds))[i];
    assert SontNotees(ds, ChampsSi(Notee, ds), Scores(Communes(ds)));
    assert EstNotee(ds, d, score);
    var j :| 0 <= j < |ds| && ds[j].champ == d && ds[j].score == Some(score);
    assert LigneJuste(e, c, p, ds[j]);
  }

  lemma ScoresDesDimensions(e: Expo, c: Voile, p: seq<Voile>, ds: seq<Dimension>) returns (champs: seq<nat>)
    requires Lignes(e, c, p, ds, NB_DIMENSIONS)
    ensures ScoresEcrits(e, c, p, champs, Scores(Communes(ds))) && |Scores(Communes(ds))| == |Notees(c, p)|
    ensures |Communes(ds)| == |DimensionsCommunes(p)| && NbHeterogenes(Communes(ds)) == |Dispersees(p)|
  {
    hide Lignes, NoteEcrite, Notees, DimensionsCommunes, Dispersees, ChampsSi, Communes, Scores, NbHeterogenes, Croissante;
    ComptesEcrits(e, c, p, ds);
    champs := ChampsSi(Notee, ds);
    forall i | 0 <= i < |champs| ensures champs[i] in Notees(c, p) && NoteEcrite(e, c, p, champs[i], Scores(Communes(ds))[i]) {
      assert champs[i] in champs;
      NotesEcrites(e, c, p, ds, i);
    }
  }

  lemma ScoreFinalEcrit(scores: seq<real>)
    requires scores != []
    ensures ScoreFinal(scores, Arrondi(Statistiques(scores).mediane, 10.0))
  {
    hide Arrondie, AuQuart;
    var t, d, e := ResumeEcrit(scores);
    StatistiquesEcrites(scores);
    ArrondiEcrit(Statistiques(scores).mediane, 10.0);
  }

  lemma ConclureEcrit(n: nat, ds: seq<Dimension>)
    ensures var r, communes, scores := Conclure(n, ds), |Communes(ds)|, Scores(Communes(ds));
            && r.n == n && r.dimensions == ds
            && if n < 5 then r.verdict.DonneesInsuffisantes? && r.score == None
               else if communes != 0 && 2 * NbHeterogenes(Communes(ds)) >= communes then r.verdict.PopulationHeterogene? && r.score == None
               else if |scores| < 2 then r.verdict.DonneesInsuffisantes? && r.score == None
               else r.score.Some? && ScoreFinal(scores, r.score.value)
                    && r.verdict == if r.score.value >= 75.0 then Compatible else AExaminer
  {
    hide ScoreFinal, Statistiques, Arrondi, Communes, Scores, NbHeterogenes;
    var scores := Scores(Communes(ds));
    if scores != [] { ScoreFinalEcrit(scores); }
  }

  /** The whole evaluation, from the population and the candidate: which dimensions are scored and
      how, and which verdict they give. */
  lemma VerdictEcrit(e: Expo, c: Voile, p: seq<Voile>) returns (champs: seq<nat>, scores: seq<real>)
    ensures ScoresEcrits(e, c, p, champs, scores) && |scores| == |Notees(c, p)|
    ensures var r := Evaluer(e, c, p);
            && r.n == |p| && Lignes(e, c, p, r.dimensions, NB_DIMENSIONS)
            && if |p| < 5 then r.verdict.DonneesInsuffisantes? && r.score == None
               else if DimensionsCommunes(p) != {} && 2 * |Dispersees(p)| >= |DimensionsCommunes(p)| then
                 r.verdict.PopulationHeterogene? && r.score == None
               else if |Notees(c, p)| < 2 then r.verdict.DonneesInsuffisantes? && r.score == None
               else r.score.Some? && ScoreFinal(scores, r.score.value)
                    && r.verdict == if r.score.value >= 75.0 then Compatible else AExaminer
  {
    var ds := Dimensions(e, c, Profil(p), NB_DIMENSIONS);
    LignesEcrites(e, c, p, NB_DIMENSIONS);
    champs := ScoresDesDimensions(e, c, p, ds);
    scores := Scores(Communes(ds));
    hide ScoresEcrits, Lignes, ScoreFinal, DimensionsCommunes, Dispersees, Notees, Communes, Scores, NbHeterogenes, Dimensions, Profil, Conclure;
    ConclureEcrit(|p|, ds);
    assert DimensionsCommunes(p) != {} <==> |DimensionsCommunes(p)| != 0;
  }

  // ---------------------------------------------------------------------------
  // A candidate away from, or at, constant dimensions
  // ---------------------------------------------------------------------------

  /** All the sails that know dimension `d`, three at least, have the value shown as `m`. */
  ghost predicate Constante(p: seq<Voile>, d: nat, m: real)
    requires d < NB_DIMENSIONS
  {
    && |Connaisseurs(p, d)| >= 3
    && exists v :: (forall k :: k in Connaisseurs(p, d) ==> p[k][d] == Some(v)) && Arrondie(v, 1000.0, m)
  }

  lemma {:induction false} Uniforme(t: seq<real>, u: seq<real>, v: real)
    requires multiset(t) == multiset(u) && forall i :: 0 <= i < |t| ==> t[i] == v
    ensures forall i :: 0 <= i < |u| ==> u[i] == v
  {
    forall i | 0 <= i < |u| ensures u[i] == v { assert u[i] in multiset(u) && u[i] in t; }
  }

  /** A sample of one value has that median and no spread. */
  lemma ResumeConstant(s: seq<real>, v: real)
    requires s != [] && forall i :: 0 <= i < |s| ==> s[i] == v
    ensures Resumer(s).mediane == v && Resumer(s).iqr == 0.0 && Resumer(s).mad == 0.0
  {
    var t, d, e := ResumeEcrit(s);
    Uniforme(s, t, v);
    Uniforme(d, e, 0.0);
  }

  lemma ArrondieUnique(x: real, unite: real, r: real, r': real)
    requires unite > 0.0 && Arrondie(x, unite, r) && Arrondie(x, unite, r')
    ensures r == r'
  {
    var k: int :| Proche(x, unite, k, r);
    var k': int :| Proche(x, unite, k', r');
    assert k == k';
    assert (r - r') * unite == 0.0;
  }

  lemma StatistiquesConstantes(p: seq<Voile>, d: nat, m: real)
    requires d < NB_DIMENSIONS && Constante(p, d, m)
    ensures var st := Statistiques(Valeurs(p, d)); st.Stats? && st.mediane == m && st.iqr == 0.0 && st.mad == 0.0
  {
    var lieux := ValeursEcrites(p, d);
    var v :| (forall k :: k in Connaisseurs(p, d) ==> p[k][d] == Some(v)) && Arrondie(v, 1000.0, m);
    var s := Valeurs(p, d);
    forall i | 0 <= i < |s| ensures s[i] == v { assert lieux[i] in lieux; }
    ResumeConstant(s, v);
    StatistiquesEcrites(s);
    ArrondieUnique(v, 1000.0, m, Statistiques(s).mediane);
    ArrondiBornes(1000.0);
  }

  /** At least 10 % of the median away, or 0.1 when the median is 0. */
  ghost predicate Loin(x: real, m: real) { 10.0 * Distance(x, m) >= Reference(m) }

  /** Places of the chosen dimensions among those scored. */
  ghost function Places(champs: seq<nat>, choix: set<nat>): set<nat> { set i | 0 <= i < |champs| && champs[i] in choix }

  lemma DernierePlace(champs: seq<nat>, n: nat, choix: set<nat>)
    requires Croissante(champs) && n + 1 == |champs|
    ensures Places(champs, choix) == Places(champs[..n], choix - {champs[n]}) + if champs[n] in choix then {n} else {}
  {
    forall i ensures i in Places(champs, choix) <==>
                       i in Places(champs[..n], choix - {champs[n]}) || (champs[n] in choix && i == n) {
      assert 0 <= i < n ==> champs[i] < champs[n];
    }
  }

  lemma UnDePlus(s: set<nat>, x: nat)
    requires x !in s
    ensures |s + {x}| == |s| + 1
  {
  }

  ghost predicate Parmi(choix: set<nat>, champs: seq<nat>) { forall d :: d in choix ==> d in champs }

  lemma MoinsLeDernier(champs: seq<nat>, n: nat, choix: set<nat>)
    requires n + 1 == |champs| && Parmi(choix, champs)
    ensures Parmi(choix - {champs[n]}, champs[..n])
  {
    assert champs == champs[..n] + [champs[n]];
  }

  lemma PlacesDePlus(champs: seq<nat>, n: nat, choix: set<nat>)
    requires Croissante(champs) && n + 1 == |champs|
    ensures Croissante(champs[..n])
    ensures |Places(champs, choix)| == |Places(champs[..n], choix - {champs[n]})| + if champs[n] in choix then 1 else 0
  {
    DernierePlace(champs, n, choix);
    var avant := Places(champs[..n], choix - {champs[n]});
    assert n !in avant;
    hide Places;
    UnDePlus(avant, n);
  }

  lemma ChoixVide(choix: set<nat>)
    requires Parmi(choix, [])
    ensures choix == {} && Places([], choix) == {}
  {
  }

  lemma {:induction false} NombreDePlaces(champs: seq<nat>, choix: set<nat>)
    requires Croissante(champs) && Parmi(choix, champs)
    ensures |Places(champs, choix)| == |choix|
  {
    hide *;
    if champs == [] {
      ChoixVide(choix);
    } else {
      var n := |champs| - 1;
      var reste := choix - {champs[n]};
      MoinsLeDernier(champs, n, choix);
      PlacesDePlus(champs, n, choix);
      NombreDePlaces(champs[..n], reste);
      UnDePlus(reste, champs[n]);
      assert choix == if champs[n] in choix then reste + {champs[n]} else reste;
    }
  }

  lemma NoteConstante(e: Expo, c: Voile, p: seq<Voile>, d: nat, m: real, score: real)
    requires d < NB_DIMENSIONS && c[d].Some? && Constante(p, d, m) && NoteEcrite(e, c, p, d, score)
    ensures Loin(c[d].value, m) ==> score == 0.0
    ensures c[d].value == m ==> score == 100.0
  {
    StatistiquesConstantes(p, d, m);
  }

  /** Every chosen dimension is constant, shown with that value. */
  ghost predicate Constantes(p: seq<Voile>, choix: set<nat>, valeurs: map<nat, real>) {
    forall d :: d in choix ==> d < NB_DIMENSIONS && d in valeurs && Constante(p, d, valeurs[d])
  }

  ghost predicate PartoutLoin(c: Voile, choix: set<nat>, valeurs: map<nat, real>) {
    forall d :: d in choix ==> d < NB_DIMENSIONS && d in valeurs && c[d].Some? && Loin(c[d].value, valeurs[d])
  }

  ghost predicate PartoutEgal(c: Voile, choix: set<nat>, valeurs: map<nat, real>) {
    forall d :: d in choix ==> d < NB_DIMENSIONS && d in valeurs && c[d] == Some(valeurs[d])
  }

  ghost predicate Partout(scores: seq<real>, places: set<nat>, x: real) {
    forall i :: i in places ==> i < |scores| && scores[i] == x
  }

  /** When a score is given: a candidate at least 10 % away from more than half of the scored
      dimensions, the population agreeing on each, is to be examined; one that has exactly the
      value shown for more than half of them is compatible. */
  lemma MajoriteConstante(e: Expo, c: Voile, p: seq<Voile>, choix: set<nat>, valeurs: map<nat, real>)
    requires LoiExpo(e) && choix <= Notees(c, p) && 2 * |choix| > |Notees(c, p)| && Constantes(p, choix, valeurs)
    ensures Evaluer(e, c, p).score.Some? && PartoutLoin(c, choix, valeurs) ==> Evaluer(e, c, p).verdict.AExaminer?
    ensures Evaluer(e, c, p).score.Some? && PartoutEgal(c, choix, valeurs) ==> Evaluer(e, c, p).verdict.Compatible?
  {
    var ds := Dimensions(e, c, Profil(p), NB_DIMENSIONS);
    assert Evaluer(e, c, p).dimensions == ds;
    LignesEcrites(e, c, p, NB_DIMENSIONS);
    hide *;
    var champs := ScoresDesDimensions(e, c, p, ds);
    PlacesMajoritaires(e, c, p, champs, Scores(Communes(ds)), choix, valeurs);
    NotesMajoritaires(e, c, p, Places(champs, choix));
  }

  lemma NotesMajoritaires(e: Expo, c: Voile, p: seq<Voile>, places: set<nat>)
    requires LoiExpo(e)
    ensures var r := Evaluer(e, c, p);
            var s := Scores(Communes(r.dimensions));
            r.score.Some? && Majoritaire(places, s) ==>
              && (Partout(s, places, 0.0) ==> r.verdict.AExaminer?)
              && (Partout(s, places, 100.0) ==> r.verdict.Compatible?)
  {
    hide Evaluer, Scores, Communes, LoiExpo;
    MajoriteDecide(e, c, p, places);
  }

  lemma PlacesMajoritaires(e: Expo, c: Voile, p: seq<Voile>, champs: seq<nat>, scores: seq<real>, choix: set<nat>, valeurs: map<nat, real>)
    requires ScoresEcrits(e, c, p, champs, scores) && choix <= Notees(c, p) && 2 * |choix| > |Notees(c, p)| && Constantes(p, choix, valeurs)
    ensures Majoritaire(Places(champs, choix), scores)
    ensures PartoutLoin(c, choix, valeurs) ==> Partout(scores, Places(champs, choix), 0.0)
    ensures PartoutEgal(c, choix, valeurs) ==> Partout(scores, Places(champs, choix), 100.0)
  {
    assert Parmi(choix, champs);
    NombreDePlaces(champs, choix);
    hide NoteEcrite, Constante, Loin, Connaisseurs, Notees;
    forall i | i in Places(champs, choix)
      ensures Loin(c[champs[i]].value, valeurs[champs[i]]) ==> scores[i] == 0.0
      ensures c[champs[i]].value == valeurs[champs[i]] ==> scores[i] == 100.0
    {
      NoteConstante(e, c, p, champs[i], valeurs[champs[i]], scores[i]);
    }
  }
}
