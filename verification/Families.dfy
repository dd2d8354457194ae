/** Grouping of technical sheets into template families (scripts/inventaire_archive.py):
    exact key first, then greedy Jaccard merging.

    A family keeps the sheets themselves, of which the original keeps the paths. */
module Families {
  import opened Options
  import Sorting

  datatype Feuille = Feuille(chemin: string, cle: string, libelles: seq<string>, fine: string)

  datatype Famille = Famille(cle: string, libelles: seq<string>, fichiers: seq<Feuille>, fines: set<string>)

  const SEUIL_JACCARD := 0.85

  function Ensemble(s: seq<string>): set<string> { set x | x in s }

  /** `similarite_jaccard`: symmetric, in 0..1, and 1 exactly for equal non-empty sets. */
  function Similarite(a: set<string>, b: set<string>): (r: real)
    ensures 0.0 <= r <= 1.0
    ensures r == 1.0 <==> a == b != {}
    ensures r > 0.0 <==> a * b != {}
    ensures r * |a + b| as real == |a * b| as real
  {
    if a == {} || b == {} then 0.0
    else
      Cardinaux(a, b);
      Rapport(|a * b|, |a + b|);
      |a * b| as real / |a + b| as real
  }

  lemma Cardinaux(a: set<string>, b: set<string>)
    ensures |a * b| <= |a + b|
    ensures |a * b| == |a + b| <==> a == b
    ensures a != {} ==> |a + b| > 0
    ensures |a * b| > 0 <==> a * b != {}
  {
    Inclusion(a * b, a + b);
    if |a * b| == |a + b| { assert a * b == a + b; assert a <= a * b && b <= a * b; }
    if a != {} { Inclusion({}, a + b); assert a + b != {}; }
  }

  lemma {:induction false} Inclusion(a: set<string>, b: set<string>)
    requires a <= b
    ensures |a| <= |b| && (|a| == |b| <==> a == b)
  {
    assert b == a + (b - a);
    assert |b| == |a| + |b - a|;
    if |b - a| == 0 { assert b - a == {}; }
  }

  lemma Rapport(n: nat, d: nat)
    requires n <= d && d > 0
    ensures n as real / d as real * d as real == n as real
    ensures 0.0 <= n as real / d as real <= 1.0
    ensures n as real / d as real == 1.0 <==> n == d
    ensures n as real / d as real > 0.0 <==> n > 0
  {
    var q := n as real / d as real;
    assert q * d as real == n as real;
    Signes(q, d as real);
  }

  lemma Signes(q: real, d: real)
    requires d > 0.0
    ensures q > 1.0 <==> q * d > d
    ensures q == 1.0 <==> q * d == d
    ensures q > 0.0 <==> q * d > 0.0
    ensures q < 0.0 <==> q * d < 0.0
  {
    assert q * d - d == (q - 1.0) * d;
  }

  // ---------------------------------------------------------------------------
  // The three passes, as functions
  // ---------------------------------------------------------------------------

  predicate CheminLe(a: Feuille, b: Feuille) { Sorting.StringLe(a.chemin, b.chemin) }

  predicate TailleLe(f: Famille, g: Famille) {
    |f.fichiers| > |g.fichiers| || (|f.fichiers| == |g.fichiers| && Sorting.StringLe(f.cle, g.cle))
  }

  /** Where the key already is. */
  function Position(familles: seq<Famille>, cle: string): (i: Option<nat>)
    ensures i.Some? ==> i.value < |familles| && familles[i.value].cle == cle
    ensures i.None? ==> forall j :: 0 <= j < |familles| ==> familles[j].cle != cle
  {
    if familles == [] then None
    else if familles[0].cle == cle then Some(0)
    else
      var i := Position(familles[1..], cle);
      if i.Some? then Some(i.value + 1) else None
  }

  function Ranger(familles: seq<Famille>, f: Feuille): seq<Famille> {
    var i := Position(familles, f.cle);
    if i.Some? then familles[i.value := Accueillir(familles[i.value], f)]
    else familles + [Famille(f.cle, f.libelles, [f], {f.fine})]
  }

  function Accueillir(famille: Famille, f: Feuille): Famille {
    famille.(fichiers := famille.fichiers + [f], fines := famille.fines + {f.fine})
  }

  function ParCle(feuilles: seq<Feuille>): seq<Famille> {
    if feuilles == [] then [] else Ranger(ParCle(feuilles[..|feuilles| - 1]), feuilles[|feuilles| - 1])
  }

  predicate Proches(a: Famille, b: Famille) { Similarite(Ensemble(a.libelles), Ensemble(b.libelles)) >= SEUIL_JACCARD }

  /** The first family, as it stands, that is close enough. */
  function Cible(fusionnees: seq<Famille>, famille: Famille): (i: Option<nat>)
    ensures i.Some? ==> i.value < |fusionnees| && Proches(famille, fusionnees[i.value])
    ensures i.Some? ==> forall j :: 0 <= j < i.value ==> !Proches(famille, fusionnees[j])
    ensures i.None? ==> forall j :: 0 <= j < |fusionnees| ==> !Proches(famille, fusionnees[j])
  {
    if fusionnees == [] then None
    else if Proches(famille, fusionnees[0]) then Some(0)
    else
      var i := Cible(fusionnees[1..], famille);
      if i.Some? then Some(i.value + 1) else None
  }

  /** The labels of `b` that `a` lacks, sorted. */
  function Nouveaux(a: seq<string>, b: seq<string>): seq<string> { Sorting.Sort(Sorting.StringLe, Absents(a, b)) }

  function Absents(a: seq<string>, b: seq<string>): (r: seq<string>)
    ensures forall x :: x in r <==> x in b && x !in a
    ensures Sorting.Distinct(r)
  {
    if b == [] then []
    else
      var reste := Absents(a, b[..|b| - 1]);
      var x := b[|b| - 1];
      if x in a || x in reste then reste else reste + [x]
  }

  function Absorber(cible: Famille, famille: Famille): Famille {
    cible.(fichiers := cible.fichiers + famille.fichiers, fines := cible.fines + famille.fines,
           libelles := cible.libelles + Nouveaux(cible.libelles, famille.libelles))
  }

  function Fusionner(fusionnees: seq<Famille>, famille: Famille): seq<Famille> {
    var i := Cible(fusionnees, famille);
    if i.Some? then fusionnees[i.value := Absorber(fusionnees[i.value], famille)] else fusionnees + [famille]
  }

  function Fusion(familles: seq<Famille>): seq<Famille> {
    if familles == [] then [] else Fusionner(Fusion(familles[..|familles| - 1]), familles[|familles| - 1])
  }

  function Regrouper(empreintes: seq<Feuille>): seq<Famille> {
    Fusion(Sorting.Sort(TailleLe, ParCle(Sorting.Sort(CheminLe, empreintes))))
  }

  /** The new family receives its first sheet like any other. */
  lemma RangerEnDeuxTemps(familles: seq<Famille>, f: Feuille)
    ensures var i := Position(familles, f.cle);
            var avec := if i.None? then familles + [Famille(f.cle, f.libelles, [], {})] else familles;
            var k := i.GetOr(|familles|);
            Ranger(familles, f) == avec[k := Accueillir(avec[k], f)]
  {
    var vide := Famille(f.cle, f.libelles, [], {});
    assert Accueillir(vide, f) == Famille(f.cle, f.libelles, [f], {f.fine}) by {
      assert [] + [f] == [f] && {} + {f.fine} == {f.fine};
    }
  }

  /** First pass: one family per key, in the order the keys appear. */
  method GrouperParCle(triees: seq<Feuille>) returns (parCle: seq<Famille>)
    ensures parCle == ParCle(triees)
  {
    parCle := [];
    for k := 0 to |triees|
      invariant parCle == ParCle(triees[..k])
    {
      assert triees[..k + 1][..k] == triees[..k];
      RangerEnDeuxTemps(parCle, triees[k]);
      var i := Position(parCle, triees[k].cle);
      if i.None? {
        parCle := parCle + [Famille(triees[k].cle, triees[k].libelles, [], {})];
        i := Some(|parCle| - 1);
      }
      var famille := parCle[i.value];
      famille := famille.(fichiers := famille.fichiers + [triees[k]]);
      famille := famille.(fines := famille.fines + {triees[k].fine});
      parCle := parCle[i.value := famille];
    }
    assert triees[..|triees|] == triees;
  }

  method Chercher(fusionnees: seq<Famille>, famille: Famille) returns (cible: Option<nat>)
    ensures cible == Cible(fusionnees, famille)
  {
    cible := None;
    for j := 0 to |fusionnees|
      invariant forall i :: 0 <= i < j ==> !Proches(famille, fusionnees[i])
    {
      if Proches(famille, fusionnees[j]) { return Some(j); }
    }
  }

  /** Second pass: greedy merging into the first family that is close enough. */
  method FusionnerTout(familles: seq<Famille>) returns (fusionnees: seq<Famille>)
    ensures fusionnees == Fusion(familles)
  {
    fusionnees := [];
    for k := 0 to |familles|
      invariant fusionnees == Fusion(familles[..k])
    {
      assert familles[..k + 1][..k] == familles[..k];
      var famille := familles[k];
      var cible := Chercher(fusionnees, famille);
      if cible.None? {
        fusionnees := fusionnees + [famille];
      } else {
        var c := fusionnees[cible.value];
        c := c.(fichiers := c.fichiers + famille.fichiers, fines := c.fines + famille.fines);
        var nouveaux := Nouveaux(c.libelles, famille.libelles);
        if nouveaux != [] { c := c.(libelles := c.libelles + nouveaux); }
        assert c == Absorber(fusionnees[cible.value], famille) by { assert c.libelles + [] == c.libelles; }
        fusionnees := fusionnees[cible.value := c];
      }
    }
    assert familles[..|familles|] == familles;
  }

  /** `regrouper_familles`. */
  method RegrouperFamilles(empreintes: seq<Feuille>) returns (fusionnees: seq<Famille>)
    ensures fusionnees == Regrouper(empreintes)
  {
    var parCle := GrouperParCle(Sorting.Sort(CheminLe, empreintes));
    fusionnees := FusionnerTout(Sorting.Sort(TailleLe, parCle));
  }

  // ---------------------------------------------------------------------------
  // Nothing lost, nothing twice
  // ---------------------------------------------------------------------------

  function Fichiers(familles: seq<Famille>): multiset<Feuille> {
    if familles == [] then multiset{}
    else Fichiers(familles[..|familles| - 1]) + multiset(familles[|familles| - 1].fichiers)
  }

  lemma Echange(a: multiset<Feuille>, x: multiset<Feuille>, b: multiset<Feuille>, y: multiset<Feuille>, z: multiset<Feuille>)
    requires a + x == b + y
    ensures a + z + x == b + z + y
  {
    assert a + z + x == a + x + z && b + z + y == b + y + z;
  }

  lemma Retranche(a: multiset<Feuille>, x: multiset<Feuille>, b: multiset<Feuille>, y: multiset<Feuille>)
    requires a + x == b + (x + y)
    ensures a == b + y
  {
    assert a == a + x - x;
    assert b + (x + y) - x == b + y;
  }

  lemma {:induction false} FichiersModifies(familles: seq<Famille>, i: nat, f: Famille)
    requires i < |familles|
    ensures Fichiers(familles[i := f]) + multiset(familles[i].fichiers) == Fichiers(familles) + multiset(f.fichiers)
  {
    var n := |familles| - 1;
    if i < n {
      FichiersModifies(familles[..n], i, f);
      assert familles[i := f][..n] == familles[..n][i := f];
      Echange(Fichiers(familles[..n][i := f]), multiset(familles[i].fichiers), Fichiers(familles[..n]), multiset(f.fichiers),
              multiset(familles[n].fichiers));
    } else {
      assert familles[i := f][..n] == familles[..n];
    }
  }

  lemma FichiersAjoutes(familles: seq<Famille>, f: Famille)
    ensures Fichiers(familles + [f]) == Fichiers(familles) + multiset(f.fichiers)
  {
    assert (familles + [f])[..|familles|] == familles;
  }

  lemma Associe(a: multiset<Feuille>, b: multiset<Feuille>, c: multiset<Feuille>)
    ensures a + b + c == a + (b + c)
  {
  }

  lemma {:induction false} FichiersConcat(a: seq<Famille>, b: seq<Famille>)
    ensures Fichiers(a + b) == Fichiers(a) + Fichiers(b)
  {
    if b == [] {
      assert a + b == a;
    } else {
      FichiersConcat(a, b[..|b| - 1]);
      assert (a + b)[..|a + b| - 1] == a + b[..|b| - 1];
      Associe(Fichiers(a), Fichiers(b[..|b| - 1]), multiset(b[|b| - 1].fichiers));
    }
  }

  lemma {:induction false} FichiersPermutes(a: seq<Famille>, b: seq<Famille>)
    requires multiset(a) == multiset(b)
    ensures Fichiers(a) == Fichiers(b)
  {
    if a == [] {
      Sorting.SameElements(a, b);
    } else {
      var avant, apres := Sorting.SplitAt(a, b);
      FichiersPermutes(a[1..], avant + apres);
      FichiersConcat([a[0]], a[1..]);
      assert a == [a[0]] + a[1..];
      FichiersConcat(avant + [a[0]], apres);
      FichiersAjoutes(avant, a[0]);
      FichiersAjoutes([], a[0]);
      assert [] + [a[0]] == [a[0]];
      FichiersConcat(avant, apres);
    }
  }

  lemma Dernier(s: seq<Feuille>)
    requires s != []
    ensures multiset(s) == multiset(s[..|s| - 1]) + multiset{s[|s| - 1]}
  {
    assert s == s[..|s| - 1] + [s[|s| - 1]];
  }

  lemma {:induction false} ParCleConserve(s: seq<Feuille>)
    ensures Fichiers(ParCle(s)) == multiset(s)
  {
    if s != [] {
      var n := |s| - 1;
      ParCleConserve(s[..n]);
      RangerConserve(ParCle(s[..n]), s[n]);
      Dernier(s);
    }
  }

  lemma RangerConserve(familles: seq<Famille>, f: Feuille)
    ensures Fichiers(Ranger(familles, f)) == Fichiers(familles) + multiset{f}
  {
    var i := Position(familles, f.cle);
    if i.Some? {
      var g := Accueillir(familles[i.value], f);
      FichiersModifies(familles, i.value, g);
      Retranche(Fichiers(familles[i.value := g]), multiset(familles[i.value].fichiers), Fichiers(familles), multiset{f});
    } else {
      FichiersAjoutes(familles, Famille(f.cle, f.libelles, [f], {f.fine}));
    }
  }

  lemma FusionnerConserve(fusionnees: seq<Famille>, f: Famille)
    ensures Fichiers(Fusionner(fusionnees, f)) == Fichiers(fusionnees) + multiset(f.fichiers)
  {
    var i := Cible(fusionnees, f);
    if i.Some? {
      var g := Absorber(fusionnees[i.value], f);
      FichiersModifies(fusionnees, i.value, g);
      Retranche(Fichiers(fusionnees[i.value := g]), multiset(fusionnees[i.value].fichiers), Fichiers(fusionnees), multiset(f.fichiers));
    } else {
      FichiersAjoutes(fusionnees, f);
    }
  }

  lemma {:induction false} FusionConserve(familles: seq<Famille>)
    ensures Fichiers(Fusion(familles)) == Fichiers(familles)
  {
    if familles != [] {
      var n := |familles| - 1;
      FusionConserve(familles[..n]);
      FusionnerConserve(Fusion(familles[..n]), familles[n]);
    }
  }

  lemma OrdreChemin()
    ensures Sorting.TotalPreorder(CheminLe)
  {
    Sorting.StringLeOrder();
    assert forall x: Feuille, y: Feuille :: Sorting.StringLe(x.chemin, y.chemin) || Sorting.StringLe(y.chemin, x.chemin);
  }

  lemma OrdreTaille()
    ensures Sorting.TotalPreorder(TailleLe)
  {
    Sorting.StringLeOrder();
    assert forall x: Famille, y: Famille :: Sorting.StringLe(x.cle, y.cle) || Sorting.StringLe(y.cle, x.cle);
  }

  /** Every sheet is in exactly one family: none lost, none repeated. */
  lemma ToutesUneFois(empreintes: seq<Feuille>)
    ensures Fichiers(Regrouper(empreintes)) == multiset(empreintes)
  {
    OrdreChemin();
    OrdreTaille();
    var triees := Sorting.Sort(CheminLe, empreintes);
    Sorting.SortSorts(CheminLe, empreintes);
    ParCleConserve(triees);
    Sorting.SortSorts(TailleLe, ParCle(triees));
    FichiersPermutes(ParCle(triees), Sorting.Sort(TailleLe, ParCle(triees)));
    FusionConserve(Sorting.Sort(TailleLe, ParCle(triees)));
  }

  /** The families do not depend on the order in which the archive was read, as soon as one
      path never carries two different sheets. */
  lemma OrdreIndifferent(p: seq<Feuille>, q: seq<Feuille>)
    requires multiset(p) == multiset(q)
    requires forall a, b :: a in p && b in p && a.chemin == b.chemin ==> a == b
    ensures Regrouper(p) == Regrouper(q)
  {
    OrdreChemin();
    Sorting.StringLeOrder();
    Sorting.SortIgnoresOrder(CheminLe, p, q);
  }

  // ---------------------------------------------------------------------------
  // Keys are never split
  // ---------------------------------------------------------------------------

  ghost predicate ClesDistinctes(familles: seq<Famille>) {
    forall i, j :: 0 <= i < j < |familles| ==> familles[i].cle != familles[j].cle
  }

  /** A first-pass family holds sheets of its own key only, and at least one. */
  ghost predicate Homogene(f: Famille) {
    f.fichiers != [] && forall s :: s in f.fichiers ==> s.cle == f.cle
  }

  lemma {:induction false} ParCleHomogene(s: seq<Feuille>)
    ensures ClesDistinctes(ParCle(s))
    ensures forall f :: f in ParCle(s) ==> Homogene(f)
  {
    if s != [] {
      var n := |s| - 1;
      ParCleHomogene(s[..n]);
      RangerHomogene(ParCle(s[..n]), s[n]);
    }
  }

  lemma RangerHomogene(familles: seq<Famille>, f: Feuille)
    requires ClesDistinctes(familles) && forall g :: g in familles ==> Homogene(g)
    ensures ClesDistinctes(Ranger(familles, f))
    ensures forall g :: g in Ranger(familles, f) ==> Homogene(g)
  {
    var i := Position(familles, f.cle);
    if i.Some? { assert familles[i.value] in familles; }
  }

  lemma ClesDistinctesPermutees(a: seq<Famille>, b: seq<Famille>)
    requires multiset(a) == multiset(b) && ClesDistinctes(a)
    ensures ClesDistinctes(b)
  {
    Sorting.DistinctPermuted(a, b);
    Sorting.SameElements(a, b);
    forall i, j | 0 <= i < j < |b| ensures b[i].cle != b[j].cle {
      assert b[i] in a && b[j] in a;
    }
  }

  /** Two families never hold sheets of one key. */
  ghost predicate Separees(familles: seq<Famille>) {
    forall i, j, s, t :: 0 <= i < j < |familles| && s in familles[i].fichiers && t in familles[j].fichiers ==> s.cle != t.cle
  }

  /** Every sheet of `familles` has the key of one of `sources`. */
  ghost predicate ClesParmi(familles: seq<Famille>, sources: seq<Famille>) {
    forall i, s :: 0 <= i < |familles| && s in familles[i].fichiers ==> exists g :: g in sources && g.cle == s.cle
  }

  lemma FusionnerSepare(fusionnees: seq<Famille>, f: Famille)
    requires Separees(fusionnees) && Homogene(f)
    requires forall i, s :: 0 <= i < |fusionnees| && s in fusionnees[i].fichiers ==> s.cle != f.cle
    ensures Separees(Fusionner(fusionnees, f))
  {
  }

  lemma {:induction false} FusionSepare(familles: seq<Famille>)
    requires ClesDistinctes(familles) && forall f :: f in familles ==> Homogene(f)
    ensures Separees(Fusion(familles)) && ClesParmi(Fusion(familles), familles)
  {
    if familles != [] {
      var n := |familles| - 1;
      var avant, f := Fusion(familles[..n]), familles[n];
      FusionSepare(familles[..n]);
      FusionnerSepare(avant, f);
      ClesSuivantes(avant, familles[..n], f);
      assert familles == familles[..n] + [f];
    }
  }

  lemma CleConnue(familles: seq<Famille>, sources: seq<Famille>, f: Famille, i: nat, s: Feuille)
    requires ClesParmi(familles, sources) && i < |familles| && s in familles[i].fichiers
    ensures exists g :: g in sources + [f] && g.cle == s.cle
  {
    var g :| g in sources && g.cle == s.cle;
    assert g in sources + [f];
  }

  lemma ClesSuivantes(fusionnees: seq<Famille>, sources: seq<Famille>, f: Famille)
    requires ClesParmi(fusionnees, sources) && Homogene(f)
    ensures ClesParmi(Fusionner(fusionnees, f), sources + [f])
  {
    var apres := Fusionner(fusionnees, f);
    forall i, s | 0 <= i < |apres| && s in apres[i].fichiers ensures exists g :: g in sources + [f] && g.cle == s.cle {
      if s in f.fichiers {
        assert f in sources + [f];
      } else {
        CleConnue(fusionnees, sources, f, i, s);
      }
    }
  }

  /** Sheets of equal key end in the same family. */
  lemma MemeCleMemeFamille(empreintes: seq<Feuille>)
    ensures Separees(Regrouper(empreintes))
  {
    OrdreTaille();
    var parCle := ParCle(Sorting.Sort(CheminLe, empreintes));
    var familles := Sorting.Sort(TailleLe, parCle);
    ParCleHomogene(Sorting.Sort(CheminLe, empreintes));
    Sorting.SortSorts(TailleLe, parCle);
    ClesDistinctesPermutees(parCle, familles);
    Sorting.SameElements(parCle, familles);
    FusionSepare(familles);
  }

  // ---------------------------------------------------------------------------
  // Labels and fine digests say what the family holds
  // ---------------------------------------------------------------------------

  /** The labels, without repetition, are those of the sheets; so are the fine digests. */
  ghost predicate Exacte(f: Famille) {
    && Sorting.Distinct(f.libelles)
    && (forall x :: x in f.libelles <==> exists s :: s in f.fichiers && x in s.libelles)
    && (forall x :: x in f.fines <==> exists s :: s in f.fichiers && s.fine == x)
  }

  /** As `empreinte_gabarit` builds them: the key stands for the labels, listed once each. */
  ghost predicate CleDesigneLibelles(empreintes: seq<Feuille>) {
    && (forall a, b :: a in empreintes && b in empreintes && a.cle == b.cle ==> a.libelles == b.libelles)
    && (forall a :: a in empreintes ==> Sorting.Distinct(a.libelles))
  }

  ghost predicate Uniforme(f: Famille) {
    && Homogene(f)
    && Sorting.Distinct(f.libelles)
    && (forall s :: s in f.fichiers ==> s.libelles == f.libelles)
    && (forall x :: x in f.fines <==> exists s :: s in f.fichiers && s.fine == x)
  }

  lemma UniformeExacte(f: Famille)
    requires Uniforme(f)
    ensures Exacte(f)
  {
    assert f.fichiers[0] in f.fichiers;
  }

  lemma AccueillirUniforme(g: Famille, f: Feuille)
    requires Uniforme(g) && f.cle == g.cle && f.libelles == g.libelles
    ensures Uniforme(Accueillir(g, f))
  {
    var r := Accueillir(g, f);
    forall x ensures x in r.fines <==> exists s :: s in r.fichiers && s.fine == x {
      if x in g.fines {
        var s :| s in g.fichiers && s.fine == x;
        assert s in r.fichiers;
      }
      if x == f.fine { assert f in r.fichiers; }
    }
  }

  lemma RangerUniforme(familles: seq<Famille>, f: Feuille, s: seq<Feuille>)
    requires CleDesigneLibelles(s) && f in s
    requires forall g :: g in familles ==> Uniforme(g) && g.fichiers[0] in s
    ensures forall g :: g in Ranger(familles, f) ==> Uniforme(g) && g.fichiers[0] in s
  {
    var i := Position(familles, f.cle);
    if i.Some? {
      var g := familles[i.value];
      assert g in familles && g.fichiers[0] in g.fichiers;
      AccueillirUniforme(g, f);
    } else {
      var neuve := Famille(f.cle, f.libelles, [f], {f.fine});
      assert neuve.fichiers[0] == f;
      assert Uniforme(neuve);
    }
  }

  lemma {:induction false} ParCleUniforme(s: seq<Feuille>)
    requires CleDesigneLibelles(s)
    ensures forall f :: f in ParCle(s) ==> Uniforme(f) && f.fichiers[0] in s
  {
    if s != [] {
      var n := |s| - 1;
      ParCleUniforme(s[..n]);
      assert s[n] in s && forall x :: x in s[..n] ==> x in s;
      RangerUniforme(ParCle(s[..n]), s[n], s);
    }
  }

  lemma NouveauxExacts(a: seq<string>, b: seq<string>)
    ensures Sorting.Distinct(Nouveaux(a, b))
    ensures forall x :: x in Nouveaux(a, b) <==> x in b && x !in a
  {
    Sorting.StringLeOrder();
    Sorting.SortSorts(Sorting.StringLe, Absents(a, b));
    Sorting.DistinctPermuted(Absents(a, b), Nouveaux(a, b));
    Sorting.SameElements(Absents(a, b), Nouveaux(a, b));
  }

  lemma AbsorberExacte(c: Famille, f: Famille)
    requires Exacte(c) && Exacte(f)
    ensures Exacte(Absorber(c, f))
  {
    var r := Absorber(c, f);
    NouveauxExacts(c.libelles, f.libelles);
    var a, b := c.libelles, Nouveaux(c.libelles, f.libelles);
    forall i, j | 0 <= i < j < |a + b| ensures (a + b)[i] != (a + b)[j] {
      if i < |a| <= j { assert b[j - |a|] in b; }
    }
    assert forall s :: s in r.fichiers <==> s in c.fichiers || s in f.fichiers;
    assert forall x :: x in r.libelles <==> x in c.libelles || x in f.libelles;
    assert forall x :: x in r.fines <==> x in c.fines || x in f.fines;
  }

  lemma {:induction false} FusionExacte(familles: seq<Famille>)
    requires forall f :: f in familles ==> Exacte(f)
    ensures forall f :: f in Fusion(familles) ==> Exacte(f)
  {
    if familles != [] {
      var n := |familles| - 1;
      FusionExacte(familles[..n]);
      var avant, f := Fusion(familles[..n]), familles[n];
      assert f in familles;
      var i := Cible(avant, f);
      if i.Some? {
        assert avant[i.value] in avant;
        AbsorberExacte(avant[i.value], f);
      }
    }
  }

  /** Label lists stay free of repeats and equal to the union of what was merged. */
  lemma LibellesExacts(empreintes: seq<Feuille>)
    requires CleDesigneLibelles(empreintes)
    ensures forall f :: f in Regrouper(empreintes) ==> Exacte(f)
  {
    OrdreChemin();
    OrdreTaille();
    var triees := Sorting.Sort(CheminLe, empreintes);
    Sorting.SortSorts(CheminLe, empreintes);
    Sorting.SameElements(empreintes, triees);
    var parCle := ParCle(triees);
    ParCleUniforme(triees);
    forall f | f in parCle ensures Exacte(f) { UniformeExacte(f); }
    Sorting.SortSorts(TailleLe, parCle);
    Sorting.SameElements(parCle, Sorting.Sort(TailleLe, parCle));
    FusionExacte(Sorting.Sort(TailleLe, parCle));
  }

  // ---------------------------------------------------------------------------
  // The two passes, written out
  // ---------------------------------------------------------------------------

  /** At least 85 % of the labels of both are common. */
  ghost predicate Voisines(a: Famille, b: Famille) {
    var x, y := set l | l in a.libelles, set l | l in b.libelles;
    x != {} && y != {} && 100 * |x * y| >= 85 * |x + y|
  }

  lemma ProchesEcrit(a: Famille, b: Famille)
    ensures Proches(a, b) <==> Voisines(a, b)
  {
    var x, y := Ensemble(a.libelles), Ensemble(b.libelles);
    var r, n, d := Similarite(x, y), |x * y|, |x + y|;
    if x != {} && y != {} {
      Cardinaux(x, y);
      Seuil(r, n, d);
    }
  }

  lemma Seuil(r: real, n: nat, d: nat)
    requires d > 0 && r * d as real == n as real
    ensures r >= SEUIL_JACCARD <==> 100 * n >= 85 * d
  {
    var q := r - SEUIL_JACCARD;
    Signes(q, d as real);
    assert 100.0 * (q * d as real) == 100.0 * n as real - 85.0 * d as real == (100 * n - 85 * d) as real;
  }

  /** The labels `f` adds to `a`: those it lacks, each once, in alphabetical order. */
  ghost predicate Ajout(a: seq<string>, b: seq<string>, ajout: seq<string>) {
    && (forall x :: x in ajout <==> x in b && x !in a)
    && (forall i, j :: 0 <= i < j < |ajout| ==> ajout[i] != ajout[j] && Sorting.StringLe(ajout[i], ajout[j]))
  }

  lemma AjoutEcrit(a: seq<string>, b: seq<string>)
    ensures Ajout(a, b, Nouveaux(a, b))
  {
    NouveauxExacts(a, b);
    Sorting.StringLeOrder();
    Sorting.SortSorts(Sorting.StringLe, Absents(a, b));
  }

  /** One family of the second pass: into the first family close to it, which keeps its key and
      takes its sheets after its own, its digests and its new labels; or at the end of the list. */
  ghost predicate EtapeFusion(avant: seq<Famille>, f: Famille, apres: seq<Famille>) {
    if forall j :: 0 <= j < |avant| ==> !Voisines(f, avant[j]) then apres == avant + [f]
    else
      && |apres| == |avant|
      && exists i :: 0 <= i < |avant| && PremiereVoisine(avant, f, i) && Absorbee(avant[i], f, apres[i])
                     && forall j :: 0 <= j < |avant| && j != i ==> apres[j] == avant[j]
  }

  ghost predicate PremiereVoisine(avant: seq<Famille>, f: Famille, i: nat)
    requires i < |avant|
  {
    Voisines(f, avant[i]) && forall j :: 0 <= j < i ==> !Voisines(f, avant[j])
  }

  ghost predicate Absorbee(avant: Famille, f: Famille, apres: Famille) {
    && apres.cle == avant.cle && apres.fichiers == avant.fichiers + f.fichiers && apres.fines == avant.fines + f.fines
    && avant.libelles <= apres.libelles && Ajout(avant.libelles, f.libelles, apres.libelles[|avant.libelles|..])
  }

  lemma AbsorbeeEcrite(c: Famille, f: Famille)
    ensures Absorbee(c, f, Absorber(c, f))
  {
    hide Nouveaux, Ajout;
    AjoutEcrit(c.libelles, f.libelles);
    assert (c.libelles + Nouveaux(c.libelles, f.libelles))[|c.libelles|..] == Nouveaux(c.libelles, f.libelles);
  }

  lemma CibleEcrite(avant: seq<Famille>, f: Famille)
    ensures var i := Cible(avant, f);
            && (i.Some? ==> PremiereVoisine(avant, f, i.value))
            && (i.None? ==> forall j :: 0 <= j < |avant| ==> !Voisines(f, avant[j]))
  {
    forall j | 0 <= j < |avant| ensures Proches(f, avant[j]) <==> Voisines(f, avant[j]) { ProchesEcrit(f, avant[j]); }
    hide Proches, Voisines;
  }

  lemma EtapeFusionEcrite(avant: seq<Famille>, f: Famille)
    ensures EtapeFusion(avant, f, Fusionner(avant, f))
  {
    CibleEcrite(avant, f);
    var i := Cible(avant, f);
    if i.Some? {
      AbsorbeeEcrite(avant[i.value], f);
      assert Voisines(f, avant[i.value]) && Fusionner(avant, f) == avant[i.value := Absorber(avant[i.value], f)];
      hide Cible, Fusionner, Voisines, PremiereVoisine, Absorber, Absorbee;
    }
  }

  /** A family of the first pass: one key, all the sheets of that key in the order of their paths,
      the labels of the first, and the fine digests of all. */
  ghost predicate FamilleDeCle(empreintes: seq<Feuille>, f: Famille) {
    && f.fichiers != [] && f.libelles == f.fichiers[0].libelles
    && (forall i, j :: 0 <= i < j < |f.fichiers| ==> Sorting.StringLe(f.fichiers[i].chemin, f.fichiers[j].chemin))
    && (forall s :: multiset(f.fichiers)[s] == if s.cle == f.cle then multiset(empreintes)[s] else 0)
    && f.fines == set s | s in f.fichiers :: s.fine
  }

  /** The families the second pass considers: one for each key, the largest first, keys in order
      among equals. */
  ghost predicate PremierePasse(empreintes: seq<Feuille>, familles: seq<Famille>) {
    && (forall i :: 0 <= i < |familles| ==> FamilleDeCle(empreintes, familles[i]))
    && (forall i, j :: 0 <= i < j < |familles| ==>
          && familles[i].cle != familles[j].cle
          && (|familles[i].fichiers| > |familles[j].fichiers|
              || (|familles[i].fichiers| == |familles[j].fichiers| && Sorting.StringLe(familles[i].cle, familles[j].cle))))
    && (forall s :: s in empreintes ==> exists f :: f in familles && f.cle == s.cle)
  }

  ghost predicate Etapes(familles: seq<Famille>, etats: seq<seq<Famille>>) {
    && |etats| == |familles| + 1 && etats[0] == []
    && forall k :: 0 <= k < |familles| ==> EtapeFusion(etats[k], familles[k], etats[k + 1])
  }

  lemma EtapesSuivantes(familles: seq<Famille>, f: Famille, etats: seq<seq<Famille>>, etat: seq<Famille>)
    requires Etapes(familles, etats) && EtapeFusion(etats[|familles|], f, etat)
    ensures Etapes(familles + [f], etats + [etat])
  {
    hide EtapeFusion;
    var fs, es := familles + [f], etats + [etat];
    forall k | 0 <= k < |fs| ensures EtapeFusion(es[k], fs[k], es[k + 1]) {
      assert k < |familles| ==> fs[k] == familles[k] && es[k] == etats[k] && es[k + 1] == etats[k + 1];
    }
  }

  lemma {:induction false} FusionEcrite(familles: seq<Famille>) returns (etats: seq<seq<Famille>>)
    ensures Etapes(familles, etats) && etats[|familles|] == Fusion(familles)
  {
    assert Etapes([], [[]]) && Fusion([]) == [];
    if familles == [] {
      etats := [[]];
    } else {
      var n := |familles| - 1;
      var avant, f := familles[..n], familles[n];
      assert familles == avant + [f] && Fusion(familles) == Fusionner(Fusion(avant), f);
      hide *;
      etats := FusionEcrite(avant);
      EtapeFusionEcrite(etats[n], f);
      EtapesSuivantes(avant, f, etats, Fusion(familles));
      etats := etats + [Fusion(familles)];
    }
  }

  ghost function DeCle(s: seq<Feuille>, cle: string): seq<Feuille> {
    if s == [] then [] else DeCle(s[..|s| - 1], cle) + if s[|s| - 1].cle == cle then [s[|s| - 1]] else []
  }

  lemma DeCleSuivant(s: seq<Feuille>, f: Feuille, cle: string)
    ensures DeCle(s + [f], cle) == if f.cle == cle then DeCle(s, cle) + [f] else DeCle(s, cle)
  {
    assert (s + [f])[..|s|] == s;
    assert DeCle(s, cle) + [] == DeCle(s, cle);
  }

  lemma {:induction false} DeCleVide(s: seq<Feuille>, cle: string)
    requires forall f :: f in s ==> f.cle != cle
    ensures DeCle(s, cle) == []
  {
    if s != [] {
      assert s[|s| - 1] in s;
      DeCleVide(s[..|s| - 1], cle);
    }
  }

  lemma {:induction false} DeCleEcrit(s: seq<Feuille>, cle: string)
    ensures forall x :: multiset(DeCle(s, cle))[x] == if x.cle == cle then multiset(s)[x] else 0
    ensures Sorting.Sorted(CheminLe, s) ==> Sorting.Sorted(CheminLe, DeCle(s, cle))
    ensures forall x :: x in DeCle(s, cle) ==> x in s
  {
    if s != [] {
      var n := |s| - 1;
      var avant, f := s[..n], s[n];
      assert s == avant + [f];
      DeCleEcrit(avant, cle);
      DeCleSuivant(avant, f, cle);
      assert multiset(s) == multiset(avant) + multiset{f};
      if Sorting.Sorted(CheminLe, s) { Prolonge(DeCle(avant, cle), s, f); }
    }
  }

  lemma Prolonge(t: seq<Feuille>, s: seq<Feuille>, f: Feuille)
    requires s != [] && s[|s| - 1] == f && Sorting.Sorted(CheminLe, s) && Sorting.Sorted(CheminLe, t)
    requires forall x :: x in t ==> x in s[..|s| - 1]
    ensures Sorting.Sorted(CheminLe, t + [f])
  {
    forall i | 0 <= i < |t| ensures CheminLe(t[i], f) {
      assert t[i] in t;
      var j :| 0 <= j < |s| - 1 && s[j] == t[i];
    }
  }

  /** A family while the sorted sheets are read: the sheets of its key so far. */
  ghost predicate EnCours(s: seq<Feuille>, f: Famille) {
    && f.fichiers == DeCle(s, f.cle) && f.fichiers != [] && f.libelles == f.fichiers[0].libelles
    && f.fines == set x | x in f.fichiers :: x.fine
  }

  ghost predicate Representee(familles: seq<Famille>, cle: string) { exists i :: 0 <= i < |familles| && familles[i].cle == cle }

  ghost predicate EnCoursToutes(s: seq<Feuille>, familles: seq<Famille>) {
    && (forall i :: 0 <= i < |familles| ==> EnCours(s, familles[i]))
    && (forall g :: g in s ==> Representee(familles, g.cle))
  }

  lemma AccueillirEnCours(s: seq<Feuille>, g: Famille, f: Feuille)
    requires EnCours(s, g)
    ensures f.cle == g.cle ==> EnCours(s + [f], Accueillir(g, f))
    ensures f.cle != g.cle ==> EnCours(s + [f], g)
  {
    DeCleSuivant(s, f, g.cle);
    assert (set x | x in g.fichiers + [f] :: x.fine) == (set x | x in g.fichiers :: x.fine) + {f.fine};
  }

  lemma NouvelleEnCours(s: seq<Feuille>, f: Feuille)
    requires forall g :: g in s ==> g.cle != f.cle
    ensures EnCours(s + [f], Famille(f.cle, f.libelles, [f], {f.fine}))
  {
    DeCleSuivant(s, f, f.cle);
    DeCleVide(s, f.cle);
  }

  lemma RangerEcrit(s: seq<Feuille>, familles: seq<Famille>, f: Feuille)
    requires ClesDistinctes(familles) && EnCoursToutes(s, familles)
    ensures EnCoursToutes(s + [f], Ranger(familles, f))
  {
    hide EnCours;
    var r, p := Ranger(familles, f), Position(familles, f.cle);
    forall i | 0 <= i < |familles| ensures f.cle == familles[i].cle ==> EnCours(s + [f], Accueillir(familles[i], f))
                                   ensures f.cle != familles[i].cle ==> EnCours(s + [f], familles[i])
    {
      AccueillirEnCours(s, familles[i], f);
    }
    if p.None? {
      forall g | g in s ensures g.cle != f.cle { assert Representee(familles, g.cle); }
      NouvelleEnCours(s, f);
    }
    forall g | g in s + [f] ensures Representee(r, g.cle) {
      if g in s {
        var i :| 0 <= i < |familles| && familles[i].cle == g.cle;
        assert r[i].cle == g.cle;
      } else {
        assert r[if p.Some? then p.value else |familles|].cle == g.cle;
      }
    }
  }

  lemma {:induction false} ParCleEcrit(s: seq<Feuille>)
    ensures EnCoursToutes(s, ParCle(s))
  {
    if s != [] {
      var n := |s| - 1;
      ParCleEcrit(s[..n]);
      ParCleHomogene(s[..n]);
      assert s == s[..n] + [s[n]] && ParCle(s) == Ranger(ParCle(s[..n]), s[n]);
      hide *;
      RangerEcrit(s[..n], ParCle(s[..n]), s[n]);
    }
  }

  lemma FamilleFinie(empreintes: seq<Feuille>, triees: seq<Feuille>, f: Famille)
    requires multiset(triees) == multiset(empreintes) && Sorting.Sorted(CheminLe, triees) && EnCours(triees, f)
    ensures FamilleDeCle(empreintes, f)
  {
    DeCleEcrit(triees, f.cle);
    forall i, j | 0 <= i < j < |f.fichiers| ensures Sorting.StringLe(f.fichiers[i].chemin, f.fichiers[j].chemin) {
      assert CheminLe(f.fichiers[i], f.fichiers[j]);
    }
  }

  /** The whole grouping: the families of the keys, largest first, merged one after another. */
  lemma RegroupementEcrit(empreintes: seq<Feuille>) returns (familles: seq<Famille>, etats: seq<seq<Famille>>)
    ensures PremierePasse(empreintes, familles) && Etapes(familles, etats) && etats[|familles|] == Regrouper(empreintes)
  {
    OrdreChemin();
    OrdreTaille();
    var triees := Sorting.Sort(CheminLe, empreintes);
    var parCle := ParCle(triees);
    familles := Sorting.Sort(TailleLe, parCle);
    Sorting.SortSorts(CheminLe, empreintes);
    Sorting.SameElements(empreintes, triees);
    Sorting.SortSorts(TailleLe, parCle);
    Sorting.SameElements(parCle, familles);
    ParCleHomogene(triees);
    ClesDistinctesPermutees(parCle, familles);
    ParCleEcrit(triees);
    etats := FusionEcrite(familles);
    PasseFinie(empreintes, triees, parCle, familles);
  }

  lemma PasseFinie(empreintes: seq<Feuille>, triees: seq<Feuille>, parCle: seq<Famille>, familles: seq<Famille>)
    requires multiset(triees) == multiset(empreintes) && Sorting.Sorted(CheminLe, triees) && EnCoursToutes(triees, parCle)
    requires Sorting.Sorted(TailleLe, familles) && ClesDistinctes(familles)
    requires (forall f :: f in parCle <==> f in familles) && forall s :: s in empreintes ==> s in triees
    ensures PremierePasse(empreintes, familles)
  {
    hide EnCours, FamilleDeCle;
    forall i | 0 <= i < |familles| ensures FamilleDeCle(empreintes, familles[i]) {
      assert familles[i] in parCle;
      FamilleFinie(empreintes, triees, familles[i]);
    }
    forall i, j | 0 <= i < j < |familles|
      ensures || |familles[i].fichiers| > |familles[j].fichiers|
              || (|familles[i].fichiers| == |familles[j].fichiers| && Sorting.StringLe(familles[i].cle, familles[j].cle))
    {
      assert TailleLe(familles[i], familles[j]);
    }
    forall s | s in empreintes ensures exists f :: f in familles && f.cle == s.cle {
      assert Representee(parCle, s.cle);
      var i :| 0 <= i < |parCle| && parCle[i].cle == s.cle;
      assert parCle[i] in parCle;
    }
  }
}
