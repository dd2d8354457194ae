/** Duplicate accounting of the archive inventory (scripts/inventaire_archive.py): numbering
    of the groups of probable duplicates, written on the lines in place, and the count of
    redundant bytes. */
module Duplicates {
  import Sorting

  const EMPREINTE_LOURD := "non_calculé_fichier_lourd"

  class LigneFichier {
    const chemin: string
    const taille: nat
    const empreinte: string
    var groupeDoublon: nat

    constructor (chemin: string, taille: nat, empreinte: string)
      ensures this.chemin == chemin && this.taille == taille && this.empreinte == empreinte && groupeDoublon == 0
    {
      this.chemin, this.taille, this.empreinte, groupeDoublon := chemin, taille, empreinte, 0;
    }
  }

  datatype Cle = Cle(taille: nat, empreinte: string)

  /** Files too heavy to be digested take no part. */
  predicate Comparable(l: LigneFichier) { l.empreinte != "" && l.empreinte != EMPREINTE_LOURD }

  function CleDe(l: LigneFichier): Cle { Cle(l.taille, l.empreinte) }

  predicate DeCle(l: LigneFichier, k: Cle) { Comparable(l) && CleDe(l) == k }

  /** The lines of one size and digest, in order. */
  function Groupe(lignes: seq<LigneFichier>, k: Cle): seq<LigneFichier> {
    if lignes == [] then []
    else
      var l := lignes[|lignes| - 1];
      Groupe(lignes[..|lignes| - 1], k) + (if DeCle(l, k) then [l] else [])
  }

  /** The distinct sizes and digests, in order of appearance. */
  function Cles(lignes: seq<LigneFichier>): seq<Cle> {
    if lignes == [] then []
    else
      var l, reste := lignes[|lignes| - 1], Cles(lignes[..|lignes| - 1]);
      if Comparable(l) && CleDe(l) !in reste then reste + [CleDe(l)] else reste
  }

  function Premier(lignes: seq<LigneFichier>, k: Cle): string {
    if Groupe(lignes, k) == [] then "" else Groupe(lignes, k)[0].chemin
  }

  function OrdreCle(lignes: seq<LigneFichier>): (Cle, Cle) -> bool {
    (a, b) => Sorting.StringLe(Premier(lignes, a), Premier(lignes, b))
  }

  /** The groups in the order of their first path. */
  function Ordre(lignes: seq<LigneFichier>): seq<Cle> { Sorting.Sort(OrdreCle(lignes), Cles(lignes)) }

  predicate Double(lignes: seq<LigneFichier>, k: Cle) { |Groupe(lignes, k)| >= 2 }

  function NbDoubles(lignes: seq<LigneFichier>, ks: seq<Cle>): nat {
    if ks == [] then 0
    else NbDoubles(lignes, ks[..|ks| - 1]) + (if Double(lignes, ks[|ks| - 1]) then 1 else 0)
  }

  /** The number given to the group of `k`. */
  function Rang(lignes: seq<LigneFichier>, ks: seq<Cle>, k: Cle): nat {
    if ks == [] then 0
    else if ks[|ks| - 1] == k then NbDoubles(lignes, ks)
    else Rang(lignes, ks[..|ks| - 1], k)
  }

  function SommeTailles(ls: seq<LigneFichier>): nat {
    if ls == [] then 0 else ls[0].taille + SommeTailles(ls[1..])
  }

  function Redondants(lignes: seq<LigneFichier>, ks: seq<Cle>): nat {
    if ks == [] then 0
    else
      Redondants(lignes, ks[..|ks| - 1]) + (if Double(lignes, ks[|ks| - 1]) then |Groupe(lignes, ks[|ks| - 1])| - 1 else 0)
  }

  function OctetsRedondants(lignes: seq<LigneFichier>, ks: seq<Cle>): nat {
    if ks == [] then 0
    else
      OctetsRedondants(lignes, ks[..|ks| - 1])
      + (if Double(lignes, ks[|ks| - 1]) then SommeTailles(Groupe(lignes, ks[|ks| - 1])[1..]) else 0)
  }

  /** The group number of a line once the groups of `ks` are numbered. */
  function Numero(lignes: seq<LigneFichier>, ks: seq<Cle>, l: LigneFichier, initial: nat): nat {
    if Comparable(l) && Double(lignes, CleDe(l)) && CleDe(l) in ks then Rang(lignes, ks, CleDe(l)) else initial
  }

  // ---------------------------------------------------------------------------
  // The procedure
  // ---------------------------------------------------------------------------

  method Recenser(lignes: seq<LigneFichier>) returns (cles: seq<Cle>, groupes: map<Cle, seq<LigneFichier>>)
    ensures cles == Cles(lignes)
    ensures forall k :: k in groupes <==> k in cles
    ensures forall k :: k in groupes ==> groupes[k] == Groupe(lignes, k)
  {
    cles, groupes := [], map[];
    for i := 0 to |lignes|
      invariant cles == Cles(lignes[..i])
      invariant forall k :: k in groupes <==> k in cles
      invariant forall k :: k in groupes ==> groupes[k] == Groupe(lignes[..i], k)
      invariant forall k :: k !in groupes ==> Groupe(lignes[..i], k) == []
    {
      var l := lignes[i];
      assert lignes[..i + 1][..i] == lignes[..i];
      if Comparable(l) {
        var k := CleDe(l);
        if k !in groupes { cles, groupes := cles + [k], groupes[k := []]; }
        groupes := groupes[k := groupes[k] + [l]];
      }
    }
    assert lignes[..|lignes|] == lignes;
  }

  lemma {:induction false} GroupeMembres(lignes: seq<LigneFichier>, k: Cle)
    ensures forall l :: l in Groupe(lignes, k) <==> l in lignes && DeCle(l, k)
    ensures Groupe(lignes, k) != [] ==> Groupe(lignes, k)[0] in lignes && DeCle(Groupe(lignes, k)[0], k)
  {
    if lignes != [] {
      var n := |lignes| - 1;
      GroupeMembres(lignes[..n], k);
      assert lignes == lignes[..n] + [lignes[n]];
      if Groupe(lignes[..n], k) == [] && DeCle(lignes[n], k) { assert Groupe(lignes, k) == [lignes[n]]; }
    }
  }

  method Numeroter(lignes: seq<LigneFichier>, candidats: seq<LigneFichier>, numero: nat)
    requires forall l :: l in candidats ==> l in lignes
    modifies lignes
    ensures forall l :: l in lignes ==> l.groupeDoublon == if l in candidats then numero else old(l.groupeDoublon)
  {
    for i := 0 to |candidats|
      invariant forall l :: l in lignes ==> l.groupeDoublon == if l in candidats[..i] then numero else old(l.groupeDoublon)
    {
      assert candidats[i] in candidats;
      candidats[i].groupeDoublon := numero;
      assert forall l :: l in candidats[..i + 1] <==> l in candidats[..i] || l == candidats[i];
    }
    assert candidats[..|candidats|] == candidats;
  }

  lemma OrdreTotal(lignes: seq<LigneFichier>)
    ensures Sorting.TotalPreorder(OrdreCle(lignes))
  {
    Sorting.StringLeOrder();
    var le := OrdreCle(lignes);
    forall a: Cle, b: Cle ensures le(a, b) || le(b, a) {
      assert Sorting.StringLe(Premier(lignes, a), Premier(lignes, b)) || Sorting.StringLe(Premier(lignes, b), Premier(lignes, a));
    }
  }

  lemma OrdreDistinct(lignes: seq<LigneFichier>)
    ensures Sorting.Distinct(Cles(lignes)) && Sorting.Distinct(Ordre(lignes))
    ensures forall k :: k in Ordre(lignes) <==> k in Cles(lignes)
    ensures multiset(Ordre(lignes)) == multiset(Cles(lignes))
    ensures Sorting.Sorted(OrdreCle(lignes), Ordre(lignes))
  {
    OrdreTotal(lignes);
    var cles, ordre := Cles(lignes), Ordre(lignes);
    Sorting.SortSorts(OrdreCle(lignes), cles);
    ClesDistinctes(lignes);
    Sorting.DistinctPermuted(cles, ordre);
    Sorting.SameElements(cles, ordre);
    assert forall k :: k in ordre <==> k in cles;
  }

  lemma {:induction false} ClesDistinctes(lignes: seq<LigneFichier>)
    ensures Sorting.Distinct(Cles(lignes))
    ensures forall k :: k in Cles(lignes) <==> exists l :: l in lignes && DeCle(l, k)
  {
    if lignes != [] {
      var n := |lignes| - 1;
      ClesDistinctes(lignes[..n]);
      assert lignes == lignes[..n] + [lignes[n]];
      forall k ensures k in Cles(lignes) <==> exists l :: l in lignes && DeCle(l, k) {
        if k in Cles(lignes[..n]) {
          var l :| l in lignes[..n] && DeCle(l, k);
          assert l in lignes;
        } else if DeCle(lignes[n], k) {
          assert lignes[n] in lignes;
        }
      }
    }
  }

  /** One more group numbered: the numbers given so far stand. */
  lemma NumeroSuivant(lignes: seq<LigneFichier>, ks: seq<Cle>, i: nat, l: LigneFichier, initial: nat)
    requires i < |ks| && Sorting.Distinct(ks)
    ensures Numero(lignes, ks[..i + 1], l, initial)
         == if DeCle(l, ks[i]) && Double(lignes, ks[i]) then NbDoubles(lignes, ks[..i + 1]) else Numero(lignes, ks[..i], l, initial)
  {
    assert ks[..i + 1][..i] == ks[..i];
    assert forall k :: k in ks[..i + 1] <==> k in ks[..i] || k == ks[i];
    assert ks[i] !in ks[..i];
  }

  /** The groups of `ks` are numbered, and nothing else has changed since `avant`. */
  ghost predicate Numerotees(lignes: seq<LigneFichier>, ks: seq<Cle>, avant: map<LigneFichier, nat>)
    reads lignes
  {
    forall l :: l in lignes ==> l in avant && l.groupeDoublon == Numero(lignes, ks, l, avant[l])
  }

  method NumeroterGroupe(lignes: seq<LigneFichier>, ordre: seq<Cle>, i: nat, candidats: seq<LigneFichier>, numero: nat,
                         ghost avant: map<LigneFichier, nat>)
    requires i < |ordre| && Sorting.Distinct(ordre)
    requires candidats == Groupe(lignes, ordre[i]) && |candidats| >= 2 && numero == NbDoubles(lignes, ordre[..i + 1])
    requires Numerotees(lignes, ordre[..i], avant)
    modifies lignes
    ensures Numerotees(lignes, ordre[..i + 1], avant)
  {
    GroupeMembres(lignes, ordre[i]);
    Numeroter(lignes, candidats, numero);
    forall l | l in lignes ensures l.groupeDoublon == Numero(lignes, ordre[..i + 1], l, avant[l]) {
      NumeroSuivant(lignes, ordre, i, l, avant[l]);
    }
  }

  lemma NumerosInchanges(lignes: seq<LigneFichier>, ordre: seq<Cle>, i: nat, avant: map<LigneFichier, nat>)
    requires i < |ordre| && Sorting.Distinct(ordre) && !Double(lignes, ordre[i])
    requires forall l :: l in lignes ==> l in avant
    ensures forall l :: l in lignes ==> Numero(lignes, ordre[..i + 1], l, avant[l]) == Numero(lignes, ordre[..i], l, avant[l])
  {
    forall l | l in lignes ensures Numero(lignes, ordre[..i + 1], l, avant[l]) == Numero(lignes, ordre[..i], l, avant[l]) {
      NumeroSuivant(lignes, ordre, i, l, avant[l]);
    }
  }

  /** The numbering loop, over the groups in their order. */
  method NumeroterTout(lignes: seq<LigneFichier>, ordre: seq<Cle>, candidatsParCle: map<Cle, seq<LigneFichier>>)
    returns (groupes: nat, redondants: nat, octetsRedondants: nat)
    requires Sorting.Distinct(ordre)
    requires forall k :: k in ordre ==> k in candidatsParCle && candidatsParCle[k] == Groupe(lignes, k)
    modifies lignes
    ensures groupes == NbDoubles(lignes, ordre)
    ensures redondants == Redondants(lignes, ordre)
    ensures octetsRedondants == OctetsRedondants(lignes, ordre)
    ensures forall l :: l in lignes ==> l.groupeDoublon == Numero(lignes, ordre, l, old(l.groupeDoublon))
  {
    ghost var avant := map l | l in lignes :: l.groupeDoublon;
    groupes, redondants, octetsRedondants := 0, 0, 0;
    for i := 0 to |ordre|
      invariant groupes == NbDoubles(lignes, ordre[..i])
      invariant redondants == Redondants(lignes, ordre[..i])
      invariant octetsRedondants == OctetsRedondants(lignes, ordre[..i])
      invariant Numerotees(lignes, ordre[..i], avant)
    {
      assert ordre[i] in ordre;
      var candidats := candidatsParCle[ordre[i]];
      assert ordre[..i + 1][..i] == ordre[..i];
      if |candidats| >= 2 {
        groupes := groupes + 1;
        redondants := redondants + |candidats| - 1;
        octetsRedondants := octetsRedondants + SommeTailles(candidats[1..]);
        NumeroterGroupe(lignes, ordre, i, candidats, groupes, avant);
      } else {
        NumerosInchanges(lignes, ordre, i, avant);
      }
    }
    assert ordre[..|ordre|] == ordre;
  }

  /** `detecter_doublons`: the lines are numbered in place, in the order of the groups. */
  method DetecterDoublons(lignes: seq<LigneFichier>) returns (groupes: nat, redondants: nat, octetsRedondants: nat)
    modifies lignes
    ensures groupes == NbDoubles(lignes, Ordre(lignes))
    ensures redondants == Redondants(lignes, Ordre(lignes))
    ensures octetsRedondants == OctetsRedondants(lignes, Ordre(lignes))
    ensures forall l :: l in lignes ==> l.groupeDoublon == Numero(lignes, Ordre(lignes), l, old(l.groupeDoublon))
  {
    var cles, candidatsParCle := Recenser(lignes);
    OrdreDistinct(lignes);
    groupes, redondants, octetsRedondants := NumeroterTout(lignes, Ordre(lignes), candidatsParCle);
  }

  // ---------------------------------------------------------------------------
  // What the numbers mean
  // ---------------------------------------------------------------------------

  lemma {:induction false} RangBorne(lignes: seq<LigneFichier>, ks: seq<Cle>, k: Cle)
    requires k in ks && Double(lignes, k)
    ensures 1 <= Rang(lignes, ks, k) <= NbDoubles(lignes, ks)
  {
    var n := |ks| - 1;
    if ks[n] != k { RangBorne(lignes, ks[..n], k); }
  }

  /** Numbers grow strictly along the order. */
  lemma {:induction false} RangCroissant(lignes: seq<LigneFichier>, ks: seq<Cle>, i: nat, j: nat)
    requires Sorting.Distinct(ks) && i < j < |ks| && Double(lignes, ks[i]) && Double(lignes, ks[j])
    ensures Rang(lignes, ks, ks[i]) < Rang(lignes, ks, ks[j])
  {
    var n := |ks| - 1;
    if j == n {
      assert ks[i] in ks[..n];
      RangBorne(lignes, ks[..n], ks[i]);
    } else {
      RangCroissant(lignes, ks[..n], i, j);
    }
  }

  /** Every number from 1 to the number of groups is given. */
  lemma {:induction false} RangAtteint(lignes: seq<LigneFichier>, ks: seq<Cle>, g: nat) returns (k: Cle)
    requires Sorting.Distinct(ks) && 1 <= g <= NbDoubles(lignes, ks)
    ensures k in ks && Double(lignes, k) && Rang(lignes, ks, k) == g
  {
    var n := |ks| - 1;
    if Double(lignes, ks[n]) && g == NbDoubles(lignes, ks) {
      k := ks[n];
    } else {
      k := RangAtteint(lignes, ks[..n], g);
      assert k in ks[..n] && k != ks[n];
    }
  }

  lemma {:induction false} DoubleSsi(lignes: seq<LigneFichier>, i: nat, k: Cle)
    requires i < |lignes| && DeCle(lignes[i], k)
    ensures |Groupe(lignes, k)| >= 1
    ensures Double(lignes, k) <==> exists j :: 0 <= j < |lignes| && j != i && DeCle(lignes[j], k)
  {
    var n := |lignes| - 1;
    if i == n {
      if Groupe(lignes[..n], k) == [] {
        GroupeMembres(lignes[..n], k);
        forall j | 0 <= j < n ensures !DeCle(lignes[j], k) { assert lignes[j] in lignes[..n]; }
      } else {
        GroupeMembres(lignes[..n], k);
        var m := Groupe(lignes[..n], k)[0];
        assert m in lignes[..n];
        var j :| 0 <= j < n && lignes[..n][j] == m;
        assert DeCle(lignes[j], k);
      }
    } else {
      DoubleSsi(lignes[..n], i, k);
      if DeCle(lignes[n], k) { assert Double(lignes, k); }
    }
  }

  /** Starting from unnumbered lines, two lines share a non-zero group exactly when both
      were digested and their sizes and digests are equal. */
  lemma MemeGroupeSsiDoublons(lignes: seq<LigneFichier>, i: nat, j: nat)
    requires i < |lignes| && j < |lignes| && i != j
    ensures var a, b := Numero(lignes, Ordre(lignes), lignes[i], 0), Numero(lignes, Ordre(lignes), lignes[j], 0);
            a == b != 0 <==>
              && lignes[i].taille == lignes[j].taille && lignes[i].empreinte == lignes[j].empreinte
              && lignes[i].empreinte != "" && lignes[i].empreinte != "non_calculé_fichier_lourd"
  {
    var l, m := lignes[i], lignes[j];
    NumeroDe(lignes, i);
    NumeroDe(lignes, j);
    if Comparable(l) && Comparable(m) {
      if CleDe(l) == CleDe(m) { DoubleSsi(lignes, i, CleDe(l)); assert DeCle(lignes[j], CleDe(l)); }
      if Double(lignes, CleDe(l)) && Double(lignes, CleDe(m)) { RangInjectif(lignes, CleDe(l), CleDe(m)); }
    }
  }

  /** Line `p` is the first of the size and digest of line `i`. */
  ghost predicate PremiereDuGroupe(lignes: seq<LigneFichier>, i: nat, p: nat)
    requires i < |lignes|
  {
    && p < |lignes| && lignes[p].taille == lignes[i].taille && lignes[p].empreinte == lignes[i].empreinte
    && forall q :: 0 <= q < p ==> lignes[q].taille != lignes[i].taille || lignes[q].empreinte != lignes[i].empreinte
  }

  lemma {:induction false} GroupeVide(lignes: seq<LigneFichier>, k: Cle)
    ensures (forall q :: 0 <= q < |lignes| ==> !DeCle(lignes[q], k)) ==> Groupe(lignes, k) == []
  {
    if lignes != [] { GroupeVide(lignes[..|lignes| - 1], k); }
  }

  lemma {:induction false} PremierEcrit(lignes: seq<LigneFichier>, k: Cle, p: nat)
    requires p < |lignes| && DeCle(lignes[p], k) && forall q :: 0 <= q < p ==> !DeCle(lignes[q], k)
    ensures Groupe(lignes, k) != [] && Groupe(lignes, k)[0] == lignes[p]
  {
    var n := |lignes| - 1;
    if p == n {
      GroupeVide(lignes[..n], k);
    } else {
      PremierEcrit(lignes[..n], k, p);
    }
  }

  lemma RangsOrdonnes(lignes: seq<LigneFichier>, k: Cle, l: Cle)
    requires k in Ordre(lignes) && l in Ordre(lignes) && Double(lignes, k) && Double(lignes, l)
    requires Rang(lignes, Ordre(lignes), k) < Rang(lignes, Ordre(lignes), l)
    ensures Sorting.StringLe(Premier(lignes, k), Premier(lignes, l))
  {
    hide Rang, Double, Ordre, Premier;
    var ks := Ordre(lignes);
    OrdreDistinct(lignes);
    var u :| 0 <= u < |ks| && ks[u] == k;
    var v :| 0 <= v < |ks| && ks[v] == l;
    if v < u { RangCroissant(lignes, ks, v, u); }
    assert OrdreCle(lignes)(ks[u], ks[v]);
  }

  /** Groups are numbered in the order of the path of their first line. */
  lemma NumerosParPremierChemin(lignes: seq<LigneFichier>, i: nat, j: nat, p: nat, q: nat)
    requires i < |lignes| && j < |lignes| && PremiereDuGroupe(lignes, i, p) && PremiereDuGroupe(lignes, j, q)
    ensures var a, b := Numero(lignes, Ordre(lignes), lignes[i], 0), Numero(lignes, Ordre(lignes), lignes[j], 0);
            0 < a < b ==> Sorting.StringLe(lignes[p].chemin, lignes[q].chemin)
  {
    var k, l := CleDe(lignes[i]), CleDe(lignes[j]);
    NumeroDe(lignes, i);
    NumeroDe(lignes, j);
    hide Numero, Rang, Ordre, Groupe;
    if Numero(lignes, Ordre(lignes), lignes[i], 0) > 0 { PremierEcrit(lignes, k, p); }
    if Numero(lignes, Ordre(lignes), lignes[j], 0) > 0 { PremierEcrit(lignes, l, q); }
    if 0 < Numero(lignes, Ordre(lignes), lignes[i], 0) < Numero(lignes, Ordre(lignes), lignes[j], 0) {
      RangsOrdonnes(lignes, k, l);
    }
  }

  lemma NumeroDe(lignes: seq<LigneFichier>, i: nat)
    requires i < |lignes|
    ensures var l, ks := lignes[i], Ordre(lignes);
            var n := Numero(lignes, ks, l, 0);
            && (n != 0 <==> Comparable(l) && Double(lignes, CleDe(l)))
            && (n != 0 ==> CleDe(l) in ks && n == Rang(lignes, ks, CleDe(l)))
  {
    var l, ks := lignes[i], Ordre(lignes);
    OrdreDistinct(lignes);
    ClesDistinctes(lignes);
    assert l in lignes;
    if Comparable(l) && Double(lignes, CleDe(l)) {
      assert DeCle(l, CleDe(l));
      RangBorne(lignes, ks, CleDe(l));
    }
  }

  lemma OrdreSansRepetition(lignes: seq<LigneFichier>)
    ensures Sorting.Distinct(Ordre(lignes))
  {
    OrdreDistinct(lignes);
  }

  lemma RangInjectif(lignes: seq<LigneFichier>, a: Cle, b: Cle)
    requires a in Ordre(lignes) && b in Ordre(lignes) && Double(lignes, a) && Double(lignes, b)
    ensures Rang(lignes, Ordre(lignes), a) == Rang(lignes, Ordre(lignes), b) <==> a == b
  {
    hide Rang, Double, Ordre;
    var ks := Ordre(lignes);
    OrdreSansRepetition(lignes);
    var p :| 0 <= p < |ks| && ks[p] == a;
    var q :| 0 <= q < |ks| && ks[q] == b;
    if p < q { RangCroissant(lignes, ks, p, q); }
    if q < p { RangCroissant(lignes, ks, q, p); }
  }

  /** The numbers given are exactly 1..k. */
  lemma NumerosSansTrou(lignes: seq<LigneFichier>, g: nat)
    ensures (exists l :: l in lignes && Numero(lignes, Ordre(lignes), l, 0) == g > 0) <==> 1 <= g <= NbDoubles(lignes, Ordre(lignes))
  {
    var ks := Ordre(lignes);
    OrdreDistinct(lignes);
    ClesDistinctes(lignes);
    if 1 <= g <= NbDoubles(lignes, ks) {
      var k := RangAtteint(lignes, ks, g);
      var l :| l in lignes && DeCle(l, k);
      assert Numero(lignes, ks, l, 0) == g;
    }
    if l :| l in lignes && Numero(lignes, ks, l, 0) == g > 0 {
      RangBorne(lignes, ks, CleDe(l));
    }
  }

  // ---------------------------------------------------------------------------
  // Accounting
  // ---------------------------------------------------------------------------

  function TotalOctets(lignes: seq<LigneFichier>): nat {
    if lignes == [] then 0
    else TotalOctets(lignes[..|lignes| - 1]) + (if Comparable(lignes[|lignes| - 1]) then lignes[|lignes| - 1].taille else 0)
  }

  function NbComparables(lignes: seq<LigneFichier>): nat {
    if lignes == [] then 0
    else NbComparables(lignes[..|lignes| - 1]) + (if Comparable(lignes[|lignes| - 1]) then 1 else 0)
  }

  /** One copy of each distinct content. */
  function UnExemplaire(ks: seq<Cle>): nat { if ks == [] then 0 else UnExemplaire(ks[..|ks| - 1]) + ks[|ks| - 1].taille }

  /** Bytes and lines of the groups of `ks`. */
  function OctetsGroupes(lignes: seq<LigneFichier>, ks: seq<Cle>): nat {
    if ks == [] then 0 else OctetsGroupes(lignes, ks[..|ks| - 1]) + SommeTailles(Groupe(lignes, ks[|ks| - 1]))
  }

  function LignesGroupes(lignes: seq<LigneFichier>, ks: seq<Cle>): nat {
    if ks == [] then 0 else LignesGroupes(lignes, ks[..|ks| - 1]) + |Groupe(lignes, ks[|ks| - 1])|
  }

  lemma {:induction false} SommeConcat(a: seq<LigneFichier>, b: seq<LigneFichier>)
    ensures SommeTailles(a + b) == SommeTailles(a) + SommeTailles(b)
  {
    if a == [] {
      assert a + b == b;
    } else {
      assert (a + b)[1..] == a[1..] + b;
      SommeConcat(a[1..], b);
    }
  }

  lemma GroupeSuivant(lignes: seq<LigneFichier>, l: LigneFichier, k: Cle)
    ensures Groupe(lignes + [l], k) == Groupe(lignes, k) + (if DeCle(l, k) then [l] else [])
    ensures SommeTailles(Groupe(lignes + [l], k)) == SommeTailles(Groupe(lignes, k)) + (if DeCle(l, k) then l.taille else 0)
  {
    assert (lignes + [l])[..|lignes|] == lignes;
    SommeConcat(Groupe(lignes, k), [l]);
    assert [l][1..] == [];
    assert Groupe(lignes, k) + [] == Groupe(lignes, k);
  }

  /** A line adds its size to its own group and to no other. */
  lemma {:induction false} GroupesEtendus(lignes: seq<LigneFichier>, l: LigneFichier, ks: seq<Cle>)
    requires Sorting.Distinct(ks)
    ensures var dedans := Comparable(l) && CleDe(l) in ks;
            && OctetsGroupes(lignes + [l], ks) == OctetsGroupes(lignes, ks) + (if dedans then l.taille else 0)
            && LignesGroupes(lignes + [l], ks) == LignesGroupes(lignes, ks) + (if dedans then 1 else 0)
  {
    if ks != [] {
      var n := |ks| - 1;
      GroupesEtendus(lignes, l, ks[..n]);
      GroupeSuivant(lignes, l, ks[n]);
      assert forall k :: k in ks <==> k in ks[..n] || k == ks[n];
    }
  }

  lemma {:induction false} GroupesComplets(lignes: seq<LigneFichier>)
    ensures OctetsGroupes(lignes, Cles(lignes)) == TotalOctets(lignes)
    ensures LignesGroupes(lignes, Cles(lignes)) == NbComparables(lignes)
  {
    if lignes != [] {
      var n := |lignes| - 1;
      var avant, l := lignes[..n], lignes[n];
      assert lignes == avant + [l];
      GroupesComplets(avant);
      ClesDistinctes(lignes);
      GroupesEtendus(avant, l, Cles(lignes));
      CleNouvelle(avant, l);
      assert l in lignes;
      if Comparable(l) { assert DeCle(l, CleDe(l)); }
    }
  }

  /** A key seen for the first time has an empty group so far. */
  lemma CleNouvelle(avant: seq<LigneFichier>, l: LigneFichier)
    ensures OctetsGroupes(avant, Cles(avant + [l])) == OctetsGroupes(avant, Cles(avant))
    ensures LignesGroupes(avant, Cles(avant + [l])) == LignesGroupes(avant, Cles(avant))
  {
    assert (avant + [l])[..|avant|] == avant;
    if Comparable(l) && CleDe(l) !in Cles(avant) {
      GroupeMembres(avant, CleDe(l));
      ClesDistinctes(avant);
      var g, cles := Groupe(avant, CleDe(l)), Cles(avant);
      assert Cles(avant + [l]) == cles + [CleDe(l)];
      assert (cles + [CleDe(l)])[..|cles|] == cles;
    }
  }

  /** Within a group, redundant bytes and one copy are all the bytes. */
  lemma {:induction false} GroupeDecompose(lignes: seq<LigneFichier>, ks: seq<Cle>)
    requires forall k :: k in ks ==> Groupe(lignes, k) != []
    ensures OctetsRedondants(lignes, ks) + UnExemplaire(ks) == OctetsGroupes(lignes, ks)
    ensures Redondants(lignes, ks) + |ks| == LignesGroupes(lignes, ks)
  {
    if ks != [] {
      var n := |ks| - 1;
      assert forall k :: k in ks[..n] ==> k in ks;
      GroupeDecompose(lignes, ks[..n]);
      var g := Groupe(lignes, ks[n]);
      assert ks[n] in ks && g[0] in g;
      GroupeMembres(lignes, ks[n]);
      assert SommeTailles(g) == ks[n].taille + SommeTailles(g[1..]);
      if |g| == 1 { assert g[1..] == []; }
    }
  }

  lemma {:induction false} SommesPermutees(lignes: seq<LigneFichier>, a: seq<Cle>, b: seq<Cle>)
    requires multiset(a) == multiset(b)
    ensures OctetsGroupes(lignes, a) == OctetsGroupes(lignes, b)
    ensures LignesGroupes(lignes, a) == LignesGroupes(lignes, b)
    ensures UnExemplaire(a) == UnExemplaire(b)
  {
    if a == [] {
      Sorting.SameElements(a, b);
    } else {
      var avant, apres := Sorting.SplitAt(a, b);
      SommesPermutees(lignes, a[1..], avant + apres);
      SommesConcat(lignes, [a[0]], a[1..]);
      assert a == [a[0]] + a[1..];
      SommesConcat(lignes, avant + [a[0]], apres);
      SommesConcat(lignes, avant, [a[0]]);
      SommesConcat(lignes, avant, apres);
    }
  }

  lemma {:induction false} SommesConcat(lignes: seq<LigneFichier>, a: seq<Cle>, b: seq<Cle>)
    ensures OctetsGroupes(lignes, a + b) == OctetsGroupes(lignes, a) + OctetsGroupes(lignes, b)
    ensures LignesGroupes(lignes, a + b) == LignesGroupes(lignes, a) + LignesGroupes(lignes, b)
    ensures UnExemplaire(a + b) == UnExemplaire(a) + UnExemplaire(b)
  {
    if b == [] {
      assert a + b == a;
    } else {
      SommesConcat(lignes, a, b[..|b| - 1]);
      assert (a + b)[..|a + b| - 1] == a + b[..|b| - 1];
    }
  }

  /** Redundant bytes and one copy of each distinct content are all the bytes of the digested
      lines; redundant files and distinct contents are all the digested lines. */
  lemma ComptesJustes(lignes: seq<LigneFichier>)
    ensures OctetsRedondants(lignes, Ordre(lignes)) + UnExemplaire(Cles(lignes)) == TotalOctets(lignes)
    ensures Redondants(lignes, Ordre(lignes)) + |Cles(lignes)| == NbComparables(lignes)
  {
    var ks := Ordre(lignes);
    OrdreDistinct(lignes);
    ClesDistinctes(lignes);
    GroupesComplets(lignes);
    SommesPermutees(lignes, Cles(lignes), ks);
    forall k | k in ks ensures Groupe(lignes, k) != [] {
      var l :| l in lignes && DeCle(l, k);
      GroupeMembres(lignes, k);
    }
    GroupeDecompose(lignes, ks);
    Sorting.SameElements(Cles(lignes), ks);
  }
}
