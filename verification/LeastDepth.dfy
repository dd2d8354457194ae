/** `_dossier_avec_pdf` (scripts/recette_verif.py): queue search for the highest directory that
    directly holds a PDF. Subdirectories are given in sorted order. */
module LeastDepth {
  import opened Options

  datatype Dossier = Dossier(pdf: bool, enfants: seq<Dossier>)

  /** A place in the tree: which child at each level. */
  type Lieu = seq<nat>

  function A(racine: Dossier, l: Lieu): Option<Dossier> {
    if l == [] then Some(racine)
    else if l[0] < |racine.enfants| then A(racine.enfants[l[0]], l[1..])
    else None
  }

  function Taille(d: Dossier): nat { 1 + Total(d, |d.enfants|) }

  function Total(d: Dossier, k: nat): nat
    requires k <= |d.enfants|
    decreases d, k
  {
    if k == 0 then 0 else Total(d, k - 1) + Taille(d.enfants[k - 1])
  }

  function Tailles(ds: seq<Dossier>): nat { if ds == [] then 0 else Taille(ds[0]) + Tailles(ds[1..]) }

  lemma {:induction false} TaillesConcat(a: seq<Dossier>, b: seq<Dossier>)
    ensures Tailles(a + b) == Tailles(a) + Tailles(b)
  {
    if a == [] {
      assert a + b == b;
    } else {
      assert (a + b)[1..] == a[1..] + b;
      TaillesConcat(a[1..], b);
    }
  }

  lemma {:induction false} TotalEnfants(d: Dossier, k: nat)
    requires k <= |d.enfants|
    ensures Total(d, k) == Tailles(d.enfants[..k])
  {
    if k > 0 {
      TotalEnfants(d, k - 1);
      assert d.enfants[..k] == d.enfants[..k - 1] + [d.enfants[k - 1]];
      TaillesConcat(d.enfants[..k - 1], [d.enfants[k - 1]]);
      assert [d.enfants[k - 1]][1..] == [];
    }
  }

  function Enfants(ds: seq<Dossier>): seq<Dossier> {
    if ds == [] then [] else Enfants(ds[..|ds| - 1]) + ds[|ds| - 1].enfants
  }

  /** The directories of one depth, in order. */
  function Niveau(racine: Dossier, profondeur: nat): seq<Dossier> {
    if profondeur == 0 then [racine] else Enfants(Niveau(racine, profondeur - 1))
  }

  ghost predicate SansPdf(ds: seq<Dossier>) { forall d :: d in ds ==> !d.pdf }

  lemma {:induction false} EnfantDans(ds: seq<Dossier>, d: Dossier, i: nat)
    requires d in ds && i < |d.enfants|
    ensures d.enfants[i] in Enfants(ds)
  {
    var n := |ds| - 1;
    if d != ds[n] {
      assert ds == ds[..n] + [ds[n]];
      EnfantDans(ds[..n], d, i);
    }
  }

  /** Every place is on the level of its depth. */
  lemma {:induction false} LieuAuNiveau(racine: Dossier, l: Lieu)
    requires A(racine, l).Some?
    ensures A(racine, l).value in Niveau(racine, |l|)
  {
    if l != [] {
      var n := |l| - 1;
      LieuParent(racine, l);
      LieuAuNiveau(racine, l[..n]);
      EnfantDans(Niveau(racine, n), A(racine, l[..n]).value, l[n]);
    }
  }

  lemma {:induction false} LieuParent(racine: Dossier, l: Lieu)
    requires l != [] && A(racine, l).Some?
    ensures var p := A(racine, l[..|l| - 1]);
            p.Some? && l[|l| - 1] < |p.value.enfants| && A(racine, l).value == p.value.enfants[l[|l| - 1]]
  {
    if |l| > 1 {
      LieuParent(racine.enfants[l[0]], l[1..]);
      assert l[1..][..|l| - 2] == l[..|l| - 1][1..];
    }
  }

  lemma {:induction false} NiveauxSuivants(racine: Dossier, d: nat, k: nat)
    requires Niveau(racine, d) == [] && d <= k
    ensures Niveau(racine, k) == []
  {
    if k > d { NiveauxSuivants(racine, d, k - 1); }
  }

  /** The queue holds the rest of one level, then the children of what was taken from it. */
  ghost predicate Front(racine: Dossier, attente: seq<Dossier>, profondeur: nat, i: nat) {
    && i <= |Niveau(racine, profondeur)|
    && attente == Niveau(racine, profondeur)[i..] + Enfants(Niveau(racine, profondeur)[..i])
  }

  /** A level exhausted, the queue is the next one. */
  lemma FrontSuivant(racine: Dossier, attente: seq<Dossier>, profondeur: nat)
    requires Front(racine, attente, profondeur, |Niveau(racine, profondeur)|)
    ensures Front(racine, attente, profondeur + 1, 0) && attente == Niveau(racine, profondeur + 1)
  {
    var niveau, suivant := Niveau(racine, profondeur), Niveau(racine, profondeur + 1);
    assert niveau[..|niveau|] == niveau && niveau[|niveau|..] == [];
    assert suivant[0..] == suivant && suivant[..0] == [];
  }

  lemma FrontAvance(racine: Dossier, attente: seq<Dossier>, profondeur: nat, i: nat)
    requires Front(racine, attente, profondeur, i) && i < |Niveau(racine, profondeur)|
    ensures attente != [] && attente[0] == Niveau(racine, profondeur)[i]
    ensures Front(racine, attente[1..] + attente[0].enfants, profondeur, i + 1)
    ensures Tailles(attente[1..] + attente[0].enfants) < Tailles(attente)
  {
    hide Niveau, Taille, Enfants, Tailles;
    var niveau := Niveau(racine, profondeur);
    Defile(niveau, Enfants(niveau[..i]), i);
    EnfantsSuivants(niveau, i);
    TaillesAvancees(attente);
  }

  /** Taking the head of the queue and adding its children at the end. */
  lemma Defile(niveau: seq<Dossier>, suite: seq<Dossier>, i: nat)
    requires i < |niveau|
    ensures var attente := niveau[i..] + suite;
            attente[0] == niveau[i] && attente[1..] + niveau[i].enfants == niveau[i + 1..] + (suite + niveau[i].enfants)
  {
    assert niveau[i..] == [niveau[i]] + niveau[i + 1..];
  }

  lemma EnfantsSuivants(ds: seq<Dossier>, i: nat)
    requires i < |ds|
    ensures Enfants(ds[..i + 1]) == Enfants(ds[..i]) + ds[i].enfants
  {
    assert ds[..i + 1][..i] == ds[..i];
  }

  /** Replacing a directory by its children makes the queue lighter. */
  lemma TaillesAvancees(attente: seq<Dossier>)
    requires attente != []
    ensures Tailles(attente[1..] + attente[0].enfants) < Tailles(attente)
  {
    var courant := attente[0];
    TaillesConcat(attente[1..], courant.enfants);
    TotalEnfants(courant, |courant.enfants|);
    assert courant.enfants[..|courant.enfants|] == courant.enfants;
  }

  /** No PDF directly in what was taken from the queue. */
  ghost predicate Vus(racine: Dossier, profondeur: nat, i: nat) {
    && i <= |Niveau(racine, profondeur)|
    && SansPdf(Niveau(racine, profondeur)[..i])
    && forall k :: 0 <= k < profondeur ==> SansPdf(Niveau(racine, k))
  }

  lemma VusSuivant(racine: Dossier, profondeur: nat)
    requires Vus(racine, profondeur, |Niveau(racine, profondeur)|)
    ensures Vus(racine, profondeur + 1, 0)
  {
    var niveau := Niveau(racine, profondeur);
    assert niveau[..|niveau|] == niveau;
  }

  lemma VusAvance(racine: Dossier, profondeur: nat, i: nat)
    requires Vus(racine, profondeur, i) && i < |Niveau(racine, profondeur)| && !Niveau(racine, profondeur)[i].pdf
    ensures Vus(racine, profondeur, i + 1)
  {
    var niveau := Niveau(racine, profondeur);
    assert niveau[..i + 1] == niveau[..i] + [niveau[i]];
  }

  /** Where the head of the queue stands, and what the queue becomes without it. */
  lemma Tete(racine: Dossier, attente: seq<Dossier>, p: nat, i: nat) returns (profondeur: nat, rang: nat)
    requires attente != [] && Front(racine, attente, p, i) && Vus(racine, p, i)
    ensures Vus(racine, profondeur, rang) && rang < |Niveau(racine, profondeur)|
    ensures attente[0] == Niveau(racine, profondeur)[rang]
    ensures Front(racine, attente[1..] + attente[0].enfants, profondeur, rang + 1)
    ensures Tailles(attente[1..] + attente[0].enfants) < Tailles(attente)
  {
    profondeur, rang := p, i;
    if i == |Niveau(racine, p)| {
      FrontSuivant(racine, attente, p);
      VusSuivant(racine, p);
      profondeur, rang := p + 1, 0;
    }
    FrontAvance(racine, attente, profondeur, rang);
  }

  /** A directory of least depth that directly holds a PDF, the first of its level; nothing
      exactly when no directory of the tree does. */
  method DossierAvecPdf(racine: Dossier) returns (trouve: Option<Dossier>, ghost profondeur: nat, ghost rang: nat)
    ensures trouve.Some? ==> rang < |Niveau(racine, profondeur)| && trouve.value == Niveau(racine, profondeur)[rang]
                             && trouve.value.pdf && SansPdf(Niveau(racine, profondeur)[..rang])
    ensures trouve.Some? ==> forall l :: A(racine, l).Some? && |l| < profondeur ==> !A(racine, l).value.pdf
    ensures trouve.None? <==> forall l :: A(racine, l).Some? ==> !A(racine, l).value.pdf
  {
    var attente := [racine];
    profondeur, rang := 0, 0;
    FrontInitial(racine);
    hide Front, Vus, Niveau, SansPdf, Tailles, A;
    while attente != []
      invariant Front(racine, attente, profondeur, rang) && Vus(racine, profondeur, rang)
      decreases Tailles(attente)
    {
      profondeur, rang := Tete(racine, attente, profondeur, rang);
      var courant := attente[0];
      if courant.pdf {
        Trouve(racine, profondeur, rang);
        return Some(courant), profondeur, rang;
      }
      VusAvance(racine, profondeur, rang);
      attente := attente[1..] + courant.enfants;
      rang := rang + 1;
    }
    FinDuFront(racine, profondeur, rang);
    trouve := None;
  }

  lemma FinDuFront(racine: Dossier, profondeur: nat, i: nat)
    requires Front(racine, [], profondeur, i) && Vus(racine, profondeur, i)
    ensures forall l :: A(racine, l).Some? ==> !A(racine, l).value.pdf
  {
    var niveau := Niveau(racine, profondeur);
    assert |niveau[i..]| == 0;
    assert niveau[..i] == niveau;
    NiveauVide(racine, profondeur);
  }

  lemma FrontInitial(racine: Dossier)
    ensures Front(racine, [racine], 0, 0) && Vus(racine, 0, 0) && |Niveau(racine, 0)| == 1
  {
  }

  lemma PlusHautSansPdf(racine: Dossier, profondeur: nat, rang: nat)
    requires Vus(racine, profondeur, rang)
    ensures rang <= |Niveau(racine, profondeur)| && SansPdf(Niveau(racine, profondeur)[..rang])
    ensures forall l :: A(racine, l).Some? && |l| < profondeur ==> !A(racine, l).value.pdf
  {
    forall l | A(racine, l).Some? && |l| < profondeur ensures !A(racine, l).value.pdf {
      LieuAuNiveau(racine, l);
    }
  }

  lemma NiveauVide(racine: Dossier, profondeur: nat)
    requires forall k :: 0 <= k <= profondeur ==> SansPdf(Niveau(racine, k))
    requires Enfants(Niveau(racine, profondeur)) == []
    ensures forall l :: A(racine, l).Some? ==> !A(racine, l).value.pdf
  {
    forall l | A(racine, l).Some? ensures !A(racine, l).value.pdf {
      LieuAuNiveau(racine, l);
      if |l| > profondeur { NiveauxSuivants(racine, profondeur + 1, |l|); }
    }
  }

  /** What stands on a level stands at some place. */
  lemma {:induction false} LieuDe(racine: Dossier, profondeur: nat, d: Dossier) returns (l: Lieu)
    requires d in Niveau(racine, profondeur)
    ensures |l| == profondeur && A(racine, l) == Some(d)
  {
    if profondeur == 0 {
      l := [];
    } else {
      var parent, i := ParentDe(Niveau(racine, profondeur - 1), d);
      var p := LieuDe(racine, profondeur - 1, parent);
      l := p + [i];
      Prolonger(racine, p, i);
    }
  }

  lemma {:induction false} ParentDe(ds: seq<Dossier>, d: Dossier) returns (parent: Dossier, i: nat)
    requires d in Enfants(ds)
    ensures parent in ds && i < |parent.enfants| && parent.enfants[i] == d
  {
    var n := |ds| - 1;
    if d in ds[n].enfants {
      parent := ds[n];
      i :| 0 <= i < |parent.enfants| && parent.enfants[i] == d;
    } else {
      parent, i := ParentDe(ds[..n], d);
    }
  }

  lemma {:induction false} Prolonger(racine: Dossier, l: Lieu, i: nat)
    requires A(racine, l).Some? && i < |A(racine, l).value.enfants|
    ensures A(racine, l + [i]) == Some(A(racine, l).value.enfants[i])
  {
    if l != [] {
      Prolonger(racine.enfants[l[0]], l[1..], i);
      assert (l + [i])[1..] == l[1..] + [i];
    }
  }

  lemma PdfTrouve(racine: Dossier, profondeur: nat, i: nat)
    requires i < |Niveau(racine, profondeur)| && Niveau(racine, profondeur)[i].pdf
    ensures exists l :: A(racine, l).Some? && A(racine, l).value.pdf
  {
    var l := LieuDe(racine, profondeur, Niveau(racine, profondeur)[i]);
    assert A(racine, l).value.pdf;
  }

  /** What finding a PDF at this rank tells. */
  lemma Trouve(racine: Dossier, profondeur: nat, rang: nat)
    requires Vus(racine, profondeur, rang) && rang < |Niveau(racine, profondeur)| && Niveau(racine, profondeur)[rang].pdf
    ensures SansPdf(Niveau(racine, profondeur)[..rang])
    ensures forall l :: A(racine, l).Some? && |l| < profondeur ==> !A(racine, l).value.pdf
    ensures exists l :: A(racine, l).Some? && A(racine, l).value.pdf
  {
    PlusHautSansPdf(racine, profondeur, rang);
    PdfTrouve(racine, profondeur, rang);
  }
}
