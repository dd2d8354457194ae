/** Sail and accessory extractions (seamtech_search/extractions_voile.py,
    seamtech_search/accessoires.py): an upsert by one of three identities, the
    automatic resolution of the boat model, and the human decisions it must keep.

    Both families share one model; `Famille` selects the statements that differ.
    A table is a sequence indexed by `id_extraction`; a deleted row leaves `None`. */
module Projections {
  import opened Options

  datatype Famille = Voile | Accessoire

  datatype StatutLiaison = NonResolu | LieAutomatique | LieHumain | Ambigu | SansModele
  datatype Methode = CleExacte | AliasExact | FicheBateau | Humain | HumainNouveauModele

  type Donnees = map<string, Option<string>>

  /** The columns that say which boat model a row is linked to. */
  datatype Lien = Lien(modele: Option<int>, statut: StatutLiaison, methode: Option<Methode>,
                       lieLe: Option<int>, liePar: Option<nat>)

  datatype Extraction = Extraction(cle: string, document: Option<int>, fiche: Option<int>, empreinte: Option<string>,
                                   code: Option<string>, nomFichier: Option<string>, version: string,
                                   brut: Option<string>, donnees: Donnees, contenu: string)

  datatype Ligne = Ligne(cle: string, document: Option<int>, fiche: Option<int>, empreinte: Option<string>,
                         code: Option<string>, nomFichier: Option<string>, version: string,
                         brut: Option<string>, donnees: Donnees, lien: Lien)

  type Table = seq<Option<Ligne>>

  const LIEN_INITIAL := Lien(None, NonResolu, None, None, None)

  // ---------------------------------------------------------------------------
  // Identity of an extraction
  // ---------------------------------------------------------------------------

  function Chiffre(n: nat): char
    requires n < 10
  {
    "0123456789"[n]
  }

  function Decimal(n: int): string
    decreases n < 0, if n < 0 then -n else n
  {
    if n < 0 then "-" + Decimal(-n)
    else if n < 10 then [Chiffre(n)]
    else Decimal(n / 10) + [Chiffre(n % 10)]
  }

  /** `_cle_idempotence`; `contenu` is the digest of the serialised extraction. */
  function CleIdempotence(e: Extraction): string {
    if e.document.Some? then "document:" + Decimal(e.document.value) + ":" + e.version
    else if e.fiche.Some? then "fiche:" + Decimal(e.fiche.value) + ":" + e.version
    else if e.empreinte.Some? && e.empreinte.value != "" then "sha256:" + e.empreinte.value + ":" + e.version
    else if e.code.Some? && e.code.value != "" then
      "code:" + e.code.value + ":" +
      (if e.nomFichier.Some? && e.nomFichier.value != "" then e.nomFichier.value else "sans-fichier") + ":" + e.version
    else "contenu:" + e.contenu + ":" + e.version
  }

  predicate Egal<T(==)>(cherche: Option<T>, colonne: Option<T>) { cherche.Some? && colonne == cherche }

  /** The WHERE clause of the lookup. */
  predicate Correspond(l: Ligne, e: Extraction) {
    && l.version == e.version
    && (Egal(e.document, l.document) || Egal(e.fiche, l.fiche) || Egal(e.empreinte, l.empreinte))
  }

  /** The ORDER BY of the lookup: by evidence for sails, by key alone for accessories. */
  function Priorite(f: Famille, l: Ligne, e: Extraction): nat {
    if f.Accessoire? then 0
    else if Egal(e.document, l.document) then 0
    else if Egal(e.fiche, l.fiche) then 1
    else 2
  }

  predicate CorrespondEn(t: Table, i: nat, e: Extraction) { i < |t| && t[i].Some? && Correspond(t[i].value, e) }

  /** The row the lookup returns among the first `n`. */
  function Chercher(f: Famille, t: Table, e: Extraction, n: nat): (r: Option<nat>)
    requires n <= |t|
    ensures r.Some? ==>
      && r.value < n && CorrespondEn(t, r.value, e)
      && forall j :: 0 <= j < n && CorrespondEn(t, j, e) ==>
           || Priorite(f, t[r.value].value, e) < Priorite(f, t[j].value, e)
           || (Priorite(f, t[r.value].value, e) == Priorite(f, t[j].value, e) && r.value <= j)
    ensures r.None? ==> forall j :: 0 <= j < n ==> !CorrespondEn(t, j, e)
  {
    if n == 0 then None
    else
      var r := Chercher(f, t, e, n - 1);
      if !CorrespondEn(t, n - 1, e) then r
      else if r.None? || Priorite(f, t[n - 1].value, e) < Priorite(f, t[r.value].value, e) then Some(n - 1)
      else r
  }

  predicate AIdentite(e: Extraction) { e.document.Some? || e.fiche.Some? || e.empreinte.Some? }

  /** The key under which the extraction is finally written. */
  function CleEffective(f: Famille, t: Table, e: Extraction): string {
    var cle := if e.cle == "" then CleIdempotence(e) else e.cle;
    if !AIdentite(e) then cle
    else match Chercher(f, t, e, |t|)
      case Some(i) => t[i].value.cle
      case None => cle
  }

  function ParCle(t: Table, cle: string): (i: nat)
    ensures i <= |t|
    ensures i < |t| ==> t[i].Some? && t[i].value.cle == cle
    ensures i == |t| ==> forall j :: 0 <= j < |t| && t[j].Some? ==> t[j].value.cle != cle
  {
    if t == [] then 0
    else if t[0].Some? && t[0].value.cle == cle then 0
    else 1 + ParCle(t[1..], cle)
  }

  ghost predicate ClesUniques(t: Table) {
    forall i, j :: 0 <= i < j < |t| && t[i].Some? && t[j].Some? ==> t[i].value.cle != t[j].value.cle
  }

  // ---------------------------------------------------------------------------
  // Upsert
  // ---------------------------------------------------------------------------

  function Inseree(e: Extraction, cle: string): Ligne {
    Ligne(cle, e.document, e.fiche, e.empreinte, e.code, e.nomFichier, e.version, e.brut, e.donnees, LIEN_INITIAL)
  }

  /** ON CONFLICT DO UPDATE. Sails keep known identities and their version; accessories
      overwrite every column. The link columns are in neither list. */
  function Fusion(f: Famille, l: Ligne, e: Extraction): Ligne {
    match f
    case Voile =>
      l.(document := e.document.OrElse(l.document), fiche := e.fiche.OrElse(l.fiche),
         empreinte := e.empreinte.OrElse(l.empreinte), code := e.code.OrElse(l.code),
         nomFichier := e.nomFichier.OrElse(l.nomFichier), brut := e.brut, donnees := e.donnees)
    case Accessoire =>
      Inseree(e, l.cle).(lien := l.lien)
  }

  function Upsert(f: Famille, t: Table, e: Extraction): (r: (Table, nat))
    ensures r.1 < |r.0| && r.0[r.1].Some?
    ensures |t| <= |r.0| && forall j :: 0 <= j < |t| && j != r.1 ==> r.0[j] == t[j]
  {
    var cle := CleEffective(f, t, e);
    var i := ParCle(t, cle);
    if i < |t| then (t[i := Some(Fusion(f, t[i].value, e))], i)
    else (t + [Some(Inseree(e, cle))], |t|)
  }

  // ---------------------------------------------------------------------------
  // Resolution of the boat model
  // ---------------------------------------------------------------------------

  /** The reference tables: exact labels (with how they match), boats of fiches, near labels. */
  datatype Referentiel = Referentiel(exacts: map<string, (int, bool)>, bateaux: map<(int, string), int>, proches: set<string>)

  /** The characters `str.strip` removes. */
  predicate Blanc(c: char) {
    || '\U{0009}' <= c <= '\U{000D}' || '\U{001C}' <= c <= '\U{0020}' || c == '\U{0085}' || c == '\U{00A0}'
    || c == '\U{1680}' || '\U{2000}' <= c <= '\U{200A}' || c == '\U{2028}' || c == '\U{2029}' || c == '\U{202F}'
    || c == '\U{205F}' || c == '\U{3000}'
  }

  function Rogner(s: string): string {
    if s != "" && Blanc(s[0]) then Rogner(s[1..])
    else if s != "" && Blanc(s[|s| - 1]) then Rogner(s[..|s| - 1])
    else s
  }

  ghost predicate ToutBlanc(s: string) { forall c :: c in s ==> Blanc(c) }

  /** Blanks are removed at both ends, and nothing else. */
  lemma {:induction false} RognerEcrit(s: string) returns (avant: string, apres: string)
    ensures s == avant + Rogner(s) + apres && ToutBlanc(avant) && ToutBlanc(apres)
    ensures Rogner(s) != "" ==> !Blanc(Rogner(s)[0]) && !Blanc(Rogner(s)[|Rogner(s)| - 1])
    decreases |s|
  {
    if s != "" && Blanc(s[0]) {
      avant, apres := RognerEcrit(s[1..]);
      avant := [s[0]] + avant;
      assert s == [s[0]] + s[1..];
    } else if s != "" && Blanc(s[|s| - 1]) {
      avant, apres := RognerEcrit(s[..|s| - 1]);
      apres := apres + [s[|s| - 1]];
      assert s == s[..|s| - 1] + [s[|s| - 1]];
    } else {
      avant, apres := "", "";
    }
  }

  /** `decider_resolution`: statut, model and method for a raw label. */
  function DeciderResolution(ref: Referentiel, brut: Option<string>, fiche: Option<int>): (StatutLiaison, Option<int>, Option<Methode>) {
    var libelle := Rogner(brut.GetOr(""));
    if libelle == "" then (SansModele, None, None)
    else
      var exact := if libelle in ref.exacts then Some(ref.exacts[libelle]) else None;
      var bateau := if fiche.Some? && (fiche.value, libelle) in ref.bateaux then Some(ref.bateaux[(fiche.value, libelle)]) else None;
      if exact.Some? && bateau.Some? && exact.value.0 != bateau.value then (Ambigu, None, None)
      else if exact.Some? then (LieAutomatique, Some(exact.value.0), Some(if exact.value.1 then CleExacte else AliasExact))
      else if bateau.Some? then (LieAutomatique, bateau, Some(FicheBateau))
      else (if libelle in ref.proches then Ambigu else NonResolu, None, None)
  }

  /** The five outcomes, from the evidence: no label; an exact label and a boat of the fiche that
      disagree; an exact label; a boat of the fiche alone; neither, with near labels or without. */
  ghost predicate Preuve(ref: Referentiel, libelle: string, fiche: Option<int>, statut: StatutLiaison, modele: Option<int>, methode: Option<Methode>) {
    var exact := libelle in ref.exacts;
    var bateau := fiche.Some? && (fiche.value, libelle) in ref.bateaux;
    && (libelle == "" ==> statut.SansModele? && modele == None && methode == None)
    && (libelle != "" && exact && bateau && ref.exacts[libelle].0 != ref.bateaux[(fiche.value, libelle)] ==>
          statut.Ambigu? && modele == None && methode == None)
    && (libelle != "" && exact && (bateau ==> ref.exacts[libelle].0 == ref.bateaux[(fiche.value, libelle)]) ==>
          statut.LieAutomatique? && modele == Some(ref.exacts[libelle].0)
          && methode == (if ref.exacts[libelle].1 then Some(CleExacte) else Some(AliasExact)))
    && (libelle != "" && !exact && bateau ==>
          statut.LieAutomatique? && modele == Some(ref.bateaux[(fiche.value, libelle)]) && methode == Some(FicheBateau))
    && (libelle != "" && !exact && !bateau && libelle in ref.proches ==> statut.Ambigu? && modele == None && methode == None)
    && (libelle != "" && !exact && !bateau && libelle !in ref.proches ==> statut.NonResolu? && modele == None && methode == None)
  }

  /** The trimmed label, absent as empty. */
  ghost predicate LibelleDe(brut: Option<string>, libelle: string) {
    exists avant, apres :: ToutBlanc(avant) && ToutBlanc(apres) && (match brut case Some(b) => b case None => "") == avant + libelle + apres
  }

  lemma DecisionDesPreuves(ref: Referentiel, brut: Option<string>, fiche: Option<int>) returns (libelle: string)
    ensures var (statut, modele, methode) := DeciderResolution(ref, brut, fiche);
            && Preuve(ref, libelle, fiche, statut, modele, methode)
            && LibelleDe(brut, libelle) && (libelle != "" ==> !Blanc(libelle[0]) && !Blanc(libelle[|libelle| - 1]))
  {
    libelle := Rogner(brut.GetOr(""));
    var avant, apres := RognerEcrit(brut.GetOr(""));
  }

  function Resoudre(ref: Referentiel, l: Ligne, maintenant: int): Ligne {
    if l.lien.statut.LieHumain? then l
    else
      var (statut, modele, methode) := DeciderResolution(ref, l.brut, l.fiche);
      l.(lien := Lien(modele, statut, methode, if modele.Some? then Some(maintenant) else None, None))
  }

  /** `enregistrer_extraction_*_curseur`. */
  function Enregistrer(f: Famille, ref: Referentiel, t: Table, e: Extraction, maintenant: int): (r: (Table, nat))
    ensures r.1 < |r.0| && r.0[r.1].Some?
  {
    var (t', i) := Upsert(f, t, e);
    (t'[i := Some(Resoudre(ref, t'[i].value, maintenant))], i)
  }

  // ---------------------------------------------------------------------------
  // Recording twice
  // ---------------------------------------------------------------------------

  function SansDate(l: Option<Ligne>): Option<Ligne> {
    if l.None? then None
    else Some(l.value.(lien := l.value.lien.(lieLe := if l.value.lien.lieLe.Some? then Some(0) else None)))
  }

  /** Equal tables, timestamps aside. */
  ghost predicate MemeTable(a: Table, b: Table) {
    |a| == |b| && forall i :: 0 <= i < |a| ==> SansDate(a[i]) == SansDate(b[i])
  }

  lemma {:induction false} ParCleUnique(t: Table, cle: string, i: nat)
    requires ClesUniques(t) && i < |t| && t[i].Some? && t[i].value.cle == cle
    ensures ParCle(t, cle) == i
  {
    var j := ParCle(t, cle);
    assert j < |t|;
  }

  /** What the upsert writes at the row it chose. */
  ghost predicate Ecrite(f: Famille, t: Table, e: Extraction, t': Table, i: nat) {
    && |t'| == (if i < |t| then |t| else |t| + 1)
    && i < |t'| && t'[i].Some?
    && (forall j :: 0 <= j < |t| && j != i ==> t'[j] == t[j])
    && (if i < |t| && t[i].Some? then t'[i].value.(lien := t[i].value.lien) == Fusion(f, t[i].value, e)
        else i == |t| && t'[i].value.(lien := LIEN_INITIAL) == Inseree(e, t'[i].value.cle))
  }

  lemma EnregistrerEcrit(f: Famille, ref: Referentiel, t: Table, e: Extraction, maintenant: int)
    requires ClesUniques(t)
    ensures var (t', i) := Enregistrer(f, ref, t, e, maintenant);
            && Ecrite(f, t, e, t', i) && t'[i].value.cle == CleEffective(f, t, e) && ClesUniques(t')
  {
    var (t', i) := Enregistrer(f, ref, t, e, maintenant);
    forall a, b | 0 <= a < b < |t'| && t'[a].Some? && t'[b].Some? ensures t'[a].value.cle != t'[b].value.cle {
      assert a < |t| && a != i ==> t'[a] == t[a];
      assert b < |t| && b != i ==> t'[b] == t[b];
    }
  }

  /** Once written, the row is what the lookup finds again, under the same key. */
  lemma CleStable(f: Famille, t: Table, e: Extraction, t': Table, i: nat)
    requires ClesUniques(t) && ClesUniques(t') && Ecrite(f, t, e, t', i)
    requires t'[i].value.cle == CleEffective(f, t, e)
    ensures CleEffective(f, t', e) == CleEffective(f, t, e)
  {
    if AIdentite(e) {
      var r, r' := Chercher(f, t, e, |t|), Chercher(f, t', e, |t'|);
      forall j | 0 <= j < |t| && j != i ensures CorrespondEn(t', j, e) <==> CorrespondEn(t, j, e) {
        assert t'[j] == t[j];
      }
      if r.Some? {
        assert CorrespondEn(t', r.value, e);
        assert i == r.value;
        assert CorrespondEn(t', i, e);
        assert Priorite(f, t'[i].value, e) <= Priorite(f, t[i].value, e);
        assert r'.Some? && CorrespondEn(t', r'.value, e);
      } else if r'.Some? {
        assert r'.value == i;
      }
    }
  }

  lemma FusionStable(f: Famille, t: Table, e: Extraction, t': Table, i: nat)
    requires Ecrite(f, t, e, t', i)
    ensures Fusion(f, t'[i].value, e) == t'[i].value
  {
  }

  lemma ResoudreStable(ref: Referentiel, l: Ligne, t1: int, t2: int)
    ensures SansDate(Some(Resoudre(ref, Resoudre(ref, l, t1), t2))) == SansDate(Some(Resoudre(ref, l, t1)))
  {
  }

  /** Recording the same extraction twice returns the same identifier and leaves the
      table as after the first time, timestamps aside: for both families, every
      starting table and every combination of known identities. */
  lemma EnregistrerDeuxFois(f: Famille, ref: Referentiel, t: Table, e: Extraction, t1: int, t2: int)
    requires ClesUniques(t)
    ensures var (a, i) := Enregistrer(f, ref, t, e, t1);
            var (b, j) := Enregistrer(f, ref, a, e, t2);
            i == j && MemeTable(a, b)
  {
    var (a, i) := Enregistrer(f, ref, t, e, t1);
    EnregistrerEcrit(f, ref, t, e, t1);
    CleStable(f, t, e, a, i);
    ParCleUnique(a, CleEffective(f, a, e), i);
    FusionStable(f, t, e, a, i);
    ResoudreStable(ref, Upsert(f, t, e).0[i].value, t1, t2);
  }

  // ---------------------------------------------------------------------------
  // Human decisions
  // ---------------------------------------------------------------------------

  datatype Correction = Correction(famille: Famille, id: nat, champ: string, apres: Option<string>, auteur: nat)

  datatype Base = Base(voiles: Table, accessoires: Table, corrections: seq<Correction>, categories: map<int, Famille>) {
    function TableDe(f: Famille): Table { if f.Voile? then voiles else accessoires }

    function Avec(f: Famille, t: Table): Base { if f.Voile? then this.(voiles := t) else this.(accessoires := t) }
  }

  const LIBELLE := "modele_bateau_brut"

  const CHAMPS_ACCESSOIRE := {"type_accessoire", "designation", "matiere", "couleur", "dimensions", "quantite",
                              "longueur_m", "largeur_m", "hauteur_m", LIBELLE}
  const CHAMPS_VOILE := {"type_voile", "gamme", "taille_bateau_brute", "slu_m", "sle_m", "sf_m", "shw_m", "spa_m2",
                         "tetiere_m", "poids_kg", LIBELLE}

  function ChampsCorrigeables(f: Famille): set<string> { if f.Voile? then CHAMPS_VOILE else CHAMPS_ACCESSOIRE }

  /** A human link names its target, or is refused (`None`: unknown or unreadable model).
      A corrected value is `None` when its validation refuses it. */
  datatype Operation =
    | OpEnregistrer(famille: Famille, extraction: Extraction)
    | OpResoudre(famille: Famille, id: nat)
    | OpLier(famille: Famille, id: nat, cible: Option<int>, nouveau: bool, auteur: nat)
    | OpCorriger(famille: Famille, id: nat, champ: string, valeur: Option<Option<string>>, derivees: Donnees, auteur: nat)
    | OpLierDocument(famille: Famille, fiche: int, document: int, empreinte: Option<string>, nom: Option<string>, version: string)
    | OpReclasser(fiche: int, categorie: Famille, nouvelle: Extraction)

  predicate Vivante(t: Table, id: nat) { id < |t| && t[id].Some? }

  function Lier(l: Ligne, cible: int, nouveau: bool, auteur: nat, maintenant: int): Ligne {
    l.(lien := Lien(Some(cible), LieHumain, Some(if nouveau then HumainNouveauModele else Humain), Some(maintenant), Some(auteur)))
  }

  /** What correcting the dimensions text may also rewrite. */
  const MESURES := {"longueur_m", "largeur_m", "hauteur_m"}

  function Mesures(derivees: Donnees): Donnees { map k | k in derivees && k in MESURES :: derivees[k] }

  /** A corrected label reopens the resolution; any other column keeps the link. */
  function Corriger(ref: Referentiel, l: Ligne, champ: string, valeur: Option<string>, derivees: Donnees, maintenant: int): Ligne {
    if champ == LIBELLE then Resoudre(ref, l.(brut := valeur, lien := LIEN_INITIAL), maintenant)
    else l.(donnees := (l.donnees + (if champ == "dimensions" then Mesures(derivees) else map[]))[champ := valeur])
  }

  /** Sails refuse a correction that changes nothing. */
  predicate Identique(f: Famille, l: Ligne, champ: string, valeur: Option<string>) {
    f.Voile? && (if champ == LIBELLE then l.brut == valeur else champ in l.donnees && l.donnees[champ] == valeur)
  }

  function LierDocument(t: Table, fiche: int, document: int, empreinte: Option<string>, nom: Option<string>, version: string): (r: Table)
    ensures |r| == |t|
  {
    seq(|t|, i requires 0 <= i < |t| =>
      if t[i].Some? && t[i].value.fiche == Some(fiche) && t[i].value.version == version then
        Some(t[i].value.(document := Some(document), empreinte := empreinte.OrElse(t[i].value.empreinte),
                         nomFichier := nom.OrElse(t[i].value.nomFichier)))
      else t[i])
  }

  predicate DeFiche(t: Table, id: nat, fiche: int) { Vivante(t, id) && t[id].value.fiche == Some(fiche) }

  predicate PorteCorrection(s: Base, f: Famille, fiche: int) {
    exists k :: 0 <= k < |s.corrections| && s.corrections[k].famille == f && DeFiche(s.TableDe(f), s.corrections[k].id, fiche)
  }

  function SupprimerFiche(t: Table, fiche: int): (r: Table)
    ensures |r| == |t|
  {
    seq(|t|, i requires 0 <= i < |t| => if DeFiche(t, i, fiche) then None else t[i])
  }

  /** ON DELETE CASCADE of the corrections of the deleted rows. */
  function Cascade(corrections: seq<Correction>, f: Famille, t: Table, fiche: int): seq<Correction> {
    if corrections == [] then []
    else (if corrections[0].famille == f && DeFiche(t, corrections[0].id, fiche) then [] else [corrections[0]]) +
         Cascade(corrections[1..], f, t, fiche)
  }

  function PremiereDeFiche(t: Table, fiche: int): Option<Ligne> {
    if t == [] then None else if DeFiche(t, 0, fiche) then t[0] else PremiereDeFiche(t[1..], fiche)
  }

  function Ou(a: Option<string>, b: Option<string>): Option<string> { if a.Some? && a.value != "" then a else b }

  /** The rebuilt projection, completed from the old one. */
  function Completer(categorie: Famille, n: Extraction, ancienne: Option<Ligne>): Extraction {
    if ancienne.None? then n
    else
      var a := ancienne.value;
      var c := n.(brut := if n.brut.GetOr("") == "" && a.brut.GetOr("") != "" then a.brut else n.brut,
                  code := Ou(n.code, a.code), document := if n.document.GetOr(0) != 0 then n.document else a.document,
                  empreinte := Ou(n.empreinte, a.empreinte), nomFichier := Ou(n.nomFichier, a.nomFichier));
      if categorie.Accessoire? then c.(cle := CleIdempotence(c)) else c
  }

  function ChangerCategorie(ref: Referentiel, s: Base, fiche: int, categorie: Famille, nouvelle: Extraction, maintenant: int): Base {
    if fiche !in s.categories || s.categories[fiche] == categorie then s
    else
      var f := s.categories[fiche];
      if PorteCorrection(s, f, fiche) then s
      else
        var t := s.TableDe(f);
        var e := Completer(categorie, nouvelle.(fiche := Some(fiche)), PremiereDeFiche(t, fiche));
        var efface := s.Avec(f, SupprimerFiche(t, fiche)).(corrections := Cascade(s.corrections, f, t, fiche),
                                                           categories := s.categories[fiche := categorie]);
        efface.Avec(categorie, Enregistrer(categorie, ref, efface.TableDe(categorie), e, maintenant).0)
  }

  /** One transaction; a refused one changes nothing. */
  function Etape(ref: Referentiel, s: Base, op: Operation, maintenant: int): Base {
    match op
    case OpEnregistrer(f, e) => s.Avec(f, Enregistrer(f, ref, s.TableDe(f), e, maintenant).0)
    case OpResoudre(f, id) =>
      var t := s.TableDe(f);
      if Vivante(t, id) then s.Avec(f, t[id := Some(Resoudre(ref, t[id].value, maintenant))]) else s
    case OpLier(f, id, cible, nouveau, auteur) =>
      var t := s.TableDe(f);
      if Vivante(t, id) && cible.Some? then s.Avec(f, t[id := Some(Lier(t[id].value, cible.value, nouveau, auteur, maintenant))]) else s
    case OpCorriger(f, id, champ, valeur, derivees, auteur) =>
      var t := s.TableDe(f);
      if Vivante(t, id) && champ in ChampsCorrigeables(f) && valeur.Some? && !Identique(f, t[id].value, champ, valeur.value) then
        s.Avec(f, t[id := Some(Corriger(ref, t[id].value, champ, valeur.value, derivees, maintenant))]).(
          corrections := s.corrections + [Correction(f, id, champ, valeur.value, auteur)])
      else s
    case OpLierDocument(f, fiche, document, empreinte, nom, version) =>
      s.Avec(f, LierDocument(s.TableDe(f), fiche, document, empreinte, nom, version))
    case OpReclasser(fiche, categorie, nouvelle) => ChangerCategorie(ref, s, fiche, categorie, nouvelle, maintenant)
  }

  /** A call, and the reference tables as they are when it runs: linking calls add models and
      aliases to them, so they change along a run. */
  datatype Appel = Appel(op: Operation, instant: int, ref: Referentiel)

  function Suivante(s: Base, a: Appel): Base { Etape(a.ref, s, a.op, a.instant) }

  function Executer(s: Base, appels: seq<Appel>): Base
    decreases |appels|
  {
    if appels == [] then s else Executer(Suivante(s, appels[0]), appels[1..])
  }

  /** A link is human exactly when it has an author, dated exactly when it has a model,
      and has a model and a method exactly in the two linked statuses. */
  ghost predicate LienCoherent(l: Lien) {
    && (l.statut.LieHumain? <==> l.liePar.Some?)
    && (l.lieLe.Some? <==> l.modele.Some?)
    && (l.methode.Some? <==> l.modele.Some?)
    && (l.modele.Some? <==> l.statut.LieHumain? || l.statut.LieAutomatique?)
  }

  ghost predicate TableSaine(t: Table) {
    ClesUniques(t) && forall i :: 0 <= i < |t| && t[i].Some? ==> LienCoherent(t[i].value.lien)
  }

  ghost predicate Saine(s: Base) { TableSaine(s.voiles) && TableSaine(s.accessoires) }

  lemma ResoudreCoherent(ref: Referentiel, l: Ligne, t: int)
    requires LienCoherent(l.lien)
    ensures LienCoherent(Resoudre(ref, l, t).lien)
    ensures l.lien.statut.LieHumain? ==> Resoudre(ref, l, t) == l
    ensures !l.lien.statut.LieHumain? ==> !Resoudre(ref, l, t).lien.statut.LieHumain?
  {
  }

  lemma EnregistrerSain(f: Famille, ref: Referentiel, t: Table, e: Extraction, maintenant: int)
    requires TableSaine(t)
    ensures TableSaine(Enregistrer(f, ref, t, e, maintenant).0)
  {
    EnregistrerEcrit(f, ref, t, e, maintenant);
    var (t', i) := Enregistrer(f, ref, t, e, maintenant);
    ResoudreCoherent(ref, Upsert(f, t, e).0[i].value, maintenant);
    forall j | 0 <= j < |t'| && t'[j].Some? ensures LienCoherent(t'[j].value.lien) {
      assert j != i ==> t'[j] == t[j];
    }
  }

  lemma RemplacerSain(t: Table, id: nat, l: Ligne)
    requires TableSaine(t) && Vivante(t, id) && l.cle == t[id].value.cle && LienCoherent(l.lien)
    ensures TableSaine(t[id := Some(l)])
  {
  }

  lemma SupprimerSain(t: Table, fiche: int)
    requires TableSaine(t)
    ensures TableSaine(SupprimerFiche(t, fiche))
  {
  }

  lemma LierDocumentSain(t: Table, fiche: int, document: int, empreinte: Option<string>, nom: Option<string>, version: string)
    requires TableSaine(t)
    ensures TableSaine(LierDocument(t, fiche, document, empreinte, nom, version))
  {
  }

  lemma CorrigerSain(ref: Referentiel, l: Ligne, champ: string, valeur: Option<string>, derivees: Donnees, t: int)
    requires LienCoherent(l.lien)
    ensures LienCoherent(Corriger(ref, l, champ, valeur, derivees, t).lien)
    ensures Corriger(ref, l, champ, valeur, derivees, t).cle == l.cle
    ensures champ != LIBELLE ==> Corriger(ref, l, champ, valeur, derivees, t).lien == l.lien
  {
    ResoudreCoherent(ref, l.(brut := valeur, lien := LIEN_INITIAL), t);
  }

  lemma AvecSaine(s: Base, f: Famille, t: Table)
    requires Saine(s) && TableSaine(t)
    ensures Saine(s.Avec(f, t))
  {
  }

  lemma ChangerCategorieSaine(ref: Referentiel, s: Base, fiche: int, categorie: Famille, nouvelle: Extraction, maintenant: int)
    requires Saine(s)
    ensures Saine(ChangerCategorie(ref, s, fiche, categorie, nouvelle, maintenant))
  {
    if fiche in s.categories && s.categories[fiche] != categorie {
      var f := s.categories[fiche];
      var t := s.TableDe(f);
      SupprimerSain(t, fiche);
      AvecSaine(s, f, SupprimerFiche(t, fiche));
      EnregistrerSain(categorie, ref, s.TableDe(categorie),
                      Completer(categorie, nouvelle.(fiche := Some(fiche)), PremiereDeFiche(t, fiche)), maintenant);
    }
  }

  lemma LierCoherent(l: Ligne, cible: int, nouveau: bool, auteur: nat, t: int)
    requires LienCoherent(l.lien)
    ensures LienCoherent(Lier(l, cible, nouveau, auteur, t).lien) && Lier(l, cible, nouveau, auteur, t).cle == l.cle
  {
  }

  /** One row rewritten with its key and a coherent link keeps the base sound. */
  lemma LigneSaine(s: Base, f: Famille, id: nat, l: Ligne)
    requires Saine(s) && Vivante(s.TableDe(f), id)
    requires l.cle == s.TableDe(f)[id].value.cle && LienCoherent(l.lien)
    ensures Saine(s.Avec(f, s.TableDe(f)[id := Some(l)]))
  {
    RemplacerSain(s.TableDe(f), id, l);
    AvecSaine(s, f, s.TableDe(f)[id := Some(l)]);
  }

  lemma LigneCoherente(s: Base, f: Famille, id: nat)
    requires Saine(s) && Vivante(s.TableDe(f), id)
    ensures LienCoherent(s.TableDe(f)[id].value.lien)
  {
  }

  lemma EtapeLigneSaine(ref: Referentiel, s: Base, op: Operation, maintenant: int)
    requires Saine(s) && (op.OpResoudre? || op.OpLier? || op.OpCorriger?) && Vivante(s.TableDe(op.famille), op.id)
    ensures Saine(Etape(ref, s, op, maintenant))
  {
    hide TableSaine, LienCoherent, DeciderResolution, Corriger;
    var l := s.TableDe(op.famille)[op.id].value;
    LigneCoherente(s, op.famille, op.id);
    match op
    case OpResoudre(f, id) =>
      ResoudreCoherent(ref, l, maintenant);
      LigneSaine(s, f, id, Resoudre(ref, l, maintenant));
    case OpLier(f, id, cible, nouveau, auteur) =>
      if cible.Some? {
        LierCoherent(l, cible.value, nouveau, auteur, maintenant);
        LigneSaine(s, f, id, Lier(l, cible.value, nouveau, auteur, maintenant));
      }
    case OpCorriger(f, id, champ, valeur, derivees, auteur) =>
      if valeur.Some? {
        CorrigerSain(ref, l, champ, valeur.value, derivees, maintenant);
        LigneSaine(s, f, id, Corriger(ref, l, champ, valeur.value, derivees, maintenant));
      }
  }

  lemma EtapeSaine(ref: Referentiel, s: Base, op: Operation, maintenant: int)
    requires Saine(s)
    ensures Saine(Etape(ref, s, op, maintenant))
  {
    hide TableSaine;
    if op.OpReclasser? {
      ChangerCategorieSaine(ref, s, op.fiche, op.categorie, op.nouvelle, maintenant);
    } else if op.OpEnregistrer? {
      EnregistrerSain(op.famille, ref, s.TableDe(op.famille), op.extraction, maintenant);
      AvecSaine(s, op.famille, Enregistrer(op.famille, ref, s.TableDe(op.famille), op.extraction, maintenant).0);
    } else if op.OpLierDocument? {
      LierDocumentSain(s.TableDe(op.famille), op.fiche, op.document, op.empreinte, op.nom, op.version);
      AvecSaine(s, op.famille, LierDocument(s.TableDe(op.famille), op.fiche, op.document, op.empreinte, op.nom, op.version));
    } else if Vivante(s.TableDe(op.famille), op.id) {
      EtapeLigneSaine(ref, s, op, maintenant);
    }
  }

  /** In every reachable state, "linked by a human" holds exactly when an author is
      stored and a link date exists exactly when a model is stored. */
  lemma {:induction false} LiensCoherents(s: Base, appels: seq<Appel>)
    requires Saine(s)
    ensures Saine(Executer(s, appels))
    decreases |appels|
  {
    if appels != [] {
      EtapeSaine(appels[0].ref, s, appels[0].op, appels[0].instant);
      LiensCoherents(Suivante(s, appels[0]), appels[1..]);
    }
  }

  lemma {:induction false} CascadeVide(corrections: seq<Correction>, f: Famille, t: Table, fiche: int)
    requires forall k :: 0 <= k < |corrections| ==> !(corrections[k].famille == f && DeFiche(t, corrections[k].id, fiche))
    ensures Cascade(corrections, f, t, fiche) == corrections
  {
    if corrections != [] {
      CascadeVide(corrections[1..], f, t, fiche);
      assert corrections == [corrections[0]] + corrections[1..];
    }
  }

  /** The history of corrections is append-only: reclassifying never deletes a
      projection that carries one. */
  lemma CorrectionsConservees(ref: Referentiel, s: Base, op: Operation, maintenant: int)
    ensures s.corrections <= Etape(ref, s, op, maintenant).corrections
  {
    if op.OpReclasser? && op.fiche in s.categories && s.categories[op.fiche] != op.categorie {
      var f := s.categories[op.fiche];
      if !PorteCorrection(s, f, op.fiche) {
        CascadeVide(s.corrections, f, s.TableDe(f), op.fiche);
      }
    }
  }

  /** The only calls that touch the link of row `id` of family `f` by decision. */
  predicate DecideLien(op: Operation, f: Famille, id: nat) {
    match op
    case OpLier(g, i, _, _, _) => g == f && i == id
    case OpCorriger(g, i, champ, _, _, _) => g == f && i == id && champ == LIBELLE
    case _ => false
  }

  predicate LieParHumain(t: Table, id: nat) { Vivante(t, id) && t[id].value.lien.statut.LieHumain? }

  /** Whether a reclassification goes through and takes row `id` of family `f` with it. */
  predicate Emporte(s: Base, op: Operation, f: Famille, id: nat) {
    && op.OpReclasser? && op.fiche in s.categories && s.categories[op.fiche] == f && op.categorie != f
    && DeFiche(s.TableDe(f), id, op.fiche) && !PorteCorrection(s, f, op.fiche)
  }

  lemma EnregistrerGardeHumain(f: Famille, ref: Referentiel, t: Table, e: Extraction, maintenant: int, id: nat)
    requires LieParHumain(t, id)
    ensures var t' := Enregistrer(f, ref, t, e, maintenant).0;
            LieParHumain(t', id) && t'[id].value.lien == t[id].value.lien
  {
  }

  lemma ReclasserGardeHumain(ref: Referentiel, s: Base, op: Operation, maintenant: int, f: Famille, id: nat)
    requires LieParHumain(s.TableDe(f), id) && op.OpReclasser?
    ensures var t' := ChangerCategorie(ref, s, op.fiche, op.categorie, op.nouvelle, maintenant).TableDe(f);
            if Emporte(s, op, f, id) then !Vivante(t', id)
            else LieParHumain(t', id) && t'[id].value.lien == s.TableDe(f)[id].value.lien
  {
    if op.fiche in s.categories && op.categorie == f {
      EnregistrerGardeHumain(f, ref, s.TableDe(f), Completer(op.categorie, op.nouvelle.(fiche := Some(op.fiche)),
                             PremiereDeFiche(s.TableDe(s.categories[op.fiche]), op.fiche)), maintenant, id);
    }
  }

  /** A human link survives every call, except another decision on that row, and a
      reclassification that goes through and takes the row with it. */
  lemma LienHumainProtege(ref: Referentiel, s: Base, op: Operation, maintenant: int, f: Famille, id: nat)
    requires LieParHumain(s.TableDe(f), id) && !DecideLien(op, f, id)
    ensures var t' := Etape(ref, s, op, maintenant).TableDe(f);
            if Emporte(s, op, f, id) then !Vivante(t', id)
            else LieParHumain(t', id) && t'[id].value.lien == s.TableDe(f)[id].value.lien
  {
    if op.OpReclasser? {
      ReclasserGardeHumain(ref, s, op, maintenant, f, id);
    } else if op.OpEnregistrer? {
      if op.famille == f { EnregistrerGardeHumain(f, ref, s.TableDe(f), op.extraction, maintenant, id); }
    }
  }

  /** A row that is gone stays gone: identifiers are not reused. */
  ghost predicate Supprimee(t: Table, id: nat) { id < |t| && t[id].None? }

  lemma EnregistrerSupprimee(f: Famille, ref: Referentiel, t: Table, e: Extraction, maintenant: int, id: nat)
    requires Supprimee(t, id)
    ensures Supprimee(Enregistrer(f, ref, t, e, maintenant).0, id)
  {
  }

  lemma ReclasserSupprimee(ref: Referentiel, s: Base, op: Operation, maintenant: int, f: Famille, id: nat)
    requires op.OpReclasser? && Supprimee(s.TableDe(f), id)
    ensures Supprimee(ChangerCategorie(ref, s, op.fiche, op.categorie, op.nouvelle, maintenant).TableDe(f), id)
  {
    hide Enregistrer, Completer;
    if op.fiche in s.categories && op.categorie == f {
      EnregistrerSupprimee(f, ref, s.TableDe(f), Completer(op.categorie, op.nouvelle.(fiche := Some(op.fiche)),
                           PremiereDeFiche(s.TableDe(s.categories[op.fiche]), op.fiche)), maintenant, id);
    }
  }

  lemma SupprimeeReste(s: Base, a: Appel, f: Famille, id: nat)
    requires Supprimee(s.TableDe(f), id)
    ensures Supprimee(Suivante(s, a).TableDe(f), id)
  {
    hide Enregistrer, Resoudre, Lier, Corriger;
    if a.op.OpReclasser? {
      ReclasserSupprimee(a.ref, s, a.op, a.instant, f, id);
    } else if a.op.OpEnregistrer? && a.op.famille == f {
      EnregistrerSupprimee(f, a.ref, s.TableDe(f), a.op.extraction, a.instant, id);
    }
  }

  lemma {:induction false} SupprimeePourToujours(s: Base, appels: seq<Appel>, f: Famille, id: nat)
    requires Supprimee(s.TableDe(f), id)
    ensures !Vivante(Executer(s, appels).TableDe(f), id)
    decreases |appels|
  {
    if appels != [] {
      SupprimeeReste(s, appels[0], f, id);
      SupprimeePourToujours(Suivante(s, appels[0]), appels[1..], f, id);
    }
  }

  lemma EmporteSupprime(s: Base, a: Appel, f: Famille, id: nat)
    requires Emporte(s, a.op, f, id)
    ensures Supprimee(Suivante(s, a).TableDe(f), id)
  {
  }

  /** No call of the run decides on the link of row `id`. */
  ghost predicate SansDecision(appels: seq<Appel>, f: Famille, id: nat) {
    forall k :: 0 <= k < |appels| ==> !DecideLien(appels[k].op, f, id)
  }

  /** Some reclassification of the run goes through and takes the row. */
  predicate Emportee(s: Base, appels: seq<Appel>, f: Famille, id: nat)
    decreases |appels|
  {
    appels != [] && (Emporte(s, appels[0].op, f, id) || Emportee(Suivante(s, appels[0]), appels[1..], f, id))
  }

  /** Over every run of record, resolve, link, correct and reclassify calls that takes no other
      decision on the row, a human link is unchanged at the end, unless a reclassification of
      the run took the row, and then the row is gone. */
  lemma {:induction false} LienHumainPerdure(s: Base, appels: seq<Appel>, f: Famille, id: nat)
    requires LieParHumain(s.TableDe(f), id) && SansDecision(appels, f, id)
    ensures var t' := Executer(s, appels).TableDe(f);
            if Emportee(s, appels, f, id) then !Vivante(t', id)
            else LieParHumain(t', id) && t'[id].value.lien == s.TableDe(f)[id].value.lien
    decreases |appels|
  {
    if appels != [] {
      var m := Suivante(s, appels[0]);
      assert !DecideLien(appels[0].op, f, id);
      LienHumainProtege(appels[0].ref, s, appels[0].op, appels[0].instant, f, id);
      if Emporte(s, appels[0].op, f, id) {
        EmporteSupprime(s, appels[0], f, id);
        SupprimeePourToujours(m, appels[1..], f, id);
      } else {
        LienHumainPerdure(m, appels[1..], f, id);
      }
    }
  }

  lemma {:induction false} JamaisEmporteeSansReclassement(s: Base, appels: seq<Appel>, f: Famille, id: nat)
    requires forall k :: 0 <= k < |appels| ==> !appels[k].op.OpReclasser?
    ensures !Emportee(s, appels, f, id)
    decreases |appels|
  {
    if appels != [] { JamaisEmporteeSansReclassement(Suivante(s, appels[0]), appels[1..], f, id); }
  }

  /** In particular every human link survives every run of record, resolve, link and correct calls. */
  lemma LienHumainSansReclassement(s: Base, appels: seq<Appel>, f: Famille, id: nat)
    requires LieParHumain(s.TableDe(f), id) && SansDecision(appels, f, id)
    requires forall k :: 0 <= k < |appels| ==> !appels[k].op.OpReclasser?
    ensures var t' := Executer(s, appels).TableDe(f);
            LieParHumain(t', id) && t'[id].value.lien == s.TableDe(f)[id].value.lien
  {
    JamaisEmporteeSansReclassement(s, appels, f, id);
    LienHumainPerdure(s, appels, f, id);
  }

  predicate Corrigee(s: Base, f: Famille, id: nat) {
    exists k :: 0 <= k < |s.corrections| && s.corrections[k].famille == f && s.corrections[k].id == id
  }

  /** A corrected row is never taken, whatever the run. */
  lemma {:induction false} CorrigeeJamaisEmportee(s: Base, appels: seq<Appel>, f: Famille, id: nat)
    requires Corrigee(s, f, id)
    ensures !Emportee(s, appels, f, id)
    decreases |appels|
  {
    if appels != [] {
      var m := Suivante(s, appels[0]);
      CorrectionsConservees(appels[0].ref, s, appels[0].op, appels[0].instant);
      var k :| 0 <= k < |s.corrections| && s.corrections[k].famille == f && s.corrections[k].id == id;
      assert m.corrections[k] == s.corrections[k];
      CorrigeeJamaisEmportee(m, appels[1..], f, id);
    }
  }

  /** Over every run without a further decision on it, a human link whose row carries a
      correction is still there, unchanged, at the end. */
  lemma LienHumainCorrigePerdure(s: Base, appels: seq<Appel>, f: Famille, id: nat)
    requires LieParHumain(s.TableDe(f), id) && Corrigee(s, f, id) && SansDecision(appels, f, id)
    ensures var t' := Executer(s, appels).TableDe(f);
            LieParHumain(t', id) && t'[id].value.lien == s.TableDe(f)[id].value.lien
  {
    CorrigeeJamaisEmportee(s, appels, f, id);
    LienHumainPerdure(s, appels, f, id);
  }

  /** Without a correction the protection stops: a reclassification drops a human link. */
  lemma LienHumainSansCorrectionPerdu()
    ensures var lien := Lien(Some(1), LieHumain, Some(Humain), Some(0), Some(9));
            var l := Ligne("fiche:7:v", None, Some(7), None, None, None, "v", None, map[], lien);
            var e := Extraction("fiche:7:w", None, Some(7), None, None, None, "w", None, map[], "");
            var s := Base([Some(l)], [], [], map[7 := Voile]);
            && Saine(s) && LieParHumain(s.voiles, 0)
            && !Vivante(Etape(Referentiel(map[], map[], {}), s, OpReclasser(7, Accessoire, e), 1).voiles, 0)
  {
  }

  /** A reclassification that goes through leaves the fiche exactly one family: no row
      in the old table, a row in the new one. */
  lemma ReclassementDeplace(ref: Referentiel, s: Base, fiche: int, categorie: Famille, nouvelle: Extraction, maintenant: int)
    requires fiche in s.categories && s.categories[fiche] != categorie && !PorteCorrection(s, s.categories[fiche], fiche)
    ensures var s' := ChangerCategorie(ref, s, fiche, categorie, nouvelle, maintenant);
            && s'.categories == s.categories[fiche := categorie]
            && (forall i: nat :: !DeFiche(s'.TableDe(s.categories[fiche]), i, fiche))
            && (exists i: nat :: DeFiche(s'.TableDe(categorie), i, fiche))
  {
    var f := s.categories[fiche];
    var s' := ChangerCategorie(ref, s, fiche, categorie, nouvelle, maintenant);
    var e := Completer(categorie, nouvelle.(fiche := Some(fiche)), PremiereDeFiche(s.TableDe(f), fiche));
    var i := Enregistrer(categorie, ref, s.TableDe(categorie), e, maintenant).1;
    assert e.fiche == Some(fiche);
    assert DeFiche(s'.TableDe(categorie), i, fiche);
    forall i: nat ensures !DeFiche(s'.TableDe(f), i, fiche) {
      assert s'.TableDe(f) == SupprimerFiche(s.TableDe(f), fiche);
    }
  }

  // ---------------------------------------------------------------------------
  // Which identities a recording changes
  // ---------------------------------------------------------------------------

  predicate EcritLigne(f: Famille, t: Table, e: Extraction, id: nat) { ParCle(t, CleEffective(f, t, e)) == id }

  /** The row a recording writes, as a caller can tell it beforehand: the one an identity finds,
      else the one that has the key. */
  predicate Vise(f: Famille, t: Table, e: Extraction, id: nat) {
    && Vivante(t, id)
    && var trouvee := if AIdentite(e) then Chercher(f, t, e, |t|) else None;
       if trouvee.Some? then trouvee.value == id
       else t[id].value.cle == if e.cle == "" then CleIdempotence(e) else e.cle
  }

  lemma EcritSsiVise(f: Famille, t: Table, e: Extraction, id: nat)
    requires ClesUniques(t) && Vivante(t, id)
    ensures EcritLigne(f, t, e, id) <==> Vise(f, t, e, id)
  {
    if t[id].value.cle == CleEffective(f, t, e) { ParCleUnique(t, CleEffective(f, t, e), id); }
  }

  /** A column changes exactly when the recording writes that row, brings another value, and
      is for an accessory or brings a value at all: a sail keeps what it is not given, and
      both families replace what they are. */
  ghost predicate ChangeSsi<T>(f: Famille, vise: bool, avant: Option<T>, recue: Option<T>, apres: Option<T>) {
    && (apres != avant <==> vise && recue != avant && (f.Accessoire? || recue.Some?))
    && (apres != avant ==> apres == recue)
  }

  /** The exact effect of a recording on the identities of every row, for both families. */
  lemma IdentiteChangeSsi(f: Famille, ref: Referentiel, t: Table, e: Extraction, maintenant: int, id: nat)
    requires Vivante(t, id)
    ensures var t' := Enregistrer(f, ref, t, e, maintenant).0;
            && Vivante(t', id) && t'[id].value.cle == t[id].value.cle
            && ChangeSsi(f, EcritLigne(f, t, e, id), t[id].value.document, e.document, t'[id].value.document)
            && ChangeSsi(f, EcritLigne(f, t, e, id), t[id].value.fiche, e.fiche, t'[id].value.fiche)
            && ChangeSsi(f, EcritLigne(f, t, e, id), t[id].value.empreinte, e.empreinte, t'[id].value.empreinte)
  {
  }

  /** So a sail column that is filled stays filled, though perhaps with another value. */
  lemma IdentitesVoileConservees(ref: Referentiel, t: Table, e: Extraction, maintenant: int, id: nat)
    requires Vivante(t, id)
    ensures var l' := Enregistrer(Voile, ref, t, e, maintenant).0[id];
            && l'.Some? && l'.value.cle == t[id].value.cle
            && (t[id].value.document.Some? ==> l'.value.document.Some?)
            && (t[id].value.fiche.Some? ==> l'.value.fiche.Some?)
            && (t[id].value.empreinte.Some? ==> l'.value.empreinte.Some?)
  {
    IdentiteChangeSsi(Voile, ref, t, e, maintenant, id);
  }

  /** An identity of a row is lost, by overwriting or by emptying, exactly when the lookup lands
      on that row (or its key is met) with another value, an absent one counting for accessories only. */
  lemma IdentitePerdueSsi(f: Famille, ref: Referentiel, t: Table, e: Extraction, maintenant: int, id: nat)
    requires ClesUniques(t) && Vivante(t, id)
    ensures var l, l' := t[id].value, Enregistrer(f, ref, t, e, maintenant).0[id];
            && l'.Some?
            && ChangeSsi(f, Vise(f, t, e, id), l.document, e.document, l'.value.document)
            && ChangeSsi(f, Vise(f, t, e, id), l.fiche, e.fiche, l'.value.fiche)
            && ChangeSsi(f, Vise(f, t, e, id), l.empreinte, e.empreinte, l'.value.empreinte)
  {
    EcritSsiVise(f, t, e, id);
    IdentiteChangeSsi(f, ref, t, e, maintenant, id);
  }

  /** An accessory found again by its fiche forgets its document. */
  lemma IdentiteAccessoireOubliee()
    ensures var l := Ligne("fiche:7:v", Some(3), Some(7), None, None, None, "v", None, map[], LIEN_INITIAL);
            var e := Extraction("", None, Some(7), None, None, None, "v", None, map[], "");
            var (t', i) := Enregistrer(Accessoire, Referentiel(map[], map[], {}), [Some(l)], e, 0);
            i == 0 && t'[0].value.document == None
  {
    var l := Ligne("fiche:7:v", Some(3), Some(7), None, None, None, "v", None, map[], LIEN_INITIAL);
    var e := Extraction("", None, Some(7), None, None, None, "v", None, map[], "");
    assert CorrespondEn([Some(l)], 0, e);
  }

  /** A sail found again by its fiche takes the new document for the one it knew. */
  lemma IdentiteVoileRemplacee()
    ensures var l := Ligne("fiche:7:v", Some(3), Some(7), None, None, None, "v", None, map[], LIEN_INITIAL);
            var e := Extraction("", Some(4), Some(7), None, None, None, "v", None, map[], "");
            var (t', i) := Enregistrer(Voile, Referentiel(map[], map[], {}), [Some(l)], e, 0);
            i == 0 && t'[0].value.document == Some(4)
  {
    var l := Ligne("fiche:7:v", Some(3), Some(7), None, None, None, "v", None, map[], LIEN_INITIAL);
    var e := Extraction("", Some(4), Some(7), None, None, None, "v", None, map[], "");
    assert CorrespondEn([Some(l)], 0, e);
  }

  // ---------------------------------------------------------------------------
  // What each call writes, column by column
  // ---------------------------------------------------------------------------

  /** The link the automatic decision gives a row with these label and fiche. */
  ghost predicate LienDecide(ref: Referentiel, brut: Option<string>, fiche: Option<int>, t: int, lien: Lien) {
    && lien.liePar == None
    && lien.lieLe == (if lien.modele.Some? then Some(t) else None)
    && exists libelle :: LibelleDe(brut, libelle) && (libelle != "" ==> !Blanc(libelle[0]) && !Blanc(libelle[|libelle| - 1]))
                         && Preuve(ref, libelle, fiche, lien.statut, lien.modele, lien.methode)
  }

  /** The automatic decision never touches a human link, and touches the link only. */
  lemma ResolutionEcrite(ref: Referentiel, l: Ligne, t: int)
    ensures var l' := Resoudre(ref, l, t);
            && l' == l.(lien := l'.lien)
            && (l.lien.statut.LieHumain? ==> l'.lien == l.lien)
            && (!l.lien.statut.LieHumain? ==> LienDecide(ref, l.brut, l.fiche, t, l'.lien))
  {
    hide Preuve, LibelleDe;
    var libelle := DecisionDesPreuves(ref, l.brut, l.fiche);
  }

  /** Where the lookup of a recording lands: same version and one identity; the strongest
      evidence for a sail, the oldest row among equals. */
  ghost predicate Reconnue(t: Table, i: nat, e: Extraction) {
    && i < |t| && t[i].Some? && t[i].value.version == e.version
    && (|| (e.document.Some? && t[i].value.document == e.document)
        || (e.fiche.Some? && t[i].value.fiche == e.fiche)
        || (e.empreinte.Some? && t[i].value.empreinte == e.empreinte))
  }

  ghost predicate MieuxReconnue(f: Famille, t: Table, i: nat, j: nat, e: Extraction)
    requires Reconnue(t, i, e) && Reconnue(t, j, e)
  {
    if f.Accessoire? then i <= j
    else
      var d, d' := e.document.Some? && t[i].value.document == e.document, e.document.Some? && t[j].value.document == e.document;
      var p, p' := e.fiche.Some? && t[i].value.fiche == e.fiche, e.fiche.Some? && t[j].value.fiche == e.fiche;
      (d && !d') || (d == d' && (d || p == p') && i <= j) || (!d && !d' && p && !p')
  }

  lemma RechercheEcrite(f: Famille, t: Table, e: Extraction)
    ensures var r := Chercher(f, t, e, |t|);
            && (r.Some? <==> exists i: nat :: Reconnue(t, i, e))
            && (r.Some? ==> Reconnue(t, r.value, e) && forall j: nat :: Reconnue(t, j, e) ==> MieuxReconnue(f, t, r.value, j, e))
  {
    forall i: nat ensures CorrespondEn(t, i, e) <==> Reconnue(t, i, e) {}
    var r := Chercher(f, t, e, |t|);
    if r.Some? {
      forall j: nat | Reconnue(t, j, e) ensures MieuxReconnue(f, t, r.value, j, e) { assert CorrespondEn(t, j, e); }
    }
  }

  function Garde<T>(recue: Option<T>, avant: Option<T>): Option<T> { if recue == None then avant else recue }

  /** A recording writes one row. A sail keeps what it is not given; an accessory takes every
      column; the raw label and the data are always those recorded; the link is the human one the
      row had, or the one decided on the new label. */
  ghost predicate LigneEnregistree(f: Famille, ref: Referentiel, avant: Option<Ligne>, e: Extraction, t: int, l: Ligne) {
    && l.brut == e.brut && l.donnees == e.donnees
    && (match avant
        case None =>
          && l.document == e.document && l.fiche == e.fiche && l.empreinte == e.empreinte
          && l.code == e.code && l.nomFichier == e.nomFichier && l.version == e.version
        case Some(a) =>
          && l.cle == a.cle
          && (f.Voile? ==>
                && l.document == Garde(e.document, a.document) && l.fiche == Garde(e.fiche, a.fiche)
                && l.empreinte == Garde(e.empreinte, a.empreinte) && l.code == Garde(e.code, a.code)
                && l.nomFichier == Garde(e.nomFichier, a.nomFichier) && l.version == a.version)
          && (f.Accessoire? ==>
                && l.document == e.document && l.fiche == e.fiche && l.empreinte == e.empreinte
                && l.code == e.code && l.nomFichier == e.nomFichier && l.version == e.version))
    && if avant.Some? && avant.value.lien.statut.LieHumain? then l.lien == avant.value.lien
       else LienDecide(ref, l.brut, l.fiche, t, l.lien)
  }

  lemma EnregistrementEcrit(f: Famille, ref: Referentiel, t: Table, e: Extraction, maintenant: int)
    ensures var (t', i) := Enregistrer(f, ref, t, e, maintenant);
            && i <= |t| && |t'| == (if i < |t| then |t| else |t| + 1)
            && (forall j :: 0 <= j < |t| && j != i ==> t'[j] == t[j])
            && (i < |t| ==> t[i].Some?) && t'[i].Some?
            && LigneEnregistree(f, ref, if i < |t| then t[i] else None, e, maintenant, t'[i].value)
  {
    hide LienDecide, Resoudre;
    var (u, i) := Upsert(f, t, e);
    ResolutionEcrite(ref, u[i].value, maintenant);
  }

  /** A human link stores the chosen model, its author and its date, on that row alone. */
  lemma LiaisonEcrite(ref: Referentiel, s: Base, op: Operation, t: int)
    requires op.OpLier?
    ensures var s' := Etape(ref, s, op, t);
            if Vivante(s.TableDe(op.famille), op.id) && op.cible.Some? then
              var avant, apres := s.TableDe(op.famille), s'.TableDe(op.famille);
              && |apres| == |avant| && (forall j :: 0 <= j < |avant| && j != op.id ==> apres[j] == avant[j])
              && apres[op.id].Some? && apres[op.id].value == avant[op.id].value.(lien := apres[op.id].value.lien)
              && LienDeLappel(op, t, apres[op.id].value.lien)
              && s' == s.Avec(op.famille, apres)
            else s' == s
  {
  }

  /** The link a linking call writes. */
  ghost predicate LienDeLappel(op: Operation, t: int, lien: Lien) {
    && op.OpLier? && op.cible.Some?
    && lien.modele.Some? && lien.modele.value == op.cible.value
    && lien.statut.LieHumain?
    && lien.methode == (if op.nouveau then Some(HumainNouveauModele) else Some(Humain))
    && lien.lieLe == Some(t) && lien.liePar == Some(op.auteur)
  }

  /** A call that links row `id` of family `f` to some model. */
  predicate Lie(op: Operation, f: Famille, id: nat) { op.OpLier? && op.famille == f && op.id == id && op.cible.Some? }

  /** A link becomes human by a linking call only. */
  lemma HumainVientDeLier(s: Base, a: Appel, f: Famille, id: nat)
    requires LieParHumain(Suivante(s, a).TableDe(f), id) && !Lie(a.op, f, id)
    ensures LieParHumain(s.TableDe(f), id) && s.TableDe(f)[id].value.lien == Suivante(s, a).TableDe(f)[id].value.lien
  {
    hide Resoudre, Enregistrer, Completer;
    match a.op
    case OpEnregistrer(g, e) =>
      EnregistreHumain(g, a.ref, s.TableDe(g), e, a.instant, id);
    case OpReclasser(fiche, categorie, nouvelle) =>
      if fiche in s.categories && s.categories[fiche] != categorie {
        var e := Completer(categorie, nouvelle.(fiche := Some(fiche)), PremiereDeFiche(s.TableDe(s.categories[fiche]), fiche));
        EnregistreHumain(categorie, a.ref, s.TableDe(categorie), e, a.instant, id);
      }
    case OpResoudre(g, i) =>
      if Vivante(s.TableDe(g), i) { ResoudreJamaisHumain(a.ref, s.TableDe(g)[i].value, a.instant); }
    case OpCorriger(g, i, champ, valeur, derivees, auteur) =>
      if Vivante(s.TableDe(g), i) && valeur.Some? {
        ResoudreJamaisHumain(a.ref, s.TableDe(g)[i].value.(brut := valeur.value, lien := LIEN_INITIAL), a.instant);
      }
    case _ =>
  }

  lemma ResoudreJamaisHumain(ref: Referentiel, l: Ligne, t: int)
    ensures Resoudre(ref, l, t).lien.statut.LieHumain? ==> Resoudre(ref, l, t) == l && l.lien.statut.LieHumain?
  {
  }

  lemma EnregistreHumain(f: Famille, ref: Referentiel, t: Table, e: Extraction, maintenant: int, id: nat)
    ensures var t' := Enregistrer(f, ref, t, e, maintenant).0;
            LieParHumain(t', id) ==> LieParHumain(t, id) && t[id].value.lien == t'[id].value.lien
  {
    ResoudreJamaisHumain(ref, Upsert(f, t, e).0[Upsert(f, t, e).1].value, maintenant);
  }

  ghost predicate DernierLien(appels: seq<Appel>, f: Famille, id: nat, lien: Lien) {
    exists k :: 0 <= k < |appels| && Lie(appels[k].op, f, id) && LienDeLappel(appels[k].op, appels[k].instant, lien)
                && forall j :: k < j < |appels| ==> !Lie(appels[j].op, f, id)
  }

  ghost predicate AucunLien(appels: seq<Appel>, f: Famille, id: nat) { forall k :: 0 <= k < |appels| ==> !Lie(appels[k].op, f, id) }

  lemma DernierLienSuite(a: Appel, reste: seq<Appel>, f: Famille, id: nat, lien: Lien)
    requires DernierLien(reste, f, id, lien)
    ensures DernierLien([a] + reste, f, id, lien)
  {
    hide LienDeLappel;
    var appels := [a] + reste;
    var k :| 0 <= k < |reste| && Lie(reste[k].op, f, id) && LienDeLappel(reste[k].op, reste[k].instant, lien)
             && forall j :: k < j < |reste| ==> !Lie(reste[j].op, f, id);
    assert appels[k + 1] == reste[k];
    forall j | k + 1 < j < |appels| ensures !Lie(appels[j].op, f, id) { assert appels[j] == reste[j - 1]; }
  }

  lemma PremierLien(a: Appel, reste: seq<Appel>, f: Famille, id: nat, lien: Lien)
    requires AucunLien(reste, f, id)
    ensures !Lie(a.op, f, id) ==> AucunLien([a] + reste, f, id)
    ensures Lie(a.op, f, id) && LienDeLappel(a.op, a.instant, lien) ==> DernierLien([a] + reste, f, id, lien)
  {
    hide LienDeLappel;
    var appels := [a] + reste;
    forall j | 0 < j < |appels| ensures !Lie(appels[j].op, f, id) { assert appels[j] == reste[j - 1]; }
    assert appels[0] == a;
  }

  /** The link of row `id` after the call. */
  lemma LienApres(s: Base, a: Appel, f: Famille, id: nat)
    requires LieParHumain(Suivante(s, a).TableDe(f), id)
    ensures var lien := Suivante(s, a).TableDe(f)[id].value.lien;
            if Lie(a.op, f, id) && Vivante(s.TableDe(f), id) then LienDeLappel(a.op, a.instant, lien)
            else !Lie(a.op, f, id) && LieParHumain(s.TableDe(f), id) && s.TableDe(f)[id].value.lien == lien
  {
    if Lie(a.op, f, id) {
      LiaisonEcrite(a.ref, s, a.op, a.instant);
    } else {
      HumainVientDeLier(s, a, f, id);
    }
  }

  /** Over every run, a row linked by a human carries the model, the author and the date of the
      last linking call on it; with no such call, the human link it started with. */
  lemma {:induction false} LienDuDernierAppel(s: Base, appels: seq<Appel>, f: Famille, id: nat)
    requires LieParHumain(Executer(s, appels).TableDe(f), id)
    ensures var lien := Executer(s, appels).TableDe(f)[id].value.lien;
            || (LieParHumain(s.TableDe(f), id) && s.TableDe(f)[id].value.lien == lien && AucunLien(appels, f, id))
            || DernierLien(appels, f, id, lien)
    decreases |appels|
  {
    if appels != [] {
      hide DernierLien, LienDeLappel, Lie, Suivante;
      var a, m, reste := appels[0], Suivante(s, appels[0]), appels[1..];
      var lien := Executer(s, appels).TableDe(f)[id].value.lien;
      assert appels == [a] + reste;
      LienDuDernierAppel(m, reste, f, id);
      if DernierLien(reste, f, id, lien) {
        DernierLienSuite(a, reste, f, id, lien);
      } else {
        LienApres(s, a, f, id);
        PremierLien(a, reste, f, id, lien);
      }
    }
  }

  /** What a correction accepts: a live row, a correctable column, a valid value, and for a sail a
      value the column does not have yet. */
  ghost predicate CorrectionRecevable(s: Base, op: Operation)
    requires op.OpCorriger?
  {
    && Vivante(s.TableDe(op.famille), op.id) && op.valeur.Some?
    && (op.famille.Voile? ==>
          && op.champ in {"type_voile", "gamme", "taille_bateau_brute", "slu_m", "sle_m", "sf_m", "shw_m", "spa_m2",
                          "tetiere_m", "poids_kg", "modele_bateau_brut"}
          && var l := s.TableDe(op.famille)[op.id].value;
             if op.champ == "modele_bateau_brut" then l.brut != op.valeur.value
             else op.champ in l.donnees ==> l.donnees[op.champ] != op.valeur.value)
    && (op.famille.Accessoire? ==>
          op.champ in {"type_accessoire", "designation", "matiere", "couleur", "dimensions", "quantite", "longueur_m",
                       "largeur_m", "hauteur_m", "modele_bateau_brut"})
  }

  /** The corrected row: the corrected column holds the corrected value, other columns are as they
      were (short of the measures that a dimensions text implies), and a corrected label drops
      the old link and is decided anew. */
  ghost predicate LigneCorrigee(ref: Referentiel, l: Ligne, op: Operation, t: int, l': Ligne)
    requires op.OpCorriger? && op.valeur.Some?
  {
    if op.champ == "modele_bateau_brut" then
      && l'.brut == op.valeur.value && l' == l.(brut := l'.brut, lien := l'.lien)
      && LienDecide(ref, l'.brut, l'.fiche, t, l'.lien)
    else
      && l' == l.(donnees := l'.donnees)
      && op.champ in l'.donnees && l'.donnees[op.champ] == op.valeur.value
      && forall k :: k != op.champ ==>
           if op.champ == "dimensions" && k in {"longueur_m", "largeur_m", "hauteur_m"} && k in op.derivees
           then k in l'.donnees && l'.donnees[k] == op.derivees[k]
           else (k in l'.donnees <==> k in l.donnees) && (k in l.donnees ==> l'.donnees[k] == l.donnees[k])
  }

  lemma CorrigerEcrit(ref: Referentiel, l: Ligne, op: Operation, t: int)
    requires op.OpCorriger? && op.valeur.Some?
    ensures LigneCorrigee(ref, l, op, t, Corriger(ref, l, op.champ, op.valeur.value, op.derivees, t))
  {
    hide LienDecide, DeciderResolution, Resoudre;
    ResolutionEcrite(ref, l.(brut := op.valeur.value, lien := LIEN_INITIAL), t);
  }

  lemma CorrectionEcrite(ref: Referentiel, s: Base, op: Operation, t: int)
    requires op.OpCorriger?
    ensures var s' := Etape(ref, s, op, t);
            if CorrectionRecevable(s, op) then
              var avant, apres := s.TableDe(op.famille), s'.TableDe(op.famille);
              && |apres| == |avant| && (forall j :: 0 <= j < |avant| && j != op.id ==> apres[j] == avant[j])
              && apres[op.id].Some? && LigneCorrigee(ref, avant[op.id].value, op, t, apres[op.id].value)
              && s'.corrections == s.corrections + [Correction(op.famille, op.id, op.champ, op.valeur.value, op.auteur)]
              && s'.categories == s.categories
              && s'.TableDe(if op.famille.Voile? then Accessoire else Voile) == s.TableDe(if op.famille.Voile? then Accessoire else Voile)
            else s' == s
  {
    hide LigneCorrigee, Corriger;
    if Vivante(s.TableDe(op.famille), op.id) && op.valeur.Some? {
      CorrigerEcrit(ref, s.TableDe(op.famille)[op.id].value, op, t);
    }
  }

  /** Linking the source document touches the rows of that fiche and version, and three columns. */
  lemma DocumentLieEcrit(t: Table, fiche: int, document: int, empreinte: Option<string>, nom: Option<string>, version: string)
    ensures var t' := LierDocument(t, fiche, document, empreinte, nom, version);
            |t'| == |t| && forall i :: 0 <= i < |t| ==>
              if t[i].Some? && t[i].value.fiche == Some(fiche) && t[i].value.version == version then
                && t'[i].Some? && var l, l' := t[i].value, t'[i].value;
                && l' == l.(document := l'.document, empreinte := l'.empreinte, nomFichier := l'.nomFichier)
                && l'.document == Some(document) && l'.empreinte == Garde(empreinte, l.empreinte) && l'.nomFichier == Garde(nom, l.nomFichier)
              else t'[i] == t[i]
  {
  }

  /** What a reclassification accepts: a fiche of the other family whose rows carry no correction. */
  ghost predicate ReclassementRecevable(s: Base, op: Operation)
    requires op.OpReclasser?
  {
    && op.fiche in s.categories && s.categories[op.fiche] != op.categorie
    && forall k :: 0 <= k < |s.corrections| && s.corrections[k].famille == s.categories[op.fiche] ==>
         var t := s.TableDe(s.categories[op.fiche]);
         s.corrections[k].id < |t| && t[s.corrections[k].id].Some? ==> t[s.corrections[k].id].value.fiche != Some(op.fiche)
  }

  /** The oldest row of the fiche, if it has one. */
  ghost predicate PlusAncienne(t: Table, fiche: int, a: Option<Ligne>) {
    if a == None then forall i: nat :: !DeFiche(t, i, fiche)
    else exists i: nat :: DeFiche(t, i, fiche) && t[i] == a && forall j: nat :: j < i ==> !DeFiche(t, j, fiche)
  }

  /** The extraction a reclassification records: the rebuilt one, whose missing label, code,
      document, digest and file name are those of the old row. */
  ghost predicate Reconstruite(op: Operation, a: Option<Ligne>, e: Extraction)
    requires op.OpReclasser?
  {
    var n := op.nouvelle;
    && e.fiche == Some(op.fiche) && e.version == n.version && e.donnees == n.donnees && e.contenu == n.contenu
    && (match a
        case None =>
          && e.code == n.code && e.document == n.document && e.empreinte == n.empreinte && e.nomFichier == n.nomFichier
          && e.brut == n.brut && e.cle == n.cle
        case Some(l) =>
          && e.code == (if n.code in {None, Some("")} then l.code else n.code)
          && e.document == (if n.document in {None, Some(0)} then l.document else n.document)
          && e.empreinte == (if n.empreinte in {None, Some("")} then l.empreinte else n.empreinte)
          && e.nomFichier == (if n.nomFichier in {None, Some("")} then l.nomFichier else n.nomFichier)
          && e.brut == (if n.brut in {None, Some("")} && l.brut !in {None, Some("")} then l.brut else n.brut)
          && e.cle == (if op.categorie.Accessoire? then CleIdempotence(e) else n.cle))
  }

  lemma {:induction false} PremiereDeFicheEcrite(t: Table, fiche: int)
    ensures PlusAncienne(t, fiche, PremiereDeFiche(t, fiche))
  {
    if t != [] && !DeFiche(t, 0, fiche) {
      PremiereDeFicheEcrite(t[1..], fiche);
      forall i: nat ensures DeFiche(t, i + 1, fiche) <==> DeFiche(t[1..], i, fiche) {}
      forall i: nat ensures i > 0 ==> (DeFiche(t, i, fiche) <==> DeFiche(t[1..], i - 1, fiche)) {}
      if PremiereDeFiche(t, fiche) != None {
        var i: nat :| DeFiche(t[1..], i, fiche) && t[1..][i] == PremiereDeFiche(t, fiche) && forall j: nat :: j < i ==> !DeFiche(t[1..], j, fiche);
        assert DeFiche(t, i + 1, fiche) && t[i + 1] == PremiereDeFiche(t, fiche);
      }
    }
  }

  lemma CompleterEcrit(op: Operation, a: Option<Ligne>)
    requires op.OpReclasser?
    ensures Reconstruite(op, a, Completer(op.categorie, op.nouvelle.(fiche := Some(op.fiche)), a))
  {
    hide Decimal;
  }

  /** A reclassification empties the old family of the fiche, keeps its other rows and every
      correction, and records the completed extraction in the new family; or nothing changes. */
  lemma ReclassementEcrit(ref: Referentiel, s: Base, op: Operation, t: int) returns (ancienne: Option<Ligne>, e: Extraction)
    requires op.OpReclasser?
    ensures var s' := Etape(ref, s, op, t);
            if ReclassementRecevable(s, op) then
              var f := s.categories[op.fiche];
              var avant, apres := s.TableDe(f), s'.TableDe(f);
              && |apres| == |avant|
              && (forall i :: 0 <= i < |avant| ==>
                    apres[i] == if avant[i].Some? && avant[i].value.fiche == Some(op.fiche) then None else avant[i])
              && PlusAncienne(avant, op.fiche, ancienne) && Reconstruite(op, ancienne, e)
              && s'.TableDe(op.categorie) == Enregistrer(op.categorie, ref, s.TableDe(op.categorie), e, t).0
              && s'.categories == s.categories[op.fiche := op.categorie] && s'.corrections == s.corrections
            else s' == s
  {
    hide Reconstruite, PlusAncienne, PremiereDeFiche, Completer, Enregistrer;
    ancienne, e := None, op.nouvelle;
    if ReclassementRecevable(s, op) {
      var avant := s.TableDe(s.categories[op.fiche]);
      ancienne := PremiereDeFiche(avant, op.fiche);
      e := Completer(op.categorie, op.nouvelle.(fiche := Some(op.fiche)), ancienne);
      PremiereDeFicheEcrite(avant, op.fiche);
      CompleterEcrit(op, ancienne);
      CascadeVide(s.corrections, s.categories[op.fiche], avant, op.fiche);
    }
  }

  // ---------------------------------------------------------------------------
  // What the idempotence key tells apart
  // ---------------------------------------------------------------------------

  datatype Identite = ParDocument | ParFiche | ParEmpreinte | ParCode | ParContenu

  /** The identity that names an extraction: the first it has. */
  ghost function IdentiteDe(e: Extraction): Identite {
    if e.document != None then ParDocument
    else if e.fiche != None then ParFiche
    else if e.empreinte != None && e.empreinte != Some("") then ParEmpreinte
    else if e.code != None && e.code != Some("") then ParCode
    else ParContenu
  }

  lemma ChiffreOrdinaire(n: nat)
    requires n < 10
    ensures Chiffre(n) != ':' && Chiffre(n) != '-'
  {
  }

  lemma {:induction false} DecimalSansDeuxPoints(n: int)
    ensures ':' !in Decimal(n) && Decimal(n) != ""
    decreases n < 0, if n < 0 then -n else n
  {
    hide Chiffre;
    if n < 0 {
      DecimalSansDeuxPoints(-n);
    } else {
      ChiffreOrdinaire(n % 10);
      if n >= 10 { DecimalSansDeuxPoints(n / 10); }
    }
  }

  lemma {:induction false} DecimalPositif(n: nat)
    ensures Decimal(n)[0] != '-'
    ensures Decimal(n) != ""
  {
    if n >= 10 { DecimalPositif(n / 10); }
  }

  lemma {:induction false} DecimalInjectifNat(m: nat, n: nat)
    requires Decimal(m) == Decimal(n)
    ensures m == n
    decreases m
  {
    DecimalPositif(m / 10);
    DecimalPositif(n / 10);
    if m >= 10 && n >= 10 {
      var a, b := Decimal(m / 10), Decimal(n / 10);
      assert a == (a + [Chiffre(m % 10)])[..|a|] && b == (b + [Chiffre(n % 10)])[..|b|];
      assert Decimal(m)[|Decimal(m)| - 1] == Chiffre(m % 10) && Decimal(n)[|Decimal(n)| - 1] == Chiffre(n % 10);
      DecimalInjectifNat(m / 10, n / 10);
    }
  }

  lemma DecimalNegatif(n: int)
    ensures n < 0 ==> Decimal(n) != "" && Decimal(n)[0] == '-' && Decimal(n)[1..] == Decimal(-n)
  {
  }

  lemma DecimalInjectif(m: int, n: int)
    requires Decimal(m) == Decimal(n)
    ensures m == n
  {
    if m >= 0 { DecimalPositif(m); }
    if n >= 0 { DecimalPositif(n); }
    DecimalNegatif(m);
    DecimalNegatif(n);
    hide Decimal;
    if m < 0 && n < 0 {
      DecimalInjectifNat(-m, -n);
    } else if m >= 0 && n >= 0 {
      DecimalInjectifNat(m, n);
    }
  }

  lemma AvantDeuxPoints(a: string, b: string, v: string, w: string)
    ensures ':' !in b && a + ":" + v == b + ":" + w ==> |b| <= |a|
  {
    if |a| < |b| {
      assert (a + ":" + v)[|a|] == ':';
      assert (b + ":" + w)[|a|] == b[|a|];
    }
  }

  /** A text cut at its first colon is cut in one way. */
  lemma PremierDeuxPoints(a: string, b: string, v: string, w: string)
    requires ':' !in a && ':' !in b && a + ":" + v == b + ":" + w
    ensures a == b && v == w
  {
    AvantDeuxPoints(a, b, v, w);
    AvantDeuxPoints(b, a, w, v);
    assert (a + ":" + v)[..|a|] == a && (b + ":" + w)[..|b|] == b;
    assert (a + ":" + v)[|a| + 1..] == v && (b + ":" + w)[|b| + 1..] == w;
  }

  lemma MemeFin(a: string, b: string, v: string)
    requires a + v == b + v
    ensures a == b
  {
    assert |a| == |b| && (a + v)[..|a|] == a && (b + v)[..|b|] == b;
  }

  function Mot(i: Identite): string {
    match i
    case ParDocument => "document"
    case ParFiche => "fiche"
    case ParEmpreinte => "sha256"
    case ParCode => "code"
    case ParContenu => "contenu"
  }

  lemma MotsDistincts(i: Identite, j: Identite)
    ensures ':' !in Mot(i)
    ensures Mot(i) == Mot(j) ==> i == j
  {
    assert Mot(i)[|Mot(i)| - 1] == Mot(j)[|Mot(j)| - 1] && |Mot(i)| == |Mot(j)| ==> i == j;
  }

  lemma CleDecoupee(e: Extraction) returns (reste: string)
    ensures CleIdempotence(e) == Mot(IdentiteDe(e)) + ":" + reste
    ensures IdentiteDe(e) == ParDocument ==> reste == Decimal(e.document.value) + ":" + e.version
    ensures IdentiteDe(e) == ParFiche ==> reste == Decimal(e.fiche.value) + ":" + e.version
    ensures IdentiteDe(e) == ParEmpreinte ==> reste == e.empreinte.value + (":" + e.version)
    ensures IdentiteDe(e) == ParContenu ==> reste == e.contenu + (":" + e.version)
  {
    hide Decimal;
    var mot := Mot(IdentiteDe(e)) + ":";
    assert CleIdempotence(e)[..|mot|] == mot;
    reste := CleIdempotence(e)[|mot|..];
  }

  /** Extractions under one key are named by the same kind of identity; by a document or a fiche,
      they have the same one and the same version, and at one version the same digest or content. */
  lemma MemeCleMemeIdentite(a: Extraction, b: Extraction)
    requires CleIdempotence(a) == CleIdempotence(b)
    ensures IdentiteDe(a) == IdentiteDe(b)
    ensures IdentiteDe(a) == ParDocument ==> a.document == b.document && a.version == b.version
    ensures IdentiteDe(a) == ParFiche ==> a.fiche == b.fiche && a.version == b.version
    ensures IdentiteDe(a) == ParEmpreinte && a.version == b.version ==> a.empreinte == b.empreinte
    ensures IdentiteDe(a) == ParContenu && a.version == b.version ==> a.contenu == b.contenu
  {
    hide CleIdempotence, Decimal, Mot;
    var i, j := IdentiteDe(a), IdentiteDe(b);
    var reste := CleDecoupee(a);
    var reste' := CleDecoupee(b);
    MotsDistincts(i, j);
    MotsDistincts(j, i);
    PremierDeuxPoints(Mot(i), Mot(j), reste, reste');
    match i
    case ParDocument => NumeroEtVersion(a.document.value, b.document.value, a.version, b.version);
    case ParFiche => NumeroEtVersion(a.fiche.value, b.fiche.value, a.version, b.version);
    case ParEmpreinte => if a.version == b.version { MemeFin(a.empreinte.value, b.empreinte.value, ":" + a.version); }
    case ParCode =>
    case ParContenu => if a.version == b.version { MemeFin(a.contenu, b.contenu, ":" + a.version); }
  }

  lemma NumeroEtVersion(m: int, n: int, v: string, w: string)
    requires Decimal(m) + ":" + v == Decimal(n) + ":" + w
    ensures m == n && v == w
  {
    hide Decimal;
    DecimalSansDeuxPoints(m);
    DecimalSansDeuxPoints(n);
    PremierDeuxPoints(Decimal(m), Decimal(n), v, w);
    DecimalInjectif(m, n);
  }

  lemma UpsertPuisResoudre(ref: Referentiel, s: Base, f: Famille, e: Extraction, maintenant: int)
    ensures var (t, i) := Upsert(f, s.TableDe(f), e);
            Etape(ref, s.Avec(f, t), OpResoudre(f, i), maintenant) == Etape(ref, s, OpEnregistrer(f, e), maintenant)
  {
  }

  // ---------------------------------------------------------------------------
  // The services, writing the tables step by step
  // ---------------------------------------------------------------------------

  class Registre {
    var voiles: Table
    var accessoires: Table
    var corrections: seq<Correction>
    var categories: map<int, Famille>

    constructor ()
      ensures Etat() == Base([], [], [], map[])
    {
      voiles, accessoires, corrections, categories := [], [], [], map[];
    }

    function Etat(): Base
      reads this
    {
      Base(voiles, accessoires, corrections, categories)
    }

    method Ecrire(f: Famille, t: Table)
      modifies this`voiles, this`accessoires
      ensures Etat() == old(Etat()).Avec(f, t)
    {
      if f.Voile? { voiles := t; } else { accessoires := t; }
    }

    /** The two statements of the upsert: look an identity up, then INSERT ON CONFLICT. */
    method UpsertExtraction(f: Famille, extraction: Extraction) returns (id: nat)
      modifies this`voiles, this`accessoires
      ensures Etat() == old(Etat()).Avec(f, Upsert(f, old(Etat()).TableDe(f), extraction).0)
      ensures id == Upsert(f, old(Etat()).TableDe(f), extraction).1
    {
      var t := Etat().TableDe(f);
      var cle := if extraction.cle == "" then CleIdempotence(extraction) else extraction.cle;
      if extraction.document.Some? || extraction.fiche.Some? || extraction.empreinte.Some? {
        var trouvee := Chercher(f, t, extraction, |t|);
        if trouvee.Some? && t[trouvee.value].value.cle != cle {
          cle := t[trouvee.value].value.cle;
        }
      }
      assert cle == CleEffective(f, t, extraction);
      id := ParCle(t, cle);
      if id < |t| {
        Ecrire(f, t[id := Some(Fusion(f, t[id].value, extraction))]);
      } else {
        Ecrire(f, t + [Some(Inseree(extraction, cle))]);
      }
    }

    method EnregistrerExtraction(ref: Referentiel, f: Famille, extraction: Extraction, maintenant: int) returns (id: nat)
      modifies this`voiles, this`accessoires
      ensures Etat() == Etape(ref, old(Etat()), OpEnregistrer(f, extraction), maintenant)
      ensures id == Enregistrer(f, ref, old(Etat()).TableDe(f), extraction, maintenant).1
    {
      UpsertPuisResoudre(ref, Etat(), f, extraction, maintenant);
      id := UpsertExtraction(f, extraction);
      var resolue := ResoudreLiaison(ref, f, id, maintenant);
    }

    /** Applies the automatic decision, never over a human one; false when the row is unknown. */
    method ResoudreLiaison(ref: Referentiel, f: Famille, id: nat, maintenant: int) returns (connue: bool)
      modifies this`voiles, this`accessoires
      ensures Etat() == Etape(ref, old(Etat()), OpResoudre(f, id), maintenant)
      ensures connue == Vivante(old(Etat()).TableDe(f), id)
    {
      var t := Etat().TableDe(f);
      if id >= |t| || t[id].None? {
        return false;
      }
      if !t[id].value.lien.statut.LieHumain? {
        var (statut, modele, methode) := DeciderResolution(ref, t[id].value.brut, t[id].value.fiche);
        var lieLe := if modele.Some? then Some(maintenant) else None;
        Ecrire(f, t[id := Some(t[id].value.(lien := Lien(modele, statut, methode, lieLe, None)))]);
      }
      assert t[id := t[id]] == t;
      connue := true;
    }

    method LierParHumain(ghost ref: Referentiel, f: Famille, id: nat, cible: Option<int>, nouveau: bool, auteur: nat, maintenant: int) returns (ok: bool)
      modifies this`voiles, this`accessoires
      ensures Etat() == Etape(ref, old(Etat()), OpLier(f, id, cible, nouveau, auteur), maintenant)
      ensures ok == (Vivante(old(Etat()).TableDe(f), id) && cible.Some?)
    {
      var t := Etat().TableDe(f);
      ok := id < |t| && t[id].Some? && cible.Some?;
      if ok {
        Ecrire(f, t[id := Some(Lier(t[id].value, cible.value, nouveau, auteur, maintenant))]);
      }
    }

    method CorrigerChamp(ref: Referentiel, f: Famille, id: nat, champ: string, valeur: Option<Option<string>>, derivees: Donnees,
                         auteur: nat, maintenant: int) returns (ok: bool)
      modifies this`voiles, this`accessoires, this`corrections
      ensures Etat() == Etape(ref, old(Etat()), OpCorriger(f, id, champ, valeur, derivees, auteur), maintenant)
    {
      ok := false;
      if champ !in ChampsCorrigeables(f) || valeur.None? {
        return;
      }
      var t := Etat().TableDe(f);
      if id >= |t| || t[id].None? || Identique(f, t[id].value, champ, valeur.value) {
        return;
      }
      ghost var t0 := t;
      if champ == LIBELLE {
        Ecrire(f, t[id := Some(t[id].value.(brut := valeur.value, lien := LIEN_INITIAL))]);
        var resolue := ResoudreLiaison(ref, f, id, maintenant);
        assert Etat().TableDe(f) == t0[id := Etat().TableDe(f)[id]];
      } else {
        var donnees := t[id].value.donnees + (if champ == "dimensions" then Mesures(derivees) else map[]);
        Ecrire(f, t[id := Some(t[id].value.(donnees := donnees[champ := valeur.value]))]);
      }
      corrections := corrections + [Correction(f, id, champ, valeur.value, auteur)];
      ok := true;
    }

    method ChangerCategorieFiche(ref: Referentiel, fiche: int, categorie: Famille, nouvelle: Extraction, maintenant: int) returns (ok: bool)
      modifies this
      ensures Etat() == Etape(ref, old(Etat()), OpReclasser(fiche, categorie, nouvelle), maintenant)
    {
      if fiche !in categories {
        return false;
      }
      if categories[fiche] == categorie {
        return true;
      }
      var f := categories[fiche];
      if PorteCorrection(Etat(), f, fiche) {
        return false;
      }
      var t := Etat().TableDe(f);
      var e := Completer(categorie, nouvelle.(fiche := Some(fiche)), PremiereDeFiche(t, fiche));
      corrections := Cascade(corrections, f, t, fiche);
      Ecrire(f, SupprimerFiche(t, fiche));
      categories := categories[fiche := categorie];
      var id := EnregistrerExtraction(ref, categorie, e, maintenant);
      ok := true;
    }
  }
}
