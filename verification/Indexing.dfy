/** The indexing run (seamtech_search/cli.py): batching of the walk, pruning of the rows that
    disappeared, rollback on any failure.

    The document table is a map by path key, a string. How one row is refreshed (`maj`), which
    existing rows an upsert leaves alone (`figes`) and which rows may not be deleted (`gardes`)
    belong to the index and are parameters. */
module Indexing {
  import opened Options
  import opened Paths
  import Crawl

  const BATCH_SIZE := 250

  datatype Document = Document(cle: string, contenu: string)

  type Table = map<string, string>

  datatype Regles = Regles(maj: (Option<string>, Document) -> string, figes: set<string>, gardes: set<string>)

  datatype Statut = EnCours | Termine(scanned: nat, changed: nat, removed: nat) | Echoue(scanned: nat, changed: nat)

  datatype Resultat<T> = Ok(value: T) | Leve

  function Cles(docs: seq<Document>): set<string> { set d | d in docs :: d.cle }

  /** `upsert_documents`, one document after another. */
  function Appliquer(regles: Regles, t: Table, docs: seq<Document>): Table {
    if docs == [] then t
    else
      var avant, d := Appliquer(regles, t, docs[..|docs| - 1]), docs[|docs| - 1];
      var ancien := if d.cle in avant then Some(avant[d.cle]) else None;
      if ancien.Some? && d.cle in regles.figes then avant else avant[d.cle := regles.maj(ancien, d)]
  }

  function SansBarreFinale(p: string): string {
    if p != "" && p[|p| - 1] == '/' then SansBarreFinale(p[..|p| - 1]) else p
  }

  /** `_est_protege` for one prefix, as strings. */
  predicate SousPrefixe(cle: string, prefixe: string) {
    var base := if |prefixe| > 1 then SansBarreFinale(prefixe) else prefixe;
    cle == base || base + "/" <= cle
  }

  predicate EstProtege(cle: string, prefixes: set<string>) { exists p :: p in prefixes && SousPrefixe(cle, p) }

  /** `remove_missing` after a complete walk. */
  function Elaguer(regles: Regles, t: Table, vus: set<string>, prefixes: set<string>): Table {
    map k | k in t && (k in vus || EstProtege(k, prefixes) || k in regles.gardes) :: t[k]
  }

  function Concat(lots: seq<seq<Document>>): seq<Document> {
    if lots == [] then [] else Concat(lots[..|lots| - 1]) + lots[|lots| - 1]
  }

  /** Full batches, and a last one that may be shorter; none empty. */
  ghost predicate Decoupes(lots: seq<seq<Document>>) {
    && (forall i :: 0 <= i < |lots| ==> 0 < |lots[i]| <= BATCH_SIZE)
    && (forall i :: 0 <= i < |lots| - 1 ==> |lots[i]| == BATCH_SIZE)
  }

  ghost predicate Pleins(lots: seq<seq<Document>>) { forall i :: 0 <= i < |lots| ==> |lots[i]| == BATCH_SIZE }

  lemma ConcatSuivant(lots: seq<seq<Document>>, lot: seq<Document>)
    ensures Concat(lots + [lot]) == Concat(lots) + lot
  {
    assert (lots + [lot])[..|lots|] == lots;
  }

  /** The index, the walk's log of batches, and the register of scans. */
  class SearchIndex {
    const regles: Regles
    var documents: Table
    var lots: seq<seq<Document>>
    var scans: map<nat, Statut>
    var pannes: nat

    constructor (regles: Regles, documents: Table)
      ensures this.regles == regles && this.documents == documents && lots == [] && scans == map[] && pannes == 0
    {
      this.regles, this.documents := regles, documents;
      lots, scans, pannes := [], map[], 0;
    }

    /** Any call may raise. */
    method Hasard() returns (leve: bool)
      modifies this`pannes
      ensures pannes == old(pannes) + (if leve then 1 else 0)
    {
      leve := *;
      if leve { pannes := pannes + 1; }
    }

    method UpsertDocuments(lot: seq<Document>) returns (r: Resultat<nat>)
      modifies this`documents, this`lots, this`pannes
      ensures pannes == old(pannes) + (if r.Leve? then 1 else 0)
      ensures r.Leve? ==> lots == old(lots)
      ensures r.Ok? ==> lots == old(lots) + [lot] && documents == Appliquer(regles, old(documents), lot) && r.value <= |lot|
    {
      var leve := Hasard();
      if leve {
        documents := *;   // whatever was written before the failure
        return Leve;
      }
      documents := Appliquer(regles, documents, lot);
      lots := lots + [lot];
      var changed: nat := *;
      if changed > |lot| { changed := |lot|; }
      return Ok(changed);
    }

    method RemoveMissing(vus: set<string>, prefixes: set<string>) returns (r: Resultat<nat>)
      modifies this`documents, this`pannes
      ensures pannes == old(pannes) + (if r.Leve? then 1 else 0)
      ensures r.Ok? ==> documents == Elaguer(regles, old(documents), vus, prefixes) && r.value + |documents| == |old(documents)|
    {
      var leve := Hasard();
      if leve {
        documents := *;
        return Leve;
      }
      var apres := Elaguer(regles, documents, vus, prefixes);
      Sousensemble(apres.Keys, documents.Keys);
      r := Ok(|documents| - |apres|);
      documents := apres;
    }

    static lemma Sousensemble(a: set<string>, b: set<string>)
      requires a <= b
      ensures |a| <= |b|
    {
      assert b == a + (b - a);
      assert |b| == |a| + |b - a|;
    }

    /** The batches `faits` have been applied since `lots0` and `table0`. */
    ghost predicate Applique(lots0: seq<seq<Document>>, table0: Table, faits: seq<seq<Document>>)
      reads this
    {
      lots == lots0 + faits && documents == Appliquer(regles, table0, Concat(faits))
    }

    method Verser(lot: seq<Document>, ghost lots0: seq<seq<Document>>, ghost table0: Table, ghost faits: seq<seq<Document>>)
      returns (r: Resultat<nat>)
      requires Applique(lots0, table0, faits)
      modifies this`documents, this`lots, this`pannes
      ensures pannes == old(pannes) + (if r.Leve? then 1 else 0)
      ensures r.Leve? ==> lots == old(lots)
      ensures r.Ok? ==> Applique(lots0, table0, faits + [lot]) && r.value <= |lot| && lots == lots0 + (faits + [lot])
      ensures Concat(faits + [lot]) == Concat(faits) + lot
    {
      LotSuivant(regles, table0, faits, lot);
      r := UpsertDocuments(lot);
      assert lots0 + faits + [lot] == lots0 + (faits + [lot]);
    }

    static lemma LectureSuivante(docs: seq<Document>, i: nat, faits: seq<seq<Document>>, lot: seq<Document>)
      requires i < |docs| && Concat(faits) + lot == docs[..i]
      ensures Concat(faits) + (lot + [docs[i]]) == docs[..i + 1]
      ensures Cles(docs[..i + 1]) == Cles(docs[..i]) + {docs[i].cle}
      ensures Pleins(faits) && |lot| + 1 == BATCH_SIZE ==> Pleins(faits + [lot + [docs[i]]])
    {
      assert docs[..i + 1] == docs[..i] + [docs[i]];
    }

    static lemma Debut(a: seq<Document>, b: seq<Document>, docs: seq<Document>)
      requires a + b == docs
      ensures a <= docs
    {
      assert docs[..|a|] == a;
    }

    /** Consume the walk, flushing every full batch. */
    method Parcourir(docs: seq<Document>, ghost lots0: seq<seq<Document>>, ghost table0: Table)
      returns (r: Resultat<seq<Document>>, vus: set<string>, scanned: nat, changed: nat, ghost faits: seq<seq<Document>>)
      requires Applique(lots0, table0, [])
      modifies this`documents, this`lots, this`pannes
      ensures pannes == old(pannes) + (if r.Leve? then 1 else 0)
      ensures lots == lots0 + faits && Pleins(faits) && Concat(faits) <= docs && scanned <= |docs|
      ensures changed + (if r.Ok? then |r.value| else 0) <= scanned
      ensures r.Ok? ==> Applique(lots0, table0, faits) && |r.value| < BATCH_SIZE && Concat(faits) + r.value == docs
      ensures r.Ok? ==> vus == Cles(docs) && scanned == |docs|
    {
      vus, scanned, changed, faits := {}, 0, 0, [];
      var lot: seq<Document> := [];
      assert Concat(faits) == [] && Cles(docs[..0]) == {} && Pleins([]);
      assert lots == lots0 + faits;
      hide *;
      for i := 0 to |docs|
        invariant pannes == old(pannes) && Applique(lots0, table0, faits) && lots == lots0 + faits
        invariant scanned == i && vus == Cles(docs[..i]) && |lot| < BATCH_SIZE && changed + |lot| <= scanned
        invariant Concat(faits) + lot == docs[..i] && Pleins(faits)
      {
        LectureSuivante(docs, i, faits, lot);
        scanned := scanned + 1;
        vus := vus + {docs[i].cle};
        lot := lot + [docs[i]];
        if |lot| >= BATCH_SIZE {
          var v := Verser(lot, lots0, table0, faits);
          if v.Leve? {
            Debut(Concat(faits), lot, docs[..i + 1]);
            return Leve, vus, scanned, changed, faits;
          }
          changed := changed + v.value;
          faits := faits + [lot];
          lot := [];
        }
      }
      assert docs[..|docs|] == docs;
      Debut(Concat(faits), lot, docs);
      r := Ok(lot);
    }

    /** `_run_index`: the walk, the last batch, then the rows that disappeared. */
    method Consommer(docs: seq<Document>, complet: bool, prefixes: set<string>)
      returns (r: Resultat<nat>, scanned: nat, changed: nat, ghost faits: seq<seq<Document>>)
      modifies this`documents, this`lots, this`pannes
      ensures pannes >= old(pannes) && lots == old(lots) + faits
      ensures scanned <= |docs| && Concat(faits) <= docs && Decoupes(faits)
      ensures r.Ok? ==> complet && scanned == |docs| && Concat(faits) == docs
      ensures r.Ok? ==> documents == Elaguer(regles, Appliquer(regles, old(documents), docs), Cles(docs), prefixes)
      ensures r.Ok? ==> r.value + |documents| == |Appliquer(regles, old(documents), docs)|
      ensures changed <= scanned
      ensures complet && pannes == old(pannes) ==> r.Ok?
    {
      ghost var lots0, table0 := lots, documents;
      assert lots0 + [] == lots0;
      var reste, vus;
      reste, vus, scanned, changed, faits := Parcourir(docs, lots0, table0);
      if reste.Leve? || !complet { return Leve, scanned, changed, faits; }
      if reste.value != [] {
        r := Verser(reste.value, lots0, table0, faits);
        if r.Leve? { return; }
        changed := changed + r.value;
        faits := faits + [reste.value];
      }
      r := RemoveMissing(vus, prefixes);
    }

    /** The scan is recorded as completed, with what was walked and removed. */
    static ghost predicate Enregistre(avant: map<nat, Statut>, scan: nat, scanned: nat, removed: nat, apres: map<nat, Statut>) {
      exists changed: nat :: changed <= scanned && apres == avant[scan := Termine(scanned, changed, removed)]
    }

    static lemma Enregistrer(avant: map<nat, Statut>, scan: nat, scanned: nat, changed: nat, removed: nat)
      requires changed <= scanned
      ensures Enregistre(avant, scan, scanned, removed, avant[scan := EnCours][scan := Termine(scanned, changed, removed)])
    {
      assert avant[scan := EnCours][scan := Termine(scanned, changed, removed)] == avant[scan := Termine(scanned, changed, removed)];
    }

    /** Rollback, then the scan recorded as failed, if that can be written. */
    method Abandonner(scan: nat, avant: Table, scanned: nat, changed: nat)
      modifies this`documents, this`scans, this`pannes
      ensures documents == avant && pannes >= old(pannes)
      ensures scans == old(scans) || scans == old(scans)[scan := Echoue(scanned, changed)]
    {
      documents := avant;
      var leve := Hasard();
      if !leve { scans := scans[scan := Echoue(scanned, changed)]; }
    }

    /** `run_index`: one transaction. Either the table becomes what the whole walk says, or it
        is as before and the scan is never recorded as completed. */
    method RunIndex(scan: nat, docs: seq<Document>, complet: bool, prefixes: set<string>)
      returns (r: Resultat<nat>, ghost faits: seq<seq<Document>>)
      requires scan !in scans
      modifies this
      ensures lots == old(lots) + faits && Decoupes(faits) && Concat(faits) <= docs
      ensures r.Ok? ==> complet && Concat(faits) == docs
      ensures r.Ok? ==> documents == Elaguer(regles, Appliquer(regles, old(documents), docs), Cles(docs), prefixes)
      ensures r.Ok? ==> r.value + |documents| == |Appliquer(regles, old(documents), docs)|
      ensures r.Ok? ==> Enregistre(old(scans), scan, |docs|, r.value, scans)
      ensures r.Leve? ==> documents == old(documents)
      ensures r.Leve? ==> scans.Keys - {scan} == old(scans).Keys && forall s :: s in scans && s != scan ==> scans[s] == old(scans)[s]
      ensures r.Leve? && scan in scans ==> !scans[scan].Termine? && (scans[scan].Echoue? ==> scans[scan].scanned <= |docs|)
      ensures complet && pannes == old(pannes) ==> r.Ok?
    {
      assert Decoupes([]) && Concat([]) == [];
      hide Appliquer, Elaguer, Concat, Decoupes, Cles, Enregistre;
      faits := [];
      var leve := Hasard();   // initialize, migrations, start_scan
      if leve { return Leve, []; }
      scans := scans[scan := EnCours];
      var avant := documents;   // scan_transaction
      var scanned, changed;
      r, scanned, changed, faits := Consommer(docs, complet, prefixes);
      if r.Ok? {
        leve := Hasard();     // finish_scan("completed"), commit
        if !leve {
          Enregistrer(old(scans), scan, scanned, changed, r.value);
          scans := scans[scan := Termine(scanned, changed, r.value)];
          return;
        }
        r := Leve;
      }
      Abandonner(scan, avant, scanned, changed);
    }
  }

  // ---------------------------------------------------------------------------
  // Batches do not show
  // ---------------------------------------------------------------------------

  lemma {:induction false} AppliquerConcat(regles: Regles, t: Table, a: seq<Document>, b: seq<Document>)
    ensures Appliquer(regles, t, a + b) == Appliquer(regles, Appliquer(regles, t, a), b)
  {
    if b == [] {
      assert a + b == a;
    } else {
      assert (a + b)[..|a + b| - 1] == a + b[..|b| - 1];
      AppliquerConcat(regles, t, a, b[..|b| - 1]);
    }
  }

  lemma LotSuivant(regles: Regles, t: Table, faits: seq<seq<Document>>, lot: seq<Document>)
    ensures Concat(faits + [lot]) == Concat(faits) + lot
    ensures Appliquer(regles, t, Concat(faits + [lot])) == Appliquer(regles, Appliquer(regles, t, Concat(faits)), lot)
  {
    ConcatSuivant(faits, lot);
    AppliquerConcat(regles, t, Concat(faits), lot);
  }

  lemma {:induction false} AppliquerCles(regles: Regles, t: Table, docs: seq<Document>)
    ensures Appliquer(regles, t, docs).Keys == t.Keys + Cles(docs)
    ensures forall k :: k in t && k !in Cles(docs) ==> Appliquer(regles, t, docs)[k] == t[k]
    ensures forall k :: k in t && k in regles.figes ==> Appliquer(regles, t, docs)[k] == t[k]
  {
    if docs != [] {
      var n := |docs| - 1;
      AppliquerCles(regles, t, docs[..n]);
      assert docs == docs[..n] + [docs[n]];
      assert Cles(docs) == Cles(docs[..n]) + {docs[n].cle};
    }
  }

  /** What one document leaves at its key, given what was there. */
  ghost function Ecrit(regles: Regles, ancien: Option<string>, d: Document): string {
    if ancien.Some? && d.cle in regles.figes then ancien.value else regles.maj(ancien, d)
  }

  /** The row of a key after the run: the documents of that key, in the order of the walk, each
      refresh what the one before left, unless the index leaves that row alone. */
  ghost function Ligne(regles: Regles, ancien: Option<string>, docs: seq<Document>, k: string): Option<string>
    decreases |docs|
  {
    if docs == [] then ancien
    else Ligne(regles, if docs[0].cle == k then Some(Ecrit(regles, ancien, docs[0])) else ancien, docs[1..], k)
  }

  lemma {:induction false} LigneSuivante(regles: Regles, ancien: Option<string>, docs: seq<Document>, d: Document, k: string)
    ensures var avant := Ligne(regles, ancien, docs, k);
            Ligne(regles, ancien, docs + [d], k) == if d.cle == k then Some(Ecrit(regles, avant, d)) else avant
    decreases |docs|
  {
    if docs == [] {
      assert docs + [d] == [d];
    } else {
      assert (docs + [d])[1..] == docs[1..] + [d];
      LigneSuivante(regles, if docs[0].cle == k then Some(Ecrit(regles, ancien, docs[0])) else ancien, docs[1..], d, k);
    }
  }

  lemma {:induction false} AppliquerLigne(regles: Regles, t: Table, docs: seq<Document>, k: string)
    ensures var apres := Appliquer(regles, t, docs);
            Ligne(regles, if k in t then Some(t[k]) else None, docs, k) == if k in apres then Some(apres[k]) else None
  {
    if docs != [] {
      var n := |docs| - 1;
      AppliquerLigne(regles, t, docs[..n], k);
      LigneSuivante(regles, if k in t then Some(t[k]) else None, docs[..n], docs[n], k);
      assert docs == docs[..n] + [docs[n]];
    }
  }

  /** After a completed run a walked row holds what its documents make of the old row; with one
      document, that document's refresh of the old row, unless the index leaves it alone. */
  lemma LigneApresIndexation(regles: Regles, t: Table, docs: seq<Document>, prefixes: set<string>, i: nat)
    requires i < |docs|
    ensures var k, apres := docs[i].cle, Elaguer(regles, Appliquer(regles, t, docs), Cles(docs), prefixes);
            && k in apres && Some(apres[k]) == Ligne(regles, if k in t then Some(t[k]) else None, docs, k)
            && ((forall j :: 0 <= j < |docs| && j != i ==> docs[j].cle != k) ==>
                  apres[k] == if k in t && k in regles.figes then t[k] else regles.maj(if k in t then Some(t[k]) else None, docs[i]))
  {
    hide EstProtege;
    var k := docs[i].cle;
    AppliquerLigne(regles, t, docs, k);
    AppliquerCles(regles, t, docs);
    assert docs[i] in docs && k in Cles(docs);
    if forall j :: 0 <= j < |docs| && j != i ==> docs[j].cle != k {
      LigneUnique(regles, if k in t then Some(t[k]) else None, docs, i);
    }
  }

  lemma {:induction false} LigneUnique(regles: Regles, ancien: Option<string>, docs: seq<Document>, i: nat)
    requires i < |docs| && forall j :: 0 <= j < |docs| && j != i ==> docs[j].cle != docs[i].cle
    ensures Ligne(regles, ancien, docs, docs[i].cle) == Some(Ecrit(regles, ancien, docs[i]))
    decreases |docs|
  {
    if i == 0 {
      LigneAbsente(regles, Some(Ecrit(regles, ancien, docs[0])), docs[1..], docs[0].cle);
    } else {
      assert docs[1..][i - 1] == docs[i];
      LigneUnique(regles, ancien, docs[1..], i - 1);
    }
  }

  lemma {:induction false} LigneAbsente(regles: Regles, ancien: Option<string>, docs: seq<Document>, k: string)
    requires forall j :: 0 <= j < |docs| ==> docs[j].cle != k
    ensures Ligne(regles, ancien, docs, k) == ancien
    decreases |docs|
  {
    if docs != [] { LigneAbsente(regles, ancien, docs[1..], k); }
  }

  /** After a completed run the index holds exactly what was walked, and of the rest what lies
      under a protected prefix or may not be deleted, unchanged. */
  lemma ApresIndexation(regles: Regles, t: Table, docs: seq<Document>, prefixes: set<string>, k: string)
    ensures var apres := Elaguer(regles, Appliquer(regles, t, docs), Cles(docs), prefixes);
            && (k in apres <==> k in Cles(docs) || (k in t && (EstProtege(k, prefixes) || k in regles.gardes)))
            && (k in apres && k in t && (k !in Cles(docs) || k in regles.figes) ==> apres[k] == t[k])
  {
    hide EstProtege;
    AppliquerCles(regles, t, docs);
    assert k in Appliquer(regles, t, docs) <==> k in Appliquer(regles, t, docs).Keys;
  }

  // ---------------------------------------------------------------------------
  // The zones the walk prunes are the zones the index protects
  // ---------------------------------------------------------------------------

  /** `prefixes_proteges`. */
  function Prefixes(zones: seq<Chemin>): set<string> { set z | z in zones :: Texte(z) }

  /** Working zones are named directories below the data directory. */
  ghost predicate ZonesOrdinaires(zones: seq<Chemin>) { forall z :: z in zones ==> z != [] && Ordinaire(z) }

  lemma BaseDeZone(z: Chemin)
    requires z != [] && Ordinaire(z)
    ensures |Texte(z)| > 1 && SansBarreFinale(Texte(z)) == Texte(z)
  {
    var n := |z| - 1;
    var nom := z[n];
    assert nom in z;
    if n == 0 {
      assert z == [nom];
      assert Texte(z) == "/" + nom;
    } else {
      assert z == z[..n] + [nom];
      JoindreConcat(z[..n], [nom]);
      assert Texte(z) == "/" + Joindre(z[..n]) + "/" + nom;
    }
    assert Texte(z)[|Texte(z)| - 1] == nom[|nom| - 1];
    assert nom[|nom| - 1] in nom;
  }

  /** Comparing strings protects exactly the zone and what lies below it. */
  lemma PrefixeDeZone(k: Chemin, z: Chemin)
    requires z != [] && Ordinaire(z) && Ordinaire(k)
    ensures SousPrefixe(Texte(k), Texte(z)) <==> z <= k
  {
    BaseDeZone(z);
    PrefixeTexte(z, k);
    TexteInjectif(k, z);
  }

  lemma ProtegeSsiEnZone(k: Chemin, zones: seq<Chemin>)
    requires ZonesOrdinaires(zones) && Ordinaire(k)
    ensures EstProtege(Texte(k), Prefixes(zones)) <==> Crawl.SousZone(k, zones)
  {
    forall z | z in zones ensures SousPrefixe(Texte(k), Texte(z)) <==> z <= k { PrefixeDeZone(k, z); }
    if Crawl.SousZone(k, zones) {
      var z :| z in zones && z <= k;
      assert Texte(z) in Prefixes(zones);
    }
  }

  /** Whatever a run walked and whatever it prunes, no row of a zone is deleted, and one it did
      not walk is unchanged: an exclusion is never a loss of data. */
  lemma ZoneJamaisElaguee(regles: Regles, t: Table, docs: seq<Document>, zones: seq<Chemin>, k: Chemin)
    requires ZonesOrdinaires(zones) && Ordinaire(k) && Crawl.SousZone(k, zones) && Texte(k) in t
    ensures var apres := Elaguer(regles, Appliquer(regles, t, docs), Cles(docs), Prefixes(zones));
            Texte(k) in apres && (Texte(k) !in Cles(docs) ==> apres[Texte(k)] == t[Texte(k)])
  {
    ProtegeSsiEnZone(k, zones);
    ApresIndexation(regles, t, docs, Prefixes(zones), Texte(k));
  }

  /** The resolved path of an item, which is its key in the index. */
  function Resolu(r: Crawl.Racine, it: Crawl.Item): Chemin {
    var n := Crawl.Lieu(r.arbre, it.chemin);
    if n.Some? && n.value.LienFichier? then n.value.cible else r.reelle + it.chemin
  }

  /** The documents of a walk, in order. */
  ghost predicate DocumentsDe(rs: seq<Crawl.Racine>, ps: seq<Crawl.Production>, docs: seq<Document>) {
    && |docs| == |ps|
    && forall i :: 0 <= i < |ps| ==> ps[i].racine < |rs| && docs[i].cle == Texte(Resolu(rs[ps[i].racine], ps[i].item))
  }

  /** Something the walk of the roots should find has this resolved path. */
  ghost predicate Trouvable(cfg: Crawl.Config, rs: seq<Crawl.Racine>, cle: string) {
    exists j: nat, it :: j < |rs| && Crawl.Visible(cfg, rs[j], it) && Texte(Resolu(rs[j], it)) == cle
  }

  lemma ClesDuParcours(cfg: Crawl.Config, rs: seq<Crawl.Racine>, docs: seq<Document>, cle: string)
    requires Crawl.Arbres(rs) && Crawl.Crawl(cfg, rs).complet && DocumentsDe(rs, Crawl.Crawl(cfg, rs).productions, docs)
    ensures cle in Cles(docs) <==> Trouvable(cfg, rs, cle)
  {
    hide Crawl.Visible, Resolu, Texte;
    var ps := Crawl.Crawl(cfg, rs).productions;
    Crawl.CrawlExact(cfg, rs);
    if cle in Cles(docs) {
      var d :| d in docs && d.cle == cle;
      var i :| 0 <= i < |docs| && docs[i] == d;
      assert ps[i] in ps && Crawl.Visible(cfg, rs[ps[i].racine], ps[i].item);
    }
    if Trouvable(cfg, rs, cle) {
      var j: nat, it :| j < |rs| && Crawl.Visible(cfg, rs[j], it) && Texte(Resolu(rs[j], it)) == cle;
      var i :| 0 <= i < |ps| && ps[i] == Crawl.Production(j, it);
      assert docs[i] in docs;
    }
  }

  /** Walk and index together: after a run that completes, a row exists exactly if something
      visible has that resolved path, or it existed and lies in a working zone or may not be
      deleted. */
  lemma IndexDuParcours(cfg: Crawl.Config, rs: seq<Crawl.Racine>, regles: Regles, t: Table, docs: seq<Document>, k: Chemin)
    requires Crawl.Arbres(rs) && Crawl.Crawl(cfg, rs).complet && DocumentsDe(rs, Crawl.Crawl(cfg, rs).productions, docs)
    requires ZonesOrdinaires(cfg.zones) && Ordinaire(k)
    ensures Texte(k) in Elaguer(regles, Appliquer(regles, t, docs), Cles(docs), Prefixes(cfg.zones))
            <==> Trouvable(cfg, rs, Texte(k)) || (Texte(k) in t && (Crawl.SousZone(k, cfg.zones) || Texte(k) in regles.gardes))
  {
    hide Trouvable, DocumentsDe, Crawl.Crawl;
    ClesDuParcours(cfg, rs, docs, Texte(k));
    ProtegeSsiEnZone(k, cfg.zones);
    ApresIndexation(regles, t, docs, Prefixes(cfg.zones), Texte(k));
  }
}
