/** The archive walk (seamtech_search/crawler.py): exclusions, pruning of the working zones
    by name, links never followed.

    A path is the sequence of its components below "/". A root carries both of its forms,
    lexical and resolved, and the directory tree found there; a link carries the resolved
    path of its target. */
module Crawl {
  import opened Options
  import opened Paths
  import Sorting

  /** What a directory lists. `Illisible` is a directory that cannot be listed, `Casse` an
      entry whose `stat` fails (a dangling link, for instance). */
  datatype Noeud =
    | Dossier(entrees: seq<Entree>) | Illisible | LienDossier(cible: Chemin)
    | Fichier | LienFichier(cible: Chemin) | Casse

  datatype Entree = Entree(nom: string, noeud: Noeud)

  datatype Config = Config(exclu: string -> bool, zones: seq<Chemin>)

  datatype Racine = Racine(lexicale: Chemin, reelle: Chemin, arbre: Noeud)

  datatype Item = Item(chemin: Chemin, estDossier: bool)

  /** What a generator has produced, and whether it ended without raising. */
  datatype Scan = Scan(items: seq<Item>, complet: bool)

  function Puis(a: Scan, b: Scan): Scan { if a.complet then Scan(a.items + b.items, b.complet) else a }

  /** What `os.walk` puts among the directories. */
  predicate Repertoire(n: Noeud) { n.Dossier? || n.Illisible? || n.LienDossier? }

  predicate SousZone(c: Chemin, zones: seq<Chemin>) { exists z :: z in zones && z <= c }

  // ---------------------------------------------------------------------------
  // The walk
  // ---------------------------------------------------------------------------

  /** `zones_racine` and `noms_zones`. */
  function ZonesRacine(zones: seq<Chemin>, r: Racine): (zs: seq<Chemin>)
    ensures forall z :: z in zs <==> z in zones && (r.lexicale <= z || r.reelle <= z)
  {
    if zones == [] then []
    else (if r.lexicale <= zones[0] || r.reelle <= zones[0] then [zones[0]] else []) + ZonesRacine(zones[1..], r)
  }

  predicate NomDeZone(nom: string, zones: seq<Chemin>) { exists z :: z in zones && z != [] && z[|z| - 1] == nom }

  /** `_dans_zone` of an entry, in its lexical and resolved forms. */
  predicate DansZone(e: Entree, rel: Chemin, r: Racine, zones: seq<Chemin>) {
    || SousZone(r.lexicale + rel + [e.nom], zones)
    || SousZone(if e.noeud.LienDossier? then e.noeud.cible else r.reelle + rel + [e.nom], zones)
  }

  /** A directory entry the walk keeps: only those named like a zone, and links, are resolved. */
  predicate Retenu(cfg: Config, r: Racine, rel: Chemin, e: Entree) {
    var zones := ZonesRacine(cfg.zones, r);
    && Repertoire(e.noeud)
    && !cfg.exclu(e.nom)
    && !((NomDeZone(e.nom, zones) || e.noeud.LienDossier?) && DansZone(e, rel, r, zones))
  }

  function Retenus(cfg: Config, r: Racine, rel: Chemin, es: seq<Entree>): (s: seq<Entree>)
    ensures forall e :: e in s <==> e in es && Retenu(cfg, r, rel, e)
  {
    if es == [] then []
    else
      var n := |es| - 1;
      Retenus(cfg, r, rel, es[..n]) + (if Retenu(cfg, r, rel, es[n]) then [es[n]] else [])
  }

  /** The files of a directory, up to the first that cannot be examined. */
  function Fichiers(cfg: Config, rel: Chemin, es: seq<Entree>): Scan {
    if es == [] then Scan([], true)
    else if Repertoire(es[0].noeud) || cfg.exclu(es[0].nom) then Fichiers(cfg, rel, es[1..])
    else if es[0].noeud.Casse? then Scan([], false)
    else Puis(Scan([Item(rel + [es[0].nom], false)], true), Fichiers(cfg, rel, es[1..]))
  }

  function Parcours(cfg: Config, r: Racine, rel: Chemin, n: Noeud): Scan
    decreases n, 1, 0
  {
    if !n.Dossier? then Scan([], false)
    else
      Puis(Puis(Scan([Item(rel, true)], true), Fichiers(cfg, rel, n.entrees)),
           Descentes(cfg, r, rel, n, Retenus(cfg, r, rel, n.entrees)))
  }

  /** The kept subdirectories in turn; `followlinks=False` skips the links. */
  function Descentes(cfg: Config, r: Racine, rel: Chemin, n: Noeud, es: seq<Entree>): Scan
    requires n.Dossier? && forall e :: e in es ==> e in n.entrees
    decreases n, 0, |es|
  {
    if es == [] then Scan([], true)
    else
      var reste := Descentes(cfg, r, rel, n, es[1..]);
      assert es[0] in n.entrees;
      if es[0].noeud.LienDossier? then reste else Puis(Parcours(cfg, r, rel + [es[0].nom], es[0].noeud), reste)
  }

  /** A root inside a working zone is refused. */
  predicate Acceptee(cfg: Config, r: Racine) { !SousZone(r.lexicale, cfg.zones) && !SousZone(r.reelle, cfg.zones) }

  /** An item of root number `racine`. */
  datatype Production = Production(racine: nat, item: Item)

  datatype ScanRacines = ScanRacines(productions: seq<Production>, complet: bool)

  function De(racine: nat, items: seq<Item>): (ps: seq<Production>)
    ensures |ps| == |items| && forall i :: 0 <= i < |ps| ==> ps[i] == Production(racine, items[i])
  {
    seq(|items|, i requires 0 <= i < |items| => Production(racine, items[i]))
  }

  /** The walks of the first `k` roots, in order, up to the first that raises. */
  function ParcoursRacines(cfg: Config, rs: seq<Racine>, k: nat): ScanRacines
    requires k <= |rs|
  {
    if k == 0 then ScanRacines([], true)
    else
      var avant := ParcoursRacines(cfg, rs, k - 1);
      var scan := Parcours(cfg, rs[k - 1], [], rs[k - 1].arbre);
      if avant.complet then ScanRacines(avant.productions + De(k - 1, scan.items), scan.complet) else avant
  }

  ghost predicate ToutesAcceptees(cfg: Config, rs: seq<Racine>) { forall r :: r in rs ==> Acceptee(cfg, r) }

  /** `crawl`: every root is checked before anything is produced. */
  ghost function Crawl(cfg: Config, rs: seq<Racine>): ScanRacines {
    if ToutesAcceptees(cfg, rs) then ParcoursRacines(cfg, rs, |rs|) else ScanRacines([], false)
  }

  /** Prune `dir_names` in place. */
  method Elaguer(cfg: Config, r: Racine, rel: Chemin, es: seq<Entree>) returns (retenus: seq<Entree>)
    ensures retenus == Retenus(cfg, r, rel, es)
  {
    var zones := ZonesRacine(cfg.zones, r);
    retenus := [];
    for k := 0 to |es|
      invariant retenus == Retenus(cfg, r, rel, es[..k])
    {
      var e := es[k];
      assert es[..k + 1][..k] == es[..k];
      if Repertoire(e.noeud) && !cfg.exclu(e.nom) {
        var elague := false;
        if NomDeZone(e.nom, zones) || e.noeud.LienDossier? { elague := DansZone(e, rel, r, zones); }
        if !elague { retenus := retenus + [e]; }
      }
    }
    assert es[..|es|] == es;
  }

  method ProduireFichiers(cfg: Config, rel: Chemin, es: seq<Entree>) returns (scan: Scan)
    ensures scan == Fichiers(cfg, rel, es)
  {
    scan := Scan([], true);
    for k := 0 to |es|
      invariant scan.complet
      invariant Puis(scan, Fichiers(cfg, rel, es[k..])) == Fichiers(cfg, rel, es)
    {
      var e := es[k];
      assert es[k..][1..] == es[k + 1..];
      if !Repertoire(e.noeud) && !cfg.exclu(e.nom) {
        if e.noeud.Casse? { return Scan(scan.items, false); }
        scan := Scan(scan.items + [Item(rel + [e.nom], false)], true);
      }
    }
  }

  /** One directory of the walk: itself, its files, then its kept subdirectories. */
  method Parcourir(cfg: Config, r: Racine, rel: Chemin, n: Noeud) returns (scan: Scan)
    ensures scan == Parcours(cfg, r, rel, n)
    decreases n
  {
    if !n.Dossier? { return Scan([], false); }
    var retenus := Elaguer(cfg, r, rel, n.entrees);
    var fichiers := ProduireFichiers(cfg, rel, n.entrees);
    scan := Puis(Scan([Item(rel, true)], true), fichiers);
    if !fichiers.complet { return; }
    ghost var debut := scan;
    assert retenus[0..] == retenus;
    for k := 0 to |retenus|
      invariant scan.complet
      invariant Puis(scan, Descentes(cfg, r, rel, n, retenus[k..])) == Puis(debut, Descentes(cfg, r, rel, n, retenus))
    {
      var e := retenus[k];
      assert retenus[k..][1..] == retenus[k + 1..];
      assert e in n.entrees;
      if !e.noeud.LienDossier? {
        var sous := Parcourir(cfg, r, rel + [e.nom], e.noeud);
        PuisAssociatif(scan, sous, Descentes(cfg, r, rel, n, retenus[k + 1..]));
        scan := Puis(scan, sous);
        if !sous.complet { return; }
      }
    }
  }

  lemma PuisAssociatif(a: Scan, b: Scan, c: Scan)
    ensures Puis(Puis(a, b), c) == Puis(a, Puis(b, c))
  {
    assert a.items + b.items + c.items == a.items + (b.items + c.items);
  }

  method CrawlRacines(cfg: Config, rs: seq<Racine>) returns (scan: ScanRacines)
    ensures scan == Crawl(cfg, rs)
  {
    for k := 0 to |rs|
      invariant forall i :: 0 <= i < k ==> Acceptee(cfg, rs[i])
    {
      if !Acceptee(cfg, rs[k]) { return ScanRacines([], false); }
    }
    scan := ScanRacines([], true);
    for k := 0 to |rs|
      invariant scan == ParcoursRacines(cfg, rs, k) && scan.complet
    {
      var un := Parcourir(cfg, rs[k], [], rs[k].arbre);
      scan := ScanRacines(scan.productions + De(k, un.items), un.complet);
      if !un.complet {
        ArretPrecoce(cfg, rs, k + 1, |rs|);
        return;
      }
    }
  }

  lemma {:induction false} ArretPrecoce(cfg: Config, rs: seq<Racine>, k: nat, n: nat)
    requires k <= n <= |rs| && !ParcoursRacines(cfg, rs, k).complet
    ensures ParcoursRacines(cfg, rs, n) == ParcoursRacines(cfg, rs, k)
    decreases n
  {
    if k < n { ArretPrecoce(cfg, rs, k, n - 1); }
  }

  // ---------------------------------------------------------------------------
  // What is produced, path by path
  // ---------------------------------------------------------------------------

  function Trouver(es: seq<Entree>, nom: string): (n: Option<Noeud>)
    ensures n.Some? ==> Entree(nom, n.value) in es
  {
    if es == [] then None else if es[0].nom == nom then Some(es[0].noeud) else Trouver(es[1..], nom)
  }

  /** Where a path leads, through real directories only. */
  function Lieu(n: Noeud, c: Chemin): Option<Noeud> {
    if c == [] then Some(n)
    else if !n.Dossier? then None
    else
      var m := Trouver(n.entrees, c[0]);
      if m.Some? then Lieu(m.value, c[1..]) else None
  }

  /** In no directory is a name listed twice. */
  ghost predicate NomsUniques(n: Noeud) {
    n.Dossier? ==>
      && (forall i, j :: 0 <= i < j < |n.entrees| ==> n.entrees[i].nom != n.entrees[j].nom)
      && (forall e :: e in n.entrees ==> NomsUniques(e.noeud))
  }

  /** The walk, followed down one path. */
  predicate Atteint(cfg: Config, r: Racine, rel: Chemin, n: Noeud, suite: Chemin, estDossier: bool)
    decreases |suite|
  {
    if suite == [] then estDossier && n.Dossier?
    else
      n.Dossier? &&
      var m := Trouver(n.entrees, suite[0]);
      m.Some? &&
      if |suite| == 1 && !estDossier then !Repertoire(m.value) && !m.value.Casse? && !cfg.exclu(suite[0])
      else Retenu(cfg, r, rel, Entree(suite[0], m.value)) && Atteint(cfg, r, rel + [suite[0]], m.value, suite[1..], estDossier)
  }

  lemma {:induction false} TrouverUnique(es: seq<Entree>, e: Entree)
    requires e in es && forall i, j :: 0 <= i < j < |es| ==> es[i].nom != es[j].nom
    ensures Trouver(es, e.nom) == Some(e.noeud)
  {
    if es[0] != e {
      assert e in es[1..];
      var i :| 0 < i < |es| && es[i] == e;
      TrouverUnique(es[1..], e);
    }
  }

  /** The files of a directory are exactly its entries that are not directories. */
  lemma {:induction false} FichiersExacts(cfg: Config, rel: Chemin, es: seq<Entree>, it: Item)
    ensures it in Fichiers(cfg, rel, es).items ==>
              !it.estDossier && |it.chemin| == |rel| + 1 && rel <= it.chemin
              && exists e :: e in es && e.nom == it.chemin[|rel|] && !Repertoire(e.noeud) && !e.noeud.Casse? && !cfg.exclu(e.nom)
    ensures Fichiers(cfg, rel, es).complet ==>
              forall e :: e in es && !Repertoire(e.noeud) && !cfg.exclu(e.nom) ==>
                !e.noeud.Casse? && Item(rel + [e.nom], false) in Fichiers(cfg, rel, es).items
  {
    if es != [] {
      FichiersExacts(cfg, rel, es[1..], it);
      assert forall e :: e in es <==> e == es[0] || e in es[1..];
      if it == Item(rel + [es[0].nom], false) { assert it.chemin[|rel|] == es[0].nom; }
    }
  }

  lemma FichierSur(cfg: Config, r: Racine, rel: Chemin, n: Noeud, it: Item)
    requires n.Dossier? && NomsUniques(n) && it in Fichiers(cfg, rel, n.entrees).items
    ensures rel <= it.chemin && Atteint(cfg, r, rel, n, it.chemin[|rel|..], it.estDossier)
  {
    FichiersExacts(cfg, rel, n.entrees, it);
    var e :| e in n.entrees && e.nom == it.chemin[|rel|] && !Repertoire(e.noeud) && !e.noeud.Casse? && !cfg.exclu(e.nom);
    TrouverUnique(n.entrees, e);
    assert it.chemin[|rel|..] == [e.nom];
  }

  lemma AtteintIci(cfg: Config, r: Racine, rel: Chemin, n: Noeud)
    ensures n.Dossier? ==> Atteint(cfg, r, rel, n, [], true)
  {
  }

  /** Everything produced below `n` can be followed down from it. */
  lemma {:induction false} ParcoursSur(cfg: Config, r: Racine, rel: Chemin, n: Noeud, it: Item)
    requires NomsUniques(n) && it in Parcours(cfg, r, rel, n).items
    ensures rel <= it.chemin && Atteint(cfg, r, rel, n, it.chemin[|rel|..], it.estDossier)
    decreases n, 1, 0
  {
    hide Retenu, Atteint;
    if it == Item(rel, true) {
      assert Atteint(cfg, r, rel, n, [], true) by { AtteintIci(cfg, r, rel, n); }
      assert it.chemin[|rel|..] == [];
    } else if it in Fichiers(cfg, rel, n.entrees).items {
      FichierSur(cfg, r, rel, n, it);
    } else {
      var e := DescentesSures(cfg, r, rel, n, Retenus(cfg, r, rel, n.entrees), it);
      SousDossierSur(cfg, r, rel, n, e, it);
    }
  }

  lemma SousDossierSur(cfg: Config, r: Racine, rel: Chemin, n: Noeud, e: Entree, it: Item)
    requires n.Dossier? && NomsUniques(n) && e in Retenus(cfg, r, rel, n.entrees) && rel + [e.nom] <= it.chemin
    requires Atteint(cfg, r, rel + [e.nom], e.noeud, it.chemin[|rel| + 1..], it.estDossier)
    ensures rel <= it.chemin && Atteint(cfg, r, rel, n, it.chemin[|rel|..], it.estDossier)
  {
    hide Retenu;
    TrouverUnique(n.entrees, e);
    assert it.chemin[|rel|..] == [e.nom] + it.chemin[|rel| + 1..];
  }

  lemma {:induction false} DescentesSures(cfg: Config, r: Racine, rel: Chemin, n: Noeud, es: seq<Entree>, it: Item) returns (e: Entree)
    requires n.Dossier? && NomsUniques(n) && forall f :: f in es ==> f in n.entrees
    requires it in Descentes(cfg, r, rel, n, es).items
    ensures e in es && rel + [e.nom] <= it.chemin && !e.noeud.LienDossier?
    ensures Atteint(cfg, r, rel + [e.nom], e.noeud, it.chemin[|rel| + 1..], it.estDossier)
    decreases n, 0, |es|
  {
    hide Retenu, Atteint;
    assert es[0] in n.entrees;
    if !es[0].noeud.LienDossier? && it in Parcours(cfg, r, rel + [es[0].nom], es[0].noeud).items {
      e := es[0];
      ParcoursSur(cfg, r, rel + [e.nom], e.noeud, it);
    } else {
      e := DescentesSures(cfg, r, rel, n, es[1..], it);
    }
  }

  /** A complete walk produces everything that can be followed down. */
  lemma {:induction false} ParcoursTotal(cfg: Config, r: Racine, rel: Chemin, n: Noeud, suite: Chemin, estDossier: bool)
    requires Parcours(cfg, r, rel, n).complet && Atteint(cfg, r, rel, n, suite, estDossier)
    ensures Item(rel + suite, estDossier) in Parcours(cfg, r, rel, n).items
    decreases n, 1, 0
  {
    ParcoursParties(cfg, r, rel, n, Item(rel + suite, estDossier));
    if suite == [] {
      assert rel + suite == rel;
    } else if |suite| == 1 && !estDossier {
      FichierProduit(cfg, rel, n.entrees, suite[0]);
      assert suite == [suite[0]];
    } else {
      var e := AtteintSuite(cfg, r, rel, n, suite, estDossier);
      DescentesTotales(cfg, r, rel, n, Retenus(cfg, r, rel, n.entrees), e, suite[1..], estDossier);
    }
  }

  lemma AtteintSuite(cfg: Config, r: Racine, rel: Chemin, n: Noeud, suite: Chemin, estDossier: bool) returns (e: Entree)
    requires Atteint(cfg, r, rel, n, suite, estDossier) && suite != [] && (|suite| > 1 || estDossier)
    ensures n.Dossier? && e in Retenus(cfg, r, rel, n.entrees)
    ensures Atteint(cfg, r, rel + [e.nom], e.noeud, suite[1..], estDossier)
    ensures rel + [e.nom] + suite[1..] == rel + suite
  {
    hide Retenu;
    e := Entree(suite[0], Trouver(n.entrees, suite[0]).value);
  }

  lemma ParcoursParties(cfg: Config, r: Racine, rel: Chemin, n: Noeud, it: Item)
    requires Parcours(cfg, r, rel, n).complet
    ensures n.Dossier?
    ensures var fs, ds := Fichiers(cfg, rel, n.entrees), Descentes(cfg, r, rel, n, Retenus(cfg, r, rel, n.entrees));
            && fs.complet && ds.complet
            && (it in Parcours(cfg, r, rel, n).items <==> it == Item(rel, true) || it in fs.items || it in ds.items)
  {
  }

  lemma FichierProduit(cfg: Config, rel: Chemin, es: seq<Entree>, nom: string)
    requires Fichiers(cfg, rel, es).complet
    ensures var m := Trouver(es, nom);
            m.Some? && !Repertoire(m.value) && !cfg.exclu(nom) ==> Item(rel + [nom], false) in Fichiers(cfg, rel, es).items
  {
    FichiersExacts(cfg, rel, es, Item(rel, true));
    var m := Trouver(es, nom);
    if m.Some? { assert Entree(nom, m.value) in es; }
  }

  lemma {:induction false} DescentesTotales(cfg: Config, r: Racine, rel: Chemin, n: Noeud, es: seq<Entree>, e: Entree, suite: Chemin, estDossier: bool)
    requires n.Dossier? && forall f :: f in es ==> f in n.entrees
    requires e in es && Descentes(cfg, r, rel, n, es).complet
    requires Atteint(cfg, r, rel + [e.nom], e.noeud, suite, estDossier)
    ensures Item(rel + [e.nom] + suite, estDossier) in Descentes(cfg, r, rel, n, es).items
    decreases n, 0, |es|
  {
    assert es[0] in n.entrees;
    if e == es[0] {
      ParcoursTotal(cfg, r, rel + [e.nom], e.noeud, suite, estDossier);
    } else {
      assert e in es[1..];
      DescentesTotales(cfg, r, rel, n, es[1..], e, suite, estDossier);
    }
  }

  // ---------------------------------------------------------------------------
  // Each item once
  // ---------------------------------------------------------------------------

  lemma DistinctsReunis(a: seq<Item>, b: seq<Item>)
    requires Sorting.Distinct(a) && Sorting.Distinct(b) && forall x :: x in a ==> x !in b
    ensures Sorting.Distinct(a + b)
  {
    forall i, j | 0 <= i < j < |a + b| ensures (a + b)[i] != (a + b)[j] {
      if i < |a| <= j { assert a[i] in a && b[j - |a|] in b; }
    }
  }

  ghost predicate NomsDistincts(es: seq<Entree>) { forall i, j :: 0 <= i < j < |es| ==> es[i].nom != es[j].nom }

  lemma {:induction false} RetenusDistincts(cfg: Config, r: Racine, rel: Chemin, es: seq<Entree>)
    requires NomsDistincts(es)
    ensures NomsDistincts(Retenus(cfg, r, rel, es))
  {
    if es != [] {
      var n := |es| - 1;
      RetenusDistincts(cfg, r, rel, es[..n]);
      forall e | e in Retenus(cfg, r, rel, es[..n]) ensures e.nom != es[n].nom { assert e in es[..n]; }
    }
  }

  lemma {:induction false} FichiersDistincts(cfg: Config, rel: Chemin, es: seq<Entree>)
    requires NomsDistincts(es)
    ensures Sorting.Distinct(Fichiers(cfg, rel, es).items)
  {
    if es != [] {
      FichiersDistincts(cfg, rel, es[1..]);
      var it := Item(rel + [es[0].nom], false);
      FichiersExacts(cfg, rel, es[1..], it);
      assert it.chemin[|rel|] == es[0].nom;
      DistinctsReunis([it], Fichiers(cfg, rel, es[1..]).items);
    }
  }

  lemma MemePrefixe(rel: Chemin, a: string, b: string, c: Chemin)
    ensures rel + [a] <= c && rel + [b] <= c ==> a == b
  {
    if rel + [a] <= c && rel + [b] <= c { assert (rel + [a])[|rel|] == c[|rel|] == (rel + [b])[|rel|]; }
  }

  lemma {:induction false} DescentesDistinctes(cfg: Config, r: Racine, rel: Chemin, n: Noeud, es: seq<Entree>)
    requires n.Dossier? && NomsUniques(n) && forall f :: f in es ==> f in n.entrees
    requires NomsDistincts(es)
    ensures Sorting.Distinct(Descentes(cfg, r, rel, n, es).items)
    decreases n, 0, |es|
  {
    if es != [] {
      assert es[0] in n.entrees;
      DescentesDistinctes(cfg, r, rel, n, es[1..]);
      if !es[0].noeud.LienDossier? {
        var a, b := Parcours(cfg, r, rel + [es[0].nom], es[0].noeud).items, Descentes(cfg, r, rel, n, es[1..]).items;
        ParcoursDistinct(cfg, r, rel + [es[0].nom], es[0].noeud);
        forall it | it in a ensures it !in b {
          ParcoursSur(cfg, r, rel + [es[0].nom], es[0].noeud, it);
          if it in b {
            var e := DescentesSures(cfg, r, rel, n, es[1..], it);
            MemePrefixe(rel, es[0].nom, e.nom, it.chemin);
          }
        }
        DistinctsReunis(a, b);
      }
    }
  }

  lemma {:induction false} ParcoursDistinct(cfg: Config, r: Racine, rel: Chemin, n: Noeud)
    requires NomsUniques(n)
    ensures Sorting.Distinct(Parcours(cfg, r, rel, n).items)
    decreases n, 1, 0
  {
    if n.Dossier? {
      var es := Retenus(cfg, r, rel, n.entrees);
      var fs, ds := Fichiers(cfg, rel, n.entrees).items, Descentes(cfg, r, rel, n, es).items;
      RetenusDistincts(cfg, r, rel, n.entrees);
      FichiersDistincts(cfg, rel, n.entrees);
      DescentesDistinctes(cfg, r, rel, n, es);
      forall it | it in fs ensures it !in ds && it != Item(rel, true) { FichierOuDescente(cfg, r, rel, n, es, it); }
      if Item(rel, true) in ds { var e := DescentesSures(cfg, r, rel, n, es, Item(rel, true)); assert false; }
      DistinctsReunis([Item(rel, true)], fs);
      DistinctsReunis([Item(rel, true)] + fs, ds);
    }
  }

  /** A file and something below a directory never have the same path. */
  lemma FichierOuDescente(cfg: Config, r: Racine, rel: Chemin, n: Noeud, es: seq<Entree>, it: Item)
    requires n.Dossier? && NomsUniques(n) && es == Retenus(cfg, r, rel, n.entrees)
    ensures it in Fichiers(cfg, rel, n.entrees).items ==> it !in Descentes(cfg, r, rel, n, es).items && it != Item(rel, true)
  {
    FichiersExacts(cfg, rel, n.entrees, it);
    if it in Fichiers(cfg, rel, n.entrees).items && it in Descentes(cfg, r, rel, n, es).items {
      var f :| f in n.entrees && f.nom == it.chemin[|rel|] && !Repertoire(f.noeud) && !f.noeud.Casse? && !cfg.exclu(f.nom);
      var e := DescentesSures(cfg, r, rel, n, es, it);
      assert false;
    }
  }

  // ---------------------------------------------------------------------------
  // What the walk is for: everything that is not excluded, below no excluded directory and
  // in no working zone
  // ---------------------------------------------------------------------------

  /** The path `c` of the tree is a working zone or below one, by either of its names. */
  predicate EnZone(cfg: Config, r: Racine, c: Chemin) {
    SousZone(r.lexicale + c, cfg.zones) || SousZone(r.reelle + c, cfg.zones)
  }

  ghost predicate Permis(cfg: Config, r: Racine, rel: Chemin, suite: Chemin, estDossier: bool) {
    forall k :: 0 < k <= |suite| ==> PermisA(cfg, r, rel, suite, estDossier, k)
  }

  ghost predicate PermisA(cfg: Config, r: Racine, rel: Chemin, suite: Chemin, estDossier: bool, k: nat)
    requires 0 < k <= |suite|
  {
    !cfg.exclu(suite[k - 1]) && (k < |suite| || estDossier ==> !EnZone(cfg, r, rel + suite[..k]))
  }

  ghost predicate DuGenre(n: Option<Noeud>, suite: Chemin, estDossier: bool) {
    n.Some? && if estDossier then n.value.Dossier? else suite != [] && !Repertoire(n.value) && !n.value.Casse?
  }

  /** A path of the tree that the walk should produce. */
  ghost predicate Visible(cfg: Config, r: Racine, it: Item) {
    DuGenre(Lieu(r.arbre, it.chemin), it.chemin, it.estDossier) && Permis(cfg, r, [], it.chemin, it.estDossier)
  }

  /** One more component falls into a zone only by being that zone. */
  lemma ZoneExacte(base: Chemin, nom: string, z: Chemin)
    requires !(z <= base)
    ensures z <= base + [nom] <==> z == base + [nom]
  {
  }

  /** Resolving only the directories named like a zone of this root misses no zone. */
  lemma FiltreParNomSuffit(cfg: Config, r: Racine, rel: Chemin, e: Entree)
    requires (e.noeud.Dossier? || e.noeud.Illisible?) && !EnZone(cfg, r, rel)
    ensures Retenu(cfg, r, rel, e) <==> !cfg.exclu(e.nom) && !EnZone(cfg, r, rel + [e.nom])
  {
    var zones := ZonesRacine(cfg.zones, r);
    assert r.lexicale + rel + [e.nom] == r.lexicale + (rel + [e.nom]) && r.reelle + rel + [e.nom] == r.reelle + (rel + [e.nom]);
    forall z | z in cfg.zones ensures
      (z <= r.lexicale + rel + [e.nom] || z <= r.reelle + rel + [e.nom]) ==> z in zones && z != [] && z[|z| - 1] == e.nom
    {
      ZoneExacte(r.lexicale + rel, e.nom, z);
      ZoneExacte(r.reelle + rel, e.nom, z);
    }
  }

  lemma PermisSuite(cfg: Config, r: Racine, rel: Chemin, suite: Chemin, estDossier: bool)
    requires suite != []
    ensures Permis(cfg, r, rel, suite, estDossier)
            <==> PermisA(cfg, r, rel, suite, estDossier, 1) && Permis(cfg, r, rel + [suite[0]], suite[1..], estDossier)
  {
    var rel', suite' := rel + [suite[0]], suite[1..];
    forall k | 0 < k <= |suite'| ensures PermisA(cfg, r, rel', suite', estDossier, k) <==> PermisA(cfg, r, rel, suite, estDossier, k + 1) {
      assert rel' + suite'[..k] == rel + suite[..k + 1];
    }
    if Permis(cfg, r, rel', suite', estDossier) && PermisA(cfg, r, rel, suite, estDossier, 1) {
      forall k | 0 < k <= |suite| ensures PermisA(cfg, r, rel, suite, estDossier, k) {
        if k > 1 { assert PermisA(cfg, r, rel', suite', estDossier, k - 1); }
      }
    }
    if Permis(cfg, r, rel, suite, estDossier) {
      forall k | 0 < k <= |suite'| ensures PermisA(cfg, r, rel', suite', estDossier, k) {
        assert PermisA(cfg, r, rel, suite, estDossier, k + 1);
      }
    }
  }

  lemma {:induction false} AtteintSsi(cfg: Config, r: Racine, rel: Chemin, n: Noeud, suite: Chemin, estDossier: bool)
    requires !EnZone(cfg, r, rel)
    ensures Atteint(cfg, r, rel, n, suite, estDossier) <==> DuGenre(Lieu(n, suite), suite, estDossier) && Permis(cfg, r, rel, suite, estDossier)
    decreases |suite|
  {
    if suite != [] && n.Dossier? && Trouver(n.entrees, suite[0]).Some? {
      var m := Trouver(n.entrees, suite[0]).value;
      PermisSuite(cfg, r, rel, suite, estDossier);
      assert suite[..1] == [suite[0]];
      if |suite| == 1 && !estDossier {
      } else if m.Dossier? {
        FiltreParNomSuffit(cfg, r, rel, Entree(suite[0], m));
        if !EnZone(cfg, r, rel + [suite[0]]) { AtteintSsi(cfg, r, rel + [suite[0]], m, suite[1..], estDossier); }
      }
    }
  }

  // ---------------------------------------------------------------------------
  // When a walk completes
  // ---------------------------------------------------------------------------

  /** The walk, followed down to what makes it raise. */
  predicate Bloque(cfg: Config, r: Racine, rel: Chemin, n: Noeud, suite: Chemin)
    decreases |suite|
  {
    if suite == [] then !n.Dossier?
    else
      n.Dossier? &&
      var m := Trouver(n.entrees, suite[0]);
      m.Some? &&
      if m.value.Dossier? || m.value.Illisible? then
        Retenu(cfg, r, rel, Entree(suite[0], m.value)) && Bloque(cfg, r, rel + [suite[0]], m.value, suite[1..])
      else |suite| == 1 && m.value.Casse? && !cfg.exclu(suite[0])
  }

  lemma {:induction false} FichierCasse(cfg: Config, rel: Chemin, es: seq<Entree>) returns (e: Entree)
    requires !Fichiers(cfg, rel, es).complet
    ensures e in es && e.noeud.Casse? && !cfg.exclu(e.nom)
  {
    if !Repertoire(es[0].noeud) && !cfg.exclu(es[0].nom) && es[0].noeud.Casse? {
      e := es[0];
    } else {
      e := FichierCasse(cfg, rel, es[1..]);
    }
  }

  /** A walk that raises has met something. */
  lemma {:induction false} IncompletBloque(cfg: Config, r: Racine, rel: Chemin, n: Noeud) returns (suite: Chemin)
    requires NomsUniques(n) && !Parcours(cfg, r, rel, n).complet
    ensures Bloque(cfg, r, rel, n, suite)
    decreases n, 1, 0
  {
    if !n.Dossier? {
      suite := [];
    } else if !Fichiers(cfg, rel, n.entrees).complet {
      var e := FichierCasse(cfg, rel, n.entrees);
      TrouverUnique(n.entrees, e);
      suite := [e.nom];
    } else {
      var e, reste := DescenteBloquee(cfg, r, rel, n, Retenus(cfg, r, rel, n.entrees));
      TrouverUnique(n.entrees, e);
      suite := [e.nom] + reste;
      assert suite[1..] == reste;
    }
  }

  lemma {:induction false} DescenteBloquee(cfg: Config, r: Racine, rel: Chemin, n: Noeud, es: seq<Entree>)
    returns (e: Entree, reste: Chemin)
    requires n.Dossier? && NomsUniques(n) && forall f :: f in es ==> f in n.entrees && Repertoire(f.noeud)
    requires !Descentes(cfg, r, rel, n, es).complet
    ensures e in es && !e.noeud.LienDossier? && Bloque(cfg, r, rel + [e.nom], e.noeud, reste)
    decreases n, 0, |es|
  {
    hide Bloque;
    assert es[0] in n.entrees;
    if !es[0].noeud.LienDossier? && !Parcours(cfg, r, rel + [es[0].nom], es[0].noeud).complet {
      e := es[0];
      reste := IncompletBloque(cfg, r, rel + [e.nom], e.noeud);
    } else {
      e, reste := DescenteBloquee(cfg, r, rel, n, es[1..]);
    }
  }

  /** And a walk that can be followed down to it raises. */
  lemma {:induction false} BloqueIncomplet(cfg: Config, r: Racine, rel: Chemin, n: Noeud, suite: Chemin)
    requires Bloque(cfg, r, rel, n, suite)
    ensures !Parcours(cfg, r, rel, n).complet
    decreases n, 1, 0
  {
    if suite != [] {
      var e := Entree(suite[0], Trouver(n.entrees, suite[0]).value);
      if e.noeud.Casse? {
        FichiersExacts(cfg, rel, n.entrees, Item(rel, true));
      } else {
        BloqueIncomplet(cfg, r, rel + [e.nom], e.noeud, suite[1..]);
        DescenteIncomplete(cfg, r, rel, n, Retenus(cfg, r, rel, n.entrees), e);
      }
    }
  }

  lemma {:induction false} DescenteIncomplete(cfg: Config, r: Racine, rel: Chemin, n: Noeud, es: seq<Entree>, e: Entree)
    requires n.Dossier? && forall f :: f in es ==> f in n.entrees
    requires e in es && !e.noeud.LienDossier? && !Parcours(cfg, r, rel + [e.nom], e.noeud).complet
    ensures !Descentes(cfg, r, rel, n, es).complet
    decreases |es|
  {
    assert es[0] in n.entrees;
    if e != es[0] {
      assert e in es[1..];
      DescenteIncomplete(cfg, r, rel, n, es[1..], e);
    }
  }

  /** What stands at a path makes the walk raise if it is reached: the root when it is not a
      directory, a directory that cannot be listed, a file whose `stat` fails. */
  predicate Bloquant(n: Option<Noeud>, suite: Chemin) {
    n.Some? && if suite == [] then !n.value.Dossier? else n.value.Illisible? || n.value.Casse?
  }

  /** A permitted path of the tree where the walk cannot go on. */
  ghost predicate Obstacle(cfg: Config, r: Racine, c: Chemin) {
    var n := Lieu(r.arbre, c);
    Bloquant(n, c) && Permis(cfg, r, [], c, !n.value.Casse?)
  }

  lemma {:induction false} BloqueSsi(cfg: Config, r: Racine, rel: Chemin, n: Noeud, suite: Chemin)
    requires !EnZone(cfg, r, rel)
    ensures Bloque(cfg, r, rel, n, suite)
            <==> Bloquant(Lieu(n, suite), suite) && Permis(cfg, r, rel, suite, !Lieu(n, suite).value.Casse?)
    decreases |suite|
  {
    if suite != [] && n.Dossier? && Trouver(n.entrees, suite[0]).Some? {
      var m := Trouver(n.entrees, suite[0]).value;
      var fin := Lieu(m, suite[1..]);
      PermisSuite(cfg, r, rel, suite, fin.Some? && !fin.value.Casse?);
      assert suite[..1] == [suite[0]];
      if m.Dossier? || m.Illisible? {
        FiltreParNomSuffit(cfg, r, rel, Entree(suite[0], m));
        if !EnZone(cfg, r, rel + [suite[0]]) { BloqueSsi(cfg, r, rel + [suite[0]], m, suite[1..]); }
      }
    }
  }

  lemma RacineHorsZone(cfg: Config, r: Racine)
    requires Acceptee(cfg, r)
    ensures !EnZone(cfg, r, [])
  {
    assert r.lexicale + [] == r.lexicale && r.reelle + [] == r.reelle;
  }

  /** A walk completes exactly when every permitted directory can be listed and every
      permitted file examined. */
  lemma CompletSsi(cfg: Config, r: Racine)
    requires Acceptee(cfg, r) && NomsUniques(r.arbre)
    ensures Parcours(cfg, r, [], r.arbre).complet <==> forall c :: !Obstacle(cfg, r, c)
  {
    RacineHorsZone(cfg, r);
    if !Parcours(cfg, r, [], r.arbre).complet {
      var c := IncompletBloque(cfg, r, [], r.arbre);
      BloqueSsi(cfg, r, [], r.arbre, c);
      assert Obstacle(cfg, r, c);
    }
    if c :| Obstacle(cfg, r, c) {
      BloqueSsi(cfg, r, [], r.arbre, c);
      BloqueIncomplet(cfg, r, [], r.arbre, c);
    }
  }

  /** The walk of an accepted root produces visible items only, each once; it completes exactly
      when nothing permitted is in the way, and then it produces all of them. */
  lemma ParcoursExact(cfg: Config, r: Racine)
    requires Acceptee(cfg, r) && NomsUniques(r.arbre)
    ensures var scan := Parcours(cfg, r, [], r.arbre);
            && Sorting.Distinct(scan.items)
            && (forall it :: it in scan.items ==> Visible(cfg, r, it))
            && (scan.complet <==> forall c :: !Obstacle(cfg, r, c))
            && (scan.complet ==> forall it :: Visible(cfg, r, it) ==> it in scan.items)
  {
    var scan := Parcours(cfg, r, [], r.arbre);
    RacineHorsZone(cfg, r);
    CompletSsi(cfg, r);
    ParcoursDistinct(cfg, r, [], r.arbre);
    forall it | it in scan.items ensures Visible(cfg, r, it) {
      ParcoursSur(cfg, r, [], r.arbre, it);
      AtteintSsi(cfg, r, [], r.arbre, it.chemin, it.estDossier);
    }
    forall it | scan.complet && Visible(cfg, r, it) ensures it in scan.items {
      AtteintSsi(cfg, r, [], r.arbre, it.chemin, it.estDossier);
      ParcoursTotal(cfg, r, [], r.arbre, it.chemin, it.estDossier);
      assert [] + it.chemin == it.chemin;
    }
  }

  // ---------------------------------------------------------------------------
  // In what order
  // ---------------------------------------------------------------------------

  /** The item is the directory `rel`, or its directory was produced before it. */
  ghost predicate ApresSonDossier(rel: Chemin, items: seq<Item>, i: nat)
    requires i < |items|
  {
    || items[i] == Item(rel, true)
    || (items[i].chemin != [] && exists j :: 0 <= j < i && items[j] == Item(items[i].chemin[..|items[i].chemin| - 1], true))
  }

  ghost predicate EnOrdre(rel: Chemin, items: seq<Item>) { forall i :: 0 <= i < |items| ==> ApresSonDossier(rel, items, i) }

  lemma ApresToujours(rel: Chemin, a: seq<Item>, b: seq<Item>, i: nat)
    requires i < |a| && ApresSonDossier(rel, a, i)
    ensures ApresSonDossier(rel, a + b, i)
  {
    if a[i] != Item(rel, true) {
      var j :| 0 <= j < i && a[j] == Item(a[i].chemin[..|a[i].chemin| - 1], true);
      assert (a + b)[j] == a[j];
    }
  }

  /** The items of a subdirectory, after those of its directory. */
  lemma SousDossierEnOrdre(rel: Chemin, nom: string, a: seq<Item>, b: seq<Item>)
    requires EnOrdre(rel, a) && Item(rel, true) in a && EnOrdre(rel + [nom], b)
    ensures EnOrdre(rel, a + b)
  {
    var p :| 0 <= p < |a| && a[p] == Item(rel, true);
    var s := a + b;
    forall i | 0 <= i < |s| ensures ApresSonDossier(rel, s, i) {
      if i < |a| {
        ApresToujours(rel, a, b, i);
      } else if s[i] == Item(rel + [nom], true) {
        assert s[p] == a[p] && (rel + [nom])[..|rel + [nom]| - 1] == rel;
      } else {
        assert ApresSonDossier(rel + [nom], b, i - |a|);
        var j :| 0 <= j < i - |a| && b[j] == Item(s[i].chemin[..|s[i].chemin| - 1], true);
        assert s[|a| + j] == b[j];
      }
    }
  }

  lemma FichiersEnOrdre(cfg: Config, rel: Chemin, es: seq<Entree>)
    ensures EnOrdre(rel, [Item(rel, true)] + Fichiers(cfg, rel, es).items)
  {
    var s := [Item(rel, true)] + Fichiers(cfg, rel, es).items;
    forall i | 0 < i < |s| ensures ApresSonDossier(rel, s, i) {
      var it := s[i];
      assert it in Fichiers(cfg, rel, es).items;
      FichiersExacts(cfg, rel, es, it);
      assert it.chemin[..|it.chemin| - 1] == rel && s[0] == Item(rel, true);
    }
  }

  /** A directory is produced before everything it holds, whether the walk completes or not. */
  lemma {:induction false} ParcoursEnOrdre(cfg: Config, r: Racine, rel: Chemin, n: Noeud)
    ensures EnOrdre(rel, Parcours(cfg, r, rel, n).items)
    decreases n, 1, 0
  {
    if n.Dossier? {
      var f := Fichiers(cfg, rel, n.entrees);
      FichiersEnOrdre(cfg, rel, n.entrees);
      if f.complet {
        DescentesEnOrdre(cfg, r, rel, n, Retenus(cfg, r, rel, n.entrees), [Item(rel, true)] + f.items);
      }
    }
  }

  lemma {:induction false} DescentesEnOrdre(cfg: Config, r: Racine, rel: Chemin, n: Noeud, es: seq<Entree>, avant: seq<Item>)
    requires n.Dossier? && forall e :: e in es ==> e in n.entrees
    requires EnOrdre(rel, avant) && Item(rel, true) in avant
    ensures EnOrdre(rel, avant + Descentes(cfg, r, rel, n, es).items)
    decreases n, 0, |es|
  {
    hide EnOrdre;
    if es == [] {
      assert avant + [] == avant;
    } else {
      var e, reste := es[0], Descentes(cfg, r, rel, n, es[1..]);
      assert e in n.entrees;
      if e.noeud.LienDossier? {
        DescentesEnOrdre(cfg, r, rel, n, es[1..], avant);
      } else {
        var sous := Parcours(cfg, r, rel + [e.nom], e.noeud);
        ParcoursEnOrdre(cfg, r, rel + [e.nom], e.noeud);
        SousDossierEnOrdre(rel, e.nom, avant, sous.items);
        if sous.complet {
          DescentesEnOrdre(cfg, r, rel, n, es[1..], avant + sous.items);
          assert avant + sous.items + reste.items == avant + (sous.items + reste.items);
        }
      }
    }
  }

  // ---------------------------------------------------------------------------
  // Several roots
  // ---------------------------------------------------------------------------

  /** Nothing permitted is in the way in the first `k` roots. */
  ghost predicate Degagees(cfg: Config, rs: seq<Racine>, k: nat)
    requires k <= |rs|
  {
    forall i, c :: 0 <= i < k ==> !Obstacle(cfg, rs[i], c)
  }

  ghost predicate Arbres(rs: seq<Racine>) { forall r :: r in rs ==> NomsUniques(r.arbre) }

  ghost predicate ProductionsExactes(cfg: Config, rs: seq<Racine>, k: nat, ps: seq<Production>)
    requires k <= |rs|
  {
    && (forall i, j :: 0 <= i < j < |ps| ==> ps[i] != ps[j])
    && (forall p :: p in ps ==> p.racine < k && Visible(cfg, rs[p.racine], p.item))
    && (forall j: nat, it :: j < k && Degagees(cfg, rs, j + 1) && Visible(cfg, rs[j], it) ==> Production(j, it) in ps)
  }

  lemma ProductionsReunies(cfg: Config, rs: seq<Racine>, k: nat, ps: seq<Production>, items: seq<Item>)
    requires k < |rs| && ProductionsExactes(cfg, rs, k, ps)
    requires Sorting.Distinct(items) && forall it :: it in items ==> Visible(cfg, rs[k], it)
    requires Degagees(cfg, rs, k + 1) ==> forall it :: Visible(cfg, rs[k], it) ==> it in items
    ensures ProductionsExactes(cfg, rs, k + 1, ps + De(k, items))
  {
    hide Visible, Obstacle;
    var qs := De(k, items);
    forall i, j | 0 <= i < j < |ps + qs| ensures (ps + qs)[i] != (ps + qs)[j] {
      if i < |ps| <= j { assert ps[i] in ps; }
    }
    forall p | p in ps + qs ensures p.racine < k + 1 && Visible(cfg, rs[p.racine], p.item) {
      if p !in ps {
        var i :| 0 <= i < |qs| && qs[i] == p;
        assert items[i] in items;
      }
    }
    forall j: nat, it | j < k + 1 && Degagees(cfg, rs, j + 1) && Visible(cfg, rs[j], it) ensures Production(j, it) in ps + qs {
      if j == k {
        var i :| 0 <= i < |items| && items[i] == it;
        assert qs[i] == Production(j, it);
      }
    }
  }

  lemma {:induction false} RacinesExactes(cfg: Config, rs: seq<Racine>, k: nat)
    requires k <= |rs| && Arbres(rs) && ToutesAcceptees(cfg, rs)
    ensures ParcoursRacines(cfg, rs, k).complet <==> Degagees(cfg, rs, k)
    ensures ProductionsExactes(cfg, rs, k, ParcoursRacines(cfg, rs, k).productions)
  {
    hide Visible, Obstacle, NomsUniques, Acceptee;
    if k > 0 {
      var avant, r := ParcoursRacines(cfg, rs, k - 1), rs[k - 1];
      RacinesExactes(cfg, rs, k - 1);
      ParcoursExact(cfg, r);
      DegageesSuivante(cfg, rs, k - 1);
      if avant.complet {
        ProductionsReunies(cfg, rs, k - 1, avant.productions, Parcours(cfg, r, [], r.arbre).items);
      } else {
        ProductionsFigees(cfg, rs, k - 1, avant.productions);
      }
    }
  }

  lemma DegageesSuivante(cfg: Config, rs: seq<Racine>, k: nat)
    requires k < |rs|
    ensures Degagees(cfg, rs, k + 1) <==> Degagees(cfg, rs, k) && forall c :: !Obstacle(cfg, rs[k], c)
  {
  }

  lemma ProductionsFigees(cfg: Config, rs: seq<Racine>, k: nat, ps: seq<Production>)
    requires k < |rs| && ProductionsExactes(cfg, rs, k, ps) && !Degagees(cfg, rs, k)
    ensures ProductionsExactes(cfg, rs, k + 1, ps)
  {
    hide Visible;
    DegageesSuivante(cfg, rs, k);
  }

  /** `crawl` over any roots: it completes exactly when no root lies in a zone and nothing
      permitted is in the way; what it yields is visible, each item of each root once; and
      every root before the first obstacle is yielded whole, all of them when it completes. */
  lemma CrawlExact(cfg: Config, rs: seq<Racine>)
    requires Arbres(rs)
    ensures var scan := Crawl(cfg, rs);
            && (scan.complet <==> ToutesAcceptees(cfg, rs) && Degagees(cfg, rs, |rs|))
            && (ToutesAcceptees(cfg, rs) ==> ProductionsExactes(cfg, rs, |rs|, scan.productions))
            && (!ToutesAcceptees(cfg, rs) ==> scan.productions == [])
            && (scan.complet ==> forall j: nat, it :: j < |rs| && Visible(cfg, rs[j], it) ==> Production(j, it) in scan.productions)
  {
    if ToutesAcceptees(cfg, rs) {
      RacinesExactes(cfg, rs, |rs|);
      forall j: nat, it | Crawl(cfg, rs).complet && j < |rs| && Visible(cfg, rs[j], it) ensures Production(j, it) in Crawl(cfg, rs).productions {
        assert Degagees(cfg, rs, j + 1);
      }
    }
  }

  ghost predicate ParRacine(ps: seq<Production>, k: nat) {
    && (forall i :: 0 <= i < |ps| ==> ps[i].racine < k)
    && (forall i, j :: 0 <= i < j < |ps| ==> ps[i].racine <= ps[j].racine)
  }

  lemma ParRacineSuivante(ps: seq<Production>, k: nat, qs: seq<Production>)
    requires ParRacine(ps, k) && forall i :: 0 <= i < |qs| ==> qs[i].racine == k
    ensures ParRacine(ps + qs, k + 1)
  {
  }

  /** The roots are walked one after another, in their order. */
  lemma {:induction false} RacinesEnOrdre(cfg: Config, rs: seq<Racine>, k: nat)
    requires k <= |rs|
    ensures ParRacine(ParcoursRacines(cfg, rs, k).productions, k)
  {
    hide Parcours;
    if k > 0 {
      RacinesEnOrdre(cfg, rs, k - 1);
      ParRacineSuivante(ParcoursRacines(cfg, rs, k - 1).productions, k - 1, De(k - 1, Parcours(cfg, rs[k - 1], [], rs[k - 1].arbre).items));
    }
  }

  // ---------------------------------------------------------------------------
  // Working zones
  // ---------------------------------------------------------------------------

  /** The item is a working zone or lies in one, by its own names or through a link. */
  predicate Touche(cfg: Config, r: Racine, it: Item) {
    || EnZone(cfg, r, it.chemin)
    || var n := Lieu(r.arbre, it.chemin); n.Some? && n.value.LienFichier? && SousZone(n.value.cible, cfg.zones)
  }

  /** Files are not compared with the zones: one that bears the very path of a zone, or a
      link to a file of a zone, is produced. */
  predicate FichierDeZone(cfg: Config, r: Racine, it: Item) {
    && !it.estDossier
    && (|| r.lexicale + it.chemin in cfg.zones
        || r.reelle + it.chemin in cfg.zones
        || var n := Lieu(r.arbre, it.chemin); n.Some? && n.value.LienFichier? && SousZone(n.value.cible, cfg.zones))
  }

  lemma ZoneSousBase(base: Chemin, nom: string, zones: seq<Chemin>)
    requires !SousZone(base, zones)
    ensures SousZone(base + [nom], zones) <==> base + [nom] in zones
  {
    forall z | z in zones ensures z <= base + [nom] <==> z == base + [nom] { ZoneExacte(base, nom, z); }
  }

  lemma PereHorsZone(cfg: Config, r: Racine, it: Item)
    requires Acceptee(cfg, r) && Visible(cfg, r, it) && it.chemin != []
    ensures !EnZone(cfg, r, it.chemin[..|it.chemin| - 1])
    ensures it.estDossier ==> !EnZone(cfg, r, it.chemin)
  {
    var c := it.chemin;
    assert [] + c[..|c|] == c && [] + c[..|c| - 1] == c[..|c| - 1];
    assert PermisA(cfg, r, [], c, it.estDossier, |c|);
    if |c| > 1 {
      assert PermisA(cfg, r, [], c, it.estDossier, |c| - 1);
    } else {
      assert r.lexicale + [] == r.lexicale && r.reelle + [] == r.reelle;
    }
  }

  /** What the walk produces is outside every zone, except exactly those files. The content is
      about paths: no item lies in a zone by its own names, short of a file that bears the very
      path of one. Links to files are never compared with the zones, so both sides say the same
      of them. */
  lemma HorsZones(cfg: Config, r: Racine, it: Item)
    requires Acceptee(cfg, r) && NomsUniques(r.arbre) && it in Parcours(cfg, r, [], r.arbre).items
    ensures Touche(cfg, r, it) <==> FichierDeZone(cfg, r, it)
  {
    hide Parcours, NomsUniques, SousZone, Permis;
    ParcoursExact(cfg, r);
    var c := it.chemin;
    if c == [] {
      assert r.lexicale + [] == r.lexicale && r.reelle + [] == r.reelle;
    } else {
      PereHorsZone(cfg, r, it);
      var base, nom := c[..|c| - 1], c[|c| - 1];
      assert r.lexicale + c == r.lexicale + base + [nom] && r.reelle + c == r.reelle + base + [nom];
      ZoneSousBase(r.lexicale + base, nom, cfg.zones);
      ZoneSousBase(r.reelle + base, nom, cfg.zones);
    }
  }

  /** The exception is real: a link to an uploaded file is produced. */
  lemma LienVersZoneProduit()
    ensures var cfg := Config(_ => false, [["data", "uploads"]]);
            var r := Racine(["archive"], ["archive"], Dossier([Entree("plan.pdf", LienFichier(["data", "uploads", "plan.pdf"]))]));
            var it := Item(["plan.pdf"], false);
            Acceptee(cfg, r) && Production(0, it) in Crawl(cfg, [r]).productions && Touche(cfg, r, it)
  {
    var cfg := Config(_ => false, [["data", "uploads"]]);
    var lien := Entree("plan.pdf", LienFichier(["data", "uploads", "plan.pdf"]));
    var r := Racine(["archive"], ["archive"], Dossier([lien]));
    assert Fichiers(cfg, [], [lien]).items[0] == Item(["plan.pdf"], false);
    assert ["data", "uploads"] in cfg.zones && ["data", "uploads"] <= ["data", "uploads", "plan.pdf"];
    assert Trouver([lien], "plan.pdf") == Some(lien.noeud);
    assert Lieu(r.arbre, ["plan.pdf"]) == Some(lien.noeud);
    assert Acceptee(cfg, r);
    var items := Parcours(cfg, r, [], r.arbre).items;
    assert items[1] == Item(["plan.pdf"], false);
    assert ParcoursRacines(cfg, [r], 0) == ScanRacines([], true);
    assert ParcoursRacines(cfg, [r], 1).productions == [] + De(0, items);
    assert De(0, items)[1] == Production(0, Item(["plan.pdf"], false));
  }
}
