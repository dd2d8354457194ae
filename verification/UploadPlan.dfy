/** Grouped uploads (seamtech_search/api.py): how client file names become relative
    paths, and how the collisions of a plan are found before anything is written.

    A path is the sequence of its components. Case folding is a parameter. */
module UploadPlan {
  import opened Options
  import opened Paths

  type Pli = string -> string

  // ---------------------------------------------------------------------------
  // `_safe_relative_path`
  // ---------------------------------------------------------------------------

  function RemplacerBarres(s: string): string {
    if s == "" then "" else [if s[0] == '\\' then '/' else s[0]] + RemplacerBarres(s[1..])
  }

  function Filtrer(parts: seq<string>, refus: set<string>): seq<string> {
    if parts == [] then []
    else (if parts[0] in refus then [] else [parts[0]]) + Filtrer(parts[1..], refus)
  }

  /** `Path(s).parts` on POSIX: exactly two leading slashes are a root of their own. */
  function PartiesPosix(s: string): seq<string> {
    var racine :=
      if "//" <= s && !("///" <= s) then ["//"]
      else if "/" <= s then ["/"]
      else [];
    racine + Filtrer(Decouper(s), {"", "."})
  }

  /** `re.sub(r"[^\w\-+. ]", "_", part)`, for a given notion of word character. */
  function Assainir(mot: char -> bool, s: string): string {
    if s == "" then ""
    else [if mot(s[0]) || s[0] in "-+. " then s[0] else '_'] + Assainir(mot, s[1..])
  }

  function RognerDebut(s: string): string {
    if s != "" && s[0] in " ." then RognerDebut(s[1..]) else s
  }

  function RognerFin(s: string): string {
    if s != "" && s[|s| - 1] in " ." then RognerFin(s[..|s| - 1]) else s
  }

  function Nettoyer(mot: char -> bool, part: string): string {
    var r := RognerFin(RognerDebut(Assainir(mot, part)));
    if r == "" then "file" else r
  }

  function CheminSur(mot: char -> bool, nomFichier: string): Chemin {
    var parts := Filtrer(PartiesPosix(RemplacerBarres(nomFichier)), {"", ".", "..", "/"});
    var nets := seq(|parts|, i requires 0 <= i < |parts| => Nettoyer(mot, parts[i]));
    if nets == [] then ["file"] else nets
  }

  /** A component that the file system takes as a plain name. */
  ghost predicate NomOrdinaire(p: string) {
    p != "" && p != "." && p != ".." && SansBarre(p) && '\\' !in p && p[0] !in " ." && p[|p| - 1] !in " ."
  }

  ghost predicate CheminOrdinaire(c: Chemin) { c != [] && forall p :: p in c ==> NomOrdinaire(p) }

  lemma {:induction false} AssainirSur(mot: char -> bool, s: string)
    requires !mot('/') && !mot('\\')
    ensures '/' !in Assainir(mot, s) && '\\' !in Assainir(mot, s)
  {
    if s != "" { AssainirSur(mot, s[1..]); }
  }

  lemma {:induction false} RognerSur(s: string, c: char)
    requires c !in s
    ensures c !in RognerDebut(s) && c !in RognerFin(s)
    ensures RognerDebut(s) != "" ==> RognerDebut(s)[0] !in " ."
    ensures RognerFin(s) != "" ==> RognerFin(s)[|RognerFin(s)| - 1] !in " ." && RognerFin(s)[0] == s[0]
    decreases |s|
  {
    if s != "" {
      RognerSur(s[1..], c);
      RognerSur(s[..|s| - 1], c);
    }
  }

  lemma NettoyerOrdinaire(mot: char -> bool, part: string)
    requires !mot('/') && !mot('\\')
    ensures NomOrdinaire(Nettoyer(mot, part))
  {
    var a := Assainir(mot, part);
    AssainirSur(mot, part);
    RognerSur(a, '/');
    RognerSur(a, '\\');
    RognerSur(RognerDebut(a), '/');
    RognerSur(RognerDebut(a), '\\');
  }

  /** Whatever the client file name, the planned path is a non-empty list of plain
      names: joined to the staging directory it stays strictly under it. */
  lemma CheminSurOrdinaire(mot: char -> bool, nomFichier: string)
    requires !mot('/') && !mot('\\')
    ensures CheminOrdinaire(CheminSur(mot, nomFichier))
  {
    var parts := Filtrer(PartiesPosix(RemplacerBarres(nomFichier)), {"", ".", "..", "/"});
    var c := CheminSur(mot, nomFichier);
    forall i | 0 <= i < |c| ensures NomOrdinaire(c[i]) {
      if parts != [] { NettoyerOrdinaire(mot, parts[i]); }
    }
  }

  // ---------------------------------------------------------------------------
  // The planned path, written out
  // ---------------------------------------------------------------------------

  ghost predicate Permis(mot: char -> bool, c: char) { mot(c) || c == '-' || c == '+' || c == '.' || c == ' ' }

  /** `r` is `s` where each character that is not allowed is an underscore. */
  ghost predicate Assaini(mot: char -> bool, s: string, r: string) {
    |r| == |s| && forall i :: 0 <= i < |s| ==> r[i] == if Permis(mot, s[i]) then s[i] else '_'
  }

  ghost predicate Bord(c: char) { c == ' ' || c == '.' }

  ghost predicate ToutBord(s: string) { forall i :: 0 <= i < |s| ==> Bord(s[i]) }

  /** What becomes of a component: sanitised, without blanks and dots at its ends, "file" when
      nothing is left. */
  ghost predicate Net(mot: char -> bool, s: string, r: string) {
    exists avant, coeur, apres :: Epluche(mot, s, avant, coeur, apres) && r == if coeur == "" then "file" else coeur
  }

  ghost predicate Epluche(mot: char -> bool, s: string, avant: string, coeur: string, apres: string) {
    && Assaini(mot, s, avant + coeur + apres) && ToutBord(avant) && ToutBord(apres)
    && (coeur != "" ==> !Bord(coeur[0]) && !Bord(coeur[|coeur| - 1]))
  }

  lemma {:induction false} AssainirEcrit(mot: char -> bool, s: string)
    ensures Assaini(mot, s, Assainir(mot, s))
  {
    if s != "" { AssainirEcrit(mot, s[1..]); }
  }

  lemma {:induction false} RognerDebutEcrit(s: string) returns (avant: string)
    ensures s == avant + RognerDebut(s) && ToutBord(avant)
    ensures RognerDebut(s) != "" ==> !Bord(RognerDebut(s)[0])
  {
    avant := "";
    if s != "" && s[0] in " ." {
      avant := RognerDebutEcrit(s[1..]);
      avant := [s[0]] + avant;
      assert s == [s[0]] + s[1..];
    }
  }

  lemma {:induction false} RognerFinEcrit(s: string) returns (apres: string)
    ensures s == RognerFin(s) + apres && ToutBord(apres)
    ensures RognerFin(s) != "" ==> !Bord(RognerFin(s)[|RognerFin(s)| - 1]) && RognerFin(s)[0] == s[0]
    decreases |s|
  {
    apres := "";
    if s != "" && s[|s| - 1] in " ." {
      apres := RognerFinEcrit(s[..|s| - 1]);
      apres := apres + [s[|s| - 1]];
      assert s == s[..|s| - 1] + [s[|s| - 1]];
    }
  }

  lemma NettoyerEcrit(mot: char -> bool, s: string)
    ensures Net(mot, s, Nettoyer(mot, s))
  {
    hide Assainir, RognerDebut, RognerFin;
    var a := Assainir(mot, s);
    AssainirEcrit(mot, s);
    var avant := RognerDebutEcrit(a);
    var apres := RognerFinEcrit(RognerDebut(a));
    var coeur := RognerFin(RognerDebut(a));
    assert a == avant + coeur + apres;
    assert Epluche(mot, s, avant, coeur, apres);
  }

  /** The backslashes of `s` turned into slashes. */
  ghost predicate BarresDroites(s: string, r: string) {
    |r| == |s| && forall i :: 0 <= i < |s| ==> r[i] == if s[i] == '\\' then '/' else s[i]
  }

  lemma {:induction false} RemplacerEcrit(s: string)
    ensures BarresDroites(s, RemplacerBarres(s))
  {
    if s != "" { RemplacerEcrit(s[1..]); }
  }

  /** The places of the components kept: neither empty, nor one dot, nor two. */
  ghost predicate Gardees(morceaux: seq<string>, lieux: seq<nat>) {
    && (forall i, j :: 0 <= i < j < |lieux| ==> lieux[i] < lieux[j])
    && (forall i :: 0 <= i < |lieux| ==> lieux[i] < |morceaux| && Gardee(morceaux[lieux[i]]))
    && (forall k :: 0 <= k < |morceaux| && Gardee(morceaux[k]) ==> k in lieux)
  }

  ghost predicate Gardee(p: string) { p != "" && p != "." && p != ".." }

  ghost predicate AuxPlaces(parts: seq<string>, morceaux: seq<string>, lieux: seq<nat>) {
    |parts| == |lieux| && forall i :: 0 <= i < |lieux| ==> lieux[i] < |morceaux| && parts[i] == morceaux[lieux[i]]
  }

  lemma {:induction false} FiltrerConcat(a: seq<string>, b: seq<string>, refus: set<string>)
    ensures Filtrer(a + b, refus) == Filtrer(a, refus) + Filtrer(b, refus)
  {
    if a == [] {
      assert a + b == b;
    } else {
      assert (a + b)[1..] == a[1..] + b;
      FiltrerConcat(a[1..], b, refus);
    }
  }

  /** Filtering twice is filtering by both lists. */
  lemma {:induction false} FiltrerDeuxFois(parts: seq<string>, a: set<string>, b: set<string>)
    ensures Filtrer(Filtrer(parts, a), b) == Filtrer(parts, a + b)
  {
    if parts != [] {
      FiltrerDeuxFois(parts[1..], a, b);
      FiltrerConcat(if parts[0] in a then [] else [parts[0]], Filtrer(parts[1..], a), b);
    }
  }

  lemma PlaceDePlus(morceaux: seq<string>, dernier: string, parts: seq<string>, lieux: seq<nat>)
    requires Gardees(morceaux, lieux) && AuxPlaces(parts, morceaux, lieux)
    ensures Gardee(dernier) ==>
              Gardees(morceaux + [dernier], lieux + [|morceaux|]) && AuxPlaces(parts + [dernier], morceaux + [dernier], lieux + [|morceaux|])
    ensures !Gardee(dernier) ==> Gardees(morceaux + [dernier], lieux) && AuxPlaces(parts, morceaux + [dernier], lieux)
  {
    hide Gardee;
    forall k | 0 <= k < |morceaux + [dernier]| && Gardee((morceaux + [dernier])[k])
      ensures k in lieux || (k == |morceaux| && Gardee(dernier))
    {
      assert k < |morceaux| ==> Gardee(morceaux[k]);
    }
    forall i | 0 <= i < |lieux| ensures lieux[i] < |morceaux| && Gardee((morceaux + [dernier])[lieux[i]]) {}
  }

  lemma FiltrerUn(p: string, refus: set<string>)
    requires refus == {"", ".", "..", "/"} && SansBarre(p)
    ensures Filtrer([p], refus) == if Gardee(p) then [p] else []
  {
    assert [p][1..] == [];
    assert "/"[0] == '/';
  }

  lemma {:induction false} FiltrerEcrit(morceaux: seq<string>, refus: set<string>) returns (lieux: seq<nat>)
    requires refus == {"", ".", "..", "/"} && forall p :: p in morceaux ==> SansBarre(p)
    ensures Gardees(morceaux, lieux) && AuxPlaces(Filtrer(morceaux, refus), morceaux, lieux)
  {
    assert Gardees([], []) && AuxPlaces(Filtrer([], refus), [], []);
    hide *;
    if morceaux == [] {
      lieux := [];
    } else {
      var n := |morceaux| - 1;
      var avant, dernier := morceaux[..n], morceaux[n];
      lieux := FiltrerEcrit(avant, refus);
      assert morceaux == avant + [dernier];
      FiltrerConcat(avant, [dernier], refus);
      assert dernier in morceaux && SansBarre(dernier);
      FiltrerUn(dernier, refus);
      PlaceDePlus(avant, dernier, Filtrer(avant, refus), lieux);
      assert Filtrer(avant, refus) + [] == Filtrer(avant, refus);
      if Gardee(dernier) { lieux := lieux + [n]; }
    }
  }

  ghost predicate DoubleRacine(s: string) { |s| >= 2 && s[0] == '/' && s[1] == '/' && (|s| == 2 || s[2] != '/') }

  lemma RacineEcrite(s: string, refus: set<string>)
    requires refus == {"", ".", "..", "/"}
    ensures var reste := Filtrer(Decouper(s), refus);
            Filtrer(PartiesPosix(s), refus) == if DoubleRacine(s) then ["//"] + reste else reste
  {
    FiltrerDeuxFois(Decouper(s), {"", "."}, refus);
    assert {"", "."} + refus == refus;
    var racine := if "//" <= s && !("///" <= s) then ["//"] else if "/" <= s then ["/"] else [];
    FiltrerConcat(racine, Filtrer(Decouper(s), {"", "."}), refus);
    hide Decouper;
    assert Filtrer(racine, refus) == if racine == ["//"] then ["//"] else [];
    assert "//" <= s && !("///" <= s) <==> DoubleRacine(s);
    assert [] + Filtrer(Decouper(s), refus) == Filtrer(Decouper(s), refus);
  }

  /** What a list of parts becomes. */
  lemma NettoyerTous(mot: char -> bool, nom: string, parts: seq<string>)
    requires parts == Filtrer(PartiesPosix(RemplacerBarres(nom)), {"", ".", "..", "/"})
    ensures if parts == [] then CheminSur(mot, nom) == ["file"]
            else |CheminSur(mot, nom)| == |parts| && forall i :: 0 <= i < |parts| ==> CheminSur(mot, nom)[i] == Nettoyer(mot, parts[i])
  {
    hide RemplacerBarres, PartiesPosix, Filtrer, Nettoyer;
  }

  /** The planned path, component by component: the client's name is cut at its slashes and
      backslashes, empty, dot and dot-dot components are dropped, the others are cleaned in place,
      and a root of exactly two slashes counts as a component of two underscores. */
  lemma CheminSurEcrit(mot: char -> bool, nom: string) returns (droit: string, morceaux: seq<string>, lieux: seq<nat>)
    requires !mot('/')
    ensures BarresDroites(nom, droit) && Joindre(morceaux) == droit && (forall p :: p in morceaux ==> SansBarre(p))
    ensures Gardees(morceaux, lieux) && Nettoyes(mot, if DoubleRacine(droit) then ["__"] else [], morceaux, lieux, CheminSur(mot, nom))
  {
    droit := RemplacerBarres(nom);
    RemplacerEcrit(nom);
    morceaux := Decouper(droit);
    JoindreDecouper(droit);
    assert forall p :: p in morceaux ==> SansBarre(p);
    hide *;
    lieux := FiltrerEcrit(morceaux, {"", ".", "..", "/"});
    var reste := Filtrer(morceaux, {"", ".", "..", "/"});
    RacineEcrite(droit, {"", ".", "..", "/"});
    var c := CheminSur(mot, nom);
    if DoubleRacine(droit) {
      NettoyerTous(mot, nom, ["//"] + reste);
      ApresRacine(mot, reste, c);
      NettoyesAvecRacine(mot, reste, morceaux, lieux, c);
    } else {
      NettoyerTous(mot, nom, reste);
      NettoyesSansRacine(mot, reste, morceaux, lieux, c);
    }
  }

  ghost predicate Nettoyes(mot: char -> bool, debut: Chemin, morceaux: seq<string>, lieux: seq<nat>, c: Chemin) {
    if debut == [] && lieux == [] then c == ["file"]
    else
      && |c| == |debut| + |lieux| && debut <= c
      && forall i :: 0 <= i < |lieux| ==> lieux[i] < |morceaux| && Net(mot, morceaux[lieux[i]], c[|debut| + i])
  }

  lemma NettoyesSansRacine(mot: char -> bool, reste: seq<string>, morceaux: seq<string>, lieux: seq<nat>, c: Chemin)
    requires AuxPlaces(reste, morceaux, lieux)
    requires if reste == [] then c == ["file"] else |c| == |reste| && forall i :: 0 <= i < |reste| ==> c[i] == Nettoyer(mot, reste[i])
    ensures Nettoyes(mot, [], morceaux, lieux, c)
  {
    hide Nettoyer, Net;
    if reste != [] {
      forall i | 0 <= i < |lieux| ensures Net(mot, morceaux[lieux[i]], c[i]) { NettoyerEcrit(mot, reste[i]); }
    }
  }

  lemma ApresRacine(mot: char -> bool, reste: seq<string>, c: Chemin)
    requires var parts := ["//"] + reste; |c| == |parts| && forall i :: 0 <= i < |parts| ==> c[i] == Nettoyer(mot, parts[i])
    ensures |c| == 1 + |reste| && c[0] == Nettoyer(mot, "//") && forall i :: 0 <= i < |reste| ==> c[1 + i] == Nettoyer(mot, reste[i])
  {
    hide Nettoyer;
    var parts := ["//"] + reste;
    assert parts[0] == "//";
    forall i | 0 <= i < |reste| ensures c[1 + i] == Nettoyer(mot, reste[i]) { assert parts[1 + i] == reste[i]; }
  }

  lemma NettoyesAvecRacine(mot: char -> bool, reste: seq<string>, morceaux: seq<string>, lieux: seq<nat>, c: Chemin)
    requires !mot('/') && AuxPlaces(reste, morceaux, lieux)
    requires |c| == 1 + |reste| && c[0] == Nettoyer(mot, "//") && forall i :: 0 <= i < |reste| ==> c[1 + i] == Nettoyer(mot, reste[i])
    ensures Nettoyes(mot, ["__"], morceaux, lieux, c)
  {
    DoubleBarre(mot);
    hide Nettoyer, Net;
    forall i | 0 <= i < |lieux| ensures Net(mot, morceaux[lieux[i]], c[1 + i]) { NettoyerEcrit(mot, reste[i]); }
  }

  lemma DoubleBarre(mot: char -> bool)
    requires !mot('/')
    ensures Nettoyer(mot, "//") == "__"
  {
    assert "//"[1..] == "/" && "/"[1..] == "";
    assert Assainir(mot, "/") == "_" && Assainir(mot, "//") == "__";
  }

  lemma AssainiIdentite(mot: char -> bool, p: string, a: string)
    requires Assaini(mot, p, a) && forall x :: x in p ==> Permis(mot, x)
    ensures a == p
  {
  }

  lemma CoeurEntier(avant: string, coeur: string, apres: string)
    requires ToutBord(avant) && ToutBord(apres)
    requires var p := avant + coeur + apres; p != "" && !Bord(p[0]) && !Bord(p[|p| - 1])
    ensures coeur == avant + coeur + apres
  {
    BordsDe(avant, coeur + apres);
    BordsDe(apres, avant + coeur);
    hide *;
    assert avant + (coeur + apres) == avant + coeur + apres;
  }

  lemma NetOrdinaire(mot: char -> bool, p: string, r: string)
    requires NomOrdinaire(p) && (forall x :: x in p ==> Permis(mot, x)) && Net(mot, p, r)
    ensures r == p
  {
    var avant, coeur, apres :| Epluche(mot, p, avant, coeur, apres) && r == if coeur == "" then "file" else coeur;
    AssainiIdentite(mot, p, avant + coeur + apres);
    assert p != "" && !Bord(p[0]) && !Bord(p[|p| - 1]);
    hide NomOrdinaire, Assaini, Bord, ToutBord, Permis;
    CoeurEntier(avant, coeur, apres);
  }

  lemma BordsDe(bord: string, reste: string)
    ensures bord != "" && ToutBord(bord) ==> Bord((bord + reste)[0]) && Bord((reste + bord)[|reste + bord| - 1])
  {
  }

  lemma {:induction false} JoindreSans(c: Chemin, x: char)
    requires x != '/' && forall p :: p in c ==> x !in p
    ensures x !in Joindre(c)
  {
    if |c| > 1 { JoindreSans(c[1..], x); }
  }

  lemma {:induction false} FiltrerTout(parts: seq<string>, refus: set<string>)
    requires forall p :: p in parts ==> p !in refus
    ensures Filtrer(parts, refus) == parts
  {
    if parts != [] { FiltrerTout(parts[1..], refus); }
  }

  lemma PartiesOrdinaires(c: Chemin)
    requires CheminOrdinaire(c)
    ensures Filtrer(PartiesPosix(RemplacerBarres(Joindre(c))), {"", ".", "..", "/"}) == c
  {
    var s := Joindre(c);
    forall p | p in c ensures SansBarre(p) && '\\' !in p && p !in {"", ".", "..", "/"} { assert NomOrdinaire(p); }
    JoindreSans(c, '\\');
    RemplacerEcrit(s);
    assert RemplacerBarres(s) == s;
    DecouperJoindre(c);
    assert NomOrdinaire(c[0]) && c[0] in c;
    assert s[0] == c[0][0] && s[0] != '/';
    hide Joindre, Filtrer, RemplacerBarres, Decouper, PartiesPosix, CheminOrdinaire;
    FiltrerTout(c, {"", ".", "..", "/"});
    RacineEcrite(s, {"", ".", "..", "/"});
  }

  lemma NettoyerGarde(mot: char -> bool, p: string)
    requires NomOrdinaire(p) && forall x :: x in p ==> Permis(mot, x)
    ensures Nettoyer(mot, p) == p
  {
    hide Nettoyer, Net, NomOrdinaire, Permis;
    NettoyerEcrit(mot, p);
    NetOrdinaire(mot, p, Nettoyer(mot, p));
  }

  /** A name made of ordinary components of allowed characters is planned as those components. */
  lemma CheminOrdinaireGarde(mot: char -> bool, c: Chemin)
    requires CheminOrdinaire(c) && forall p, x :: p in c && x in p ==> Permis(mot, x)
    ensures CheminSur(mot, Joindre(c)) == c
  {
    hide Nettoyer, Joindre, CheminSur, Filtrer, RemplacerBarres, Decouper, PartiesPosix, NomOrdinaire, Permis;
    PartiesOrdinaires(c);
    NettoyerTous(mot, Joindre(c), c);
    forall i | 0 <= i < |c| ensures Nettoyer(mot, c[i]) == c[i] {
      assert c[i] in c;
      NettoyerGarde(mot, c[i]);
    }
  }

  /** How the system resolves a relative path below a directory. */
  function Resoudre(base: Chemin, c: Chemin): Chemin
    decreases |c|
  {
    if c == [] then base
    else if c[0] == "" || c[0] == "." then Resoudre(base, c[1..])
    else if c[0] == ".." then Resoudre(if base == [] then [] else base[..|base| - 1], c[1..])
    else Resoudre(base + [c[0]], c[1..])
  }

  lemma {:induction false} ResoudreOrdinaire(base: Chemin, c: Chemin)
    requires forall p :: p in c ==> NomOrdinaire(p)
    ensures Resoudre(base, c) == base + c
    decreases |c|
  {
    if c != [] {
      assert NomOrdinaire(c[0]);
      ResoudreOrdinaire(base + [c[0]], c[1..]);
      assert c == [c[0]] + c[1..];
      assert base + [c[0]] + c[1..] == base + c;
    } else {
      assert base + c == base;
    }
  }

  /** Every planned file lands strictly under the staging directory. */
  lemma StrictementSousDepot(mot: char -> bool, depot: Chemin, nomFichier: string)
    requires !mot('/') && !mot('\\')
    ensures var cible := Resoudre(depot, CheminSur(mot, nomFichier));
            depot < cible && cible[|depot|..] == CheminSur(mot, nomFichier)
  {
    CheminSurOrdinaire(mot, nomFichier);
    ResoudreOrdinaire(depot, CheminSur(mot, nomFichier));
  }

  // ---------------------------------------------------------------------------
  // Writing a plan, one file after another
  // ---------------------------------------------------------------------------

  datatype Noeud = Dossier | Fichier(envoi: nat)

  /** A tree whose names are compared through `pli`: folded path to node. */
  type Arbre = map<Chemin, Noeud>

  function Plier(pli: Pli, c: Chemin): (r: Chemin)
    ensures |r| == |c|
  {
    seq(|c|, i requires 0 <= i < |c| => pli(c[i]))
  }

  /** `target.parent.mkdir(parents=True, exist_ok=True)`, from the top; `None` when a file is in the way. */
  function CreerDossiers(arbre: Arbre, cle: Chemin, n: nat): Option<Arbre>
    requires n <= |cle|
  {
    if n == 0 then Some(arbre)
    else
      var r := CreerDossiers(arbre, cle, n - 1);
      if r.None? then None
      else if cle[..n] in r.value then (if r.value[cle[..n]].Dossier? then r else None)
      else Some(r.value[cle[..n] := Dossier])
  }

  /** `target.open("wb")` after the directories: truncates an existing file, fails on a directory. */
  function EcrireUn(pli: Pli, arbre: Arbre, c: Chemin, envoi: nat): Option<Arbre>
    requires c != []
  {
    var cle := Plier(pli, c);
    var r := CreerDossiers(arbre, cle, |cle| - 1);
    if r.None? || (cle in r.value && r.value[cle].Dossier?) then None
    else Some(r.value[cle := Fichier(envoi)])
  }

  ghost predicate Nommes(plan: seq<Chemin>) { forall i :: 0 <= i < |plan| ==> plan[i] != [] }

  /** The first `n` uploads written into an empty staging directory. */
  function EcrirePlan(pli: Pli, plan: seq<Chemin>, n: nat): Option<Arbre>
    requires n <= |plan| && Nommes(plan)
  {
    if n == 0 then Some(map[])
    else
      var r := EcrirePlan(pli, plan, n - 1);
      if r.None? then None else EcrireUn(pli, r.value, plan[n - 1], n - 1)
  }

  /** Writing the whole plan succeeds and every upload reads back as itself. */
  ghost predicate SansPerte(pli: Pli, plan: seq<Chemin>)
    requires Nommes(plan)
  {
    var r := EcrirePlan(pli, plan, |plan|);
    && r.Some?
    && forall i :: 0 <= i < |plan| ==>
         Plier(pli, plan[i]) in r.value && r.value[Plier(pli, plan[i])] == Fichier(i)
  }

  /** No two uploads share a key, and no key is a directory of another. */
  ghost predicate SansConflit(pli: Pli, plan: seq<Chemin>) {
    forall i, j :: 0 <= i < |plan| && 0 <= j < |plan| && i != j ==>
      !(Plier(pli, plan[i]) <= Plier(pli, plan[j]))
  }

  /** What the tree holds after the first `n` uploads of a plan without conflict. */
  ghost predicate ArbreDe(pli: Pli, plan: seq<Chemin>, n: nat, arbre: Arbre)
    requires n <= |plan|
  {
    && (forall i :: 0 <= i < n ==> Plier(pli, plan[i]) in arbre && arbre[Plier(pli, plan[i])] == Fichier(i))
    && (forall c :: c in arbre && arbre[c].Fichier? ==> arbre[c].envoi < n && c == Plier(pli, plan[arbre[c].envoi]))
    && (forall c :: c in arbre && arbre[c].Dossier? ==> exists i :: 0 <= i < n && c < Plier(pli, plan[i]))
  }

  ghost predicate DossiersEn(avant: Arbre, cle: Chemin, n: nat, apres: Arbre)
    requires n <= |cle|
  {
    && (forall c :: c in avant ==> c in apres && apres[c] == avant[c])
    && (forall c :: c in apres && c !in avant ==> apres[c] == Dossier && c < cle)
    && (forall k :: 0 < k <= n ==> cle[..k] in apres && apres[cle[..k]] == Dossier)
  }

  lemma {:induction false} CreerDossiersReussit(arbre: Arbre, cle: Chemin, n: nat)
    requires n < |cle|
    requires forall k :: 0 < k <= n && cle[..k] in arbre ==> arbre[cle[..k]].Dossier?
    ensures CreerDossiers(arbre, cle, n).Some? && DossiersEn(arbre, cle, n, CreerDossiers(arbre, cle, n).value)
  {
    if n > 0 {
      CreerDossiersReussit(arbre, cle, n - 1);
      var r := CreerDossiers(arbre, cle, n - 1).value;
      if cle[..n] in r && cle[..n] in arbre {
        assert r[cle[..n]] == arbre[cle[..n]];
      }
    }
  }

  /** In a plan without conflict the next path is free, and only directories lie above it. */
  lemma CheminLibre(pli: Pli, plan: seq<Chemin>, n: nat, arbre: Arbre)
    requires SansConflit(pli, plan) && n < |plan| && ArbreDe(pli, plan, n, arbre)
    ensures var cle := Plier(pli, plan[n]);
            && cle !in arbre
            && forall k :: 0 < k < |cle| && cle[..k] in arbre ==> arbre[cle[..k]].Dossier?
  {
    hide Plier;
    var cle := Plier(pli, plan[n]);
    forall c | c in arbre && arbre[c].Fichier? ensures !(c <= cle) {
      assert !(Plier(pli, plan[arbre[c].envoi]) <= Plier(pli, plan[n]));
    }
    forall c | c in arbre && arbre[c].Dossier? ensures !(cle <= c) {
      var i :| 0 <= i < n && c < Plier(pli, plan[i]);
      assert !(Plier(pli, plan[n]) <= Plier(pli, plan[i]));
    }
  }

  lemma ArbreSuivant(pli: Pli, plan: seq<Chemin>, n: nat, arbre: Arbre, r: Arbre)
    requires n < |plan| && ArbreDe(pli, plan, n, arbre)
    requires var cle := Plier(pli, plan[n]);
             cle != [] && cle !in arbre && DossiersEn(arbre, cle, |cle| - 1, r)
    ensures ArbreDe(pli, plan, n + 1, r[Plier(pli, plan[n]) := Fichier(n)])
  {
    var cle := Plier(pli, plan[n]);
    var f := r[cle := Fichier(n)];
    forall c | c in f && f[c].Dossier? ensures exists i :: 0 <= i < n + 1 && c < Plier(pli, plan[i]) {
      if c in arbre {
        var i :| 0 <= i < n && c < Plier(pli, plan[i]);
      } else {
        assert c < Plier(pli, plan[n]);
      }
    }
  }

  lemma EcrireUnReussit(pli: Pli, plan: seq<Chemin>, n: nat, arbre: Arbre)
    requires Nommes(plan) && SansConflit(pli, plan) && n < |plan| && ArbreDe(pli, plan, n, arbre)
    ensures EcrireUn(pli, arbre, plan[n], n).Some?
    ensures ArbreDe(pli, plan, n + 1, EcrireUn(pli, arbre, plan[n], n).value)
  {
    var cle := Plier(pli, plan[n]);
    CheminLibre(pli, plan, n, arbre);
    CreerDossiersReussit(arbre, cle, |cle| - 1);
    ArbreSuivant(pli, plan, n, arbre, CreerDossiers(arbre, cle, |cle| - 1).value);
  }

  lemma ArbreVide(pli: Pli, plan: seq<Chemin>)
    ensures ArbreDe(pli, plan, 0, map[])
  {
  }

  lemma {:induction false} SansConflitArbre(pli: Pli, plan: seq<Chemin>, n: nat)
    requires Nommes(plan) && SansConflit(pli, plan) && n <= |plan|
    ensures EcrirePlan(pli, plan, n).Some?
    ensures ArbreDe(pli, plan, n, EcrirePlan(pli, plan, n).value)
  {
    hide ArbreDe, EcrireUn;
    if n == 0 {
      ArbreVide(pli, plan);
    } else {
      SansConflitArbre(pli, plan, n - 1);
      EcrireUnReussit(pli, plan, n - 1, EcrirePlan(pli, plan, n - 1).value);
    }
  }

  /** Every directory an upload needed is still a directory. */
  ghost predicate DossiersPresents(pli: Pli, plan: seq<Chemin>, n: nat, arbre: Arbre)
    requires n <= |plan|
  {
    forall j, k :: 0 <= j < n && 0 < k < |plan[j]| ==>
      Plier(pli, plan[j])[..k] in arbre && arbre[Plier(pli, plan[j])[..k]] == Dossier
  }

  lemma {:induction false} CreerDossiersEffet(arbre: Arbre, cle: Chemin, n: nat)
    requires n < |cle| && CreerDossiers(arbre, cle, n).Some?
    ensures DossiersEn(arbre, cle, n, CreerDossiers(arbre, cle, n).value)
  {
    if n > 0 { CreerDossiersEffet(arbre, cle, n - 1); }
  }

  lemma {:induction false} DossiersJamaisEcrases(pli: Pli, plan: seq<Chemin>, n: nat)
    requires Nommes(plan) && n <= |plan| && EcrirePlan(pli, plan, n).Some?
    ensures DossiersPresents(pli, plan, n, EcrirePlan(pli, plan, n).value)
  {
    if n > 0 {
      DossiersJamaisEcrases(pli, plan, n - 1);
      var cle := Plier(pli, plan[n - 1]);
      CreerDossiersEffet(EcrirePlan(pli, plan, n - 1).value, cle, |cle| - 1);
    }
  }

  lemma Tronquer(a: Chemin, b: Chemin)
    ensures a <= b ==> |a| <= |b| && b[..|a|] == a
    ensures a <= b && |a| == |b| ==> a == b
  {
    assert a <= b && |a| == |b| ==> a == b[..|b|] == b;
  }

  /** A plan is written without loss exactly when no key is another key or a directory of it. */
  lemma SansPerteSsiSansConflit(pli: Pli, plan: seq<Chemin>)
    requires Nommes(plan)
    ensures SansPerte(pli, plan) <==> SansConflit(pli, plan)
  {
    if SansConflit(pli, plan) {
      SansConflitArbre(pli, plan, |plan|);
    }
    if SansPerte(pli, plan) {
      DossiersJamaisEcrases(pli, plan, |plan|);
      var r := EcrirePlan(pli, plan, |plan|).value;
      forall i, j | 0 <= i < |plan| && 0 <= j < |plan| && i != j
        ensures !(Plier(pli, plan[i]) <= Plier(pli, plan[j]))
      {
        var ki, kj := Plier(pli, plan[i]), Plier(pli, plan[j]);
        assert r[ki] == Fichier(i) && r[kj] == Fichier(j);
        assert 0 < |ki| < |kj| ==> r[kj[..|ki|]] == Dossier;
        Tronquer(ki, kj);
      }
    }
  }

  lemma PlierPlusFin(pli: Pli, fin: Pli, a: Chemin, b: Chemin)
    requires forall x, y :: fin(x) == fin(y) ==> pli(x) == pli(y)
    ensures Plier(fin, a) <= Plier(fin, b) ==> Plier(pli, a) <= Plier(pli, b)
  {
    if Plier(fin, a) <= Plier(fin, b) {
      forall k | 0 <= k < |a| ensures pli(a[k]) == pli(b[k]) {
        assert Plier(fin, a)[k] == Plier(fin, b)[k];
      }
    }
  }

  /** A plan accepted under folding is also lossless on any tree that distinguishes
      at least as many names, a case-sensitive one in particular. */
  lemma SansPerteSurArbrePlusFin(pli: Pli, fin: Pli, plan: seq<Chemin>)
    requires Nommes(plan) && SansConflit(pli, plan)
    requires forall x, y :: fin(x) == fin(y) ==> pli(x) == pli(y)
    ensures SansPerte(fin, plan)
  {
    forall i, j | 0 <= i < |plan| && 0 <= j < |plan| && i != j
      ensures !(Plier(fin, plan[i]) <= Plier(fin, plan[j]))
    {
      PlierPlusFin(pli, fin, plan[i], plan[j]);
    }
    SansPerteSsiSansConflit(fin, plan);
  }

  // ---------------------------------------------------------------------------
  // `analyser_collisions`
  // ---------------------------------------------------------------------------

  datatype Famille = Doublon | FichierVsDossier
  datatype Conflit = Conflit(famille: Famille, cle: string, premier: Chemin, second: Chemin)

  function CleInsensible(pli: Pli, c: Chemin): string { Joindre(Plier(pli, c)) }

  /** Folding leaves separators alone. */
  ghost predicate PliSansBarre(pli: Pli) { forall s: string :: SansBarre(s) ==> SansBarre(pli(s)) }

  ghost predicate PlanFormel(plan: seq<Chemin>) {
    Nommes(plan) && forall i, p :: 0 <= i < |plan| && p in plan[i] ==> SansBarre(p)
  }

  function Cles(pli: Pli, plan: seq<Chemin>): (r: seq<string>)
    ensures |r| == |plan|
  {
    seq(|plan|, i requires 0 <= i < |plan| => CleInsensible(pli, plan[i]))
  }

  /** The dictionary `vues` after the first `n` uploads, and its insertion order. */
  function Vues(plan: seq<Chemin>, cles: seq<string>, n: nat): map<string, Chemin>
    requires n <= |plan| == |cles|
  {
    if n == 0 then map[]
    else
      var v := Vues(plan, cles, n - 1);
      if cles[n - 1] in v then v else v[cles[n - 1] := plan[n - 1]]
  }

  function Ordre(plan: seq<Chemin>, cles: seq<string>, n: nat): (r: seq<string>)
    requires n <= |plan| == |cles|
    ensures forall k :: k in r <==> k in Vues(plan, cles, n)
  {
    if n == 0 then []
    else Ordre(plan, cles, n - 1) + (if cles[n - 1] in Vues(plan, cles, n - 1) then [] else [cles[n - 1]])
  }

  function Doublons(plan: seq<Chemin>, cles: seq<string>, n: nat): seq<Conflit>
    requires n <= |plan| == |cles|
  {
    if n == 0 then []
    else
      var v := Vues(plan, cles, n - 1);
      var cle := cles[n - 1];
      Doublons(plan, cles, n - 1) + (if cle in v then [Conflit(Doublon, cle, v[cle], plan[n - 1])] else [])
  }

  function Prefixes(vues: map<string, Chemin>, cle: string, p: nat): seq<Conflit>
    requires cle in vues && p <= |Decouper(cle)|
  {
    if p <= 1 then []
    else
      var prefixe := Joindre(Decouper(cle)[..p - 1]);
      Prefixes(vues, cle, p - 1) +
      (if prefixe in vues then [Conflit(FichierVsDossier, prefixe, vues[prefixe], vues[cle])] else [])
  }

  function FichiersVsDossiers(vues: map<string, Chemin>, ordre: seq<string>, n: nat): seq<Conflit>
    requires n <= |ordre| && forall k :: k in ordre ==> k in vues
  {
    if n == 0 then []
    else FichiersVsDossiers(vues, ordre, n - 1) + Prefixes(vues, ordre[n - 1], |Decouper(ordre[n - 1])|)
  }

  function Conflits(pli: Pli, plan: seq<Chemin>): seq<Conflit> {
    var cles := Cles(pli, plan);
    var ordre := Ordre(plan, cles, |plan|);
    Doublons(plan, cles, |plan|) + FichiersVsDossiers(Vues(plan, cles, |plan|), ordre, |ordre|)
  }

  /** The two passes of the source over the plan; `vues` keeps its insertion order in `ordre`. */
  method AnalyserCollisions(pli: Pli, plan: seq<Chemin>) returns (conflits: seq<Conflit>)
    ensures conflits == Conflits(pli, plan)
  {
    var vues, ordre;
    conflits, vues, ordre := PasseDoublons(pli, plan);
    var imbrications := PassePrefixes(vues, ordre);
    conflits := conflits + imbrications;
  }

  lemma PassesSuivantes(plan: seq<Chemin>, cles: seq<string>, n: nat)
    requires n < |plan| == |cles|
    ensures var v, cle := Vues(plan, cles, n), cles[n];
            && Vues(plan, cles, n + 1) == (if cle in v then v else v[cle := plan[n]])
            && Ordre(plan, cles, n + 1) == (if cle in v then Ordre(plan, cles, n) else Ordre(plan, cles, n) + [cle])
            && Doublons(plan, cles, n + 1)
               == (if cle in v then Doublons(plan, cles, n) + [Conflit(Doublon, cle, v[cle], plan[n])] else Doublons(plan, cles, n))
  {
  }

  method PasseDoublons(pli: Pli, plan: seq<Chemin>)
    returns (conflits: seq<Conflit>, vues: map<string, Chemin>, ordre: seq<string>)
    ensures var cles := Cles(pli, plan);
            && conflits == Doublons(plan, cles, |plan|)
            && vues == Vues(plan, cles, |plan|) && ordre == Ordre(plan, cles, |plan|)
  {
    conflits := [];
    ghost var cles := Cles(pli, plan);
    vues, ordre := map[], [];
    assert Vues(plan, cles, 0) == map[] && Ordre(plan, cles, 0) == [] && Doublons(plan, cles, 0) == [];
    hide Vues, Ordre, Doublons, CleInsensible;
    for n := 0 to |plan|
      invariant vues == Vues(plan, cles, n) && ordre == Ordre(plan, cles, n)
      invariant conflits == Doublons(plan, cles, n)
    {
      PassesSuivantes(plan, cles, n);
      var cle := CleInsensible(pli, plan[n]);
      assert cle == cles[n];
      if cle in vues {
        conflits := conflits + [Conflit(Doublon, cle, vues[cle], plan[n])];
      } else {
        vues, ordre := vues[cle := plan[n]], ordre + [cle];
      }
    }
  }

  method PassePrefixes(vues: map<string, Chemin>, ordre: seq<string>) returns (conflits: seq<Conflit>)
    requires forall k :: k in ordre ==> k in vues
    ensures conflits == FichiersVsDossiers(vues, ordre, |ordre|)
  {
    conflits := [];
    for m := 0 to |ordre|
      invariant conflits == FichiersVsDossiers(vues, ordre, m)
    {
      var parties := Decouper(ordre[m]);
      ghost var avant := conflits;
      for profondeur := 1 to |parties|
        invariant conflits == avant + Prefixes(vues, ordre[m], profondeur)
      {
        var prefixe := Joindre(parties[..profondeur]);
        if prefixe in vues {
          conflits := conflits + [Conflit(FichierVsDossier, prefixe, vues[prefixe], vues[ordre[m]])];
        }
      }
    }
  }

  // ---------------------------------------------------------------------------
  // The list of conflicts is exact
  // ---------------------------------------------------------------------------

  lemma {:induction false} VueVientDuPlan(plan: seq<Chemin>, cles: seq<string>, n: nat, k: string) returns (i: nat)
    requires n <= |plan| == |cles| && k in Vues(plan, cles, n)
    ensures i < n && cles[i] == k && plan[i] == Vues(plan, cles, n)[k]
    ensures forall h :: 0 <= h < i ==> cles[h] != k
  {
    if k in Vues(plan, cles, n - 1) {
      i := VueVientDuPlan(plan, cles, n - 1, k);
    } else {
      i := n - 1;
      forall h | 0 <= h < i ensures cles[h] != k { CleVue(plan, cles, n - 1, h); }
    }
  }

  lemma {:induction false} CleVue(plan: seq<Chemin>, cles: seq<string>, n: nat, i: nat)
    requires i < n <= |plan| == |cles|
    ensures cles[i] in Vues(plan, cles, n)
  {
    if i < n - 1 { CleVue(plan, cles, n - 1, i); }
  }

  lemma {:induction false} DoublonFonde(plan: seq<Chemin>, cles: seq<string>, n: nat, c: Conflit) returns (i: nat, j: nat)
    requires n <= |plan| == |cles| && c in Doublons(plan, cles, n)
    ensures i < j < n && cles[i] == cles[j] == c.cle && c.premier == plan[i] && c.second == plan[j] && c.famille.Doublon?
    ensures forall h :: 0 <= h < i ==> cles[h] != c.cle
  {
    if c in Doublons(plan, cles, n - 1) {
      i, j := DoublonFonde(plan, cles, n - 1, c);
    } else {
      j := n - 1;
      i := VueVientDuPlan(plan, cles, j, cles[j]);
    }
  }

  lemma {:induction false} DoublonListe(plan: seq<Chemin>, cles: seq<string>, n: nat, i: nat, j: nat) returns (c: Conflit)
    requires i < j < n <= |plan| == |cles| && cles[i] == cles[j]
    ensures c in Doublons(plan, cles, n) && c.cle == cles[j] && c.second == plan[j]
  {
    if j < n - 1 {
      c := DoublonListe(plan, cles, n - 1, i, j);
    } else {
      CleVue(plan, cles, j, i);
      var nouveau := [Conflit(Doublon, cles[j], Vues(plan, cles, j)[cles[j]], plan[j])];
      c := nouveau[0];
      assert Doublons(plan, cles, n) == Doublons(plan, cles, j) + nouveau;
    }
  }

  predicate PrefixeVu(vues: map<string, Chemin>, cle: string, q: nat)
    requires q <= |Decouper(cle)|
  {
    Joindre(Decouper(cle)[..q]) in vues
  }

  function ConflitPrefixe(vues: map<string, Chemin>, cle: string, q: nat): Conflit
    requires cle in vues && q <= |Decouper(cle)| && PrefixeVu(vues, cle, q)
  {
    var prefixe := Joindre(Decouper(cle)[..q]);
    Conflit(FichierVsDossier, prefixe, vues[prefixe], vues[cle])
  }

  lemma {:induction false} PrefixeFonde(vues: map<string, Chemin>, cle: string, p: nat, c: Conflit) returns (q: nat)
    requires cle in vues && p <= |Decouper(cle)| && c in Prefixes(vues, cle, p)
    ensures 0 < q < p && PrefixeVu(vues, cle, q) && c == ConflitPrefixe(vues, cle, q)
  {
    if c in Prefixes(vues, cle, p - 1) { q := PrefixeFonde(vues, cle, p - 1, c); } else { q := p - 1; }
  }

  lemma {:induction false} PrefixeListe(vues: map<string, Chemin>, cle: string, p: nat, q: nat)
    requires cle in vues && 0 < q < p <= |Decouper(cle)| && PrefixeVu(vues, cle, q)
    ensures ConflitPrefixe(vues, cle, q) in Prefixes(vues, cle, p)
  {
    if q < p - 1 {
      PrefixeListe(vues, cle, p - 1, q);
    } else {
      assert Prefixes(vues, cle, p) == Prefixes(vues, cle, q) + [ConflitPrefixe(vues, cle, q)];
    }
  }

  lemma {:induction false} ImbricationFondee(vues: map<string, Chemin>, ordre: seq<string>, n: nat, c: Conflit)
    returns (cle: string, q: nat)
    requires n <= |ordre| && forall k :: k in ordre ==> k in vues
    requires c in FichiersVsDossiers(vues, ordre, n)
    ensures cle in ordre && 0 < q < |Decouper(cle)| && PrefixeVu(vues, cle, q) && c == ConflitPrefixe(vues, cle, q)
  {
    if c in FichiersVsDossiers(vues, ordre, n - 1) {
      cle, q := ImbricationFondee(vues, ordre, n - 1, c);
    } else {
      cle := ordre[n - 1];
      q := PrefixeFonde(vues, cle, |Decouper(cle)|, c);
    }
  }

  lemma {:induction false} ImbricationListee(vues: map<string, Chemin>, ordre: seq<string>, n: nat, m: nat, q: nat)
    requires m < n <= |ordre| && forall k :: k in ordre ==> k in vues
    requires 0 < q < |Decouper(ordre[m])| && PrefixeVu(vues, ordre[m], q)
    ensures ConflitPrefixe(vues, ordre[m], q) in FichiersVsDossiers(vues, ordre, n)
  {
    if m < n - 1 {
      ImbricationListee(vues, ordre, n - 1, m, q);
    } else {
      PrefixeListe(vues, ordre[m], |Decouper(ordre[m])|, q);
    }
  }

  lemma CleDecoupee(pli: Pli, plan: seq<Chemin>, i: nat)
    requires PlanFormel(plan) && PliSansBarre(pli) && i < |plan|
    ensures Decouper(Cles(pli, plan)[i]) == Plier(pli, plan[i])
  {
    var parts := Plier(pli, plan[i]);
    forall p | p in parts ensures SansBarre(p) {
      var k :| 0 <= k < |parts| && parts[k] == p;
      assert SansBarre(plan[i][k]);
    }
    DecouperJoindre(parts);
  }

  /** Soundness: every listed conflict names two uploads that cannot both be kept: the first with
      its key and a later one of equal key, or a file and one that needs a directory of its name. */
  lemma ConflitReel(pli: Pli, plan: seq<Chemin>, c: Conflit) returns (i: nat, j: nat)
    requires PlanFormel(plan) && PliSansBarre(pli) && c in Conflits(pli, plan)
    ensures i < |plan| && j < |plan| && i != j
    ensures c.premier == plan[i] && c.second == plan[j] && c.cle == CleInsensible(pli, plan[i])
    ensures forall h :: 0 <= h < i ==> CleInsensible(pli, plan[h]) != c.cle
    ensures c.famille.Doublon? ==> i < j && Plier(pli, plan[i]) == Plier(pli, plan[j])
    ensures c.famille.FichierVsDossier? ==> Plier(pli, plan[i]) < Plier(pli, plan[j])
  {
    var cles := Cles(pli, plan);
    var vues, ordre := Vues(plan, cles, |plan|), Ordre(plan, cles, |plan|);
    if c in Doublons(plan, cles, |plan|) {
      i, j := DoublonFonde(plan, cles, |plan|, c);
      CleDecoupee(pli, plan, i);
      CleDecoupee(pli, plan, j);
    } else {
      var cle, q := ImbricationFondee(vues, ordre, |ordre|, c);
      j := VueVientDuPlan(plan, cles, |plan|, cle);
      i := VueVientDuPlan(plan, cles, |plan|, c.cle);
      CleDecoupee(pli, plan, i);
      CleDecoupee(pli, plan, j);
      var parts := Plier(pli, plan[j]);
      forall p | p in parts[..q] ensures SansBarre(p) {
        assert p in Decouper(cle);
      }
      DecouperJoindre(parts[..q]);
    }
    forall h | 0 <= h < i ensures CleInsensible(pli, plan[h]) != c.cle { assert cles[h] != c.cle; }
  }

  /** Completeness: every pair of uploads that cannot both be kept is reported. */
  lemma ConflitSignale(pli: Pli, plan: seq<Chemin>, i: nat, j: nat) returns (c: Conflit)
    requires PlanFormel(plan) && PliSansBarre(pli)
    requires i < |plan| && j < |plan| && i != j && Plier(pli, plan[i]) <= Plier(pli, plan[j])
    ensures c in Conflits(pli, plan) && c.cle == CleInsensible(pli, plan[i])
  {
    var cles := Cles(pli, plan);
    var vues, ordre := Vues(plan, cles, |plan|), Ordre(plan, cles, |plan|);
    CleDecoupee(pli, plan, i);
    CleDecoupee(pli, plan, j);
    var ki, kj := Plier(pli, plan[i]), Plier(pli, plan[j]);
    Tronquer(ki, kj);
    if ki == kj {
      c := DoublonListe(plan, cles, |plan|, if i < j then i else j, if i < j then j else i);
    } else {
      CleVue(plan, cles, |plan|, i);
      CleVue(plan, cles, |plan|, j);
      var m :| 0 <= m < |ordre| && ordre[m] == cles[j];
      assert Decouper(ordre[m])[..|ki|] == ki;
      ImbricationListee(vues, ordre, |ordre|, m, |ki|);
      c := ConflitPrefixe(vues, cles[j], |ki|);
    }
  }

  /** The analysis accepts exactly the plans whose sequential writing into a
      case-insensitive tree succeeds and keeps every file with its own content. */
  lemma AccepteSsiSansPerte(pli: Pli, plan: seq<Chemin>)
    requires PlanFormel(plan) && PliSansBarre(pli)
    ensures Conflits(pli, plan) == [] <==> SansPerte(pli, plan)
  {
    SansPerteSsiSansConflit(pli, plan);
    if Conflits(pli, plan) == [] {
      forall i, j | 0 <= i < |plan| && 0 <= j < |plan| && i != j
        ensures !(Plier(pli, plan[i]) <= Plier(pli, plan[j]))
      {
        if Plier(pli, plan[i]) <= Plier(pli, plan[j]) {
          var c := ConflitSignale(pli, plan, i, j);
        }
      }
    } else {
      var i, j := ConflitReel(pli, plan, Conflits(pli, plan)[0]);
    }
  }

  /** In columns: an upload is accepted exactly when, case aside, no planned path is another one or
      one of its directories. */
  lemma AccepteSsiDistincts(pli: Pli, plan: seq<Chemin>)
    requires PlanFormel(plan) && PliSansBarre(pli)
    ensures Conflits(pli, plan) == [] <==>
              forall i, j :: 0 <= i < |plan| && 0 <= j < |plan| && i != j ==> !Couvre(pli, plan[i], plan[j])
  {
    AccepteSsiSansPerte(pli, plan);
    SansPerteSsiSansConflit(pli, plan);
    hide Conflits, SansPerte;
    forall a: Chemin, b: Chemin ensures Plier(pli, a) <= Plier(pli, b) <==> Couvre(pli, a, b) {
      PlierCouvre(pli, a, b);
    }
  }

  lemma PlierCouvre(pli: Pli, a: Chemin, b: Chemin)
    ensures Plier(pli, a) <= Plier(pli, b) <==> Couvre(pli, a, b)
  {
    var x, y := Plier(pli, a), Plier(pli, b);
    if x <= y {
      forall k | 0 <= k < |a| ensures pli(a[k]) == pli(b[k]) { assert x[k] == y[k]; }
    }
    if Couvre(pli, a, b) {
      assert x == y[..|a|];
    }
  }

  /** `b` is `a`, or lies under it, when names are compared folded. */
  ghost predicate Couvre(pli: Pli, a: Chemin, b: Chemin) {
    |a| <= |b| && forall k :: 0 <= k < |a| ==> pli(a[k]) == pli(b[k])
  }

  /** The plan of a grouped upload, from the client's file names. */
  function PlanDe(mot: char -> bool, noms: seq<string>): seq<Chemin> {
    seq(|noms|, i requires 0 <= i < |noms| => CheminSur(mot, noms[i]))
  }

  /** End to end: for any client file names, an upload without reported conflict is
      written without loss on a case-insensitive and on a case-sensitive tree. */
  lemma EnvoiAccepteSansPerte(mot: char -> bool, pli: Pli, noms: seq<string>)
    requires !mot('/') && !mot('\\') && PliSansBarre(pli)
    ensures PlanFormel(PlanDe(mot, noms))
    ensures Conflits(pli, PlanDe(mot, noms)) == [] ==> SansPerte(pli, PlanDe(mot, noms)) && SansPerte(x => x, PlanDe(mot, noms))
  {
    var plan := PlanDe(mot, noms);
    forall i | 0 <= i < |plan| ensures CheminOrdinaire(plan[i]) {
      CheminSurOrdinaire(mot, noms[i]);
    }
    assert PlanFormel(plan);
    AccepteSsiSansPerte(pli, plan);
    SansPerteSsiSansConflit(pli, plan);
    if Conflits(pli, plan) == [] { SansPerteSurArbrePlusFin(pli, x => x, plan); }
  }
}
