/** Confined opening, verified copy and hand-over of file descriptors
    (seamtech_search/fichiers_securises.py, seamtech_search/import_pipeline.py and the two
    download routes of seamtech_search/api.py).

    The world is hostile: the disk may change before every system call, and every call that
    can raise may do so with any exception. `pannes` counts those accidental failures, so a
    contract can still say when a call must succeed. A descriptor can only be closed while it
    is open (`Fermer` demands it), so verifying a caller proves it never closes one twice. */
module Descriptors {
  import opened Options
  import opened Paths

  type Octet = bv8

  const RACINE: nat := 0
  const TAILLE_BLOC := 1024 * 1024

  /** The kind of an inode never changes; what directories list and the link counts do. */
  datatype Genre = Dossier | Ordinaire | Lien | Special

  datatype Disque = Disque(entrees: map<(nat, string), nat>, liens: map<nat, nat>) {
    function Entree(dossier: nat, nom: string): Option<nat> {
      if (dossier, nom) in entrees then Some(entrees[(dossier, nom)]) else None
    }
    function Liens(i: nat): nat { if i in liens then liens[i] else 0 }
  }

  datatype Objet = Inode(i: nat) | Anonyme(contenu: seq<Octet>)

  /** An open file description, shared by the descriptors duplicated from one another. */
  datatype Description = Description(objet: Objet, position: nat)

  datatype Erreur = OSErreur | ValueErreur | AutreException | Interruption

  predicate Attrapee(e: Erreur) { e.OSErreur? || e.ValueErreur? }

  datatype Resultat<T> = Ok(value: T) | Leve(erreur: Erreur)

  /** What a stream returns: bytes, something false (`b""`, None...), something else. */
  datatype Bloc = Octets(b: seq<Octet>) | Vide | Autre

  // ---------------------------------------------------------------------------
  // Lexical confinement
  // ---------------------------------------------------------------------------

  predicate SousRacine(cible: Chemin, racine: Chemin) { racine < cible }

  /** The deepest allowed root strictly above the target. */
  function RacineChoisie(cible: Chemin, racines: seq<Chemin>): (r: Option<Chemin>)
    ensures r.Some? <==> exists racine :: racine in racines && SousRacine(cible, racine)
    ensures r.Some? ==> r.value in racines && SousRacine(cible, r.value)
    ensures r.Some? ==> forall racine :: racine in racines && SousRacine(cible, racine) ==> racine <= r.value
  {
    if racines == [] then None
    else
      var reste := RacineChoisie(cible, racines[1..]);
      if SousRacine(cible, racines[0]) && (reste.None? || |reste.value| <= |racines[0]|) then Some(racines[0])
      else reste
  }

  // ---------------------------------------------------------------------------
  // Paths followed without links
  // ---------------------------------------------------------------------------

  /** By time `t`, `fin` was reached from "/" by looking up each name of `noms` in turn in a
      real directory, at non-decreasing times: no link is ever followed. */
  ghost predicate Atteint(genre: nat -> Genre, h: seq<Disque>, noms: Chemin, fin: nat, t: nat)
    decreases |noms|
  {
    if noms == [] then fin == RACINE
    else exists parent: nat, u: nat ::
      && u <= t && u < |h|
      && Atteint(genre, h, noms[..|noms| - 1], parent, u)
      && genre(parent).Dossier?
      && h[u].Entree(parent, noms[|noms| - 1]) == Some(fin)
  }

  lemma {:induction false} AtteintPersiste(genre: nat -> Genre, h: seq<Disque>, h': seq<Disque>, noms: Chemin, fin: nat, t: nat, t': nat)
    requires h <= h' && t <= t' && Atteint(genre, h, noms, fin, t)
    ensures Atteint(genre, h', noms, fin, t')
    decreases |noms|
  {
    if noms != [] {
      var parent: nat, u: nat :|
        && u <= t && u < |h|
        && Atteint(genre, h, noms[..|noms| - 1], parent, u)
        && genre(parent).Dossier?
        && h[u].Entree(parent, noms[|noms| - 1]) == Some(fin);
      AtteintPersiste(genre, h, h', noms[..|noms| - 1], parent, u, u);
    }
  }

  lemma AtteintPar(genre: nat -> Genre, h: seq<Disque>, noms: Chemin, parent: nat, u: nat, fin: nat, t: nat)
    requires noms != [] && u <= t && u < |h|
    requires Atteint(genre, h, noms[..|noms| - 1], parent, u)
    requires genre(parent).Dossier? && h[u].Entree(parent, noms[|noms| - 1]) == Some(fin)
    ensures Atteint(genre, h, noms, fin, t)
  {
  }

  /** One more name looked up at the last instant of `h'`. */
  lemma AtteintSuivant(genre: nat -> Genre, h: seq<Disque>, h': seq<Disque>, noms: Chemin, parent: nat, nom: string, fin: nat)
    requires h < h' && Atteint(genre, h, noms, parent, |h|)
    requires genre(parent).Dossier? && h'[|h'| - 1].Entree(parent, nom) == Some(fin)
    ensures Atteint(genre, h', noms + [nom], fin, |h'|)
  {
    hide Atteint;
    var u := |h'| - 1;
    AtteintPersiste(genre, h, h', noms, parent, |h|, u);
    assert (noms + [nom])[..|noms + [nom]| - 1] == noms;
    AtteintPar(genre, h', noms + [nom], parent, u, fin, |h'|);
  }

  /** Where `noms` leads on a disk that does not move. */
  function Resout(genre: nat -> Genre, d: Disque, noms: Chemin): Option<nat>
    decreases |noms|
  {
    if noms == [] then Some(RACINE)
    else
      var parent := Resout(genre, d, noms[..|noms| - 1]);
      if parent.Some? && genre(parent.value).Dossier? then d.Entree(parent.value, noms[|noms| - 1]) else None
  }

  lemma ResoutSuivant(genre: nat -> Genre, d: Disque, noms: Chemin, nom: string)
    ensures var i := Resout(genre, d, noms);
            Resout(genre, d, noms + [nom]) == if i.Some? && genre(i.value).Dossier? then d.Entree(i.value, nom) else None
  {
    assert (noms + [nom])[..|noms + [nom]| - 1] == noms;
  }

  ghost predicate Immobile(h: seq<Disque>, debut: nat, d: Disque) {
    forall u :: debut <= u < |h| ==> h[u] == d
  }

  /** `noms` and every directory above it can be opened on `d`. */
  ghost predicate Praticable(genre: nat -> Genre, d: Disque, noms: Chemin) {
    forall k :: 0 <= k <= |noms| ==> DossierEn(genre, d, noms[..k])
  }

  ghost predicate DossierEn(genre: nat -> Genre, d: Disque, noms: Chemin) {
    var i := Resout(genre, d, noms); i.Some? && genre(i.value).Dossier?
  }

  /** The target is an ordinary file with one name, under real directories. */
  ghost predicate Servable(genre: nat -> Genre, d: Disque, cible: Chemin) {
    && cible != []
    && Praticable(genre, d, cible[..|cible| - 1])
    && var i := Resout(genre, d, cible); i.Some? && genre(i.value).Ordinaire? && d.Liens(i.value) == 1
  }

  /** Descriptions are never altered by opening and closing. */
  ghost predicate Conserve(avant: map<nat, Description>, apres: map<nat, Description>) {
    forall d :: d in avant ==> d in apres && apres[d] == avant[d]
  }

  /** `apres` is `avant` and the descriptors `ajout`, all new. */
  ghost predicate Detient(avant: map<nat, nat>, apres: map<nat, nat>, ajout: set<nat>) {
    ajout <= apres.Keys && ajout !! avant.Keys && apres - ajout == avant
  }

  lemma DetientFerme(avant: map<nat, nat>, apres: map<nat, nat>, ajout: set<nat>, fd: nat)
    requires Detient(avant, apres, ajout)
    ensures fd in ajout ==> Detient(avant, apres - {fd}, ajout - {fd})
  {
    if fd in ajout {
      assert (apres - {fd}) - (ajout - {fd}) == apres - ajout;
    }
  }

  lemma DetientPuis(avant: map<nat, nat>, milieu: map<nat, nat>, apres: map<nat, nat>, a: set<nat>, b: set<nat>)
    requires Detient(avant, milieu, a) && Detient(milieu, apres, b)
    ensures Detient(avant, apres, a + b)
  {
    assert forall f :: f in a ==> f in milieu && f in apres;
    assert apres - (a + b) == (apres - b) - a;
  }

  /** What was read of a stream: the bytes drawn, whether it came to its end, what failed. */
  datatype Lecture = Lecture(distant: bool, tire: seq<Octet>, fini: bool, pannes: nat) {
    /** Read to its end without a failure, within the limit, and with the expected digest. */
    ghost predicate Conforme(empreinte: string, limite: int, digest: seq<Octet> -> string) {
      pannes == 0 && fini && |tire| <= limite && EmpreinteValide(empreinte) && digest(tire) == empreinte
    }
  }

  /** A byte stream that may lie: it returns and raises what it likes. */
  class Flux {
    const distant: bool  // the body of a stored object, not a local file
    const honore: bool   // never returns more than asked
    var tire: seq<Octet> // all bytes drawn so far
    var fini: bool       // has returned something false
    var pannes: nat

    constructor (distant: bool, honore: bool)
      ensures this.distant == distant && this.honore == honore && tire == [] && !fini && pannes == 0
    {
      this.distant, this.honore, tire, fini, pannes := distant, honore, [], false, 0;
    }

    predicate Neuf(distant: bool)
      reads this
    {
      this.distant == distant && tire == [] && !fini && pannes == 0
    }

    function Vu(): Lecture
      reads this
    {
      Lecture(distant, tire, fini, pannes)
    }

    method Lire(n: nat) returns (r: Resultat<Bloc>)
      modifies this
      ensures r.Leve? <==> pannes == old(pannes) + 1
      ensures r.Ok? <==> pannes == old(pannes)
      ensures r.Ok? && r.value.Octets? ==> r.value.b != [] && tire == old(tire) + r.value.b && (honore ==> |r.value.b| <= n)
      ensures !(r.Ok? && r.value.Octets?) ==> tire == old(tire)
      ensures fini == (old(fini) || (r.Ok? && r.value.Vide?))
    {
      if * {
        var e: Erreur := *;
        pannes := pannes + 1;
        return Leve(e);
      }
      var bloc: Bloc := *;
      if bloc.Octets? {
        if honore && |bloc.b| > n { bloc := Octets(bloc.b[..n]); }
        if bloc.b == [] { bloc := Vide; }
      }
      if bloc.Octets? { tire := tire + bloc.b; }
      if bloc.Vide? { fini := true; }
      return Ok(bloc);
    }
  }

  predicate EmpreinteValide(empreinte: string) {
    |empreinte| == 64 && forall c :: c in empreinte ==> '0' <= c <= '9' || 'a' <= c <= 'f'
  }

  /** What has happened so far: accidental failures, the disk at each call, the streams read. */
  datatype Trace = Trace(pannes: nat, disques: seq<Disque>, lectures: seq<Lecture>)

  ghost predicate Suite(debut: Trace, fin: Trace) {
    debut.pannes <= fin.pannes && debut.disques <= fin.disques && debut.lectures <= fin.lectures
  }

  /** Nothing failed, and one stream was read in between, local or remote. */
  ghost predicate Lit(debut: Trace, fin: Trace, distant: bool) {
    fin.pannes == debut.pannes && |fin.lectures| == |debut.lectures| + 1 && fin.lectures[|debut.lectures|].distant == distant
  }

  ghost predicate LitConforme(debut: Trace, fin: Trace, distant: bool, empreinte: string, limite: int, digest: seq<Octet> -> string) {
    Lit(debut, fin, distant) && fin.lectures[|debut.lectures|].Conforme(empreinte, limite, digest)
  }

  /** Nothing failed, the disk did not move, and the target can be served. */
  ghost predicate Joignable(genre: nat -> Genre, debut: Trace, fin: Trace, cible: Chemin, racines: seq<Chemin>, fige: Disque) {
    && fin.pannes == debut.pannes && Immobile(fin.disques, |debut.disques|, fige) && Servable(genre, fige, cible)
    && exists racine :: racine in racines && SousRacine(cible, racine)
  }

  /** What the verified copy of the local file comes to, from what failed, the disk and the bytes
      read: it succeeds exactly when nothing failed and the bytes read are the expected ones, a
      target that can be served is read, and a refusal without a failure is one the routes catch. */
  ghost predicate LocalExact(genre: nat -> Genre, debut: Trace, fin: Trace, local: Resultat<nat>, cible: Chemin, racines: seq<Chemin>,
                             empreinte: string, limite: int, digest: seq<Octet> -> string, fige: Disque) {
    && Suite(debut, fin)
    && (local.Ok? <==> LitConforme(debut, fin, false, empreinte, limite, digest))
    && (Joignable(genre, debut, fin, cible, racines, fige) ==> Lit(debut, fin, false))
    && (local.Leve? && fin.pannes == debut.pannes ==>
          Attrapee(local.erreur) || (Lit(debut, fin, false) && fin.lectures[|debut.lectures|].pannes > 0))
  }

  /** What the local half of `get_import_artifact` comes to: as above for a captured source, the
      confined descriptor itself otherwise. */
  ghost predicate ArtefactExact(genre: nat -> Genre, debut: Trace, fin: Trace, local: Resultat<nat>, cible: Chemin, racines: seq<Chemin>,
                                empreinte: Option<string>, limite: int, digest: seq<Octet> -> string, fige: Disque) {
    match empreinte
    case Some(attendue) => LocalExact(genre, debut, fin, local, cible, racines, attendue, limite, digest, fige)
    case None =>
      && Suite(debut, fin)
      && (local.Ok? ==> fin.pannes == debut.pannes)
      && (Joignable(genre, debut, fin, cible, racines, fige) ==> local.Ok?)
      && (local.Leve? && fin.pannes == debut.pannes ==> Attrapee(local.erreur))
  }

  /** What the remote attempt comes to: a body is read unless something fails, and served exactly
      when nothing failed and its bytes are the expected ones. */
  ghost predicate DistantExact(debut: Trace, fin: Trace, servi: bool, empreinte: string, limite: int, digest: seq<Octet> -> string) {
    && Suite(debut, fin)
    && (fin.pannes == debut.pannes ==> Lit(debut, fin, true))
    && (servi <==> LitConforme(debut, fin, true, empreinte, limite, digest))
  }

  /** The process: its descriptors, the disk as it was at each system call, its remote bodies. */
  class Systeme {
    const genre: nat -> Genre
    var ouverts: map<nat, nat>
    var descriptions: map<nat, Description>
    var prochain: nat
    var histoire: seq<Disque>
    var corpsOuverts: set<nat>
    var pannes: nat
    var fdopenLeves: nat
    var copiesOrphelines: nat   // verified copies whose body's closing was then interrupted
    ghost var lectures: seq<Lecture>   // the streams read so far, local files and remote bodies

    constructor (genre: nat -> Genre)
      requires genre(RACINE).Dossier?
      ensures Valid() && this.genre == genre && ouverts == map[] && corpsOuverts == {}
    {
      this.genre := genre;
      ouverts, descriptions, prochain, histoire := map[], map[], 0, [];
      corpsOuverts, pannes, fdopenLeves, copiesOrphelines, lectures := {}, 0, 0, 0, [];
    }

    ghost predicate Valid()
      reads this
    {
      && genre(RACINE).Dossier?
      && (forall f :: f in ouverts ==> f < prochain && ouverts[f] in descriptions)
      && (forall d :: d in descriptions ==> d < prochain)
      && (forall c :: c in corpsOuverts ==> c < prochain)
    }

    ghost function Observe(): Trace
      reads this
    {
      Trace(pannes, histoire, lectures)
    }

    function De(fd: nat): Description
      requires Valid() && fd in ouverts
      reads this
    {
      descriptions[ouverts[fd]]
    }

    // -------------------------------------------------------------------------
    // System calls
    // -------------------------------------------------------------------------

    /** Any call that may raise does so here. */
    method Hasard() returns (e: Option<Erreur>)
      modifies this`pannes
      ensures pannes == old(pannes) + (if e.Some? then 1 else 0)
    {
      if * {
        var x: Erreur := *;
        pannes := pannes + 1;
        return Some(x);
      }
      return None;
    }

    /** `os.close`. */
    method Fermer(fd: nat)
      requires Valid() && fd in ouverts
      modifies this`ouverts
      ensures Valid() && ouverts == old(ouverts) - {fd}
    {
      ouverts := ouverts - {fd};
    }

    method Inscrire(objet: Objet) returns (fd: nat)
      requires Valid()
      modifies this`ouverts, this`descriptions, this`prochain
      ensures Valid() && fd == old(prochain) < prochain && fd !in old(ouverts)
      ensures ouverts == old(ouverts)[fd := fd]
      ensures descriptions == old(descriptions)[fd := Description(objet, 0)]
    {
      fd := prochain;
      prochain := prochain + 1;
      descriptions := descriptions[fd := Description(objet, 0)];
      ouverts := ouverts[fd := fd];
    }

    /** `os.open("/", ...)`. */
    method OuvrirRacine() returns (r: Resultat<nat>)
      requires Valid()
      modifies this`ouverts, this`descriptions, this`prochain, this`pannes
      ensures Valid() && pannes == old(pannes) + (if r.Leve? then 1 else 0) && old(prochain) <= prochain
      ensures r.Leve? ==> ouverts == old(ouverts) && descriptions == old(descriptions)
      ensures r.Ok? ==> r.value == old(prochain) && ouverts == old(ouverts)[r.value := r.value]
      ensures r.Ok? ==> descriptions == old(descriptions)[r.value := Description(Inode(RACINE), 0)]
    {
      var e := Hasard();
      if e.Some? { return Leve(e.value); }
      var fd := Inscrire(Inode(RACINE));
      return Ok(fd);
    }

    /** `os.open(nom, O_NOFOLLOW [| O_DIRECTORY], dir_fd=parent)` on the disk as it now is. */
    method OuvrirSous(parent: nat, nom: string, dossier: bool) returns (r: Resultat<nat>)
      requires Valid() && parent in ouverts && De(parent).objet.Inode?
      modifies this`ouverts, this`descriptions, this`prochain, this`pannes, this`histoire
      ensures Valid() && old(histoire) <= histoire && |histoire| == |old(histoire)| + 1
      ensures pannes >= old(pannes) && if r.Ok? then pannes == old(pannes) else pannes > old(pannes) || Attrapee(r.erreur)
      ensures old(prochain) <= prochain
      ensures r.Leve? ==> ouverts == old(ouverts) && descriptions == old(descriptions)
      ensures r.Ok? ==> r.value == old(prochain) && ouverts == old(ouverts)[r.value := r.value]
      ensures var d, p := histoire[|histoire| - 1], old(De(parent)).objet.i;
              var i := d.Entree(p, nom);
              && (r.Ok? ==> genre(p).Dossier? && i.Some? && descriptions == old(descriptions)[r.value := Description(Inode(i.value), 0)])
              && (r.Ok? ==> !genre(i.value).Lien? && (dossier ==> genre(i.value).Dossier?))
              && (pannes == old(pannes) && genre(p).Dossier? && i.Some? && !genre(i.value).Lien? && (dossier ==> genre(i.value).Dossier?) ==> r.Ok?)
    {
      var d: Disque := *;
      histoire := histoire + [d];
      var e := Hasard();
      if e.Some? { return Leve(e.value); }
      var p := De(parent).objet.i;
      var i := d.Entree(p, nom);
      if !genre(p).Dossier? || i.None? || genre(i.value).Lien? || (dossier && !genre(i.value).Dossier?) { return Leve(OSErreur); }
      var fd := Inscrire(Inode(i.value));
      return Ok(fd);
    }

    /** `os.dup`. */
    method Dupliquer(fd: nat) returns (r: Resultat<nat>)
      requires Valid() && fd in ouverts
      modifies this`ouverts, this`prochain, this`pannes
      ensures Valid() && pannes == old(pannes) + (if r.Leve? then 1 else 0) && old(prochain) <= prochain
      ensures r.Leve? ==> ouverts == old(ouverts)
      ensures r.Ok? ==> r.value == old(prochain) && ouverts == old(ouverts)[r.value := old(ouverts)[fd]]
    {
      var e := Hasard();
      if e.Some? { return Leve(e.value); }
      var nouveau := prochain;
      prochain := prochain + 1;
      ouverts := ouverts[nouveau := ouverts[fd]];
      return Ok(nouveau);
    }

    /** `os.fstat`: kind and link count, on the disk as it now is. */
    method Identifier(fd: nat) returns (r: Resultat<(Genre, nat)>)
      requires Valid() && fd in ouverts && De(fd).objet.Inode?
      modifies this`pannes, this`histoire
      ensures Valid() && old(histoire) <= histoire && |histoire| == |old(histoire)| + 1
      ensures pannes == old(pannes) + (if r.Leve? then 1 else 0)
      ensures r.Ok? ==> r.value == (genre(De(fd).objet.i), histoire[|histoire| - 1].Liens(De(fd).objet.i))
    {
      var d: Disque := *;
      histoire := histoire + [d];
      var e := Hasard();
      if e.Some? { return Leve(e.value); }
      return Ok((genre(De(fd).objet.i), d.Liens(De(fd).objet.i)));
    }

    /** `os.fdopen`: a buffered reader never returns more than asked. */
    method Fdopen(fd: nat) returns (r: Resultat<Flux>)
      requires Valid() && fd in ouverts
      modifies this`pannes, this`fdopenLeves
      ensures Valid() && pannes == old(pannes) + (if r.Leve? then 1 else 0)
      ensures fdopenLeves == old(fdopenLeves) + (if r.Leve? then 1 else 0)
      ensures r.Ok? ==> fresh(r.value) && r.value.honore && r.value.Neuf(false)
    {
      var e := Hasard();
      if e.Some? {
        fdopenLeves := fdopenLeves + 1;
        return Leve(e.value);
      }
      var flux := new Flux(false, true);
      return Ok(flux);
    }

    // -------------------------------------------------------------------------
    // Confined opening
    // -------------------------------------------------------------------------

    /** What an opened target is worth: an inode reached name by name from "/" without following
        a link, under an allowed root, ordinary, and seen with a single name since `debut`. */
    ghost predicate Confine(fd: nat, cible: Chemin, racines: seq<Chemin>, debut: nat)
      requires Valid()
      reads this
    {
      && fd in ouverts
      && De(fd).objet.Inode?
      && var i := De(fd).objet.i;
      && genre(i).Ordinaire?
      && Atteint(genre, histoire, cible, i, |histoire|)
      && (exists racine :: racine in racines && SousRacine(cible, racine))
      && (exists u :: debut <= u < |histoire| && histoire[u].Liens(i) == 1)
    }

    /** `fd` is a real directory reached by `noms`. */
    ghost predicate EnDossier(fd: nat, noms: Chemin)
      requires Valid()
      reads this
    {
      && fd in ouverts
      && De(fd).objet.Inode?
      && genre(De(fd).objet.i).Dossier?
      && Atteint(genre, histoire, noms, De(fd).objet.i, |histoire|)
    }

    /** `fd` is where `noms` leads on the disk `d`. */
    ghost predicate Suit(fd: nat, noms: Chemin, d: Disque)
      requires Valid()
      reads this
    {
      fd in ouverts && De(fd).objet.Inode? && Resout(genre, d, noms) == Some(De(fd).objet.i)
    }

    /** One turn of a descent: open the next directory, close the previous one. */
    method Avancer(fd: nat, nom: string, ghost deja: Chemin, ghost fige: Disque) returns (r: Resultat<nat>)
      requires Valid() && EnDossier(fd, deja)
      modifies this`ouverts, this`descriptions, this`prochain, this`pannes, this`histoire
      ensures Valid() && old(histoire) <= histoire && |histoire| == |old(histoire)| + 1
      ensures old(prochain) <= prochain
      ensures pannes >= old(pannes) && if r.Ok? then pannes == old(pannes) else pannes > old(pannes) || Attrapee(r.erreur)
      ensures Conserve(old(descriptions), descriptions)
      ensures r.Leve? ==> ouverts == old(ouverts) - {fd}
      ensures r.Ok? ==> r.value == old(prochain) && r.value in ouverts && ouverts - {r.value} == old(ouverts) - {fd}
      ensures r.Ok? ==> EnDossier(r.value, deja + [nom])
      ensures pannes == old(pannes) && old(Suit(fd, deja, fige)) && histoire[|old(histoire)|] == fige && DossierEn(genre, fige, deja + [nom])
              ==> r.Ok? && Suit(r.value, deja + [nom], fige)
    {
      hide Atteint, Resout;
      ghost var avant, parent := histoire, De(fd).objet.i;
      ResoutSuivant(genre, fige, deja, nom);
      r := OuvrirSous(fd, nom, true);
      if r.Leve? {
        Fermer(fd);
        return;
      }
      AtteintSuivant(genre, avant, histoire, deja, parent, nom, De(r.value).objet.i);
      Releve(ouverts, fd, r.value);
      Fermer(fd);
    }

    /** Both descents: each directory is opened under the previous one, which is then closed;
        whatever is raised, the descriptor in hand is closed. */
    method Descendre(depart: nat, noms: Chemin, ghost deja: Chemin, ghost fige: Disque) returns (r: Resultat<nat>)
      requires Valid() && EnDossier(depart, deja)
      modifies this`ouverts, this`descriptions, this`prochain, this`pannes, this`histoire
      ensures Valid() && old(histoire) <= histoire
      ensures old(prochain) <= prochain
      ensures pannes >= old(pannes) && if r.Ok? then pannes == old(pannes) else pannes > old(pannes) || Attrapee(r.erreur)
      ensures Conserve(old(descriptions), descriptions)
      ensures r.Leve? ==> ouverts == old(ouverts) - {depart}
      ensures r.Ok? ==> r.value in ouverts && ouverts - {r.value} == old(ouverts) - {depart}
      ensures r.Ok? ==> r.value == depart || r.value >= old(prochain)
      ensures r.Ok? ==> EnDossier(r.value, deja + noms)
      ensures pannes == old(pannes) && old(Suit(depart, deja, fige)) && Immobile(histoire, |old(histoire)|, fige) && Praticable(genre, fige, deja + noms)
              ==> r.Ok? && Suit(r.value, deja + noms, fige)
    {
      hide Atteint, Resout;
      var fd: nat := depart;
      assert deja + noms[..0] == deja;
      for k := 0 to |noms|
        invariant Valid() && old(histoire) <= histoire
        invariant pannes == old(pannes) && old(prochain) <= prochain
        invariant Conserve(old(descriptions), descriptions)
        invariant EnDossier(fd, deja + noms[..k]) && ouverts - {fd} == old(ouverts) - {depart}
        invariant fd == depart || fd >= old(prochain)
        invariant old(Suit(depart, deja, fige)) && Immobile(histoire, |old(histoire)|, fige) && Praticable(genre, fige, deja + noms)
                  ==> Suit(fd, deja + noms[..k], fige)
      {
        PrefixeSuivant(genre, fige, deja, noms, k);
        var suivant := Avancer(fd, noms[k], deja + noms[..k], fige);
        if suivant.Leve? { return suivant; }
        fd := suivant.value;
      }
      assert noms[..|noms|] == noms;
      return Ok(fd);
    }

    static lemma Releve(m: map<nat, nat>, fd: nat, neuf: nat)
      requires neuf in m
      ensures (m - {fd}) - {neuf} == (m - {neuf}) - {fd}
    {
    }

    static lemma PrefixeSuivant(genre: nat -> Genre, d: Disque, deja: Chemin, noms: Chemin, k: nat)
      requires k < |noms|
      ensures deja + noms[..k] + [noms[k]] == deja + noms[..k + 1]
      ensures Praticable(genre, d, deja + noms) ==> DossierEn(genre, d, deja + noms[..k + 1])
    {
      assert (deja + noms)[..|deja| + k + 1] == deja + noms[..k + 1];
    }

    /** `_racine_scan_confinee`, entered: a descriptor on the root, walked from "/". */
    method Ancrer(racine: Chemin, ghost fige: Disque) returns (r: Resultat<nat>)
      requires Valid()
      modifies this`ouverts, this`descriptions, this`prochain, this`pannes, this`histoire
      ensures Valid() && old(histoire) <= histoire
      ensures old(prochain) <= prochain
      ensures pannes >= old(pannes) && if r.Ok? then pannes == old(pannes) else pannes > old(pannes) || Attrapee(r.erreur)
      ensures Conserve(old(descriptions), descriptions)
      ensures r.Leve? ==> ouverts == old(ouverts)
      ensures r.Ok? ==> r.value in ouverts && r.value >= old(prochain) && ouverts - {r.value} == old(ouverts)
      ensures r.Ok? ==> EnDossier(r.value, racine)
      ensures pannes == old(pannes) && Immobile(histoire, |old(histoire)|, fige) && Praticable(genre, fige, racine)
              ==> r.Ok? && Suit(r.value, racine, fige)
    {
      assert Atteint(genre, histoire, [], RACINE, |histoire|) && Resout(genre, fige, []) == Some(RACINE);
      hide Atteint, Resout;
      r := OuvrirRacine();
      if r.Leve? { return; }
      assert [] + racine == racine;
      r := Descendre(r.value, racine, [], fige);
    }

    /** The second descent, from a duplicate of the anchor; the anchor stays open. */
    method AtteindreParent(ancre: nat, racine: Chemin, noms: Chemin, ghost fige: Disque) returns (r: Resultat<nat>)
      requires Valid() && EnDossier(ancre, racine)
      modifies this`ouverts, this`descriptions, this`prochain, this`pannes, this`histoire
      ensures Valid() && old(histoire) <= histoire
      ensures old(prochain) <= prochain
      ensures pannes >= old(pannes) && if r.Ok? then pannes == old(pannes) else pannes > old(pannes) || Attrapee(r.erreur)
      ensures Conserve(old(descriptions), descriptions)
      ensures r.Leve? ==> ouverts == old(ouverts)
      ensures r.Ok? ==> r.value in ouverts && r.value >= old(prochain) && ouverts - {r.value} == old(ouverts)
      ensures r.Ok? ==> EnDossier(r.value, racine + noms)
      ensures pannes == old(pannes) && old(Suit(ancre, racine, fige)) && Immobile(histoire, |old(histoire)|, fige) && Praticable(genre, fige, racine + noms)
              ==> r.Ok? && Suit(r.value, racine + noms, fige)
    {
      r := Dupliquer(ancre);
      if r.Leve? { return; }
      r := Descendre(r.value, noms, racine, fige);
    }

    /** The last component, then the parent is closed whatever happened. */
    method OuvrirDernier(parent: nat, deja: Chemin, nom: string, ghost fige: Disque) returns (r: Resultat<nat>)
      requires Valid() && EnDossier(parent, deja)
      modifies this`ouverts, this`descriptions, this`prochain, this`pannes, this`histoire
      ensures Valid() && old(histoire) <= histoire && |histoire| == |old(histoire)| + 1
      ensures old(prochain) <= prochain
      ensures pannes >= old(pannes) && if r.Ok? then pannes == old(pannes) else pannes > old(pannes) || Attrapee(r.erreur)
      ensures Conserve(old(descriptions), descriptions)
      ensures r.Leve? ==> ouverts == old(ouverts) - {parent}
      ensures r.Ok? ==> r.value >= old(prochain) && r.value in ouverts && ouverts - {r.value} == old(ouverts) - {parent}
      ensures r.Ok? ==> De(r.value).objet.Inode? && De(r.value).position == 0
                        && Atteint(genre, histoire, deja + [nom], De(r.value).objet.i, |histoire|)
      ensures pannes == old(pannes) && old(Suit(parent, deja, fige)) && histoire[|old(histoire)|] == fige
                && (var i := Resout(genre, fige, deja + [nom]); i.Some? && !genre(i.value).Lien?)
              ==> r.Ok? && Suit(r.value, deja + [nom], fige)
    {
      hide Atteint, Resout;
      ghost var avant, dossier := histoire, De(parent).objet.i;
      ResoutSuivant(genre, fige, deja, nom);
      r := OuvrirSous(parent, nom, false);
      if r.Leve? {
        Fermer(parent);
        return;
      }
      AtteintSuivant(genre, avant, histoire, deja, dossier, nom, De(r.value).objet.i);
      Releve(ouverts, parent, r.value);
      Fermer(parent);
    }

    /** Only an ordinary file with a single name is kept open. */
    method ExigerOrdinaire(fd: nat) returns (r: Resultat<nat>)
      requires Valid() && fd in ouverts && De(fd).objet.Inode?
      modifies this`ouverts, this`pannes, this`histoire
      ensures Valid() && old(histoire) <= histoire && |histoire| == |old(histoire)| + 1
      ensures pannes >= old(pannes) && if r.Ok? then pannes == old(pannes) else pannes > old(pannes) || Attrapee(r.erreur)
      ensures r.Leve? ==> ouverts == old(ouverts) - {fd}
      ensures r.Ok? ==> r.value == fd && ouverts == old(ouverts)
      ensures r.Ok? ==> genre(old(De(fd)).objet.i).Ordinaire? && histoire[|old(histoire)|].Liens(old(De(fd)).objet.i) == 1
      ensures pannes == old(pannes) && genre(old(De(fd)).objet.i).Ordinaire? && histoire[|old(histoire)|].Liens(old(De(fd)).objet.i) == 1 ==> r.Ok?
    {
      var identite := Identifier(fd);
      if identite.Leve? {
        Fermer(fd);
        return Leve(identite.erreur);
      }
      if !identite.value.0.Ordinaire? || identite.value.1 != 1 {
        Fermer(fd);
        return Leve(ValueErreur);
      }
      var procfs := Hasard();   // the /proc/self/fd cross-check raises or agrees
      if procfs.Some? {
        Fermer(fd);
        return Leve(procfs.value);
      }
      return Ok(fd);
    }

    /** The target below its root, whatever it is; both anchors are closed again. */
    method OuvrirSousRacine(cible: Chemin, racine: Chemin, ghost fige: Disque) returns (r: Resultat<nat>)
      requires Valid() && SousRacine(cible, racine)
      modifies this`ouverts, this`descriptions, this`prochain, this`pannes, this`histoire
      ensures Valid() && old(histoire) <= histoire
      ensures old(prochain) <= prochain
      ensures pannes >= old(pannes) && if r.Ok? then pannes == old(pannes) else pannes > old(pannes) || Attrapee(r.erreur)
      ensures Conserve(old(descriptions), descriptions)
      ensures r.Leve? ==> ouverts == old(ouverts)
      ensures r.Ok? ==> r.value in ouverts && r.value >= old(prochain) && ouverts - {r.value} == old(ouverts)
      ensures r.Ok? ==> De(r.value).objet.Inode? && De(r.value).position == 0
                        && Atteint(genre, histoire, cible, De(r.value).objet.i, |histoire|)
      ensures pannes == old(pannes) && Immobile(histoire, |old(histoire)|, fige) && Servable(genre, fige, cible)
              ==> r.Ok? && Suit(r.value, cible, fige)
    {
      hide Atteint, Resout, DossierEn;
      var noms, nom := cible[|racine|..|cible| - 1], cible[|cible| - 1];
      Decoupe(genre, fige, cible, racine);
      var ancre := Ancrer(racine, fige);
      if ancre.Leve? { return ancre; }
      ghost var ancres := ouverts;
      var parent := AtteindreParent(ancre.value, racine, noms, fige);
      if parent.Leve? {
        Fermer(ancre.value);
        return parent;
      }
      r := OuvrirDernier(parent.value, racine + noms, nom, fige);
      if r.Ok? { Releve(ouverts, ancre.value, r.value); }
      assert ancre.value in ancres && ancre.value in ouverts;
      Fermer(ancre.value);
    }

    /** `_ouvrir_artefact_confine`: one descriptor more on success, none on any exception; no
        target outside the roots is opened, and one that can be served is. */
    method OuvrirConfine(cible: Chemin, racines: seq<Chemin>, ghost fige: Disque) returns (r: Resultat<nat>)
      requires Valid()
      modifies this`ouverts, this`descriptions, this`prochain, this`pannes, this`histoire
      ensures Valid() && old(histoire) <= histoire
      ensures old(prochain) <= prochain
      ensures pannes >= old(pannes) && if r.Ok? then pannes == old(pannes) else pannes > old(pannes) || Attrapee(r.erreur)
      ensures Conserve(old(descriptions), descriptions)
      ensures r.Leve? ==> ouverts == old(ouverts)
      ensures r.Ok? ==> r.value in ouverts && r.value >= old(prochain) && ouverts - {r.value} == old(ouverts)
      ensures r.Ok? ==> Confine(r.value, cible, racines, |old(histoire)|)
      ensures pannes == old(pannes) && (exists racine :: racine in racines && SousRacine(cible, racine))
                && Immobile(histoire, |old(histoire)|, fige) && Servable(genre, fige, cible)
              ==> r.Ok?
    {
      var capacite := Hasard();
      if capacite.Some? { return Leve(capacite.value); }
      var choix := RacineChoisie(cible, racines);
      if choix.None? { return Leve(ValueErreur); }
      r := OuvrirSousRacine(cible, choix.value, fige);
      if r.Leve? { return; }
      ghost var h := histoire;
      r := ExigerOrdinaire(r.value);
      if r.Ok? {
        AtteintPersiste(genre, h, histoire, cible, De(r.value).objet.i, |h|, |histoire|);
      }
    }

    static lemma Decoupe(genre: nat -> Genre, d: Disque, cible: Chemin, racine: Chemin)
      requires racine < cible
      ensures racine + cible[|racine|..|cible| - 1] == cible[..|cible| - 1]
      ensures racine + cible[|racine|..|cible| - 1] + [cible[|cible| - 1]] == cible
      ensures Servable(genre, d, cible) ==> Praticable(genre, d, racine)
    {
      if Servable(genre, d, cible) {
        forall k | 0 <= k <= |racine| ensures DossierEn(genre, d, racine[..k]) {
          assert cible[..|cible| - 1][..k] == racine[..k];
        }
      }
    }

    // -------------------------------------------------------------------------
    // Verified copy
    // -------------------------------------------------------------------------

    /** What a verified copy is worth: an anonymous file, at its start, no larger than the
        limit, whose bytes have the expected digest. */
    ghost predicate Verifie(fd: nat, empreinte: string, limite: int, digest: seq<Octet> -> string)
      requires Valid()
      reads this
    {
      && fd in ouverts
      && De(fd).objet.Anonyme?
      && De(fd).position == 0
      && |De(fd).objet.contenu| <= limite
      && digest(De(fd).objet.contenu) == empreinte
    }

    /** `copie.write`, at the end of the copy. */
    method Ecrire(fd: nat, octets: seq<Octet>) returns (e: Option<Erreur>)
      requires Valid() && fd in ouverts && De(fd).objet.Anonyme?
      modifies this`descriptions, this`pannes
      ensures Valid() && pannes == old(pannes) + (if e.Some? then 1 else 0)
      ensures var d := old(De(fd));
              descriptions == if e.Some? then old(descriptions)
                              else old(descriptions)[ouverts[fd] := Description(Anonyme(d.objet.contenu + octets), d.position + |octets|)]
    {
      e := Hasard();
      if e.Some? { return; }
      var d := De(fd);
      descriptions := descriptions[ouverts[fd] := Description(Anonyme(d.objet.contenu + octets), d.position + |octets|)];
    }

    /** The bounded loop: everything drawn is copied until the stream ends, lies or overflows. */
    method Verser(copie: nat, flux: Flux, limite: int) returns (e: Option<Erreur>)
      requires Valid() && copie in ouverts && De(copie) == Description(Anonyme([]), 0) && limite >= 0
      modifies flux, this`descriptions, this`pannes
      ensures Valid() && pannes >= old(pannes) && flux.pannes >= old(flux.pannes)
      ensures old(flux.tire) <= flux.tire
      ensures flux.honore ==> |flux.tire| - |old(flux.tire)| <= limite + 1
      ensures descriptions.Keys == old(descriptions).Keys
      ensures forall d :: d in descriptions && d != ouverts[copie] ==> descriptions[d] == old(descriptions)[d]
      ensures var lu := flux.tire[|old(flux.tire)|..];
              && (e.None? ==> De(copie) == Description(Anonyme(lu), |lu|) && |lu| <= limite && flux.fini)
              && (e.None? ==> pannes == old(pannes) && flux.pannes == old(flux.pannes))
              && (pannes == old(pannes) && flux.pannes == old(flux.pannes) && e.Some? ==> e.value.ValueErreur?)
              && (pannes == old(pannes) && flux.pannes == old(flux.pannes) && !old(flux.fini) && flux.fini && |lu| <= limite ==> e.None?)
    {
      var total := 0;
      ghost var debut := |flux.tire|;
      assert flux.tire[debut..] == [];
      while true
        invariant Valid() && pannes == old(pannes) && flux.pannes == old(flux.pannes)
        invariant old(flux.tire) <= flux.tire && total == |flux.tire| - debut <= limite
        invariant De(copie) == Description(Anonyme(flux.tire[debut..]), total)
        invariant descriptions.Keys == old(descriptions).Keys
        invariant forall d :: d in descriptions && d != ouverts[copie] ==> descriptions[d] == old(descriptions)[d]
        invariant flux.fini == old(flux.fini)
        decreases limite - total
      {
        var reste := limite - total + 1;
        ghost var lu := flux.tire;
        var r := flux.Lire(if reste < TAILLE_BLOC then reste else TAILLE_BLOC);
        if r.Leve? { return Some(r.erreur); }
        if r.value.Vide? { return None; }
        if r.value.Autre? { return Some(ValueErreur); }
        total := total + |r.value.b|;
        if total > limite { return Some(ValueErreur); }
        var ecrit := Ecrire(copie, r.value.b);
        if ecrit.Some? { return ecrit; }
        assert (lu + r.value.b)[debut..] == lu[debut..] + r.value.b;
      }
    }

    /** Duplicate the finished copy and rewind it. */
    method Rendre(copie: nat) returns (r: Resultat<nat>)
      requires Valid() && copie in ouverts && De(copie).objet.Anonyme?
      modifies this`ouverts, this`descriptions, this`prochain, this`pannes
      ensures Valid() && pannes == old(pannes) + (if r.Leve? then 1 else 0) && old(prochain) <= prochain
      ensures r.Leve? ==> ouverts == old(ouverts)
      ensures r.Ok? ==> r.value == old(prochain) && ouverts == old(ouverts)[r.value := old(ouverts)[copie]]
      ensures descriptions == if r.Leve? then old(descriptions)
                              else old(descriptions)[old(ouverts)[copie] := old(De(copie)).(position := 0)]
    {
      var e := Hasard();   // flush, fchmod
      if e.Some? { return Leve(e.value); }
      r := Dupliquer(copie);
      if r.Leve? { return; }
      e := Hasard();       // lseek
      if e.Some? {
        Fermer(r.value);
        return Leve(e.value);
      }
      descriptions := descriptions[ouverts[copie] := De(copie).(position := 0)];
    }

    /** Fill the anonymous file, compare, hand it over; the file's own descriptor is closed. */
    method Figer(copie: nat, flux: Flux, empreinte: string, limite: nat, digest: seq<Octet> -> string) returns (r: Resultat<nat>)
      requires Valid() && copie in ouverts && ouverts[copie] == copie && De(copie) == Description(Anonyme([]), 0)
      modifies flux, this`ouverts, this`descriptions, this`prochain, this`pannes
      ensures Valid() && pannes >= old(pannes) && flux.pannes >= old(flux.pannes) && old(prochain) <= prochain
      ensures forall d :: d in old(descriptions) && d != copie ==> d in descriptions && descriptions[d] == old(descriptions)[d]
      ensures old(flux.tire) <= flux.tire
      ensures flux.honore ==> |flux.tire| - |old(flux.tire)| <= limite + 1
      ensures r.Leve? ==> ouverts == old(ouverts) - {copie}
      ensures r.Ok? ==> r.value >= old(prochain) && ouverts == (old(ouverts) - {copie})[r.value := copie]
      ensures var lu := flux.tire[|old(flux.tire)|..];
              && (r.Ok? ==> De(r.value) == Description(Anonyme(lu), 0))
              && (r.Ok? ==> pannes == old(pannes) && flux.pannes == old(flux.pannes) && flux.fini && |lu| <= limite && digest(lu) == empreinte)
              && ((!old(flux.fini) && pannes == old(pannes) && flux.pannes == old(flux.pannes) && flux.fini
                   && |lu| <= limite && digest(lu) == empreinte) ==> r.Ok?)
      ensures r.Leve? && pannes == old(pannes) && flux.pannes == old(flux.pannes) ==> r.erreur.ValueErreur?
    {
      var e := Verser(copie, flux, limite);
      if e.Some? {
        Fermer(copie);
        return Leve(e.value);
      }
      if digest(De(copie).objet.contenu) != empreinte {
        Fermer(copie);
        return Leve(ValueErreur);
      }
      r := Rendre(copie);
      Fermer(copie);
    }

    /** `_copie_flux_verifiee`: it terminates on any stream, draws at most one byte more than the
        limit, and succeeds exactly when nothing failed and the bytes drawn are the expected ones. */
    method CopieFluxVerifiee(flux: Flux, empreinte: string, limite: int, digest: seq<Octet> -> string) returns (r: Resultat<nat>)
      requires Valid()
      modifies flux, this`ouverts, this`descriptions, this`prochain, this`pannes, this`lectures
      ensures Valid() && pannes >= old(pannes) && flux.pannes >= old(flux.pannes) && old(prochain) <= prochain
      ensures Conserve(old(descriptions), descriptions)
      ensures old(flux.tire) <= flux.tire && lectures == old(lectures) + [flux.Vu()]
      ensures flux.honore && limite >= 0 ==> |flux.tire| - |old(flux.tire)| <= limite + 1
      ensures r.Leve? ==> ouverts == old(ouverts)
      ensures r.Ok? ==> r.value >= old(prochain) && Detient(old(ouverts), ouverts, {r.value})
      ensures r.Ok? ==> Verifie(r.value, empreinte, limite, digest) && De(r.value).objet.contenu == flux.tire[|old(flux.tire)|..]
      ensures var lu := flux.tire[|old(flux.tire)|..];
              !old(flux.fini) ==>
                (r.Ok? <==> pannes == old(pannes) && flux.pannes == old(flux.pannes) && limite >= 0 && EmpreinteValide(empreinte)
                            && flux.fini && |lu| <= limite && digest(lu) == empreinte)
      ensures r.Leve? && pannes == old(pannes) && flux.pannes == old(flux.pannes) ==> r.erreur.ValueErreur?
    {
      hide EmpreinteValide;
      lectures := lectures + [flux.Vu()];
      if limite < 0 || !EmpreinteValide(empreinte) { return Leve(ValueErreur); }
      var e := Hasard();   // TemporaryFile
      if e.Some? { return Leve(e.value); }
      ghost var avant := ouverts;
      var copie := Inscrire(Anonyme([]));
      assert ouverts - {copie} == avant;
      r := Figer(copie, flux, empreinte, limite, digest);
      lectures := old(lectures) + [flux.Vu()];
    }

    // -------------------------------------------------------------------------
    // Remote bodies
    // -------------------------------------------------------------------------

    /** `get_object(...)["Body"]`. */
    method ObtenirCorps() returns (r: Resultat<(nat, Flux)>)
      requires Valid()
      modifies this`corpsOuverts, this`prochain, this`pannes
      ensures Valid() && pannes == old(pannes) + (if r.Leve? then 1 else 0) && old(prochain) <= prochain
      ensures r.Leve? ==> corpsOuverts == old(corpsOuverts)
      ensures r.Ok? ==> r.value.0 !in old(corpsOuverts) && corpsOuverts == old(corpsOuverts) + {r.value.0}
      ensures r.Ok? ==> fresh(r.value.1) && r.value.1.Neuf(true)
    {
      var e := Hasard();
      if e.Some? { return Leve(e.value); }
      var corps := prochain;
      prochain := prochain + 1;
      corpsOuverts := corpsOuverts + {corps};
      var honnete: bool := *;
      var flux := new Flux(true, honnete);
      return Ok((corps, flux));
    }

    /** `corps.close()`: the body is released even when closing raises. */
    method FermerCorps(corps: nat) returns (e: Option<Erreur>)
      requires Valid() && corps in corpsOuverts
      modifies this`corpsOuverts, this`pannes
      ensures Valid() && corpsOuverts == old(corpsOuverts) - {corps}
      ensures pannes == old(pannes) + (if e.Some? then 1 else 0)
    {
      corpsOuverts := corpsOuverts - {corps};
      e := Hasard();
    }

    // -------------------------------------------------------------------------
    // The download routes
    // -------------------------------------------------------------------------

    /** `with os.fdopen(...)`: the source is copied, then closed whatever happened. */
    method CopierLocal(fd: nat, flux: Flux, empreinte: string, limite: int, digest: seq<Octet> -> string) returns (r: Resultat<nat>)
      requires Valid() && fd in ouverts && flux.Neuf(false)
      modifies flux, this`ouverts, this`descriptions, this`prochain, this`pannes, this`lectures
      ensures Valid() && pannes >= old(pannes) && lectures == old(lectures) + [flux.Vu()] && !flux.distant
      ensures r.Leve? ==> ouverts == old(ouverts) - {fd}
      ensures r.Ok? ==> Detient(old(ouverts) - {fd}, ouverts, {r.value}) && Verifie(r.value, empreinte, limite, digest)
      ensures r.Ok? <==> pannes == old(pannes) && flux.Vu().Conforme(empreinte, limite, digest)
      ensures r.Leve? && pannes == old(pannes) && flux.pannes == 0 ==> Attrapee(r.erreur)
    {
      hide EmpreinteValide, Conserve;
      r := CopieFluxVerifiee(flux, empreinte, limite, digest);
      assert flux.tire[0..] == flux.tire;
      Fermer(fd);
    }

    /** Open the local source, wrap it and copy it; the source is closed in every case but one:
        when `fdopen` itself raises, nobody owns it any more. */
    method LocalVerifie(cible: Chemin, racines: seq<Chemin>, empreinte: string, limite: int, digest: seq<Octet> -> string, ghost fige: Disque)
      returns (r: Resultat<nat>, perdus: set<nat>)
      requires Valid()
      modifies this`ouverts, this`descriptions, this`prochain, this`pannes, this`histoire, this`fdopenLeves, this`lectures
      ensures Valid() && old(histoire) <= histoire
      ensures fdopenLeves >= old(fdopenLeves) && |perdus| == fdopenLeves - old(fdopenLeves)
      ensures perdus != {} ==> r.Leve?
      ensures r.Leve? ==> Detient(old(ouverts), ouverts, perdus)
      ensures r.Ok? ==> Detient(old(ouverts), ouverts, {r.value}) && Verifie(r.value, empreinte, limite, digest)
      ensures LocalExact(genre, old(Observe()), Observe(), r, cible, racines, empreinte, limite, digest, fige)
    {
      hide Confine, Conserve, Servable, Immobile, Lecture.Conforme, Verifie;
      perdus := {};
      var source := OuvrirConfine(cible, racines, fige);
      if source.Leve? { return source, {}; }
      var fd := source.value;
      var flux := Fdopen(fd);
      if flux.Leve? { return Leve(flux.erreur), {fd}; }
      assert ouverts - {fd} == old(ouverts);
      r := CopierLocal(fd, flux.value, empreinte, limite, digest);
    }

    /** Fetch the remote body and copy it; the body is always closed. The copy outlives the call
        even if closing the body raises: the caller decides. An interrupted closing after a
        successful copy is recorded. Without a failure the copy is made exactly when the bytes of
        the body are the expected ones. */
    method DistantVerifie(empreinte: string, limite: int, digest: seq<Octet> -> string)
      returns (copie: Option<nat>, e: Option<Erreur>)
      requires Valid()
      modifies this`ouverts, this`descriptions, this`prochain, this`pannes, this`corpsOuverts, this`copiesOrphelines, this`lectures
      ensures Valid() && pannes >= old(pannes) && corpsOuverts == old(corpsOuverts)
      ensures copiesOrphelines == old(copiesOrphelines) + (if copie.Some? && e == Some(Interruption) then 1 else 0)
      ensures copie.None? ==> e.Some? && ouverts == old(ouverts)
      ensures copie.Some? ==> Detient(old(ouverts), ouverts, {copie.value}) && Verifie(copie.value, empreinte, limite, digest)
      ensures DistantExact(old(Observe()), Observe(), e.None?, empreinte, limite, digest)
    {
      hide EmpreinteValide, Conserve;
      var corps := ObtenirCorps();
      if corps.Leve? { return None, Some(corps.erreur); }
      var r := CopieFluxVerifiee(corps.value.1, empreinte, limite, digest);
      assert corps.value.1.tire[0..] == corps.value.1.tire;
      var fermeture := FermerCorps(corps.value.0);
      copie := if r.Ok? then Some(r.value) else None;
      e := if fermeture.Some? then fermeture else if r.Leve? then Some(r.erreur) else None;
      if copie.Some? && e == Some(Interruption) { copiesOrphelines := copiesOrphelines + 1; }
    }

    /** `_ReponseFichierEpingle(fd)`: takes the descriptor, and closes it if it cannot be built. */
    method Epingler(fd: nat) returns (e: Option<Erreur>)
      requires Valid() && fd in ouverts
      modifies this`ouverts, this`pannes
      ensures Valid() && pannes == old(pannes) + (if e.Some? then 1 else 0)
      ensures ouverts == if e.Some? then old(ouverts) - {fd} else old(ouverts)
    {
      e := Hasard();
      if e.Some? { Fermer(fd); }
    }

    /** Audit, then hand the descriptor over to a response; anything raised closes it. */
    method Remettre(fd: nat) returns (e: Option<Erreur>)
      requires Valid() && fd in ouverts
      modifies this`ouverts, this`pannes
      ensures Valid() && pannes == old(pannes) + (if e.Some? then 1 else 0)
      ensures ouverts == if e.Some? then old(ouverts) - {fd} else old(ouverts)
    {
      e := Hasard();   // the audit record
      if e.Some? {
        Fermer(fd);
        return;
      }
      e := Epingler(fd);
    }

    /** The remote attempt of `GET /open`. Any exception but an interruption closes the copy; an
        interruption leaves it to nobody. */
    method Replier(empreinte: string, limite: int, digest: seq<Octet> -> string)
      returns (r: Resultat<nat>, perdus: set<nat>)
      requires Valid()
      modifies this`ouverts, this`descriptions, this`prochain, this`pannes, this`corpsOuverts, this`copiesOrphelines, this`lectures
      ensures Valid() && pannes >= old(pannes) && corpsOuverts == old(corpsOuverts)
      ensures DistantExact(old(Observe()), Observe(), r.Ok?, empreinte, limite, digest)
      ensures Suite(old(Observe()), Observe()) && (r.Ok? ==> pannes == old(pannes))
      ensures copiesOrphelines >= old(copiesOrphelines) && |perdus| == copiesOrphelines - old(copiesOrphelines)
      ensures perdus != {} ==> r == Leve(Interruption)
      ensures r.Ok? ==> Detient(old(ouverts), ouverts, {r.value}) && Verifie(r.value, empreinte, limite, digest)
      ensures r.Leve? ==> Detient(old(ouverts), ouverts, perdus)
    {
      var copie, e := DistantVerifie(empreinte, limite, digest);
      if e.None? { return Ok(copie.value), {}; }
      if copie.None? { return Leve(e.value), {}; }
      if e == Some(Interruption) { return Leve(Interruption), {copie.value}; }
      DetientFerme(old(ouverts), ouverts, {copie.value}, copie.value);
      Fermer(copie.value);
      assert {copie.value} - {copie.value} == {};
      return Leve(e.value), {};
    }

    static lemma DeuxPertes(avant: map<nat, nat>, milieu: map<nat, nat>, apres: map<nat, nat>, a: set<nat>, b: set<nat>)
      requires Detient(avant, milieu, a) && Detient(milieu, apres, b)
      ensures Detient(avant, apres, a + b) && a !! b && |a + b| == |a| + |b|
    {
      DetientPuis(avant, milieu, apres, a, b);
    }

    /** The verified copy to serve: local first, then remote, or nothing. */
    method CopieCapture(cible: Chemin, racines: seq<Chemin>, empreinte: string, limite: int, digest: seq<Octet> -> string, objetConnu: bool,
                        ghost fige: Disque)
      returns (r: Resultat<nat>, perdus: set<nat>, ghost local: Resultat<nat>, ghost apres: Trace)
      requires Valid()
      modifies this
      ensures Valid() && corpsOuverts == old(corpsOuverts)
      ensures r.Ok? ==> r.value !in perdus && Detient(old(ouverts), ouverts, perdus + {r.value})
      ensures r.Ok? ==> Verifie(r.value, empreinte, limite, digest)
      ensures r.Leve? ==> Detient(old(ouverts), ouverts, perdus)
      ensures fdopenLeves >= old(fdopenLeves) && copiesOrphelines >= old(copiesOrphelines)
      ensures |perdus| == fdopenLeves - old(fdopenLeves) + copiesOrphelines - old(copiesOrphelines)
      ensures LocalExact(genre, old(Observe()), apres, local, cible, racines, empreinte, limite, digest, fige) && Suite(apres, Observe())
      ensures local.Ok? || !Attrapee(local.erreur) ==> r == local
      ensures local.Leve? && Attrapee(local.erreur) && !objetConnu ==> r == Leve(AutreException)
      ensures local.Leve? && Attrapee(local.erreur) && objetConnu ==>
                && DistantExact(apres, Observe(), r.Ok?, empreinte, limite, digest)
                && (r.Leve? ==> r.erreur.AutreException? || r.erreur.Interruption?)
      ensures r.Ok? ==> pannes == apres.pannes
    {
      hide LocalExact, DistantExact, Verifie, Detient;
      r, perdus := LocalVerifie(cible, racines, empreinte, limite, digest, fige);
      local, apres := r, Observe();
      if r.Ok? {
        assert perdus + {r.value} == {r.value};
        return;
      }
      if !Attrapee(r.erreur) { return; }
      if !objetConnu { return Leve(AutreException), perdus, local, apres; }   // 404
      ghost var milieu := ouverts;
      var encore;
      r, encore := Replier(empreinte, limite, digest);
      DeuxPertes(old(ouverts), milieu, ouverts, perdus, if r.Ok? then {r.value} else encore);
      if r.Ok? { return; }
      perdus := perdus + encore;
      if !r.erreur.Interruption? { r := Leve(AutreException); }   // 404
    }

    /** `GET /open` for a captured source. Exactly one new descriptor, owned by the response, when
        one is returned, and none otherwise, except one lost for each `fdopen` that raised and
        each successful copy whose body's closing was interrupted, and no other. A verified local
        copy is served; when the local file is refused the stored object is, if it is conform; only
        a later failure prevents it. */
    method OuvrirCapture(cible: Chemin, racines: seq<Chemin>, empreinte: string, limite: int, digest: seq<Octet> -> string, objetConnu: bool,
                         ghost fige: Disque)
      returns (issue: Resultat<nat>, perdus: set<nat>, ghost local: Resultat<nat>, ghost apres: Trace)
      requires Valid()
      modifies this
      ensures Valid() && corpsOuverts == old(corpsOuverts)
      ensures issue.Ok? ==> issue.value !in perdus && Detient(old(ouverts), ouverts, perdus + {issue.value})
      ensures issue.Ok? ==> Verifie(issue.value, empreinte, limite, digest)
      ensures issue.Leve? ==> Detient(old(ouverts), ouverts, perdus)
      ensures fdopenLeves >= old(fdopenLeves) && copiesOrphelines >= old(copiesOrphelines)
      ensures |perdus| == fdopenLeves - old(fdopenLeves) + copiesOrphelines - old(copiesOrphelines)
      ensures perdus == {} <==> fdopenLeves == old(fdopenLeves) && copiesOrphelines == old(copiesOrphelines)
      ensures LocalExact(genre, old(Observe()), apres, local, cible, racines, empreinte, limite, digest, fige) && Suite(apres, Observe())
      ensures issue.Ok? ==> pannes == apres.pannes
      ensures local.Ok? && pannes == apres.pannes ==> issue == local
      ensures local.Leve? && !Attrapee(local.erreur) ==> issue == local
      ensures local.Leve? && Attrapee(local.erreur) && !objetConnu ==> issue == Leve(AutreException)
      ensures local.Leve? && Attrapee(local.erreur) && objetConnu && pannes == apres.pannes ==>
                && DistantExact(apres, Observe(), issue.Ok?, empreinte, limite, digest)
                && (issue.Leve? ==> issue.erreur.AutreException? || issue.erreur.Interruption?)
    {
      issue, perdus, local, apres := CopieCapture(cible, racines, empreinte, limite, digest, objetConnu, fige);
      if issue.Leve? { return; }
      var fd := issue.value;
      DetientFerme(old(ouverts), ouverts, perdus + {fd}, fd);
      assert perdus + {fd} - {fd} == perdus;
      var e := Remettre(fd);
      if e.Some? { issue := Leve(e.value); }
    }

    /** `GET /open` for an uncaptured file; one that can be served is, unless something fails. */
    method OuvrirOrdinaire(cible: Chemin, racines: seq<Chemin>, ghost fige: Disque) returns (issue: Resultat<nat>)
      requires Valid()
      modifies this`ouverts, this`descriptions, this`prochain, this`pannes, this`histoire
      ensures Valid() && old(histoire) <= histoire
      ensures issue.Ok? ==> Detient(old(ouverts), ouverts, {issue.value}) && Confine(issue.value, cible, racines, |old(histoire)|)
      ensures issue.Leve? ==> ouverts == old(ouverts)
      ensures pannes >= old(pannes) && (issue.Ok? ==> pannes == old(pannes))
      ensures Joignable(genre, old(Observe()), Observe(), cible, racines, fige) ==> issue.Ok?
      ensures pannes == old(pannes) && issue.Leve? ==> issue.erreur == AutreException
    {
      issue := OuvrirConfine(cible, racines, fige);
      if issue.Leve? {
        return if Attrapee(issue.erreur) then Leve(AutreException) else issue;   // 409
      }
      var e := Remettre(issue.value);
      if e.Some? { issue := Leve(e.value); }
    }

    /** The local half of `get_import_artifact`; a refusal of the file itself is not an answer. */
    method ArtefactLocal(cible: Chemin, racines: seq<Chemin>, empreinte: Option<string>, limite: int, digest: seq<Octet> -> string,
                         ghost fige: Disque)
      returns (r: Resultat<nat>, perdus: set<nat>)
      requires Valid()
      modifies this`ouverts, this`descriptions, this`prochain, this`pannes, this`histoire, this`fdopenLeves, this`lectures
      ensures Valid() && old(histoire) <= histoire
      ensures fdopenLeves >= old(fdopenLeves) && (perdus == {} <==> fdopenLeves == old(fdopenLeves))
      ensures perdus != {} ==> r.Leve?
      ensures r.Leve? ==> Detient(old(ouverts), ouverts, perdus)
      ensures r.Ok? ==> Detient(old(ouverts), ouverts, {r.value})
      ensures r.Ok? ==> if empreinte.Some? then Verifie(r.value, empreinte.value, limite, digest)
                        else Confine(r.value, cible, racines, |old(histoire)|)
      ensures ArtefactExact(genre, old(Observe()), Observe(), r, cible, racines, empreinte, limite, digest, fige)
    {
      if empreinte.Some? {
        r, perdus := LocalVerifie(cible, racines, empreinte.value, limite, digest, fige);
      } else {
        r := OuvrirConfine(cible, racines, fige);
        perdus := {};
      }
    }

    /** The verified remote half: whatever is raised, the `finally` closes the copy. */
    method ArtefactDistant(empreinte: string, limite: int, digest: seq<Octet> -> string) returns (r: Resultat<nat>)
      requires Valid()
      modifies this`ouverts, this`descriptions, this`prochain, this`pannes, this`corpsOuverts, this`copiesOrphelines, this`lectures
      ensures Valid() && pannes >= old(pannes) && corpsOuverts == old(corpsOuverts)
      ensures r.Leve? ==> ouverts == old(ouverts)
      ensures r.Ok? ==> Detient(old(ouverts), ouverts, {r.value}) && Verifie(r.value, empreinte, limite, digest)
      ensures DistantExact(old(Observe()), Observe(), r.Ok?, empreinte, limite, digest)
      ensures Suite(old(Observe()), Observe()) && (r.Ok? ==> pannes == old(pannes))
    {
      var copie, e := DistantVerifie(empreinte, limite, digest);
      if e.Some? {
        if copie.Some? { Fermer(copie.value); }
        return Leve(e.value);
      }
      e := Remettre(copie.value);
      r := if e.Some? then Leve(e.value) else Ok(copie.value);
    }

    /** `_reponse_objet_s3` and its audit: the body belongs to one response, or is closed. */
    method ArtefactFlux() returns (r: Resultat<ReponseFlux>)
      requires Valid()
      modifies this`corpsOuverts, this`prochain, this`pannes
      ensures Valid() && pannes >= old(pannes) && (r.Ok? <==> pannes == old(pannes))
      ensures r.Leve? ==> corpsOuverts == old(corpsOuverts)
      ensures r.Ok? ==> fresh(r.value) && r.value.Valid(this) && !r.value.ferme
                        && r.value.corps !in old(corpsOuverts) && corpsOuverts == old(corpsOuverts) + {r.value.corps}
    {
      var e := Hasard();   // head_object and its length
      if e.Some? { return Leve(e.value); }
      var corps := ObtenirCorps();
      if corps.Leve? { return Leve(corps.erreur); }
      var reponse := new ReponseFlux(this, corps.value.0);
      e := Hasard();       // the rest of the constructor, then the audit record
      if e.Some? {
        var autre := reponse.Fermer(this);
        return Leve(autre.GetOr(e.value));
      }
      return Ok(reponse);
    }

    /** `get_import_artifact` from the point where it needs octets: one descriptor or one body,
        owned by the response, or nothing; a descriptor is lost exactly when `fdopen` raises. The
        local file is served when it can be, then the stored object. */
    method ServirArtefact(fichier: Option<Chemin>, racines: seq<Chemin>, empreinte: Option<string>, limite: int,
                          digest: seq<Octet> -> string, objetConnu: bool, ghost fige: Disque)
      returns (issue: Issue, perdus: set<nat>, ghost local: Resultat<nat>, ghost apres: Trace)
      requires Valid()
      modifies this
      ensures Valid()
      ensures perdus == {} <==> fdopenLeves == old(fdopenLeves)
      ensures issue.Fichier? ==> issue.fd !in perdus && Detient(old(ouverts), ouverts, perdus + {issue.fd}) && corpsOuverts == old(corpsOuverts)
      ensures issue.Fichier? && empreinte.Some? ==> Verifie(issue.fd, empreinte.value, limite, digest)
      ensures issue.Fichier? && empreinte.None? ==> fichier.Some? && Confine(issue.fd, fichier.value, racines, |old(histoire)|)
      ensures issue.Corps? ==> fresh(issue.reponse) && empreinte.None? && Detient(old(ouverts), ouverts, perdus)
                               && issue.reponse.Valid(this) && !issue.reponse.ferme && corpsOuverts == old(corpsOuverts) + {issue.reponse.corps}
                               && issue.reponse.corps !in old(corpsOuverts)
      ensures issue.Echec? ==> Detient(old(ouverts), ouverts, perdus) && corpsOuverts == old(corpsOuverts)
      ensures if fichier.Some? then ArtefactExact(genre, old(Observe()), apres, local, fichier.value, racines, empreinte, limite, digest, fige)
              else local == Leve(OSErreur) && apres == old(Observe())
      ensures Suite(apres, Observe())
      ensures local.Ok? ==> if pannes == apres.pannes then issue == Fichier(local.value) else issue.Echec?
      ensures local.Leve? && !Attrapee(local.erreur) ==> issue == Echec(local.erreur)
      ensures local.Leve? && Attrapee(local.erreur) && !objetConnu ==> issue == Echec(AutreException)
      ensures local.Leve? && Attrapee(local.erreur) && objetConnu ==>
                && (issue.Echec? ==> issue.erreur.AutreException? || issue.erreur.Interruption?)
                && (empreinte.Some? ==> DistantExact(apres, Observe(), issue.Fichier?, empreinte.value, limite, digest))
                && (empreinte.None? ==> (issue.Corps? <==> pannes == apres.pannes))
    {
      hide ArtefactExact, DistantExact, Confine, Verifie;
      perdus := {};
      local, apres := Leve(OSErreur), Observe();
      if fichier.Some? {
        var r;
        r, perdus := ArtefactLocal(fichier.value, racines, empreinte, limite, digest, fige);
        local, apres := r, Observe();
        if r.Ok? {
          var e := Remettre(r.value);
          return if e.Some? then Echec(e.value) else Fichier(r.value), perdus, local, apres;
        }
        if !Attrapee(r.erreur) { return Echec(r.erreur), perdus, local, apres; }
      }
      ghost var milieu := ouverts;
      if objetConnu {
        if empreinte.Some? {
          var distant := ArtefactDistant(empreinte.value, limite, digest);
          if distant.Ok? {
            DetientPuis(old(ouverts), milieu, ouverts, perdus, {distant.value});
            return Fichier(distant.value), perdus, local, apres;
          }
          if distant.erreur.Interruption? { return Echec(Interruption), perdus, local, apres; }
        } else {
          var flux := ArtefactFlux();
          if flux.Ok? { return Corps(flux.value), perdus, local, apres; }
          if flux.erreur.Interruption? { return Echec(Interruption), perdus, local, apres; }
        }
      }
      return Echec(AutreException), perdus, local, apres;   // 404, or the audit of the 404 raising
    }

    /** A file response being sent: whatever happens while sending, the descriptor is closed. */
    method Envoyer(fd: nat) returns (e: Option<Erreur>)
      requires Valid() && fd in ouverts
      modifies this`ouverts, this`pannes
      ensures Valid() && ouverts == old(ouverts) - {fd}
    {
      e := Hasard();
      Fermer(fd);
    }

    /** A whole download: afterwards the process holds what it held, and what `fdopen` lost. */
    method Telecharger(fichier: Option<Chemin>, racines: seq<Chemin>, empreinte: Option<string>, limite: int,
                       digest: seq<Octet> -> string, objetConnu: bool)
      returns (perdus: set<nat>)
      requires Valid()
      modifies this
      ensures Valid() && corpsOuverts == old(corpsOuverts)
      ensures Detient(old(ouverts), ouverts, perdus)
      ensures perdus == {} <==> fdopenLeves == old(fdopenLeves)
    {
      var issue;
      ghost var local, apres;
      issue, perdus, local, apres := ServirArtefact(fichier, racines, empreinte, limite, digest, objetConnu, Disque(map[], map[]));
      match issue
      case Fichier(fd) =>
        DetientFerme(old(ouverts), ouverts, perdus + {fd}, fd);
        assert perdus + {fd} - {fd} == perdus;
        var e := Envoyer(fd);
      case Corps(reponse) =>
        var e := reponse.Envoyer(this);
      case Echec(_) =>
    }
  }

  datatype Issue = Fichier(fd: nat) | Corps(reponse: ReponseFlux) | Echec(erreur: Erreur)

  /** `_ReponseFluxFerme`: the remote body is closed once, by whoever asks first. */
  class ReponseFlux {
    const corps: nat
    var ferme: bool

    ghost predicate Valid(sys: Systeme)
      reads this, sys
    {
      sys.Valid() && (ferme <==> corps !in sys.corpsOuverts)
    }

    constructor (sys: Systeme, corps: nat)
      requires sys.Valid() && corps in sys.corpsOuverts
      ensures Valid(sys) && !ferme && this.corps == corps
    {
      this.corps, ferme := corps, false;
    }

    /** Any number of calls closes the body exactly once; only an interruption escapes. */
    method Fermer(sys: Systeme) returns (e: Option<Erreur>)
      requires Valid(sys)
      modifies this, sys`corpsOuverts, sys`pannes
      ensures Valid(sys) && ferme && sys.corpsOuverts == old(sys.corpsOuverts) - {corps}
      ensures sys.pannes >= old(sys.pannes)
      ensures old(ferme) ==> e.None? && sys.pannes == old(sys.pannes)
      ensures e.None? || e == Some(Interruption)
    {
      if ferme { return None; }
      ferme := true;
      e := sys.FermerCorps(corps);
      if e != Some(Interruption) { e := None; }
    }

    /** `__call__`: closed even if the client leaves before the first block. */
    method Envoyer(sys: Systeme) returns (e: Option<Erreur>)
      requires Valid(sys)
      modifies this, sys`corpsOuverts, sys`pannes
      ensures Valid(sys) && ferme && sys.corpsOuverts == old(sys.corpsOuverts) - {corps}
    {
      e := sys.Hasard();
      var autre := Fermer(sys);
      e := autre.OrElse(e);
    }
  }
}
