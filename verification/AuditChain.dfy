/** The canonical audit log (seamtech_search/audit.py): an append-only table whose
    rows are chained by digest, written by concurrent transactions that are
    serialised by a transactional advisory lock.

    The digest function is a parameter `h`. No theorem assumes that it has no
    collision: where a collision would break the property, the theorem exhibits
    the two colliding payloads instead. */
module AuditChain {
  import opened Options
  import Sorting

  type Digest = string
  type Details = map<string, string>

  /** An event before insertion; absent optional keys are `None`. */
  datatype Evenement = Evenement(
    creeLe: string, requestId: Option<string>, actorType: string, idUtilisateur: Option<int>,
    identifiant: Option<string>, role: Option<string>, idSession: Option<int>, actor: string,
    action: string, resourceType: Option<string>, resourceId: Option<string>, resource: Option<string>,
    status: string, codeStatut: Option<int>, adresseIp: Option<string>, userAgent: Option<string>,
    details: Option<Details>)

  /** The columns of a stored row; the four optional texts and details are NOT NULL there. */
  datatype Colonnes = Colonnes(
    creeLe: string, requestId: Option<string>, actorType: string, idUtilisateur: Option<int>,
    identifiant: Option<string>, role: Option<string>, idSession: Option<int>, actor: string,
    action: string, resourceType: string, resourceId: string, resource: string,
    status: string, codeStatut: Option<int>, adresseIp: Option<string>, userAgent: Option<string>,
    details: Details)

  /** What is digested: the columns, defaults filled in, and the previous digest. */
  datatype Charge = Charge(colonnes: Colonnes, precedente: Option<Digest>)

  /** A row of `audit_logs`. The primary key is not part of the digested payload. */
  datatype Ligne = Ligne(id: nat, colonnes: Colonnes, precedente: Option<Digest>, empreinte: Digest)

  type Hachage = Charge -> Digest

  function Normaliser(e: Evenement): Colonnes {
    Colonnes(e.creeLe, e.requestId, e.actorType, e.idUtilisateur, e.identifiant, e.role, e.idSession, e.actor,
             e.action, e.resourceType.GetOr(""), e.resourceId.GetOr(""), e.resource.GetOr(""),
             e.status, e.codeStatut, e.adresseIp, e.userAgent, e.details.GetOr(map[]))
  }

  function PayloadEmpreinte(e: Evenement, precedente: Option<Digest>): Charge {
    Charge(Normaliser(e), precedente)
  }

  /** The payload a later reader recomputes from the stored columns. */
  function ChargeRelue(l: Ligne): Charge { Charge(l.colonnes, l.precedente) }

  // ---------------------------------------------------------------------------
  // What is kept of an event, column by column
  // ---------------------------------------------------------------------------

  ghost predicate TexteStocke(recu: Option<string>, stocke: string) {
    match recu case Some(t) => stocke == t case None => stocke == ""
  }

  /** The row holds the event: nothing lost, nothing altered, absent texts and details empty. */
  ghost predicate Stocke(e: Evenement, c: Colonnes) {
    && c.creeLe == e.creeLe && c.requestId == e.requestId && c.actorType == e.actorType
    && c.idUtilisateur == e.idUtilisateur && c.identifiant == e.identifiant && c.role == e.role
    && c.idSession == e.idSession && c.actor == e.actor && c.action == e.action
    && TexteStocke(e.resourceType, c.resourceType)
    && TexteStocke(e.resourceId, c.resourceId)
    && TexteStocke(e.resource, c.resource)
    && c.status == e.status && c.codeStatut == e.codeStatut
    && c.adresseIp == e.adresseIp && c.userAgent == e.userAgent
    && (match e.details case Some(d) => c.details == d case None => c.details == map[])
  }

  lemma NormaliserStocke(e: Evenement)
    ensures Stocke(e, Normaliser(e))
    ensures forall c :: Stocke(e, c) ==> c == Normaliser(e)
  {
  }

  /** Absent and default are one value. */
  ghost predicate MemeParDefaut<T>(x: Option<T>, y: Option<T>, d: T) {
    x == y || (x == None && y == Some(d)) || (x == Some(d) && y == None)
  }

  ghost predicate MemeEvenement(e: Evenement, f: Evenement) {
    && e.creeLe == f.creeLe && e.requestId == f.requestId && e.actorType == f.actorType
    && e.idUtilisateur == f.idUtilisateur && e.identifiant == f.identifiant && e.role == f.role
    && e.idSession == f.idSession && e.actor == f.actor && e.action == f.action
    && MemeParDefaut(e.resourceType, f.resourceType, "")
    && MemeParDefaut(e.resourceId, f.resourceId, "")
    && MemeParDefaut(e.resource, f.resource, "")
    && e.status == f.status && e.codeStatut == f.codeStatut
    && e.adresseIp == f.adresseIp && e.userAgent == f.userAgent
    && MemeParDefaut(e.details, f.details, map[])
  }

  /** Two digested payloads are equal exactly when the events are, up to the four defaults,
      and the predecessors are. */
  lemma ChargeFidele(e: Evenement, f: Evenement, p: Option<Digest>, q: Option<Digest>)
    ensures PayloadEmpreinte(e, p) == PayloadEmpreinte(f, q) <==> MemeEvenement(e, f) && p == q
  {
    NormaliserStocke(e);
    NormaliserStocke(f);
  }

  function Dernier(lignes: seq<Ligne>): Option<Digest> {
    if lignes == [] then None else Some(lignes[|lignes| - 1].empreinte)
  }

  /** A log that recomputes: each row names the digest of the row just before it
      and carries the digest of its own payload. */
  ghost predicate Chaine(h: Hachage, lignes: seq<Ligne>) {
    forall i :: 0 <= i < |lignes| ==>
      && lignes[i].precedente == Dernier(lignes[..i])
      && lignes[i].empreinte == h(ChargeRelue(lignes[i]))
  }

  ghost predicate Croissante(lignes: seq<Ligne>, borne: nat) {
    && (forall i, j :: 0 <= i < j < |lignes| ==> lignes[i].id < lignes[j].id)
    && (forall i :: 0 <= i < |lignes| ==> lignes[i].id < borne)
  }

  ghost predicate EmpreintesDistinctes(lignes: seq<Ligne>) {
    forall i, j :: 0 <= i < j < |lignes| ==> lignes[i].empreinte != lignes[j].empreinte
  }

  /** What every committed or pending table satisfies. */
  ghost predicate Saine(h: Hachage, lignes: seq<Ligne>, borne: nat) {
    Chaine(h, lignes) && Croissante(lignes, borne) && EmpreintesDistinctes(lignes)
  }

  ghost predicate Collision(h: Hachage, x: Charge, y: Charge) { x != y && h(x) == h(y) }

  // ---------------------------------------------------------------------------
  // What a chained log is worth
  // ---------------------------------------------------------------------------

  /** Same stored columns, predecessor and digest: everything but the primary key. */
  ghost predicate MemeLigne(a: Ligne, b: Ligne) {
    a.colonnes == b.colonnes && a.precedente == b.precedente && a.empreinte == b.empreinte
  }

  ghost predicate MemeContenu(a: seq<Ligne>, b: seq<Ligne>) {
    |a| == |b| && forall i :: 0 <= i < |a| ==> MemeLigne(a[i], b[i])
  }

  ghost predicate CollisionEntre(h: Hachage, a: seq<Ligne>, b: seq<Ligne>) {
    exists i, j :: 0 <= i < |a| && 0 <= j < |b| && Collision(h, ChargeRelue(a[i]), ChargeRelue(b[j]))
  }

  lemma PrefixeChaine(h: Hachage, lignes: seq<Ligne>, n: nat)
    requires Chaine(h, lignes) && n <= |lignes|
    ensures Chaine(h, lignes[..n])
  {
    forall i | 0 <= i < n ensures lignes[..n][..i] == lignes[..i] {}
  }

  /** One link back: equal tips over equal payloads leave equal tips below. */
  lemma MaillonCommun(h: Hachage, a: seq<Ligne>, b: seq<Ligne>)
    requires Chaine(h, a) && Chaine(h, b)
    requires a != [] && b != [] && Dernier(a) == Dernier(b)
    requires ChargeRelue(a[|a| - 1]) == ChargeRelue(b[|b| - 1])
    ensures Chaine(h, a[..|a| - 1]) && Chaine(h, b[..|b| - 1])
    ensures Dernier(a[..|a| - 1]) == Dernier(b[..|b| - 1])
    ensures MemeLigne(a[|a| - 1], b[|b| - 1])
  {
    PrefixeChaine(h, a, |a| - 1);
    PrefixeChaine(h, b, |b| - 1);
    assert a[|a| - 1].precedente == ChargeRelue(a[|a| - 1]).precedente == b[|b| - 1].precedente;
  }

  lemma CollisionPrefixe(h: Hachage, a: seq<Ligne>, b: seq<Ligne>, m: nat, n: nat)
    requires m <= |a| && n <= |b| && CollisionEntre(h, a[..m], b[..n])
    ensures CollisionEntre(h, a, b)
  {
    var i, j :| 0 <= i < m && 0 <= j < n && Collision(h, ChargeRelue(a[..m][i]), ChargeRelue(b[..n][j]));
    assert Collision(h, ChargeRelue(a[i]), ChargeRelue(b[j]));
  }

  lemma AllongerMemeContenu(a: seq<Ligne>, b: seq<Ligne>)
    requires a != [] && b != []
    requires MemeContenu(a[..|a| - 1], b[..|b| - 1])
    requires MemeLigne(a[|a| - 1], b[|b| - 1])
    ensures MemeContenu(a, b)
  {
    forall i | 0 <= i < |a| - 1 ensures MemeLigne(a[i], b[i]) {
      assert MemeLigne(a[..|a| - 1][i], b[..|b| - 1][i]);
    }
  }

  /** The tip seals the whole history: two chained logs with the same last digest
      agree row by row, whatever their lengths, or two of their payloads collide. */
  lemma {:induction false} TeteScelleHistoire(h: Hachage, a: seq<Ligne>, b: seq<Ligne>)
    requires Chaine(h, a) && Chaine(h, b)
    requires Dernier(a) == Dernier(b)
    ensures MemeContenu(a, b) || CollisionEntre(h, a, b)
    decreases |a|
  {
    if a != [] {
      var m, n := |a| - 1, |b| - 1;
      if ChargeRelue(a[m]) != ChargeRelue(b[n]) {
        assert Collision(h, ChargeRelue(a[m]), ChargeRelue(b[n]));
      } else {
        MaillonCommun(h, a, b);
        TeteScelleHistoire(h, a[..m], b[..n]);
        if CollisionEntre(h, a[..m], b[..n]) {
          CollisionPrefixe(h, a, b, m, n);
        } else {
          AllongerMemeContenu(a, b);
        }
      }
    }
  }

  /** Any edit, removal, insertion or reordering below an unchanged tip breaks the recomputation. */
  lemma AlterationVisible(h: Hachage, original: seq<Ligne>, altere: seq<Ligne>)
    requires Chaine(h, original)
    requires Dernier(altere) == Dernier(original)
    requires !MemeContenu(original, altere)
    requires !CollisionEntre(h, original, altere)
    ensures !Chaine(h, altere)
  {
    if Chaine(h, altere) {
      TeteScelleHistoire(h, original, altere);
    }
  }

  /** In one chain a digest can only come back through a collision. */
  lemma {:induction false} RepetitionImpliqueCollision(h: Hachage, lignes: seq<Ligne>, i: nat, j: nat)
    requires Chaine(h, lignes)
    requires i < j < |lignes| && lignes[i].empreinte == lignes[j].empreinte
    ensures CollisionEntre(h, lignes, lignes)
    decreases i
  {
    if ChargeRelue(lignes[i]) != ChargeRelue(lignes[j]) {
      assert Collision(h, ChargeRelue(lignes[i]), ChargeRelue(lignes[j]));
    } else {
      assert lignes[j].precedente == Some(lignes[j - 1].empreinte);
      assert i > 0;
      assert lignes[i].precedente == Some(lignes[i - 1].empreinte);
      RepetitionImpliqueCollision(h, lignes, i - 1, j - 1);
    }
  }

  /** No fork: in a chain with distinct digests no two rows share a predecessor. */
  lemma SansFourche(h: Hachage, lignes: seq<Ligne>, i: nat, j: nat)
    requires Chaine(h, lignes) && EmpreintesDistinctes(lignes)
    requires i < j < |lignes|
    ensures lignes[i].precedente != lignes[j].precedente
  {
    assert lignes[j].precedente == Some(lignes[j - 1].empreinte);
    if i > 0 {
      assert lignes[i].precedente == Some(lignes[i - 1].empreinte);
      assert lignes[i - 1].empreinte != lignes[j - 1].empreinte;
    }
  }

  // ---------------------------------------------------------------------------
  // One insertion
  // ---------------------------------------------------------------------------

  /** `ORDER BY id_audit DESC LIMIT 1`: the digest of the visible row with the greatest key. */
  function LireTete(lignes: seq<Ligne>): Option<Digest> {
    if lignes == [] then None else Some(PlusGrand(lignes).empreinte)
  }

  function PlusGrand(lignes: seq<Ligne>): Ligne
    requires lignes != []
  {
    var d := lignes[|lignes| - 1];
    if |lignes| == 1 then d
    else var p := PlusGrand(lignes[..|lignes| - 1]); if p.id > d.id then p else d
  }

  lemma {:induction false} PlusGrandParmi(lignes: seq<Ligne>)
    requires lignes != []
    ensures PlusGrand(lignes) in lignes
  {
    if |lignes| > 1 { PlusGrandParmi(lignes[..|lignes| - 1]); }
  }

  lemma TeteEstDerniere(lignes: seq<Ligne>, borne: nat)
    requires Croissante(lignes, borne)
    ensures LireTete(lignes) == Dernier(lignes)
  {
    if |lignes| > 1 { PlusGrandParmi(lignes[..|lignes| - 1]); }
  }

  function NouvelleLigne(h: Hachage, id: nat, e: Evenement, tete: Option<Digest>): Ligne {
    Ligne(id, Normaliser(e), tete, h(PayloadEmpreinte(e, tete)))
  }

  /** The unique index on `empreinte`. */
  predicate DejaPresente(lignes: seq<Ligne>, d: Digest) {
    exists i :: 0 <= i < |lignes| && lignes[i].empreinte == d
  }

  lemma AjouterMaillon(h: Hachage, lignes: seq<Ligne>, borne: nat, id: nat, e: Evenement)
    requires Chaine(h, lignes) && Croissante(lignes, borne) && borne <= id
    requires EmpreintesDistinctes(lignes)
    ensures var l := NouvelleLigne(h, id, e, Dernier(lignes));
            && Chaine(h, lignes + [l])
            && Croissante(lignes + [l], id + 1)
            && (!DejaPresente(lignes, l.empreinte) ==> EmpreintesDistinctes(lignes + [l]))
            && ChargeRelue(l) == PayloadEmpreinte(e, Dernier(lignes))
  {
    var l := NouvelleLigne(h, id, e, Dernier(lignes));
    var s := lignes + [l];
    forall i | 0 <= i < |s|
      ensures s[i].precedente == Dernier(s[..i]) && s[i].empreinte == h(ChargeRelue(s[i]))
    {
      assert s[..i] == lignes[..i];
      if i == |lignes| { assert lignes[..i] == lignes; }
    }
  }

  // ---------------------------------------------------------------------------
  // Concurrent writers, one step at a time
  // ---------------------------------------------------------------------------

  /** Where a transaction stands: idle, holding the lock, or holding it after
      having read the tip. `propres` are its own uncommitted rows. */
  datatype Phase =
    | Repos
    | Verrouille(propres: seq<Ligne>)
    | Lu(propres: seq<Ligne>, tete: Option<Digest>)

  datatype Base = Base(lignes: seq<Ligne>, verrou: Option<nat>, phases: map<nat, Phase>, prochainId: nat) {
    function PhaseDe(w: nat): Phase { if w in phases then phases[w] else Repos }
  }

  const BASE_VIDE := Base([], None, map[], 1)

  datatype Pas =
    | Verrouiller(w: nat)
    | Lire(w: nat)
    | Inserer(w: nat, e: Evenement)
    | Valider(w: nat)
    | Annuler(w: nat)

  /** One atomic step; a step that is not enabled (a writer waiting for the lock)
      leaves the base unchanged. The sequence behind `id_audit` is never rolled back. */
  function Etape(h: Hachage, s: Base, p: Pas): Base {
    match p
    case Verrouiller(w) =>
      if s.verrou == None && s.PhaseDe(w).Repos? then
        s.(verrou := Some(w), phases := s.phases[w := Verrouille([])])
      else s
    case Lire(w) =>
      if s.PhaseDe(w).Verrouille? then
        var propres := s.PhaseDe(w).propres;
        s.(phases := s.phases[w := Lu(propres, LireTete(s.lignes + propres))])
      else s
    case Inserer(w, e) =>
      if s.PhaseDe(w).Lu? then
        var ph := s.PhaseDe(w);
        var l := NouvelleLigne(h, s.prochainId, e, ph.tete);
        if DejaPresente(s.lignes + ph.propres, l.empreinte) then
          s.(verrou := None, phases := s.phases[w := Repos], prochainId := s.prochainId + 1)
        else
          s.(phases := s.phases[w := Verrouille(ph.propres + [l])], prochainId := s.prochainId + 1)
      else s
    case Valider(w) =>
      if s.PhaseDe(w).Repos? then s
      else Base(s.lignes + s.PhaseDe(w).propres, None, s.phases[w := Repos], s.prochainId)
    case Annuler(w) =>
      if s.PhaseDe(w).Repos? then s
      else s.(verrou := None, phases := s.phases[w := Repos])
  }

  function Executer(h: Hachage, s: Base, pas: seq<Pas>): Base
    decreases |pas|
  {
    if pas == [] then s else Executer(h, Etape(h, s, pas[0]), pas[1..])
  }

  /** The rows the lock holder works on. */
  function Vue(s: Base): seq<Ligne> {
    match s.verrou
    case None => s.lignes
    case Some(w) => if s.PhaseDe(w).Repos? then s.lignes else s.lignes + s.PhaseDe(w).propres
  }

  ghost predicate Inv(h: Hachage, s: Base) {
    && (forall w: nat :: !s.PhaseDe(w).Repos? <==> s.verrou == Some(w))
    && Saine(h, Vue(s), s.prochainId)
    && (s.verrou.Some? && s.PhaseDe(s.verrou.value).Lu? ==> s.PhaseDe(s.verrou.value).tete == Dernier(Vue(s)))
  }

  lemma VueTronquee(h: Hachage, s: Base)
    requires Inv(h, s)
    ensures Saine(h, s.lignes, s.prochainId)
  {
    assert Vue(s)[..|s.lignes|] == s.lignes;
    PrefixeChaine(h, Vue(s), |s.lignes|);
    forall i | 0 <= i < |s.lignes| ensures s.lignes[i] == Vue(s)[i] {}
  }

  lemma JournalVide(h: Hachage, borne: nat)
    ensures Saine(h, [], borne)
  {
  }

  lemma SaineToujours(h: Hachage, lignes: seq<Ligne>, borne: nat)
    requires Saine(h, lignes, borne)
    ensures Saine(h, lignes, borne + 1)
  {
  }

  lemma EtapeGardeVerrou(h: Hachage, s: Base, p: Pas)
    requires Inv(h, s)
    ensures var s' := Etape(h, s, p); forall w: nat :: !s'.PhaseDe(w).Repos? <==> s'.verrou == Some(w)
  {
    hide Saine;
    var s' := Etape(h, s, p);
    assert s.PhaseDe(p.w).Repos? || s.verrou == Some(p.w);
    forall w: nat ensures !s'.PhaseDe(w).Repos? <==> s'.verrou == Some(w) {
      assert !s.PhaseDe(w).Repos? <==> s.verrou == Some(w);
    }
  }

  /** The row inserted under the lock is the next link of the holder's view. */
  lemma InsererGardeInv(h: Hachage, s: Base, w: nat, e: Evenement)
    requires Inv(h, s)
    ensures var s' := Etape(h, s, Inserer(w, e));
            s' != s ==> Saine(h, Vue(s'), s'.prochainId) && s'.lignes == s.lignes
                        && (s'.verrou.Some? ==> s'.verrou == Some(w) && s'.PhaseDe(w).Verrouille?)
  {
    hide Chaine, Croissante, EmpreintesDistinctes;
    var s' := Etape(h, s, Inserer(w, e));
    if s' != s {
      assert s.verrou == Some(w);
      VueTronquee(h, s);
      SaineToujours(h, s.lignes, s.prochainId);
      AjouterMaillon(h, Vue(s), s.prochainId, s.prochainId, e);
      var l := NouvelleLigne(h, s.prochainId, e, Dernier(Vue(s)));
      if s'.verrou.Some? {
        assert s.lignes + (s.PhaseDe(w).propres + [l]) == Vue(s) + [l];
      }
    }
  }

  lemma EtapeGardeInv(h: Hachage, s: Base, p: Pas)
    requires Inv(h, s)
    ensures Inv(h, Etape(h, s, p))
    ensures s.lignes <= Etape(h, s, p).lignes
  {
    hide Chaine, Croissante, EmpreintesDistinctes;
    var s' := Etape(h, s, p);
    VueTronquee(h, s);
    SaineToujours(h, s.lignes, s.prochainId);
    EtapeGardeVerrou(h, s, p);
    assert s.PhaseDe(p.w).Repos? || s.verrou == Some(p.w);
    if s' != s {
      match p
      case Verrouiller(w) =>
        assert Vue(s') == s.lignes + [] == s.lignes;
      case Lire(w) =>
        TeteEstDerniere(Vue(s), s.prochainId);
      case Inserer(w, e) =>
        InsererGardeInv(h, s, w, e);
      case Valider(w) =>
      case Annuler(w) =>
    }
  }

  /** Every step, written out: who gets the lock, what is read, which row is added where, what
      a commit publishes and what a rollback leaves. */
  lemma EtapeEcrite(h: Hachage, s: Base, p: Pas)
    requires Inv(h, s)
    ensures var s' := Etape(h, s, p);
            match p
            case Verrouiller(w) =>
              && s'.lignes == s.lignes && Vue(s') == Vue(s) && s'.prochainId == s.prochainId
              && (if s.verrou.None? then s'.verrou == Some(w) && s'.PhaseDe(w) == Verrouille([]) else s' == s)
            case Lire(w) =>
              && s'.lignes == s.lignes && s'.verrou == s.verrou && Vue(s') == Vue(s) && s'.prochainId == s.prochainId
              && (s.PhaseDe(w).Verrouille? ==> s'.PhaseDe(w).Lu? && s'.PhaseDe(w).tete == Dernier(Vue(s)))
            case Inserer(w, e) =>
              && s'.lignes == s.lignes
              && (!s.PhaseDe(w).Lu? ==> s' == s)
              && (s.PhaseDe(w).Lu? ==> s'.prochainId == s.prochainId + 1)
              && (s.PhaseDe(w).Lu? && s'.verrou.Some? ==>
                    && s'.verrou == Some(w) && |Vue(s')| == |Vue(s)| + 1 && Vue(s) <= Vue(s')
                    && Stocke(e, Vue(s')[|Vue(s)|].colonnes) && Vue(s')[|Vue(s)|].id == s.prochainId)
              && (s.PhaseDe(w).Lu? && s'.verrou.None? ==> Vue(s') == s.lignes)
            case Valider(w) =>
              if s.verrou == Some(w) then s'.verrou == None && s'.lignes == Vue(s) else s' == s
            case Annuler(w) =>
              if s.verrou == Some(w) then s'.verrou == None && s'.lignes == s.lignes else s' == s
  {
    hide Chaine, Croissante, EmpreintesDistinctes, Stocke;
    var s' := Etape(h, s, p);
    assert !s.PhaseDe(p.w).Repos? <==> s.verrou == Some(p.w);
    assert s.lignes + [] == s.lignes;
    match p
    case Lire(w) =>
      TeteEstDerniere(Vue(s), s.prochainId);
    case Inserer(w, e) =>
      NormaliserStocke(e);
      if s.PhaseDe(w).Lu? && s'.verrou.Some? {
        var l := NouvelleLigne(h, s.prochainId, e, s.PhaseDe(w).tete);
        assert s.lignes + (s.PhaseDe(w).propres + [l]) == Vue(s) + [l];
      }
    case _ =>
  }

  /** Whatever the number of writers and the interleaving of their steps, the
      committed log is append-only and stays one chain with distinct digests. */
  lemma {:induction false} TouteExecutionEnchaine(h: Hachage, s: Base, pas: seq<Pas>)
    requires Inv(h, s)
    ensures var f := Executer(h, s, pas);
            && Inv(h, f)
            && s.lignes <= f.lignes
            && Chaine(h, f.lignes)
            && EmpreintesDistinctes(f.lignes)
    decreases |pas|
  {
    VueTronquee(h, s);
    if pas != [] {
      EtapeGardeInv(h, s, pas[0]);
      TouteExecutionEnchaine(h, Etape(h, s, pas[0]), pas[1..]);
    }
  }

  /** From the empty table: the first row has no predecessor, every later row names
      the row just before it, and no row has two successors. */
  lemma UneSeuleChaine(h: Hachage, pas: seq<Pas>)
    ensures var l := Executer(h, BASE_VIDE, pas).lignes;
            && (l != [] ==> l[0].precedente == None)
            && (forall i :: 0 < i < |l| ==> l[i].precedente == Some(l[i - 1].empreinte))
            && (forall i, j :: 0 <= i < j < |l| ==> l[i].empreinte != l[j].empreinte && l[i].precedente != l[j].precedente)
  {
    TouteExecutionEnchaine(h, BASE_VIDE, pas);
    var l := Executer(h, BASE_VIDE, pas).lignes;
    forall i, j | 0 <= i < j < |l| ensures l[i].precedente != l[j].precedente {
      SansFourche(h, l, i, j);
    }
  }

  /** The unique index never refuses an event unless two payloads collide. */
  lemma InsertionRefuseeParCollisionSeulement(h: Hachage, s: Base, w: nat, e: Evenement)
    requires Inv(h, s) && s.PhaseDe(w).Lu?
    requires Etape(h, s, Inserer(w, e)).verrou == None
    ensures var l := NouvelleLigne(h, s.prochainId, e, Dernier(Vue(s)));
            CollisionEntre(h, Vue(s) + [l], Vue(s) + [l])
  {
    assert s.verrou == Some(w);
    var l := NouvelleLigne(h, s.prochainId, e, Dernier(Vue(s)));
    AjouterMaillon(h, Vue(s), s.prochainId, s.prochainId, e);
    var i :| 0 <= i < |Vue(s)| && Vue(s)[i].empreinte == l.empreinte;
    RepetitionImpliqueCollision(h, Vue(s) + [l], i, |Vue(s)|);
  }

  // ---------------------------------------------------------------------------
  // Migration of the historical log
  // ---------------------------------------------------------------------------

  /** A row of the historical table `audit_log`, read ORDER BY timestamp, id. */
  datatype Historique = Historique(timestamp: int, id: nat, actor: string, action: string,
                                   resource: string, status: string, details: Details)

  predicate AvantHistorique(x: Historique, y: Historique) {
    x.timestamp < y.timestamp || (x.timestamp == y.timestamp && x.id <= y.id)
  }

  ghost predicate ClePrimaire(source: seq<Historique>) {
    forall x, y :: x in source && y in source && x.id == y.id ==> x == y
  }

  /** Successive insertions in one transaction; `None` when the unique index refuses one. */
  function InsererTous(h: Hachage, lignes: seq<Ligne>, id: nat, evenements: seq<Evenement>): Option<seq<Ligne>>
    decreases |evenements|
  {
    if evenements == [] then Some(lignes)
    else
      var l := NouvelleLigne(h, id, evenements[0], LireTete(lignes));
      if DejaPresente(lignes, l.empreinte) then None
      else InsererTous(h, lignes + [l], id + 1, evenements[1..])
  }

  /** The events of the migration, in source order. */
  function EvenementsMigres(convertir: Historique -> Evenement, source: seq<Historique>): seq<Evenement> {
    var triee := Sorting.Sort(AvantHistorique, source);
    seq(|triee|, i requires 0 <= i < |triee| => convertir(triee[i]))
  }

  function Migrer(h: Hachage, lignes: seq<Ligne>, id: nat, convertir: Historique -> Evenement,
                  source: seq<Historique>): Option<seq<Ligne>>
  {
    if lignes != [] then Some(lignes) else InsererTous(h, [], id, EvenementsMigres(convertir, source))
  }

  ghost predicate Prolonge(lignes: seq<Ligne>, evenements: seq<Evenement>, r: seq<Ligne>) {
    && |r| == |lignes| + |evenements|
    && lignes <= r
    && forall i :: 0 <= i < |evenements| ==> r[|lignes| + i].colonnes == Normaliser(evenements[i])
  }

  lemma ProlongeUnDePlus(lignes: seq<Ligne>, l: Ligne, evenements: seq<Evenement>, r: seq<Ligne>)
    requires evenements != [] && l.colonnes == Normaliser(evenements[0])
    requires Prolonge(lignes + [l], evenements[1..], r)
    ensures Prolonge(lignes, evenements, r)
  {
    assert r[|lignes|] == (lignes + [l])[|lignes|];
    forall i | 0 <= i < |lignes| ensures lignes[i] == r[i] {
      assert lignes[i] == (lignes + [l])[i];
    }
    forall i | 0 < i < |evenements| ensures r[|lignes| + i].colonnes == Normaliser(evenements[i]) {
      assert evenements[i] == evenements[1..][i - 1];
    }
  }

  lemma {:induction false} InsererTousEnchaine(h: Hachage, lignes: seq<Ligne>, id: nat, evenements: seq<Evenement>)
    requires Saine(h, lignes, id)
    requires InsererTous(h, lignes, id, evenements).Some?
    ensures Saine(h, InsererTous(h, lignes, id, evenements).value, id + |evenements|)
    ensures Prolonge(lignes, evenements, InsererTous(h, lignes, id, evenements).value)
    decreases |evenements|
  {
    if evenements != [] {
      TeteEstDerniere(lignes, id);
      AjouterMaillon(h, lignes, id, id, evenements[0]);
      var l := NouvelleLigne(h, id, evenements[0], LireTete(lignes));
      InsererTousEnchaine(h, lignes + [l], id + 1, evenements[1..]);
      ProlongeUnDePlus(lignes, l, evenements, InsererTous(h, lignes, id, evenements).value);
    }
  }

  lemma OrdreHistorique(source: seq<Historique>)
    ensures Sorting.TotalPreorder(AvantHistorique)
    ensures Sorting.Sorted(AvantHistorique, Sorting.Sort(AvantHistorique, source))
    ensures multiset(Sorting.Sort(AvantHistorique, source)) == multiset(source)
    ensures |Sorting.Sort(AvantHistorique, source)| == |source|
  {
    Sorting.SortSorts(AvantHistorique, source);
  }

  /** The migrated history is such a chain: one row per source row, in source order. */
  lemma MigrationEnchaine(h: Hachage, id: nat, convertir: Historique -> Evenement, source: seq<Historique>)
    requires Migrer(h, [], id, convertir, source).Some?
    ensures var r := Migrer(h, [], id, convertir, source).value;
            var triee := Sorting.Sort(AvantHistorique, source);
            && Saine(h, r, id + |source|)
            && |r| == |triee| == |source| && multiset(triee) == multiset(source)
            && (forall i, j :: 0 <= i < j < |triee| ==>
                  triee[i].timestamp < triee[j].timestamp || (triee[i].timestamp == triee[j].timestamp && triee[i].id <= triee[j].id))
            && forall i :: 0 <= i < |r| ==> Stocke(convertir(triee[i]), r[i].colonnes)
  {
    OrdreHistorique(source);
    var evenements := EvenementsMigres(convertir, source);
    InsererTousEnchaine(h, [], id, evenements);
    var r := Migrer(h, [], id, convertir, source).value;
    var triee := Sorting.Sort(AvantHistorique, source);
    forall i | 0 <= i < |r| ensures Stocke(convertir(triee[i]), r[i].colonnes) {
      assert r[0 + i].colonnes == Normaliser(evenements[i]);
      NormaliserStocke(evenements[i]);
    }
    forall i, j | 0 <= i < j < |triee| ensures
      triee[i].timestamp < triee[j].timestamp || (triee[i].timestamp == triee[j].timestamp && triee[i].id <= triee[j].id)
    {
      assert AvantHistorique(triee[i], triee[j]);
    }
  }

  /** The physical order of the source table does not matter, and migrating again adds nothing. */
  lemma MigrationUnique(h: Hachage, id: nat, id': nat, convertir: Historique -> Evenement,
                        source: seq<Historique>, autre: seq<Historique>)
    requires ClePrimaire(source) && multiset(source) == multiset(autre)
    ensures Migrer(h, [], id, convertir, autre) == Migrer(h, [], id, convertir, source)
    ensures var r := Migrer(h, [], id, convertir, source);
            r.Some? ==> Migrer(h, r.value, id', convertir, autre) == r
  {
    OrdreHistorique(source);
    Sorting.SortIgnoresOrder(AvantHistorique, source, autre);
    Sorting.SameElements(source, autre);
    if Migrer(h, [], id, convertir, source).Some? {
      MigrationEnchaine(h, id, convertir, source);
    }
  }

  lemma RefusImpliqueCollision(h: Hachage, lignes: seq<Ligne>, l: Ligne)
    requires Chaine(h, lignes + [l]) && DejaPresente(lignes, l.empreinte)
    ensures exists x, y :: Collision(h, x, y)
  {
    var i :| 0 <= i < |lignes| && lignes[i].empreinte == l.empreinte;
    var s := lignes + [l];
    RepetitionImpliqueCollision(h, s, i, |lignes|);
    var a, b :| 0 <= a < |s| && 0 <= b < |s| && Collision(h, ChargeRelue(s[a]), ChargeRelue(s[b]));
  }

  /** Two payloads that the migration would digest, and that collide. */
  lemma {:induction false} EchecImpliqueCollision(h: Hachage, lignes: seq<Ligne>, id: nat, evenements: seq<Evenement>)
    requires Saine(h, lignes, id)
    requires InsererTous(h, lignes, id, evenements).None?
    ensures exists x, y :: Collision(h, x, y)
    decreases |evenements|
  {
    hide Chaine, Croissante, EmpreintesDistinctes, Collision;
    TeteEstDerniere(lignes, id);
    AjouterMaillon(h, lignes, id, id, evenements[0]);
    var l := NouvelleLigne(h, id, evenements[0], LireTete(lignes));
    if DejaPresente(lignes, l.empreinte) {
      RefusImpliqueCollision(h, lignes, l);
    } else {
      EchecImpliqueCollision(h, lignes + [l], id + 1, evenements[1..]);
    }
  }

  // ---------------------------------------------------------------------------
  // The table, as one connection sees it while it holds the lock
  // ---------------------------------------------------------------------------

  class TableAudit {
    const h: Hachage
    var lignes: seq<Ligne>
    var prochainId: nat

    ghost predicate Valid()
      reads this
    {
      Saine(h, lignes, prochainId)
    }

    constructor (h: Hachage)
      ensures Valid() && lignes == [] && this.h == h
    {
      this.h := h;
      lignes, prochainId := [], 1;
    }

    /** `_inserer_audit_logs`: read the tip, digest, insert. `None` is the unique violation. */
    method InsererAuditLogs(e: Evenement) returns (id: Option<nat>)
      requires Valid()
      modifies this
      ensures Valid() && prochainId == old(prochainId) + 1
      ensures var l := NouvelleLigne(h, old(prochainId), e, Dernier(old(lignes)));
              if DejaPresente(old(lignes), l.empreinte) then id == None && lignes == old(lignes)
              else id == Some(l.id) && lignes == old(lignes) + [l]
      ensures id.Some? ==> |lignes| == |old(lignes)| + 1 && old(lignes) <= lignes
                           && var l := lignes[|old(lignes)|];
                              l.id == old(prochainId) && Stocke(e, l.colonnes) && l.precedente == Dernier(old(lignes))
                              && l.empreinte == h(Charge(l.colonnes, l.precedente))
    {
      NormaliserStocke(e);
      TeteEstDerniere(lignes, prochainId);
      AjouterMaillon(h, lignes, prochainId, prochainId, e);
      var precedente := LireTete(lignes);
      var empreinte := h(PayloadEmpreinte(e, precedente));
      var ligne := Ligne(prochainId, Normaliser(e), precedente, empreinte);
      prochainId := prochainId + 1;
      if DejaPresente(lignes, empreinte) {
        return None;
      }
      lignes := lignes + [ligne];
      id := Some(ligne.id);
    }

    /** `migrer_audit_log_postgres`: one transaction, undone if an insertion is refused. */
    method MigrerAuditLog(source: seq<Historique>, convertir: Historique -> Evenement) returns (copies: Option<nat>)
      requires Valid()
      modifies this
      ensures Valid()
      ensures match Migrer(h, old(lignes), old(prochainId), convertir, source)
              case Some(r) => lignes == r && copies == Some(|r| - |old(lignes)|)
              case None => lignes == old(lignes) && copies == None
    {
      if |lignes| > 0 {
        return Some(0);
      }
      hide Chaine, Croissante, EmpreintesDistinctes, InsererTous, EvenementsMigres;
      copies := InsererSorties(EvenementsMigres(convertir, source));
    }

    /** The loop of the migration, on an empty table. */
    method InsererSorties(sorties: seq<Evenement>) returns (copies: Option<nat>)
      requires Valid() && lignes == []
      modifies this
      ensures Valid()
      ensures match InsererTous(h, [], old(prochainId), sorties)
              case Some(r) => lignes == r && copies == Some(|r|)
              case None => lignes == [] && copies == None
    {
      hide Chaine, Croissante, EmpreintesDistinctes;
      var i := 0;
      ghost var id0 := prochainId;
      while i < |sorties|
        invariant 0 <= i <= |sorties| && |lignes| == i
        invariant Valid()
        invariant InsererTous(h, [], id0, sorties) == InsererTous(h, lignes, prochainId, sorties[i..])
      {
        TeteEstDerniere(lignes, prochainId);
        var id := InsererAuditLogs(sorties[i]);
        assert sorties[i..][1..] == sorties[i + 1..];
        if id == None {
          JournalVide(h, prochainId);
          lignes := [];
          return None;
        }
        i := i + 1;
      }
      copies := Some(i);
    }
  }

  /** The three steps of a writer that holds the lock are one `InsererAuditLogs` on its view. */
  lemma EtapesDUneInsertion(h: Hachage, s: Base, w: nat, e: Evenement)
    requires Inv(h, s) && s.PhaseDe(w).Verrouille?
    ensures var l := NouvelleLigne(h, s.prochainId, e, Dernier(Vue(s)));
            var s' := Etape(h, Etape(h, s, Lire(w)), Inserer(w, e));
            && (!DejaPresente(Vue(s), l.empreinte) ==> s'.verrou == Some(w) && Vue(s') == Vue(s) + [l])
            && (DejaPresente(Vue(s), l.empreinte) ==> s'.verrou == None && Vue(s') == s.lignes)
  {
    assert s.verrou == Some(w);
    TeteEstDerniere(Vue(s), s.prochainId);
    var m := Etape(h, s, Lire(w));
    assert Vue(m) == Vue(s);
  }
}
