/** The approval protocol (seamtech_search/approbations.py) as transactions over the
    tables `approval_requests`, `in_app_notifications`, `fiche` and `utilisateur`.

    A table row's key is its position; rows are never deleted. Every service function
    is a function from the tables to (tables, response); an HTTP error rolls the whole
    transaction back. Instants are whole seconds. */
module Approvals {
  import opened Options

  const DUREE_TELECHARGEMENT := 24 * 3600
  const MOTIF_MAX := 1000
  const COMMENTAIRE_MAX := 1000
  const CHAMP_MAX := 200
  const VALEUR_MAX := 2000
  const RANG_MAX := 100000
  const ENTIER_MAX := 2147483647

  // ---------------------------------------------------------------------------
  // Tables
  // ---------------------------------------------------------------------------

  datatype TypeDemande = Telechargement | Modification | Suppression
  datatype Statut = EnAttente | Approuvee | Refusee | Annulee | Executee | Expiree

  datatype Demande = Demande(
    demandeur: nat, typeDemande: TypeDemande, statut: Statut, fiche: Option<nat>, piece: Option<nat>,
    champ: string, rang: Option<nat>, valeur: string, revision: Option<int>, motif: string,
    decideur: Option<nat>, decideeLe: Option<int>, commentaire: Option<string>,
    executeeLe: Option<int>, expireLe: Option<int>, creeLe: int)

  datatype Genre = NouvelleDemande | Decision | Execution
  datatype Notification = Notification(destinataire: nat, demande: nat, genre: Genre, lueLe: Option<int>)

  datatype StatutFiche = Ouverte | Valide | Supprimee
  datatype Champ = Champ(nom: string, rang: Option<nat>, valeur: string)
  datatype Fiche = Fiche(statut: StatutFiche, revision: int, champs: seq<Champ>)

  datatype Utilisateur = Utilisateur(id: nat, approbateur: bool, actif: bool)

  /** A row of the fiche journal written by an approved request. */
  datatype Trace = Trace(demande: nat, fiche: nat, decideur: nat, revisionLue: int, confirmee: Option<int>)

  datatype Base = Base(demandes: seq<Demande>, notifications: seq<Notification>, fiches: map<nat, Fiche>,
                       utilisateurs: seq<Utilisateur>, journal: seq<Trace>)

  datatype Config = Config(autoApprobation: bool, exigerRevision: bool)

  // ---------------------------------------------------------------------------
  // Requests and responses
  // ---------------------------------------------------------------------------

  datatype Role = RoleUtilisateur | RoleApprobateur | AutreRole
  datatype Acteur = Service | Nominatif(role: Role, id: nat) | Anonyme

  /** How a piece resolves to a fiche: an HTTP error, or an optional fiche. */
  datatype Resolution = Irresolue(code: nat) | Resolue(fiche: Option<nat>)

  datatype Corps =
    | CorpsTelechargement(piece: nat, resolution: Resolution)
    | CorpsModification(fiche: nat, champ: string, rang: Option<int>, valeur: string, revision: int, convertible: bool)
    | CorpsSuppression(fiche: nat, revision: int)

  datatype Operation =
    | Creer(acteur: Acteur, motif: string, corps: Corps)
    | Annuler(acteur: Acteur, id: nat)
    | Decider(acteur: Acteur, id: nat, approuver: bool, commentaire: string,
              revisionConfirmee: Option<int>, propagation: bool)
    | Consulter
    | AutoriserPiece(acteur: Acteur, piece: nat, get: bool)
    | MarquerLue(acteur: Acteur, notification: nat)
    | MarquerToutesLues(acteur: Acteur)
    | ModifierFiche(fiche: nat, contenu: Fiche)
    | ModifierUtilisateurs(comptes: seq<Utilisateur>)

  datatype Reponse =
    | Erreur(code: nat)
    | Rendue(id: nat, demande: Demande)
    | Accord(demandeAppliquee: Option<nat>)
    | Marquees(nombre: nat)
    | Fait

  // ---------------------------------------------------------------------------
  // Pieces shared by the transactions
  // ---------------------------------------------------------------------------

  predicate TexteBorne(s: string, minimum: nat, maximum: nat) {
    '\0' !in s && minimum <= |s| <= maximum
  }

  predicate Echue(d: Demande, t: int) {
    d.typeDemande.Telechargement? && d.statut.Approuvee? && d.expireLe.Some? && d.expireLe.value <= t
  }

  function ExpirerUne(d: Demande, t: int): Demande { if Echue(d, t) then d.(statut := Expiree) else d }

  function Expirer(s: Base, t: int): (r: Base)
    ensures |r.demandes| == |s.demandes|
  {
    s.(demandes := seq(|s.demandes|, i requires 0 <= i < |s.demandes| => ExpirerUne(s.demandes[i], t)))
  }

  function Notifier(n: seq<Notification>, destinataire: nat, demande: nat, genre: Genre): seq<Notification> {
    n + [Notification(destinataire, demande, genre, None)]
  }

  /** `WHERE role = 'approbateur' AND actif AND id_utilisateur <> %s`. */
  function Approbateurs(comptes: seq<Utilisateur>, sauf: nat): seq<nat> {
    if comptes == [] then []
    else (if comptes[0].approbateur && comptes[0].actif && comptes[0].id != sauf then [comptes[0].id] else []) +
         Approbateurs(comptes[1..], sauf)
  }

  function NotifierTous(n: seq<Notification>, destinataires: seq<nat>, demande: nat): seq<Notification>
    decreases |destinataires|
  {
    if destinataires == [] then n
    else NotifierTous(Notifier(n, destinataires[0], demande, NouvelleDemande), destinataires[1..], demande)
  }

  /** The lines of a field, in order: how many, and the first that matches. */
  function Lignes(champs: seq<Champ>, nom: string): nat {
    if champs == [] then 0 else (if champs[0].nom == nom then 1 else 0) + Lignes(champs[1..], nom)
  }

  function PremiereLigne(champs: seq<Champ>, nom: string, rang: Option<nat>): (i: nat)
    ensures i <= |champs|
    ensures i < |champs| ==> champs[i].nom == nom && (rang.None? || champs[i].rang == rang)
  {
    if champs == [] then 0
    else if champs[0].nom == nom && (rang.None? || champs[0].rang == rang) then 0
    else 1 + PremiereLigne(champs[1..], nom, rang)
  }

  datatype Cible = Refusee404 | Refusee422 | Ligne(index: nat)

  function TrouverChamp(champs: seq<Champ>, nom: string, rang: Option<nat>): (c: Cible)
    ensures c.Ligne? ==> c.index < |champs| && champs[c.index].nom == nom
  {
    if Lignes(champs, nom) == 0 then Refusee404
    else if rang.None? && Lignes(champs, nom) > 1 then Refusee422
    else
      var i := PremiereLigne(champs, nom, rang);
      if i == |champs| then Refusee404 else Ligne(i)
  }

  // ---------------------------------------------------------------------------
  // Creation
  // ---------------------------------------------------------------------------

  /** The checks on the body: an error code, or the row to insert. */
  datatype Brouillon = Refuse(code: nat) | Pret(demande: Demande)

  function NouvelleLigne(demandeur: nat, t: TypeDemande, motif: string, maintenant: int): Demande {
    Demande(demandeur, t, EnAttente, None, None, "", None, "", None, motif, None, None, None, None, None, maintenant)
  }

  function ValiderModification(f: Fiche, champ: string, rang: Option<int>, valeur: string, revision: int,
                               convertible: bool): Option<nat>
  {
    if f.statut.Valide? || f.statut.Supprimee? then Some(409)
    else if !TexteBorne(champ, 1, CHAMP_MAX) then Some(422)
    else if !TexteBorne(valeur, 0, VALEUR_MAX) then Some(422)
    else if rang.Some? && !(0 <= rang.value <= RANG_MAX) then Some(422)
    else if !(0 <= revision <= ENTIER_MAX) then Some(422)
    else if revision != f.revision then Some(409)
    else match TrouverChamp(f.champs, champ, if rang.Some? then Some(rang.value as nat) else None)
      case Refusee404 => Some(404)
      case Refusee422 => Some(422)
      case Ligne(_) => if convertible then None else Some(422)
  }

  function Preparer(s: Base, demandeur: nat, motif: string, corps: Corps, maintenant: int): Brouillon {
    match corps
    case CorpsTelechargement(piece, resolution) =>
      if piece < 1 then Refuse(422)
      else (match resolution
        case Irresolue(code) => Refuse(code)
        case Resolue(fiche) =>
          Pret(NouvelleLigne(demandeur, Telechargement, motif, maintenant).(fiche := fiche, piece := Some(piece))))
    case CorpsModification(fiche, champ, rang, valeur, revision, convertible) =>
      if fiche !in s.fiches then Refuse(404)
      else
        var refus := ValiderModification(s.fiches[fiche], champ, rang, valeur, revision, convertible);
        if refus.Some? then Refuse(refus.value)
        else Pret(NouvelleLigne(demandeur, Modification, motif, maintenant).(
                    fiche := Some(fiche), champ := champ,
                    rang := if rang.Some? && rang.value >= 0 then Some(rang.value as nat) else None,
                    valeur := valeur, revision := Some(revision)))
    case CorpsSuppression(fiche, revision) =>
      if fiche !in s.fiches then Refuse(404)
      else if s.fiches[fiche].statut.Supprimee? then Refuse(409)
      else if !(0 <= revision <= ENTIER_MAX) then Refuse(422)
      else if revision != s.fiches[fiche].revision then Refuse(409)
      else Pret(NouvelleLigne(demandeur, Suppression, motif, maintenant).(fiche := Some(fiche), revision := Some(revision)))
  }

  /** The partial unique indexes on pending requests. */
  predicate MemeObjet(a: Demande, b: Demande) {
    && a.demandeur == b.demandeur && a.typeDemande == b.typeDemande
    && (match a.typeDemande
        case Telechargement => a.piece == b.piece
        case Modification => a.fiche == b.fiche && a.champ == b.champ && a.rang == b.rang
        case Suppression => a.fiche == b.fiche)
  }

  predicate DejaEnAttente(demandes: seq<Demande>, d: Demande) {
    exists i :: 0 <= i < |demandes| && demandes[i].statut.EnAttente? && MemeObjet(demandes[i], d)
  }

  function CreerDemande(s0: Base, acteur: Acteur, motif: string, corps: Corps, maintenant: int): (Base, Reponse) {
    if !acteur.Nominatif? || acteur.role.AutreRole? then (s0, Erreur(403))
    else if !TexteBorne(motif, 3, MOTIF_MAX) then (s0, Erreur(422))
    else
      var s := Expirer(s0, maintenant);
      match Preparer(s, acteur.id, motif, corps, maintenant)
      case Refuse(code) => (s0, Erreur(code))
      case Pret(d) =>
        if DejaEnAttente(s.demandes, d) then (s0, Erreur(409))
        else
          var id := |s.demandes|;
          (s.(demandes := s.demandes + [d],
              notifications := NotifierTous(s.notifications, Approbateurs(s.utilisateurs, acteur.id), id)),
           Rendue(id, d))
  }

  // ---------------------------------------------------------------------------
  // Cancellation
  // ---------------------------------------------------------------------------

  function AnnulerDemande(s: Base, acteur: Acteur, id: nat): (Base, Reponse) {
    if !acteur.Nominatif? then (s, Erreur(401))
    else if id >= |s.demandes| then (s, Erreur(404))
    else if s.demandes[id].demandeur != acteur.id then (s, Erreur(403))
    else if !s.demandes[id].statut.EnAttente? then (s, Erreur(409))
    else
      var d := s.demandes[id].(statut := Annulee);
      (s.(demandes := s.demandes[id := d]), Rendue(id, d))
  }

  // ---------------------------------------------------------------------------
  // Decision, and execution in the same transaction
  // ---------------------------------------------------------------------------

  datatype Effet = Echec(code: nat) | Applique(fiche: Fiche)

  /** `corriger_champ_sous_curseur`: compare-and-swap on the revision, then the new value. */
  function CorrigerChamp(f: Fiche, champ: string, rang: Option<nat>, valeur: string, revision: Option<int>,
                         exiger: bool, propagation: bool): Effet
  {
    if revision.None? && exiger then Echec(428)
    else if revision.Some? && revision.value < 1 then Echec(422)
    else if champ == "" then Echec(422)
    else if f.statut.Valide? || f.statut.Supprimee? then Echec(409)
    else match TrouverChamp(f.champs, champ, rang)
      case Refusee404 => Echec(404)
      case Refusee422 => Echec(422)
      case Ligne(i) =>
        if revision.Some? && revision.value != f.revision then Echec(409)
        else if !propagation then Echec(422)
        else Applique(f.(revision := f.revision + 1, champs := f.champs[i := f.champs[i].(valeur := valeur)]))
  }

  /** `supprimer_fiche_sous_curseur`: logical deletion under compare-and-swap. */
  function SupprimerFiche(f: Fiche, revision: Option<int>, exiger: bool): Effet {
    if revision.None? && exiger then Echec(428)
    else if revision.Some? && revision.value < 1 then Echec(422)
    else if f.statut.Supprimee? then Echec(409)
    else if revision.Some? && revision.value != f.revision then Echec(409)
    else Applique(f.(statut := Supprimee, revision := f.revision + 1))
  }

  function ExecuterSur(cfg: Config, d: Demande, f: Fiche, confirmee: Option<int>, propagation: bool): Effet {
    var revision := confirmee.OrElse(d.revision);
    if d.typeDemande.Modification? then
      CorrigerChamp(f, d.champ, d.rang, d.valeur, revision, cfg.exigerRevision, propagation)
    else SupprimerFiche(f, revision, cfg.exigerRevision)
  }

  function Decidee(d: Demande, statut: Statut, decideur: nat, commentaire: string, maintenant: int): Demande {
    d.(statut := statut, decideur := Some(decideur), decideeLe := Some(maintenant),
       commentaire := if commentaire == "" then None else Some(commentaire))
  }

  function DeciderDemande(cfg: Config, s0: Base, acteur: Acteur, id: nat, approuver: bool, commentaire: string,
                          confirmee: Option<int>, propagation: bool, maintenant: int): (Base, Reponse)
  {
    if !acteur.Nominatif? || !acteur.role.RoleApprobateur? then (s0, Erreur(403))
    else if !TexteBorne(commentaire, 0, COMMENTAIRE_MAX) then (s0, Erreur(422))
    else if !approuver && commentaire == "" then (s0, Erreur(422))
    else if confirmee.Some? && !(0 <= confirmee.value <= ENTIER_MAX) then (s0, Erreur(422))
    else
      var s := Expirer(s0, maintenant);
      if id >= |s.demandes| then (s0, Erreur(404))
      else
        var d := s.demandes[id];
        if !d.statut.EnAttente? then (s0, Erreur(409))
        else if d.demandeur == acteur.id && !cfg.autoApprobation then (s0, Erreur(403))
        else if !approuver then
          var d' := Decidee(d, Refusee, acteur.id, commentaire, maintenant);
          (s.(demandes := s.demandes[id := d'],
              notifications := Notifier(s.notifications, d.demandeur, id, Decision)), Rendue(id, d'))
        else if d.typeDemande.Telechargement? then
          var d' := Decidee(d, Approuvee, acteur.id, commentaire, maintenant).(expireLe := Some(maintenant + DUREE_TELECHARGEMENT));
          (s.(demandes := s.demandes[id := d'],
              notifications := Notifier(s.notifications, d.demandeur, id, Decision)), Rendue(id, d'))
        else if d.fiche.None? || d.fiche.value !in s.fiches then (s0, Erreur(409))
        else
          var f := s.fiches[d.fiche.value];
          match ExecuterSur(cfg, d, f, confirmee, propagation)
          case Echec(code) => (s0, Erreur(code))
          case Applique(f') =>
            var d' := Decidee(d, Executee, acteur.id, commentaire, maintenant).(executeeLe := Some(maintenant));
            (Base(s.demandes[id := d'], Notifier(s.notifications, d.demandeur, id, Execution),
                  s.fiches[d.fiche.value := f'], s.utilisateurs,
                  s.journal + [Trace(id, d.fiche.value, acteur.id, f.revision, confirmee)]),
             Rendue(id, d'))
  }

  // ---------------------------------------------------------------------------
  // Downloads
  // ---------------------------------------------------------------------------

  predicate Ouvre(d: Demande, u: nat, piece: nat, t: int) {
    && d.demandeur == u && d.piece == Some(piece) && d.typeDemande.Telechargement?
    && d.statut.Approuvee? && d.expireLe.Some? && d.expireLe.value > t
  }

  /** `ORDER BY expire_le DESC, id_demande DESC LIMIT 1` among the first `n` rows. */
  function MeilleureFenetre(demandes: seq<Demande>, u: nat, piece: nat, t: int, n: nat): (r: Option<nat>)
    requires n <= |demandes|
    ensures r.Some? ==> r.value < n && Ouvre(demandes[r.value], u, piece, t)
    ensures r.None? ==> forall i :: 0 <= i < n ==> !Ouvre(demandes[i], u, piece, t)
  {
    if n == 0 then None
    else
      var r := MeilleureFenetre(demandes, u, piece, t, n - 1);
      if !Ouvre(demandes[n - 1], u, piece, t) then r
      else if r.None? || demandes[n - 1].expireLe.value >= demandes[r.value].expireLe.value then Some(n - 1)
      else r
  }

  function AutoriserTelechargementPiece(s0: Base, acteur: Acteur, piece: nat, get: bool, maintenant: int): (Base, Reponse) {
    if acteur.Service? then (s0, Accord(None))
    else if acteur.Nominatif? && acteur.role.RoleApprobateur? then (s0, Accord(None))
    else if !acteur.Nominatif? || !acteur.role.RoleUtilisateur? then (s0, Erreur(403))
    else
      var s := Expirer(s0, maintenant);
      match MeilleureFenetre(s.demandes, acteur.id, piece, maintenant, |s.demandes|)
      case None => (s0, Erreur(403))
      case Some(id) =>
        var d := s.demandes[id];
        if get && d.executeeLe.None? then
          (s.(demandes := s.demandes[id := d.(executeeLe := Some(maintenant))]), Accord(Some(id)))
        else (s, Accord(Some(id)))
  }

  // ---------------------------------------------------------------------------
  // Notifications read
  // ---------------------------------------------------------------------------

  function Lire(n: Notification, u: nat, maintenant: int): Notification {
    if n.destinataire == u && n.lueLe.None? then n.(lueLe := Some(maintenant)) else n
  }

  function LireToutes(n: seq<Notification>, u: nat, maintenant: int): seq<Notification> {
    seq(|n|, i requires 0 <= i < |n| => Lire(n[i], u, maintenant))
  }

  function NonLues(n: seq<Notification>, u: nat): nat {
    if n == [] then 0
    else NonLues(n[..|n| - 1], u) + (if n[|n| - 1].destinataire == u && n[|n| - 1].lueLe.None? then 1 else 0)
  }

  function MarquerNotificationLue(s: Base, acteur: Acteur, id: nat, maintenant: int): (Base, Reponse) {
    if !acteur.Nominatif? then (s, Erreur(401))
    else if id >= |s.notifications| || s.notifications[id].destinataire != acteur.id then (s, Erreur(404))
    else (s.(notifications := s.notifications[id := Lire(s.notifications[id], acteur.id, maintenant)]), Fait)
  }

  function MarquerNotificationsLues(s: Base, acteur: Acteur, maintenant: int): (Base, Reponse) {
    if !acteur.Nominatif? then (s, Erreur(401))
    else (s.(notifications := LireToutes(s.notifications, acteur.id, maintenant)),
          Marquees(NonLues(s.notifications, acteur.id)))
  }

  // ---------------------------------------------------------------------------
  // Runs
  // ---------------------------------------------------------------------------

  function Etape(cfg: Config, s: Base, op: Operation, t: int): (Base, Reponse) {
    match op
    case Creer(acteur, motif, corps) => CreerDemande(s, acteur, motif, corps, t)
    case Annuler(acteur, id) => AnnulerDemande(s, acteur, id)
    case Decider(acteur, id, approuver, commentaire, confirmee, propagation) =>
      DeciderDemande(cfg, s, acteur, id, approuver, commentaire, confirmee, propagation, t)
    case Consulter => (Expirer(s, t), Fait)
    case AutoriserPiece(acteur, piece, get) => AutoriserTelechargementPiece(s, acteur, piece, get, t)
    case MarquerLue(acteur, id) => MarquerNotificationLue(s, acteur, id, t)
    case MarquerToutesLues(acteur) => MarquerNotificationsLues(s, acteur, t)
    case ModifierFiche(fiche, contenu) => (s.(fiches := s.fiches[fiche := contenu]), Fait)
    case ModifierUtilisateurs(comptes) => (s.(utilisateurs := comptes), Fait)
  }

  datatype Appel = Appel(op: Operation, instant: int)

  function Executer(cfg: Config, s: Base, appels: seq<Appel>): Base
    decreases |appels|
  {
    if appels == [] then s else Executer(cfg, Etape(cfg, s, appels[0].op, appels[0].instant).0, appels[1..])
  }

  ghost predicate HorlogeCroissante(debut: int, appels: seq<Appel>) {
    && (forall i :: 0 <= i < |appels| ==> debut <= appels[i].instant)
    && (forall i, j :: 0 <= i < j < |appels| ==> appels[i].instant <= appels[j].instant)
  }

  const BASE_VIDE := Base([], [], map[], [], [])

  // ---------------------------------------------------------------------------
  // The life of one request
  // ---------------------------------------------------------------------------

  predicate Terminal(st: Statut) { st.Refusee? || st.Annulee? || st.Executee? || st.Expiree? }

  predicate StatutDecide(st: Statut) { st.Approuvee? || st.Refusee? || st.Executee? || st.Expiree? }

  ghost predicate MemeObjetFige(d: Demande, d': Demande) {
    && d'.demandeur == d.demandeur && d'.typeDemande == d.typeDemande && d'.fiche == d.fiche && d'.piece == d.piece
    && d'.champ == d.champ && d'.rang == d.rang && d'.valeur == d.valeur && d'.revision == d.revision
    && d'.motif == d.motif && d'.creeLe == d.creeLe
  }

  /** The decision an approver takes at `t` on a pending request. */
  ghost predicate DecisionPrise(cfg: Config, d: Demande, d': Demande, t: int) {
    && d.statut.EnAttente? && MemeObjetFige(d, d')
    && d'.decideur.Some? && d'.decideeLe == Some(t)
    && (d'.decideur == Some(d.demandeur) ==> cfg.autoApprobation)
    && match d'.statut
       case Refusee => d'.commentaire.Some? && d'.executeeLe == d.executeeLe && d'.expireLe == d.expireLe
       case Approuvee => d.typeDemande.Telechargement? && d'.executeeLe == d.executeeLe
                         && d'.expireLe == Some(t + DUREE_TELECHARGEMENT)
       case Executee => !d.typeDemande.Telechargement? && d'.executeeLe == Some(t) && d'.expireLe == d.expireLe
       case _ => false
  }

  /** Every way one transaction at `t` may change one row. */
  ghost predicate Evolution(cfg: Config, d: Demande, d': Demande, t: int) {
    || d' == d
    || (d.statut.EnAttente? && d' == d.(statut := Annulee))
    || DecisionPrise(cfg, d, d', t)
    || (Echue(d, t) && d' == d.(statut := Expiree))
    || (d.statut.Approuvee? && d.typeDemande.Telechargement? && d.executeeLe.None? && d' == d.(executeeLe := Some(t)))
  }

  ghost predicate Neuve(d: Demande, t: int) {
    && d.statut.EnAttente? && d.decideur.None? && d.decideeLe.None? && d.commentaire.None?
    && d.executeeLe.None? && d.expireLe.None? && d.creeLe == t
    && (match d.typeDemande
        case Telechargement => d.piece.Some?
        case Modification => d.fiche.Some? && d.champ != "" && d.revision.Some?
        case Suppression => d.fiche.Some? && d.revision.Some?)
  }

  /** One transaction: existing rows evolve, at most one row is added. */
  ghost predicate TableEvolue(cfg: Config, avant: seq<Demande>, apres: seq<Demande>, t: int) {
    && |avant| <= |apres| <= |avant| + 1
    && (forall i :: 0 <= i < |avant| ==> Evolution(cfg, avant[i], apres[i], t))
    && (|apres| > |avant| ==> Neuve(apres[|avant|], t) && !DejaEnAttente(apres[..|avant|], apres[|avant|]))
  }

  lemma PreparerNeuve(s: Base, demandeur: nat, motif: string, corps: Corps, t: int)
    ensures var b := Preparer(s, demandeur, motif, corps, t);
            b.Pret? ==> Neuve(b.demande, t) && b.demande.demandeur == demandeur
  {
  }

  lemma CreerEvolue(cfg: Config, s: Base, acteur: Acteur, motif: string, corps: Corps, t: int)
    ensures TableEvolue(cfg, s.demandes, CreerDemande(s, acteur, motif, corps, t).0.demandes, t)
  {
    if acteur.Nominatif? { PreparerNeuve(Expirer(s, t), acteur.id, motif, corps, t); }
    var apres := CreerDemande(s, acteur, motif, corps, t).0.demandes;
    if |apres| > |s.demandes| {
      assert apres[..|s.demandes|] == Expirer(s, t).demandes;
    }
  }

  lemma DeciderEvolue(cfg: Config, s: Base, acteur: Acteur, id: nat, approuver: bool, commentaire: string,
                      confirmee: Option<int>, propagation: bool, t: int)
    ensures TableEvolue(cfg, s.demandes,
              DeciderDemande(cfg, s, acteur, id, approuver, commentaire, confirmee, propagation, t).0.demandes, t)
  {
  }

  lemma EtapeEvolue(cfg: Config, s: Base, op: Operation, t: int)
    ensures TableEvolue(cfg, s.demandes, Etape(cfg, s, op, t).0.demandes, t)
  {
    match op
    case Creer(acteur, motif, corps) => CreerEvolue(cfg, s, acteur, motif, corps, t);
    case Decider(acteur, id, approuver, commentaire, confirmee, propagation) =>
      DeciderEvolue(cfg, s, acteur, id, approuver, commentaire, confirmee, propagation, t);
    case _ =>
  }

  /** What the table says of a request, whatever happened to it. */
  ghost predicate Coherente(cfg: Config, d: Demande) {
    && (d.decideur.Some? <==> StatutDecide(d.statut))
    && (d.decideeLe.Some? <==> StatutDecide(d.statut))
    && (d.decideur == Some(d.demandeur) ==> cfg.autoApprobation)
    && (d.statut.Approuvee? || d.statut.Expiree? ==>
          && d.typeDemande.Telechargement?
          && d.decideeLe.Some? && d.expireLe == Some(d.decideeLe.value + DUREE_TELECHARGEMENT))
    && (d.statut.Executee? ==> !d.typeDemande.Telechargement? && d.executeeLe == d.decideeLe)
    && (d.expireLe.Some? ==> d.statut.Approuvee? || d.statut.Expiree?)
    && (d.executeeLe.Some? ==> d.statut.Executee? || d.statut.Approuvee? || d.statut.Expiree?)
    && (d.typeDemande.Telechargement? ==> d.piece.Some?)
    && (!d.typeDemande.Telechargement? ==> d.fiche.Some? && d.revision.Some?)
  }

  /** From one state of a request to any later one. */
  ghost predicate Suite(d: Demande, d': Demande) {
    && MemeObjetFige(d, d')
    && (Terminal(d.statut) ==> d' == d)
    && (d.statut.Approuvee? ==> d'.statut.Approuvee? || d'.statut.Expiree?)
    && (d'.statut.Expiree? ==> d.typeDemande.Telechargement?)
    && (d'.statut.Executee? ==> !d.typeDemande.Telechargement?)
    && (d.decideur.Some? ==> d'.decideur == d.decideur && d'.decideeLe == d.decideeLe && d'.commentaire == d.commentaire)
    && (d.executeeLe.Some? ==> d'.executeeLe == d.executeeLe)
    && (d.expireLe.Some? ==> d'.expireLe == d.expireLe)
    && (d'.statut.EnAttente? ==> d == d')
  }

  ghost predicate TableCoherente(cfg: Config, demandes: seq<Demande>) {
    forall i :: 0 <= i < |demandes| ==> Coherente(cfg, demandes[i])
  }

  /** At most one pending request per requester and object. */
  ghost predicate AttentesUniques(demandes: seq<Demande>) {
    forall i, j :: 0 <= i < j < |demandes| && demandes[i].statut.EnAttente? && demandes[j].statut.EnAttente? ==>
      !MemeObjet(demandes[i], demandes[j])
  }

  lemma EvolutionSuite(cfg: Config, d: Demande, d': Demande, t: int)
    requires Coherente(cfg, d) && Evolution(cfg, d, d', t)
    ensures Coherente(cfg, d') && Suite(d, d')
  {
  }

  lemma TableSuite(cfg: Config, avant: seq<Demande>, apres: seq<Demande>, t: int)
    requires TableCoherente(cfg, avant) && TableEvolue(cfg, avant, apres, t)
    ensures TableCoherente(cfg, apres)
    ensures forall i :: 0 <= i < |avant| ==> Suite(avant[i], apres[i])
  {
    forall i | 0 <= i < |avant| ensures Coherente(cfg, apres[i]) && Suite(avant[i], apres[i]) {
      assert Evolution(cfg, avant[i], apres[i], t);
      EvolutionSuite(cfg, avant[i], apres[i], t);
    }
  }

  lemma AttentesRestentUniques(cfg: Config, avant: seq<Demande>, apres: seq<Demande>, t: int)
    requires TableCoherente(cfg, avant) && TableEvolue(cfg, avant, apres, t) && AttentesUniques(avant)
    ensures AttentesUniques(apres)
  {
    TableSuite(cfg, avant, apres, t);
    forall i, j | 0 <= i < j < |apres| && apres[i].statut.EnAttente? && apres[j].statut.EnAttente?
      ensures !MemeObjet(apres[i], apres[j])
    {
      assert Suite(avant[i], apres[i]);
      if j == |avant| {
        assert apres[..|avant|][i] == apres[i];
      } else {
        assert Suite(avant[j], apres[j]);
      }
    }
  }

  /** Over every run: refused, cancelled, executed and expired requests never change
      again, an approval can only expire, a decision is recorded once, and no
      requester ever has two pending requests for the same object. */
  lemma {:induction false} VieDesDemandes(cfg: Config, s: Base, appels: seq<Appel>)
    requires TableCoherente(cfg, s.demandes) && AttentesUniques(s.demandes)
    ensures var f := Executer(cfg, s, appels);
            && TableCoherente(cfg, f.demandes) && AttentesUniques(f.demandes)
            && |s.demandes| <= |f.demandes|
            && forall i :: 0 <= i < |s.demandes| ==> Suite(s.demandes[i], f.demandes[i])
    decreases |appels|
  {
    if appels != [] {
      var m := Etape(cfg, s, appels[0].op, appels[0].instant).0;
      EtapeEvolue(cfg, s, appels[0].op, appels[0].instant);
      TableSuite(cfg, s.demandes, m.demandes, appels[0].instant);
      AttentesRestentUniques(cfg, s.demandes, m.demandes, appels[0].instant);
      VieDesDemandes(cfg, m, appels[1..]);
      var f := Executer(cfg, s, appels);
      forall i | 0 <= i < |s.demandes| ensures Suite(s.demandes[i], f.demandes[i]) {
        assert Suite(s.demandes[i], m.demandes[i]) && Suite(m.demandes[i], f.demandes[i]);
      }
    }
  }

  // ---------------------------------------------------------------------------
  // Executions
  // ---------------------------------------------------------------------------

  /** A refused call leaves every table as it was. */
  lemma EchecNeChangeRien(cfg: Config, s: Base, op: Operation, t: int)
    ensures Etape(cfg, s, op, t).1.Erreur? ==> Etape(cfg, s, op, t).0 == s
  {
  }

  /** The change a request asks for, and nothing else, at the revision it was decided on. */
  ghost predicate EffetDemande(d: Demande, f: Fiche, f': Fiche) {
    && f'.revision == f.revision + 1
    && match d.typeDemande
       case Telechargement => false
       case Suppression => !f.statut.Supprimee? && f' == f.(statut := Supprimee, revision := f'.revision)
       case Modification =>
         && f.statut.Ouverte? && f'.statut == f.statut && |f'.champs| == |f.champs|
         && exists k :: 0 <= k < |f.champs| && f.champs[k].nom == d.champ
              && (d.rang.Some? ==> f.champs[k].rang == d.rang)
              && (d.rang.None? ==> forall l :: 0 <= l < |f.champs| && f.champs[l].nom == d.champ ==> l == k)
              && f'.champs == f.champs[k := f.champs[k].(valeur := d.valeur)]
  }

  lemma {:induction false} LigneUnique(champs: seq<Champ>, nom: string, k: nat, l: nat)
    requires k < l < |champs| && champs[k].nom == nom && champs[l].nom == nom
    ensures Lignes(champs, nom) >= 2
    decreases |champs|
  {
    if k > 0 { LigneUnique(champs[1..], nom, k - 1, l - 1); } else { LigneComptee(champs[1..], nom, l - 1); }
  }

  lemma {:induction false} LigneComptee(champs: seq<Champ>, nom: string, l: nat)
    requires l < |champs| && champs[l].nom == nom
    ensures Lignes(champs, nom) >= 1
  {
    if l > 0 { LigneComptee(champs[1..], nom, l - 1); }
  }

  lemma ExecutionFaitLaDemande(cfg: Config, d: Demande, f: Fiche, confirmee: Option<int>, propagation: bool)
    requires !d.typeDemande.Telechargement? && d.revision.Some?
    requires ExecuterSur(cfg, d, f, confirmee, propagation).Applique?
    ensures EffetDemande(d, f, ExecuterSur(cfg, d, f, confirmee, propagation).fiche)
    ensures confirmee.OrElse(d.revision) == Some(f.revision)
  {
    if d.typeDemande.Modification? {
      var k := TrouverChamp(f.champs, d.champ, d.rang).index;
      if d.rang.None? {
        forall l | 0 <= l < |f.champs| && f.champs[l].nom == d.champ && l != k ensures false {
          LigneUnique(f.champs, d.champ, if k < l then k else l, if k < l then l else k);
        }
      }
    }
  }

  /** A request executed between `s` and `s'`, with its trace. */
  ghost predicate ExecutionAppliquee(s: Base, s': Base, op: Operation) {
    && op.Decider? && op.approuver && op.acteur.Nominatif?
    && op.id < |s.demandes| == |s'.demandes|
    && s.demandes[op.id].statut.EnAttente? && s'.demandes[op.id].statut.Executee?
    && s'.demandes[op.id].decideur == Some(op.acteur.id)
    && (forall i :: 0 <= i < |s.demandes| && i != op.id && s'.demandes[i].statut.Executee? ==> s.demandes[i].statut.Executee?)
    && s.demandes[op.id].fiche.Some? && s.demandes[op.id].fiche.value in s.fiches
    && var fid := s.demandes[op.id].fiche.value;
       && fid in s'.fiches
       && op.revisionConfirmee.OrElse(s.demandes[op.id].revision) == Some(s.fiches[fid].revision)
       && EffetDemande(s.demandes[op.id], s.fiches[fid], s'.fiches[fid])
       && s'.fiches == s.fiches[fid := s'.fiches[fid]]
       && s'.journal == s.journal + [Trace(op.id, fid, op.acteur.id, s.fiches[fid].revision, op.revisionConfirmee)]
  }

  /** No fiche is touched and no request becomes executed. */
  ghost predicate SansExecution(s: Base, s': Base) {
    && s'.fiches == s.fiches && s'.journal == s.journal
    && forall i :: 0 <= i < |s'.demandes| && s'.demandes[i].statut.Executee? ==> i < |s.demandes| && s.demandes[i].statut.Executee?
  }

  lemma DeciderExecute(cfg: Config, s: Base, op: Operation, t: int)
    requires TableCoherente(cfg, s.demandes) && op.Decider?
    ensures var s' := DeciderDemande(cfg, s, op.acteur, op.id, op.approuver, op.commentaire, op.revisionConfirmee, op.propagation, t).0;
            ExecutionAppliquee(s, s', op) || SansExecution(s, s')
  {
    var s' := DeciderDemande(cfg, s, op.acteur, op.id, op.approuver, op.commentaire, op.revisionConfirmee, op.propagation, t).0;
    if s' != s && s'.journal != s.journal {
      var d := s.demandes[op.id];
      assert Coherente(cfg, d);
      ExecutionFaitLaDemande(cfg, d, s.fiches[d.fiche.value], op.revisionConfirmee, op.propagation);
    }
  }

  lemma CreerNExecute(s: Base, op: Operation, t: int)
    requires op.Creer?
    ensures SansExecution(s, CreerDemande(s, op.acteur, op.motif, op.corps, t).0)
  {
    if op.acteur.Nominatif? { PreparerNeuve(Expirer(s, t), op.acteur.id, op.motif, op.corps, t); }
  }

  /** Requests reach a fiche only by an execution, and no request is marked executed otherwise. */
  lemma FicheChangeParExecution(cfg: Config, s: Base, op: Operation, t: int)
    requires TableCoherente(cfg, s.demandes) && !op.ModifierFiche?
    ensures var s' := Etape(cfg, s, op, t).0; ExecutionAppliquee(s, s', op) || SansExecution(s, s')
  {
    if op.Decider? {
      DeciderExecute(cfg, s, op, t);
    } else if op.Creer? {
      CreerNExecute(s, op, t);
    }
  }

  /** The journal and the executed requests are in one-to-one correspondence, each
      trace carrying the revision that was stored or confirmed. */
  ghost predicate JournalFidele(s: Base) {
    && (forall k :: 0 <= k < |s.journal| ==>
          && s.journal[k].demande < |s.demandes|
          && var d := s.demandes[s.journal[k].demande];
             && d.statut.Executee? && d.fiche == Some(s.journal[k].fiche) && d.decideur == Some(s.journal[k].decideur)
             && s.journal[k].confirmee.OrElse(d.revision) == Some(s.journal[k].revisionLue))
    && (forall k, l :: 0 <= k < l < |s.journal| ==> s.journal[k].demande != s.journal[l].demande)
    && (forall i :: 0 <= i < |s.demandes| && s.demandes[i].statut.Executee? ==>
          exists k :: 0 <= k < |s.journal| && s.journal[k].demande == i)
  }

  lemma JournalStable(s: Base, s': Base)
    requires JournalFidele(s) && s'.journal == s.journal && |s.demandes| <= |s'.demandes|
    requires forall i :: 0 <= i < |s.demandes| ==> Suite(s.demandes[i], s'.demandes[i])
    requires forall i :: 0 <= i < |s'.demandes| && s'.demandes[i].statut.Executee? ==>
      i < |s.demandes| && s.demandes[i].statut.Executee?
    ensures JournalFidele(s')
  {
    forall k | 0 <= k < |s.journal| ensures s'.demandes[s.journal[k].demande] == s.demandes[s.journal[k].demande] {
      assert Suite(s.demandes[s.journal[k].demande], s'.demandes[s.journal[k].demande]);
    }
  }

  lemma JournalAllonge(s: Base, s': Base, op: Operation)
    requires JournalFidele(s) && ExecutionAppliquee(s, s', op)
    requires forall i :: 0 <= i < |s.demandes| ==> Suite(s.demandes[i], s'.demandes[i])
    ensures JournalFidele(s')
  {
    var n := |s.journal|;
    assert Suite(s.demandes[op.id], s'.demandes[op.id]);
    forall k | 0 <= k < n
      ensures s'.journal[k] == s.journal[k] && s.journal[k].demande != op.id
      ensures s'.demandes[s.journal[k].demande] == s.demandes[s.journal[k].demande]
    {
      assert Suite(s.demandes[s.journal[k].demande], s'.demandes[s.journal[k].demande]);
    }
    forall i | 0 <= i < |s'.demandes| && s'.demandes[i].statut.Executee?
      ensures exists k :: 0 <= k < |s'.journal| && s'.journal[k].demande == i
    {
      if i == op.id {
        assert s'.journal[n].demande == i;
      } else {
        var k :| 0 <= k < n && s.journal[k].demande == i;
        assert s'.journal[k].demande == i;
      }
    }
  }

  lemma JournalReste(cfg: Config, s: Base, op: Operation, t: int)
    requires TableCoherente(cfg, s.demandes) && JournalFidele(s)
    ensures JournalFidele(Etape(cfg, s, op, t).0)
  {
    var s' := Etape(cfg, s, op, t).0;
    EtapeEvolue(cfg, s, op, t);
    TableSuite(cfg, s.demandes, s'.demandes, t);
    if !op.ModifierFiche? {
      FicheChangeParExecution(cfg, s, op, t);
    }
    if ExecutionAppliquee(s, s', op) {
      JournalAllonge(s, s', op);
    } else {
      JournalStable(s, s');
    }
  }

  /** In every reachable state the fiche changes made through requests correspond
      one to one with the executed requests. */
  lemma {:induction false} ExecutionsTracees(cfg: Config, s: Base, appels: seq<Appel>)
    requires TableCoherente(cfg, s.demandes) && JournalFidele(s)
    ensures JournalFidele(Executer(cfg, s, appels))
    decreases |appels|
  {
    if appels != [] {
      var m := Etape(cfg, s, appels[0].op, appels[0].instant).0;
      EtapeEvolue(cfg, s, appels[0].op, appels[0].instant);
      TableSuite(cfg, s.demandes, m.demandes, appels[0].instant);
      JournalReste(cfg, s, appels[0].op, appels[0].instant);
      ExecutionsTracees(cfg, m, appels[1..]);
    }
  }

  // ---------------------------------------------------------------------------
  // What each call accepts and writes, column by column
  // ---------------------------------------------------------------------------

  /** After expiry at `t`: an approved download past its date is expired, nothing else changes. */
  ghost predicate ExpireeLe(d: Demande, d': Demande, t: int) {
    if d.typeDemande.Telechargement? && d.statut.Approuvee? && d.expireLe.Some? && d.expireLe.value <= t
    then d' == d.(statut := Expiree)
    else d' == d
  }

  ghost predicate ExpireesLe(avant: seq<Demande>, apres: seq<Demande>, t: int) {
    |avant| <= |apres| && forall i :: 0 <= i < |avant| ==> ExpireeLe(avant[i], apres[i], t)
  }

  lemma ExpirerEcrit(s: Base, t: int)
    ensures var s' := Expirer(s, t);
            ExpireesLe(s.demandes, s'.demandes, t) && |s'.demandes| == |s.demandes| && s' == s.(demandes := s'.demandes)
  {
  }

  /** The field a request names: by rank, or alone of its name. */
  ghost predicate ChampDesigne(champs: seq<Champ>, nom: string, rang: Option<nat>) {
    exists k :: 0 <= k < |champs| && champs[k].nom == nom &&
      (match rang
       case Some(r) => champs[k].rang == Some(r)
       case None => forall l :: 0 <= l < |champs| && champs[l].nom == nom ==> l == k)
  }

  lemma {:induction false} PremiereLigneExacte(champs: seq<Champ>, nom: string, rang: Option<nat>)
    ensures PremiereLigne(champs, nom, rang) < |champs| <==>
            exists k :: 0 <= k < |champs| && champs[k].nom == nom && (rang.None? || champs[k].rang == rang)
  {
    if champs != [] && !(champs[0].nom == nom && (rang.None? || champs[0].rang == rang)) {
      PremiereLigneExacte(champs[1..], nom, rang);
      if k :| 0 <= k < |champs| && champs[k].nom == nom && (rang.None? || champs[k].rang == rang) {
        assert champs[1..][k - 1] == champs[k];
      }
      if k :| 0 <= k < |champs| - 1 && champs[1..][k].nom == nom && (rang.None? || champs[1..][k].rang == rang) {
        assert champs[k + 1] == champs[1..][k];
      }
    }
  }

  lemma {:induction false} LignesExactes(champs: seq<Champ>, nom: string)
    ensures Lignes(champs, nom) == 0 ==> forall k :: 0 <= k < |champs| ==> champs[k].nom != nom
    ensures Lignes(champs, nom) >= 2 ==> exists k, l :: 0 <= k < l < |champs| && champs[k].nom == nom && champs[l].nom == nom
  {
    if champs != [] {
      LignesExactes(champs[1..], nom);
      if Lignes(champs[1..], nom) >= 2 {
        var k, l :| 0 <= k < l < |champs| - 1 && champs[1..][k].nom == nom && champs[1..][l].nom == nom;
        assert champs[k + 1].nom == nom && champs[l + 1].nom == nom;
      } else if Lignes(champs, nom) >= 2 {
        var l := PremiereLigne(champs[1..], nom, None);
        PremiereLigneExacte(champs[1..], nom, None);
        if l == |champs| - 1 { AucuneLigne(champs[1..], nom); }
        assert champs[0].nom == nom && champs[l + 1].nom == nom;
      }
    }
  }

  lemma {:induction false} AucuneLigne(champs: seq<Champ>, nom: string)
    ensures (forall k :: 0 <= k < |champs| ==> champs[k].nom != nom) ==> Lignes(champs, nom) == 0
  {
    if champs != [] { AucuneLigne(champs[1..], nom); }
  }

  lemma ChampSeul(champs: seq<Champ>, nom: string, k: nat)
    requires k < |champs| && champs[k].nom == nom
    ensures Lignes(champs, nom) == 1 <==> forall l :: 0 <= l < |champs| && champs[l].nom == nom ==> l == k
  {
    LigneComptee(champs, nom, k);
    LignesExactes(champs, nom);
    if l :| 0 <= l < |champs| && champs[l].nom == nom && l != k {
      LigneUnique(champs, nom, if k < l then k else l, if k < l then l else k);
    }
  }

  lemma TrouverChampSsi(champs: seq<Champ>, nom: string, rang: Option<nat>)
    ensures TrouverChamp(champs, nom, rang).Ligne? <==> ChampDesigne(champs, nom, rang)
  {
    hide Lignes, PremiereLigne;
    PremiereLigneExacte(champs, nom, rang);
    var k := PremiereLigne(champs, nom, rang);
    if k < |champs| {
      LigneComptee(champs, nom, k);
      if rang.None? { ChampSeul(champs, nom, k); }
    }
  }

  ghost predicate Borne(texte: string, minimum: nat, maximum: nat) {
    minimum <= |texte| <= maximum && forall c :: c in texte ==> c != '\0'
  }

  /** What a creation demands of its body. */
  ghost predicate CorpsValide(fiches: map<nat, Fiche>, corps: Corps) {
    match corps
    case CorpsTelechargement(piece, resolution) => piece >= 1 && resolution.Resolue?
    case CorpsModification(fiche, champ, rang, valeur, revision, convertible) =>
      && fiche in fiches && fiches[fiche].statut.Ouverte? && revision == fiches[fiche].revision
      && Borne(champ, 1, 200) && Borne(valeur, 0, 2000) && 0 <= revision <= 2147483647
      && (rang.Some? ==> 0 <= rang.value <= 100000) && convertible
      && ChampDesigne(fiches[fiche].champs, champ, if rang.Some? then Some(rang.value as nat) else None)
    case CorpsSuppression(fiche, revision) =>
      && fiche in fiches && !fiches[fiche].statut.Supprimee? && revision == fiches[fiche].revision
      && 0 <= revision <= 2147483647
  }

  /** A pending request holds what was asked, by whom and when, and nothing else yet. */
  ghost predicate DemandeDe(d: Demande, auteur: nat, motif: string, corps: Corps, t: int) {
    && d.demandeur == auteur && d.motif == motif && d.creeLe == t && d.statut.EnAttente?
    && d.decideur.None? && d.decideeLe.None? && d.commentaire.None? && d.executeeLe.None? && d.expireLe.None?
    && match corps
       case CorpsTelechargement(piece, resolution) =>
         && d.typeDemande.Telechargement? && d.piece == Some(piece)
         && resolution.Resolue? && d.fiche == resolution.fiche
         && d.champ == "" && d.rang.None? && d.valeur == "" && d.revision.None?
       case CorpsModification(fiche, champ, rang, valeur, revision, _) =>
         && d.typeDemande.Modification? && d.fiche == Some(fiche) && d.champ == champ && d.valeur == valeur
         && d.revision == Some(revision) && d.piece.None?
         && (match rang case None => d.rang.None? case Some(r) => d.rang.Some? && d.rang.value == r)
       case CorpsSuppression(fiche, revision) =>
         && d.typeDemande.Suppression? && d.fiche == Some(fiche) && d.revision == Some(revision)
         && d.piece.None? && d.champ == "" && d.rang.None? && d.valeur == ""
  }

  /** The author has a pending request for the same thing. */
  ghost predicate DoublonEnAttente(demandes: seq<Demande>, auteur: nat, corps: Corps) {
    exists i :: 0 <= i < |demandes| && demandes[i].statut.EnAttente? && demandes[i].demandeur == auteur &&
      match corps
      case CorpsTelechargement(piece, _) => demandes[i].typeDemande.Telechargement? && demandes[i].piece == Some(piece)
      case CorpsModification(fiche, champ, rang, _, _, _) =>
        && demandes[i].typeDemande.Modification? && demandes[i].fiche == Some(fiche) && demandes[i].champ == champ
        && (match rang case None => demandes[i].rang.None? case Some(r) => demandes[i].rang.Some? && demandes[i].rang.value == r)
      case CorpsSuppression(fiche, _) => demandes[i].typeDemande.Suppression? && demandes[i].fiche == Some(fiche)
  }

  lemma PreparerEcrit(s: Base, auteur: nat, motif: string, corps: Corps, t: int)
    ensures var b := Preparer(s, auteur, motif, corps, t);
            && (b.Pret? <==> CorpsValide(s.fiches, corps))
            && (b.Pret? ==> DemandeDe(b.demande, auteur, motif, corps, t))
  {
    match corps
    case CorpsModification(fiche, champ, rang, valeur, revision, convertible) =>
      if fiche in s.fiches {
        TrouverChampSsi(s.fiches[fiche].champs, champ, if rang.Some? && rang.value >= 0 then Some(rang.value as nat) else None);
      }
    case _ =>
  }

  lemma DoublonSsi(demandes: seq<Demande>, d: Demande, auteur: nat, motif: string, corps: Corps, t: int)
    requires DemandeDe(d, auteur, motif, corps, t)
    ensures DejaEnAttente(demandes, d) <==> DoublonEnAttente(demandes, auteur, corps)
  {
  }

  /** A creation succeeds exactly for a known role, a bounded motive, a valid body and no pending
      duplicate; the row added holds what was asked, and the other rows are only expired. */
  lemma CreationEcrite(s: Base, acteur: Acteur, motif: string, corps: Corps, t: int)
    ensures var (s', r) := CreerDemande(s, acteur, motif, corps, t);
            && (r.Rendue? <==>
                  && acteur.Nominatif? && !acteur.role.AutreRole? && Borne(motif, 3, 1000)
                  && CorpsValide(s.fiches, corps) && !DoublonEnAttente(s.demandes, acteur.id, corps))
            && (r.Rendue? ==>
                  && r.id == |s.demandes| && |s'.demandes| == r.id + 1 && s'.demandes[r.id] == r.demande
                  && DemandeDe(r.demande, acteur.id, motif, corps, t)
                  && ExpireesLe(s.demandes, s'.demandes, t)
                  && s'.fiches == s.fiches && s'.utilisateurs == s.utilisateurs && s'.journal == s.journal)
  {
    hide CorpsValide, DemandeDe, DoublonEnAttente, DejaEnAttente, Preparer;
    if acteur.Nominatif? {
      var e := Expirer(s, t);
      PreparerEcrit(e, acteur.id, motif, corps, t);
      ExpirerEcrit(s, t);
      DoublonsExpires(s.demandes, e.demandes, acteur.id, corps, t);
      var b := Preparer(e, acteur.id, motif, corps, t);
      if b.Pret? { DoublonSsi(e.demandes, b.demande, acteur.id, motif, corps, t); }
    }
  }

  /** Expiry touches no pending request. */
  lemma DoublonsExpires(avant: seq<Demande>, apres: seq<Demande>, auteur: nat, corps: Corps, t: int)
    requires ExpireesLe(avant, apres, t) && |apres| == |avant|
    ensures DoublonEnAttente(avant, auteur, corps) <==> DoublonEnAttente(apres, auteur, corps)
  {
    assert forall i :: 0 <= i < |avant| ==> ExpireeLe(avant[i], apres[i], t);
    assert forall i :: 0 <= i < |avant| && (avant[i].statut.EnAttente? || apres[i].statut.EnAttente?) ==> apres[i] == avant[i];
  }

  /** A cancellation succeeds exactly for the author of a pending request, and changes its status only. */
  lemma AnnulationEcrite(s: Base, acteur: Acteur, id: nat)
    ensures var (s', r) := AnnulerDemande(s, acteur, id);
            && (r.Rendue? <==> acteur.Nominatif? && id < |s.demandes| && s.demandes[id].demandeur == acteur.id && s.demandes[id].statut.EnAttente?)
            && (r.Rendue? ==> r.id == id && r.demande == s.demandes[id].(statut := Annulee)
                              && s' == s.(demandes := s.demandes[id := r.demande]))
  {
  }

  /** When the execution of a request can be carried out on a fiche. */
  ghost predicate Executable(cfg: Config, d: Demande, f: Fiche, confirmee: Option<int>, propagation: bool) {
    var revision := if confirmee.Some? then confirmee else d.revision;
    && !f.statut.Supprimee?
    && (match revision case None => !cfg.exigerRevision case Some(n) => n >= 1 && n == f.revision)
    && (d.typeDemande.Modification? ==> !f.statut.Valide? && propagation && d.champ != "" && ChampDesigne(f.champs, d.champ, d.rang))
  }

  lemma ExecutableSsi(cfg: Config, d: Demande, f: Fiche, confirmee: Option<int>, propagation: bool)
    ensures ExecuterSur(cfg, d, f, confirmee, propagation).Applique? <==> Executable(cfg, d, f, confirmee, propagation)
  {
    hide ChampDesigne, TrouverChamp;
    TrouverChampSsi(f.champs, d.champ, d.rang);
  }

  /** When a decision is accepted. */
  ghost predicate DecisionRecevable(cfg: Config, s: Base, op: Operation)
    requires op.Decider?
  {
    && op.acteur.Nominatif? && op.acteur.role.RoleApprobateur?
    && Borne(op.commentaire, 0, 1000) && (!op.approuver ==> op.commentaire != "")
    && (op.revisionConfirmee.Some? ==> 0 <= op.revisionConfirmee.value <= 2147483647)
    && op.id < |s.demandes|
    && var d := s.demandes[op.id];
    && d.statut.EnAttente? && (d.demandeur == op.acteur.id ==> cfg.autoApprobation)
    && (op.approuver && !d.typeDemande.Telechargement? ==>
          d.fiche.Some? && d.fiche.value in s.fiches && Executable(cfg, d, s.fiches[d.fiche.value], op.revisionConfirmee, op.propagation))
  }

  /** The decided row: what the caller decided, who, when, why, and the dates that follow from it. */
  ghost predicate DecisionDe(d: Demande, d': Demande, op: Operation, t: int)
    requires op.Decider? && op.acteur.Nominatif?
  {
    && MemeObjetFige(d, d')
    && (d'.statut.Refusee? <==> !op.approuver)
    && (d'.statut.Approuvee? <==> op.approuver && d.typeDemande.Telechargement?)
    && (d'.statut.Executee? <==> op.approuver && !d.typeDemande.Telechargement?)
    && d'.decideur == Some(op.acteur.id) && d'.decideeLe == Some(t)
    && d'.commentaire == (if op.commentaire == "" then None else Some(op.commentaire))
    && d'.expireLe == (if op.approuver && d.typeDemande.Telechargement? then Some(t + 24 * 3600) else d.expireLe)
    && d'.executeeLe == (if op.approuver && !d.typeDemande.Telechargement? then Some(t) else d.executeeLe)
  }

  function DeciderOp(cfg: Config, s: Base, op: Operation, t: int): (Base, Reponse)
    requires op.Decider?
  {
    DeciderDemande(cfg, s, op.acteur, op.id, op.approuver, op.commentaire, op.revisionConfirmee, op.propagation, t)
  }

  lemma DecisionAccepteeSsi(cfg: Config, s: Base, op: Operation, t: int)
    requires op.Decider?
    ensures DeciderOp(cfg, s, op, t).1.Rendue? <==> DecisionRecevable(cfg, s, op)
  {
    hide Executable, ExecuterSur;
    ExpirerEcrit(s, t);
    if op.id < |s.demandes| {
      var d, e := s.demandes[op.id], Expirer(s, t).demandes[op.id];
      assert ExpireeLe(d, e, t);
      if d.fiche.Some? && d.fiche.value in s.fiches {
        ExecutableSsi(cfg, d, s.fiches[d.fiche.value], op.revisionConfirmee, op.propagation);
      }
    }
  }

  // ---------------------------------------------------------------------------
  // Which refusal
  // ---------------------------------------------------------------------------

  /** No line of that name, or none at the rank asked. */
  ghost predicate ChampAbsent(champs: seq<Champ>, nom: string, rang: Option<nat>) {
    forall k :: 0 <= k < |champs| && champs[k].nom == nom ==> rang.Some? && champs[k].rang != rang
  }

  lemma ChampRefuse(champs: seq<Champ>, nom: string, rang: Option<nat>)
    ensures TrouverChamp(champs, nom, rang).Refusee404? <==> ChampAbsent(champs, nom, rang)
    ensures TrouverChamp(champs, nom, rang).Refusee422? <==> !ChampAbsent(champs, nom, rang) && !ChampDesigne(champs, nom, rang)
  {
    TrouverChampSsi(champs, nom, rang);
    LignesExactes(champs, nom);
    AucuneLigne(champs, nom);
    PremiereLigneExacte(champs, nom, rang);
    hide Lignes, PremiereLigne;
    var k := PremiereLigne(champs, nom, rang);
    if k < |champs| { LigneComptee(champs, nom, k); }
  }

  /** The refusal of an execution: the first cause that applies, the missing or impossible
      confirmation before the state of the fiche, the field before the revision. */
  ghost predicate RefusExecution(cfg: Config, d: Demande, f: Fiche, confirmee: Option<int>, propagation: bool, code: nat) {
    var revision := if confirmee.Some? then confirmee else d.revision;
    var perimee := revision.Some? && revision.value != f.revision;
    if revision == None && cfg.exigerRevision then code == 428
    else if revision.Some? && revision.value < 1 then code == 422
    else if !d.typeDemande.Modification? then code == 409 && (f.statut.Supprimee? || perimee)
    else if d.champ == "" then code == 422
    else if !f.statut.Ouverte? then code == 409
    else if ChampAbsent(f.champs, d.champ, d.rang) then code == 404
    else if !ChampDesigne(f.champs, d.champ, d.rang) then code == 422
    else if perimee then code == 409
    else code == 422 && !propagation
  }

  lemma ErreursExecution(cfg: Config, d: Demande, f: Fiche, confirmee: Option<int>, propagation: bool)
    ensures var e := ExecuterSur(cfg, d, f, confirmee, propagation); e.Echec? ==> RefusExecution(cfg, d, f, confirmee, propagation, e.code)
  {
    ChampRefuse(f.champs, d.champ, d.rang);
    hide ChampAbsent, ChampDesigne, TrouverChamp;
  }

  /** The refusal of a decision: the caller, then the call, then the request, then its execution. */
  ghost predicate RefusDecision(cfg: Config, s: Base, op: Operation, code: nat)
    requires op.Decider?
  {
    if !op.acteur.Nominatif? || !op.acteur.role.RoleApprobateur? then code == 403
    else if || !Borne(op.commentaire, 0, 1000) || (!op.approuver && op.commentaire == "")
            || (op.revisionConfirmee.Some? && !(0 <= op.revisionConfirmee.value <= 2147483647)) then code == 422
    else if op.id >= |s.demandes| then code == 404
    else
      var d := s.demandes[op.id];
      if !d.statut.EnAttente? then code == 409
      else if d.demandeur == op.acteur.id && !cfg.autoApprobation then code == 403
      else
        && op.approuver && !d.typeDemande.Telechargement?
        && if d.fiche.Some? && d.fiche.value in s.fiches
           then RefusExecution(cfg, d, s.fiches[d.fiche.value], op.revisionConfirmee, op.propagation, code)
           else code == 409
  }

  lemma ErreursDecision(cfg: Config, s: Base, op: Operation, t: int)
    requires op.Decider?
    ensures var (s', r) := DeciderOp(cfg, s, op, t);
            (r.Rendue? || r.Erreur?) && (r.Erreur? ==> s' == s && RefusDecision(cfg, s, op, r.code))
  {
    hide RefusExecution, ExecuterSur;
    ExpirerEcrit(s, t);
    if op.id < |s.demandes| {
      var d, e := s.demandes[op.id], Expirer(s, t).demandes[op.id];
      assert ExpireeLe(d, e, t);
      if d.fiche.Some? && d.fiche.value in s.fiches {
        ErreursExecution(cfg, d, s.fiches[d.fiche.value], op.revisionConfirmee, op.propagation);
      }
    }
  }

  /** The refusal of a body. */
  ghost predicate RefusCorps(fiches: map<nat, Fiche>, corps: Corps, code: nat) {
    match corps
    case CorpsTelechargement(piece, resolution) => if piece < 1 then code == 422 else resolution.Irresolue? && code == resolution.code
    case CorpsModification(fiche, champ, rang, valeur, revision, convertible) =>
      if fiche !in fiches then code == 404
      else if !fiches[fiche].statut.Ouverte? then code == 409
      else if || !Borne(champ, 1, 200) || !Borne(valeur, 0, 2000) || (rang.Some? && !(0 <= rang.value <= 100000))
              || !(0 <= revision <= 2147483647) then code == 422
      else if revision != fiches[fiche].revision then code == 409
      else
        var place := if rang.Some? then Some(rang.value as nat) else None;
        if ChampAbsent(fiches[fiche].champs, champ, place) then code == 404
        else code == 422 && (!ChampDesigne(fiches[fiche].champs, champ, place) || !convertible)
    case CorpsSuppression(fiche, revision) =>
      if fiche !in fiches then code == 404
      else if fiches[fiche].statut.Supprimee? then code == 409
      else if !(0 <= revision <= 2147483647) then code == 422
      else code == 409 && revision != fiches[fiche].revision
  }

  lemma ErreursCorps(s: Base, auteur: nat, motif: string, corps: Corps, t: int)
    ensures var b := Preparer(s, auteur, motif, corps, t); b.Refuse? ==> RefusCorps(s.fiches, corps, b.code)
  {
    match corps
    case CorpsModification(fiche, champ, rang, valeur, revision, convertible) =>
      if fiche in s.fiches {
        ChampRefuse(s.fiches[fiche].champs, champ, if rang.Some? && rang.value >= 0 then Some(rang.value as nat) else None);
        hide ChampAbsent, ChampDesigne, TrouverChamp;
      }
    case _ =>
  }

  lemma ErreursCreation(s: Base, acteur: Acteur, motif: string, corps: Corps, t: int)
    ensures var (s', r) := CreerDemande(s, acteur, motif, corps, t);
            && (r.Rendue? || r.Erreur?)
            && (r.Erreur? ==> s' == s)
            && (r.Erreur? ==>
                  if !acteur.Nominatif? || acteur.role.AutreRole? then r.code == 403
                  else if !Borne(motif, 3, 1000) then r.code == 422
                  else if !CorpsValide(s.fiches, corps) then RefusCorps(s.fiches, corps, r.code)
                  else r.code == 409 && DoublonEnAttente(s.demandes, acteur.id, corps))
  {
    hide CorpsValide, RefusCorps, DoublonEnAttente, DejaEnAttente, Preparer;
    CreationEcrite(s, acteur, motif, corps, t);
    if acteur.Nominatif? {
      ErreursCorps(Expirer(s, t), acteur.id, motif, corps, t);
      PreparerEcrit(Expirer(s, t), acteur.id, motif, corps, t);
    }
  }

  /** A cancellation: an unnamed caller, an unknown request, another's, one no longer pending. */
  lemma ErreursAnnulation(s: Base, acteur: Acteur, id: nat)
    ensures var (s', r) := AnnulerDemande(s, acteur, id);
            && (r.Rendue? || r.Erreur?)
            && (r.Erreur? ==> s' == s && r.code in {401, 404, 403, 409})
            && (r == Erreur(401) <==> !acteur.Nominatif?)
            && (r == Erreur(404) <==> acteur.Nominatif? && id >= |s.demandes|)
            && (r == Erreur(403) <==> acteur.Nominatif? && id < |s.demandes| && s.demandes[id].demandeur != acteur.id)
            && (r == Erreur(409) <==> acteur.Nominatif? && id < |s.demandes| && s.demandes[id].demandeur == acteur.id
                                      && !s.demandes[id].statut.EnAttente?)
  {
  }

  /** A decision writes exactly what the caller decided on that row, expires the others, and tells
      the requester once, unread, of the right kind. */
  lemma DecisionEcrite(cfg: Config, s: Base, op: Operation, t: int)
    requires op.Decider? && DeciderOp(cfg, s, op, t).1.Rendue?
    ensures var (s', r) := DeciderOp(cfg, s, op, t);
            && op.acteur.Nominatif? && r.id == op.id < |s.demandes| == |s'.demandes|
            && s.demandes[op.id].statut.EnAttente? && s'.demandes[op.id] == r.demande
            && DecisionDe(s.demandes[op.id], r.demande, op, t)
            && (forall i :: 0 <= i < |s.demandes| && i != op.id ==> ExpireeLe(s.demandes[i], s'.demandes[i], t))
            && s'.utilisateurs == s.utilisateurs
            && s'.notifications == s.notifications +
                 [Notification(s.demandes[op.id].demandeur, op.id, if r.demande.statut.Executee? then Execution else Decision, None)]
            && (!r.demande.statut.Executee? ==> s'.fiches == s.fiches && s'.journal == s.journal)
  {
    hide ExecuterSur;
    ExpirerEcrit(s, t);
    assert ExpireeLe(s.demandes[op.id], Expirer(s, t).demandes[op.id], t);
  }

  // ---------------------------------------------------------------------------
  // Notifications
  // ---------------------------------------------------------------------------

  predicate Concerne(n: Notification, demande: nat, u: nat, g: Genre) {
    n.demande == demande && n.destinataire == u && n.genre == g
  }

  function Nombre(n: seq<Notification>, demande: nat, u: nat, g: Genre): nat {
    if n == [] then 0
    else Nombre(n[..|n| - 1], demande, u, g) + (if Concerne(n[|n| - 1], demande, u, g) then 1 else 0)
  }

  function Occurrences(us: seq<nat>, u: nat): nat {
    if us == [] then 0 else (if us[0] == u then 1 else 0) + Occurrences(us[1..], u)
  }

  lemma NombreNotifier(n: seq<Notification>, destinataire: nat, demande: nat, genre: Genre, i: nat, u: nat, g: Genre)
    ensures Nombre(Notifier(n, destinataire, demande, genre), i, u, g) ==
            Nombre(n, i, u, g) + (if i == demande && u == destinataire && g == genre then 1 else 0)
  {
    assert Notifier(n, destinataire, demande, genre)[..|n|] == n;
  }

  lemma {:induction false} NombreNotifierTous(n: seq<Notification>, us: seq<nat>, demande: nat, i: nat, u: nat, g: Genre)
    ensures Nombre(NotifierTous(n, us, demande), i, u, g) ==
            Nombre(n, i, u, g) + (if i == demande && g == NouvelleDemande then Occurrences(us, u) else 0)
    decreases |us|
  {
    if us != [] {
      NombreNotifier(n, us[0], demande, NouvelleDemande, i, u, g);
      NombreNotifierTous(Notifier(n, us[0], demande, NouvelleDemande), us[1..], demande, i, u, g);
    }
  }

  /** Marking notifications read does not change how many there are. */
  ghost predicate MemesEnvois(n: seq<Notification>, n': seq<Notification>) {
    |n| == |n'| && forall k :: 0 <= k < |n| ==> n'[k] == n[k].(lueLe := n'[k].lueLe)
  }

  lemma {:induction false} NombreMemesEnvois(n: seq<Notification>, n': seq<Notification>, i: nat, u: nat, g: Genre)
    requires MemesEnvois(n, n')
    ensures Nombre(n, i, u, g) == Nombre(n', i, u, g)
  {
    if n != [] {
      NombreMemesEnvois(n[..|n| - 1], n'[..|n| - 1], i, u, g);
    }
  }

  /** How many decision notifications of genre `g` a request owes to `u`. */
  function Du(d: Demande, u: nat, g: Genre): nat {
    if StatutDecide(d.statut) && u == d.demandeur && g == (if d.statut.Executee? then Execution else Decision) then 1 else 0
  }

  ghost predicate NotificationsExactes(s: Base) {
    && (forall i, u, g: Genre :: 0 <= i < |s.demandes| && 0 <= u && !g.NouvelleDemande? ==>
          Nombre(s.notifications, i, u, g) == Du(s.demandes[i], u, g))
    && (forall i, u, g: Genre :: |s.demandes| <= i && 0 <= u ==> Nombre(s.notifications, i, u, g) == 0)
  }

  /** What one call sends about request `i`: a decision to its requester, a new request
      to every other active approver, nothing else. */
  function Envoi(s: Base, op: Operation, r: Reponse, i: nat, u: nat, g: Genre): nat {
    match r
    case Rendue(id, d) =>
      if id != i then 0
      else if op.Creer? && op.acteur.Nominatif? then
        (if g.NouvelleDemande? then Occurrences(Approbateurs(s.utilisateurs, op.acteur.id), u) else 0)
      else if op.Decider? then (if g.NouvelleDemande? then 0 else Du(d, u, g))
      else 0
    case _ => 0
  }

  lemma CreerNotifie(cfg: Config, s: Base, op: Operation, t: int, i: nat, u: nat, g: Genre)
    requires op.Creer?
    ensures var (s', r) := CreerDemande(s, op.acteur, op.motif, op.corps, t);
            Nombre(s'.notifications, i, u, g) == Nombre(s.notifications, i, u, g) + Envoi(s, op, r, i, u, g)
  {
    var (s', r) := CreerDemande(s, op.acteur, op.motif, op.corps, t);
    if r.Rendue? {
      NombreNotifierTous(s.notifications, Approbateurs(s.utilisateurs, op.acteur.id), |s.demandes|, i, u, g);
    }
  }

  lemma DeciderNotifie(cfg: Config, s: Base, op: Operation, t: int, i: nat, u: nat, g: Genre)
    requires op.Decider?
    ensures var (s', r) := DeciderDemande(cfg, s, op.acteur, op.id, op.approuver, op.commentaire, op.revisionConfirmee, op.propagation, t);
            Nombre(s'.notifications, i, u, g) == Nombre(s.notifications, i, u, g) + Envoi(s, op, r, i, u, g)
  {
    var (s', r) := DeciderDemande(cfg, s, op.acteur, op.id, op.approuver, op.commentaire, op.revisionConfirmee, op.propagation, t);
    DeciderEnvoie(cfg, s, op, t);
    if r.Rendue? {
      NombreNotifier(s.notifications, r.demande.demandeur, r.id, if r.demande.statut.Executee? then Execution else Decision, i, u, g);
    }
  }

  /** A decision sends one notice, to the requester; a refused call sends none. */
  lemma DeciderEnvoie(cfg: Config, s: Base, op: Operation, t: int)
    requires op.Decider?
    ensures var (s', r) := DeciderDemande(cfg, s, op.acteur, op.id, op.approuver, op.commentaire, op.revisionConfirmee, op.propagation, t);
            if r.Rendue? then
              && StatutDecide(r.demande.statut)
              && s'.notifications == Notifier(s.notifications, r.demande.demandeur, r.id, if r.demande.statut.Executee? then Execution else Decision)
            else r.Erreur? && s' == s
  {
  }

  /** No other call sends anything. */
  lemma AutreNotifie(cfg: Config, s: Base, op: Operation, t: int)
    requires !op.Creer? && !op.Decider?
    ensures MemesEnvois(s.notifications, Etape(cfg, s, op, t).0.notifications)
  {
  }

  lemma EtapeNotifie(cfg: Config, s: Base, op: Operation, t: int, i: nat, u: nat, g: Genre)
    ensures var (s', r) := Etape(cfg, s, op, t);
            Nombre(s'.notifications, i, u, g) == Nombre(s.notifications, i, u, g) + Envoi(s, op, r, i, u, g)
  {
    if op.Creer? {
      CreerNotifie(cfg, s, op, t, i, u, g);
    } else if op.Decider? {
      DeciderNotifie(cfg, s, op, t, i, u, g);
    } else {
      AutreNotifie(cfg, s, op, t);
      NombreMemesEnvois(s.notifications, Etape(cfg, s, op, t).0.notifications, i, u, g);
    }
  }

  /** What the requests owe grows by what the call sends. */
  ghost predicate DuSuit(s: Base, s': Base, op: Operation, r: Reponse, i: nat, u: nat, g: Genre) {
    && (i < |s'.demandes| ==>
          Du(s'.demandes[i], u, g) == (if i < |s.demandes| then Du(s.demandes[i], u, g) else 0) + Envoi(s, op, r, i, u, g))
    && (i >= |s'.demandes| ==> Envoi(s, op, r, i, u, g) == 0)
  }

  lemma CreerDu(cfg: Config, s: Base, op: Operation, t: int, i: nat, u: nat, g: Genre)
    requires op.Creer? && !g.NouvelleDemande?
    ensures var (s', r) := CreerDemande(s, op.acteur, op.motif, op.corps, t); DuSuit(s, s', op, r, i, u, g)
  {
    if op.acteur.Nominatif? { PreparerNeuve(Expirer(s, t), op.acteur.id, op.motif, op.corps, t); }
  }

  lemma DeciderDu(cfg: Config, s: Base, op: Operation, t: int, i: nat, u: nat, g: Genre)
    requires op.Decider? && !g.NouvelleDemande?
    ensures var (s', r) := DeciderDemande(cfg, s, op.acteur, op.id, op.approuver, op.commentaire, op.revisionConfirmee, op.propagation, t);
            DuSuit(s, s', op, r, i, u, g)
  {
  }

  lemma AutreDu(cfg: Config, s: Base, op: Operation, t: int, i: nat, u: nat, g: Genre)
    requires !op.Creer? && !op.Decider?
    ensures var (s', r) := Etape(cfg, s, op, t); DuSuit(s, s', op, r, i, u, g)
  {
  }

  lemma EtapeDu(cfg: Config, s: Base, op: Operation, t: int, i: nat, u: nat, g: Genre)
    requires !g.NouvelleDemande?
    ensures var (s', r) := Etape(cfg, s, op, t); DuSuit(s, s', op, r, i, u, g)
  {
    if op.Creer? {
      CreerDu(cfg, s, op, t, i, u, g);
    } else if op.Decider? {
      DeciderDu(cfg, s, op, t, i, u, g);
    } else {
      AutreDu(cfg, s, op, t, i, u, g);
    }
  }

  lemma NotificationsRestentExactes(cfg: Config, s: Base, op: Operation, t: int)
    requires TableCoherente(cfg, s.demandes) && NotificationsExactes(s)
    ensures NotificationsExactes(Etape(cfg, s, op, t).0)
  {
    var (s', r) := Etape(cfg, s, op, t);
    EtapeEvolue(cfg, s, op, t);
    forall i, u, g: Genre | 0 <= i < |s'.demandes| && 0 <= u && !g.NouvelleDemande?
      ensures Nombre(s'.notifications, i, u, g) == Du(s'.demandes[i], u, g)
    {
      EtapeNotifie(cfg, s, op, t, i, u, g);
      EtapeDu(cfg, s, op, t, i, u, g);
    }
    forall i, u, g: Genre | |s'.demandes| <= i && 0 <= u ensures Nombre(s'.notifications, i, u, g) == 0 {
      EtapeNotifie(cfg, s, op, t, i, u, g);
    }
  }

  /** In every reachable state each decided request has notified its requester exactly
      once, by an execution notice when it was executed and by a decision notice
      otherwise; nobody else got one, and undecided requests sent none. */
  lemma {:induction false} DecisionsNotifieesUneFois(cfg: Config, s: Base, appels: seq<Appel>)
    requires TableCoherente(cfg, s.demandes) && NotificationsExactes(s)
    ensures NotificationsExactes(Executer(cfg, s, appels))
    decreases |appels|
  {
    if appels != [] {
      var m := Etape(cfg, s, appels[0].op, appels[0].instant).0;
      EtapeEvolue(cfg, s, appels[0].op, appels[0].instant);
      TableSuite(cfg, s.demandes, m.demandes, appels[0].instant);
      NotificationsRestentExactes(cfg, s, appels[0].op, appels[0].instant);
      DecisionsNotifieesUneFois(cfg, m, appels[1..]);
    }
  }

  lemma {:induction false} AnnonceFigee(cfg: Config, s: Base, appels: seq<Appel>, i: nat, u: nat)
    requires i < |s.demandes|
    ensures Nombre(Executer(cfg, s, appels).notifications, i, u, NouvelleDemande) == Nombre(s.notifications, i, u, NouvelleDemande)
    decreases |appels|
  {
    if appels != [] {
      EtapeEvolue(cfg, s, appels[0].op, appels[0].instant);
      EtapeNotifie(cfg, s, appels[0].op, appels[0].instant, i, u, NouvelleDemande);
      AnnonceFigee(cfg, Etape(cfg, s, appels[0].op, appels[0].instant).0, appels[1..], i, u);
    }
  }

  ghost predicate ComptesDistincts(comptes: seq<Utilisateur>) {
    forall i, j :: 0 <= i < j < |comptes| ==> comptes[i].id != comptes[j].id
  }

  ghost predicate AutreApprobateurActif(comptes: seq<Utilisateur>, sauf: nat, u: nat) {
    u != sauf && exists i :: 0 <= i < |comptes| && comptes[i] == Utilisateur(u, true, true)
  }

  lemma {:induction false} ApprobateursExacts(comptes: seq<Utilisateur>, sauf: nat, u: nat)
    requires ComptesDistincts(comptes)
    ensures Occurrences(Approbateurs(comptes, sauf), u) == if AutreApprobateurActif(comptes, sauf, u) then 1 else 0
    ensures (forall i :: 0 <= i < |comptes| ==> comptes[i].id != u) ==> Occurrences(Approbateurs(comptes, sauf), u) == 0
  {
    if comptes != [] {
      ApprobateursExacts(comptes[1..], sauf, u);
      var reste := Approbateurs(comptes[1..], sauf);
      assert ([comptes[0].id] + reste)[1..] == reste && [] + reste == reste;
      if AutreApprobateurActif(comptes, sauf, u) && comptes[0] != Utilisateur(u, true, true) {
        var i :| 0 <= i < |comptes| && comptes[i] == Utilisateur(u, true, true);
        assert comptes[1..][i - 1] == Utilisateur(u, true, true);
      }
      if AutreApprobateurActif(comptes[1..], sauf, u) {
        var i :| 0 <= i < |comptes[1..]| && comptes[1..][i] == Utilisateur(u, true, true);
        assert comptes[i + 1] == Utilisateur(u, true, true);
      }
      assert comptes[0].id == u ==> forall i :: 0 <= i < |comptes[1..]| ==> comptes[1..][i].id != u;
    }
  }

  /** A creation notifies each other active approver exactly once and nobody else,
      and nothing that happens later adds to it. */
  lemma CreationAnnonceeUneFois(cfg: Config, s: Base, op: Operation, t: int, appels: seq<Appel>, u: nat)
    requires NotificationsExactes(s) && ComptesDistincts(s.utilisateurs)
    requires op.Creer? && op.acteur.Nominatif? && Etape(cfg, s, op, t).1.Rendue?
    ensures var (s', r) := Etape(cfg, s, op, t);
            Nombre(Executer(cfg, s', appels).notifications, r.id, u, NouvelleDemande)
            == if AutreApprobateurActif(s.utilisateurs, op.acteur.id, u) then 1 else 0
  {
    var (s', r) := Etape(cfg, s, op, t);
    assert r.id == |s.demandes| && Nombre(s.notifications, r.id, u, NouvelleDemande) == 0;
    EtapeNotifie(cfg, s, op, t, r.id, u, NouvelleDemande);
    ApprobateursExacts(s.utilisateurs, op.acteur.id, u);
    AnnonceFigee(cfg, s', appels, r.id, u);
  }

  /** The places of the unread notifications of `u`. */
  ghost function Places(n: seq<Notification>, u: nat): set<nat> {
    set k | 0 <= k < |n| && n[k].destinataire == u && n[k].lueLe.None?
  }

  lemma {:induction false} NonLuesCompte(n: seq<Notification>, u: nat)
    ensures NonLues(n, u) == |Places(n, u)|
  {
    if n != [] {
      var m := |n| - 1;
      NonLuesCompte(n[..m], u);
      assert Places(n, u) == Places(n[..m], u) + (if n[m].destinataire == u && n[m].lueLe.None? then {m} else {});
    }
  }

  /** Marking all read dates the caller's unread notifications, and answers how many there were. */
  lemma MarquerToutesEcrit(s: Base, acteur: Acteur, t: int)
    ensures var (s', r) := MarquerNotificationsLues(s, acteur, t);
            if !acteur.Nominatif? then r == Erreur(401) && s' == s
            else
              && r == Marquees(|Places(s.notifications, acteur.id)|)
              && s' == s.(notifications := s'.notifications) && |s'.notifications| == |s.notifications|
              && forall k :: 0 <= k < |s.notifications| ==>
                   s'.notifications[k] == if k in Places(s.notifications, acteur.id) then s.notifications[k].(lueLe := Some(t))
                                          else s.notifications[k]
  {
    if acteur.Nominatif? { NonLuesCompte(s.notifications, acteur.id); }
  }

  /** One notification is marked for its addressee only, and keeps an earlier date. */
  lemma MarquerUneEcrit(s: Base, acteur: Acteur, id: nat, t: int)
    ensures var (s', r) := MarquerNotificationLue(s, acteur, id, t);
            && (r.Fait? <==> acteur.Nominatif? && id < |s.notifications| && s.notifications[id].destinataire == acteur.id)
            && (r.Fait? ==> s' == s.(notifications := s.notifications[id :=
                  s.notifications[id].(lueLe := if s.notifications[id].lueLe.Some? then s.notifications[id].lueLe else Some(t))]))
            && (!r.Fait? ==> r == Erreur(if acteur.Nominatif? then 404 else 401) && s' == s)
  {
  }

  /** Marking all read touches the caller's unread notifications only, and counts them. */
  lemma {:induction false} LireToutesExact(n: seq<Notification>, u: nat, v: nat, t: int)
    ensures NonLues(LireToutes(n, u, t), u) == 0
    ensures v != u ==> NonLues(LireToutes(n, u, t), v) == NonLues(n, v)
    ensures |LireToutes(n, u, t)| == |n|
    ensures forall k :: 0 <= k < |n| ==> LireToutes(n, u, t)[k] == if n[k].destinataire == u && n[k].lueLe.None? then n[k].(lueLe := Some(t)) else n[k]
  {
    if n != [] {
      LireToutesExact(n[..|n| - 1], u, v, t);
      assert LireToutes(n, u, t)[..|n| - 1] == LireToutes(n[..|n| - 1], u, t);
    }
  }

  // ---------------------------------------------------------------------------
  // Download windows
  // ---------------------------------------------------------------------------

  datatype Approbation = Approbation(u: nat, piece: nat, instant: int)

  /** The download approvals of a run: the calls that said yes to a download and were not
      refused, for the requester and the piece of the request they decided. */
  function Approbations(s: Base, op: Operation, r: Reponse, t: int): seq<Approbation> {
    if op.Decider? && op.approuver && !r.Erreur? && op.id < |s.demandes|
       && s.demandes[op.id].typeDemande.Telechargement? && s.demandes[op.id].piece.Some?
    then [Approbation(s.demandes[op.id].demandeur, s.demandes[op.id].piece.value, t)] else []
  }

  function Historique(cfg: Config, s: Base, appels: seq<Appel>): seq<Approbation>
    decreases |appels|
  {
    if appels == [] then []
    else
      var (m, r) := Etape(cfg, s, appels[0].op, appels[0].instant);
      Approbations(s, appels[0].op, r, appels[0].instant) + Historique(cfg, m, appels[1..])
  }

  /** Row `d` is a download of `piece` approved for `u` at `a`, expired since or not. */
  predicate ApprouveeLe(d: Demande, u: nat, piece: nat, a: int) {
    && d.typeDemande.Telechargement? && d.demandeur == u && d.piece == Some(piece)
    && (d.statut.Approuvee? || d.statut.Expiree?) && d.decideeLe == Some(a)
  }

  ghost predicate Connue(demandes: seq<Demande>, u: nat, piece: nat, a: int) {
    exists i :: 0 <= i < |demandes| && ApprouveeLe(demandes[i], u, piece, a)
  }

  ghost predicate ExpireesEchues(demandes: seq<Demande>, t: int) {
    forall i :: 0 <= i < |demandes| && demandes[i].statut.Expiree? ==> demandes[i].expireLe.Some? && demandes[i].expireLe.value <= t
  }

  /** One row counts as approved at `a` after the call exactly when it did, or this call approved it. */
  lemma LigneConnue(cfg: Config, s: Base, op: Operation, t: int, i: nat, u: nat, piece: nat, a: int)
    requires i < |s.demandes| <= |Etape(cfg, s, op, t).0.demandes| && Coherente(cfg, s.demandes[i])
    requires Evolution(cfg, s.demandes[i], Etape(cfg, s, op, t).0.demandes[i], t)
    ensures var (s', r) := Etape(cfg, s, op, t);
            && (ApprouveeLe(s.demandes[i], u, piece, a) ==> ApprouveeLe(s'.demandes[i], u, piece, a))
            && (ApprouveeLe(s'.demandes[i], u, piece, a) && !ApprouveeLe(s.demandes[i], u, piece, a) ==>
                  Approbation(u, piece, a) in Approbations(s, op, r, t))
  {
    var d, d' := s.demandes[i], Etape(cfg, s, op, t).0.demandes[i];
    if ApprouveeLe(d', u, piece, a) && !ApprouveeLe(d, u, piece, a) {
      assert DecisionPrise(cfg, d, d', t);
      DecisionVientDeDecider(cfg, s, op, t, i);
      assert Etape(cfg, s, op, t) == DeciderOp(cfg, s, op, t);
      DecisionEcrite(cfg, s, op, t);
    }
  }

  lemma ApprobationEnTable(cfg: Config, s: Base, op: Operation, t: int, x: Approbation)
    ensures var (s', r) := Etape(cfg, s, op, t);
            x in Approbations(s, op, r, t) ==> op.Decider? && op.id < |s'.demandes| && ApprouveeLe(s'.demandes[op.id], x.u, x.piece, x.instant)
  {
    if op.Decider? {
      assert Etape(cfg, s, op, t) == DeciderOp(cfg, s, op, t);
      DeciderEnvoie(cfg, s, op, t);
      if DeciderOp(cfg, s, op, t).1.Rendue? { DecisionEcrite(cfg, s, op, t); }
    }
  }

  lemma EtapeConnue(cfg: Config, s: Base, op: Operation, t: int, u: nat, piece: nat, a: int)
    requires TableCoherente(cfg, s.demandes)
    ensures var (s', r) := Etape(cfg, s, op, t);
            Connue(s'.demandes, u, piece, a) <==>
              Connue(s.demandes, u, piece, a) || Approbation(u, piece, a) in Approbations(s, op, r, t)
  {
    var (s', r) := Etape(cfg, s, op, t);
    EtapeEvolue(cfg, s, op, t);
    ApprobationEnTable(cfg, s, op, t, Approbation(u, piece, a));
    forall i | 0 <= i < |s.demandes| ensures
      && (ApprouveeLe(s.demandes[i], u, piece, a) ==> ApprouveeLe(s'.demandes[i], u, piece, a))
      && (ApprouveeLe(s'.demandes[i], u, piece, a) && !ApprouveeLe(s.demandes[i], u, piece, a) ==>
            Approbation(u, piece, a) in Approbations(s, op, r, t))
    {
      assert Evolution(cfg, s.demandes[i], s'.demandes[i], t);
      LigneConnue(cfg, s, op, t, i, u, piece, a);
    }
  }

  /** Only a decision call approves. */
  lemma DecisionVientDeDecider(cfg: Config, s: Base, op: Operation, t: int, i: nat)
    requires i < |s.demandes| <= |Etape(cfg, s, op, t).0.demandes|
    requires s.demandes[i].statut.EnAttente? && Etape(cfg, s, op, t).0.demandes[i].statut.Approuvee?
    ensures op.Decider? && op.id == i && Etape(cfg, s, op, t).1 == Rendue(i, Etape(cfg, s, op, t).0.demandes[i])
  {
  }

  lemma EtapeEchues(cfg: Config, s: Base, op: Operation, t0: int, t: int)
    requires TableCoherente(cfg, s.demandes) && ExpireesEchues(s.demandes, t0) && t0 <= t
    ensures ExpireesEchues(Etape(cfg, s, op, t).0.demandes, t)
  {
    var s' := Etape(cfg, s, op, t).0;
    EtapeEvolue(cfg, s, op, t);
    forall i | 0 <= i < |s'.demandes| && s'.demandes[i].statut.Expiree?
      ensures s'.demandes[i].expireLe.Some? && s'.demandes[i].expireLe.value <= t
    {
      assert i < |s.demandes|;
      assert Evolution(cfg, s.demandes[i], s'.demandes[i], t);
    }
  }

  lemma {:induction false} RunConnu(cfg: Config, s: Base, debut: int, appels: seq<Appel>, fin: int, u: nat, piece: nat, a: int)
    requires TableCoherente(cfg, s.demandes) && ExpireesEchues(s.demandes, debut)
    requires HorlogeCroissante(debut, appels) && debut <= fin && forall i :: 0 <= i < |appels| ==> appels[i].instant <= fin
    ensures var f := Executer(cfg, s, appels);
            && TableCoherente(cfg, f.demandes) && ExpireesEchues(f.demandes, fin)
            && (Connue(f.demandes, u, piece, a) <==>
                  Connue(s.demandes, u, piece, a) || Approbation(u, piece, a) in Historique(cfg, s, appels))
    decreases |appels|
  {
    if appels != [] {
      var op, t := appels[0].op, appels[0].instant;
      var m := Etape(cfg, s, op, t).0;
      EtapeEvolue(cfg, s, op, t);
      TableSuite(cfg, s.demandes, m.demandes, t);
      EtapeConnue(cfg, s, op, t, u, piece, a);
      EtapeEchues(cfg, s, op, debut, t);
      RunConnu(cfg, m, t, appels[1..], fin, u, piece, a);
    }
  }

  /** The latest of the open windows, the last request among equals. */
  lemma {:induction false} MeilleureFenetreDerniere(demandes: seq<Demande>, u: nat, piece: nat, t: int, n: nat)
    requires n <= |demandes|
    ensures var r := MeilleureFenetre(demandes, u, piece, t, n);
            r.Some? ==>
              (&& r.value < n && Ouvre(demandes[r.value], u, piece, t)
               && forall j :: 0 <= j < n && Ouvre(demandes[j], u, piece, t) ==>
                    || demandes[j].expireLe.value < demandes[r.value].expireLe.value
                    || (demandes[j].expireLe.value == demandes[r.value].expireLe.value && j <= r.value))
  {
    if n > 0 { MeilleureFenetreDerniere(demandes, u, piece, t, n - 1); }
  }

  /** An approved download of `piece` for `u` whose date is after `t`. */
  ghost predicate Fenetre(d: Demande, u: nat, piece: nat, t: int) {
    && d.typeDemande.Telechargement? && d.statut.Approuvee? && d.demandeur == u && d.piece == Some(piece)
    && d.expireLe.Some? && t < d.expireLe.value
  }

  /** The request through which a plain user is granted: open, of the latest date, the last of those. */
  ghost predicate Appliquee(demandes: seq<Demande>, u: nat, piece: nat, t: int, id: nat) {
    && id < |demandes| && Fenetre(demandes[id], u, piece, t)
    && forall j :: 0 <= j < |demandes| && Fenetre(demandes[j], u, piece, t) ==>
         || demandes[j].expireLe.value < demandes[id].expireLe.value
         || (demandes[j].expireLe.value == demandes[id].expireLe.value && j <= id)
  }

  lemma FenetresExpirees(avant: seq<Demande>, apres: seq<Demande>, u: nat, piece: nat, t: int)
    requires ExpireesLe(avant, apres, t) && |apres| == |avant|
    ensures forall i :: 0 <= i < |avant| ==> (Fenetre(avant[i], u, piece, t) <==> Ouvre(apres[i], u, piece, t))
    ensures forall i :: 0 <= i < |avant| && Fenetre(avant[i], u, piece, t) ==> apres[i] == avant[i]
  {
    forall i | 0 <= i < |avant| ensures
      (Fenetre(avant[i], u, piece, t) <==> Ouvre(apres[i], u, piece, t)) && (Fenetre(avant[i], u, piece, t) ==> apres[i] == avant[i])
    {
      assert ExpireeLe(avant[i], apres[i], t);
    }
  }

  /** Who is granted a piece, through which request, and what is stamped. */
  lemma AutorisationEcrite(s: Base, acteur: Acteur, piece: nat, get: bool, t: int)
    ensures var (s', r) := AutoriserTelechargementPiece(s, acteur, piece, get, t);
            match acteur
            case Service => r == Accord(None) && s' == s
            case Anonyme => r == Erreur(403) && s' == s
            case Nominatif(role, u) =>
              && (role.RoleApprobateur? ==> r == Accord(None) && s' == s)
              && (role.AutreRole? ==> r == Erreur(403) && s' == s)
              && (role.RoleUtilisateur? ==>
                    && ((exists i :: 0 <= i < |s.demandes| && Fenetre(s.demandes[i], u, piece, t)) <==> r.Accord?)
                    && (!r.Accord? ==> r == Erreur(403) && s' == s)
                    && (r.Accord? ==>
                          && r.demandeAppliquee.Some? && Appliquee(s.demandes, u, piece, t, r.demandeAppliquee.value)
                          && s' == s.(demandes := s'.demandes) && |s'.demandes| == |s.demandes|
                          && var k := r.demandeAppliquee.value;
                          && s'.demandes[k] == s.demandes[k].(executeeLe :=
                               if s.demandes[k].executeeLe.Some? then s.demandes[k].executeeLe else if get then Some(t) else None)
                          && forall i :: 0 <= i < |s.demandes| && i != k ==> ExpireeLe(s.demandes[i], s'.demandes[i], t)))
  {
    if acteur.Nominatif? && acteur.role.RoleUtilisateur? {
      var e := Expirer(s, t);
      ExpirerEcrit(s, t);
      FenetresExpirees(s.demandes, e.demandes, acteur.id, piece, t);
      MeilleureFenetreDerniere(e.demandes, acteur.id, piece, t, |e.demandes|);
      forall i | 0 <= i < |s.demandes| ensures ExpireeLe(s.demandes[i], e.demandes[i], t) {}
    }
  }

  /** Whether a plain user is granted a piece. */
  predicate Accede(s: Base, u: nat, piece: nat, get: bool, t: int) {
    !AutoriserTelechargementPiece(s, Nominatif(RoleUtilisateur, u), piece, get, t).1.Erreur?
  }

  /** Lazy expiry decides like the time-based definition. */
  lemma AccedeSelonLesDates(cfg: Config, s: Base, u: nat, piece: nat, get: bool, t: int)
    requires TableCoherente(cfg, s.demandes) && ExpireesEchues(s.demandes, t)
    ensures Accede(s, u, piece, get, t) <==>
            exists a :: Connue(s.demandes, u, piece, a) && t < a + DUREE_TELECHARGEMENT
  {
    var e := Expirer(s, t);
    if exists a :: Connue(s.demandes, u, piece, a) && t < a + DUREE_TELECHARGEMENT {
      var a :| Connue(s.demandes, u, piece, a) && t < a + DUREE_TELECHARGEMENT;
      var i :| 0 <= i < |s.demandes| && ApprouveeLe(s.demandes[i], u, piece, a);
      assert Coherente(cfg, s.demandes[i]);
      assert Ouvre(e.demandes[i], u, piece, t);
    }
    if Accede(s, u, piece, get, t) {
      var i := MeilleureFenetre(e.demandes, u, piece, t, |e.demandes|).value;
      assert Coherente(cfg, s.demandes[i]) && ApprouveeLe(s.demandes[i], u, piece, s.demandes[i].decideeLe.value);
      assert Connue(s.demandes, u, piece, s.demandes[i].decideeLe.value);
    }
  }

  /** A plain user is granted a piece at `t` exactly when the history holds a download
      approval for that user and piece less than 24 h old. */
  lemma AccesSsiApprouveDepuisMoinsDe24h(cfg: Config, debut: int, appels: seq<Appel>, u: nat, piece: nat, get: bool, t: int)
    requires HorlogeCroissante(debut, appels) && debut <= t && forall i :: 0 <= i < |appels| ==> appels[i].instant <= t
    ensures Accede(Executer(cfg, BASE_VIDE, appels), u, piece, get, t) <==>
            exists a :: Approbation(u, piece, a) in Historique(cfg, BASE_VIDE, appels) && t < a + DUREE_TELECHARGEMENT
  {
    var f := Executer(cfg, BASE_VIDE, appels);
    RunConnu(cfg, BASE_VIDE, debut, appels, t, u, piece, 0);
    AccedeSelonLesDates(cfg, f, u, piece, get, t);
    forall a ensures Connue(f.demandes, u, piece, a) <==> Approbation(u, piece, a) in Historique(cfg, BASE_VIDE, appels) {
      RunConnu(cfg, BASE_VIDE, debut, appels, t, u, piece, a);
    }
  }

  lemma {:induction false} HistoriqueConcat(cfg: Config, s: Base, a: seq<Appel>, b: seq<Appel>)
    ensures Executer(cfg, s, a + b) == Executer(cfg, Executer(cfg, s, a), b)
    ensures Historique(cfg, s, a + b) == Historique(cfg, s, a) + Historique(cfg, Executer(cfg, s, a), b)
    decreases |a|
  {
    if a == [] {
      assert a + b == b;
    } else {
      assert (a + b)[1..] == a[1..] + b;
      HistoriqueConcat(cfg, Etape(cfg, s, a[0].op, a[0].instant).0, a[1..], b);
    }
  }

  /** No sequence of calls, GET, HEAD and range requests included, shortens a window:
      what would be granted at `t` without them is granted at `t` after them. */
  lemma FenetreJamaisRaccourcie(cfg: Config, debut: int, appels: seq<Appel>, suite: seq<Appel>, u: nat, piece: nat, get: bool, t: int)
    requires HorlogeCroissante(debut, appels + suite) && debut <= t
    requires forall i :: 0 <= i < |appels + suite| ==> (appels + suite)[i].instant <= t
    requires Accede(Executer(cfg, BASE_VIDE, appels), u, piece, get, t)
    ensures Accede(Executer(cfg, BASE_VIDE, appels + suite), u, piece, get, t)
  {
    assert forall i :: 0 <= i < |appels| ==> appels[i] == (appels + suite)[i];
    AccesSsiApprouveDepuisMoinsDe24h(cfg, debut, appels, u, piece, get, t);
    AccesSsiApprouveDepuisMoinsDe24h(cfg, debut, appels + suite, u, piece, get, t);
    HistoriqueConcat(cfg, BASE_VIDE, appels, suite);
  }

  /** Everything above, of every state reachable from empty tables. */
  lemma EtatsAtteignables(cfg: Config, appels: seq<Appel>)
    ensures var f := Executer(cfg, BASE_VIDE, appels);
            && TableCoherente(cfg, f.demandes) && AttentesUniques(f.demandes)
            && JournalFidele(f) && NotificationsExactes(f)
  {
    VieDesDemandes(cfg, BASE_VIDE, appels);
    ExecutionsTracees(cfg, BASE_VIDE, appels);
    DecisionsNotifieesUneFois(cfg, BASE_VIDE, appels);
  }

  // ---------------------------------------------------------------------------
  // The service, writing the tables step by step
  // ---------------------------------------------------------------------------

  class Registre {
    const cfg: Config
    var demandes: seq<Demande>
    var notifications: seq<Notification>
    var fiches: map<nat, Fiche>
    var utilisateurs: seq<Utilisateur>
    var journal: seq<Trace>

    constructor (cfg: Config)
      ensures this.cfg == cfg && Etat() == BASE_VIDE
    {
      this.cfg := cfg;
      demandes, notifications, fiches, utilisateurs, journal := [], [], map[], [], [];
    }

    function Etat(): Base
      reads this
    {
      Base(demandes, notifications, fiches, utilisateurs, journal)
    }

    /** ROLLBACK. */
    method Retablir(b: Base)
      modifies this
      ensures Etat() == b
    {
      demandes, notifications, fiches, utilisateurs, journal :=
        b.demandes, b.notifications, b.fiches, b.utilisateurs, b.journal;
    }

    method ExpirerTelechargements(maintenant: int)
      modifies this`demandes
      ensures Etat() == Expirer(old(Etat()), maintenant)
    {
      ghost var avant := demandes;
      for i := 0 to |demandes|
        invariant |demandes| == |avant|
        invariant forall k :: 0 <= k < i ==> demandes[k] == ExpirerUne(avant[k], maintenant)
        invariant forall k :: i <= k < |avant| ==> demandes[k] == avant[k]
      {
        if Echue(demandes[i], maintenant) {
          demandes := demandes[i := demandes[i].(statut := Expiree)];
        }
      }
    }

    method InsererNotification(destinataire: nat, demande: nat, genre: Genre)
      modifies this`notifications
      ensures notifications == Notifier(old(notifications), destinataire, demande, genre)
    {
      notifications := notifications + [Notification(destinataire, demande, genre, None)];
    }

    method Creer(acteur: Acteur, motif: string, corps: Corps, maintenant: int) returns (r: Reponse)
      modifies this
      ensures (Etat(), r) == CreerDemande(old(Etat()), acteur, motif, corps, maintenant)
      ensures r.Erreur? ==> Etat() == old(Etat())
    {
      if !acteur.Nominatif? || acteur.role.AutreRole? {
        return Erreur(403);
      }
      if !TexteBorne(motif, 3, MOTIF_MAX) {
        return Erreur(422);
      }
      var debut := Etat();
      ExpirerTelechargements(maintenant);
      var b := Preparer(Etat(), acteur.id, motif, corps, maintenant);
      if b.Refuse? {
        Retablir(debut);
        return Erreur(b.code);
      }
      if DejaEnAttente(demandes, b.demande) {
        Retablir(debut);
        return Erreur(409);
      }
      var id := |demandes|;
      demandes := demandes + [b.demande];
      ghost var n0 := notifications;
      var destinataires := Approbateurs(utilisateurs, acteur.id);
      assert destinataires[0..] == destinataires;
      for i := 0 to |destinataires|
        modifies this`notifications
        invariant NotifierTous(n0, destinataires, id) == NotifierTous(notifications, destinataires[i..], id)
      {
        assert destinataires[i..][1..] == destinataires[i + 1..];
        InsererNotification(destinataires[i], id, NouvelleDemande);
      }
      r := Rendue(id, b.demande);
    }

    method Annuler(acteur: Acteur, id: nat) returns (r: Reponse)
      modifies this
      ensures (Etat(), r) == AnnulerDemande(old(Etat()), acteur, id)
      ensures r.Erreur? ==> Etat() == old(Etat())
    {
      if !acteur.Nominatif? {
        return Erreur(401);
      }
      if id >= |demandes| {
        return Erreur(404);
      }
      if demandes[id].demandeur != acteur.id {
        return Erreur(403);
      }
      if !demandes[id].statut.EnAttente? {
        return Erreur(409);
      }
      demandes := demandes[id := demandes[id].(statut := Annulee)];
      r := Rendue(id, demandes[id]);
    }

    /** The correction under the caller's cursor. The revision is advanced before propagation may
        refuse: a refusal then leaves a written fiche, for the caller's rollback to undo. */
    method CorrigerSousCurseur(fid: nat, champ: string, rang: Option<nat>, valeur: string, revision: Option<int>,
                               propagation: bool) returns (code: Option<nat>)
      requires fid in fiches
      modifies this`fiches
      ensures match CorrigerChamp(old(fiches)[fid], champ, rang, valeur, revision, cfg.exigerRevision, propagation)
              case Echec(c) => code == Some(c)
              case Applique(f) => code == None && fiches == old(fiches)[fid := f]
    {
      var f := fiches[fid];
      if revision.None? && cfg.exigerRevision { return Some(428); }
      if revision.Some? && revision.value < 1 { return Some(422); }
      if champ == "" { return Some(422); }
      if f.statut.Valide? || f.statut.Supprimee? { return Some(409); }
      var cible := TrouverChamp(f.champs, champ, rang);
      if cible.Refusee404? { return Some(404); }
      if cible.Refusee422? { return Some(422); }
      if revision.Some? && revision.value != f.revision { return Some(409); }
      fiches := fiches[fid := f.(revision := f.revision + 1)];
      if !propagation { return Some(422); }
      f := fiches[fid];
      fiches := fiches[fid := f.(champs := f.champs[cible.index := f.champs[cible.index].(valeur := valeur)])];
      code := None;
    }

    /** The execution of an approved request, in the transaction of the decision. */
    method Executer(d: Demande, confirmee: Option<int>, propagation: bool) returns (code: Option<nat>)
      requires d.fiche.Some? && d.fiche.value in fiches
      modifies this`fiches
      ensures match ExecuterSur(cfg, d, old(fiches)[d.fiche.value], confirmee, propagation)
              case Echec(c) => code == Some(c)
              case Applique(f) => code == None && fiches == old(fiches)[d.fiche.value := f]
    {
      var revision := confirmee.OrElse(d.revision);
      if d.typeDemande.Modification? {
        code := CorrigerSousCurseur(d.fiche.value, d.champ, d.rang, d.valeur, revision, propagation);
      } else {
        var effet := SupprimerFiche(fiches[d.fiche.value], revision, cfg.exigerRevision);
        if effet.Echec? { return Some(effet.code); }
        fiches := fiches[d.fiche.value := effet.fiche];
        code := None;
      }
    }

    /** Every refusal, the late ones of the execution included, restores every table. */
    method Decider(acteur: Acteur, id: nat, approuver: bool, commentaire: string, confirmee: Option<int>,
                   propagation: bool, maintenant: int) returns (r: Reponse)
      modifies this
      ensures (Etat(), r) ==
              DeciderDemande(cfg, old(Etat()), acteur, id, approuver, commentaire, confirmee, propagation, maintenant)
      ensures r.Erreur? ==> Etat() == old(Etat())
    {
      if !acteur.Nominatif? || !acteur.role.RoleApprobateur? {
        return Erreur(403);
      }
      if !TexteBorne(commentaire, 0, COMMENTAIRE_MAX) || (!approuver && commentaire == "") {
        return Erreur(422);
      }
      if confirmee.Some? && !(0 <= confirmee.value <= ENTIER_MAX) {
        return Erreur(422);
      }
      var debut := Etat();
      ExpirerTelechargements(maintenant);
      if id >= |demandes| {
        Retablir(debut);
        return Erreur(404);
      }
      var d := demandes[id];
      if !d.statut.EnAttente? {
        Retablir(debut);
        return Erreur(409);
      }
      if d.demandeur == acteur.id && !cfg.autoApprobation {
        Retablir(debut);
        return Erreur(403);
      }
      if !approuver {
        demandes := demandes[id := Decidee(d, Refusee, acteur.id, commentaire, maintenant)];
        InsererNotification(d.demandeur, id, Decision);
      } else if d.typeDemande.Telechargement? {
        var approuvee := Decidee(d, Approuvee, acteur.id, commentaire, maintenant);
        demandes := demandes[id := approuvee.(expireLe := Some(maintenant + DUREE_TELECHARGEMENT))];
        InsererNotification(d.demandeur, id, Decision);
      } else {
        if d.fiche.None? || d.fiche.value !in fiches {
          Retablir(debut);
          return Erreur(409);
        }
        var revisionLue := fiches[d.fiche.value].revision;
        var code := Executer(d, confirmee, propagation);
        if code.Some? {
          Retablir(debut);
          return Erreur(code.value);
        }
        journal := journal + [Trace(id, d.fiche.value, acteur.id, revisionLue, confirmee)];
        demandes := demandes[id := Decidee(d, Executee, acteur.id, commentaire, maintenant).(executeeLe := Some(maintenant))];
        InsererNotification(d.demandeur, id, Execution);
      }
      r := Rendue(id, demandes[id]);
    }

    method AutoriserPiece(acteur: Acteur, piece: nat, get: bool, maintenant: int) returns (r: Reponse)
      modifies this
      ensures (Etat(), r) == AutoriserTelechargementPiece(old(Etat()), acteur, piece, get, maintenant)
      ensures r.Erreur? ==> Etat() == old(Etat())
    {
      if acteur.Service? || (acteur.Nominatif? && acteur.role.RoleApprobateur?) {
        return Accord(None);
      }
      if !acteur.Nominatif? || !acteur.role.RoleUtilisateur? {
        return Erreur(403);
      }
      var debut := Etat();
      ExpirerTelechargements(maintenant);
      var choix: Option<nat> := None;
      for n := 0 to |demandes|
        invariant choix == MeilleureFenetre(demandes, acteur.id, piece, maintenant, n)
      {
        if Ouvre(demandes[n], acteur.id, piece, maintenant) {
          if choix.None? || demandes[n].expireLe.value >= demandes[choix.value].expireLe.value {
            choix := Some(n);
          }
        }
      }
      if choix.None? {
        Retablir(debut);
        return Erreur(403);
      }
      var id := choix.value;
      if get && demandes[id].executeeLe.None? {
        demandes := demandes[id := demandes[id].(executeeLe := Some(maintenant))];
      }
      r := Accord(Some(id));
    }

    method MarquerLue(acteur: Acteur, id: nat, maintenant: int) returns (r: Reponse)
      modifies this`notifications
      ensures (Etat(), r) == MarquerNotificationLue(old(Etat()), acteur, id, maintenant)
    {
      if !acteur.Nominatif? {
        return Erreur(401);
      }
      if id >= |notifications| || notifications[id].destinataire != acteur.id {
        return Erreur(404);
      }
      if notifications[id].lueLe.None? {
        notifications := notifications[id := notifications[id].(lueLe := Some(maintenant))];
      }
      assert notifications == old(notifications)[id := Lire(old(notifications)[id], acteur.id, maintenant)];
      r := Fait;
    }

    method MarquerToutesLues(acteur: Acteur, maintenant: int) returns (r: Reponse)
      modifies this`notifications
      ensures (Etat(), r) == MarquerNotificationsLues(old(Etat()), acteur, maintenant)
    {
      if !acteur.Nominatif? {
        return Erreur(401);
      }
      var marquees := 0;
      ghost var avant := notifications;
      for i := 0 to |notifications|
        invariant |notifications| == |avant|
        invariant forall k :: 0 <= k < i ==> notifications[k] == Lire(avant[k], acteur.id, maintenant)
        invariant forall k :: i <= k < |avant| ==> notifications[k] == avant[k]
        invariant marquees == NonLues(avant[..i], acteur.id)
      {
        assert avant[..i + 1][..i] == avant[..i];
        if notifications[i].destinataire == acteur.id && notifications[i].lueLe.None? {
          notifications := notifications[i := notifications[i].(lueLe := Some(maintenant))];
          marquees := marquees + 1;
        }
      }
      assert avant[..|avant|] == avant && notifications == LireToutes(avant, acteur.id, maintenant);
      r := Marquees(marquees);
    }
  }
}
