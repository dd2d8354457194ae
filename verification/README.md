# Verified model of the SEAMTECH search services

This project models the stateful services and algorithms of the sail-loft document search
application and proves the properties its documentation and tests promise. The results hold for
every input, every run or every reachable state; the few rows that state one concrete instance
say so, and each stands beside the general result it illustrates. `dafny verify dfyconfig.toml`
checks everything.

| module | what it models |
|---|---|
| `AuditChain` | the append-only audit log chained by digest (SHA-256, FIPS 180-4 section 6.2, is a parameter), its concurrent writers under an advisory lock, the migration of the old log |
| `Approvals` | the approval protocol: requests, decisions, execution on the fiche, 24 h download windows, notifications |
| `Limiter` | the in-process sliding-window rate limiter and its Retry-After value |
| `UploadPlan` | path sanitising and collision analysis of a grouped upload, against the trees it is written to |
| `Projections` | sail and accessory extractions: idempotent upsert, automatic resolution, human links, corrections, reclassification |
| `Descriptors` | confined opening, verified copy, ownership of descriptors and remote bodies in the two download routes |
| `RobustStats`, `ReuseConfidence`, `ReuseVerdict` | quantiles, MAD, IQR, scores and the verdict on a reference population, and the same verdict written out from the population |
| `Families`, `Duplicates` | greedy clustering of template families, duplicate accounting |
| `Crawl`, `Indexing` | the pruned archive walk, the batched indexing run and its rollback |
| `LeastDepth` | the queue search for the highest directory that holds a PDF |
| `Options`, `Sorting`, `Paths` | optional values, Python's stable sort, paths as components and as strings |

Names are those of the original, in ASCII. SQL tables are maps or sequences held in classes; a
transaction is one method, and a raised error restores the state it started from. Each method
that writes state is proved equal to a step function on the old state, and the theorems are
about runs of those steps. Each step function is itself pinned by a lemma that writes its result
out in the columns of the rows, without the function or its helpers (`...Ecrit`, `...Ecrite`,
`Erreurs...`). Where the original is nondeterministic (a system call that may fail,
a disk that moves between two calls, a stream that lies), the model chooses freely.

Nothing is assumed without being visible: laws that a theorem needs of an abstracted function
(`exp` monotone, path folding that keeps separators out) are preconditions, and the digest
theorems hold for any digest function, with an explicit pair of colliding payloads as the only
way out.

Where the documentation says more than the code does, the code was followed:

* Working zones: the comments of `crawl` promise that a symbolic link never reaches a working
  zone. Directories are indeed never produced inside one, but files are not compared with the
  zones, so a file that is a link into a zone is produced. `Crawl.HorsZones` gives the exact
  exception, `Crawl.LienVersZoneProduit` an instance.
* Rate limit: a window of 60 s holds at most the limit when its older bound is excluded. With
  both bounds included the limit holds exactly for windows shorter than 60 s
  (`Limiter.FermeeTenueSsiPlusCourte`); at 60 s twice the limit is the bound, reached for every
  limit.
* Human links: a reclassification drops a human link whose row carries no correction
  (`Projections.LienHumainSansCorrectionPerdu`), and nothing else but a decision does
  (`Projections.LienHumainPerdure`).
* Identities: both upserts can replace a known document, fiche or digest by another value, and
  the accessory upsert can empty it; `Projections.IdentitePerdueSsi` says exactly when.
* Descriptors: the routes lose a descriptor when `os.fdopen` itself raises, exactly then in
  `get_import_artifact`; in `GET /open` also, and only, when a copy had succeeded and closing its
  remote body is then interrupted.
* Upload conflicts: the docstring of `analyser_collisions` lists a third family that has no
  branch of its own; the two that exist are exact.

## Model

| member | source | states |
|---|---|---|
| AuditChain.NormaliserStocke | seamtech_search/audit.py:162-247 | the columns digested and stored are those of the event, one by one, absent texts as "" and absent details as {}, and no other columns are |
| AuditChain.ChargeFidele | seamtech_search/audit.py:162-184 | two digested payloads are equal exactly when the events agree on every column up to those four defaults and the predecessors are equal |
| AuditChain.TeteScelleHistoire | seamtech_search/audit.py:162-194 | two logs that recompute and end on the same digest agree row by row whatever their lengths, or two of their payloads collide |
| AuditChain.AlterationVisible | seamtech_search/audit.py:162-194 | any edit of a stored column, removal, insertion or reordering below an unchanged tip makes recomputation fail, short of a collision |
| AuditChain.RepetitionImpliqueCollision | seamtech_search/audit.py:197-247 | a digest can come back in one chain only through a collision |
| AuditChain.SansFourche | seamtech_search/audit.py:197-247 | in a chain with distinct digests no two rows name the same predecessor |
| AuditChain.EtapeGardeInv | seamtech_search/audit.py:197-247 | every step of every writer (lock, read tip, insert, commit, rollback) keeps mutual exclusion, the chain seen by the lock holder and the freshness of the tip it read; committed rows are only appended to |
| AuditChain.EtapeEcrite | seamtech_search/audit.py:197-247 | each step written out: who gets the lock, which tip is read, which row is added with which columns and where, what a commit publishes and a rollback leaves |
| AuditChain.TouteExecutionEnchaine | seamtech_search/audit.py:197-247 | for any number of writers and any interleaving the committed log is one chain with distinct digests, extending the one before |
| AuditChain.UneSeuleChaine | seamtech_search/audit.py:197-247 | from the empty table: the first row has no predecessor, each later one names the row just before it, and no row has two successors |
| AuditChain.InsertionRefuseeParCollisionSeulement | seamtech_search/audit.py:197-247 | the unique index refuses an event only if two payloads collide |
| AuditChain.EtapesDUneInsertion | seamtech_search/audit.py:197-247 | reading the tip and inserting under the lock is one atomic insertion on the holder's view |
| AuditChain.TableAudit.InsererAuditLogs | seamtech_search/audit.py:197-247 | appends one row whose columns are those of the event, that names the last digest and carries the digest of its own payload, or changes no row when that digest is already present; the table keeps recomputing |
| AuditChain.MigrationEnchaine | seamtech_search/audit.py:250-307 | the migrated history is a chain that holds every old row once, each with its own columns, in (timestamp, id) order |
| AuditChain.MigrationUnique | seamtech_search/audit.py:250-307 | the physical order of the old table does not matter, and migrating again adds nothing |
| AuditChain.EchecImpliqueCollision | seamtech_search/audit.py:250-307 | the migration can be refused by the unique index only if two payloads collide |
| AuditChain.TableAudit.MigrerAuditLog | seamtech_search/audit.py:250-307 | copies nothing into a non-empty log; otherwise writes the migrated chain and counts it, or leaves the table empty |
| Approvals.CreationEcrite | seamtech_search/approbations.py:407-508 | a request is created exactly for a known role, a bounded motive, a valid body and no pending duplicate; the new row holds the piece, field, rank, value, revision, motive, author and date asked, and nothing else changes but expiry |
| Approvals.ErreursCreation | seamtech_search/approbations.py:342-508 | a refused creation changes nothing and answers the code of the first cause: 403, 422, then the body's 404, 409 or 422, then 409 for a duplicate |
| Approvals.AnnulationEcrite | seamtech_search/approbations.py:590-613 | a cancellation goes through exactly for the requester of a pending request, and changes that status only |
| Approvals.ErreursAnnulation | seamtech_search/approbations.py:590-613 | each of 401, 404, 403 and 409 is answered exactly for its cause |
| Approvals.DecisionAccepteeSsi | seamtech_search/approbations.py:616-763 | a decision is accepted exactly for an approver, a bounded comment (required to refuse), a pending request not one's own short of self-approval, and, when it executes, an executable change |
| Approvals.DecisionEcrite | seamtech_search/approbations.py:675-763 | the row decided is refused exactly when the call refuses, approved for 24 h exactly when the call approves a download, executed otherwise, with the call's decider, comment and date; other rows are only expired and the requester is notified once |
| Approvals.ErreursDecision | seamtech_search/approbations.py:616-763 | a refused decision changes nothing and answers the code of the first cause, execution included |
| Approvals.ErreursExecution | seamtech_search/fiches/routes.py:623-800 | the code of a refused execution: 428, 422, 409, 404 or 422 for the field, 409 for the revision, 422 for the propagation, in that order |
| Approvals.ExecutableSsi | seamtech_search/fiches/routes.py:623-800 | an execution goes through exactly on a fiche that is open enough, under its current revision, for a field designated without ambiguity |
| Approvals.ExpirerEcrit | seamtech_search/approbations.py:246-251 | every row past its date becomes expired, and nothing else changes |
| Approvals.EtapeEvolue | seamtech_search/approbations.py:246-251 | in one transaction every existing row keeps its object and changes only along the lifecycle, and at most one row, pending and not a duplicate of a pending one, is added |
| Approvals.VieDesDemandes | seamtech_search/approbations.py:590-771 | over every run: refused, cancelled, executed and expired rows never change again, an approval can only expire, only downloads expire and only the others execute, a decider is recorded once and is the requester only under self-approval, nobody has two pending requests for one object |
| Approvals.EchecNeChangeRien | seamtech_search/approbations.py:646-763 | in the step function, a call that ends in an error leaves every table as it was; the methods below, which write before they refuse, are proved to roll back to it |
| Approvals.ExecutionFaitLaDemande | seamtech_search/approbations.py:646-763 | an execution makes the requested change and no other, at the stored or confirmed revision, and advances the revision by one |
| Approvals.FicheChangeParExecution | seamtech_search/approbations.py:646-763 | through requests a fiche changes only by an execution, which marks exactly one pending request executed and writes one trace |
| Approvals.ExecutionsTracees | seamtech_search/approbations.py:646-763 | in every reachable state traces and executed requests correspond one to one, each at the revision stored or confirmed |
| Approvals.DecisionsNotifieesUneFois | seamtech_search/approbations.py:675-763 | in every reachable state each decided request has notified its requester exactly once, of the right kind, and nobody else was told of a decision |
| Approvals.ApprobateursExacts | seamtech_search/approbations.py:481-496 | the recipients of a creation are the other active approvers, each once |
| Approvals.CreationAnnonceeUneFois | seamtech_search/approbations.py:481-496 | a creation notifies each other active approver exactly once and nobody else, whatever happens later |
| Approvals.LireToutesExact | seamtech_search/approbations.py:873-890 | marking all read leaves the caller with none unread and touches nobody else's notifications nor those already read |
| Approvals.MarquerToutesEcrit | seamtech_search/approbations.py:873-890 | the unread notifications of the caller are counted, dated now, and no other changes |
| Approvals.MarquerUneEcrit | seamtech_search/approbations.py:852-870 | one notification of the caller is dated, an earlier date kept; 401 and 404 otherwise |
| Approvals.AccedeSelonLesDates | seamtech_search/approbations.py:774-814 | lazy expiry grants exactly what the approval dates grant |
| Approvals.AutorisationEcrite | seamtech_search/approbations.py:774-814 | services and approvers are granted without a request, anonymous callers and other roles refused; a plain user is granted exactly with an open window, through the one that ends last (the newest among equals), and a GET stamps its first use only |
| Approvals.AccesSsiApprouveDepuisMoinsDe24h | seamtech_search/approbations.py:694-712 | a plain user is granted a piece at t exactly when the history of calls and answers holds an approval for that user and piece less than 24 h old |
| Approvals.FenetreJamaisRaccourcie | seamtech_search/approbations.py:774-814 | no sequence of calls, GET, HEAD and range requests included, shortens a window |
| Approvals.EtatsAtteignables | seamtech_search/approbations.py:407-814 | all these invariants hold together in every state reachable from empty tables |
| Approvals.Registre.ExpirerTelechargements | seamtech_search/approbations.py:246-251 | expires exactly the approved downloads whose date has passed |
| Approvals.Registre.Creer | seamtech_search/approbations.py:407-508 | the new tables and the answer are those of the creation step; a refusal restores every table |
| Approvals.Registre.Annuler | seamtech_search/approbations.py:590-613 | cancels a pending request of the caller, or refuses with the right code |
| Approvals.Registre.CorrigerSousCurseur | seamtech_search/fiches/routes.py:623-728 | corrects one field under the expected revision or refuses with the right code; the revision is written before propagation may still refuse |
| Approvals.Registre.Decider | seamtech_search/approbations.py:616-771 | the decision, the execution and its notification in one transaction; every refusal, one that comes after a write to the fiche included, restores every table |
| Approvals.Registre.AutoriserPiece | seamtech_search/approbations.py:774-814 | grants through the latest open window and stamps the first GET |
| Approvals.Registre.MarquerLue | seamtech_search/approbations.py:852-870 | marks one notification of the caller, keeping an earlier reading date |
| Approvals.Registre.MarquerToutesLues | seamtech_search/approbations.py:873-890 | marks and counts the caller's unread notifications |
| Limiter.AccepteeSsiPlace | seamtech_search/api.py:421-442 | over every run, a request is accepted exactly when fewer than the limit of its key's requests were accepted in the last 60 s; otherwise it is told the seconds until the oldest of them leaves, rounded up past the instant |
| Limiter.BalayageInvisible | seamtech_search/api.py:421-442 | over every run with a non-decreasing clock the swept dictionary gives the decisions, Retry-After included, of a history that is never pruned |
| Limiter.AuPlusLimiteParFenetre | seamtech_search/api.py:421-442 | every key has at most the limit of accepted requests in any 60 s window, older bound excluded |
| Limiter.AuPlusLimiteParFenetreFermee | seamtech_search/api.py:421-442 | over every run, for every key and limit, a window with both bounds included holds at most the limit below 60 s, and at most twice the limit at 60 s |
| Limiter.DoubleLimiteAtteinte | seamtech_search/api.py:421-442 | for every limit and key a run puts twice the limit in a closed window of 60 s or more |
| Limiter.FermeeTenueSsiPlusCourte | seamtech_search/api.py:421-442 | closed windows of a given length hold at most the limit over all runs exactly when that length is below 60 s |
| Limiter.RetryAfterHonnete | seamtech_search/api.py:433-438 | after any run a refused client whose key sees nothing else is accepted from Retry-After on and still refused until a second before it; the value lies in 1..61 |
| Limiter.Limiteur.Verifier | seamtech_search/api.py:421-442 | sweeps, decides and stores as one step of the swept dictionary |
| Limiter.Limiteur.BalayerTout | seamtech_search/api.py:424-431 | the in-place sweep leaves exactly the recent instants of the keys that have some |
| UploadPlan.CheminSurEcrit | seamtech_search/api.py:2216-2219 | the planned path component by component: cut at slashes and backslashes, empty, dot and dot-dot components dropped, each other one cleaned in place (disallowed characters underscored, blanks and dots trimmed, "file" when nothing is left) |
| UploadPlan.CheminOrdinaireGarde | seamtech_search/api.py:2216-2219 | a name made of ordinary components of allowed characters is planned as those components |
| UploadPlan.CheminSurOrdinaire | seamtech_search/api.py:2216-2219 | any client file name becomes a non-empty list of plain names |
| UploadPlan.StrictementSousDepot | seamtech_search/api.py:2216-2219 | every planned path resolves strictly below the staging directory, to the planned place |
| UploadPlan.SansPerteSsiSansConflit | seamtech_search/api.py:1402-1423 | writing a plan one file after another succeeds and keeps every file exactly when no key is another key or a directory of it |
| UploadPlan.SansPerteSurArbrePlusFin | seamtech_search/api.py:2222-2231 | such a plan is lossless on any tree that distinguishes at least as many names, a case-sensitive one in particular |
| UploadPlan.ConflitReel | seamtech_search/api.py:2255-2289 | every listed conflict names the first upload of its key and one that cannot be kept beside it: a later one of equal key, or one that needs a directory of that name |
| UploadPlan.ConflitSignale | seamtech_search/api.py:2255-2289 | every pair of uploads that cannot both be kept has its key listed |
| UploadPlan.AccepteSsiSansPerte | seamtech_search/api.py:2234-2289 | the list of conflicts is empty exactly when sequential writing into a case-insensitive tree loses nothing |
| UploadPlan.AccepteSsiDistincts | seamtech_search/api.py:2234-2289 | an upload is accepted exactly when, names compared folded, no planned path is another one or one of its directories |
| UploadPlan.EnvoiAccepteSansPerte | seamtech_search/api.py:1373-1423 | for any client file names an accepted upload is written without loss on both kinds of tree |
| UploadPlan.AnalyserCollisions | seamtech_search/api.py:2255-2289 | the two passes compute exactly that list of conflicts, in order |
| Projections.DecisionDesPreuves | seamtech_search/liaison_voile.py:256-310 | the five outcomes of the automatic resolution, from the trimmed label, the exact match and the boat of the fiche: no label, agreement, disagreement, one of the two, neither with near labels or without |
| Projections.ResolutionEcrite | seamtech_search/liaison_voile.py:324-362 | the resolution writes that outcome, dated when it gives a model, and never over a human link |
| Projections.RechercheEcrite | seamtech_search/extractions_voile.py:1047-1063 | the lookup finds a row of the same version that shares a known document, fiche or digest, whenever there is one: the strongest evidence for a sail, the oldest among equals |
| Projections.EnregistrementEcrit | seamtech_search/extractions_voile.py:1126-1161 | a recording writes one row, column by column: what a sail keeps, what an accessory overwrites, the label and data recorded, the human link kept or the new one decided |
| Projections.MemeCleMemeIdentite | seamtech_search/extractions_voile.py:327-341 | extractions with one idempotence key are named by the same kind of identity, the same document or fiche and version, or at one version the same digest or content |
| Projections.DocumentLieEcrit | seamtech_search/extractions_voile.py:1073-1080 | linking the source document touches the rows of that fiche and version and three columns of them |
| Projections.EnregistrerDeuxFois | seamtech_search/extractions_voile.py:1126-1172 | recording an extraction twice returns the same identifier and leaves the table as after the first time, dates aside, for both families, every table and every combination of identities |
| Projections.IdentiteChangeSsi | seamtech_search/extractions_voile.py:1009-1018 | for both families and for document, fiche and digest: a recording changes the column of a row exactly when it writes that row, brings another value, and is for an accessory or brings a value at all; the new value is then the one brought |
| Projections.EcritSsiVise | seamtech_search/extractions_voile.py:1135-1161 | with unique keys, the row written is the one an identity finds, by priority, else the one that has the key |
| Projections.IdentitePerdueSsi | seamtech_search/accessoires.py:483-489 | the same exact condition in terms a caller can check before recording |
| Projections.IdentitesVoileConservees | seamtech_search/extractions_voile.py:1009-1018 | recording a sail leaves no known document, fiche or digest empty; it may replace it by the one recorded |
| Projections.IdentiteVoileRemplacee | seamtech_search/extractions_voile.py:1009-1018 | one instance: a sail found again by its fiche takes the new document for the one it knew |
| Projections.IdentiteAccessoireOubliee | seamtech_search/accessoires.py:483-489 | one instance: an accessory found again by its fiche forgets its document |
| Projections.LiensCoherents | seamtech_search/accessoires.py:602-701 | in every state of every run, the reference tables changing at will from call to call, a link is human exactly when an author is stored, dated exactly when a model is stored, and its method fits its status |
| Projections.LiaisonEcrite | seamtech_search/accessoires.py:648-701 | a human link stores the model chosen, its author, its date and its method, on that row alone; without a known model or row nothing changes |
| Projections.LienDuDernierAppel | seamtech_search/accessoires.py:602-804 | over every run, a human-linked row carries the model, author and date of the last linking call on it, or the human link it started with when there is none |
| Projections.CorrectionEcrite | seamtech_search/accessoires.py:738-810 | what is accepted, exactly; then the corrected column holds the corrected value, other columns stand (short of the measures a dimensions text implies), a corrected label is resolved anew, and one correction is recorded |
| Projections.LienHumainProtege | seamtech_search/accessoires.py:602-804 | a human link survives every call unchanged, except a decision on that row and a reclassification that goes through and takes the row |
| Projections.CorrectionsConservees | seamtech_search/accessoires.py:1022-1071 | no call deletes a correction: a reclassification never takes a projection that carries one |
| Projections.LienHumainPerdure | seamtech_search/accessoires.py:602-1071 | over every run without another decision on the row, reference tables changing at will, a human link is unchanged at the end, unless a reclassification of the run took the row, and then the row is gone |
| Projections.LienHumainSansReclassement | seamtech_search/accessoires.py:602-804 | over every run of record, resolve, link and correct calls without another decision on the row, any human link is unchanged |
| Projections.LienHumainCorrigePerdure | seamtech_search/accessoires.py:738-1071 | when the row carries a correction this holds with reclassifications too |
| Projections.LienHumainSansCorrectionPerdu | seamtech_search/accessoires.py:1022-1071 | one instance: without a correction a reclassification drops a human link |
| Projections.ReclassementDeplace | seamtech_search/accessoires.py:1022-1071 | a reclassification that goes through leaves the fiche no row in the old family and one in the new |
| Projections.ReclassementEcrit | seamtech_search/accessoires.py:985-1085 | what is accepted, exactly; then the old family loses the rows of the fiche and no other, corrections stand, and the rebuilt extraction, completed from the oldest row column by column, is recorded in the new family |
| Projections.Registre.UpsertExtraction | seamtech_search/extractions_voile.py:1126-1161 | lookup by identity then upsert: the row, its identifier and everything else unchanged |
| Projections.Registre.EnregistrerExtraction | seamtech_search/accessoires.py:509-546 | the upsert and the resolution are one recording step |
| Projections.Registre.ResoudreLiaison | seamtech_search/liaison_voile.py:324-362 | applies the automatic decision, never over a human link |
| Projections.Registre.LierParHumain | seamtech_search/accessoires.py:648-701 | writes the human link on a known row with a known model, or nothing |
| Projections.Registre.CorrigerChamp | seamtech_search/accessoires.py:738-810 | writes the corrected column, appends the correction, and re-resolves a changed label |
| Projections.Registre.ChangerCategorieFiche | seamtech_search/accessoires.py:985-1085 | deletes, recategorises and rebuilds in one transaction, or refuses |
| Descriptors.RacineChoisie | seamtech_search/fichiers_securises.py:28-32 | finds an allowed root strictly above the target whenever there is one, and the deepest |
| Descriptors.AtteintSuivant | seamtech_search/fichiers_securises.py:35-45 | one more component opened without following a link extends a path walked name by name through real directories, on a disk that moves |
| Descriptors.Systeme.Descendre | seamtech_search/import_pipeline.py:1009-1025 | on every path the descriptor in hand is the only one kept, or is closed; success means a real directory reached without a link, and is certain on a still disk with real directories |
| Descriptors.Systeme.ExigerOrdinaire | seamtech_search/fichiers_securises.py:46-56 | keeps exactly an ordinary file seen with one name, closes anything else |
| Descriptors.Systeme.OuvrirConfine | seamtech_search/fichiers_securises.py:19-56 | one descriptor more on success, none on any exception; what is opened is an ordinary single-name file under an allowed root, reached from "/" without following a link; a servable target on a still disk is opened |
| Descriptors.Systeme.CopieFluxVerifiee | seamtech_search/fichiers_securises.py:58-92 | terminates on any stream, draws at most one byte over the limit from one that honours sizes, and succeeds exactly when nothing failed and the drawn bytes fit the limit and the digest; the copy holds exactly those bytes, at its start |
| Descriptors.Systeme.LocalVerifie | seamtech_search/api.py:873-876 | the source is closed on every path, and lost exactly when `fdopen` raises; the copy succeeds exactly when nothing failed and the bytes read fit the limit and the digest, a servable target on a still disk is read, and a refusal without a failure is one the routes catch |
| Descriptors.Systeme.DistantVerifie | seamtech_search/api.py:881-887 | the remote body is closed on every path; a copy that succeeded outlives it, and an interrupted closing after it is counted; without a failure a body is read, and the copy is made exactly when its bytes fit the limit and the digest |
| Descriptors.Systeme.OuvrirCapture | seamtech_search/api.py:872-899 | one verified descriptor, owned by the response, or none; a verified local copy is the one served; after a refused local file the stored object is read and served exactly when its bytes are the expected ones, only a later failure preventing it, and without a stored object the answer is the 404; no remote body stays open; as many descriptors are lost as `fdopen` raised and successful copies had their body's closing interrupted |
| Descriptors.Systeme.OuvrirOrdinaire | seamtech_search/api.py:910-920 | one confined descriptor owned by the response, or none; without a failure a servable target is served, and the only refusal is the 409 |
| Descriptors.Systeme.ServirArtefact | seamtech_search/api.py:1830-1876 | one descriptor or one remote body, owned by the response, or neither, on every exception path; what is served is verified or confined; the local file is served when it can be, else the stored object, exactly when its bytes are the expected ones or no digest is known, only a later failure preventing it; a descriptor is lost exactly when `fdopen` raises |
| Descriptors.Systeme.Telecharger | seamtech_search/fichiers_securises.py:95-147 | after a whole download, sending included, the process holds what it held before, and what `fdopen` lost |
| Descriptors.ReponseFlux.Fermer | seamtech_search/fichiers_securises.py:107-117 | any number of calls closes the remote body exactly once; only an interruption escapes |
| RobustStats.ResumeEcrit | seamtech_search/confiance_reutilisation.py:74-116 | the whole summary from the sorted values: extremes, median and quartiles at quarter ranks, interquartile range, and the median of the sorted deviations |
| RobustStats.QuantileMonotone | seamtech_search/confiance_reutilisation.py:74-85 | the interpolated quantile grows with p and stays between minimum and maximum |
| RobustStats.QuantileAffine | seamtech_search/confiance_reutilisation.py:74-85 | it commutes with shift and positive scaling |
| RobustStats.ResumeOrdonne | seamtech_search/confiance_reutilisation.py:88-116 | min, q1, median, q3, max are in order and both spreads are non-negative |
| RobustStats.ResumeIgnoreOrdre | seamtech_search/confiance_reutilisation.py:88-116 | the summary does not depend on input order |
| RobustStats.ResumeAffine | seamtech_search/confiance_reutilisation.py:88-116 | shift and positive scaling move the centre and scale the spreads |
| RobustStats.MedianeCroissante | seamtech_search/confiance_reutilisation.py:88-116 | the median never falls when no value falls |
| RobustStats.MedianeRobuste | seamtech_search/confiance_reutilisation.py:88-116 | whatever is written over fewer than half of the values, the median stays within the range of the others |
| ReuseConfidence.StatistiquesOrdonnees | seamtech_search/confiance_reutilisation.py:88-116 | order and signs survive rounding |
| ReuseConfidence.ScoreDecroissant | seamtech_search/confiance_reutilisation.py:119-144 | a dimension score lies in 0..100 and never rises as the gap to the median grows, in the Gaussian, exact and linear branches |
| ReuseConfidence.EvaluationIgnoreOrdre | seamtech_search/confiance_reutilisation.py:236-315 | score, verdict and every statistic shown are the same for every ordering of the population |
| ReuseConfidence.VerdictHonnete | seamtech_search/confiance_reutilisation.py:271-315 | a score exists exactly for compatible and to-examine, lies in 0..100 and is compatible exactly from 75; the two other verdicts are given exactly for too few samples or scores and for at least half of the common dimensions dispersed |
| ReuseConfidence.MajoriteDecide | seamtech_search/confiance_reutilisation.py:291-303 | when a score is given, more than half of the scored dimensions at 75 or above give compatible, more than half below give to-examine, all roundings included |
| ReuseConfidence.EloignementNeRemontePas | seamtech_search/confiance_reutilisation.py:130-315 | a candidate nowhere closer to the medians is never scored higher and never becomes compatible |
| ReuseConfidence.EvaluerPopulation | seamtech_search/confiance_reutilisation.py:236-315 | the loop over dimensions computes that evaluation |
| ReuseVerdict.StatistiquesEcrites | seamtech_search/confiance_reutilisation.py:88-116 | every statistic shown is the exact one to three decimals, halves to even |
| ReuseVerdict.ScoreDimensionEcrit | seamtech_search/confiance_reutilisation.py:119-144 | the score of a value: 100·exp(-z²/2) to one decimal with z the gap over IQR/1.349, else over 1.4826·MAD; with both zero 100 at the median, 0 from 10 % of it away (0.1 around zero), linear in between |
| ReuseVerdict.HeterogeneEcrit | seamtech_search/confiance_reutilisation.py:147-156 | dispersed exactly when the IQR exceeds 7.5 % of the median, or is not zero around a zero median |
| ReuseVerdict.LignesEcrites | seamtech_search/confiance_reutilisation.py:159-256 | one line for each dimension known somewhere, in order, with its statistics, and a score exactly when the candidate knows it and three sails do |
| ReuseVerdict.VerdictEcrit | seamtech_search/confiance_reutilisation.py:236-315 | the verdict from the sets of common, dispersed and scored dimensions, and the final score as the rounded median of the scores, each score as above |
| ReuseVerdict.MajoriteConstante | seamtech_search/confiance_reutilisation.py:130-315 | when a score is given: a candidate 10 % away from more than half of the scored dimensions, the population agreeing on each, is to be examined, and one with exactly their values is compatible |
| Families.Similarite | scripts/inventaire_archive.py:300-306 | the Jaccard index is the common labels over all labels, lies in 0..1, is 1 exactly for equal non-empty sets and 0 exactly for disjoint ones |
| Families.Cible | scripts/inventaire_archive.py:327-333 | the merge target is the first family that reaches 0.85 as it stands, and there is none exactly when no family does |
| Families.RegroupementEcrit | scripts/inventaire_archive.py:309-349 | the whole grouping: one family per key with all its sheets in path order, taken largest first, each merged into the first family with at least 85 % common labels, which takes its sheets, digests and new labels in order, or added at the end |
| Families.ToutesUneFois | scripts/inventaire_archive.py:309-349 | every sheet is in exactly one family, none lost or repeated |
| Families.MemeCleMemeFamille | scripts/inventaire_archive.py:309-349 | no key is split between two families |
| Families.OrdreIndifferent | scripts/inventaire_archive.py:309-349 | the families are the same for every input order, when one path never carries two sheets |
| Families.LibellesExacts | scripts/inventaire_archive.py:336-341 | label lists are free of repeats and equal to the union of the labels of the sheets held, and so are the fine digests |
| Families.RegrouperFamilles | scripts/inventaire_archive.py:309-349 | the two greedy passes compute that grouping |
| Duplicates.MemeGroupeSsiDoublons | scripts/inventaire_archive.py:597-619 | two lines share a non-zero group exactly when their sizes and digests are equal and the digest was computed |
| Duplicates.NumerosSansTrou | scripts/inventaire_archive.py:608-618 | the numbers given are exactly 1..k |
| Duplicates.NumerosParPremierChemin | scripts/inventaire_archive.py:608-618 | groups are numbered in the order of the path of their first line |
| Duplicates.ComptesJustes | scripts/inventaire_archive.py:608-619 | redundant bytes and one copy of each content are all the digested bytes; redundant files and contents are all the digested files |
| Duplicates.DetecterDoublons | scripts/inventaire_archive.py:597-619 | writes those numbers on the lines in place, leaves the others alone, and returns those counts |
| Crawl.FiltreParNomSuffit | seamtech_search/crawler.py:211-229 | resolving only the directories named like a zone of the root misses no zone |
| Crawl.CompletSsi | seamtech_search/crawler.py:185-237 | a walk completes exactly when its root is a directory, every permitted directory can be listed and every permitted file examined |
| Crawl.ParcoursExact | seamtech_search/crawler.py:185-237 | the walk of a root yields, each once, only items that are not excluded, not below an excluded directory and below no zone; it completes exactly when nothing permitted is in the way, and then yields all of them |
| Crawl.CrawlExact | seamtech_search/crawler.py:185-237 | over any roots: it completes exactly when no root lies in a zone and nothing permitted is in the way; it yields only such items, each item of each root once; every root before the first obstacle is yielded whole, all roots when it completes |
| Crawl.ParcoursEnOrdre | seamtech_search/crawler.py:211-237 | a directory is produced before everything it holds, whether the walk completes or not |
| Crawl.RacinesEnOrdre | seamtech_search/crawler.py:200-237 | the roots are walked one after another, in their order |
| Crawl.HorsZones | seamtech_search/crawler.py:160-237 | what is yielded lies in no zone by its own names, short of a file that bears the very path of one; with links to files, which are never compared, that is the exact exception |
| Crawl.LienVersZoneProduit | seamtech_search/crawler.py:233-237 | one instance: a link to an uploaded file is yielded |
| Crawl.CrawlRacines | seamtech_search/crawler.py:185-237 | the loops over the roots compute the crawl that `Crawl.CrawlExact` describes |
| Indexing.SearchIndex.Consommer | seamtech_search/cli.py:157-190 | the index receives the exact sequence in batches of 250 and a last shorter one; rows are pruned only after a complete walk and only for keys not seen |
| Indexing.SearchIndex.RunIndex | seamtech_search/cli.py:119-202 | either the table is what the whole walk says and the scan is completed with the numbers walked and removed, or it is as before and the scan never is; without a failure a complete walk succeeds |
| Indexing.AppliquerConcat | seamtech_search/cli.py:171-180 | cutting the sequence into batches does not change the result |
| Indexing.ApresIndexation | seamtech_search/indexer.py:2424-2496 | after a completed run a row exists exactly if it was walked, or existed and is under a protected prefix or may not be deleted, in which case it is unchanged |
| Indexing.LigneApresIndexation | seamtech_search/cli.py:157-190 | a walked row holds what its documents, in order, make of the old one; with one document, that document's refresh of the old row, unless the index leaves it alone |
| Paths.PrefixeTexte | seamtech_search/indexer.py:2409-2422 | comparing strings up to a separator is comparing directories |
| Indexing.ProtegeSsiEnZone | seamtech_search/indexer.py:2409-2422 | the string test protects exactly the paths that lie in a zone the walk prunes |
| Indexing.ZoneJamaisElaguee | seamtech_search/cli.py:183-189 | no row of a zone is ever deleted, and one that was not walked is unchanged |
| Indexing.IndexDuParcours | seamtech_search/cli.py:157-190 | walk and index together: after a completed run a row exists exactly if something visible has that resolved path, or it existed and lies in a zone or may not be deleted |
| LeastDepth.DossierAvecPdf | scripts/recette_verif.py:178-186 | returns a directory of least depth that directly holds a PDF, the first of its level, and nothing exactly when the tree holds none |

## Left out

- HTTP routing, headers, authentication, Redis, S3 transport, JSON and report rendering: input and output, not logic.
- AuditChain: primary keys are outside the digest, so histories are compared without them; removing rows from the end of the log leaves a shorter valid chain that only an external copy of the tip can reveal.
- AuditChain: the conversion of an old row into an event, and the sanitiser `_valeur_sure`, are parameters of the migration and of the events.
- Approvals: resolving a piece to its fiche, validating a corrected value and propagating it to canonical tables are inputs of a call; a fiche is named by its identifier rather than its code; the parsing of request bodies (422) is reduced to the bounds.
- Projections: what a linking call adds to the reference tables is left free, each call of a run having its own.
- Projections: the construction of an extraction from a PDF, the recomputed plausibility and the referential searches are inputs; JSONB values are compared as values.
- Limiter: only the in-process branch; instants are exact real numbers.
- Descriptors: closing a descriptor is assumed not to raise; asynchronous interruptions inside one system call and other threads' descriptors are not modelled; normalising a path with `abspath` happens before the model; the cross-check through /proc is a call that may raise.
- Descriptors: the redirections to public object addresses and the catalogue queries that choose a branch come before the modelled part of the routes.
- RobustStats.QuantileMonotone: exact real arithmetic, so the rounding of binary floating point is not captured.
- ReuseConfidence: the displayed z-score, percentage gap and material agreement do not influence the verdict and are omitted.
- Families: families are values rewritten in a list, so that two names for one family object are not captured; a family keeps whole sheets where the original keeps their paths.
- Crawl: names that cannot be resolved (link loops) and changes of the disk during the walk are not modelled; building the document of an item is reduced to whether its `stat` succeeds.
- Indexing: the rebuild mode, which empties or recreates tables first; how one row is refreshed is a parameter; a key is the string of a resolved path, without the case folding of Windows.
- LeastDepth: a directory tree without link cycles.
- The status shown by `read_import`, the unit handling of `construire_extraction_voile`, the comparison of two sails, the aggregation of extraction measures, the even sampling of the pre-flight check and the scanner for percent-escapes are not modelled.
- The assistant, the exports and the benchmarks are not part of this model.
