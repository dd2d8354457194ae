/** The in-process sliding-window rate limiter of seamtech_search/api.py.

    The limiter sweeps its dictionary on every request. It is compared with a
    limiter that keeps the full history of accepted requests and never forgets.
    Instants are real numbers of seconds. */
module Limiter {

  type Cle = string
  type Horodatages = map<Cle, seq<real>>

  const FENETRE := 60.0

  datatype Requete = Requete(cle: Cle, instant: real)
  datatype Reponse = Acceptee | Refusee(retryAfter: int)

  /** The instants of `ts` strictly after the cutoff, in order. */
  function Garder(ts: seq<real>, coupe: real): (r: seq<real>)
    ensures |r| <= |ts|
  {
    if ts == [] then []
    else if ts[0] > coupe then [ts[0]] + Garder(ts[1..], coupe)
    else Garder(ts[1..], coupe)
  }

  function Lire(m: Horodatages, k: Cle): seq<real> { if k in m then m[k] else [] }

  function Balayer(m: Horodatages, coupe: real): Horodatages {
    map k | k in m && Garder(m[k], coupe) != [] :: Garder(m[k], coupe)
  }

  /** Python's `int(x)`: truncation toward zero. */
  function Tronquer(x: real): int { if x >= 0.0 then x.Floor else -((-x).Floor) }

  function DelaiAnnonce(ancien: real, maintenant: real): int {
    var d := Tronquer(FENETRE - (maintenant - ancien)) + 1;
    if d > 1 then d else 1
  }

  function Decision(fenetre: seq<real>, limite: nat, maintenant: real): Reponse
    requires limite >= 1
  {
    if |fenetre| >= limite then Refusee(DelaiAnnonce(fenetre[0], maintenant)) else Acceptee
  }

  /** One request on the swept dictionary. */
  function Etape(limite: nat, m: Horodatages, r: Requete): (Reponse, Horodatages)
    requires limite >= 1
  {
    var coupe := r.instant - FENETRE;
    var balaye := Balayer(m, coupe);
    var fenetre := Garder(Lire(balaye, r.cle), coupe);
    var d := Decision(fenetre, limite, r.instant);
    (d, balaye[r.cle := if d.Acceptee? then fenetre + [r.instant] else fenetre])
  }

  /** One request on a full history that is never pruned. */
  function EtapeSansOubli(limite: nat, h: Horodatages, r: Requete): (Reponse, Horodatages)
    requires limite >= 1
  {
    var d := Decision(Garder(Lire(h, r.cle), r.instant - FENETRE), limite, r.instant);
    (d, if d.Acceptee? then h[r.cle := Lire(h, r.cle) + [r.instant]] else h)
  }

  function Executer(limite: nat, m: Horodatages, rs: seq<Requete>): (seq<Reponse>, Horodatages)
    requires limite >= 1
    decreases |rs|
  {
    if rs == [] then ([], m)
    else
      var (d, m') := Etape(limite, m, rs[0]);
      var (ds, f) := Executer(limite, m', rs[1..]);
      ([d] + ds, f)
  }

  function ExecuterSansOubli(limite: nat, h: Horodatages, rs: seq<Requete>): (seq<Reponse>, Horodatages)
    requires limite >= 1
    decreases |rs|
  {
    if rs == [] then ([], h)
    else
      var (d, h') := EtapeSansOubli(limite, h, rs[0]);
      var (ds, f) := ExecuterSansOubli(limite, h', rs[1..]);
      ([d] + ds, f)
  }

  /** A run whose clock does not go back, starting at `debut` or later. */
  ghost predicate HorlogeCroissante(debut: real, rs: seq<Requete>) {
    && (forall i :: 0 <= i < |rs| ==> debut <= rs[i].instant)
    && (forall i, j :: 0 <= i < j < |rs| ==> rs[i].instant <= rs[j].instant)
  }

  // ---------------------------------------------------------------------------
  // Forgetting does not change decisions
  // ---------------------------------------------------------------------------

  lemma {:induction false} GarderDeuxFois(ts: seq<real>, c: real, c': real)
    requires c <= c'
    ensures Garder(Garder(ts, c), c') == Garder(ts, c')
  {
    if ts != [] {
      GarderDeuxFois(ts[1..], c, c');
      var g := Garder(ts[1..], c);
      assert ([ts[0]] + g)[1..] == g;
    }
  }

  lemma {:induction false} GarderAjout(ts: seq<real>, t: real, c: real)
    ensures Garder(ts + [t], c) == Garder(ts, c) + (if t > c then [t] else [])
  {
    if ts != [] {
      GarderAjout(ts[1..], t, c);
      assert (ts + [t])[1..] == ts[1..] + [t];
    } else {
      assert ts + [t] == [t];
    }
  }

  /** The dictionary and the history agree on everything younger than the window at `t`. */
  ghost predicate Accord(m: Horodatages, h: Horodatages, t: real) {
    forall k :: Garder(Lire(m, k), t - FENETRE) == Garder(Lire(h, k), t - FENETRE)
  }

  lemma AccordPlusTard(m: Horodatages, h: Horodatages, t: real, t': real)
    requires Accord(m, h, t) && t <= t'
    ensures Accord(m, h, t')
  {
    forall k ensures Garder(Lire(m, k), t' - FENETRE) == Garder(Lire(h, k), t' - FENETRE) {
      GarderDeuxFois(Lire(m, k), t - FENETRE, t' - FENETRE);
      GarderDeuxFois(Lire(h, k), t - FENETRE, t' - FENETRE);
      assert Garder(Lire(m, k), t - FENETRE) == Garder(Lire(h, k), t - FENETRE);
    }
  }

  lemma BalayerLire(m: Horodatages, c: real, k: Cle)
    ensures Lire(Balayer(m, c), k) == Garder(Lire(m, k), c)
  {
  }

  lemma MemeEtape(limite: nat, m: Horodatages, h: Horodatages, r: Requete)
    requires limite >= 1 && Accord(m, h, r.instant)
    ensures Etape(limite, m, r).0 == EtapeSansOubli(limite, h, r).0
    ensures Accord(Etape(limite, m, r).1, EtapeSansOubli(limite, h, r).1, r.instant)
  {
    var c := r.instant - FENETRE;
    var (d, m') := Etape(limite, m, r);
    var (d', h') := EtapeSansOubli(limite, h, r);
    BalayerLire(m, c, r.cle);
    GarderDeuxFois(Lire(m, r.cle), c, c);
    assert Garder(Lire(m, r.cle), c) == Garder(Lire(h, r.cle), c);
    forall k ensures Garder(Lire(m', k), c) == Garder(Lire(h', k), c) {
      BalayerLire(m, c, k);
      GarderDeuxFois(Lire(m, k), c, c);
      assert Garder(Lire(m, k), c) == Garder(Lire(h, k), c);
      if k == r.cle && d.Acceptee? {
        GarderAjout(Garder(Lire(m, k), c), r.instant, c);
        GarderAjout(Lire(h, k), r.instant, c);
      }
    }
  }

  lemma {:induction false} MemesDecisionsDepuis(limite: nat, t: real, m: Horodatages, h: Horodatages, rs: seq<Requete>)
    requires limite >= 1 && Accord(m, h, t) && HorlogeCroissante(t, rs)
    ensures Executer(limite, m, rs).0 == ExecuterSansOubli(limite, h, rs).0
    decreases |rs|
  {
    if rs != [] {
      AccordPlusTard(m, h, t, rs[0].instant);
      MemeEtape(limite, m, h, rs[0]);
      MemesDecisionsDepuis(limite, rs[0].instant, Etape(limite, m, rs[0]).1, EtapeSansOubli(limite, h, rs[0]).1, rs[1..]);
    }
  }

  /** The sweeping limiter answers every request of every run, Retry-After
      included, exactly as the limiter that never forgets. */
  lemma BalayageInvisible(limite: nat, debut: real, rs: seq<Requete>)
    requires limite >= 1 && HorlogeCroissante(debut, rs)
    ensures Executer(limite, map[], rs).0 == ExecuterSansOubli(limite, map[], rs).0
  {
    MemesDecisionsDepuis(limite, debut, map[], map[], rs);
  }

  // ---------------------------------------------------------------------------
  // At most `limite` accepted requests per window
  // ---------------------------------------------------------------------------

  /** Non-decreasing instants, any `limite + 1` consecutive ones spanning 60 s or more. */
  ghost predicate Espacee(limite: nat, ts: seq<real>) {
    && (forall i, j :: 0 <= i < j < |ts| ==> ts[i] <= ts[j])
    && (forall i, j :: 0 <= i && j == i + limite && j < |ts| ==> ts[j] - ts[i] >= FENETRE)
  }

  /** Over sorted instants the cutoff keeps a suffix. */
  lemma {:induction false} GarderSuffixe(ts: seq<real>, c: real) returns (k: nat)
    requires forall i, j :: 0 <= i < j < |ts| ==> ts[i] <= ts[j]
    ensures k <= |ts| && Garder(ts, c) == ts[k..]
    ensures forall i :: 0 <= i < k ==> ts[i] <= c
    ensures forall i :: k <= i < |ts| ==> ts[i] > c
  {
    if ts == [] {
      k := 0;
    } else if ts[0] > c {
      var k' := GarderSuffixe(ts[1..], c);
      assert |ts| > 1 ==> ts[0] <= ts[1] == ts[1..][0];
      assert k' == 0;
      k := 0;
      assert ts == [ts[0]] + ts[1..];
      assert forall i :: 0 <= i < |ts| ==> ts[0] <= ts[i];
    } else {
      var k' := GarderSuffixe(ts[1..], c);
      k := k' + 1;
      assert ts[1..][k'..] == ts[k..];
      forall i | 0 <= i < k ensures ts[i] <= c { if i > 0 { assert ts[i] == ts[1..][i - 1]; } }
      forall i | k <= i < |ts| ensures ts[i] > c { assert ts[i] == ts[1..][i - 1]; }
    }
  }

  /** The instants of `ts` in a window, in order. */
  function Dans(ts: seq<real>, fenetre: real -> bool): seq<real> {
    if ts == [] then [] else (if fenetre(ts[0]) then [ts[0]] else []) + Dans(ts[1..], fenetre)
  }

  /** `]lo, hi]` and `[lo, hi]`. */
  function Ouverte(lo: real, hi: real): real -> bool { t => lo < t <= hi }

  function Fermee(lo: real, hi: real): real -> bool { t => lo <= t <= hi }

  ghost predicate Intervalle(fenetre: real -> bool) { forall x, y, z :: x <= y <= z && fenetre(x) && fenetre(z) ==> fenetre(y) }

  lemma {:induction false} DansContigu(ts: seq<real>, fenetre: real -> bool) returns (k: nat, l: nat)
    requires Intervalle(fenetre) && forall i, j :: 0 <= i < j < |ts| ==> ts[i] <= ts[j]
    ensures k <= l <= |ts| && |Dans(ts, fenetre)| == l - k
    ensures forall i :: k <= i < l ==> fenetre(ts[i])
  {
    if ts == [] {
      k, l := 0, 0;
    } else {
      var k', l' := DansContigu(ts[1..], fenetre);
      forall i | k' < i <= l' ensures fenetre(ts[i]) { assert ts[i] == ts[1..][i - 1]; }
      if fenetre(ts[0]) {
        k, l := 0, l' + 1 - k';
        forall i | 0 <= i < l ensures fenetre(ts[i]) {
          if i > 0 {
            assert ts[0] <= ts[i] <= ts[l'] && fenetre(ts[l']);
          }
        }
      } else {
        k, l := k' + 1, l' + 1;
      }
    }
  }

  lemma FenetreBornee(limite: nat, ts: seq<real>, lo: real, hi: real)
    requires Espacee(limite, ts) && hi <= lo + FENETRE
    ensures |Dans(ts, Ouverte(lo, hi))| <= limite
  {
    var k, l := DansContigu(ts, Ouverte(lo, hi));
    assert k + limite < |ts| ==> ts[k + limite] - ts[k] >= FENETRE;
  }

  /** With both bounds included: the limit below 60 s, twice the limit at 60 s. */
  lemma FenetreFermeeBornee(limite: nat, ts: seq<real>, lo: real, hi: real)
    requires limite >= 1 && Espacee(limite, ts)
    ensures hi < lo + FENETRE ==> |Dans(ts, Fermee(lo, hi))| <= limite
    ensures hi <= lo + FENETRE ==> |Dans(ts, Fermee(lo, hi))| <= 2 * limite
  {
    var k, l := DansContigu(ts, Fermee(lo, hi));
    assert k + limite < |ts| ==> ts[k + limite] - ts[k] >= FENETRE;
    assert k + 2 * limite < |ts| ==> ts[k + 2 * limite] - ts[k + limite] >= FENETRE;
  }

  lemma EspaceeAjout(limite: nat, ts: seq<real>, t: real)
    requires limite >= 1 && Espacee(limite, ts)
    requires forall i :: 0 <= i < |ts| ==> ts[i] <= t
    requires |Garder(ts, t - FENETRE)| < limite
    ensures Espacee(limite, ts + [t])
  {
    var k := GarderSuffixe(ts, t - FENETRE);
    var s := ts + [t];
    forall i, j | 0 <= i && j == i + limite && j < |s| ensures s[j] - s[i] >= FENETRE {
      if j == |ts| { assert i < k; assert ts[i] <= t - FENETRE; }
    }
  }

  /** The accepted instants of one key, read off the run itself. */
  function Acceptes(rs: seq<Requete>, ds: seq<Reponse>, k: Cle): seq<real>
    requires |rs| == |ds|
  {
    if rs == [] then []
    else (if rs[0].cle == k && ds[0].Acceptee? then [rs[0].instant] else []) + Acceptes(rs[1..], ds[1..], k)
  }

  /** Spaced instants, none after `t`. */
  ghost predicate Sains(limite: nat, ts: seq<real>, t: real) {
    Espacee(limite, ts) && forall i :: 0 <= i < |ts| ==> ts[i] <= t
  }

  ghost predicate TousSains(limite: nat, h: Horodatages, t: real) {
    forall k :: Sains(limite, Lire(h, k), t)
  }

  lemma SainsPlusTard(limite: nat, ts: seq<real>, t: real, t': real)
    requires Sains(limite, ts, t) && t <= t'
    ensures Sains(limite, ts, t')
  {
  }

  lemma EtapeSaineCle(limite: nat, h: Horodatages, r: Requete, k: Cle)
    requires limite >= 1 && Sains(limite, Lire(h, k), r.instant)
    ensures Sains(limite, Lire(EtapeSansOubli(limite, h, r).1, k), r.instant)
  {
    if k == r.cle && EtapeSansOubli(limite, h, r).0.Acceptee? {
      EspaceeAjout(limite, Lire(h, k), r.instant);
    }
  }

  lemma EtapeSaine(limite: nat, h: Horodatages, t: real, r: Requete)
    requires limite >= 1 && TousSains(limite, h, t) && t <= r.instant
    ensures TousSains(limite, EtapeSansOubli(limite, h, r).1, r.instant)
  {
    forall k ensures Sains(limite, Lire(EtapeSansOubli(limite, h, r).1, k), r.instant) {
      SainsPlusTard(limite, Lire(h, k), t, r.instant);
      EtapeSaineCle(limite, h, r, k);
    }
  }

  lemma {:induction false} RunSain(limite: nat, h: Horodatages, t: real, rs: seq<Requete>, k: Cle)
    requires limite >= 1 && TousSains(limite, h, t) && HorlogeCroissante(t, rs)
    ensures Espacee(limite, Lire(ExecuterSansOubli(limite, h, rs).1, k))
    decreases |rs|
  {
    if rs == [] {
      assert Sains(limite, Lire(h, k), t);
    } else {
      EtapeSaine(limite, h, t, rs[0]);
      RunSain(limite, EtapeSansOubli(limite, h, rs[0]).1, rs[0].instant, rs[1..], k);
    }
  }

  lemma HistoireEtape(limite: nat, h: Horodatages, r: Requete, k: Cle)
    requires limite >= 1
    ensures var (d, h') := EtapeSansOubli(limite, h, r);
            Lire(h', k) == Lire(h, k) + (if r.cle == k && d.Acceptee? then [r.instant] else [])
  {
  }

  lemma {:induction false} HistoireDuRun(limite: nat, h: Horodatages, rs: seq<Requete>, k: Cle)
    requires limite >= 1
    ensures var (ds, f) := ExecuterSansOubli(limite, h, rs);
            |ds| == |rs| && Lire(f, k) == Lire(h, k) + Acceptes(rs, ds, k)
    decreases |rs|
  {
    hide EtapeSansOubli, Lire;
    if rs != [] {
      var (d, h') := EtapeSansOubli(limite, h, rs[0]);
      HistoireEtape(limite, h, rs[0], k);
      HistoireDuRun(limite, h', rs[1..], k);
      var (ds, f) := ExecuterSansOubli(limite, h', rs[1..]);
      assert ([d] + ds)[1..] == ds && ([d] + ds)[0] == d;
      var tete := if rs[0].cle == k && d.Acceptee? then [rs[0].instant] else [];
      assert Acceptes(rs, [d] + ds, k) == tete + Acceptes(rs[1..], ds, k);
      assert Lire(h, k) + tete + Acceptes(rs[1..], ds, k) == Lire(h, k) + (tete + Acceptes(rs[1..], ds, k));
    } else {
      assert Lire(h, k) + [] == Lire(h, k);
    }
  }

  /** What a run accepts for one key is spaced. */
  lemma AcceptesEspacees(limite: nat, debut: real, rs: seq<Requete>, k: Cle)
    requires limite >= 1 && HorlogeCroissante(debut, rs)
    ensures var ds := Executer(limite, map[], rs).0;
            |ds| == |rs| && Espacee(limite, Acceptes(rs, ds, k))
  {
    BalayageInvisible(limite, debut, rs);
    RunSain(limite, map[], debut, rs, k);
    HistoireDuRun(limite, map[], rs, k);
    var ds := Executer(limite, map[], rs).0;
    assert [] + Acceptes(rs, ds, k) == Acceptes(rs, ds, k);
  }

  /** Over every run, every key has at most `limite` accepted requests in any
      window of 60 s, the older bound excluded. */
  lemma AuPlusLimiteParFenetre(limite: nat, debut: real, rs: seq<Requete>, k: Cle, lo: real, hi: real)
    requires limite >= 1 && HorlogeCroissante(debut, rs) && hi <= lo + FENETRE
    ensures var ds := Executer(limite, map[], rs).0;
            |ds| == |rs| && |Dans(Acceptes(rs, ds, k), Ouverte(lo, hi))| <= limite
  {
    AcceptesEspacees(limite, debut, rs, k);
    FenetreBornee(limite, Acceptes(rs, Executer(limite, map[], rs).0, k), lo, hi);
  }

  // ---------------------------------------------------------------------------
  // Each decision, from the answers before it
  // ---------------------------------------------------------------------------

  lemma {:induction false} DecisionAuRang(limite: nat, h: Horodatages, rs: seq<Requete>, i: nat)
    requires limite >= 1 && i < |rs|
    ensures var ds, (avant, hi) := ExecuterSansOubli(limite, h, rs).0, ExecuterSansOubli(limite, h, rs[..i]);
            |ds| == |rs| && ds[..i] == avant && ds[i] == EtapeSansOubli(limite, hi, rs[i]).0
    decreases |rs|
  {
    var (d, h') := EtapeSansOubli(limite, h, rs[0]);
    HistoireDuRun(limite, h, rs, rs[0].cle);
    if i > 0 {
      DecisionAuRang(limite, h', rs[1..], i - 1);
      assert rs[..i][1..] == rs[1..][..i - 1];
      var ds := ExecuterSansOubli(limite, h', rs[1..]).0;
      assert ([d] + ds)[..i] == [d] + ds[..i - 1];
    }
  }

  lemma {:induction false} AcceptesAvant(rs: seq<Requete>, ds: seq<Reponse>, k: Cle, t: real)
    requires |rs| == |ds| && forall i :: 0 <= i < |rs| ==> rs[i].instant <= t
    ensures forall i :: 0 <= i < |Acceptes(rs, ds, k)| ==> Acceptes(rs, ds, k)[i] <= t
  {
    if rs != [] { AcceptesAvant(rs[1..], ds[1..], k, t); }
  }

  lemma {:induction false} GarderDans(ts: seq<real>, coupe: real, t: real)
    requires forall i :: 0 <= i < |ts| ==> ts[i] <= t
    ensures Garder(ts, coupe) == Dans(ts, Ouverte(coupe, t))
    ensures forall i :: 0 <= i < |Garder(ts, coupe)| ==> coupe < Garder(ts, coupe)[i] <= t
  {
    if ts != [] {
      GarderDans(ts[1..], coupe, t);
      assert [] + Dans(ts[1..], Ouverte(coupe, t)) == Dans(ts[1..], Ouverte(coupe, t));
    }
  }

  /** Over every run: a request is accepted exactly when fewer than `limite` requests of its key
      were accepted in the last 60 s; otherwise it is told the whole seconds, rounded up past the
      instant, until the oldest of them leaves the window. */
  lemma AccepteeSsiPlace(limite: nat, debut: real, rs: seq<Requete>, i: nat)
    requires limite >= 1 && HorlogeCroissante(debut, rs) && i < |rs|
    ensures var ds, t := Executer(limite, map[], rs).0, rs[i].instant;
            && |ds| == |rs|
            && var recents := Dans(Acceptes(rs[..i], ds[..i], rs[i].cle), Ouverte(t - 60.0, t));
            && (ds[i].Acceptee? <==> |recents| < limite)
            && (ds[i].Refusee? ==> recents != [] && (ds[i].retryAfter - 1) as real <= recents[0] + 60.0 - t < ds[i].retryAfter as real)
  {
    BalayageInvisible(limite, debut, rs);
    DecisionAuRang(limite, map[], rs, i);
    var avant, k, t := rs[..i], rs[i].cle, rs[i].instant;
    var (ds, h) := ExecuterSansOubli(limite, map[], avant);
    HistoireDuRun(limite, map[], avant, k);
    assert [] + Acceptes(avant, ds, k) == Acceptes(avant, ds, k);
    AcceptesAvant(avant, ds, k, t);
    GarderDans(Lire(h, k), t - FENETRE, t);
  }

  // ---------------------------------------------------------------------------
  // Windows with both bounds included
  // ---------------------------------------------------------------------------

  /** Over every run, a closed window holds at most `limite` accepted requests below 60 s,
      and at most `2 * limite` at 60 s. */
  lemma AuPlusLimiteParFenetreFermee(limite: nat, debut: real, rs: seq<Requete>, k: Cle, lo: real, hi: real)
    requires limite >= 1 && HorlogeCroissante(debut, rs)
    ensures var ds := Executer(limite, map[], rs).0;
            && |ds| == |rs|
            && (hi < lo + FENETRE ==> |Dans(Acceptes(rs, ds, k), Fermee(lo, hi))| <= limite)
            && (hi <= lo + FENETRE ==> |Dans(Acceptes(rs, ds, k), Fermee(lo, hi))| <= 2 * limite)
  {
    AcceptesEspacees(limite, debut, rs, k);
    FenetreFermeeBornee(limite, Acceptes(rs, Executer(limite, map[], rs).0, k), lo, hi);
  }

  function Repete(t: real, n: nat): (ts: seq<real>)
    ensures |ts| == n && forall i :: 0 <= i < n ==> ts[i] == t
  {
    seq(n, i => t)
  }

  /** `n` requests of one key at the same instant. */
  function Rafale(k: Cle, t: real, n: nat): (rs: seq<Requete>)
    ensures |rs| == n && forall i :: 0 <= i < n ==> rs[i] == Requete(k, t)
  {
    seq(n, i => Requete(k, t))
  }

  /** As long as the window has room for all of them, a burst is accepted whole. */
  lemma {:induction false} RafaleAcceptee(limite: nat, h: Horodatages, k: Cle, t: real, n: nat)
    requires limite >= 1 && |Garder(Lire(h, k), t - FENETRE)| + n <= limite
    ensures Lire(ExecuterSansOubli(limite, h, Rafale(k, t, n)).1, k) == Lire(h, k) + Repete(t, n)
    decreases n
  {
    if n == 0 {
      assert Lire(h, k) + Repete(t, 0) == Lire(h, k);
    } else {
      var r := Requete(k, t);
      var h' := EtapeSansOubli(limite, h, r).1;
      assert Rafale(k, t, n)[1..] == Rafale(k, t, n - 1);
      GarderAjout(Lire(h, k), t, t - FENETRE);
      assert Lire(h', k) == Lire(h, k) + [t];
      RafaleAcceptee(limite, h', k, t, n - 1);
      assert [t] + Repete(t, n - 1) == Repete(t, n);
      assert Lire(h, k) + [t] + Repete(t, n - 1) == Lire(h, k) + ([t] + Repete(t, n - 1));
    }
  }

  lemma {:induction false} SuiteDeRuns(limite: nat, h: Horodatages, a: seq<Requete>, b: seq<Requete>)
    requires limite >= 1
    ensures ExecuterSansOubli(limite, h, a + b).1 == ExecuterSansOubli(limite, ExecuterSansOubli(limite, h, a).1, b).1
    decreases |a|
  {
    if a == [] {
      assert a + b == b;
    } else {
      assert (a + b)[1..] == a[1..] + b;
      SuiteDeRuns(limite, EtapeSansOubli(limite, h, a[0]).1, a[1..], b);
    }
  }

  lemma {:induction false} GarderAncien(t: real, n: nat, c: real)
    requires t <= c
    ensures Garder(Repete(t, n), c) == []
  {
    if n > 0 {
      assert Repete(t, n)[1..] == Repete(t, n - 1);
      GarderAncien(t, n - 1, c);
    }
  }

  lemma {:induction false} DansTout(ts: seq<real>, fenetre: real -> bool)
    requires forall i :: 0 <= i < |ts| ==> fenetre(ts[i])
    ensures Dans(ts, fenetre) == ts
  {
    if ts != [] { DansTout(ts[1..], fenetre); }
  }

  /** `limite` requests at 0 s and as many at 60 s. */
  function DeuxRafales(limite: nat, k: Cle): seq<Requete> { Rafale(k, 0.0, limite) + Rafale(k, FENETRE, limite) }

  /** For every limit, both bursts are accepted whole: a closed window of 60 s or more can
      hold twice the limit. */
  lemma DoubleLimiteAtteinte(limite: nat, k: Cle, lo: real, hi: real)
    requires limite >= 1 && lo <= 0.0 && FENETRE <= hi
    ensures var rs := DeuxRafales(limite, k);
            var ds := Executer(limite, map[], rs).0;
            HorlogeCroissante(0.0, rs) && |ds| == |rs| && |Dans(Acceptes(rs, ds, k), Fermee(lo, hi))| == 2 * limite
  {
    var rs := DeuxRafales(limite, k);
    var h1 := ExecuterSansOubli(limite, map[], Rafale(k, 0.0, limite)).1;
    RafaleAcceptee(limite, map[], k, 0.0, limite);
    assert [] + Repete(0.0, limite) == Repete(0.0, limite);
    GarderAncien(0.0, limite, FENETRE - FENETRE);
    RafaleAcceptee(limite, h1, k, FENETRE, limite);
    SuiteDeRuns(limite, map[], Rafale(k, 0.0, limite), Rafale(k, FENETRE, limite));
    HistoireDuRun(limite, map[], rs, k);
    BalayageInvisible(limite, 0.0, rs);
    var ds := Executer(limite, map[], rs).0;
    assert [] + Acceptes(rs, ds, k) == Acceptes(rs, ds, k);
    DansTout(Acceptes(rs, ds, k), Fermee(lo, hi));
  }

  /** Whatever the run, the key and the place, closed windows of length `w` hold at most `limite`. */
  ghost predicate FenetresFermeesTenues(limite: nat, w: real)
    requires limite >= 1
  {
    forall debut: real, rs: seq<Requete>, k: Cle, lo: real :: HorlogeCroissante(debut, rs) ==> FenetreTenue(limite, rs, k, lo, w)
  }

  ghost predicate FenetreTenue(limite: nat, rs: seq<Requete>, k: Cle, lo: real, w: real)
    requires limite >= 1
  {
    var ds := Executer(limite, map[], rs).0;
    |ds| == |rs| && |Dans(Acceptes(rs, ds, k), Fermee(lo, lo + w))| <= limite
  }

  /** The limit holds in closed windows exactly when they are shorter than 60 s. */
  lemma FermeeTenueSsiPlusCourte(limite: nat, w: real)
    requires limite >= 1
    ensures FenetresFermeesTenues(limite, w) <==> w < FENETRE
  {
    if w < FENETRE {
      forall debut: real, rs: seq<Requete>, k: Cle, lo: real | HorlogeCroissante(debut, rs) ensures FenetreTenue(limite, rs, k, lo, w) {
        AuPlusLimiteParFenetreFermee(limite, debut, rs, k, lo, lo + w);
      }
    } else {
      DoubleLimiteAtteinte(limite, "", 0.0, w);
      assert HorlogeCroissante(0.0, DeuxRafales(limite, "")) && 0.0 + w == w;
      assert !FenetreTenue(limite, DeuxRafales(limite, ""), "", 0.0, w);
    }
  }

  // ---------------------------------------------------------------------------
  // Retry-After
  // ---------------------------------------------------------------------------

  lemma SuffixeSain(limite: nat, ts: seq<real>, k: nat, t: real)
    requires Sains(limite, ts, t) && k <= |ts|
    ensures Sains(limite, ts[k..], t)
  {
    forall i, j | 0 <= i && j == i + limite && j < |ts[k..]| ensures ts[k..][j] - ts[k..][i] >= FENETRE {
      assert ts[k + j] - ts[k + i] >= FENETRE;
    }
  }

  lemma GarderSain(limite: nat, ts: seq<real>, c: real, t: real)
    requires Sains(limite, ts, t)
    ensures Sains(limite, Garder(ts, c), t)
  {
    var n := GarderSuffixe(ts, c);
    SuffixeSain(limite, ts, n, t);
  }

  /** The window the limiter counts is what it stored, cut off. */
  lemma FenetreCourante(m: Horodatages, k: Cle, c: real)
    ensures Garder(Lire(Balayer(m, c), k), c) == Garder(Lire(m, k), c)
  {
    BalayerLire(m, c, k);
    GarderDeuxFois(Lire(m, k), c, c);
  }

  lemma EtapeDictionnaireCle(limite: nat, m: Horodatages, r: Requete, k: Cle)
    requires limite >= 1 && Sains(limite, Lire(m, k), r.instant)
    ensures Sains(limite, Lire(Etape(limite, m, r).1, k), r.instant)
  {
    var c := r.instant - FENETRE;
    var garde := Garder(Lire(m, k), c);
    GarderSain(limite, Lire(m, k), c, r.instant);
    BalayerLire(m, c, k);
    FenetreCourante(m, k, c);
    if k == r.cle && Etape(limite, m, r).0.Acceptee? {
      GarderDeuxFois(Lire(m, k), c, c);
      EspaceeAjout(limite, garde, r.instant);
    }
  }

  lemma EtapeDictionnaire(limite: nat, m: Horodatages, t: real, r: Requete)
    requires limite >= 1 && TousSains(limite, m, t) && t <= r.instant
    ensures TousSains(limite, Etape(limite, m, r).1, r.instant)
  {
    forall k ensures Sains(limite, Lire(Etape(limite, m, r).1, k), r.instant) {
      SainsPlusTard(limite, Lire(m, k), t, r.instant);
      EtapeDictionnaireCle(limite, m, r, k);
    }
  }

  lemma {:induction false} RunDictionnaire(limite: nat, m: Horodatages, t: real, rs: seq<Requete>, fin: real, k: Cle)
    requires limite >= 1 && TousSains(limite, m, t) && HorlogeCroissante(t, rs)
    requires t <= fin && forall i :: 0 <= i < |rs| ==> rs[i].instant <= fin
    ensures Sains(limite, Lire(Executer(limite, m, rs).1, k), fin)
    decreases |rs|
  {
    if rs == [] {
      SainsPlusTard(limite, Lire(m, k), t, fin);
    } else {
      EtapeDictionnaire(limite, m, t, rs[0]);
      RunDictionnaire(limite, Etape(limite, m, rs[0]).1, rs[0].instant, rs[1..], fin, k);
    }
  }

  /** Requests on other keys do not change what a key still counts at `t`. */
  lemma {:induction false} AutresClesNeutres(limite: nat, m: Horodatages, rs: seq<Requete>, k: Cle, t: real)
    requires limite >= 1
    requires forall i :: 0 <= i < |rs| ==> rs[i].cle != k && rs[i].instant <= t
    ensures Garder(Lire(Executer(limite, m, rs).1, k), t - FENETRE) == Garder(Lire(m, k), t - FENETRE)
    decreases |rs|
  {
    if rs != [] {
      var m' := Etape(limite, m, rs[0]).1;
      AutresClesNeutres(limite, m', rs[1..], k, t);
      BalayerLire(m, rs[0].instant - FENETRE, k);
      GarderDeuxFois(Lire(m, k), rs[0].instant - FENETRE, t - FENETRE);
    }
  }

  lemma TropSerre(limite: nat, ts: seq<real>, k: nat, lo: real)
    requires Espacee(limite, ts) && k + limite < |ts|
    ensures !(forall i :: k <= i < |ts| ==> lo < ts[i] <= lo + FENETRE)
  {
    assert ts[k + limite] - ts[k] >= FENETRE;
  }

  /** A refused window holds exactly `limite` instants, and stays stored. */
  lemma FenetrePleine(limite: nat, m: Horodatages, k: Cle, t: real)
    requires limite >= 1 && Sains(limite, Lire(m, k), t)
    requires Etape(limite, m, Requete(k, t)).0.Refusee?
    ensures var fenetre := Lire(Etape(limite, m, Requete(k, t)).1, k);
            && |fenetre| == limite
            && Etape(limite, m, Requete(k, t)).0 == Refusee(DelaiAnnonce(fenetre[0], t))
            && (forall i, j :: 0 <= i < j < |fenetre| ==> fenetre[i] <= fenetre[j])
            && (forall i :: 0 <= i < |fenetre| ==> t - FENETRE < fenetre[i] <= t)
  {
    FenetreCourante(m, k, t - FENETRE);
    var ts := Lire(m, k);
    var n := GarderSuffixe(ts, t - FENETRE);
    if n + limite < |ts| {
      TropSerre(limite, ts, n, t - FENETRE);
      assert false;
    }
  }

  lemma DelaiEncadre(ancien: real, maintenant: real)
    requires maintenant - FENETRE < ancien <= maintenant
    ensures var r := DelaiAnnonce(ancien, maintenant);
            && 1 <= r <= 61
            && maintenant + (r as real) > ancien + FENETRE
            && maintenant + (r as real) - 1.0 <= ancien + FENETRE
  {
  }

  /** A full window, and when it opens again. */
  lemma OuvertureFenetre(limite: nat, fenetre: seq<real>, t0: real, t: real)
    requires limite >= 1 && |fenetre| == limite && t0 <= t
    requires forall i, j :: 0 <= i < j < |fenetre| ==> fenetre[i] <= fenetre[j]
    requires forall i :: 0 <= i < |fenetre| ==> t0 - FENETRE < fenetre[i] <= t0
    ensures |Garder(fenetre, t - FENETRE)| < limite <==> t >= fenetre[0] + FENETRE
  {
    var n := GarderSuffixe(fenetre, t - FENETRE);
    assert n == 0 <==> fenetre[0] > t - FENETRE;
  }

  lemma DecisionSelonFenetre(limite: nat, m: Horodatages, k: Cle, t: real)
    requires limite >= 1
    ensures Etape(limite, m, Requete(k, t)).0.Acceptee? <==> |Garder(Lire(m, k), t - FENETRE)| < limite
  {
    FenetreCourante(m, k, t - FENETRE);
  }

  /** After a refusal, the key is served again exactly from `fenetre[0] + 60` on. */
  lemma ServiApresRefus(limite: nat, m: Horodatages, k: Cle, t0: real, apres: seq<Requete>, t: real)
    requires limite >= 1 && Sains(limite, Lire(m, k), t0) && t0 <= t
    requires Etape(limite, m, Requete(k, t0)).0.Refusee?
    requires forall i :: 0 <= i < |apres| ==> apres[i].cle != k && apres[i].instant <= t
    ensures var (d, m1) := Etape(limite, m, Requete(k, t0));
            && |Lire(m1, k)| == limite
            && t0 - FENETRE < Lire(m1, k)[0] <= t0
            && d == Refusee(DelaiAnnonce(Lire(m1, k)[0], t0))
            && (Etape(limite, Executer(limite, m1, apres).1, Requete(k, t)).0.Acceptee? <==> t >= Lire(m1, k)[0] + FENETRE)
  {
    FenetrePleine(limite, m, k, t0);
    var m1 := Etape(limite, m, Requete(k, t0)).1;
    AutresClesNeutres(limite, m1, apres, k, t);
    DecisionSelonFenetre(limite, Executer(limite, m1, apres).1, k, t);
    OuvertureFenetre(limite, Lire(m1, k), t0, t);
  }

  /** What a refusal `d` at `t0` promises of the decision `d'` at `t`. */
  ghost predicate Tenu(d: Reponse, t0: real, d': Reponse, t: real) {
    && d.Refusee? && 1 <= d.retryAfter <= 61
    && (t >= t0 + (d.retryAfter as real) ==> d'.Acceptee?)
    && (t < t0 + (d.retryAfter as real) - 1.0 ==> d'.Refusee?)
  }

  lemma DelaiTenu(ancien: real, t0: real, d': Reponse, t: real)
    requires t0 - FENETRE < ancien <= t0
    requires d'.Acceptee? <==> t >= ancien + FENETRE
    ensures Tenu(Refusee(DelaiAnnonce(ancien, t0)), t0, d', t)
  {
    DelaiEncadre(ancien, t0);
  }

  lemma RetryAfterTenu(limite: nat, m: Horodatages, k: Cle, t0: real, apres: seq<Requete>, t: real)
    requires limite >= 1 && Sains(limite, Lire(m, k), t0) && t0 <= t
    requires Etape(limite, m, Requete(k, t0)).0.Refusee?
    requires forall i :: 0 <= i < |apres| ==> apres[i].cle != k && apres[i].instant <= t
    ensures var (d, m1) := Etape(limite, m, Requete(k, t0));
            Tenu(d, t0, Etape(limite, Executer(limite, m1, apres).1, Requete(k, t)).0, t)
  {
    var m1 := Etape(limite, m, Requete(k, t0)).1;
    ServiApresRefus(limite, m, k, t0, apres, t);
    DelaiTenu(Lire(m1, k)[0], t0, Etape(limite, Executer(limite, m1, apres).1, Requete(k, t)).0, t);
  }

  /** Retry-After is honest, and tight to within a second. After any run, a client
      refused at `t0` with Retry-After `r`, whose key sees no other request, is
      accepted at every instant from `t0 + r` on, and still refused at every
      instant before `t0 + r - 1`. */
  lemma RetryAfterHonnete(limite: nat, debut: real, avant: seq<Requete>, k: Cle, t0: real,
                          apres: seq<Requete>, t: real)
    requires limite >= 1 && HorlogeCroissante(debut, avant) && debut <= t0 <= t
    requires forall i :: 0 <= i < |avant| ==> avant[i].instant <= t0
    requires Etape(limite, Executer(limite, map[], avant).1, Requete(k, t0)).0.Refusee?
    requires forall i :: 0 <= i < |apres| ==> apres[i].cle != k && apres[i].instant <= t
    ensures var (d, m1) := Etape(limite, Executer(limite, map[], avant).1, Requete(k, t0));
            Tenu(d, t0, Etape(limite, Executer(limite, m1, apres).1, Requete(k, t)).0, t)
  {
    VideSain(limite, debut);
    RunDictionnaire(limite, map[], debut, avant, t0, k);
    RetryAfterTenu(limite, Executer(limite, map[], avant).1, k, t0, apres, t);
  }

  lemma VideSain(limite: nat, t: real)
    ensures TousSains(limite, map[], t)
  {
  }

  // ---------------------------------------------------------------------------
  // The middleware's state
  // ---------------------------------------------------------------------------

  class Limiteur {
    const limite: nat
    var requestTimestamps: Horodatages

    constructor (limite: nat)
      requires limite >= 1
      ensures this.limite == limite && requestTimestamps == map[]
    {
      this.limite := limite;
      requestTimestamps := map[];
    }

    /** The body of the middleware under its lock. */
    method Verifier(cle: Cle, maintenant: real) returns (r: Reponse)
      requires limite >= 1
      modifies this
      ensures (r, requestTimestamps) == Etape(limite, old(requestTimestamps), Requete(cle, maintenant))
    {
      var coupe := maintenant - FENETRE;
      BalayerTout(coupe);
      var fenetre := Garder(Lire(requestTimestamps, cle), coupe);
      if |fenetre| >= limite {
        var delai := Tronquer(FENETRE - (maintenant - fenetre[0])) + 1;
        requestTimestamps := requestTimestamps[cle := fenetre];
        r := Refusee(if delai > 1 then delai else 1);
      } else {
        requestTimestamps := requestTimestamps[cle := fenetre + [maintenant]];
        r := Acceptee;
      }
    }

    /** The sweep of the whole dictionary, key by key. */
    method BalayerTout(coupe: real)
      modifies this
      ensures requestTimestamps == Balayer(old(requestTimestamps), coupe)
    {
      ghost var m0 := requestTimestamps;
      var cles := requestTimestamps.Keys;
      while cles != {}
        invariant cles <= m0.Keys
        invariant forall k :: k in cles ==> k in requestTimestamps && requestTimestamps[k] == m0[k]
        invariant forall k :: k !in cles ==> (k in requestTimestamps <==> k in Balayer(m0, coupe))
        invariant forall k :: k !in cles && k in requestTimestamps ==> requestTimestamps[k] == Balayer(m0, coupe)[k]
        decreases |cles|
      {
        var k :| k in cles;
        var filtre := Garder(requestTimestamps[k], coupe);
        if filtre != [] {
          requestTimestamps := requestTimestamps[k := filtre];
        } else {
          requestTimestamps := requestTimestamps - {k};
        }
        cles := cles - {k};
      }
      assert requestTimestamps == Balayer(m0, coupe);
    }
  }
}
