/** Paths as sequences of components and as strings: "/".join and str.split("/"). */
module Paths {
  type Chemin = seq<string>

  predicate SansBarre(s: string) { '/' !in s }

  function Joindre(parts: seq<string>): string {
    if parts == [] then ""
    else if |parts| == 1 then parts[0]
    else parts[0] + "/" + Joindre(parts[1..])
  }

  function Decouper(s: string): (r: seq<string>)
    ensures |r| >= 1
    ensures forall i :: 0 <= i < |r| ==> SansBarre(r[i])
  {
    if s == "" then [""]
    else
      var r := Decouper(s[1..]);
      if s[0] == '/' then [""] + r else r[0 := [s[0]] + r[0]]
  }

  lemma {:induction false} DecouperPrefixe(p: string, reste: string)
    requires SansBarre(p)
    ensures Decouper(p + "/" + reste) == [p] + Decouper(reste)
    ensures Decouper(p) == [p]
  {
    if p == "" {
      assert p + "/" + reste == "/" + reste;
      assert ("/" + reste)[1..] == reste;
    } else {
      DecouperPrefixe(p[1..], reste);
      assert (p + "/" + reste)[1..] == p[1..] + "/" + reste;
      assert p == [p[0]] + p[1..];
    }
  }

  lemma {:induction false} DecouperJoindre(parts: seq<string>)
    requires parts != [] && forall p :: p in parts ==> SansBarre(p)
    ensures Decouper(Joindre(parts)) == parts
  {
    DecouperPrefixe(parts[0], Joindre(parts[1..]));
    if |parts| > 1 {
      DecouperJoindre(parts[1..]);
    }
  }

  lemma JoindreTete(parts: seq<string>, c: char)
    requires parts != []
    ensures Joindre(parts[0 := [c] + parts[0]]) == [c] + Joindre(parts)
    ensures Joindre([""] + parts) == "/" + Joindre(parts)
  {
    assert ([""] + parts)[1..] == parts;
    if |parts| > 1 {
      assert parts[0 := [c] + parts[0]][1..] == parts[1..];
      assert [c] + parts[0] + "/" + Joindre(parts[1..]) == [c] + (parts[0] + "/" + Joindre(parts[1..]));
    }
  }

  lemma {:induction false} JoindreDecouper(s: string)
    ensures Joindre(Decouper(s)) == s
  {
    if s != "" {
      JoindreDecouper(s[1..]);
      JoindreTete(Decouper(s[1..]), s[0]);
      assert s == [s[0]] + s[1..];
    }
  }

  lemma {:induction false} JoindreConcat(a: seq<string>, b: seq<string>)
    requires a != [] && b != []
    ensures Joindre(a + b) == Joindre(a) + "/" + Joindre(b)
  {
    assert (a + b)[1..] == a[1..] + b;
    if |a| > 1 {
      JoindreConcat(a[1..], b);
      assert a[0] + "/" + (Joindre(a[1..]) + "/" + Joindre(b)) == a[0] + "/" + Joindre(a[1..]) + "/" + Joindre(b);
    }
  }

  lemma {:induction false} DecouperConcat(s: string, reste: string)
    ensures Decouper(s + "/" + reste) == Decouper(s) + Decouper(reste)
  {
    if s == "" {
      assert s + "/" + reste == "/" + reste && ("/" + reste)[1..] == reste;
    } else {
      DecouperConcat(s[1..], reste);
      assert (s + "/" + reste)[1..] == s[1..] + "/" + reste;
    }
  }

  // ---------------------------------------------------------------------------
  // Absolute paths
  // ---------------------------------------------------------------------------

  /** `str` of an absolute path. */
  function Texte(c: Chemin): string { "/" + Joindre(c) }

  ghost predicate Ordinaire(c: Chemin) { forall p :: p in c ==> p != "" && SansBarre(p) }

  lemma TexteDecoupe(c: Chemin)
    requires Ordinaire(c) && c != []
    ensures Decouper(Texte(c)) == [""] + c && |Texte(c)| >= 2
  {
    DecouperPrefixe("", Joindre(c));
    assert "" + "/" + Joindre(c) == Texte(c);
    DecouperJoindre(c);
    assert c[0] in c;
  }

  lemma TexteInjectif(a: Chemin, b: Chemin)
    requires Ordinaire(a) && Ordinaire(b)
    ensures Texte(a) == Texte(b) <==> a == b
  {
    if a != [] { TexteDecoupe(a); }
    if b != [] { TexteDecoupe(b); }
    assert Texte(a) == Texte(b) && a != [] && b != [] ==> a == ([""] + a)[1..] == ([""] + b)[1..] == b;
  }

  lemma DescendantTexte(z: Chemin, k: Chemin)
    requires z != [] && z < k
    ensures Texte(z) + "/" <= Texte(k)
  {
    hide Joindre;
    var reste := k[|z|..];
    assert k == z + reste;
    JoindreConcat(z, reste);
    assert Texte(k) == Texte(z) + "/" + Joindre(reste);
  }

  lemma TexteDescendant(z: Chemin, k: Chemin)
    requires Ordinaire(z) && Ordinaire(k) && z != [] && k != []
    requires Texte(z) + "/" <= Texte(k)
    ensures z < k
  {
    hide Texte, Joindre;
    var reste := Texte(k)[|Texte(z)| + 1..];
    assert Texte(k) == Texte(z) + "/" + reste;
    TexteDecoupe(z);
    TexteDecoupe(k);
    DecouperConcat(Texte(z), reste);
    assert |Decouper(reste)| >= 1;
    Allonge(z, Decouper(reste), k);
  }

  lemma Allonge(z: Chemin, reste: Chemin, k: Chemin)
    requires [""] + k == [""] + z + reste && reste != []
    ensures z < k
  {
    assert k == ([""] + k)[1..] == ([""] + z + reste)[1..] == z + reste;
  }

  /** Comparing strings up to a separator is comparing directories: `/x/uploads` is above
      `/x/uploads/a` and not above `/x/uploads-bis`. */
  lemma PrefixeTexte(z: Chemin, k: Chemin)
    requires Ordinaire(z) && Ordinaire(k) && z != []
    ensures Texte(z) + "/" <= Texte(k) <==> z < k
  {
    TexteDecoupe(z);
    if k == [] {
      assert |Texte(k)| == 1;
    } else if z < k {
      DescendantTexte(z, k);
    } else if Texte(z) + "/" <= Texte(k) {
      TexteDescendant(z, k);
    }
  }
}
