/**
 * The java.util.List operations the core relies on, on sequences.
 * Creatures have no equals(), so list membership is reference identity,
 * which is what Dafny's == on class references is.
 */
module Listes {

  /** No element occurs twice. */
  predicate Distinct<T(==)>(s: seq<T>)
  {
    forall i, j :: 0 <= i < j < |s| ==> s[i] != s[j]
  }

  /** Index of the first occurrence of x in s. */
  function PremierIndice<T(==)>(s: seq<T>, x: T): (i: nat)
    requires x in s
    ensures i < |s| && s[i] == x && x !in s[..i]
  {
    if s[0] == x then 0
    else
      var j := PremierIndice(s[1..], x);
      assert s[1..][..j] == s[1..j + 1];
      assert s[..j + 1] == [s[0]] + s[1..j + 1];
      j + 1
  }

  /**
   * List.remove(Object): removes the first occurrence of x, if any.
   * RetirerPremierForme states that the other elements keep their order.
   */
  function RetirerPremier<T(==)>(s: seq<T>, x: T): (r: seq<T>)
    ensures x !in s ==> r == s
    ensures multiset(r) == multiset(s) - multiset{x}
  {
    if s == [] then []
    else if s[0] == x then
      assert s == [s[0]] + s[1..];
      s[1..]
    else
      assert s == [s[0]] + s[1..];
      [s[0]] + RetirerPremier(s[1..], x)
  }

  /** List.remove(x) deletes exactly the first occurrence and keeps the rest in order. */
  lemma {:induction false} RetirerPremierForme<T>(s: seq<T>, x: T)
    requires x in s
    ensures RetirerPremier(s, x) == s[..PremierIndice(s, x)] + s[PremierIndice(s, x) + 1..]
  {
    if s[0] == x {
      assert s[..0] == [];
    } else {
      var t := s[1..];
      RetirerPremierForme(t, x);
      var j := PremierIndice(t, x);
      assert PremierIndice(s, x) == j + 1;
      assert RetirerPremier(s, x) == [s[0]] + RetirerPremier(t, x);
      DecoupeQueue(s, j);
    }
  }

  lemma DecoupeQueue<T>(s: seq<T>, j: nat)
    requires j + 1 < |s|
    ensures [s[0]] + (s[1..][..j] + s[1..][j + 1..]) == s[..j + 1] + s[j + 2..]
  {
    var t := s[1..];
    assert t[..j] == s[1..j + 1];
    assert t[j + 1..] == s[j + 2..];
    assert [s[0]] + s[1..j + 1] == s[..j + 1];
  }

  /** Every element of s that is not in xs, in order. */
  function Retirer<T(==)>(s: seq<T>, xs: set<T>): (r: seq<T>)
    ensures |r| <= |s|
  {
    if s == [] then []
    else if s[0] in xs then Retirer(s[1..], xs)
    else [s[0]] + Retirer(s[1..], xs)
  }

  /** Exactly the elements of s outside xs remain. */
  lemma {:induction false} RetirerExact<T>(s: seq<T>, xs: set<T>)
    ensures forall x :: x in Retirer(s, xs) <==> x in s && x !in xs
  {
    if s != [] {
      RetirerExact(s[1..], xs);
      assert forall x :: x in s <==> x == s[0] || x in s[1..];
    }
  }

  /** An element that occurs at most once is gone after List.remove. */
  lemma AbsentApresRetrait<T>(s: seq<T>, x: T)
    requires multiset(s)[x] <= 1
    ensures x !in RetirerPremier(s, x)
  {
    var r := RetirerPremier(s, x);
    assert multiset(r)[x] == 0;
  }

  /** Removing nothing keeps the list. */
  lemma {:induction false} RetirerRien<T>(s: seq<T>)
    ensures Retirer(s, {}) == s
  {
    if s != [] {
      RetirerRien(s[1..]);
    }
  }

  /**
   * In a list without duplicates, removing the first occurrence of an
   * element not yet removed extends the removed set by that element.
   */
  lemma {:induction false} RetirerPremierEtape<T>(s: seq<T>, xs: set<T>, x: T)
    requires Distinct(s)
    requires x in s && x !in xs
    ensures RetirerPremier(Retirer(s, xs), x) == Retirer(s, xs + {x})
  {
    if s[0] == x {
      assert x !in s[1..] by {
        forall k | 0 <= k < |s| - 1 ensures s[1..][k] != x {
          assert s[1..][k] == s[k + 1];
        }
      }
      RetirerDisjoint(s[1..], xs, x);
    } else {
      assert Distinct(s[1..]) by {
        forall i, j | 0 <= i < j < |s| - 1 ensures s[1..][i] != s[1..][j] {
          assert s[1..][i] == s[i + 1] && s[1..][j] == s[j + 1];
        }
      }
      RetirerPremierEtape(s[1..], xs, x);
    }
  }

  /** Adding to the removed set an element absent from the list changes nothing. */
  lemma {:induction false} RetirerDisjoint<T>(s: seq<T>, xs: set<T>, x: T)
    requires x !in s
    ensures Retirer(s, xs + {x}) == Retirer(s, xs)
  {
    if s != [] {
      RetirerDisjoint(s[1..], xs, x);
    }
  }

  /** Removing elements keeps a list without duplicates free of them. */
  lemma {:induction false} RetirerDistinct<T>(s: seq<T>, xs: set<T>)
    requires Distinct(s)
    ensures Distinct(Retirer(s, xs))
  {
    if s != [] {
      assert Distinct(s[1..]) by {
        forall i, j | 0 <= i < j < |s| - 1 ensures s[1..][i] != s[1..][j] {
          assert s[1..][i] == s[i + 1] && s[1..][j] == s[j + 1];
        }
      }
      RetirerDistinct(s[1..], xs);
      RetirerExact(s[1..], xs);
      var t := Retirer(s[1..], xs);
      if s[0] !in xs {
        assert s[0] !in t;
        var r := [s[0]] + t;
        forall i, j | 0 <= i < j < |r| ensures r[i] != r[j] {
          if i > 0 {
            assert r[i] == t[i - 1] && r[j] == t[j - 1];
          } else {
            assert r[j] == t[j - 1];
          }
        }
      }
    }
  }
}
