/** The two shapes every operation of the normalizer takes: deleting every
    character of a class (`str.replace(x, '')`, `re.sub(class, '', s)`) and
    substituting one character for every member of a class
    (`re.sub(class, t, s)` with a one-character replacement). */
module TextOps {
  import opened CharClasses

  /** True when no character of `s` belongs to `k`. */
  predicate Free(s: string, k: CharClass)
  {
    forall i :: 0 <= i < |s| ==> !k.Has(s[i])
  }

  /** `s` with every character of `k` removed. */
  function Delete(s: string, k: CharClass): (r: string)
    ensures Free(r, k)
  {
    if s == [] then []
    else if k.Has(s[0]) then Delete(s[1..], k)
    else [s[0]] + Delete(s[1..], k)
  }

  /** `s` with `t` written at every position holding a character of `k`. */
  function Replace(s: string, k: CharClass, t: char): (r: string)
    ensures |r| == |s|
    ensures forall i :: 0 <= i < |s| ==> r[i] == (if k.Has(s[i]) then t else s[i])
  {
    if s == [] then []
    else [if k.Has(s[0]) then t else s[0]] + Replace(s[1..], k, t)
  }

  /** Deletion never lengthens the text, and it changes the text exactly
      when some character of the class is present. */
  lemma {:induction false} DeleteLength(s: string, k: CharClass)
    ensures |Delete(s, k)| <= |s|
    ensures Delete(s, k) == s <==> Free(s, k)
  {
    if s != [] {
      DeleteLength(s[1..], k);
      if k.Has(s[0]) {
        assert Delete(s, k) != s;
      } else {
        assert Delete(s, k) == [s[0]] + Delete(s[1..], k);
        assert s == [s[0]] + s[1..];
        assert Free(s, k) <==> Free(s[1..], k);
      }
    }
  }

  /** A character survives deletion exactly when it occurs and lies outside
      the class. */
  lemma DeleteMembers(s: string, k: CharClass, c: char)
    ensures c in Delete(s, k) <==> c in s && !k.Has(c)
  {
    DeleteCounts(s, k, c);
  }

  /** Deletion keeps the survivors in their original order: it distributes
      over concatenation, so it acts on each character independently. */
  lemma {:induction false} DeleteAppend(a: string, b: string, k: CharClass)
    ensures Delete(a + b, k) == Delete(a, k) + Delete(b, k)
  {
    if a == [] {
      assert a + b == b;
    } else {
      var rest := Delete(a[1..] + b, k);
      assert (a + b)[0] == a[0] && (a + b)[1..] == a[1..] + b;
      DeleteAppend(a[1..], b, k);
      assert rest == Delete(a[1..], k) + Delete(b, k);
      if k.Has(a[0]) {
        assert Delete(a + b, k) == rest;
      } else {
        assert Delete(a + b, k) == [a[0]] + rest;
      }
    }
  }

  /** Deletion removes exactly the occurrences of the class: every other
      character keeps its number of occurrences. */
  lemma {:induction false} DeleteCounts(s: string, k: CharClass, c: char)
    ensures multiset(Delete(s, k))[c] == if k.Has(c) then 0 else multiset(s)[c]
  {
    if s != [] {
      DeleteCounts(s[1..], k, c);
      assert s == [s[0]] + s[1..];
      assert multiset(s) == multiset([s[0]]) + multiset(s[1..]);
    }
  }

  /** Deleting twice with the same class is deleting once. */
  lemma DeleteIdempotent(s: string, k: CharClass)
    ensures Delete(Delete(s, k), k) == Delete(s, k)
  {
    DeleteLength(Delete(s, k), k);
  }

  /** Two deletions may be performed in either order. */
  lemma {:induction false} DeleteCommute(s: string, a: CharClass, b: CharClass)
    ensures Delete(Delete(s, a), b) == Delete(Delete(s, b), a)
  {
    if s != [] {
      DeleteCommute(s[1..], a, b);
      if !a.Has(s[0]) {
        assert Delete(s, a) == [s[0]] + Delete(s[1..], a);
        assert Delete(s, a)[1..] == Delete(s[1..], a);
      }
      if !b.Has(s[0]) {
        assert Delete(s, b) == [s[0]] + Delete(s[1..], b);
        assert Delete(s, b)[1..] == Delete(s[1..], b);
      }
    }
  }

  /** A deletion never creates a character of another class, so a string
      free of `b` stays free of `b`. */
  lemma DeleteKeepsFree(s: string, a: CharClass, b: CharClass)
    requires Free(s, b)
    ensures Free(Delete(s, a), b)
  {
    var r := Delete(s, a);
    forall i | 0 <= i < |r|
      ensures !b.Has(r[i])
    {
      DeleteMembers(s, a, r[i]);
    }
  }

  /** A substitution whose replacement lies outside its class leaves no
      character of the class behind. */
  lemma ReplaceClears(s: string, k: CharClass, t: char)
    requires !k.Has(t)
    ensures Free(Replace(s, k, t), k)
  {
  }

  /** Such a substitution is idempotent. */
  lemma ReplaceIdempotent(s: string, k: CharClass, t: char)
    requires !k.Has(t)
    ensures Replace(Replace(s, k, t), k, t) == Replace(s, k, t)
  {
  }

  /** Substitutions on disjoint classes, neither of which produces a
      character of the other, may be performed in either order. */
  lemma ReplaceCommute(s: string, a: CharClass, ta: char, b: CharClass, tb: char)
    requires forall c :: !(a.Has(c) && b.Has(c))
    requires !a.Has(tb) && !b.Has(ta)
    ensures Replace(Replace(s, a, ta), b, tb) == Replace(Replace(s, b, tb), a, ta)
  {
  }
}
