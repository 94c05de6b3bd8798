/** Facts about whole-word occurrences that do not depend on the glossary:
    an occurrence never straddles a joint between a word character and a
    non-word character, so occurrences in a concatenation are those of its
    parts, and splicing an explanation in place of a whole word creates no
    new occurrence of another word. */
module WordJoints {
  import opened Text
  import opened CookingTerms

  /** Every character of `w` is a word character. */
  predicate IsWord(w: string) {
    forall k | 0 <= k < |w| :: IsWordChar(w[k])
  }

  /** No word can run across the joint of `u + v`. */
  predicate Seam(u: string, v: string) {
    u == [] || v == [] || !IsWordChar(u[|u| - 1]) || !IsWordChar(v[0])
  }

  /** Every character of a whole-word occurrence of a word is a word character. */
  lemma MatchIsWord(s: string, t: string, q: int)
    requires IsWord(t) && MatchesAt(s, t, q)
    ensures forall k | q <= k < q + |t| :: IsWordChar(s[k])
  {
    forall k | q <= k < q + |t|
      ensures IsWordChar(s[k])
    {
      assert Lower(s[q..q + |t|])[k - q] == LowerChar(s[k]);
    }
  }

  /** An occurrence in `u` is still one in `u + v` when no word runs across
      the joint. */
  lemma MatchInLeft(u: string, v: string, t: string, q: int)
    requires |t| > 0 && IsWord(t) && Seam(u, v) && MatchesAt(u, t, q)
    ensures MatchesAt(u + v, t, q)
  {
    MatchIsWord(u, t, q);
    assert (u + v)[q..q + |t|] == u[q..q + |t|];
  }

  /** An occurrence in `v` is one in `u + v`, shifted by `|u|`. */
  lemma MatchInRight(u: string, v: string, t: string, q: int)
    requires |t| > 0 && IsWord(t) && Seam(u, v) && MatchesAt(v, t, q)
    ensures MatchesAt(u + v, t, |u| + q)
  {
    MatchIsWord(v, t, q);
    assert (u + v)[|u| + q..|u| + q + |t|] == v[q..q + |t|];
  }

  /** An occurrence in `u + v` lies wholly in `u` or wholly in `v`. */
  lemma MatchInConcat(u: string, v: string, t: string, q: int)
    requires |t| > 0 && IsWord(t) && Seam(u, v) && MatchesAt(u + v, t, q)
    ensures MatchesAt(u, t, q) || MatchesAt(v, t, q - |u|)
  {
    var s := u + v;
    MatchIsWord(s, t, q);
    if q + |t| <= |u| {
      assert s[q..q + |t|] == u[q..q + |t|];
    } else if q >= |u| {
      assert s[q..q + |t|] == v[q - |u|..q - |u| + |t|];
    } else {
      // the occurrence would contain both characters at the joint
      JointChars(u, v);
      assert false;
    }
  }

  /** The two characters on either side of the joint of `u + v`. */
  lemma JointChars(u: string, v: string)
    requires u != [] && v != []
    ensures (u + v)[|u| - 1] == u[|u| - 1] && (u + v)[|u|] == v[0]
  {
  }

  /** Whole-word occurrences in `u + v` are exactly those in `u` and those in
      `v` when no word runs across the joint. */
  lemma NoMatchConcat(u: string, v: string, t: string)
    requires |t| > 0 && IsWord(t) && Seam(u, v)
    ensures NoMatch(u + v, t) <==> NoMatch(u, t) && NoMatch(v, t)
  {
    if NoMatch(u, t) && NoMatch(v, t) {
      forall q | 0 <= q <= |u + v|
        ensures !MatchesAt(u + v, t, q)
      {
        if MatchesAt(u + v, t, q) {
          MatchInConcat(u, v, t, q);
        }
      }
    }
    if !NoMatch(u, t) {
      var q :| 0 <= q <= |u| && MatchesAt(u, t, q);
      MatchInLeft(u, v, t, q);
    }
    if !NoMatch(v, t) {
      var q :| 0 <= q <= |v| && MatchesAt(v, t, q);
      MatchInRight(u, v, t, q);
    }
  }

  /** Replacing a whole-word occurrence of a word by `x` creates no
      occurrence of another word `t` that neither the text nor `x` had: the
      replaced occurrence is fenced by non-word characters on both sides. */
  lemma NoMatchAfterReplace(text: string, term: string, x: string, p: int, t: string)
    requires IsWord(term) && MatchesAt(text, term, p)
    requires |t| > 0 && IsWord(t) && NoMatch(text, t) && NoMatch(x, t)
    ensures NoMatch(text[..p] + x + text[p + |term|..], t)
  {
    var a, m, b := text[..p], text[p..p + |term|], text[p + |term|..];
    assert text == a + (m + b);
    NoMatchConcat(a, m + b, t);
    NoMatchConcat(m, b, t);
    NoMatchConcat(x, b, t);
    NoMatchConcat(a, x + b, t);
    assert a + x + b == a + (x + b);
  }

  /** No character of `s` lower-cases into `L`. */
  predicate Avoids(s: string, L: set<char>) {
    forall m | 0 <= m < |s| :: LowerChar(s[m]) !in L
  }

  /** A whole-word occurrence spells the term out letter by letter. */
  lemma MatchedLetter(s: string, t: string, q: int, k: int)
    requires MatchesAt(s, t, q) && 0 <= k < |t|
    ensures LowerChar(s[q + k]) == t[k]
  {
    assert Lower(s[q..q + |t|])[k] == LowerChar(s[q + k]);
  }

  /** Text lacking one of a term's letters holds no occurrence of it. */
  lemma MissingLetterNoMatch(s: string, t: string, k: int, L: set<char>)
    requires Avoids(s, L) && 0 <= k < |t| && t[k] in L
    ensures NoMatch(s, t)
  {
    forall q | 0 <= q <= |s|
      ensures !MatchesAt(s, t, q)
    {
      if MatchesAt(s, t, q) {
        MatchedLetter(s, t, q, k);
      }
    }
  }

  /** Text without word characters holds no whole-word occurrence. */
  lemma SeparatorsNoMatch(s: string, t: string)
    requires |t| > 0 && IsWord(t)
    requires forall k | 0 <= k < |s| :: !IsWordChar(s[k])
    ensures NoMatch(s, t)
  {
    forall q | 0 <= q <= |s|
      ensures !MatchesAt(s, t, q)
    {
      if MatchesAt(s, t, q) {
        MatchIsWord(s, t, q);
      }
    }
  }
}
