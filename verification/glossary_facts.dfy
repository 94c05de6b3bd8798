/** The glossary's own text: no explanation contains a term that comes
    after it in the glossary as a whole word. Each piece of an explanation
    is shown to lack, for every later term, one of that term's letters. */
module GlossaryFacts {
  import opened Text
  import opened CookingTerms
  import opened WordJoints

  /** No term after the `i`th has a whole-word occurrence in `s`. */
  predicate LaterAbsent(s: string, i: int) {
    forall j | 0 <= j < |Glossary| && i < j :: NoMatch(s, Glossary[j].term)
  }

  /** `s` holds no later term when each later term `j` has its letter
      `keys[j]` in a set of letters `s` avoids. In the per-entry lemmas
      below, `L` lists letters that no character of the piece lower-cases
      to, and `keys` gives, for each term of the glossary in order, the
      index of one of its letters in `L` (entries at or before `i` are not
      read). */
  lemma PieceClear(s: string, L: set<char>, i: int, keys: seq<int>)
    requires Avoids(s, L) && |keys| == |Glossary|
    requires forall j | 0 <= j < |Glossary| && i < j ::
      0 <= keys[j] < |Glossary[j].term| && Glossary[j].term[keys[j]] in L
    ensures LaterAbsent(s, i)
  {
    forall j | 0 <= j < |Glossary| && i < j
      ensures NoMatch(s, Glossary[j].term)
    {
      MissingLetterNoMatch(s, Glossary[j].term, keys[j], L);
    }
  }

  /** Every glossary term is a non-empty word. */
  lemma TermsAreWords()
    ensures forall j | 0 <= j < |Glossary| :: |Glossary[j].term| > 0 && IsWord(Glossary[j].term)
  {
  }

  /** An explanation holds no later term when none of its pieces does: the
      pieces of the gloss meet at spaces, and the term is fenced off from
      the gloss by ` (` and `)`. */
  lemma ExplanationClear(i: int, c1: string, c2: string, c3: string, c4: string)
    requires 0 <= i < |Glossary| && Glossary[i].gloss == c1 + c2 + c3 + c4
    requires |c2| > 0 && c2[0] == ' ' && |c3| > 0 && c3[0] == ' ' && |c4| > 0 && c4[0] == ' '
    requires LaterAbsent(Glossary[i].term, i)
    requires LaterAbsent(c1, i) && LaterAbsent(c2, i) && LaterAbsent(c3, i) && LaterAbsent(c4, i)
    ensures LaterAbsent(Explanation(Glossary[i]), i)
  {
    var e := Glossary[i];
    TermsAreWords();
    forall j | 0 <= j < |Glossary| && i < j
      ensures NoMatch(Explanation(e), Glossary[j].term)
    {
      var t := Glossary[j].term;
      NoMatchConcat(c1, c2, t);
      NoMatchConcat(c1 + c2, c3, t);
      NoMatchConcat(c1 + c2 + c3, c4, t);
      SeparatorsNoMatch(" (", t);
      SeparatorsNoMatch(")", t);
      NoMatchConcat(e.term, " (", t);
      NoMatchConcat(e.term + " (", e.gloss, t);
      NoMatchConcat(e.term + " (" + e.gloss, ")", t);
    }
  }

  /** Saute: the term and the first two pieces of its gloss ("cook quickly
      in", " a small amount of") hold no later term. Each entry's proof is
      split into a head and a tail lemma to keep every proof small. */
  lemma SauteHead()
    ensures LaterAbsent("saut\U{E9}", 0)
    ensures LaterAbsent("cook quickly in", 0)
    ensures LaterAbsent(" a small amount of", 0)
  {
    PieceClear("saut\U{E9}", {'b', 'c', 'd', 'j', 'p'}, 0, [0, 0, 0, 0, 0, 0, 0, 3, 2]);
    PieceClear("cook quickly in", {'a', 'b', 'd', 'j', 'p'}, 0, [0, 0, 0, 0, 0, 0, 1, 3, 2]);
    PieceClear(" a small amount of", {'b', 'c', 'd', 'j', 'p'}, 0, [0, 0, 0, 0, 0, 0, 0, 3, 2]);
  }

  /** Saute: the last two pieces of its gloss hold no later term. */
  lemma SauteTail()
    ensures LaterAbsent(" oil or butter over", 0)
    ensures LaterAbsent(" medium-high heat", 0)
  {
    PieceClear(" oil or butter over", {'a', 'd', 'f', 'j'}, 0, [0, 2, 2, 0, 4, 2, 1, 0, 2]);
    PieceClear(" medium-high heat", {'b', 'j', 'l', 'p', 'r'}, 0, [0, 0, 0, 0, 3, 0, 6, 2, 0]);
  }

  /** Saute: its explanation holds no later term. */
  lemma SauteClear()
    ensures LaterAbsent(Explanation(Glossary[0]), 0)
  {
    SauteHead();
    SauteTail();
    ExplanationClear(0, "cook quickly in", " a small amount of", " oil or butter over", " medium-high heat");
  }

  /** Blanch: the term and the first two pieces of its gloss hold no later term. */
  lemma BlanchHead()
    ensures LaterAbsent("blanch", 1)
    ensures LaterAbsent("briefly boil", 1)
    ensures LaterAbsent(" then cool in ice", 1)
  {
    PieceClear("blanch", {'d', 'j', 'p', 'r'}, 1, [0, 0, 1, 0, 0, 0, 2, 3, 0]);
    PieceClear("briefly boil", {'a', 'd', 'j'}, 1, [0, 0, 2, 0, 4, 2, 1, 3, 2]);
    PieceClear(" then cool in ice", {'a', 'b', 'd', 'j', 'p'}, 1, [0, 0, 0, 0, 0, 0, 1, 3, 2]);
  }

  /** Blanch: the last two pieces of its gloss hold no later term. */
  lemma BlanchTail()
    ensures LaterAbsent(" water to soften", 1)
    ensures LaterAbsent(" or remove skins", 1)
  {
    PieceClear(" water to soften", {'b', 'c', 'd', 'j', 'p'}, 1, [0, 0, 0, 0, 0, 0, 0, 3, 2]);
    PieceClear(" or remove skins", {'b', 'c', 'd', 'j', 'p'}, 1, [0, 0, 0, 0, 0, 0, 0, 3, 2]);
  }

  /** Blanch: its explanation holds no later term. */
  lemma BlanchClear()
    ensures LaterAbsent(Explanation(Glossary[1]), 1)
  {
    BlanchHead();
    BlanchTail();
    ExplanationClear(1, "briefly boil", " then cool in ice", " water to soften", " or remove skins");
  }

  /** Braise: the term and the first two pieces of its gloss hold no later term. */
  lemma BraiseHead()
    ensures LaterAbsent("braise", 2)
    ensures LaterAbsent("slow-cook in a", 2)
    ensures LaterAbsent(" small amount of", 2)
  {
    PieceClear("braise", {'c', 'd', 'j', 'p'}, 2, [0, 0, 0, 0, 0, 0, 0, 3, 2]);
    PieceClear("slow-cook in a", {'d', 'j', 'p', 'r'}, 2, [0, 0, 0, 0, 0, 0, 2, 3, 0]);
    PieceClear(" small amount of", {'c', 'd', 'j', 'p'}, 2, [0, 0, 0, 0, 0, 0, 0, 3, 2]);
  }

  /** Braise: the last two pieces of its gloss hold no later term. */
  lemma BraiseTail()
    ensures LaterAbsent(" liquid in", 2)
    ensures LaterAbsent(" a covered pot", 2)
  {
    PieceClear(" liquid in", {'e', 'f', 'j', 'p'}, 2, [0, 0, 0, 0, 1, 0, 5, 0, 1]);
    PieceClear(" a covered pot", {'f', 'g', 'h', 'j', 'm', 'u'}, 2, [0, 0, 0, 0, 2, 4, 4, 0, 3]);
  }

  /** Braise: its explanation holds no later term. */
  lemma BraiseClear()
    ensures LaterAbsent(Explanation(Glossary[2]), 2)
  {
    BraiseHead();
    BraiseTail();
    ExplanationClear(2, "slow-cook in a", " small amount of", " liquid in", " a covered pot");
  }

  /** Julienne: the term and the first two pieces of its gloss hold no later term. */
  lemma JulienneHead()
    ensures LaterAbsent("julienne", 3)
    ensures LaterAbsent("cut", 3)
    ensures LaterAbsent(" into thin", 3)
  {
    PieceClear("julienne", {'c', 'd', 'p'}, 3, [0, 0, 0, 0, 0, 0, 0, 3, 2]);
    PieceClear("cut", {'a', 'd', 'p'}, 3, [0, 0, 0, 0, 0, 0, 1, 3, 2]);
    PieceClear(" into thin", {'c', 'd', 'p'}, 3, [0, 0, 0, 0, 0, 0, 0, 3, 2]);
  }

  /** Julienne: the last two pieces of its gloss hold no later term. */
  lemma JulienneTail()
    ensures LaterAbsent(" matchstick-like", 3)
    ensures LaterAbsent(" strips", 3)
  {
    PieceClear(" matchstick-like", {'d', 'p', 'r'}, 3, [0, 0, 0, 0, 0, 0, 2, 3, 0]);
    PieceClear(" strips", {'c', 'd', 'o'}, 3, [0, 0, 0, 0, 0, 1, 0, 1, 2]);
  }

  /** Julienne: its explanation holds no later term. */
  lemma JulienneClear()
    ensures LaterAbsent(Explanation(Glossary[3]), 3)
  {
    JulienneHead();
    JulienneTail();
    ExplanationClear(3, "cut", " into thin", " matchstick-like", " strips");
  }

  /** Deglaze: the term and the first two pieces of its gloss hold no later term. */
  lemma DeglazeHead()
    ensures LaterAbsent("deglaze", 4)
    ensures LaterAbsent("add liquid to a", 4)
    ensures LaterAbsent(" hot pan to loosen", 4)
  {
    PieceClear("deglaze", {'c', 'f', 'p'}, 4, [0, 0, 0, 0, 0, 0, 0, 0, 4]);
    PieceClear("add liquid to a", {'c', 'f', 'p'}, 4, [0, 0, 0, 0, 0, 0, 0, 0, 4]);
    PieceClear(" hot pan to loosen", {'c', 'f'}, 4, [0, 0, 0, 0, 0, 3, 0, 0, 4]);
  }

  /** Deglaze: the last two pieces of its gloss hold no later term. */
  lemma DeglazeTail()
    ensures LaterAbsent(" and dissolve", 4)
    ensures LaterAbsent(" browned bits", 4)
  {
    PieceClear(" and dissolve", {'c', 'f', 'p'}, 4, [0, 0, 0, 0, 0, 0, 0, 0, 4]);
    PieceClear(" browned bits", {'c', 'f', 'p'}, 4, [0, 0, 0, 0, 0, 0, 0, 0, 4]);
  }

  /** Deglaze: its explanation holds no later term. */
  lemma DeglazeClear()
    ensures LaterAbsent(Explanation(Glossary[4]), 4)
  {
    DeglazeHead();
    DeglazeTail();
    ExplanationClear(4, "add liquid to a", " hot pan to loosen", " and dissolve", " browned bits");
  }

  /** Poach: the term and the first two pieces of its gloss hold no later term. */
  lemma PoachHead()
    ensures LaterAbsent("poach", 5)
    ensures LaterAbsent("gently cook", 5)
    ensures LaterAbsent(" in simmering", 5)
  {
    PieceClear("poach", {'f', 'r'}, 5, [0, 0, 0, 0, 0, 0, 2, 0, 0]);
    PieceClear("gently cook", {'a', 'f', 'r'}, 5, [0, 0, 0, 0, 0, 0, 1, 0, 0]);
    PieceClear(" in simmering", {'c', 'f'}, 5, [0, 0, 0, 0, 0, 0, 0, 0, 4]);
  }

  /** Poach: the last two pieces of its gloss hold no later term. */
  lemma PoachTail()
    ensures LaterAbsent(" liquid just", 5)
    ensures LaterAbsent(" below boiling", 5)
  {
    PieceClear(" liquid just", {'c', 'f'}, 5, [0, 0, 0, 0, 0, 0, 0, 0, 4]);
    PieceClear(" below boiling", {'c', 'f'}, 5, [0, 0, 0, 0, 0, 0, 0, 0, 4]);
  }

  /** Poach: its explanation holds no later term. */
  lemma PoachClear()
    ensures LaterAbsent(Explanation(Glossary[5]), 5)
  {
    PoachHead();
    PoachTail();
    ExplanationClear(5, "gently cook", " in simmering", " liquid just", " below boiling");
  }

  /** Caramelize: the term and the first two pieces of its gloss hold no later term. */
  lemma CaramelizeHead()
    ensures LaterAbsent("caramelize", 6)
    ensures LaterAbsent("cook slowly", 6)
    ensures LaterAbsent(" until sugars", 6)
  {
    PieceClear("caramelize", {'d', 'f'}, 6, [0, 0, 0, 0, 0, 0, 0, 0, 2]);
    PieceClear("cook slowly", {'f', 'r'}, 6, [0, 0, 0, 0, 0, 0, 0, 0, 0]);
    PieceClear(" until sugars", {'e', 'f'}, 6, [0, 0, 0, 0, 0, 0, 0, 0, 1]);
  }

  /** Caramelize: the last two pieces of its gloss hold no later term. */
  lemma CaramelizeTail()
    ensures LaterAbsent(" turn golden", 6)
    ensures LaterAbsent(" brown and sweet", 6)
  {
    PieceClear(" turn golden", {'c', 'f'}, 6, [0, 0, 0, 0, 0, 0, 0, 0, 4]);
    PieceClear(" brown and sweet", {'f', 'u'}, 6, [0, 0, 0, 0, 0, 0, 0, 0, 3]);
  }

  /** Caramelize: its explanation holds no later term. */
  lemma CaramelizeClear()
    ensures LaterAbsent(Explanation(Glossary[6]), 6)
  {
    CaramelizeHead();
    CaramelizeTail();
    ExplanationClear(6, "cook slowly", " until sugars", " turn golden", " brown and sweet");
  }

  /** Fold: the term and the first two pieces of its gloss hold no later term. */
  lemma FoldHead()
    ensures LaterAbsent("fold", 7)
    ensures LaterAbsent("gently combine", 7)
    ensures LaterAbsent(" ingredients using", 7)
  {
    PieceClear("fold", {'r'}, 7, [0, 0, 0, 0, 0, 0, 0, 0, 0]);
    PieceClear("gently combine", {'r'}, 7, [0, 0, 0, 0, 0, 0, 0, 0, 0]);
    PieceClear(" ingredients using", {'c'}, 7, [0, 0, 0, 0, 0, 0, 0, 0, 4]);
  }

  /** Fold: the last two pieces of its gloss hold no later term. */
  lemma FoldTail()
    ensures LaterAbsent(" a spatula to", 7)
    ensures LaterAbsent(" keep mixture airy", 7)
  {
    PieceClear(" a spatula to", {'r'}, 7, [0, 0, 0, 0, 0, 0, 0, 0, 0]);
    PieceClear(" keep mixture airy", {'d'}, 7, [0, 0, 0, 0, 0, 0, 0, 0, 2]);
  }

  /** Fold: its explanation holds no later term. */
  lemma FoldClear()
    ensures LaterAbsent(Explanation(Glossary[7]), 7)
  {
    FoldHead();
    FoldTail();
    ExplanationClear(7, "gently combine", " ingredients using", " a spatula to", " keep mixture airy");
  }

  /** No explanation holds a later term as a whole word (the last entry has
      no later term). */
  lemma LaterClear(i: int)
    requires 0 <= i < |Glossary|
    ensures LaterAbsent(Explanation(Glossary[i]), i)
  {
    if i == 0 { SauteClear(); }
    else if i == 1 { BlanchClear(); }
    else if i == 2 { BraiseClear(); }
    else if i == 3 { JulienneClear(); }
    else if i == 4 { DeglazeClear(); }
    else if i == 5 { PoachClear(); }
    else if i == 6 { CaramelizeClear(); }
    else if i == 7 { FoldClear(); }
  }
}
