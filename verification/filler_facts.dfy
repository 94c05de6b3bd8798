/** The filler sentence that pads the recipe list holds no glossary term,
    so annotating a filler recipe leaves it as it is. */
module FillerFacts {
  import opened Text
  import opened CookingTerms
  import opened WordJoints
  import opened GlossaryFacts
  import opened RecipeParser

  /** The filler sentence: its first two pieces hold no glossary term. */
  lemma PaddingHead()
    ensures LaterAbsent("Cook the available", -1)
    ensures LaterAbsent(" ingredients together", -1)
  {
    PieceClear("Cook the available", {'d', 'n', 'p', 'r', 's'}, -1, [0, 3, 4, 5, 0, 0, 2, 3, 0]);
    PieceClear(" ingredients together", {'a', 'f', 'j', 'u'}, -1, [1, 2, 2, 0, 4, 2, 1, 0, 3]);
  }

  /** The filler sentence: its last two pieces hold no glossary term. */
  lemma PaddingTail()
    ensures LaterAbsent(" with seasonings", -1)
    ensures LaterAbsent(" until tender.", -1)
  {
    PieceClear(" with seasonings", {'b', 'c', 'd', 'p', 'u'}, -1, [2, 0, 0, 1, 0, 0, 0, 3, 2]);
    PieceClear(" until tender.", {'b', 'c', 'f', 'g', 'j', 'p', 's'}, -1, [0, 0, 0, 0, 2, 0, 0, 0, 4]);
  }

  /** The filler sentence holds no glossary term as a whole word. */
  lemma PaddingHasNoJargon()
    ensures forall j | 0 <= j < |Glossary| :: NoMatch(PaddingBody, Glossary[j].term)
  {
    var c1, c2, c3, c4 := "Cook the available", " ingredients together", " with seasonings", " until tender.";
    PaddingHead();
    PaddingTail();
    TermsAreWords();
    forall j | 0 <= j < |Glossary|
      ensures NoMatch(PaddingBody, Glossary[j].term)
    {
      var t := Glossary[j].term;
      NoMatchConcat(c1, c2, t);
      NoMatchConcat(c1 + c2, c3, t);
      NoMatchConcat(c1 + c2 + c3, c4, t);
    }
  }
}
