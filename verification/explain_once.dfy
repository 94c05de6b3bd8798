/** The glossary loop as a whole: a text in which only one glossary term
    occurs has that term explained once, at its first whole-word occurrence,
    and nothing else changes. No later loop step touches the explanation
    just written in. */
module ExplainOnce {
  import opened Optional
  import opened CookingTerms
  import opened WordJoints
  import opened GlossaryFacts

  /** One loop step: entry `k` replaces the first occurrence of its term. */
  lemma Step(g: seq<GlossaryEntry>, text: string, k: nat)
    requires k < |g|
    ensures ExplainFrom(g, text, k)
      == ExplainFrom(g, ReplaceFirstWholeWord(text, g[k].term, Explanation(g[k])), k + 1)
  {
  }

  /** A loop step whose term does not occur leaves the text as it is. */
  lemma StepUnmatched(g: seq<GlossaryEntry>, text: string, k: nat)
    requires k < |g| && NoMatch(text, g[k].term)
    ensures ExplainFrom(g, text, k) == ExplainFrom(g, text, k + 1)
  {
    Step(g, text, k);
  }

  /** For any glossary of words in which no explanation holds a later term:
      a text holding only term `i` comes out of the loop, run from any entry
      `k` up to `i`, as one replacement of that term's first occurrence. */
  lemma {:induction false} OneTermOnce(g: seq<GlossaryEntry>, text: string, k: nat, i: int)
    requires forall j | 0 <= j < |g| :: |g[j].term| > 0 && IsWord(g[j].term)
    requires k <= i < |g|
    requires forall j | i < j < |g| :: NoMatch(Explanation(g[i]), g[j].term)
    requires forall j | k <= j < |g| && j != i :: NoMatch(text, g[j].term)
    ensures ExplainFrom(g, text, k) == ReplaceFirstWholeWord(text, g[i].term, Explanation(g[i]))
    decreases i - k
  {
    if k < i {
      assert ExplainFrom(g, text, k) == ExplainFrom(g, text, k + 1) by {
        StepUnmatched(g, text, k);
      }
      OneTermOnce(g, text, k + 1, i);
    } else {
      ExplainedThenKept(g, text, i);
    }
  }

  /** Step `i` explains its term, and no later step finds its own term in
      the result. */
  lemma ExplainedThenKept(g: seq<GlossaryEntry>, text: string, i: int)
    requires forall j | 0 <= j < |g| :: |g[j].term| > 0 && IsWord(g[j].term)
    requires 0 <= i < |g|
    requires forall j | i < j < |g| :: NoMatch(Explanation(g[i]), g[j].term)
    requires forall j | i < j < |g| :: NoMatch(text, g[j].term)
    ensures ExplainFrom(g, text, i) == ReplaceFirstWholeWord(text, g[i].term, Explanation(g[i]))
  {
    var e := g[i];
    var r := ReplaceFirstWholeWord(text, e.term, Explanation(e));
    Step(g, text, i);
    forall j | i + 1 <= j < |g|
      ensures NoMatch(r, g[j].term)
    {
      ReplaceKeepsAbsent(text, e.term, Explanation(e), g[j].term);
    }
    ExplainFromUnmatched(g, r, i + 1);
  }

  /** Replacing the first occurrence of a word by a text that lacks another
      word `t` keeps `t` absent from a text that lacked it. */
  lemma ReplaceKeepsAbsent(text: string, term: string, x: string, t: string)
    requires IsWord(term) && |t| > 0 && IsWord(t) && NoMatch(text, t) && NoMatch(x, t)
    ensures NoMatch(ReplaceFirstWholeWord(text, term, x), t)
  {
    match FindWholeWord(text, term, 0)
    case None =>
    case Some(p) =>
      assert IsFirstMatch(text, term, p);
      ReplaceAtFirstMatch(text, term, x, p);
      NoMatchAfterReplace(text, term, x, p, t);
  }

  /** A text holding only glossary term `i` comes out of
      `explain_cooking_terms` as one replacement of that term's first
      occurrence: the earlier steps find nothing, and the later steps find
      nothing either, neither in the text nor in the explanation. */
  lemma SingleTermExplainedOnce(text: string, i: int)
    requires 0 <= i < |Glossary|
    requires forall j | 0 <= j < |Glossary| && j != i :: NoMatch(text, Glossary[j].term)
    ensures ExplainCookingTerms(text)
      == ReplaceFirstWholeWord(text, Glossary[i].term, Explanation(Glossary[i]))
  {
    TermsAreWords();
    LaterClear(i);
    OneTermOnce(Glossary, text, 0, i);
  }
}
