/** Jargon annotation (`explain_cooking_terms`): for each glossary term in
    turn, the first case-insensitive whole-word occurrence in the running
    text is replaced by the term followed by a plain-language explanation. */
module CookingTerms {
  import opened Optional
  import opened Text

  /** A glossary term and its explanation; the replacement text is
      `term (gloss)`. */
  datatype GlossaryEntry = GlossaryEntry(term: string, gloss: string)

  /** The text written in place of the first occurrence of `e.term`. */
  function Explanation(e: GlossaryEntry): string {
    e.term + " (" + e.gloss + ")"
  }

  /** The glossary, in the dictionary's insertion order (the order the
      terms are processed in). Each explanation is written in four pieces
      broken at spaces; the pieces join to the dictionary's text. */
  const Glossary: seq<GlossaryEntry> := [
    GlossaryEntry("saut\U{E9}",
      "cook quickly in" + " a small amount of" + " oil or butter over" + " medium-high heat"),
    GlossaryEntry("blanch",
      "briefly boil" + " then cool in ice" + " water to soften" + " or remove skins"),
    GlossaryEntry("braise",
      "slow-cook in a" + " small amount of" + " liquid in" + " a covered pot"),
    GlossaryEntry("julienne",
      "cut" + " into thin" + " matchstick-like" + " strips"),
    GlossaryEntry("deglaze",
      "add liquid to a" + " hot pan to loosen" + " and dissolve" + " browned bits"),
    GlossaryEntry("poach",
      "gently cook" + " in simmering" + " liquid just" + " below boiling"),
    GlossaryEntry("caramelize",
      "cook slowly" + " until sugars" + " turn golden" + " brown and sweet"),
    GlossaryEntry("fold",
      "gently combine" + " ingredients using" + " a spatula to" + " keep mixture airy"),
    GlossaryEntry("reduce",
      "boil or simmer" + " to thicken and" + " intensify flavors by" + " evaporating liquid")
  ]

  /** Python's `\w` for `str` patterns, restricted to ASCII and Latin-1:
      letters, digits, numeric signs and the underscore. */
  predicate IsWordChar(c: char) {
    || ('a' <= c <= 'z') || ('A' <= c <= 'Z') || ('0' <= c <= '9') || c == '_'
    || c == '\U{AA}' || c == '\U{B2}' || c == '\U{B3}' || c == '\U{B5}' || c == '\U{B9}'
    || c == '\U{BA}' || ('\U{BC}' <= c <= '\U{BE}')
    || ('\U{C0}' <= c <= '\U{FF}' && c != '\U{D7}' && c != '\U{F7}')
  }

  /** `\bterm\b` with `re.IGNORECASE` matches `text` at index `p`: the
      characters there lower-case to `term`, and neither neighbour is a word
      character. */
  predicate MatchesAt(text: string, term: string, p: int) {
    && 0 <= p && p + |term| <= |text|
    && Lower(text[p..p + |term|]) == term
    && (p == 0 || !IsWordChar(text[p - 1]))
    && (p + |term| == |text| || !IsWordChar(text[p + |term|]))
  }

  /** The term has no whole-word occurrence in `text`. */
  predicate NoMatch(text: string, term: string) {
    forall q | 0 <= q <= |text| :: !MatchesAt(text, term, q)
  }

  /** `p` is where `re.finditer` reports its first match. */
  predicate IsFirstMatch(text: string, term: string, p: int) {
    MatchesAt(text, term, p) && forall q | 0 <= q < p :: !MatchesAt(text, term, q)
  }

  /** The leftmost whole-word occurrence at or after `from`. */
  function FindWholeWord(text: string, term: string, from: nat): (r: Option<nat>)
    ensures r.Some? ==>
      from <= r.value && MatchesAt(text, term, r.value)
      && forall q | from <= q < r.value :: !MatchesAt(text, term, q)
    ensures r.None? ==> forall q | from <= q <= |text| :: !MatchesAt(text, term, q)
    decreases |text| + 1 - from
  {
    if from > |text| then None
    else if MatchesAt(text, term, from) then Some(from)
    else FindWholeWord(text, term, from + 1)
  }

  /** One iteration of the glossary loop: the replacement happens exactly at
      the first whole-word occurrence of `term`, and text without one is
      returned as it is. */
  function ReplaceFirstWholeWord(text: string, term: string, replacement: string): (r: string)
    ensures NoMatch(text, term) ==> r == text
    ensures forall p | IsFirstMatch(text, term, p) :: r == text[..p] + replacement + text[p + |term|..]
  {
    match FindWholeWord(text, term, 0)
    case None => text
    case Some(p) =>
      assert forall p' | IsFirstMatch(text, term, p') :: p' == p;
      text[..p] + replacement + text[p + |term|..]
  }

  /** The glossary loop over the entries of `g` from `i` on, threading the
      text through. */
  function ExplainFrom(g: seq<GlossaryEntry>, text: string, i: nat): string
    requires i <= |g|
    decreases |g| - i
  {
    if i == |g| then text
    else ExplainFrom(g, ReplaceFirstWholeWord(text, g[i].term, Explanation(g[i])), i + 1)
  }

  /** Text in which none of the remaining terms occurs as a whole word
      passes through the rest of the loop unchanged. */
  lemma {:induction false} ExplainFromUnmatched(g: seq<GlossaryEntry>, text: string, i: nat)
    requires i <= |g|
    ensures (forall j | i <= j < |g| :: NoMatch(text, g[j].term)) ==> ExplainFrom(g, text, i) == text
    decreases |g| - i
  {
    if i < |g| && forall j | i <= j < |g| :: NoMatch(text, g[j].term) {
      assert NoMatch(text, g[i].term);
      ExplainFromUnmatched(g, text, i + 1);
    }
  }

  /** `explain_cooking_terms(text)`: jargon-free text is left alone. */
  function ExplainCookingTerms(text: string): (r: string)
    ensures (forall i | 0 <= i < |Glossary| :: NoMatch(text, Glossary[i].term)) ==> r == text
  {
    ExplainFromUnmatched(Glossary, text, 0);
    ExplainFrom(Glossary, text, 0)
  }

  /** What one replacement does around the first occurrence at `p`: the text
      before it (which holds no occurrence) and the text after it (which
      holds every later occurrence) are kept verbatim, and the occurrence now
      reads in the glossary's own spelling, whatever its letter case was. */
  lemma OnlyFirstOccurrenceReplaced(text: string, e: GlossaryEntry, p: int)
    requires IsFirstMatch(text, e.term, p)
    ensures var r := ReplaceFirstWholeWord(text, e.term, Explanation(e));
      && r[..p] == text[..p]
      && r[p..p + |e.term|] == e.term
      && Lower(text[p..p + |e.term|]) == e.term
      && r[p + |Explanation(e)|..] == text[p + |e.term|..]
  {
    var x := Explanation(e);
    var a := text[..p];
    var b := text[p + |e.term|..];
    ReplaceAtFirstMatch(text, e.term, x, p);
    SpliceParts(a, x, b, |e.term|);
    assert x[..|e.term|] == e.term;
  }

  /** The replacement at a known first occurrence. */
  lemma ReplaceAtFirstMatch(text: string, term: string, replacement: string, p: int)
    requires IsFirstMatch(text, term, p)
    ensures ReplaceFirstWholeWord(text, term, replacement) == text[..p] + replacement + text[p + |term|..]
  {
  }

  /** Slicing `a + x + b` back into its parts. */
  lemma SpliceParts(a: string, x: string, b: string, k: nat)
    requires k <= |x|
    ensures var s := a + x + b;
      && s[..|a|] == a
      && s[|a|..|a| + k] == x[..k]
      && s[|a| + |x|..] == b
  {
    var s := a + x + b;
    assert s == a + (x + b);
    assert (x + b)[..k] == x[..k];
  }
}
