/** Recipe synthesis (`generate_recipy_suggestion` and the two builders it
    dispatches to, core/recipe_generator.py). The provider call is not
    modelled: its outcome is the parameter `reply`, `None` when the call
    raised (including a reply whose content is `None`, whose `.strip()`
    raises), otherwise the reply's text. The clock is the parameter `now`,
    already formatted. */
module RecipeGenerator {
  import opened Optional
  import opened Text
  import opened MealTypes
  import opened CookingTerms
  import opened RecipeParser
  import opened FillerFacts

  /** `now.strftime('%I:%M %p')` and `now.strftime('%Y-%m-%d')`. */
  datatype Moment = Moment(time: string, date: string)

  /** The dictionary both builders return; field for field, `recipy_name`
      and `recipy` are `names` and `bodies`. */
  datatype RecipeSet = RecipeSet(
    mealType: string,
    taskCategory: string,
    time: string,
    date: string,
    itemsAvailable: string,
    itemsNeeded: string,
    names: seq<string>,
    bodies: seq<string>)

  const RecipeTaskCategory: string := "Recipy task"
  const ParsedItemsNeeded: string := "Cooking oil, salt, black pepper, water, onions"
  const FallbackItemsNeeded: string := "Salt, pepper, herbs"

  const MuttonNames: seq<string> :=
    ["Recipe 1: Mutton Biryani Delight", "Recipe 2: Mutton Stew", "Recipe 3: Mutton Veggie Pilaf"]
  const MuttonBodies: seq<string> :=
    ["Step-by-step for Mutton Biryani...", "Step-by-step for Mutton Stew...",
     "Step-by-step for Mutton Veggie Pilaf..."]
  const GenericNames: seq<string> :=
    ["Recipe 1: Veggie Soup", "Recipe 2: Simple Salad", "Recipe 3: Pasta Dish"]
  const GenericBodies: seq<string> :=
    ["Step-by-step for Veggie Soup...", "Step-by-step for Simple Salad...",
     "Step-by-step for Pasta Dish..."]

  /** The ingredient signature the rule-based builder recognises: both
      "mutton" and "rice" occur in the lower-cased item list. */
  predicate HasMuttonAndRice(availableItems: string) {
    Contains(Lower(availableItems), "mutton") && Contains(Lower(availableItems), "rice")
  }

  /** `create_smart_recipe_from_ingredients`: a canned set of three recipes,
      the mutton template when the signature matches and the generic one
      otherwise. */
  function CreateSmartRecipe(availableItems: string, now: Moment, mealType: string): (r: RecipeSet)
    ensures r.mealType == mealType && r.taskCategory == RecipeTaskCategory
    ensures r.time == now.time && r.date == now.date && r.itemsAvailable == availableItems
    ensures r.itemsNeeded == FallbackItemsNeeded
    ensures |r.names| == 3 && |r.bodies| == 3
    ensures HasMuttonAndRice(availableItems) <==> r.names == MuttonNames
    ensures HasMuttonAndRice(availableItems) <==> r.bodies == MuttonBodies
    ensures !HasMuttonAndRice(availableItems) <==> r.names == GenericNames
    ensures !HasMuttonAndRice(availableItems) <==> r.bodies == GenericBodies
  {
    var mutton := HasMuttonAndRice(availableItems);
    assert MuttonNames[0] != GenericNames[0];
    assert MuttonBodies[0] != GenericBodies[0];
    RecipeSet(mealType, RecipeTaskCategory, now.time, now.date, availableItems, FallbackItemsNeeded,
              if mutton then MuttonNames else GenericNames,
              if mutton then MuttonBodies else GenericBodies)
  }

  /** `parse_ai_recipe_response` on a reply that has been stripped. Its
      `except` branch is not modelled: nothing in its `try` block can raise
      on a string. */
  function ParseAiRecipeResponse(aiResponse: string, availableItems: string, now: Moment, mealType: string): (r: RecipeSet)
    ensures r.mealType == mealType && r.taskCategory == RecipeTaskCategory
    ensures r.time == now.time && r.date == now.date && r.itemsAvailable == availableItems
    ensures r.itemsNeeded == ParsedItemsNeeded
    ensures |r.names| == 3 && |r.bodies| == 3
    ensures var blocks := Blocks(SplitLines(aiResponse));
      forall i | 0 <= i < 3 && i < |blocks| ::
        r.names[i] == blocks[i].name
        && r.bodies[i] == RecipeLabel(i + 1) + ExplainCookingTerms(Strip(blocks[i].text))
    ensures var blocks := Blocks(SplitLines(aiResponse));
      forall i | |blocks| <= i < 3 ::
        r.names[i] == FillerName(i + 1) && r.bodies[i] == FillerBody(ExplainCookingTerms, i + 1)
  {
    var p := ParseWith(ExplainCookingTerms, aiResponse);
    RecipeSet(mealType, RecipeTaskCategory, now.time, now.date, availableItems, ParsedItemsNeeded,
              p.names, p.bodies)
  }

  /** `generate_recipy_suggestion(available_items, user_conversation)`: the
      meal type comes from the conversation (a missing one reads as ""), a
      reply is parsed, and a failed call falls back to the rule-based
      builder. */
  function GenerateRecipySuggestion(availableItems: string, conversation: Option<string>,
                                    reply: Option<string>, now: Moment): (r: RecipeSet)
    ensures r.mealType == MealTypeFromConversation(conversation.GetOr(""))
    ensures r.mealType in MealLabels
    ensures r.taskCategory == RecipeTaskCategory
    ensures r.time == now.time && r.date == now.date && r.itemsAvailable == availableItems
    ensures |r.names| == 3 && |r.bodies| == 3
    ensures reply.None? ==> r == CreateSmartRecipe(availableItems, now, r.mealType)
    ensures reply.Some? ==> r == ParseAiRecipeResponse(Strip(reply.value), availableItems, now, r.mealType)
  {
    var mealType := MealTypeFromConversation(conversation.GetOr(""));
    match reply
    case None => CreateSmartRecipe(availableItems, now, mealType)
    case Some(text) => ParseAiRecipeResponse(Strip(text), availableItems, now, mealType)
  }

  /** Which builder ran can be told from `items_needed` alone: the parser
      and the rule-based builder each write their own constant. */
  lemma PathFromItemsNeeded(availableItems: string, conversation: Option<string>, reply: Option<string>, now: Moment)
    ensures var r := GenerateRecipySuggestion(availableItems, conversation, reply, now);
      (r.itemsNeeded == FallbackItemsNeeded <==> reply.None?)
      && (r.itemsNeeded == ParsedItemsNeeded <==> reply.Some?)
  {
    assert |FallbackItemsNeeded| != |ParsedItemsNeeded|;
    var mealType := MealTypeFromConversation(conversation.GetOr(""));
    if reply.None? {
      assert CreateSmartRecipe(availableItems, now, mealType).itemsNeeded == FallbackItemsNeeded;
    } else {
      assert ParseAiRecipeResponse(Strip(reply.value), availableItems, now, mealType).itemsNeeded == ParsedItemsNeeded;
    }
  }

  /** A reply with no marker line is not a failure: it yields three filler
      entries, not the rule-based recipes. */
  lemma {:induction false} NoBlocksMeansFiller(availableItems: string, conversation: Option<string>, text: string, now: Moment)
    requires forall i | 0 <= i < |SplitLines(Strip(text))| :: !IsMarkerLine(Strip(SplitLines(Strip(text))[i]))
    ensures var r := GenerateRecipySuggestion(availableItems, conversation, Some(text), now);
      && r.itemsNeeded == ParsedItemsNeeded
      && forall i | 0 <= i < 3 ::
        r.names[i] == FillerName(i + 1) && r.bodies[i] == FillerBody(ExplainCookingTerms, i + 1)
  {
    NoMarkerNoBlocks(SplitLines(Strip(text)));
  }

  /** The filler sentence has no jargon, so the annotator leaves it as it
      is: a filler body reads "Recipe k: " and the sentence itself. */
  lemma FillerReadsPlain(k: nat)
    ensures FillerBody(ExplainCookingTerms, k) == RecipeLabel(k) + PaddingBody
  {
    PaddingHasNoJargon();
  }

  /** The filler names differ from one another: each carries its own
      position. */
  lemma FillerNamesDistinct(i: nat, j: nat)
    requires FillerName(i) == FillerName(j)
    ensures i == j
  {
    var tail := ": " + PaddingName;
    LabelDigits(i, PaddingName);
    LabelDigits(j, PaddingName);
    LeadingDigits(NatToString(i), tail);
    LeadingDigits(NatToString(j), tail);
    NatToStringInjective(i, j);
  }

  /** After "Recipe " a labelled text continues with the number's digits. */
  lemma LabelDigits(k: nat, rest: string)
    ensures |RecipeLabel(k) + rest| >= 7
    ensures (RecipeLabel(k) + rest)[7..] == NatToString(k) + (": " + rest)
  {
    var d := NatToString(k);
    assert RecipeLabel(k) + rest == "Recipe " + (d + (": " + rest));
  }
}
