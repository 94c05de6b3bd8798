/** Meal-type detection (`get_meal_type_from_conversation`): the first
    keyword of a fixed list, in list order, that occurs anywhere in the
    lower-cased conversation decides the meal type. */
module MealTypes {
  import opened Optional
  import opened Text

  /** The keywords, in the order they are tried. */
  const MealKeywords: seq<string> :=
    ["breakfast", "lunch", "dinner", "snack", "snacks", "brunch", "supper"]

  const OtherMeal: string := "Other meal"

  /** Every value detection can produce. "Snacks" is missing: its keyword
      contains the earlier keyword "snack". */
  const MealLabels: set<string> :=
    {"Breakfast", "Lunch", "Dinner", "Snack", "Brunch", "Supper", "Other meal"}

  /** `MealKeywords[k]` occurs in `text` and no earlier keyword does. */
  predicate IsFirstKeyword(text: string, k: int) {
    && 0 <= k < |MealKeywords|
    && Contains(text, MealKeywords[k])
    && forall j | 0 <= j < k :: !Contains(text, MealKeywords[j])
  }

  /** The index of the first keyword at or after `from` that occurs in `text`. */
  function FirstKeyword(text: string, from: nat): (r: Option<nat>)
    requires from <= |MealKeywords|
    ensures r.Some? ==>
      && from <= r.value < |MealKeywords|
      && Contains(text, MealKeywords[r.value])
      && forall j | from <= j < r.value :: !Contains(text, MealKeywords[j])
    ensures r.None? ==> forall j | from <= j < |MealKeywords| :: !Contains(text, MealKeywords[j])
    decreases |MealKeywords| - from
  {
    if from == |MealKeywords| then None
    else if Contains(text, MealKeywords[from]) then Some(from)
    else FirstKeyword(text, from + 1)
  }

  /** "snack" lies inside "snacks", so "snacks" can never be the first
      keyword to match. */
  lemma SnacksShadowed(text: string)
    ensures Contains(text, "snacks") ==> Contains(text, "snack")
  {
    var w := "snacks";
    assert w == "snack" + "s";
    assert w[0..5] == "snack";
    assert OccursAt(w, "snack", 0);
    if Contains(text, w) {
      ContainsTransitive(text, w, "snack");
    }
  }

  /** The capitalised keywords (`str.capitalize()` of each). They are kept
      as one lemma per word because each literal evaluation is cheap only
      on its own; folded into one proof they exceed the resource limit. */
  lemma CapitalizeBreakfast() ensures Capitalize("breakfast") == "Breakfast" {}
  lemma CapitalizeLunch() ensures Capitalize("lunch") == "Lunch" {}
  lemma CapitalizeDinner() ensures Capitalize("dinner") == "Dinner" {}
  lemma CapitalizeSnack() ensures Capitalize("snack") == "Snack" {}
  lemma CapitalizeBrunch() ensures Capitalize("brunch") == "Brunch" {}
  lemma CapitalizeSupper() ensures Capitalize("supper") == "Supper" {}

  /** Every keyword but "snacks" capitalises to a meal label other than
      "Other meal". */
  lemma CapitalizedKeyword(k: nat)
    requires k < |MealKeywords| && k != 4
    ensures Capitalize(MealKeywords[k]) in MealLabels && Capitalize(MealKeywords[k]) != OtherMeal
  {
    if k == 0 { CapitalizeBreakfast(); }
    else if k == 1 { CapitalizeLunch(); }
    else if k == 2 { CapitalizeDinner(); }
    else if k == 3 { CapitalizeSnack(); }
    else if k == 5 { CapitalizeBrunch(); }
    else { CapitalizeSupper(); }
  }

  /** At most one keyword is the first to occur. */
  lemma FirstKeywordUnique(text: string, k: int, k': int)
    requires IsFirstKeyword(text, k) && IsFirstKeyword(text, k')
    ensures k == k'
  {
  }

  /** `get_meal_type_from_conversation(user_input)`. */
  function MealTypeFromConversation(userInput: string): (r: string)
    ensures r in MealLabels
    ensures r == OtherMeal <==>
      forall k | 0 <= k < |MealKeywords| :: !Contains(Lower(userInput), MealKeywords[k])
    ensures r != OtherMeal ==>
      exists k :: IsFirstKeyword(Lower(userInput), k) && r == Capitalize(MealKeywords[k])
  {
    var text := Lower(userInput);
    match FirstKeyword(text, 0)
    case None => OtherMeal
    case Some(k) =>
      SnacksShadowed(text);
      assert k != 4;
      CapitalizedKeyword(k);
      assert IsFirstKeyword(text, k);
      var meal := Capitalize(MealKeywords[k]);
      assert meal in MealLabels && meal != OtherMeal;
      meal
  }

  /** The meal type is read off the first keyword that occurs. */
  lemma MealTypeIsFirstKeyword(userInput: string, k: int)
    requires IsFirstKeyword(Lower(userInput), k)
    ensures MealTypeFromConversation(userInput) == Capitalize(MealKeywords[k])
  {
    var text := Lower(userInput);
    var k' :| IsFirstKeyword(text, k') && MealTypeFromConversation(userInput) == Capitalize(MealKeywords[k']);
    FirstKeywordUnique(text, k, k');
  }

  /** A conversation that mentions breakfast, in any letter case, is a
      breakfast, whatever else it mentions. */
  lemma BreakfastWins(userInput: string)
    requires Contains(Lower(userInput), "breakfast")
    ensures MealTypeFromConversation(userInput) == "Breakfast"
  {
    assert IsFirstKeyword(Lower(userInput), 0);
    MealTypeIsFirstKeyword(userInput, 0);
    CapitalizeBreakfast();
  }

  /** "snacks" reads as "Snack" unless an earlier keyword occurs. */
  lemma SnacksReadsAsSnack(userInput: string)
    requires Contains(Lower(userInput), "snacks")
    requires forall j | 0 <= j < 3 :: !Contains(Lower(userInput), MealKeywords[j])
    ensures MealTypeFromConversation(userInput) == "Snack"
  {
    var text := Lower(userInput);
    SnacksShadowed(text);
    assert IsFirstKeyword(text, 3);
    MealTypeIsFirstKeyword(userInput, 3);
    CapitalizeSnack();
  }

  /** The empty conversation (Python's `user_conversation or ""` for a missing
      conversation) is "Other meal". */
  lemma NoConversationIsOtherMeal()
    ensures MealTypeFromConversation("") == OtherMeal
  {
    assert forall k | 0 <= k < |MealKeywords| :: !Contains("", MealKeywords[k]);
  }
}
