# Text-extraction, classification and recipe-synthesis core, in Dafny

This project models the part of the household-assistant backend that sits
between the hosted completion service and the stored records:

- **Recipe synthesis** (`core/recipe_generator.py`). It covers:
  - meal-type detection from the conversation;
  - the jargon annotator `explain_cooking_terms`;
  - the line-scanning parser of the provider's reply, with padding to three
    entries and truncation to three;
  - the rule-based fallback builder;
  - the dispatch in `generate_recipy_suggestion`, where a failed call falls
    back and a reply is parsed.
- **Task extraction** (`core/task_planner.py`). This is what
  `extract_tasks_from_text` does once the provider has answered:
  - removing the code fence;
  - the "tomorrow"/"today" date override and the default date;
  - the two-word filter;
  - first-occurrence de-duplication;
  - turning every exception into the empty list.
- **Task classification** (`core/dynamic_task_prioritizer.py`). There are
  three classifiers. Each one quotes the task description in its prompt,
  returns the provider's answer, and falls back to a fixed default when
  anything raises.

Modules, one per file:
- `Optional`: the `Option` type.
- `Text`: Python's `str` operations, as the core uses them. These are
  `lower`, `capitalize`, `strip`, `split('\n')`, `split()` word counts,
  `replace`, `in`, and decimal `str(int)`.
- `MealTypes`
- `CookingTerms`: one step of the jargon annotator and the loop over the
  glossary.
- `WordJoints`: how whole-word occurrences behave under concatenation and
  splicing.
- `GlossaryFacts`: no explanation in the glossary contains a later term.
- `FillerFacts`: the filler sentence contains no glossary term.
- `ExplainOnce`: the annotator's loop as a whole, for a text holding one
  glossary term.
- `RecipeParser`
- `RecipeGenerator`
- `TaskPlanner`
- `TaskPrioritizer`

The provider's answer is a parameter. Recipe synthesis and task extraction
take it as a value of type `Option<string>`; the classifiers take a
function from prompt to answer, since each one sends a prompt of its own.
In both forms:
- `None` means that the call raised.
- `Some(text)` is the reply's content.

`json.loads` is a parameter too. The clock enters only as already formatted
date and time strings.

The parser is proved equal to an independent description of its output.
A reply splits into *blocks*:
- text before the first marker line is skipped;
- each marker line opens a segment that runs to the next marker line;
- a segment yields a block only if it has a body line.

`RecipeParser.ScanEmitsBlocks` shows that the scanner as written emits
exactly these blocks, in order and numbered from 1.

The de-duplication loop is proved equal to an entry-by-entry description,
`TaskPlanner.KeptFrom`. An entry survives when its name has two words and
no earlier entry has its key.

Some behaviour of the code is easy to misread:
- **A reply with no marker line is not treated as a failure.** It yields three filler
  entries, not the rule-based recipes (`RecipeGenerator.NoBlocksMeansFiller`).
  Only a provider failure reaches the fallback builder.
- **The de-duplication key is not stripped, but the output is.** Two names
  that differ only in surrounding whitespace are both kept, and they come
  out identical (`TaskPlanner.WhitespaceVariantsNotMerged`).
- **De-duplication and the two-word filter run in one loop.** A one-word
  entry never records its key. Filtering first and de-duplicating after
  would give the same result: equal keys mean equal lower-cased names, and
  lower-casing keeps the word count (`TaskPlanner.SameKeySameWords`).
- **"Brunch" and "Supper" are possible meal types.** "Snacks" is not,
  because "snack" is tried first and occurs inside it
  (`MealTypes.SnacksShadowed`).
- **The classifiers return whatever the provider answers.** The answer is
  stripped but not checked against the labels that the prompt asks for
  (`TaskPrioritizer.RepliesNotValidated`).

## Model

| member | source | states |
|---|---|---|
| MealTypes.FirstKeyword | core/recipe_generator.py:16-20 | the index found is the first keyword, in list order, that occurs in the text; `None` only when no keyword from there on occurs |
| MealTypes.MealTypeFromConversation | core/recipe_generator.py:11-21 | the meal type is always one of the seven labels; it is "Other meal" exactly when no keyword occurs in the lower-cased conversation; otherwise it is the capitalised first keyword to occur |
| MealTypes.MealTypeIsFirstKeyword | core/recipe_generator.py:18-20 | whenever keyword k is the first to occur, the result is k capitalised |
| MealTypes.FirstKeywordUnique | core/recipe_generator.py:18-20 | at most one keyword is the first to occur |
| MealTypes.CapitalizedKeyword | core/recipe_generator.py:20 | every keyword except "snacks" capitalises to a meal label other than "Other meal" |
| MealTypes.SnacksShadowed | core/recipe_generator.py:16 | any text containing "snacks" also contains the earlier keyword "snack", so "Snacks" is never produced |
| MealTypes.BreakfastWins | core/recipe_generator.py:16-20 | a conversation mentioning breakfast in any letter case is "Breakfast", whatever else it mentions |
| MealTypes.SnacksReadsAsSnack | core/recipe_generator.py:16-20 | "snacks" with no earlier keyword yields "Snack" |
| MealTypes.NoConversationIsOtherMeal | core/recipe_generator.py:33 | a missing conversation, read as "", gives "Other meal" |
| CookingTerms.FindWholeWord | core/recipe_generator.py:101-102 | the reported position is a case-insensitive whole-word match with no match before it; `None` means there is no match at all |
| CookingTerms.ReplaceFirstWholeWord | core/recipe_generator.py:100-108 | text without a whole-word occurrence of the term comes back unchanged; otherwise exactly the first occurrence is replaced by the explanation |
| CookingTerms.OnlyFirstOccurrenceReplaced | core/recipe_generator.py:104-107 | one replacement step keeps the text before the first occurrence, and the text after it with all later occurrences, verbatim; the replaced occurrence now reads in the glossary's spelling |
| CookingTerms.ExplainFromUnmatched | core/recipe_generator.py:99-109 | the glossary loop passes text with none of the remaining terms through unchanged |
| CookingTerms.ExplainCookingTerms | core/recipe_generator.py:82-109 | `explain_cooking_terms` leaves text with no glossary term alone |
| WordJoints.NoMatchConcat | core/recipe_generator.py:101-102 | when no word runs across the joint of two texts, a word occurs as a whole word in their concatenation exactly when it occurs in one of them |
| WordJoints.NoMatchAfterReplace | core/recipe_generator.py:104-107 | splicing a replacement in place of a whole-word occurrence creates no occurrence of another word that neither the text nor the replacement held |
| WordJoints.MissingLetterNoMatch | core/recipe_generator.py:101-102 | a text in which no character lower-cases to one of a term's letters holds no case-insensitive occurrence of the term |
| GlossaryFacts.LaterClear | core/recipe_generator.py:87-96 | no explanation in the dictionary contains, as a whole word in any letter case, a term that comes after it in the dictionary |
| ExplainOnce.OneTermOnce | core/recipe_generator.py:99-109 | for any glossary of words in which no explanation holds a later term, a text holding only term i comes out of the loop as one replacement of that term's first occurrence: the steps before i find nothing and the steps after it find nothing either |
| ExplainOnce.ReplaceKeepsAbsent | core/recipe_generator.py:100-107 | one replacement step creates no whole-word occurrence of another word that neither the text nor the explanation held |
| FillerFacts.PaddingHasNoJargon | core/recipe_generator.py:146 | the filler sentence holds no glossary term as a whole word in any letter case |
| ExplainOnce.SingleTermExplainedOnce | core/recipe_generator.py:82-109 | a text holding only one glossary term comes out of `explain_cooking_terms` as a single replacement of that term's first occurrence: the later steps touch neither the explanation nor the later occurrences |
| RecipeParser.CloseBlock | core/recipe_generator.py:128-132 | a block is emitted exactly when it has both a name and a body: one entry more in each list, labelled with the next number, named by the stripped marker line, earlier entries kept |
| RecipeParser.ScanLine | core/recipe_generator.py:125-136 | only a marker line can emit, and it opens a block named by the stripped line with an empty body; a body line only extends the open body; other lines change nothing |
| RecipeParser.ScanLines | core/recipe_generator.py:125-136 | over the loop, bodies and names are only appended, one of each at a time |
| RecipeParser.Finish | core/recipe_generator.py:125-142 | after the loop and the final close there are as many names as bodies, and earlier entries are kept |
| RecipeParser.NextMarker | core/recipe_generator.py:125-127 | the length of the run of lines before the next marker line: no line in the run is a marker line, and the line after it is one |
| RecipeParser.BodyTextNonEmpty | core/recipe_generator.py:128-138 | a segment's body is non-empty exactly when one of its stripped lines is a non-empty line not starting with "Recipe" |
| RecipeParser.Blocks | core/recipe_generator.py:125-142 | every described block is named by a stripped marker line and has a non-empty body |
| RecipeParser.ScanSeeking | core/recipe_generator.py:125-142 | before any marker line the scanner drops what it reads, and ends with exactly the rendering of the described blocks |
| RecipeParser.MarkerStep | core/recipe_generator.py:127-134 | a marker line opens a block, whose rendering is followed by the rendering of the remaining blocks |
| RecipeParser.ScanInBlock | core/recipe_generator.py:125-142 | inside a block the scanner adds the segment's body to the open block, closes it at the next marker line, and then emits the remaining described blocks |
| RecipeParser.BodyLineInBlock | core/recipe_generator.py:135-136 | the same for a segment that starts with a non-marker line |
| RecipeParser.ScanEmitsBlocks | core/recipe_generator.py:117-142 | the scan of a whole reply, including the final close, emits exactly the described blocks, bodies numbered from 1 in order |
| RecipeParser.PreambleDiscarded | core/recipe_generator.py:125-136 | lines before the first marker line never contribute a block |
| RecipeParser.NoMarkerNoBlocks | core/recipe_generator.py:125-142 | a reply without a marker line has no blocks |
| RecipeParser.PadToThree | core/recipe_generator.py:144-149 | padding keeps the emitted entries as a prefix; filler entries, numbered on, bring the lists to exactly three; longer lists are left alone |
| RecipeParser.ParseWith | core/recipe_generator.py:117-160 | for any annotator: exactly three names and bodies; each body starts with "Recipe k: " for its position; the first entries are the reply's blocks in order; the rest are filler |
| RecipeGenerator.CreateSmartRecipe | core/recipe_generator.py:167-200 | the rule-based builder returns the mutton template exactly when both "mutton" and "rice" occur in the lower-cased items, and the generic one otherwise; three names and bodies; the fallback's items-needed text |
| RecipeGenerator.ParseAiRecipeResponse | core/recipe_generator.py:112-160 | the parsed recipe set has the parser's items-needed text, three names and bodies from the reply's blocks in order, and filler after them |
| RecipeGenerator.GenerateRecipySuggestion | core/recipe_generator.py:24-79 | the meal type comes from the conversation (missing reads as ""); a failed call gives the rule-based set; a reply gives the parse of its stripped text; always three names and bodies |
| RecipeGenerator.PathFromItemsNeeded | core/recipe_generator.py:63-79 | the items-needed field tells which builder ran: the fallback text exactly when the call failed, and the parser's text exactly when it answered |
| RecipeGenerator.NoBlocksMeansFiller | core/recipe_generator.py:144-149 | a reply with no marker line still goes through the parser, and all three entries are filler |
| RecipeGenerator.FillerNamesDistinct | core/recipe_generator.py:149 | filler names at different positions differ |
| RecipeGenerator.FillerReadsPlain | core/recipe_generator.py:144-148 | the annotator leaves the filler sentence as it is, so a filler body reads "Recipe k: " followed by the sentence itself |
| TaskPlanner.StripFence | core/task_planner.py:42-43 | a reply without the "```json" prefix is decoded as it is; a fenced one reaches the decoder with no three backquotes in a row left and no whitespace at either end |
| TaskPlanner.NoFenceAfterRemoval | core/task_planner.py:43 | `replace("```", "")` leaves no three backquotes in a row |
| TaskPlanner.FenceRoundTrip | core/task_planner.py:42-43 | a body without backquotes, wrapped in a "```json" fence, reaches the decoder as the stripped body |
| TaskPlanner.UnfencedUntouched | core/task_planner.py:42 | a reply that does not start with "```json" reaches the decoder unchanged |
| TaskPlanner.NormalizeDate | core/task_planner.py:46-54 | "tomorrow" in the name or date field gives tomorrow; otherwise "today" gives today; otherwise the date field is kept; a missing or empty date becomes today |
| TaskPlanner.Normalize | core/task_planner.py:46-54 | the first loop changes only the date; name and time pass through, and every task leaves it with a date (non-empty whenever today's is) |
| TaskPlanner.TomorrowBeatsToday | core/task_planner.py:48-51 | "tomorrow" in the name wins even over a date field saying "today" |
| TaskPlanner.ExplicitDateKept | core/task_planner.py:48-54 | a task whose name and date say nothing relative keeps its date |
| TaskPlanner.Render | core/task_planner.py:61-65 | the stripped name of a two-word task still has two words |
| TaskPlanner.Dedup | core/task_planner.py:56-66 | the loop never returns more tasks than it reads, and every task it appends has a name of two words or more |
| TaskPlanner.SameKeySameWords | core/task_planner.py:59-60 | two entries with one key both pass the two-word test, or neither does |
| TaskPlanner.TestIsKept | core/task_planner.py:59-60 | when `seen` holds the keys of the earlier two-word entries, the loop's test accepts an entry exactly when it has two words and no earlier entry shares its key |
| TaskPlanner.DedupIsKeptFrom | core/task_planner.py:56-66 | the loop from any index, with the keys it has seen so far, yields exactly the surviving entries from there on |
| TaskPlanner.DedupIsKept | core/task_planner.py:56-67 | the whole de-duplication loop equals the entry-by-entry description |
| TaskPlanner.KeptEntriesDistinct | core/task_planner.py:56-66 | two surviving entries never share a key |
| TaskPlanner.FirstOccurrenceKept | core/task_planner.py:56-66 | every two-word entry has the key of a surviving entry at or before it, its first occurrence |
| TaskPlanner.KeptFromTwoWords | core/task_planner.py:60-62 | every returned task has a name of at least two words |
| TaskPlanner.KeyOf | core/task_planner.py:59 | the de-duplication key keeps the date as given, and its name and time have the lengths of the entry's (an absent time reads as ""); when two keys are equal is stated by `SameKeyIffCaseVariants` |
| TaskPlanner.SameKeyIffCaseVariants | core/task_planner.py:59-60 | two entries share a key exactly when their dates are equal and their names, and their times, differ at most in letter case |
| TaskPlanner.WhitespaceVariantsNotMerged | core/task_planner.py:59-64 | names differing only by a leading space are both kept and render identically |
| TaskPlanner.ExtractTasks | core/task_planner.py:41-70 | a failed call, a failed decode or an unnamed task gives []; otherwise the result is the surviving normalised entries in input order, never more than were decoded, each with two words |
| TaskPrioritizer.PromptQuotesTask | core/dynamic_task_prioritizer.py:17-32 | a prompt quotes the description verbatim after its opening, and the description can be read back out of it |
| TaskPrioritizer.PromptsQuoteTask | core/dynamic_task_prioritizer.py:17-85 | all three prompts contain `TASK: "<description>"` |
| TaskPrioritizer.PromptsInjective | core/dynamic_task_prioritizer.py:17-85 | different descriptions give different prompts, for each classifier |
| TaskPrioritizer.AnalyzeTaskPriority | core/dynamic_task_prioritizer.py:13-44 | a failed call or a failed decode gives Medium/5.0; otherwise the decoded stripped reply, whatever its shape |
| TaskPrioritizer.AnalyzeTaskResponsibility | core/dynamic_task_prioritizer.py:46-70 | a failed call gives "Self"; otherwise the reply with its surrounding whitespace removed: an infix of the reply, with only whitespace around it, and none left at either end |
| TaskPrioritizer.AnalyzeTaskCatagory | core/dynamic_task_prioritizer.py:72-97 | a failed call gives "Normal task"; otherwise the reply with its surrounding whitespace removed: an infix of the reply, with only whitespace around it, and none left at either end |
| TaskPrioritizer.FailureGivesDefaults | core/dynamic_task_prioritizer.py:34-97 | a provider that always fails gives the three defaults for any description |
| TaskPrioritizer.RepliesNotValidated | core/dynamic_task_prioritizer.py:41-97 | answers outside the requested labels ("Grandma", "Urgent", a score of 11) are returned stripped, not replaced by the defaults |
| Text.StripSpec | core/recipe_generator.py:126 | `strip` keeps an infix with no whitespace at either end and removes only whitespace around it |
| Text.StripIdempotent | core/recipe_generator.py:132 | stripping an already stripped marker line changes nothing |
| Text.SplitOn | core/recipe_generator.py:118 | `split('\n')` gives at least one piece; no piece holds a newline; joining the pieces with newlines gives the reply back |
| Text.SplitJoinRoundTrip | core/recipe_generator.py:118 | splitting the newline-join of newline-free lines gives exactly those lines back |
| Text.NatToStringRoundTrip | core/recipe_generator.py:131 | the digits of a recipe number read back as that number |
| Text.NatToStringInjective | core/recipe_generator.py:131 | different recipe numbers print differently |
| Text.TwoWordsIffGap | core/task_planner.py:60 | `len(s.split()) >= 2` holds exactly when a whitespace gap lies between two non-space characters |
| Text.WordCountLower | core/task_planner.py:59-60 | lower-casing keeps the word count |
| Text.WordCountStrip | core/task_planner.py:60-62 | stripping does not change whether a name has two words |
| Text.RemoveAllAbsent | core/task_planner.py:43 | `replace` with a pattern that does not occur changes nothing |

## Left out

- The provider call is left out: the network, the model name, token limits and temperature. Its outcome is a parameter, and `None` stands for any exception, including a reply whose content is `None`.
- The prompt texts of the recipe and task-extraction requests are left out. They are sent to the provider and never read back. The classifiers' prompts are modelled.
- `json.loads` is a parameter. The model does not parse JSON.
- `datetime.now()` and `strftime` are left out. The formatted time and dates are parameters.
- `print` calls and the logging they do are left out.
- Letters and case are modelled for part of Unicode only. `lower` and regex `\w` cover ASCII and Latin-1; the upper-casing in `capitalize` covers ASCII. Other letters and case mappings are not modelled. Whitespace is Python's full `isspace` set.
- RecipeGenerator.ParseAiRecipeResponse: the `except` branch of `parse_ai_recipe_response` (lines 162-164) is not modelled. Nothing in its `try` block can raise on a string reply.
- TaskPlanner.ExtractTasks: decoded values on which the source raises later are given as a failed decode, since every exception gives the same `[]`. These are a value that is not a list of objects, a name that is not a string, and a time that is present but not a string. A date that is not a string raises only when it is truthy, the name says neither "tomorrow" nor "today", and either the name has two words (`.strip()` raises) or the date is a list or an object (it cannot be part of the key); it is then given as a failed decode too. Any other date that is not a string is given as absent: a falsy one becomes today as an absent one does, one on a "tomorrow" or "today" entry is overwritten, and one on a one-word entry only reaches the key of an entry that is dropped.
- CookingTerms.ExplainCookingTerms: the result of the glossary loop is pinned down only for text with no glossary term (returned unchanged) and for text with exactly one (`ExplainOnce.SingleTermExplainedOnce`: one replacement at its first occurrence). For text holding two or more terms the model computes the same nine replacement steps, but no contract states their combined result. Proving it needs one step on `a + b` to equal the step on `a` followed by `b` (or `a` followed by the step on `b`), and Dafny does not prove that equation within the resource limit.
- The `explained` set in `explain_cooking_terms` is left out. Each term is visited once, so its test never fails.
- The Django views, models and storage that call this core are left out.
