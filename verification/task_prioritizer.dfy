/** The three task classifiers of `DynamicTaskPrioritizer`
    (core/dynamic_task_prioritizer.py). Each builds a prompt that quotes the
    task description, sends it to the provider, and falls back to a fixed
    default when anything raises. The provider is the parameter `complete`
    (`None` when the call raised or the content was `None`); `json.loads`
    is the parameter `parseJson` (`None` when it raised). */
module TaskPrioritizer {
  import opened Optional
  import opened Text

  /** A decoded JSON value; numbers are decimals. */
  datatype Json =
    | JNull
    | JBool(b: bool)
    | JNumber(n: real)
    | JString(s: string)
    | JArray(items: seq<Json>)
    | JObject(fields: seq<(string, Json)>)

  // ---------------------------------------------------------------------
  // prompts

  /** The source's triple-quoted prompts are indented by eight spaces. */
  const Indent: string := "        "

  /** `TASK: "<description>"`, the line every prompt quotes the task on. */
  function QuotedTask(desc: string): string {
    "TASK: \"" + desc + "\""
  }

  /** A prompt: its opening lines, the indented task line, and the rest. */
  function Prompt(intro: string, desc: string, tail: string): string {
    intro + Indent + QuotedTask(desc) + tail
  }

  const PriorityIntro: string :=
    "\n" +
    "        You are an expert task prioritization assistant. Analyze this task and determine its priority based on natural language understanding:\n" +
    "\n"
  const PriorityTail: string :=
    "\n" +
    "\n" +
    "        Consider these factors naturally:\n" +
    "        - SAFETY: Does this affect someone's safety, health, or basic needs?\n" +
    "        - TIME SENSITIVITY: How flexible is the timing? Are there consequences for delay?\n" +
    "        - IMPACT: What happens if this task is delayed or not completed?\n" +
    "\n" +
    "        Return only this JSON format:\n" +
    "        {\n" +
    "            \"priority_level\": \"High Priority\" | \"Medium Priority\" | \"Low Priority\",\n" +
    "            \"priority_score\": 8.5,  # A numeric value for the task priority (1-10 scale)\n" +
    "        }\n" +
    "        "

  /** The responsibility and category prompts open with the task line. */
  const ShortIntro: string := "\n"
  const ResponsibilityTail: string :=
    "\n" +
    "\n" +
    "        Who will perform this task? \n" +
    "        Analyze the task description and return one of the following values:\n" +
    "        - \"Self\"\n" +
    "        - \"Partner\"\n" +
    "        - \"Child\"\n" +
    "        "
  const CategoryTail: string :=
    "\n" +
    "\n" +
    "        Classify this task into one of the following categories:\n" +
    "        - \"Normal task\"\n" +
    "        - \"Health task\"\n" +
    "        - \"Recipy task\"\n" +
    "\n" +
    "        Return only the category name.\n" +
    "        "

  function PriorityPrompt(desc: string): string { Prompt(PriorityIntro, desc, PriorityTail) }
  function ResponsibilityPrompt(desc: string): string { Prompt(ShortIntro, desc, ResponsibilityTail) }
  function CategoryPrompt(desc: string): string { Prompt(ShortIntro, desc, CategoryTail) }

  /** The description read back out of a prompt with the given opening and
      rest. */
  function DescriptionOf(prompt: string, intro: string, tail: string): string
    requires |intro| + |Indent| + 8 + |tail| <= |prompt|
  {
    prompt[|intro| + |Indent| + 7..|prompt| - |tail| - 1]
  }

  /** Every prompt quotes the description verbatim, and the description can
      be read back from it: distinct descriptions give distinct prompts. */
  lemma PromptQuotesTask(intro: string, desc: string, tail: string)
    ensures var p := Prompt(intro, desc, tail);
      && OccursAt(p, QuotedTask(desc), |intro| + |Indent|)
      && |intro| + |Indent| + 8 + |tail| <= |p|
      && DescriptionOf(p, intro, tail) == desc
  {
    var p := Prompt(intro, desc, tail);
    var q := QuotedTask(desc);
    var a := |intro| + |Indent|;
    assert p == (intro + Indent) + q + tail;
    assert p[a..a + |q|] == q;
    assert q[7..|q| - 1] == desc;
    assert p[a + 7..|p| - |tail| - 1] == q[7..|q| - 1];
  }

  lemma PromptsQuoteTask(desc: string)
    ensures Contains(PriorityPrompt(desc), QuotedTask(desc))
    ensures Contains(ResponsibilityPrompt(desc), QuotedTask(desc))
    ensures Contains(CategoryPrompt(desc), QuotedTask(desc))
  {
    PromptQuotesTask(PriorityIntro, desc, PriorityTail);
    PromptQuotesTask(ShortIntro, desc, ResponsibilityTail);
    PromptQuotesTask(ShortIntro, desc, CategoryTail);
  }

  lemma PromptsInjective(d1: string, d2: string)
    requires PriorityPrompt(d1) == PriorityPrompt(d2)
      || ResponsibilityPrompt(d1) == ResponsibilityPrompt(d2)
      || CategoryPrompt(d1) == CategoryPrompt(d2)
    ensures d1 == d2
  {
    PromptQuotesTask(PriorityIntro, d1, PriorityTail);
    PromptQuotesTask(PriorityIntro, d2, PriorityTail);
    PromptQuotesTask(ShortIntro, d1, ResponsibilityTail);
    PromptQuotesTask(ShortIntro, d2, ResponsibilityTail);
    PromptQuotesTask(ShortIntro, d1, CategoryTail);
    PromptQuotesTask(ShortIntro, d2, CategoryTail);
  }

  // ---------------------------------------------------------------------
  // classifiers

  const DefaultPriority: Json :=
    JObject([("priority_level", JString("Medium Priority")), ("priority_score", JNumber(5.0))])
  const DefaultResponsibility: string := "Self"
  const DefaultCategory: string := "Normal task"

  /** `analyze_task_priority`: the decoded reply, whatever its shape, or
      the medium default when the call or the decoding fails. */
  function AnalyzeTaskPriority(desc: string, complete: string -> Option<string>,
                               parseJson: string -> Option<Json>): (r: Json)
    ensures complete(PriorityPrompt(desc)).None? ==> r == DefaultPriority
    ensures complete(PriorityPrompt(desc)).Some? ==>
      var decoded := parseJson(Strip(complete(PriorityPrompt(desc)).value));
      r == decoded.GetOr(DefaultPriority)
  {
    match complete(PriorityPrompt(desc))
    case None => DefaultPriority
    case Some(reply) =>
      match parseJson(Strip(reply))
      case None => DefaultPriority
      case Some(v) => v
  }

  /** `analyze_task_responsibility`: the stripped reply, or "Self". */
  function AnalyzeTaskResponsibility(desc: string, complete: string -> Option<string>): (r: string)
    ensures complete(ResponsibilityPrompt(desc)).None? ==> r == DefaultResponsibility
    ensures complete(ResponsibilityPrompt(desc)).Some? ==> r == Strip(complete(ResponsibilityPrompt(desc)).value)
    ensures complete(ResponsibilityPrompt(desc)).Some? ==>
      && (exists a :: IsStripOf(complete(ResponsibilityPrompt(desc)).value, r, a))
      && (r == [] || (!IsSpace(r[0]) && !IsSpace(r[|r| - 1])))
  {
    match complete(ResponsibilityPrompt(desc))
    case None => DefaultResponsibility
    case Some(reply) =>
      StripSpec(reply);
      Strip(reply)
  }

  /** `analyze_task_catagory`: the stripped reply, or "Normal task". */
  function AnalyzeTaskCatagory(desc: string, complete: string -> Option<string>): (r: string)
    ensures complete(CategoryPrompt(desc)).None? ==> r == DefaultCategory
    ensures complete(CategoryPrompt(desc)).Some? ==> r == Strip(complete(CategoryPrompt(desc)).value)
    ensures complete(CategoryPrompt(desc)).Some? ==>
      && (exists a :: IsStripOf(complete(CategoryPrompt(desc)).value, r, a))
      && (r == [] || (!IsSpace(r[0]) && !IsSpace(r[|r| - 1])))
  {
    match complete(CategoryPrompt(desc))
    case None => DefaultCategory
    case Some(reply) =>
      StripSpec(reply);
      Strip(reply)
  }

  /** A provider that always fails gives the three defaults, whatever the
      description. */
  lemma FailureGivesDefaults(desc: string, parseJson: string -> Option<Json>)
    ensures AnalyzeTaskPriority(desc, _ => None, parseJson) == DefaultPriority
    ensures AnalyzeTaskResponsibility(desc, _ => None) == DefaultResponsibility
    ensures AnalyzeTaskCatagory(desc, _ => None) == DefaultCategory
  {
  }

  /** Nothing checks the replies against the labels the prompts ask for: a
      reply outside them is returned, stripped. */
  lemma RepliesNotValidated(desc: string)
    ensures AnalyzeTaskResponsibility(desc, _ => Some(" Grandma\n")) == "Grandma"
    ensures AnalyzeTaskCatagory(desc, _ => Some("Urgent")) == "Urgent"
    ensures AnalyzeTaskPriority(desc, _ => Some("11"), _ => Some(JNumber(11.0))) == JNumber(11.0)
  {
    var g := "Grandma";
    var r := " Grandma\n";
    assert r == [' '] + (g + ['\n']);
    assert r[1..] == g + ['\n'];
    assert LStrip(r) == LStrip(g + ['\n']);
    assert (g + ['\n'])[0] == 'G';
    assert LStrip(g + ['\n']) == g + ['\n'];
    assert (g + ['\n'])[..|g|] == g;
    assert RStrip(g + ['\n']) == RStrip(g);
    StripUnspaced(g);
    StripUnspaced("Urgent");
  }
}
