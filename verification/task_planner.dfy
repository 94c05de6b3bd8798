/** Task extraction (`extract_tasks_from_text`, core/task_planner.py) after
    the provider has answered: fence stripping, date normalisation, the
    two-word filter and first-occurrence de-duplication.

    The provider's reply is the parameter `reply` (`None` when the call
    raised or the content was `None`, whose `.startswith` raises).
    `json.loads` is the parameter `parse`: it yields the decoded list of
    task objects, or `None` for every decoded value on which the source
    raises, since every exception ends in the same empty result:
    - text that is not JSON;
    - a value that is not a list of objects (an empty one gives the empty
      result without raising, which is the same);
    - a name that is not a string;
    - a time that is present but not a string: its `.lower()` raises
      whether or not the entry is kept;
    - a truthy date that is not a string, on an entry whose name says
      neither "tomorrow" nor "today", when the entry's name has two words
      (its `.strip()` raises) or the date is a list or an object (it
      cannot be hashed into the key).
    Every other date that is not a string is given as absent. A falsy one
    (`null`, `0`, `false`, `[]`, `{}`) is replaced by today, as an absent
    one is. One on an entry whose name says "tomorrow" or "today" is
    overwritten. One on a one-word entry only reaches the key of an entry
    that is dropped anyway. The dates of today and tomorrow are
    parameters, already formatted. */
module TaskPlanner {
  import opened Optional
  import opened Text

  /** One decoded task object: absent keys are `None`. */
  datatype RawTask = RawTask(taskName: Option<string>, time: Option<string>, date: Option<string>)

  /** A task object after the first loop: it has a name and a date. */
  datatype Entry = Entry(taskName: string, time: Option<string>, date: string)

  /** One element of the returned list. */
  datatype Task = Task(taskName: string, time: string, date: string)

  /** The de-duplication key `(name.lower(), time.lower(), date)`. */
  datatype Key = Key(name: string, time: string, date: string)

  const JsonFence: string := "```json"
  const Fence: string := "```"
  const TimeNotSpecified: string := "Not specified"

  // ---------------------------------------------------------------------
  // fence stripping

  /** A reply that starts with "```json" loses every "```json" and then
      every "```", and is stripped: no fence is left in what reaches the
      decoder, and no whitespace at either end. Any other reply is decoded
      as it is. */
  function StripFence(text: string): (r: string)
    ensures !StartsWith(text, JsonFence) ==> r == text
    ensures StartsWith(text, JsonFence) ==>
      && !Contains(r, Fence)
      && (r == [] || (!IsSpace(r[0]) && !IsSpace(r[|r| - 1])))
  {
    if StartsWith(text, JsonFence) then
      var y := RemoveAll(RemoveAll(text, JsonFence), Fence);
      NoFenceAfterRemoval(RemoveAll(text, JsonFence));
      StripSpec(y);
      StripKeepsOut(y, Fence);
      Strip(y)
    else text
  }

  /** A fence is three backquotes in a row. */
  lemma FenceIsTicks(x: string, i: int)
    ensures OccursAt(x, Fence, i) <==>
      0 <= i && i + 3 <= |x| && x[i] == '`' && x[i + 1] == '`' && x[i + 2] == '`'
  {
    if 0 <= i && i + 3 <= |x| && x[i] == '`' && x[i + 1] == '`' && x[i + 2] == '`' {
      assert x[i..i + 3] == Fence;
    }
  }

  /** Removing fences never brings two backquotes to the front: a result
      that starts with two started with two already. */
  lemma LeadingTicksKept(t: string)
    ensures var r := RemoveAll(t, Fence);
      |r| >= 2 && r[0] == '`' && r[1] == '`' ==> |t| >= 2 && t[0] == '`' && t[1] == '`'
  {
    FenceIsTicks(t, 0);
    if t != [] && !StartsWith(t, Fence) && t[0] == '`' && |t| >= 2 && t[1] != '`' {
      var u := t[1..];
      FenceIsTicks(u, 0);
      assert RemoveAll(u, Fence) == [u[0]] + RemoveAll(u[1..], Fence);
    }
  }

  /** `replace("```", "")` leaves no fence behind: every run of backquotes
      shrinks to fewer than three. */
  lemma {:induction false} NoFenceAfterRemoval(s: string)
    ensures !Contains(RemoveAll(s, Fence), Fence)
    decreases |s|
  {
    if s == [] {
    } else if StartsWith(s, Fence) {
      NoFenceAfterRemoval(s[|Fence|..]);
    } else {
      var t := s[1..];
      var r := RemoveAll(t, Fence);
      var x := [s[0]] + r;
      assert RemoveAll(s, Fence) == x;
      NoFenceAfterRemoval(t);
      forall i | 0 <= i <= |x|
        ensures !OccursAt(x, Fence, i)
      {
        FenceIsTicks(x, i);
        if i == 0 {
          LeadingTicksKept(t);
          FenceIsTicks(s, 0);
        } else {
          FenceIsTicks(r, i - 1);
        }
      }
    }
  }

  /** What `strip` keeps is an infix, so it holds no substring the text
      did not hold. */
  lemma StripKeepsOut(y: string, sub: string)
    requires !Contains(y, sub)
    ensures !Contains(Strip(y), sub)
  {
    StripAt(y);
    var a := |y| - |LStrip(y)|;
    assert OccursAt(y, Strip(y), a);
    if Contains(Strip(y), sub) {
      ContainsTransitive(y, Strip(y), sub);
    }
  }

  /** A fenced JSON body with no backquote of its own comes out of the
      fence as the stripped body. */
  lemma FenceRoundTrip(body: string)
    requires '`' !in body
    ensures StripFence(JsonFence + body + Fence) == Strip(body)
  {
    var s := JsonFence + body + Fence;
    assert s[..|JsonFence|] == JsonFence;
    assert s[|JsonFence|..] == body + Fence;
    assert JsonFence[0] == '`' && Fence[0] == '`';
    RemoveAllSkipsPrefix(body, Fence, JsonFence);
    assert !Contains(Fence, JsonFence);
    RemoveAllAbsent(Fence, JsonFence);
    assert RemoveAll(s, JsonFence) == body + Fence;
    RemoveAllSkipsPrefix(body, Fence, Fence);
    assert Fence[|Fence|..] == [];
    assert RemoveAll(Fence, Fence) == [];
    assert body + [] == body;
  }

  /** A reply without the opening fence reaches the decoder unchanged. */
  lemma UnfencedUntouched(text: string)
    requires !StartsWith(text, JsonFence)
    ensures StripFence(text) == text
  {
  }

  // ---------------------------------------------------------------------
  // date normalisation

  /** The name or the date field asks for tomorrow. */
  predicate MeansTomorrow(name: string, date: Option<string>) {
    Contains(Lower(name), "tomorrow") || date.GetOr("") == "tomorrow" || date.GetOr("") == "Tomorrow"
  }

  /** The name or the date field asks for today. */
  predicate MeansToday(name: string, date: Option<string>) {
    Contains(Lower(name), "today") || date.GetOr("") == "today" || date.GetOr("") == "Today"
  }

  /** The date a task ends the first loop with: "tomorrow" wins over
      "today", either overrides the field, and a missing or empty date
      becomes today. */
  function NormalizeDate(name: string, date: Option<string>, today: string, tomorrow: string): (r: string)
    ensures MeansTomorrow(name, date) && tomorrow != "" ==> r == tomorrow
    ensures !MeansTomorrow(name, date) && MeansToday(name, date) ==> r == today
    ensures !MeansTomorrow(name, date) && !MeansToday(name, date) ==>
      r == (if date.GetOr("") == "" then today else date.value)
    ensures r == "" ==> today == ""
  {
    var overridden :=
      if MeansTomorrow(name, date) then Some(tomorrow)
      else if MeansToday(name, date) then Some(today)
      else date;
    if overridden.GetOr("") == "" then today else overridden.value
  }

  /** "tomorrow" in the name wins even when the date field says "today". */
  lemma TomorrowBeatsToday(name: string, today: string, tomorrow: string)
    requires Contains(Lower(name), "tomorrow") && tomorrow != ""
    ensures NormalizeDate(name, Some("today"), today, tomorrow) == tomorrow
  {
  }

  /** A task whose name and date say nothing relative keeps its date. */
  lemma ExplicitDateKept(name: string, date: string, today: string, tomorrow: string)
    requires !Contains(Lower(name), "tomorrow") && !Contains(Lower(name), "today")
    requires date != "" && date != "tomorrow" && date != "Tomorrow" && date != "today" && date != "Today"
    ensures NormalizeDate(name, Some(date), today, tomorrow) == date
  {
  }

  /** The first loop on one task object: only the date changes, and every
      task comes out of it with a date. */
  function Normalize(t: RawTask, today: string, tomorrow: string): (e: Entry)
    requires t.taskName.Some?
    ensures e.taskName == t.taskName.value && e.time == t.time
    ensures e.date == "" ==> today == ""
    ensures e.date == NormalizeDate(t.taskName.value, t.date, today, tomorrow)
  {
    Entry(t.taskName.value, t.time, NormalizeDate(t.taskName.value, t.date, today, tomorrow))
  }

  function NormalizeAll(ts: seq<RawTask>, today: string, tomorrow: string): (es: seq<Entry>)
    requires forall i | 0 <= i < |ts| :: ts[i].taskName.Some?
    ensures |es| == |ts|
    ensures forall i | 0 <= i < |ts| :: es[i] == Normalize(ts[i], today, tomorrow)
  {
    seq(|ts|, i requires 0 <= i < |ts| => Normalize(ts[i], today, tomorrow))
  }

  // ---------------------------------------------------------------------
  // de-duplication, as written

  /** The key `(name.lower(), time.lower(), date)`; an absent time reads
      as "". */
  function KeyOf(e: Entry): (r: Key)
    ensures r.date == e.date
    ensures |r.name| == |e.taskName| && |r.time| == |e.time.GetOr("")|
  {
    Key(Lower(e.taskName), Lower(e.time.GetOr("")), e.date)
  }

  /** `s` and `t` differ at most in letter case. */
  predicate SameUpToCase(s: string, t: string) {
    |s| == |t| && forall i | 0 <= i < |s| :: LowerChar(s[i]) == LowerChar(t[i])
  }

  lemma LowerEqIffSameUpToCase(s: string, t: string)
    ensures Lower(s) == Lower(t) <==> SameUpToCase(s, t)
  {
    if SameUpToCase(s, t) {
      assert forall i | 0 <= i < |s| :: Lower(s)[i] == Lower(t)[i];
    }
    if Lower(s) == Lower(t) {
      forall i | 0 <= i < |s|
        ensures LowerChar(s[i]) == LowerChar(t[i])
      {
        assert Lower(s)[i] == Lower(t)[i];
      }
    }
  }

  /** Two entries share a key exactly when they have the same date and
      their names, and their times, differ at most in letter case. */
  lemma SameKeyIffCaseVariants(a: Entry, b: Entry)
    ensures KeyOf(a) == KeyOf(b) <==>
      && a.date == b.date
      && SameUpToCase(a.taskName, b.taskName)
      && SameUpToCase(a.time.GetOr(""), b.time.GetOr(""))
  {
    LowerEqIffSameUpToCase(a.taskName, b.taskName);
    LowerEqIffSameUpToCase(a.time.GetOr(""), b.time.GetOr(""));
  }

  /** `len(task_name.split()) >= 2`. */
  predicate TwoWords(name: string) {
    WordCount(name) >= 2
  }

  /** The dictionary appended for a kept task: every field stripped, a
      missing time reads "Not specified". */
  function Render(e: Entry): (t: Task)
    ensures TwoWords(e.taskName) ==> TwoWords(t.taskName)
  {
    WordCountStrip(e.taskName);
    Task(Strip(e.taskName), Strip(e.time.GetOr(TimeNotSpecified)), Strip(e.date))
  }

  /** The second loop from index `m` on, with the keys `seen` so far: a task
      is appended when its key is new and its name has two words, and only
      then is its key remembered. */
  function Dedup(es: seq<Entry>, m: nat, seen: set<Key>): (r: seq<Task>)
    requires m <= |es|
    ensures |r| <= |es| - m
    ensures forall k | 0 <= k < |r| :: TwoWords(r[k].taskName)
    decreases |es| - m
  {
    if m == |es| then []
    else
      var k := KeyOf(es[m]);
      if k !in seen && TwoWords(es[m].taskName) then [Render(es[m])] + Dedup(es, m + 1, seen + {k})
      else Dedup(es, m + 1, seen)
  }

  // ---------------------------------------------------------------------
  // de-duplication, described entry by entry

  /** Entry `i` survives: its name has two words and no earlier entry has
      its key. */
  predicate Kept(es: seq<Entry>, i: int)
    requires 0 <= i < |es|
  {
    TwoWords(es[i].taskName) && forall j | 0 <= j < i :: KeyOf(es[j]) != KeyOf(es[i])
  }

  /** The surviving entries from `m` on, rendered, in input order. */
  function KeptFrom(es: seq<Entry>, m: nat): seq<Task>
    requires m <= |es|
    decreases |es| - m
  {
    if m == |es| then []
    else (if Kept(es, m) then [Render(es[m])] else []) + KeptFrom(es, m + 1)
  }

  /** The keys of the two-word entries before `m`. */
  function TwoWordKeys(es: seq<Entry>, m: nat): set<Key>
    requires m <= |es|
  {
    set j | 0 <= j < m && TwoWords(es[j].taskName) :: KeyOf(es[j])
  }

  /** Equal keys have equal lower-cased names, and lower-casing keeps the
      word count: so two entries with one key both have two words or
      neither has. */
  lemma SameKeySameWords(a: Entry, b: Entry)
    requires KeyOf(a) == KeyOf(b)
    ensures TwoWords(a.taskName) <==> TwoWords(b.taskName)
  {
    WordCountLower(a.taskName);
    WordCountLower(b.taskName);
  }

  /** The loop's test agrees with `Kept` at `m` when `seen` holds the keys
      of the two-word entries before it. */
  lemma TestIsKept(es: seq<Entry>, m: nat)
    requires m < |es|
    ensures (KeyOf(es[m]) !in TwoWordKeys(es, m) && TwoWords(es[m].taskName)) <==> Kept(es, m)
  {
    if KeyOf(es[m]) in TwoWordKeys(es, m) {
      var j :| 0 <= j < m && TwoWords(es[j].taskName) && KeyOf(es[j]) == KeyOf(es[m]);
      assert !Kept(es, m);
    } else if TwoWords(es[m].taskName) {
      forall j | 0 <= j < m
        ensures KeyOf(es[j]) != KeyOf(es[m])
      {
        if KeyOf(es[j]) == KeyOf(es[m]) {
          SameKeySameWords(es[j], es[m]);
        }
      }
    }
  }

  /** After index `m`, `seen` is the set of keys of the two-word entries
      before it, whether or not `m` was appended. */
  lemma TwoWordKeysStep(es: seq<Entry>, m: nat)
    requires m < |es|
    ensures TwoWordKeys(es, m + 1) ==
      if KeyOf(es[m]) !in TwoWordKeys(es, m) && TwoWords(es[m].taskName)
      then TwoWordKeys(es, m) + {KeyOf(es[m])}
      else TwoWordKeys(es, m)
  {
    var k := KeyOf(es[m]);
    if TwoWords(es[m].taskName) {
      assert TwoWordKeys(es, m + 1) == TwoWordKeys(es, m) + {k};
    } else {
      assert TwoWordKeys(es, m + 1) == TwoWordKeys(es, m);
    }
  }

  /** The loop, started at `m` with the keys it has remembered by then,
      yields exactly the surviving entries from `m` on. */
  lemma {:induction false} DedupIsKeptFrom(es: seq<Entry>, m: nat)
    requires m <= |es|
    ensures Dedup(es, m, TwoWordKeys(es, m)) == KeptFrom(es, m)
    decreases |es| - m
  {
    if m < |es| {
      TestIsKept(es, m);
      TwoWordKeysStep(es, m);
      DedupIsKeptFrom(es, m + 1);
      if Kept(es, m) {
        assert Dedup(es, m, TwoWordKeys(es, m)) == [Render(es[m])] + Dedup(es, m + 1, TwoWordKeys(es, m + 1));
      } else {
        assert Dedup(es, m, TwoWordKeys(es, m)) == Dedup(es, m + 1, TwoWordKeys(es, m + 1));
        assert KeptFrom(es, m) == [] + KeptFrom(es, m + 1);
      }
    }
  }

  /** The whole loop is the entry-by-entry description. */
  lemma DedupIsKept(es: seq<Entry>)
    ensures Dedup(es, 0, {}) == KeptFrom(es, 0)
  {
    assert TwoWordKeys(es, 0) == {};
    DedupIsKeptFrom(es, 0);
  }

  /** Properties of the description: a kept entry has two words, kept
      entries have pairwise different keys, and every two-word entry has
      the same key as a kept entry at or before it (its first occurrence). */
  lemma KeptEntriesDistinct(es: seq<Entry>, i: nat, j: nat)
    requires i < j < |es| && Kept(es, i) && Kept(es, j)
    ensures KeyOf(es[i]) != KeyOf(es[j])
  {
  }

  lemma {:induction false} FirstOccurrenceKept(es: seq<Entry>, i: nat)
    requires i < |es| && TwoWords(es[i].taskName)
    ensures exists j | 0 <= j <= i :: Kept(es, j) && KeyOf(es[j]) == KeyOf(es[i])
    decreases i
  {
    if Kept(es, i) {
      assert Kept(es, i) && KeyOf(es[i]) == KeyOf(es[i]);
    } else {
      var j :| 0 <= j < i && KeyOf(es[j]) == KeyOf(es[i]);
      SameKeySameWords(es[j], es[i]);
      FirstOccurrenceKept(es, j);
      var j' :| 0 <= j' <= j && Kept(es, j') && KeyOf(es[j']) == KeyOf(es[j]);
      assert Kept(es, j') && KeyOf(es[j']) == KeyOf(es[i]);
    }
  }

  /** Every task returned has a name of at least two words. */
  lemma {:induction false} KeptFromTwoWords(es: seq<Entry>, m: nat)
    requires m <= |es|
    ensures forall i | 0 <= i < |KeptFrom(es, m)| :: TwoWords(KeptFrom(es, m)[i].taskName)
    decreases |es| - m
  {
    if m < |es| {
      KeptFromTwoWords(es, m + 1);
      var head := if Kept(es, m) then [Render(es[m])] else [];
      assert KeptFrom(es, m) == head + KeptFrom(es, m + 1);
      forall i | 0 <= i < |KeptFrom(es, m)|
        ensures TwoWords(KeptFrom(es, m)[i].taskName)
      {
        if i >= |head| {
          assert KeptFrom(es, m)[i] == KeptFrom(es, m + 1)[i - |head|];
        }
      }
    }
  }

  /** The key is not stripped but the output is: names that differ only in
      surrounding whitespace are both kept and come out identical. */
  lemma WhitespaceVariantsNotMerged(name: string, date: string)
    requires TwoWords(name)
    ensures var es := [Entry(name, None, date), Entry(" " + name, None, date)];
      && Dedup(es, 0, {}) == [Render(es[0]), Render(es[1])]
      && Render(es[0]) == Render(es[1])
  {
    var es := [Entry(name, None, date), Entry(" " + name, None, date)];
    var spaced := " " + name;
    assert |Lower(spaced)| == |spaced| && |Lower(name)| == |name|;
    assert KeyOf(es[0]) != KeyOf(es[1]);
    assert spaced == [' '] + name;
    StripLeadingSpace(' ', name);
    WordCountStrip(name);
    WordCountStrip(spaced);
    assert TwoWords(es[1].taskName);
    DedupIsKept(es);
    assert Kept(es, 0) && Kept(es, 1);
    assert KeptFrom(es, 2) == [];
  }

  // ---------------------------------------------------------------------
  // the whole post-processing

  /** Every decoded task object has a name (otherwise `t["task_name"]`
      raises). */
  predicate AllNamed(ts: seq<RawTask>) {
    forall i | 0 <= i < |ts| :: ts[i].taskName.Some?
  }

  /** `extract_tasks_from_text` once the provider has answered with
      `reply`. */
  function ExtractTasks(reply: Option<string>, parse: string -> Option<seq<RawTask>>,
                        today: string, tomorrow: string): (r: seq<Task>)
    ensures reply.None? ==> r == []
    ensures reply.Some? && parse(StripFence(reply.value)).None? ==> r == []
    ensures reply.Some? && parse(StripFence(reply.value)).Some? ==>
      var ts := parse(StripFence(reply.value)).value;
      && (!AllNamed(ts) ==> r == [])
      && (AllNamed(ts) ==> r == KeptFrom(NormalizeAll(ts, today, tomorrow), 0) && |r| <= |ts|)
    ensures forall i | 0 <= i < |r| :: TwoWords(r[i].taskName)
  {
    match reply
    case None => []
    case Some(text) =>
      match parse(StripFence(text))
      case None => []
      case Some(ts) =>
        if !AllNamed(ts) then []
        else
          var es := NormalizeAll(ts, today, tomorrow);
          DedupIsKept(es);
          KeptFromTwoWords(es, 0);
          Dedup(es, 0, {})
  }
}
