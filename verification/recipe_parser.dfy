/** The line-scanning recipe parser (`parse_ai_recipe_response`, lines
    117-160 of core/recipe_generator.py) and an independent, segment-by-segment
    description of the blocks it emits, proved to agree with it.

    The scanner keeps the lists emitted so far plus the open block's name
    (the stripped marker line, empty while no marker has been seen) and its
    accumulated body text. The source's `recipe_count` always equals the
    number of bodies emitted so far, so the model uses `|recipes| + 1`. */
module RecipeParser {
  import opened Text
  import opened CookingTerms

  /** A line that opens a block: it mentions one of the three markers. */
  predicate IsMarkerLine(line: string) {
    Contains(line, "Recipe 1:") || Contains(line, "Recipe 2:") || Contains(line, "Recipe 3:")
  }

  /** A stripped non-marker line that is added to the open block's body. */
  predicate IsBodyLine(line: string) {
    line != "" && !StartsWith(line, "Recipe")
  }

  /** `f"Recipe {k}: "`. */
  function RecipeLabel(k: nat): string {
    "Recipe " + NatToString(k) + ": "
  }

  /** The k-th emitted body: its label and its stripped text as annotated
      by `explain`. The scanner is stated for any annotator; the program
      passes `ExplainCookingTerms`. */
  function RecipeEntry(explain: string -> string, k: nat, text: string): string {
    RecipeLabel(k) + explain(Strip(text))
  }

  const PaddingName: string := "Mixed Ingredient Dish"
  /** The filler sentence, written in four pieces broken at spaces. */
  const PaddingBody: string :=
    "Cook the available" + " ingredients together" + " with seasonings" + " until tender."

  // ---------------------------------------------------------------------
  // the scanner, as written

  datatype ScanState = ScanState(
    recipes: seq<string>,
    names: seq<string>,
    currentRecipe: string,
    currentName: string)

  const Start: ScanState := ScanState([], [], "", "")

  /** The emitted lists are extended by at most one entry, in step, and
      what was emitted before is kept. */
  predicate Extends(s: ScanState, r: ScanState) {
    && s.recipes <= r.recipes && s.names <= r.names
    && |r.recipes| - |s.recipes| == |r.names| - |s.names|
  }

  /** Emits the open block exactly when it has both a name and a body: one
      entry more in each list, numbered after the entries before it, and
      named by the stripped marker line. */
  function CloseBlock(explain: string -> string, s: ScanState): (r: ScanState)
    ensures Extends(s, r) && |r.recipes| <= |s.recipes| + 1
    ensures |r.recipes| == |s.recipes| + 1 <==> s.currentRecipe != "" && s.currentName != ""
    ensures |r.recipes| == |s.recipes| + 1 ==>
      && StartsWith(r.recipes[|s.recipes|], RecipeLabel(|s.recipes| + 1))
      && r.names[|s.names|] == Strip(s.currentName)
  {
    if s.currentRecipe != "" && s.currentName != "" then
      var entry := RecipeEntry(explain, |s.recipes| + 1, s.currentRecipe);
      assert entry[..|RecipeLabel(|s.recipes| + 1)|] == RecipeLabel(|s.recipes| + 1);
      s.(recipes := s.recipes + [entry], names := s.names + [Strip(s.currentName)])
    else s
  }

  /** One iteration of the loop over `ai_response.split('\n')`: only a
      marker line can emit a block, and it opens a new one with an empty
      body; a body line is appended to the open body; any other line is
      ignored. */
  function ScanLine(explain: string -> string, s: ScanState, raw: string): (r: ScanState)
    ensures Extends(s, r)
    ensures IsMarkerLine(Strip(raw)) ==> r.currentName == Strip(raw) && r.currentRecipe == ""
    ensures !IsMarkerLine(Strip(raw)) ==>
      && r.recipes == s.recipes && r.names == s.names && r.currentName == s.currentName
      && s.currentRecipe <= r.currentRecipe
    ensures !IsMarkerLine(Strip(raw)) && !IsBodyLine(Strip(raw)) ==> r == s
  {
    var line := Strip(raw);
    if IsMarkerLine(line) then CloseBlock(explain, s).(currentName := line, currentRecipe := "")
    else if IsBodyLine(line) then s.(currentRecipe := s.currentRecipe + line + " ")
    else s
  }

  /** The whole loop: entries are only ever appended, in step. */
  function ScanLines(explain: string -> string, s: ScanState, lines: seq<string>): (r: ScanState)
    ensures Extends(s, r)
    decreases |lines|
  {
    if lines == [] then s else ScanLines(explain, ScanLine(explain, s, lines[0]), lines[1..])
  }

  /** The emitted bodies and names after the loop and the final close: as
      many names as bodies, when started that way, with the earlier
      entries kept. */
  function Finish(explain: string -> string, s: ScanState, lines: seq<string>): (r: (seq<string>, seq<string>))
    ensures s.recipes <= r.0 && s.names <= r.1
    ensures |s.recipes| == |s.names| ==> |r.0| == |r.1|
  {
    var f := CloseBlock(explain, ScanLines(explain, s, lines));
    (f.recipes, f.names)
  }

  // ---------------------------------------------------------------------
  // the blocks, described segment by segment

  /** A block the parser emits: its stripped marker line and its body text
      (each body line followed by one space). */
  datatype Block = Block(name: string, text: string)

  /** The number of leading lines that are not marker lines. */
  function NextMarker(lines: seq<string>): (n: nat)
    ensures n <= |lines|
    ensures forall i | 0 <= i < n :: !IsMarkerLine(Strip(lines[i]))
    ensures n < |lines| ==> IsMarkerLine(Strip(lines[n]))
  {
    if lines == [] || IsMarkerLine(Strip(lines[0])) then 0
    else 1 + NextMarker(lines[1..])
  }

  /** What a non-marker line contributes to a body. */
  function BodyPiece(raw: string): string {
    var line := Strip(raw);
    if IsBodyLine(line) then line + " " else ""
  }

  /** The body text accumulated over a run of non-marker lines. */
  function BodyText(lines: seq<string>): string {
    if lines == [] then "" else BodyPiece(lines[0]) + BodyText(lines[1..])
  }

  /** A body is non-empty iff its segment holds a body line. */
  lemma {:induction false} BodyTextNonEmpty(lines: seq<string>)
    ensures BodyText(lines) != "" <==> exists i | 0 <= i < |lines| :: IsBodyLine(Strip(lines[i]))
  {
    if lines != [] {
      BodyTextNonEmpty(lines[1..]);
      if exists i | 0 <= i < |lines[1..]| :: IsBodyLine(Strip(lines[1..][i])) {
        var i :| 0 <= i < |lines[1..]| && IsBodyLine(Strip(lines[1..][i]));
        assert IsBodyLine(Strip(lines[i + 1]));
      }
      if exists i | 0 <= i < |lines| :: IsBodyLine(Strip(lines[i])) {
        var i :| 0 <= i < |lines| && IsBodyLine(Strip(lines[i]));
        if i > 0 {
          assert IsBodyLine(Strip(lines[1..][i - 1]));
        }
      }
    }
  }

  /** The blocks of a reply: text before the first marker line is skipped;
      each marker line opens a segment that runs to the next marker line;
      a segment yields a block only when its body is non-empty. */
  function Blocks(lines: seq<string>): (r: seq<Block>)
    ensures forall i | 0 <= i < |r| ::
      IsMarkerLine(r[i].name) && Strip(r[i].name) == r[i].name && r[i].text != ""
    decreases |lines|
  {
    if lines == [] then []
    else
      var line := Strip(lines[0]);
      if !IsMarkerLine(line) then Blocks(lines[1..])
      else
        var rest := lines[1..];
        var n := NextMarker(rest);
        var text := BodyText(rest[..n]);
        StripIdempotent(lines[0]);
        (if text != "" then [Block(line, text)] else []) + Blocks(rest[n..])
  }

  function RenderBodies(explain: string -> string, start: nat, blocks: seq<Block>): (r: seq<string>)
    ensures |r| == |blocks|
    ensures forall i | 0 <= i < |blocks| :: r[i] == RecipeEntry(explain, start + i + 1, blocks[i].text)
  {
    seq(|blocks|, i requires 0 <= i < |blocks| => RecipeEntry(explain, start + i + 1, blocks[i].text))
  }

  /** Rendering a first block and then the rest, numbering on. */
  lemma RenderBodiesCons(explain: string -> string, start: nat, b: Block, rest: seq<Block>)
    ensures RenderBodies(explain, start, [b] + rest) ==
      [RecipeEntry(explain, start + 1, b.text)] + RenderBodies(explain, start + 1, rest)
  {
    var bs := [b] + rest;
    var l := RenderBodies(explain, start, bs);
    var r := [RecipeEntry(explain, start + 1, b.text)] + RenderBodies(explain, start + 1, rest);
    forall i | 0 <= i < |bs|
      ensures l[i] == r[i]
    {
      if i > 0 {
        assert bs[i] == rest[i - 1];
      }
    }
  }

  function RenderNames(blocks: seq<Block>): (r: seq<string>)
    ensures |r| == |blocks|
    ensures forall i | 0 <= i < |blocks| :: r[i] == Strip(blocks[i].name)
    decreases |blocks|
  {
    if blocks == [] then [] else [Strip(blocks[0].name)] + RenderNames(blocks[1..])
  }

  /** `s`'s emitted lists followed by the rendering of `blocks`. */
  function Appended(explain: string -> string, s: ScanState, blocks: seq<Block>): (seq<string>, seq<string>) {
    (s.recipes + RenderBodies(explain, |s.recipes|, blocks), s.names + RenderNames(blocks))
  }

  /** Rendering a first block and then the rest is rendering all of them. */
  lemma AppendedCons(explain: string -> string, s: ScanState, b: Block, rest: seq<Block>)
    ensures Appended(explain, s, [b] + rest) ==
      Appended(explain, s.(recipes := s.recipes + [RecipeEntry(explain, |s.recipes| + 1, b.text)],
                           names := s.names + [Strip(b.name)]), rest)
  {
    var bs := [b] + rest;
    var e := RecipeEntry(explain, |s.recipes| + 1, b.text);
    assert bs[0] == b && bs[1..] == rest;
    var bodies := RenderBodies(explain, |s.recipes| + 1, rest);
    RenderBodiesCons(explain, |s.recipes|, b, rest);
    assert s.recipes + ([e] + bodies) == (s.recipes + [e]) + bodies;
    var names := RenderNames(rest);
    assert RenderNames(bs) == [Strip(b.name)] + names;
    assert s.names + ([Strip(b.name)] + names) == (s.names + [Strip(b.name)]) + names;
  }

  // ---------------------------------------------------------------------
  // the scanner emits exactly the described blocks

  /** Before any marker line: whatever is accumulated is dropped, and the
      result is the rendering of the described blocks. */
  lemma {:induction false} ScanSeeking(explain: string -> string, s: ScanState, lines: seq<string>)
    requires s.currentName == ""
    ensures Finish(explain, s, lines) == Appended(explain, s, Blocks(lines))
    decreases |lines|, 3
  {
    if lines == [] {
      assert s.recipes + [] == s.recipes && s.names + [] == s.names;
    } else {
      var line := Strip(lines[0]);
      assert lines == [lines[0]] + lines[1..];
      if IsMarkerLine(line) {
        assert ScanLine(explain, s, lines[0]) == s.(currentName := line, currentRecipe := "");
        MarkerStep(explain, s, lines[0], lines[1..]);
      } else {
        ScanSeeking(explain, ScanLine(explain, s, lines[0]), lines[1..]);
      }
    }
  }

  /** A marker line opens a block on top of state `c`. */
  lemma {:induction false} MarkerStep(explain: string -> string, c: ScanState, raw: string, rest: seq<string>)
    requires IsMarkerLine(Strip(raw))
    ensures Finish(explain, c.(currentName := Strip(raw), currentRecipe := ""), rest) ==
      Appended(explain, c, Blocks([raw] + rest))
    decreases |rest| + 1, 1
  {
    var line := Strip(raw);
    var s' := c.(currentName := line, currentRecipe := "");
    assert line != "";
    ScanInBlock(explain, s', rest);
    var n := NextMarker(rest);
    var text := BodyText(rest[..n]);
    var lines := [raw] + rest;
    assert lines[0] == raw && lines[1..] == rest;
    assert Blocks(lines) == (if text != "" then [Block(line, text)] else []) + Blocks(rest[n..]);
    assert s'.(currentRecipe := "" + text) == s'.(currentRecipe := text);
    if text != "" {
      AppendedCons(explain, c, Block(line, text), Blocks(rest[n..]));
    } else {
      assert Blocks(lines) == Blocks(rest[n..]);
    }
  }

  /** Inside a block: the lines up to the next marker line extend the open
      body, the block is closed there, and the rest is described blocks. */
  lemma {:induction false} ScanInBlock(explain: string -> string, s: ScanState, lines: seq<string>)
    requires s.currentName != ""
    ensures var n := NextMarker(lines);
      Finish(explain, s, lines) ==
        Appended(explain, CloseBlock(explain, s.(currentRecipe := s.currentRecipe + BodyText(lines[..n]))),
                 Blocks(lines[n..]))
    decreases |lines|, 2
  {
    var n := NextMarker(lines);
    if lines == [] {
      assert s.(currentRecipe := s.currentRecipe + "") == s;
      var c := CloseBlock(explain, s);
      assert c.recipes + [] == c.recipes && c.names + [] == c.names;
    } else {
      var line := Strip(lines[0]);
      assert lines == [lines[0]] + lines[1..];
      if IsMarkerLine(line) {
        assert n == 0;
        assert s.(currentRecipe := s.currentRecipe + BodyText(lines[..0])) == s;
        MarkerStep(explain, CloseBlock(explain, s), lines[0], lines[1..]);
      } else {
        BodyLineInBlock(explain, s, lines);
      }
    }
  }

  /** `ScanInBlock` for a segment that starts with a non-marker line. */
  lemma {:induction false} BodyLineInBlock(explain: string -> string, s: ScanState, lines: seq<string>)
    requires s.currentName != ""
    requires lines != [] && !IsMarkerLine(Strip(lines[0]))
    ensures var n := NextMarker(lines);
      Finish(explain, s, lines) ==
        Appended(explain, CloseBlock(explain, s.(currentRecipe := s.currentRecipe + BodyText(lines[..n]))),
                 Blocks(lines[n..]))
    decreases |lines|, 1
  {
    BodyLineStep(lines);
    var n := NextMarker(lines);
    var m := NextMarker(lines[1..]);
    var piece := BodyPiece(lines[0]);
    var tail := BodyText(lines[1..][..m]);
    var s' := s.(currentRecipe := s.currentRecipe + piece);
    ScanBodyLine(explain, s, lines[0]);
    FinishStep(explain, s, lines);
    ScanInBlock(explain, s', lines[1..]);
    ExtendTwice(s, piece, tail);
  }

  /** Extending the open body twice is extending it once by both pieces. */
  lemma ExtendTwice(s: ScanState, piece: string, tail: string)
    ensures var s' := s.(currentRecipe := s.currentRecipe + piece);
      s'.(currentRecipe := s'.currentRecipe + tail) == s.(currentRecipe := s.currentRecipe + (piece + tail))
  {
    assert (s.currentRecipe + piece) + tail == s.currentRecipe + (piece + tail);
  }

  /** A non-marker line only extends the open body. */
  lemma ScanBodyLine(explain: string -> string, s: ScanState, raw: string)
    requires !IsMarkerLine(Strip(raw))
    ensures ScanLine(explain, s, raw) == s.(currentRecipe := s.currentRecipe + BodyPiece(raw))
  {
    if !IsBodyLine(Strip(raw)) {
      assert s.currentRecipe + "" == s.currentRecipe;
    }
  }

  /** Scanning a line is the first step of scanning the lines. */
  lemma FinishStep(explain: string -> string, s: ScanState, lines: seq<string>)
    requires lines != []
    ensures Finish(explain, s, lines) == Finish(explain, ScanLine(explain, s, lines[0]), lines[1..])
  {
  }

  /** A non-marker line followed by the rest of its segment: its piece
      followed by the rest's body is the segment's body. */
  lemma {:induction false} BodyLineStep(lines: seq<string>)
    requires lines != [] && !IsMarkerLine(Strip(lines[0]))
    ensures var n := NextMarker(lines);
      var m := NextMarker(lines[1..]);
      && n == 1 + m
      && lines[1..][m..] == lines[n..]
      && BodyText(lines[..n]) == BodyPiece(lines[0]) + BodyText(lines[1..][..m])
  {
    var n := NextMarker(lines);
    var m := NextMarker(lines[1..]);
    assert lines[..n][0] == lines[0] && lines[..n][1..] == lines[1..][..m];
  }

  /** The scan of a whole reply emits exactly the described blocks, numbered
      from 1 in emission order. */
  lemma {:induction false} ScanEmitsBlocks(explain: string -> string, lines: seq<string>)
    ensures Finish(explain, Start, lines) ==
      (RenderBodies(explain, 0, Blocks(lines)), RenderNames(Blocks(lines)))
  {
    ScanSeeking(explain, Start, lines);
    assert [] + RenderBodies(explain, 0, Blocks(lines)) == RenderBodies(explain, 0, Blocks(lines));
    assert [] + RenderNames(Blocks(lines)) == RenderNames(Blocks(lines));
  }

  // ---------------------------------------------------------------------
  // what the description says about a reply

  /** Lines before the first marker line never contribute a block. */
  lemma {:induction false} PreambleDiscarded(pre: seq<string>, rest: seq<string>)
    requires forall i | 0 <= i < |pre| :: !IsMarkerLine(Strip(pre[i]))
    ensures Blocks(pre + rest) == Blocks(rest)
    decreases |pre|
  {
    if pre != [] {
      assert (pre + rest)[0] == pre[0];
      assert (pre + rest)[1..] == pre[1..] + rest;
      PreambleDiscarded(pre[1..], rest);
    } else {
      assert pre + rest == rest;
    }
  }

  /** A reply without any marker line has no blocks. */
  lemma {:induction false} NoMarkerNoBlocks(lines: seq<string>)
    requires forall i | 0 <= i < |lines| :: !IsMarkerLine(Strip(lines[i]))
    ensures Blocks(lines) == []
  {
    PreambleDiscarded(lines, []);
    assert lines + [] == lines;
  }

  // ---------------------------------------------------------------------
  // padding and truncation

  /** The filler entry for position `k` (1-based): its body and its name. */
  function FillerBody(explain: string -> string, k: nat): string {
    RecipeLabel(k) + explain(PaddingBody)
  }

  function FillerName(k: nat): string {
    RecipeLabel(k) + PaddingName
  }

  /** The `while len(recipes) < 3` loop: filler entries continue the
      numbering until there are three; longer lists are left alone. */
  function PadToThree(explain: string -> string, recipes: seq<string>, names: seq<string>): (r: (seq<string>, seq<string>))
    requires |recipes| == |names|
    ensures |r.0| == |r.1| && |r.0| >= 3
    ensures |recipes| >= 3 ==> r == (recipes, names)
    ensures |recipes| < 3 ==> |r.0| == 3
    ensures r.0[..|recipes|] == recipes && r.1[..|names|] == names
    ensures forall i | |recipes| <= i < |r.0| ::
      r.0[i] == FillerBody(explain, i + 1) && r.1[i] == FillerName(i + 1)
    decreases 3 - |recipes|
  {
    if |recipes| >= 3 then (recipes, names)
    else
      var k := |recipes| + 1;
      var r := PadToThree(explain, recipes + [FillerBody(explain, k)], names + [FillerName(k)]);
      assert r.0[..|recipes|] == (r.0[..k])[..|recipes|];
      assert r.1[..|names|] == (r.1[..k])[..|names|];
      r
  }

  /** The two lists `parse_ai_recipe_response` returns: `recipy_name` and
      `recipy`. */
  datatype Parsed = Parsed(names: seq<string>, bodies: seq<string>)

  /** The parse of a reply with annotator `explain`: scan, close, pad, keep
      the first three. Every body is labelled with its position; the first
      entries come from the reply's blocks in order, the remaining ones are
      filler. */
  function ParseWith(explain: string -> string, aiResponse: string): (r: Parsed)
    ensures |r.names| == 3 && |r.bodies| == 3
    ensures forall i | 0 <= i < 3 :: StartsWith(r.bodies[i], RecipeLabel(i + 1))
    ensures var blocks := Blocks(SplitLines(aiResponse));
      forall i | 0 <= i < 3 && i < |blocks| ::
        r.names[i] == blocks[i].name && r.bodies[i] == RecipeEntry(explain, i + 1, blocks[i].text)
    ensures var blocks := Blocks(SplitLines(aiResponse));
      forall i | |blocks| <= i < 3 ::
        r.names[i] == FillerName(i + 1) && r.bodies[i] == FillerBody(explain, i + 1)
  {
    var lines := SplitLines(aiResponse);
    var emitted := Finish(explain, Start, lines);
    ScanEmitsBlocks(explain, lines);
    var blocks := Blocks(lines);
    var padded := PadToThree(explain, emitted.0, emitted.1);
    var r := Parsed(padded.1[..3], padded.0[..3]);
    forall i | 0 <= i < 3 && i < |blocks|
      ensures r.names[i] == blocks[i].name
      ensures r.bodies[i] == RecipeEntry(explain, i + 1, blocks[i].text)
    {
      assert r.names[i] == emitted.1[i];
      assert r.bodies[i] == emitted.0[i];
    }
    forall i | 0 <= i < 3
      ensures StartsWith(r.bodies[i], RecipeLabel(i + 1))
    {
      if i < |blocks| {
        LabelledEntry(RecipeLabel(i + 1), explain(Strip(blocks[i].text)));
      } else {
        FillerLabelled(explain, i + 1);
      }
    }
    r
  }

  /** A filler body starts with its label. */
  lemma FillerLabelled(explain: string -> string, k: nat)
    ensures StartsWith(FillerBody(explain, k), RecipeLabel(k))
  {
    LabelledEntry(RecipeLabel(k), explain(PaddingBody));
  }

  /** A labelled entry starts with its label. */
  lemma LabelledEntry(prefix: string, text: string)
    ensures StartsWith(prefix + text, prefix)
  {
    assert (prefix + text)[..|prefix|] == prefix;
  }
}
