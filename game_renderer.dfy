/*
 * The pure arithmetic and text handling inside the game screen's renderer
 * (src/ui/game_renderer.rs): word-wrapping the scene history, the width of
 * the inventory pane, the shortening of long item names, and the window of
 * history lines that fits the pane at the current scroll position.
 * Lengths are counted in characters (the source counts UTF-8 bytes; the two
 * agree on ASCII text). Terminal widths and heights are `u16` in the source.
 */
module GameRenderer {

  // ---------------------------------------------------------------------------
  // Splitting a paragraph into words (`str::split_whitespace`)

  /** Rust's `char::is_whitespace`: the Unicode White_Space property. */
  predicate IsWhitespace(c: char) {
    || ('\U{9}' <= c <= '\U{D}') || c == ' ' || c == '\U{85}' || c == '\U{A0}'
    || c == '\U{1680}' || ('\U{2000}' <= c <= '\U{200A}') || c == '\U{2028}' || c == '\U{2029}'
    || c == '\U{202F}' || c == '\U{205F}' || c == '\U{3000}'
  }

  /** A word: non-empty, without whitespace. */
  predicate IsWord(w: string) {
    w != [] && forall j :: 0 <= j < |w| ==> !IsWhitespace(w[j])
  }

  /** Length of the word that starts `s`. */
  function WordEnd(s: string): (k: nat)
    requires s != [] && !IsWhitespace(s[0])
    ensures 0 < k <= |s| && IsWord(s[..k])
    ensures k < |s| ==> IsWhitespace(s[k])
  {
    if |s| == 1 || IsWhitespace(s[1]) then 1
    else
      var k := 1 + WordEnd(s[1..]);
      assert s[..k] == [s[0]] + s[1..][..k - 1];
      k
  }

  /** The maximal runs of non-whitespace characters, in order. */
  function Words(s: string): (ws: seq<string>)
    ensures forall i :: 0 <= i < |ws| ==> IsWord(ws[i])
    decreases |s|
  {
    if s == [] then []
    else if IsWhitespace(s[0]) then Words(s[1..])
    else
      var k := WordEnd(s);
      [s[..k]] + Words(s[k..])
  }

  /** Each word followed by one space, concatenated. */
  function JoinWords(ws: seq<string>): string {
    if ws == [] then "" else JoinWords(ws[..|ws| - 1]) + ws[|ws| - 1] + " "
  }

  /** The concatenation of a list of lines. */
  function Concat(lines: seq<string>): string {
    if lines == [] then "" else Concat(lines[..|lines| - 1]) + lines[|lines| - 1]
  }

  lemma {:induction false} JoinWordsCons(w: string, ws: seq<string>)
    ensures JoinWords([w] + ws) == w + " " + JoinWords(ws)
    decreases |ws|
  {
    if ws == [] {
      assert [w] + ws == [w];
      assert ([w] + ws)[..0] == [];
    } else {
      var init := ws[..|ws| - 1];
      JoinWordsCons(w, init);
      assert ([w] + ws)[..|ws|] == [w] + init;
      assert ([w] + ws)[|ws|] == ws[|ws| - 1];
    }
  }

  /** Splitting on whitespace undoes joining words with single spaces. */
  lemma {:induction false} WordsOfJoin(ws: seq<string>)
    requires forall i :: 0 <= i < |ws| ==> IsWord(ws[i])
    ensures Words(JoinWords(ws)) == ws
    decreases |ws|
  {
    if ws != [] {
      var w, rest := ws[0], ws[1..];
      assert ws == [w] + rest;
      JoinWordsCons(w, rest);
      var s := JoinWords(ws);
      assert s == w + " " + JoinWords(rest);
      assert !IsWhitespace(s[0]) by { assert s[0] == w[0]; }
      WordEndOfWord(w, " " + JoinWords(rest));
      assert s == w + (" " + JoinWords(rest));
      assert s[..|w|] == w;
      assert s[|w|..] == " " + JoinWords(rest);
      assert Words(s[|w|..]) == Words(JoinWords(rest)) by {
        assert (" " + JoinWords(rest))[1..] == JoinWords(rest);
      }
      WordsOfJoin(rest);
    }
  }

  /** A word followed by whitespace ends where the word ends. */
  lemma {:induction false} WordEndOfWord(w: string, tail: string)
    requires IsWord(w) && tail != [] && IsWhitespace(tail[0])
    ensures WordEnd(w + tail) == |w|
    decreases |w|
  {
    var s := w + tail;
    if |w| > 1 {
      assert s[1..] == w[1..] + tail;
      WordEndOfWord(w[1..], tail);
    }
  }

  // ---------------------------------------------------------------------------
  // Wrapping a paragraph (`paragraph_list_to_lines`, lines 147-165)

  /** The lines finished so far and the line being filled. */
  datatype WrapState = WrapState(done: seq<string>, line: string)

  /**
   * One word: when it does not fit behind the current line (counting its
   * trailing space), the line is finished first. With `breakWhenEmpty` the
   * line is finished even when it is still empty, as the source does.
   */
  function WrapStep(st: WrapState, word: string, width: nat, breakWhenEmpty: bool): WrapState {
    if (breakWhenEmpty || st.line != "") && |st.line| + |word| + 1 > width then
      WrapState(st.done + [st.line], word + " ")
    else WrapState(st.done, st.line + word + " ")
  }

  /**
   * The fold of `WrapStep` over the words. Each word finishes at most one line,
   * and the line being filled is blank only before the first word.
   */
  function WrapFold(words: seq<string>, width: nat, breakWhenEmpty: bool): (st: WrapState)
    ensures |st.done| <= |words|
    ensures words == [] ==> st == WrapState([], "")
    ensures words != [] ==> st.line != ""
  {
    if words == [] then WrapState([], "")
    else WrapStep(WrapFold(words[..|words| - 1], width, breakWhenEmpty), words[|words| - 1], width, breakWhenEmpty)
  }

  function WrapWith(words: seq<string>, width: nat, breakWhenEmpty: bool): seq<string> {
    var st := WrapFold(words, width, breakWhenEmpty);
    st.done + [st.line]
  }

  /** The wrapping the source performs. */
  function SourceWrap(words: seq<string>, width: nat): (lines: seq<string>)
    ensures 1 <= |lines| <= |words| + 1
    ensures words == [] ==> lines == [""]
    ensures words != [] ==> lines[|lines| - 1] != ""
  {
    WrapWith(words, width, true)
  }

  /** The wrapping without the blank line (see the counterexample below). */
  function FixedWrap(words: seq<string>, width: nat): seq<string> {
    WrapWith(words, width, false)
  }

  /** A line the wrapper may produce: within the width, or one word and its space. */
  predicate IsWrappedLine(l: string, width: nat) {
    |l| <= width || (|l| > 0 && l[|l| - 1] == ' ' && IsWord(l[..|l| - 1]))
  }

  /** Concatenating the finished lines and the current one gives the words so far. */
  lemma {:induction false} WrapFoldKeepsWords(words: seq<string>, width: nat, breakWhenEmpty: bool)
    ensures var st := WrapFold(words, width, breakWhenEmpty);
      Concat(st.done) + st.line == JoinWords(words)
    decreases |words|
  {
    if words != [] {
      var init, w := words[..|words| - 1], words[|words| - 1];
      WrapFoldKeepsWords(init, width, breakWhenEmpty);
      var st := WrapFold(init, width, breakWhenEmpty);
      var done' := st.done + [st.line];
      assert done'[..|done'| - 1] == st.done;
    }
  }

  /** The wrapped lines, concatenated, are the paragraph's words in order, each with one space. */
  lemma WrapKeepsWords(words: seq<string>, width: nat, breakWhenEmpty: bool)
    ensures Concat(WrapWith(words, width, breakWhenEmpty)) == JoinWords(words)
  {
    WrapFoldKeepsWords(words, width, breakWhenEmpty);
    var st := WrapFold(words, width, breakWhenEmpty);
    var all := st.done + [st.line];
    assert all[..|all| - 1] == st.done;
  }

  lemma {:induction false} WrapFoldLinesFit(words: seq<string>, width: nat, breakWhenEmpty: bool)
    requires forall i :: 0 <= i < |words| ==> IsWord(words[i])
    ensures var st := WrapFold(words, width, breakWhenEmpty);
      && (forall i :: 0 <= i < |st.done| ==> IsWrappedLine(st.done[i], width))
      && IsWrappedLine(st.line, width)
    decreases |words|
  {
    if words != [] {
      var init, w := words[..|words| - 1], words[|words| - 1];
      WrapFoldLinesFit(init, width, breakWhenEmpty);
      var l := w + " ";
      assert l[..|l| - 1] == w;
    }
  }

  /** Every wrapped line fits the width, or holds a single word and its trailing space. */
  lemma WrapLinesFit(words: seq<string>, width: nat, breakWhenEmpty: bool)
    requires forall i :: 0 <= i < |words| ==> IsWord(words[i])
    ensures forall l :: l in WrapWith(words, width, breakWhenEmpty) ==> IsWrappedLine(l, width)
  {
    WrapFoldLinesFit(words, width, breakWhenEmpty);
  }

  /** The source starts a paragraph with a blank line when its first word is too long for the width. */
  lemma SourceWrapBlankLine()
    ensures var w := "Supercalifragilistic"; SourceWrap([w], 10) == ["", w + " "]
  {
    var w := "Supercalifragilistic";
    assert |w| == 20;
    assert [w][..0] == [];
    assert WrapFold([w], 10, true) == WrapStep(WrapState([], ""), w, 10, true);
    assert WrapFold([w], 10, true) == WrapState([""], w + " ");
  }

  lemma {:induction false} FixedWrapFoldNoBlank(words: seq<string>, width: nat)
    requires forall i :: 0 <= i < |words| ==> IsWord(words[i])
    ensures var st := WrapFold(words, width, false);
      && (forall i :: 0 <= i < |st.done| ==> st.done[i] != "")
      && (words != [] ==> st.line != "")
    decreases |words|
  {
    if words != [] {
      WrapFoldLinesFit(words[..|words| - 1], width, false);
      FixedWrapFoldNoBlank(words[..|words| - 1], width);
    }
  }

  /** Corrected: a paragraph with words is wrapped into lines none of which is blank. */
  lemma FixedWrapHasNoBlankLine(words: seq<string>, width: nat)
    requires words != [] && forall i :: 0 <= i < |words| ==> IsWord(words[i])
    ensures forall l :: l in FixedWrap(words, width) ==> l != ""
  {
    FixedWrapFoldNoBlank(words, width);
    var st := WrapFold(words, width, false);
    var lines := st.done + [st.line];
    forall l | l in lines ensures l != "" {
      var i :| 0 <= i < |lines| && lines[i] == l;
      if i < |st.done| {
        assert l == st.done[i];
      }
    }
  }

  lemma {:induction false} SourceFoldVersusFixed(words: seq<string>, width: nat)
    requires words != [] && forall i :: 0 <= i < |words| ==> IsWord(words[i])
    ensures var src, fix := WrapFold(words, width, true), WrapFold(words, width, false);
      && src.line == fix.line && src.line != ""
      && src.done == (if |words[0]| + 1 > width then [""] else []) + fix.done
    decreases |words|
  {
    if |words| > 1 {
      var init := words[..|words| - 1];
      assert init[0] == words[0];
      SourceFoldVersusFixed(init, width);
    } else {
      assert words[..0] == [];
    }
  }

  /** The two wrappings differ exactly by that leading blank line. */
  lemma SourceWrapIsFixedWithBlank(words: seq<string>, width: nat)
    requires words != [] && forall i :: 0 <= i < |words| ==> IsWord(words[i])
    ensures SourceWrap(words, width)
         == (if |words[0]| + 1 > width then [""] else []) + FixedWrap(words, width)
  {
    SourceFoldVersusFixed(words, width);
  }

  /** The history lines: each paragraph wrapped, followed by one blank separator line. */
  function ParagraphLines(paragraphs: seq<string>, width: nat): (lines: seq<string>)
    ensures |lines| >= 2 * |paragraphs|
  {
    if paragraphs == [] then []
    else
      ParagraphLines(paragraphs[..|paragraphs| - 1], width)
        + SourceWrap(Words(paragraphs[|paragraphs| - 1]), width) + [""]
  }

  /** Lines 147-165, as the source runs them: a loop over paragraphs around a loop over words. */
  method ParagraphListToLines(paragraphs: seq<string>, width: nat) returns (lines: seq<string>)
    ensures lines == ParagraphLines(paragraphs, width)
  {
    lines := [];
    for k := 0 to |paragraphs|
      invariant lines == ParagraphLines(paragraphs[..k], width)
    {
      var words := Words(paragraphs[k]);
      var paragraphLines: seq<string> := [];
      var line: string := "";
      for j := 0 to |words|
        invariant WrapState(paragraphLines, line) == WrapFold(words[..j], width, true)
      {
        var word := words[j];
        if |line| + |word| + 1 > width {
          paragraphLines := paragraphLines + [line];
          line := "";
        }
        line := line + word;
        line := line + " ";
        assert words[..j + 1][..j] == words[..j];
      }
      assert words[..|words|] == words;
      paragraphLines := paragraphLines + [line];
      lines := lines + paragraphLines;
      lines := lines + [""];
      assert paragraphs[..k + 1][..k] == paragraphs[..k];
    }
    assert paragraphs[..|paragraphs|] == paragraphs;
  }

  /** The lines of consecutive paragraph lists are consecutive blocks. */
  lemma {:induction false} ParagraphLinesAppend(ps: seq<string>, qs: seq<string>, width: nat)
    ensures ParagraphLines(ps + qs, width) == ParagraphLines(ps, width) + ParagraphLines(qs, width)
    decreases |qs|
  {
    if qs == [] {
      assert ps + qs == ps;
    } else {
      var init, p := qs[..|qs| - 1], qs[|qs| - 1];
      ParagraphLinesAppend(ps, init, width);
      var block := SourceWrap(Words(p), width) + [""];
      assert (ps + qs)[..|ps + qs| - 1] == ps + init;
      assert (ps + qs)[|ps + qs| - 1] == p;
      calc {
        ParagraphLines(ps + qs, width);
        ParagraphLines(ps + init, width) + block;
        (ParagraphLines(ps, width) + ParagraphLines(init, width)) + block;
        { LinesAssoc(ParagraphLines(ps, width), ParagraphLines(init, width), block); }
        ParagraphLines(ps, width) + (ParagraphLines(init, width) + block);
        ParagraphLines(ps, width) + ParagraphLines(qs, width);
      }
    }
  }

  lemma LinesAssoc(a: seq<string>, b: seq<string>, c: seq<string>)
    ensures (a + b) + c == a + (b + c)
  {
  }

  /** No paragraphs, no lines; one paragraph is its wrapped lines and one blank line. */
  lemma ParagraphLinesBlocks(p: string, width: nat)
    ensures ParagraphLines([], width) == []
    ensures ParagraphLines([p], width) == SourceWrap(Words(p), width) + [""]
  {
    assert [p][..0] == [];
  }

  /** Every history line is blank, fits the width, or holds a single over-long word and its space. */
  lemma {:induction false} ParagraphLinesFit(ps: seq<string>, width: nat)
    ensures forall l :: l in ParagraphLines(ps, width) ==> IsWrappedLine(l, width)
    decreases |ps|
  {
    if ps != [] {
      ParagraphLinesFit(ps[..|ps| - 1], width);
      WrapLinesFit(Words(ps[|ps| - 1]), width, true);
    }
  }

  // ---------------------------------------------------------------------------
  // The inventory pane (lines 105-115 and 167-175)

  /** The length of the longest item, 0 for an empty inventory. */
  function MaxLen(inventory: seq<string>): (m: nat)
    ensures forall i :: 0 <= i < |inventory| ==> |inventory[i]| <= m
    ensures inventory == [] ==> m == 0
    ensures inventory != [] ==> exists i :: 0 <= i < |inventory| && |inventory[i]| == m
  {
    if inventory == [] then 0
    else
      var rest := MaxLen(inventory[1..]);
      assert forall i :: 1 <= i < |inventory| ==> inventory[i] == inventory[1..][i - 1];
      if |inventory[0]| >= rest then |inventory[0]| else rest
  }

  /** Values of `u16` are taken modulo 2^16 by an `as u16` cast. */
  const U16Modulus: nat := 0x1_0000

  /**
   * `get_inventory_width`: the longest item plus two border columns, at least
   * 12, cast to `u16`, and at most 20.
   */
  function InventoryWidth(inventory: seq<string>): (w: nat)
    ensures inventory == [] ==> w == 12
    ensures w <= 20
    ensures MaxLen(inventory) + 2 < U16Modulus ==> 12 <= w
    ensures MaxLen(inventory) + 2 < U16Modulus ==>
      (w == 20 <==> MaxLen(inventory) >= 18) && (12 < w < 20 ==> w == MaxLen(inventory) + 2)
  {
    var widest := if MaxLen(inventory) + 2 >= 12 then MaxLen(inventory) + 2 else 12;
    var cast := widest % U16Modulus;
    if cast <= 20 then cast else 20
  }

  /** The label shown for an item: names longer than 20 become their first 18 characters and "..". */
  function InventoryLabel(item: string): (name: string)
    ensures |name| <= 20
    ensures |item| <= 20 ==> name == item
    ensures |item| > 20 ==> |name| == 20 && name[..18] == item[..18] && name[18..] == ".."
  {
    if |item| > 20 then item[..18] + ".." else item
  }

  function InventoryLabels(inventory: seq<string>): (labels: seq<string>)
    ensures |labels| == |inventory|
    ensures forall i :: 0 <= i < |inventory| ==> labels[i] == InventoryLabel(inventory[i])
    ensures forall i :: 0 <= i < |labels| ==> |labels[i]| <= 20
  {
    seq(|inventory|, i requires 0 <= i < |inventory| => InventoryLabel(inventory[i]))
  }

  // ---------------------------------------------------------------------------
  // The history window (lines 77-92)

  /** How many leading lines are skipped, and how many are shown. */
  datatype Window = Window(skip: nat, visible: nat)

  /**
   * Lines 77-85. `height` is the pane's height including its two border rows;
   * the source subtracts 2 from it as a `u16`, so it needs at least 2, and it
   * casts the line count to `u16`.
   */
  function HistoryWindow(len: nat, height: nat, scroll: nat): (w: Window)
    requires height >= 2
    ensures w.skip + w.visible <= len
    ensures w.visible <= height - 2
    ensures len < U16Modulus ==> w.visible == if height - 2 <= len then height - 2 else len
    ensures scroll == 0 ==> w.skip + w.visible == len
    ensures w.skip + w.visible == if len - scroll > w.visible then len - scroll else w.visible
  {
    var shown := len % U16Modulus;
    var visible := if height - 2 <= shown then height - 2 else shown;
    var skip := if len - scroll - visible > 0 then len - scroll - visible else 0;
    Window(skip, visible)
  }

  /** Lines 87-92: `skip(skip).take(visible)` over the history lines. */
  function VisibleLines(lines: seq<string>, height: nat, scroll: nat): (shown: seq<string>)
    requires height >= 2
    ensures var w := HistoryWindow(|lines|, height, scroll);
      |shown| == w.visible && shown == lines[w.skip..w.skip + w.visible]
    ensures scroll == 0 ==> shown == lines[|lines| - |shown|..]
  {
    var w := HistoryWindow(|lines|, height, scroll);
    var rest := if w.skip <= |lines| then lines[w.skip..] else [];
    if w.visible <= |rest| then rest[..w.visible] else rest
  }
}
