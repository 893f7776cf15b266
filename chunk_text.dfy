/** Model of the semantic chunker: splitting a section's text into
    paragraphs, packing paragraphs (or, for an over-budget paragraph, its
    sentences) greedily under a token budget, and titling the chunks of each
    section. The tokenizer is the parameter `count`. */
module ChunkText {
  import opened Wrappers
  import opened Strings
  import opened Seqs

  const SentenceSeparator: string := ". "
  /** `" – "`, with an en dash (U+2013) */
  const TitleSeparator: string := " \U{2013} "
  const UntitledSection: string := "Untitled Section"
  const ListItemTitle: string := "list_item"

  // ------------------------------------------------------------------
  // Paragraphs: re.split(r"\n\s*\n", text), then strip and drop blanks
  // ------------------------------------------------------------------

  /** A string that `\n\s*\n` matches as a whole. */
  predicate IsBlankLine(t: string)
  {
    |t| >= 2 && t[0] == '\n' && t[|t| - 1] == '\n' && AllSpace(t)
  }

  /** The end of the run of whitespace that starts at `p`. */
  function SpaceRunEnd(s: string, p: nat): (e: nat)
    requires p <= |s|
    ensures p <= e <= |s|
    ensures AllSpace(s[p..e])
    ensures e == |s| || !IsSpace(s[e])
    decreases |s| - p
  {
    if p < |s| && IsSpace(s[p]) then
      var e := SpaceRunEnd(s, p + 1);
      assert s[p..e] == [s[p]] + s[p + 1..e];
      e
    else
      p
  }

  /** The last newline in `s[lo..hi]`. */
  function LastNewline(s: string, lo: nat, hi: nat): (r: Option<nat>)
    requires lo <= hi <= |s|
    ensures r.Some? ==> lo <= r.value < hi && s[r.value] == '\n'
    ensures forall j :: lo <= j < hi && s[j] == '\n' ==> r.Some? && j <= r.value
    decreases hi - lo
  {
    if lo == hi then None
    else if s[hi - 1] == '\n' then Some(hi - 1)
    else LastNewline(s, lo, hi - 1)
  }

  /** The end (exclusive) of a match of `\n\s*\n` that starts at `i`, if any:
      the greedy `\s*` first takes the whole whitespace run after the first
      newline, then gives characters back until a newline follows. */
  function BlankLineMatchAt(s: string, i: nat): (r: Option<nat>)
    requires i < |s|
    ensures r.Some? ==> i + 2 <= r.value <= |s| && IsBlankLine(s[i..r.value])
  {
    if s[i] != '\n' then None
    else
      var e := SpaceRunEnd(s, i + 1);
      match LastNewline(s, i + 1, e)
      case None => None
      case Some(j) =>
        assert s[i..j + 1] == [s[i]] + s[i + 1..e][..j - i];
        Some(j + 1)
  }

  /** The leftmost match at or after `from`, as (start, end). */
  function FindBlankLine(s: string, from: nat): (r: Option<(nat, nat)>)
    requires from <= |s|
    ensures r.Some? ==> from <= r.value.0 && r.value.0 + 2 <= r.value.1 <= |s|
    ensures r.Some? ==> IsBlankLine(s[r.value.0..r.value.1])
    decreases |s| - from
  {
    if from == |s| then None
    else
      match BlankLineMatchAt(s, from)
      case Some(e) => Some((from, e))
      case None => FindBlankLine(s, from + 1)
  }

  /** A piece of the split together with the separator that followed it. */
  datatype Segment = Segment(text: string, sep: string)

  function SegmentsText(segs: seq<Segment>): string
  {
    if segs == [] then "" else segs[0].text + segs[0].sep + SegmentsText(segs[1..])
  }

  lemma SegmentsTextCons(s: string, i: nat, e: nat, rest: seq<Segment>)
    requires i <= e <= |s| && SegmentsText(rest) == s[e..]
    ensures SegmentsText([Segment(s[..i], s[i..e])] + rest) == s
  {
    var r := [Segment(s[..i], s[i..e])] + rest;
    assert r[1..] == rest;
    assert s == s[..i] + s[i..e] + s[e..];
  }

  lemma SegmentsShapeCons(seg: Segment, rest: seq<Segment>)
    requires IsBlankLine(seg.sep) && |rest| >= 1 && rest[|rest| - 1].sep == ""
    requires forall k :: 0 <= k < |rest| - 1 ==> IsBlankLine(rest[k].sep)
    ensures var r := [seg] + rest;
      r[|r| - 1].sep == "" && forall k :: 0 <= k < |r| - 1 ==> IsBlankLine(r[k].sep)
  {
    var r := [seg] + rest;
    assert r[|r| - 1] == rest[|rest| - 1];
    forall k | 0 <= k < |r| - 1 ensures IsBlankLine(r[k].sep) {
      if k > 0 {
        assert r[k] == rest[k - 1];
      }
    }
  }

  /** `re.split(r"\n\s*\n", s)`, each piece paired with the matched separator
      after it. Putting pieces and separators back together gives `s`; every
      separator is a blank line, and the last piece has none. */
  function BlankLineSegments(s: string): (r: seq<Segment>)
    ensures |r| >= 1
    ensures SegmentsText(r) == s
    ensures r[|r| - 1].sep == ""
    ensures forall k :: 0 <= k < |r| - 1 ==> IsBlankLine(r[k].sep)
    decreases |s|
  {
    match FindBlankLine(s, 0)
    case None => [Segment(s, "")]
    case Some((i, e)) =>
      var rest := BlankLineSegments(s[e..]);
      SegmentsTextCons(s, i, e, rest);
      SegmentsShapeCons(Segment(s[..i], s[i..e]), rest);
      [Segment(s[..i], s[i..e])] + rest
  }

  /** The list `re.split(r"\n\s*\n", s)` returns. */
  function BlankLineSplit(s: string): (r: seq<string>)
  {
    var segs := BlankLineSegments(s);
    seq(|segs|, k requires 0 <= k < |segs| => segs[k].text)
  }

  /** `split_into_paragraphs(text)`. */
  function SplitIntoParagraphs(text: string): (r: seq<string>)
  {
    StripNonBlank(BlankLineSplit(text))
  }

  /** A `\n\s*\n` match that starts at `i` ends no later than the one
      `BlankLineMatchAt` returns: the greedy match is the longest, and there
      is one whenever any match starts at `i`. */
  lemma BlankLineMatchLongest(s: string, i: nat, e: nat)
    requires i < e <= |s|
    ensures IsBlankLine(s[i..e]) ==> BlankLineMatchAt(s, i).Some? && e <= BlankLineMatchAt(s, i).value
  {
    if IsBlankLine(s[i..e]) {
      var t := s[i..e];
      assert s[i] == t[0] == '\n';
      assert s[e - 1] == t[e - 1 - i] == '\n';
      var E := SpaceRunEnd(s, i + 1);
      forall p | i + 1 <= p < e ensures IsSpace(s[p]) {
        assert s[p] == t[p - i];
      }
      assert e <= E;
    }
  }

  /** `FindBlankLine` finds the leftmost match, and at that position the
      longest one; `None` means there is no match at all. */
  lemma {:induction false} FindBlankLineSpec(s: string, from: nat)
    requires from <= |s|
    ensures var r := FindBlankLine(s, from);
      forall a, b :: from <= a < (if r.Some? then r.value.0 else |s|) && a < b <= |s| ==> !IsBlankLine(s[a..b])
    ensures var r := FindBlankLine(s, from);
      r.Some? ==> forall b :: r.value.1 < b <= |s| ==> !IsBlankLine(s[r.value.0..b])
    decreases |s| - from
  {
    if from < |s| {
      var r := FindBlankLine(s, from);
      if BlankLineMatchAt(s, from).Some? {
        assert r == Some((from, BlankLineMatchAt(s, from).value));
        forall b | r.value.1 < b <= |s| ensures !IsBlankLine(s[from..b]) {
          BlankLineMatchLongest(s, from, b);
        }
      } else {
        FindBlankLineSpec(s, from + 1);
        assert r == FindBlankLine(s, from + 1);
        forall a, b | from <= a < (if r.Some? then r.value.0 else |s|) && a < b <= |s|
          ensures !IsBlankLine(s[a..b])
        {
          BlankLineMatchLongest(s, a, b);
        }
      }
    }
  }

  /** No match starts before position `n` of `t`. */
  predicate NoMatchBefore(t: string, n: nat)
  {
    forall a, b :: 0 <= a < n && a < b <= |t| ==> !IsBlankLine(t[a..b])
  }

  /** A segment cut from the head of `t` as `re.split` cuts it: the piece
      runs up to the leftmost match, and the separator is the longest match
      there (or empty, when there is no match and the piece is all of `t`). */
  predicate LeftmostLongest(t: string, seg: Segment)
  {
    && |seg.text| + |seg.sep| <= |t|
    && NoMatchBefore(t, |seg.text|)
    && (seg.sep == "" || forall b :: |seg.text| + |seg.sep| < b <= |t| ==> !IsBlankLine(t[|seg.text|..b]))
  }

  /** Every segment of `r` is cut from the text remaining at its position. */
  predicate AllCutLeftmostLongest(r: seq<Segment>)
  {
    forall k :: 0 <= k < |r| ==> LeftmostLongest(SegmentsText(r[k..]), r[k])
  }

  lemma LeftmostLongestCons(seg: Segment, rest: seq<Segment>)
    requires LeftmostLongest(SegmentsText([seg] + rest), seg)
    requires AllCutLeftmostLongest(rest)
    ensures AllCutLeftmostLongest([seg] + rest)
  {
    var r := [seg] + rest;
    assert r[0..] == r;
    forall k | 1 <= k < |r| ensures LeftmostLongest(SegmentsText(r[k..]), r[k]) {
      assert r[k..] == rest[k - 1..] && r[k] == rest[k - 1];
    }
  }

  lemma SegmentsCons(s: string, seg: Segment, rest: seq<Segment>, r: seq<Segment>)
    requires r == [seg] + rest && SegmentsText(r) == s && LeftmostLongest(s, seg)
    requires AllCutLeftmostLongest(rest)
    ensures AllCutLeftmostLongest(r)
  {
    LeftmostLongestCons(seg, rest);
  }

  /** The first segment, cut at the first match or, without one, the
      whole text. */
  lemma HeadSegment(s: string)
    ensures FindBlankLine(s, 0).None? ==> LeftmostLongest(s, Segment(s, ""))
    ensures FindBlankLine(s, 0).Some? ==>
      var (i, e) := FindBlankLine(s, 0).value;
      LeftmostLongest(s, Segment(s[..i], s[i..e]))
  {
    FindBlankLineSpec(s, 0);
  }

  /** Every segment is cut from the text that remains at its position
      exactly as `re.split(r"\n\s*\n")` cuts it: at the leftmost match,
      taking the longest match there. */
  lemma {:induction false} BlankLineSegmentsSpec(s: string)
    ensures AllCutLeftmostLongest(BlankLineSegments(s))
    decreases |s|
  {
    var r := BlankLineSegments(s);
    var m := FindBlankLine(s, 0);
    HeadSegment(s);
    if m.None? {
      assert r == [Segment(s, "")];
      assert r[0..] == r;
    } else {
      var (i, e) := m.value;
      var rest := BlankLineSegments(s[e..]);
      BlankLineSegmentsSpec(s[e..]);
      assert r == [Segment(s[..i], s[i..e])] + rest;
      SegmentsCons(s, Segment(s[..i], s[i..e]), rest, r);
    }
  }

  predicate NoBlankLine(t: string)
  {
    forall a, b :: 0 <= a < b <= |t| ==> !IsBlankLine(t[a..b])
  }

  lemma PieceClean(t: string, seg: Segment)
    requires |seg.text| <= |t| && t[..|seg.text|] == seg.text && LeftmostLongest(t, seg)
    ensures NoBlankLine(seg.text)
  {
    forall a, b | 0 <= a < b <= |seg.text| ensures !IsBlankLine(seg.text[a..b]) {
      assert seg.text[a..b] == t[a..b];
    }
  }

  /** The piece of the first segment is a prefix of the text. */
  lemma PieceIsPrefix(x: seq<Segment>)
    requires x != []
    ensures |x[0].text| <= |SegmentsText(x)| && SegmentsText(x)[..|x[0].text|] == x[0].text
  {
    var tail := x[0].sep + SegmentsText(x[1..]);
    assert SegmentsText(x) == x[0].text + tail;
  }

  lemma AllPiecesClean(r: seq<Segment>)
    requires AllCutLeftmostLongest(r)
    ensures forall k :: 0 <= k < |r| ==> NoBlankLine(r[k].text)
  {
    forall k | 0 <= k < |r| ensures NoBlankLine(r[k].text) {
      var x := r[k..];
      PieceIsPrefix(x);
      assert x[0] == r[k];
      PieceClean(SegmentsText(x), r[k]);
    }
  }

  /** In particular no piece holds a blank-line match of its own. */
  lemma BlankLinePiecesClean(s: string)
    ensures var r := BlankLineSegments(s);
      forall k :: 0 <= k < |r| ==> NoBlankLine(r[k].text)
  {
    BlankLineSegmentsSpec(s);
    AllPiecesClean(BlankLineSegments(s));
  }

  /** Paragraphs are stripped and non-empty. */
  lemma ParagraphsStrippedNonEmpty(text: string)
    ensures forall i :: 0 <= i < |SplitIntoParagraphs(text)| ==>
      SplitIntoParagraphs(text)[i] != "" && Strip(SplitIntoParagraphs(text)[i]) == SplitIntoParagraphs(text)[i]
  {
    var ps := SplitIntoParagraphs(text);
    forall i | 0 <= i < |ps| ensures Strip(ps[i]) == ps[i] {
      StripTrimmed(ps[i]);
    }
  }

  lemma {:induction false} NoNewlineNoBlankLine(s: string, from: nat)
    requires from <= |s| && '\n' !in s
    ensures FindBlankLine(s, from) == None
    decreases |s| - from
  {
    if from < |s| {
      assert s[from] != '\n';
      NoNewlineNoBlankLine(s, from + 1);
    }
  }

  /** Text without any newline is one paragraph: itself, stripped (or none
      when it is blank). */
  lemma SingleLineParagraph(text: string)
    requires '\n' !in text
    ensures SplitIntoParagraphs(text) == (if Strip(text) == "" then [] else [Strip(text)])
  {
    NoNewlineNoBlankLine(text, 0);
    assert BlankLineSplit(text) == [text];
  }

  // ------------------------------------------------------------------
  // Units and greedy packing (semantic_chunking)
  // ------------------------------------------------------------------

  /** The units one paragraph contributes: itself, or its `". "`-pieces when
      it alone is over budget. */
  function ParagraphUnits(p: string, count: string -> nat, maxTokens: int): (r: seq<string>)
    ensures |r| >= 1
  {
    if count(p) > maxTokens then Split(p, SentenceSeparator) else [p]
  }

  /** The units of all paragraphs, in order. */
  function Units(ps: seq<string>, count: string -> nat, maxTokens: int): (r: seq<string>)
    ensures r == [] <==> ps == []
  {
    if ps == [] then [] else ParagraphUnits(ps[0], count, maxTokens) + Units(ps[1..], count, maxTokens)
  }

  /** Joining a paragraph's units with `". "` gives the paragraph back, so
      splitting into sentences loses no text (only the rejoin with a single
      space in the chunk drops the separators). */
  lemma ParagraphUnitsRejoin(p: string, count: string -> nat, maxTokens: int)
    ensures Join(SentenceSeparator, ParagraphUnits(p, count, maxTokens)) == p
  {
  }

  /** Sum of the token counts of the units, added left to right as
      `current_length` is. */
  function TokenSum(us: seq<string>, count: string -> nat): nat
  {
    if us == [] then 0 else TokenSum(us[..|us| - 1], count) + count(us[|us| - 1])
  }

  lemma TokenSumSnoc(us: seq<string>, u: string, count: string -> nat)
    ensures TokenSum(us + [u], count) == TokenSum(us, count) + count(u)
  {
    assert (us + [u])[..|us|] == us;
  }

  /** The packing loop over the remaining units `us`, with `done` the flushed
      groups and `current` the accumulator: before a unit that would push the
      accumulated sum over `maxTokens`, the accumulator is flushed (even when
      it is empty); the unit is then always appended. */
  function PackFrom(done: seq<seq<string>>, current: seq<string>, us: seq<string>,
                    count: string -> nat, maxTokens: int): seq<seq<string>>
    decreases |us|
  {
    if us == [] then
      (if current != [] then done + [current] else done)
    else if TokenSum(current, count) + count(us[0]) > maxTokens then
      PackFrom(done + [current], [us[0]], us[1..], count, maxTokens)
    else
      PackFrom(done, current + [us[0]], us[1..], count, maxTokens)
  }

  /** The groups of units that become the chunks. */
  function Pack(us: seq<string>, count: string -> nat, maxTokens: int): seq<seq<string>>
  {
    PackFrom([], [], us, count, maxTokens)
  }

  /** Each chunk is its units joined by a single space. */
  function ChunkTexts(groups: seq<seq<string>>): (r: seq<string>)
    ensures |r| == |groups|
  {
    seq(|groups|, i requires 0 <= i < |groups| => Join(" ", groups[i]))
  }

  /** `semantic_chunking(text, max_tokens)`, as a function of the text. */
  function SemanticChunks(text: string, count: string -> nat, maxTokens: int): seq<string>
  {
    ChunkTexts(Pack(Units(SplitIntoParagraphs(text), count, maxTokens), count, maxTokens))
  }

  // --- coverage: nothing dropped, nothing reordered

  lemma {:induction false} PackFromCovers(done: seq<seq<string>>, current: seq<string>, us: seq<string>,
                                          count: string -> nat, maxTokens: int)
    ensures Flatten(PackFrom(done, current, us, count, maxTokens)) == Flatten(done) + current + us
    decreases |us|
  {
    if us == [] {
      if current != [] {
        FlattenSnoc(done, current);
      }
    } else if TokenSum(current, count) + count(us[0]) > maxTokens {
      PackFromCovers(done + [current], [us[0]], us[1..], count, maxTokens);
      FlattenSnoc(done, current);
      assert us == [us[0]] + us[1..];
    } else {
      PackFromCovers(done, current + [us[0]], us[1..], count, maxTokens);
      assert us == [us[0]] + us[1..];
    }
  }

  /** Flattening the groups gives exactly the unit sequence. */
  lemma PackCovers(us: seq<string>, count: string -> nat, maxTokens: int)
    ensures Flatten(Pack(us, count, maxTokens)) == us
  {
    PackFromCovers([], [], us, count, maxTokens);
  }

  // --- budget: every prefix past the first unit fits

  /** A group whose running sum stays within budget from its second unit on,
      i.e. no unit after the first was appended over budget. */
  predicate Fits(g: seq<string>, count: string -> nat, maxTokens: int)
  {
    forall k :: 2 <= k <= |g| ==> TokenSum(g[..k], count) <= maxTokens
  }

  predicate AllFit(gs: seq<seq<string>>, count: string -> nat, maxTokens: int)
  {
    forall i :: 0 <= i < |gs| ==> Fits(gs[i], count, maxTokens)
  }

  lemma FitsSnoc(g: seq<string>, u: string, count: string -> nat, maxTokens: int)
    requires Fits(g, count, maxTokens)
    requires g == [] || TokenSum(g, count) + count(u) <= maxTokens
    ensures Fits(g + [u], count, maxTokens)
  {
    forall k | 2 <= k <= |g| + 1 ensures TokenSum((g + [u])[..k], count) <= maxTokens {
      if k <= |g| {
        assert (g + [u])[..k] == g[..k];
      } else {
        assert (g + [u])[..k] == g + [u];
        TokenSumSnoc(g, u, count);
      }
    }
  }

  lemma {:induction false} PackFromFits(done: seq<seq<string>>, current: seq<string>, us: seq<string>,
                                        count: string -> nat, maxTokens: int)
    requires AllFit(done, count, maxTokens) && Fits(current, count, maxTokens)
    ensures AllFit(PackFrom(done, current, us, count, maxTokens), count, maxTokens)
    decreases |us|
  {
    if us == [] {
    } else if TokenSum(current, count) + count(us[0]) > maxTokens {
      assert Fits([us[0]], count, maxTokens);
      PackFromFits(done + [current], [us[0]], us[1..], count, maxTokens);
    } else {
      FitsSnoc(current, us[0], count, maxTokens);
      PackFromFits(done, current + [us[0]], us[1..], count, maxTokens);
    }
  }

  /** Every group of two or more units is within budget; more precisely the
      running sum of a group stays within budget once its second unit is in. */
  lemma PackFits(us: seq<string>, count: string -> nat, maxTokens: int)
    ensures AllFit(Pack(us, count, maxTokens), count, maxTokens)
    ensures forall i :: 0 <= i < |Pack(us, count, maxTokens)| && |Pack(us, count, maxTokens)[i]| >= 2 ==>
      TokenSum(Pack(us, count, maxTokens)[i], count) <= maxTokens
  {
    PackFromFits([], [], us, count, maxTokens);
    var gs := Pack(us, count, maxTokens);
    forall i | 0 <= i < |gs| && |gs[i]| >= 2 ensures TokenSum(gs[i], count) <= maxTokens {
      assert gs[i][..|gs[i]|] == gs[i];
    }
  }

  lemma {:induction false} TokenSumAtLeast(g: seq<string>, j: nat, count: string -> nat)
    requires j < |g|
    ensures TokenSum(g, count) >= count(g[j])
  {
    if j < |g| - 1 {
      TokenSumAtLeast(g[..|g| - 1], j, count);
    }
  }

  /** A unit over budget by itself is a chunk of its own (the accepted
      overflow: such a chunk exceeds the budget by that unit). */
  lemma OversizedUnitAlone(us: seq<string>, count: string -> nat, maxTokens: int, i: nat, j: nat)
    requires i < |Pack(us, count, maxTokens)| && j < |Pack(us, count, maxTokens)[i]|
    requires count(Pack(us, count, maxTokens)[i][j]) > maxTokens
    ensures Pack(us, count, maxTokens)[i] == [Pack(us, count, maxTokens)[i][j]]
  {
    var g := Pack(us, count, maxTokens)[i];
    PackFits(us, count, maxTokens);
    TokenSumAtLeast(g, j, count);
  }

  // --- greedy maximality: a flush happens only when the next unit does not fit

  /** Consecutive groups: the later one is non-empty, and its first unit
      would have pushed the earlier one over budget. */
  predicate Boundaries(gs: seq<seq<string>>, count: string -> nat, maxTokens: int)
  {
    forall i :: 1 <= i < |gs| ==> gs[i] != [] && TokenSum(gs[i - 1], count) + count(gs[i][0]) > maxTokens
  }

  lemma {:induction false} PackFromBoundaries(done: seq<seq<string>>, current: seq<string>, us: seq<string>,
                                              count: string -> nat, maxTokens: int)
    requires Boundaries(done + [current], count, maxTokens)
    requires current == [] ==> done == []
    ensures Boundaries(PackFrom(done, current, us, count, maxTokens), count, maxTokens)
    decreases |us|
  {
    if us == [] {
      if current != [] {
      } else {
        assert done == [];
      }
    } else if TokenSum(current, count) + count(us[0]) > maxTokens {
      var gs := done + [current] + [[us[0]]];
      assert gs == (done + [current]) + [[us[0]]];
      assert Boundaries(gs, count, maxTokens);
      PackFromBoundaries(done + [current], [us[0]], us[1..], count, maxTokens);
    } else {
      var gs := done + [current + [us[0]]];
      forall i | 1 <= i < |gs|
        ensures gs[i] != [] && TokenSum(gs[i - 1], count) + count(gs[i][0]) > maxTokens
      {
        if i < |done| {
          assert gs[i] == (done + [current])[i] && gs[i - 1] == (done + [current])[i - 1];
        } else {
          assert current != [];
          assert gs[i][0] == (done + [current])[i][0] && gs[i - 1] == (done + [current])[i - 1];
        }
      }
      PackFromBoundaries(done, current + [us[0]], us[1..], count, maxTokens);
    }
  }

  /** Greedy maximality: every group after the first is non-empty, and the
      sum of the group before it plus its first unit's count is over budget. */
  lemma PackBoundaries(us: seq<string>, count: string -> nat, maxTokens: int)
    ensures Boundaries(Pack(us, count, maxTokens), count, maxTokens)
  {
    PackFromBoundaries([], [], us, count, maxTokens);
  }

  // --- the flushed prefix is kept; empty output and the empty first chunk

  lemma {:induction false} PackFromKeeps(done: seq<seq<string>>, current: seq<string>, us: seq<string>,
                                         count: string -> nat, maxTokens: int)
    ensures |PackFrom(done, current, us, count, maxTokens)| >= |done|
    ensures PackFrom(done, current, us, count, maxTokens)[..|done|] == done
    ensures current != [] ==>
      |PackFrom(done, current, us, count, maxTokens)| > |done| && PackFrom(done, current, us, count, maxTokens)[|done|] != []
    decreases |us|
  {
    if us == [] {
    } else if TokenSum(current, count) + count(us[0]) > maxTokens {
      PackFromKeeps(done + [current], [us[0]], us[1..], count, maxTokens);
      var r := PackFrom(done, current, us, count, maxTokens);
      assert r[..|done|] == r[..|done| + 1][..|done|];
    } else {
      PackFromKeeps(done, current + [us[0]], us[1..], count, maxTokens);
    }
  }

  /** No units, no groups; otherwise the first group is empty exactly when
      the very first unit is over budget (the empty accumulator is flushed). */
  lemma PackFirst(us: seq<string>, count: string -> nat, maxTokens: int)
    ensures Pack(us, count, maxTokens) == [] <==> us == []
    ensures us != [] ==> (Pack(us, count, maxTokens)[0] == [] <==> count(us[0]) > maxTokens)
  {
    if us != [] {
      assert TokenSum([], count) == 0;
      if count(us[0]) > maxTokens {
        var none: seq<seq<string>> := [];
        assert none + [[]] == [[]];
        assert Pack(us, count, maxTokens) == PackFrom([[]], [us[0]], us[1..], count, maxTokens);
        PackFromKeeps([[]], [us[0]], us[1..], count, maxTokens);
      } else {
        assert [] + [us[0]] == [us[0]];
        assert Pack(us, count, maxTokens) == PackFrom([], [us[0]], us[1..], count, maxTokens);
        PackFromKeeps([], [us[0]], us[1..], count, maxTokens);
      }
    }
  }

  /** Units that all fit together form a single group. */
  lemma {:induction false} PackFromAllFit(current: seq<string>, us: seq<string>,
                                          count: string -> nat, maxTokens: int)
    requires current != []
    requires TokenSum(current + us, count) <= maxTokens
    ensures PackFrom([], current, us, count, maxTokens) == [current + us]
    decreases |us|
  {
    if us == [] {
      assert current + us == current;
      assert [] + [current] == [current];
    } else {
      assert current + us == (current + [us[0]]) + us[1..];
      TokenSumSnoc(current, us[0], count);
      TokenSumPrefix(current + [us[0]], us[1..], count);
      PackFromAllFit(current + [us[0]], us[1..], count, maxTokens);
    }
  }

  lemma {:induction false} TokenSumPrefix(a: seq<string>, b: seq<string>, count: string -> nat)
    ensures TokenSum(a, count) <= TokenSum(a + b, count)
    decreases |b|
  {
    if b != [] {
      assert a + b == (a + b[..|b| - 1]) + [b[|b| - 1]];
      assert (a + b)[..|a + b| - 1] == a + b[..|b| - 1];
      TokenSumPrefix(a, b[..|b| - 1], count);
    } else {
      assert a + b == a;
    }
  }

  // --- results about semantic_chunking itself

  /** Text with no non-blank paragraph gives no chunks, and only such text. */
  lemma ChunksEmptyIff(text: string, count: string -> nat, maxTokens: int)
    ensures SemanticChunks(text, count, maxTokens) == [] <==> SplitIntoParagraphs(text) == []
  {
    PackFirst(Units(SplitIntoParagraphs(text), count, maxTokens), count, maxTokens);
  }

  /** When the first paragraph is over budget and so is its first sentence,
      the empty accumulator is flushed and the first chunk is `""`. */
  lemma EmptyFirstChunk(text: string, count: string -> nat, maxTokens: int)
    requires SplitIntoParagraphs(text) != []
    requires count(SplitIntoParagraphs(text)[0]) > maxTokens
    requires count(Split(SplitIntoParagraphs(text)[0], SentenceSeparator)[0]) > maxTokens
    ensures SemanticChunks(text, count, maxTokens) != []
    ensures SemanticChunks(text, count, maxTokens)[0] == ""
  {
    var ps := SplitIntoParagraphs(text);
    var us := Units(ps, count, maxTokens);
    assert us[0] == Split(ps[0], SentenceSeparator)[0];
    PackFirst(us, count, maxTokens);
  }

  /** Units that each fit and fit in total form one group. */
  lemma PackAllFit(ps: seq<string>, count: string -> nat, maxTokens: int)
    requires ps != [] && TokenSum(ps, count) <= maxTokens
    ensures Pack(ps, count, maxTokens) == [ps]
  {
    assert ps == [ps[0]] + ps[1..];
    TokenSumPrefix([ps[0]], ps[1..], count);
    assert TokenSum([ps[0]], count) == count(ps[0]) by {
      assert [ps[0]][..0] == [];
    }
    assert TokenSum([], count) == 0;
    assert [] + [ps[0]] == [ps[0]];
    assert Pack(ps, count, maxTokens) == PackFrom([], [ps[0]], ps[1..], count, maxTokens);
    PackFromAllFit([ps[0]], ps[1..], count, maxTokens);
  }

  /** If every paragraph fits and so does their total, the result is exactly
      one chunk: the paragraphs joined by single spaces. */
  lemma SingleChunkWhenAllFit(text: string, count: string -> nat, maxTokens: int)
    requires var ps := SplitIntoParagraphs(text);
      ps != [] && TokenSum(ps, count) <= maxTokens &&
      forall i :: 0 <= i < |ps| ==> count(ps[i]) <= maxTokens
    ensures SemanticChunks(text, count, maxTokens) == [Join(" ", SplitIntoParagraphs(text))]
  {
    var ps := SplitIntoParagraphs(text);
    UnitsWithinBudget(ps, count, maxTokens);
    PackAllFit(ps, count, maxTokens);
    assert ChunkTexts([ps]) == [Join(" ", ps)];
  }

  lemma {:induction false} UnitsWithinBudget(ps: seq<string>, count: string -> nat, maxTokens: int)
    requires forall i :: 0 <= i < |ps| ==> count(ps[i]) <= maxTokens
    ensures Units(ps, count, maxTokens) == ps
  {
    if ps != [] {
      UnitsWithinBudget(ps[1..], count, maxTokens);
    }
  }

  /** One step of the packing loop. */
  lemma PackStep(done: seq<seq<string>>, current: seq<string>, u: string, rest: seq<string>,
                 count: string -> nat, maxTokens: int)
    ensures PackFrom(done, current, [u] + rest, count, maxTokens) ==
      if TokenSum(current, count) + count(u) > maxTokens
      then PackFrom(done + [current], [u], rest, count, maxTokens)
      else PackFrom(done, current + [u], rest, count, maxTokens)
  {
    assert ([u] + rest)[0] == u && ([u] + rest)[1..] == rest;
  }

  lemma ChunkTextsSnoc(groups: seq<seq<string>>, g: seq<string>)
    ensures ChunkTexts(groups + [g]) == ChunkTexts(groups) + [Join(" ", g)]
  {
  }

  /** The step both branches of the loop take for one unit: flush the
      accumulator when the unit would push it over budget, then append the
      unit and add its count. */
  method AddUnit(chunks: seq<string>, currentChunk: seq<string>, currentLength: int, unit: string,
                 maxTokens: int, count: string -> nat, ghost groups: seq<seq<string>>, ghost rest: seq<string>)
    returns (chunks': seq<string>, currentChunk': seq<string>, currentLength': int, ghost groups': seq<seq<string>>)
    requires chunks == ChunkTexts(groups) && currentLength == TokenSum(currentChunk, count)
    ensures chunks' == ChunkTexts(groups') && currentLength' == TokenSum(currentChunk', count)
    ensures PackFrom(groups', currentChunk', rest, count, maxTokens)
         == PackFrom(groups, currentChunk, [unit] + rest, count, maxTokens)
  {
    PackStep(groups, currentChunk, unit, rest, count, maxTokens);
    chunks', currentChunk', currentLength', groups' := chunks, currentChunk, currentLength, groups;
    var unitTokens := count(unit);
    if currentLength' + unitTokens > maxTokens {
      ChunkTextsSnoc(groups', currentChunk');
      chunks' := chunks' + [Join(" ", currentChunk')];
      groups' := groups' + [currentChunk'];
      currentChunk' := [];
      currentLength' := 0;
    }
    TokenSumSnoc(currentChunk', unit, count);
    currentChunk' := currentChunk' + [unit];
    currentLength' := currentLength' + unitTokens;
  }

  lemma UnitsAt(ps: seq<string>, i: nat, count: string -> nat, maxTokens: int)
    requires i < |ps|
    ensures Units(ps[i..], count, maxTokens) == ParagraphUnits(ps[i], count, maxTokens) + Units(ps[i + 1..], count, maxTokens)
  {
    assert ps[i..][0] == ps[i] && ps[i..][1..] == ps[i + 1..];
  }

  /** One iteration of the loop over paragraphs: the paragraph itself, or
      each of its sentences in turn when it alone is over budget. */
  method AddParagraph(chunks: seq<string>, currentChunk: seq<string>, currentLength: int, paragraph: string,
                      maxTokens: int, count: string -> nat, ghost groups: seq<seq<string>>, ghost later: seq<string>)
    returns (chunks': seq<string>, currentChunk': seq<string>, currentLength': int, ghost groups': seq<seq<string>>)
    requires chunks == ChunkTexts(groups) && currentLength == TokenSum(currentChunk, count)
    ensures chunks' == ChunkTexts(groups') && currentLength' == TokenSum(currentChunk', count)
    ensures PackFrom(groups', currentChunk', later, count, maxTokens)
         == PackFrom(groups, currentChunk, ParagraphUnits(paragraph, count, maxTokens) + later, count, maxTokens)
  {
    var paragraphTokens := count(paragraph);
    if paragraphTokens > maxTokens {
      var sentences := Split(paragraph, SentenceSeparator);
      ghost var target := PackFrom(groups, currentChunk, sentences + later, count, maxTokens);
      chunks', currentChunk', currentLength', groups' := chunks, currentChunk, currentLength, groups;
      assert sentences[0..] == sentences;
      for j := 0 to |sentences|
        invariant chunks' == ChunkTexts(groups')
        invariant currentLength' == TokenSum(currentChunk', count)
        invariant PackFrom(groups', currentChunk', sentences[j..] + later, count, maxTokens) == target
      {
        DropCons(sentences, j, later);
        chunks', currentChunk', currentLength', groups' :=
          AddUnit(chunks', currentChunk', currentLength', sentences[j], maxTokens, count, groups', sentences[j + 1..] + later);
      }
      assert sentences[|sentences|..] + later == later;
    } else {
      chunks', currentChunk', currentLength', groups' :=
        AddUnit(chunks, currentChunk, currentLength, paragraph, maxTokens, count, groups, later);
    }
  }

  /** `semantic_chunking(text, max_tokens)`: a loop over paragraphs, and over
      the sentences of an over-budget paragraph, that updates the chunk list,
      the accumulator and its running token count. */
  method SemanticChunking(text: string, maxTokens: int, count: string -> nat) returns (chunks: seq<string>)
    ensures chunks == SemanticChunks(text, count, maxTokens)
  {
    var paragraphs := SplitIntoParagraphs(text);
    chunks := [];
    var currentChunk: seq<string> := [];
    var currentLength: int := 0;
    ghost var groups: seq<seq<string>> := [];
    ghost var target := Pack(Units(paragraphs, count, maxTokens), count, maxTokens);
    assert paragraphs[0..] == paragraphs;

    for i := 0 to |paragraphs|
      invariant chunks == ChunkTexts(groups)
      invariant currentLength == TokenSum(currentChunk, count)
      invariant PackFrom(groups, currentChunk, Units(paragraphs[i..], count, maxTokens), count, maxTokens) == target
    {
      UnitsAt(paragraphs, i, count, maxTokens);
      chunks, currentChunk, currentLength, groups :=
        AddParagraph(chunks, currentChunk, currentLength, paragraphs[i], maxTokens, count, groups,
                     Units(paragraphs[i + 1..], count, maxTokens));
    }

    assert paragraphs[|paragraphs|..] == [];
    if currentChunk != [] {
      ChunkTextsSnoc(groups, currentChunk);
      chunks := chunks + [Join(" ", currentChunk)];
      groups := groups + [currentChunk];
    }
  }

  // ------------------------------------------------------------------
  // Section titles (extract_section_title) and the per-section assembly
  // ------------------------------------------------------------------

  /** `extract_section_title(text)`: `re.match(r"^(.*?) – ", text)`. The lazy
      `.*?` cannot cross a newline, so the title is the stripped text before
      the first `" – "` when that text has no newline, and the fallback
      otherwise. */
  function ExtractSectionTitle(text: string): (r: string)
  {
    match Find(text, TitleSeparator)
    case Some(k) => if '\n' !in text[..k] then Strip(text[..k]) else UntitledSection
    case None => UntitledSection
  }

  /** A text that starts with `"<t> – "` gets the title `t.strip()`, when `t`
      is on one line and has no `" – "` of its own (the first separator
      ends the title). */
  lemma TitleOfPrefixedText(t: string, rest: string)
    requires '\n' !in t
    requires SeparableBy(t, TitleSeparator)
    ensures ExtractSectionTitle(t + TitleSeparator + rest) == Strip(t)
  {
    var s := t + TitleSeparator + rest;
    assert s == (t + TitleSeparator) + rest;
    forall k | 0 <= k < |t| ensures !StartsAt(s, k, TitleSeparator) {
      StartsAtPrefix(t + TitleSeparator, rest, k, TitleSeparator);
    }
    assert s[|t|..|t| + |TitleSeparator|] == TitleSeparator;
    assert StartsAt(s, |t|, TitleSeparator);
    assert Find(s, TitleSeparator) == Some(|t|);
    assert s[..|t|] == t;
  }

  /** Without a `" – "` in the text, or with a newline before the first one,
      the title is the fallback. */
  lemma UntitledWithoutPrefix(text: string)
    requires !Contains(text, TitleSeparator) ||
             '\n' in text[..Find(text, TitleSeparator).value]
    ensures ExtractSectionTitle(text) == UntitledSection
  {
  }

  /** One section of the input document, as `section.get(...)` reads it. */
  datatype RawSection = RawSection(title: Option<string>, content: Option<seq<string>>)

  /** One entry of the output `chunks` list. */
  datatype Chunk = Chunk(title: string, text: string)

  /** `section.get("title", "Untitled Section")` */
  function SectionTitle(section: RawSection): string
  {
    section.title.GetOr(UntitledSection)
  }

  /** `" ".join(section.get("content", []))` */
  function SectionText(section: RawSection): string
  {
    Join(" ", section.content.GetOr([]))
  }

  /** The title a chunk of a section gets: the section's, except under the
      `"list_item"` title, where it is derived from the chunk itself. */
  function ChunkTitle(sectionTitle: string, chunk: string): string
  {
    if sectionTitle != ListItemTitle then sectionTitle else ExtractSectionTitle(chunk)
  }

  /** What a chunk's title is, in terms of the chunk's text: any section
      title but `"list_item"` is kept; under `"list_item"` a chunk that
      opens with a one-line `"<t> – "` is titled `t.strip()`, and a chunk
      with no such opening is `"Untitled Section"`. */
  lemma ChunkTitleSpec(sectionTitle: string, chunk: string, t: string, rest: string)
    ensures sectionTitle != ListItemTitle ==> ChunkTitle(sectionTitle, chunk) == sectionTitle
    ensures sectionTitle == ListItemTitle && chunk == t + TitleSeparator + rest
            && '\n' !in t && SeparableBy(t, TitleSeparator)
            ==> ChunkTitle(sectionTitle, chunk) == Strip(t)
    ensures sectionTitle == ListItemTitle
            && (!Contains(chunk, TitleSeparator) || '\n' in chunk[..Find(chunk, TitleSeparator).value])
            ==> ChunkTitle(sectionTitle, chunk) == UntitledSection
  {
    if sectionTitle == ListItemTitle {
      if chunk == t + TitleSeparator + rest && '\n' !in t && SeparableBy(t, TitleSeparator) {
        TitleOfPrefixedText(t, rest);
      }
      if !Contains(chunk, TitleSeparator) || '\n' in chunk[..Find(chunk, TitleSeparator).value] {
        UntitledWithoutPrefix(chunk);
      }
    }
  }

  function TitledChunks(title: string, texts: seq<string>): (r: seq<Chunk>)
    ensures |r| == |texts|
  {
    seq(|texts|, i requires 0 <= i < |texts| => Chunk(ChunkTitle(title, texts[i]), texts[i]))
  }

  /** `semantic_chunking` with its budget and tokenizer fixed, as the
      chunker of each section. */
  function Chunker(count: string -> nat, maxTokens: int): string -> seq<string>
  {
    t => SemanticChunks(t, count, maxTokens)
  }

  /** The output entries of one section, for a given section chunker. */
  function SectionChunks(section: RawSection, chunker: string -> seq<string>): seq<Chunk>
  {
    TitledChunks(SectionTitle(section), chunker(SectionText(section)))
  }

  function PerSection(sections: seq<RawSection>, chunker: string -> seq<string>): (r: seq<seq<Chunk>>)
    ensures |r| == |sections|
  {
    seq(|sections|, k requires 0 <= k < |sections| => SectionChunks(sections[k], chunker))
  }

  /** The document's chunk list: the per-section lists, in section order. */
  function DocumentChunks(sections: seq<RawSection>, chunker: string -> seq<string>): seq<Chunk>
  {
    Flatten(PerSection(sections, chunker))
  }

  /** Entry `j` of a section's list is chunk `j` of its text, under the
      section's title or, for `"list_item"`, the title derived from it. */
  lemma SectionChunkAt(section: RawSection, chunker: string -> seq<string>, j: nat)
    requires j < |chunker(SectionText(section))|
    ensures |SectionChunks(section, chunker)| == |chunker(SectionText(section))|
    ensures var c := chunker(SectionText(section))[j];
      SectionChunks(section, chunker)[j] == Chunk(ChunkTitle(SectionTitle(section), c), c)
  {
  }

  /** The document's list is the sections' lists one after another: entry
      `j` of section `k` sits at `Offset + j`. */
  lemma DocumentChunkAt(sections: seq<RawSection>, chunker: string -> seq<string>, k: nat, j: nat)
    requires k < |sections| && j < |SectionChunks(sections[k], chunker)|
    ensures Offset(PerSection(sections, chunker), k) + j < |DocumentChunks(sections, chunker)|
    ensures DocumentChunks(sections, chunker)[Offset(PerSection(sections, chunker), k) + j]
         == SectionChunks(sections[k], chunker)[j]
  {
    var per := PerSection(sections, chunker);
    assert per[k] == SectionChunks(sections[k], chunker);
    FlattenIndex(per, k, j);
  }

  /** Adding a section appends its entries. */
  lemma DocumentChunksSnoc(sections: seq<RawSection>, k: nat, chunker: string -> seq<string>)
    requires k < |sections|
    ensures DocumentChunks(sections[..k + 1], chunker)
         == DocumentChunks(sections[..k], chunker) + SectionChunks(sections[k], chunker)
  {
    assert PerSection(sections[..k + 1], chunker)
        == PerSection(sections[..k], chunker) + [SectionChunks(sections[k], chunker)];
    FlattenSnoc(PerSection(sections[..k], chunker), SectionChunks(sections[k], chunker));
  }

  /** The inner loop of process_extracted: one entry per chunk, titled. */
  method AppendTitled(chunks: seq<Chunk>, sectionTitle: string, sectionChunks: seq<string>)
    returns (chunks': seq<Chunk>)
    ensures chunks' == chunks + TitledChunks(sectionTitle, sectionChunks)
  {
    chunks' := chunks;
    for j := 0 to |sectionChunks|
      invariant chunks' == chunks + TitledChunks(sectionTitle, sectionChunks[..j])
    {
      var chunk := sectionChunks[j];
      assert TitledChunks(sectionTitle, sectionChunks[..j + 1])
        == TitledChunks(sectionTitle, sectionChunks[..j]) + [Chunk(ChunkTitle(sectionTitle, chunk), chunk)];
      chunks' := chunks' + [Chunk(ChunkTitle(sectionTitle, chunk), chunk)];
    }
    assert sectionChunks[..|sectionChunks|] == sectionChunks;
  }

  /** The process_extracted loop for one document: each section's text is
      chunked by `semantic_chunking` and its entries appended. */
  method ChunkSections(sections: seq<RawSection>, maxTokens: int, count: string -> nat) returns (chunks: seq<Chunk>)
    ensures chunks == DocumentChunks(sections, Chunker(count, maxTokens))
  {
    ghost var chunker := Chunker(count, maxTokens);
    chunks := [];
    for k := 0 to |sections|
      invariant chunks == DocumentChunks(sections[..k], chunker)
    {
      var section := sections[k];
      var sectionTitle := SectionTitle(section);
      var content := SectionText(section);
      var sectionChunks := SemanticChunking(content, maxTokens, count);
      assert sectionChunks == chunker(content);
      DocumentChunksSnoc(sections, k, chunker);
      chunks := AppendTitled(chunks, sectionTitle, sectionChunks);
    }
    assert sections[..|sections|] == sections;
  }

  /** A structured document as the chunker reads it; tables and lists are
      carried through untouched. */
  datatype ExtractedDocument<Tab, Lst> = ExtractedDocument(
    documentName: Option<string>, sections: Option<seq<RawSection>>,
    tables: Option<seq<Tab>>, lists: Option<seq<Lst>>)

  datatype ChunkedDocument<Tab, Lst> = ChunkedDocument(
    documentName: string, chunks: seq<Chunk>, tables: seq<Tab>, lists: seq<Lst>)

  /** What process_extracted writes for one document. */
  method ChunkDocument<Tab, Lst>(data: ExtractedDocument<Tab, Lst>, maxTokens: int, count: string -> nat)
    returns (out: ChunkedDocument<Tab, Lst>)
    ensures out.documentName == data.documentName.GetOr("")
    ensures out.chunks == DocumentChunks(data.sections.GetOr([]), Chunker(count, maxTokens))
    ensures out.tables == data.tables.GetOr([]) && out.lists == data.lists.GetOr([])
  {
    var chunks := ChunkSections(data.sections.GetOr([]), maxTokens, count);
    out := ChunkedDocument(data.documentName.GetOr(""), chunks, data.tables.GetOr([]), data.lists.GetOr([]));
  }
}
