/** Model of the structure extraction from an already converted Docling
    document: labelled text entries grouped into typed sections, table cells
    laid out in rows under their headers, and list items. A JSON value the
    code tests with `isinstance(..., dict)` is a constructor of its own
    (`NonDict...`); a key the code looks up with `in` is an `Option`. */
module ProcessDocx {
  import opened Wrappers
  import opened Strings
  import opened Seqs

  // ------------------------------------------------------------------
  // Input document
  // ------------------------------------------------------------------

  datatype TextEntry = NonDictText | TextEntry(text: Option<string>, labelName: Option<string>)

  datatype CellEntry = NonDictCell | CellEntry(text: Option<string>, columnHeader: Option<bool>)

  /** `tableCells` is `None` when the entry has no `"data"` or no
      `"table_cells"` in it. */
  datatype TableEntry = NonDictTable | TableEntry(tableCells: Option<seq<CellEntry>>)

  datatype ItemEntry = ItemEntry(text: Option<string>)

  datatype ListEntry = NonDictList | ListEntry(items: Option<seq<ItemEntry>>, listType: Option<string>)

  /** The three top-level arrays of the document; `None` when the key is
      missing or does not hold a list. */
  datatype DoclingDoc = DoclingDoc(
    texts: Option<seq<TextEntry>>, tables: Option<seq<TableEntry>>, lists: Option<seq<ListEntry>>)

  // ------------------------------------------------------------------
  // Sections (extract_text_from_docling)
  // ------------------------------------------------------------------

  datatype SectionType = PolicySection | ProcedureStep | GeneralSection

  const PolicyTitles: seq<string> := ["scope", "purpose", "applies to", "background", "statement of policy"]
  const ProcedureWord: string := "procedure"

  /** The section type of a stripped label, decided on its lowercase form. */
  function Classify(title: string): SectionType
  {
    var t := LowerAscii(title);
    if t in PolicyTitles then PolicySection
    else if Contains(t, ProcedureWord) then ProcedureStep
    else GeneralSection
  }

  /** Classification ignores letter case. */
  lemma ClassifyIgnoresCase(title: string)
    ensures Classify(LowerAscii(title)) == Classify(title)
  {
    LowerAsciiIdempotent(title);
  }

  /** None of the policy titles mentions "procedure", so a label is a
      procedure step exactly when its lowercase form contains the word. */
  lemma ProcedureIff(title: string)
    ensures Classify(title) == ProcedureStep <==> Contains(LowerAscii(title), ProcedureWord)
    ensures Classify(title) == PolicySection <==> LowerAscii(title) in PolicyTitles
  {
    if LowerAscii(title) in PolicyTitles {
      ProcedureAbsent(LowerAscii(title));
    }
  }

  lemma ProcedureAbsent(t: string)
    requires t in PolicyTitles
    ensures !Contains(t, ProcedureWord)
  {
    if t == "background" {
      assert t[1] != 'r' && t[2] != 'r';
    }
    NoSecondLetter(t);
  }

  /** Without an `r` where the second letter of "procedure" would fall, the
      word does not occur. */
  lemma NoSecondLetter(t: string)
    requires forall i :: 1 <= i <= |t| - 8 ==> t[i] != 'r'
    ensures !Contains(t, ProcedureWord)
  {
    ContainsIff(t, ProcedureWord);
    forall k | StartsAt(t, k, ProcedureWord) ensures false {
      StartsAtChar(t, k, ProcedureWord, 1);
    }
  }

  /** A text entry that survives the filter, with its label stripped and
      classified. */
  datatype Item = Item(kind: SectionType, title: string, text: string)

  /** The item an entry contributes: only a dict with a non-blank `"text"`. */
  function KeptItem(e: TextEntry): (r: seq<Item>)
    ensures |r| <= 1
  {
    if e.TextEntry? && e.text.Some? && Strip(e.text.value) != "" then
      var title := Strip(e.labelName.GetOr(""));
      [Item(Classify(title), title, Strip(e.text.value))]
    else []
  }

  function KeptItems(es: seq<TextEntry>): seq<Item>
  {
    if es == [] then [] else KeptItem(es[0]) + KeptItems(es[1..])
  }

  datatype Section = Section(sectionType: SectionType, title: string, content: seq<string>)

  /** An open section `current` in front of a list of sections: it absorbs
      the first one's content when the types agree. */
  function Merge(current: Option<Section>, r: seq<Section>): seq<Section>
  {
    match current
    case None => r
    case Some(c) =>
      if r != [] && r[0].sectionType == c.sectionType then [c.(content := c.content + r[0].content)] + r[1..]
      else [c] + r
  }

  function Single(u: Item): Section
  {
    Section(u.kind, u.title, [u.text])
  }

  /** Run-length grouping of the items by type: each maximal run of one type
      is one section, titled by the run's first item. */
  function Runs(items: seq<Item>): seq<Section>
  {
    if items == [] then [] else Merge(Some(Single(items[0])), Runs(items[1..]))
  }

  /** The sections of a document's text entries. */
  function Sections(es: seq<TextEntry>): seq<Section>
  {
    Runs(KeptItems(es))
  }

  function Contents(r: seq<Section>): (cs: seq<seq<string>>)
    ensures |cs| == |r|
  {
    seq(|r|, k requires 0 <= k < |r| => r[k].content)
  }

  function Texts(items: seq<Item>): (ts: seq<string>)
    ensures |ts| == |items|
  {
    seq(|items|, i requires 0 <= i < |items| => items[i].text)
  }

  /** The raw text one entry contributes, if any. */
  function RawText(e: TextEntry): seq<string>
  {
    if e.TextEntry? && e.text.Some? then [e.text.value] else []
  }

  /** The raw `"text"` of every dict entry that has one, blank or not. */
  function RawTexts(es: seq<TextEntry>): seq<string>
  {
    if es == [] then []
    else RawText(es[0]) + RawTexts(es[1..])
  }

  lemma TextsAppend(a: seq<Item>, b: seq<Item>)
    ensures Texts(a + b) == Texts(a) + Texts(b)
  {
  }

  lemma KeptItemText(e: TextEntry)
    ensures Texts(KeptItem(e)) == StripNonBlank(RawText(e))
  {
    if e.TextEntry? && e.text.Some? {
      StripNonBlankSingle(e.text.value);
    } else {
      assert RawText(e) == [];
    }
  }

  /** The items kept are exactly the entries' texts that are non-blank,
      stripped, in document order. */
  lemma {:induction false} KeptItemsTexts(es: seq<TextEntry>)
    ensures Texts(KeptItems(es)) == StripNonBlank(RawTexts(es))
  {
    if es != [] {
      var e := es[0];
      KeptItemsTexts(es[1..]);
      calc {
        Texts(KeptItems(es));
        Texts(KeptItem(e) + KeptItems(es[1..]));
        { TextsAppend(KeptItem(e), KeptItems(es[1..])); }
        Texts(KeptItem(e)) + Texts(KeptItems(es[1..]));
        { KeptItemText(e); }
        StripNonBlank(RawText(e)) + StripNonBlank(RawTexts(es[1..]));
        { StripNonBlankAppend(RawText(e), RawTexts(es[1..])); }
        StripNonBlank(RawText(e) + RawTexts(es[1..]));
        StripNonBlank(RawTexts(es));
      }
    }
  }

  function Titles(items: seq<Item>): (ts: seq<string>)
    ensures |ts| == |items|
  {
    seq(|items|, i requires 0 <= i < |items| => items[i].title)
  }

  /** The stripped `"label"` (default `""`) of one entry, when its text is
      non-blank. */
  function RawLabel(e: TextEntry): seq<string>
  {
    if e.TextEntry? && e.text.Some? && Strip(e.text.value) != "" then [Strip(e.labelName.GetOr(""))] else []
  }

  /** The stripped labels of the entries with non-blank text, in order. */
  function RawLabels(es: seq<TextEntry>): seq<string>
  {
    if es == [] then []
    else RawLabel(es[0]) + RawLabels(es[1..])
  }

  lemma TitlesAppend(a: seq<Item>, b: seq<Item>)
    ensures Titles(a + b) == Titles(a) + Titles(b)
  {
  }

  /** The kept items' titles are exactly the stripped labels of the entries
      with non-blank text, in document order, so each item's title is its
      own entry's label. */
  lemma {:induction false} KeptItemsTitles(es: seq<TextEntry>)
    ensures Titles(KeptItems(es)) == RawLabels(es)
  {
    if es != [] {
      var e := es[0];
      KeptItemsTitles(es[1..]);
      calc {
        Titles(KeptItems(es));
        Titles(KeptItem(e) + KeptItems(es[1..]));
        { TitlesAppend(KeptItem(e), KeptItems(es[1..])); }
        Titles(KeptItem(e)) + Titles(KeptItems(es[1..]));
        { assert Titles(KeptItem(e)) == RawLabel(e); }
        RawLabel(e) + RawLabels(es[1..]);
      }
    }
  }

  /** Every kept item's title is stripped, and its type is the one that
      title classifies to. */
  lemma {:induction false} KeptItemsLabelled(es: seq<TextEntry>)
    ensures forall k :: 0 <= k < |KeptItems(es)| ==>
      Strip(KeptItems(es)[k].title) == KeptItems(es)[k].title
      && KeptItems(es)[k].kind == Classify(KeptItems(es)[k].title)
  {
    if es != [] {
      var e := es[0];
      KeptItemsLabelled(es[1..]);
      if e.TextEntry? && e.text.Some? && Strip(e.text.value) != "" {
        StripIdempotent(e.labelName.GetOr(""));
      }
    }
  }

  /** Every section has content, neighbouring sections differ in type, and
      the first section starts with the first item. */
  lemma {:induction false} RunsShape(items: seq<Item>)
    ensures |Runs(items)| <= |items|
    ensures Runs(items) == [] <==> items == []
    ensures items != [] ==> Runs(items)[0].sectionType == items[0].kind && Runs(items)[0].title == items[0].title
    ensures forall k :: 0 <= k < |Runs(items)| ==> Runs(items)[k].content != []
    ensures forall k :: 0 <= k < |Runs(items)| - 1 ==> Runs(items)[k].sectionType != Runs(items)[k + 1].sectionType
  {
    if items != [] {
      RunsShape(items[1..]);
    }
  }

  lemma ContentsCons(c: Section, r: seq<Section>)
    ensures Contents([c] + r) == [c.content] + Contents(r)
  {
    assert Contents([c] + r) == [c.content] + Contents(r);
  }

  lemma FlattenContentsCons(c: Section, r: seq<Section>)
    ensures Flatten(Contents([c] + r)) == c.content + Flatten(Contents(r))
  {
    ContentsCons(c, r);
    assert ([c.content] + Contents(r))[1..] == Contents(r);
  }

  /** An open section in front keeps its content in front. */
  lemma MergeContents(c: Section, r: seq<Section>)
    ensures Flatten(Contents(Merge(Some(c), r))) == c.content + Flatten(Contents(r))
  {
    if r != [] && r[0].sectionType == c.sectionType {
      var c' := c.(content := c.content + r[0].content);
      FlattenContentsCons(c', r[1..]);
      FlattenContentsCons(r[0], r[1..]);
      assert r == [r[0]] + r[1..];
    } else {
      FlattenContentsCons(c, r);
    }
  }

  /** The sections' contents, one after another, are the items' texts. */
  lemma {:induction false} RunsContents(items: seq<Item>)
    ensures Flatten(Contents(Runs(items))) == Texts(items)
  {
    if items != [] {
      var u := items[0];
      RunsContents(items[1..]);
      MergeContents(Single(u), Runs(items[1..]));
      assert Texts(items) == [u.text] + Texts(items[1..]);
    }
  }

  /** Content `j` of section `k` is the item at the section's offset plus
      `j`, of the section's type; the section's title is the title of the
      first item of its run, later titles of the run being dropped. */
  lemma {:induction false} RunsAt(items: seq<Item>, k: nat, j: nat)
    requires k < |Runs(items)| && j < |Runs(items)[k].content|
    ensures Offset(Contents(Runs(items)), k) + j < |items|
    ensures var u := items[Offset(Contents(Runs(items)), k) + j];
      u.kind == Runs(items)[k].sectionType && u.text == Runs(items)[k].content[j]
    ensures j == 0 ==> items[Offset(Contents(Runs(items)), k)].title == Runs(items)[k].title
    decreases |items|, 1
  {
    var u := items[0];
    var rest := items[1..];
    var r := Runs(rest);
    var cr := Contents(r);
    var rs := Runs(items);
    var cs := Contents(rs);
    RunsShape(rest);
    if k == 0 && j == 0 {
      assert Offset(cs, 0) == 0;
    } else if r != [] && r[0].sectionType == u.kind {
      assert rs == [Section(u.kind, u.title, [u.text] + r[0].content)] + r[1..];
      if k == 0 {
        RunsAtMergedHead(items, j);
      } else {
        RunsAtMergedTail(items, k, j);
      }
    } else {
      assert rs == [Single(u)] + r;
      RunsAtSingleTail(items, k, j);
    }
  }

  lemma {:induction false} RunsAtMergedHead(items: seq<Item>, j: nat)
    requires items != [] && Runs(items[1..]) != [] && Runs(items[1..])[0].sectionType == items[0].kind
    requires 0 < j < |Runs(items)[0].content|
    ensures Offset(Contents(Runs(items)), 0) + j < |items|
    ensures var u := items[Offset(Contents(Runs(items)), 0) + j];
      u.kind == Runs(items)[0].sectionType && u.text == Runs(items)[0].content[j]
    decreases |items|, 0
  {
    var u := items[0];
    var r := Runs(items[1..]);
    var rs := Runs(items);
    assert rs[0] == Section(u.kind, u.title, [u.text] + r[0].content);
    assert Offset(Contents(rs), 0) == 0;
    assert Offset(Contents(r), 0) == 0;
    RunsAt(items[1..], 0, j - 1);
    assert items[j] == items[1..][j - 1];
  }

  lemma {:induction false} RunsAtMergedTail(items: seq<Item>, k: nat, j: nat)
    requires items != [] && Runs(items[1..]) != [] && Runs(items[1..])[0].sectionType == items[0].kind
    requires 0 < k < |Runs(items)| && j < |Runs(items)[k].content|
    ensures Offset(Contents(Runs(items)), k) + j < |items|
    ensures var u := items[Offset(Contents(Runs(items)), k) + j];
      u.kind == Runs(items)[k].sectionType && u.text == Runs(items)[k].content[j]
    ensures j == 0 ==> items[Offset(Contents(Runs(items)), k)].title == Runs(items)[k].title
    decreases |items|, 0
  {
    var u := items[0];
    var rest := items[1..];
    var r := Runs(rest);
    var h := Section(u.kind, u.title, [u.text] + r[0].content);
    var tail := r[1..];
    var rs := Runs(items);
    assert rs == [h] + tail;
    assert r == [r[0]] + tail;
    ContentsCons(h, tail);
    ContentsCons(r[0], tail);
    OffsetCons(h.content, Contents(tail), k - 1);
    OffsetCons(r[0].content, Contents(tail), k - 1);
    assert Offset(Contents(rs), k) == 1 + Offset(Contents(r), k);
    assert rs[k] == tail[k - 1] == r[k];
    RunsAt(rest, k, j);
    assert items[Offset(Contents(rs), k) + j] == rest[Offset(Contents(r), k) + j];
  }

  lemma {:induction false} RunsAtSingleTail(items: seq<Item>, k: nat, j: nat)
    requires items != [] && !(Runs(items[1..]) != [] && Runs(items[1..])[0].sectionType == items[0].kind)
    requires k < |Runs(items)| && j < |Runs(items)[k].content| && (k, j) != (0, 0)
    ensures Offset(Contents(Runs(items)), k) + j < |items|
    ensures var u := items[Offset(Contents(Runs(items)), k) + j];
      u.kind == Runs(items)[k].sectionType && u.text == Runs(items)[k].content[j]
    ensures j == 0 ==> items[Offset(Contents(Runs(items)), k)].title == Runs(items)[k].title
    decreases |items|, 0
  {
    var u := items[0];
    var rest := items[1..];
    var r := Runs(rest);
    var rs := Runs(items);
    assert rs == [Single(u)] + r;
    assert k > 0;
    ContentsCons(Single(u), r);
    OffsetCons([u.text], Contents(r), k - 1);
    assert rs[k] == r[k - 1];
    RunsAt(rest, k - 1, j);
    assert items[Offset(Contents(rs), k) + j] == rest[Offset(Contents(r), k - 1) + j];
  }

  /** The sections that are complete, followed by the open one. */
  function Closed(current: Option<Section>): seq<Section>
  {
    if current.Some? then [current.value] else []
  }

  /** An open section in front stays the first section, with its type. */
  lemma MergeHead(c: Section, r: seq<Section>)
    ensures Merge(Some(c), r) != [] && Merge(Some(c), r)[0].sectionType == c.sectionType
  {
  }

  /** Loop step when the type changes (or nothing is open yet): the open
      section is closed and the item opens a new one. */
  lemma StartRun(sections: seq<Section>, current: Option<Section>, u: Item, rest: seq<Item>)
    requires current.None? || current.value.sectionType != u.kind
    ensures sections + Merge(current, Runs([u] + rest))
         == (sections + Closed(current)) + Merge(Some(Single(u)), Runs(rest))
  {
    assert ([u] + rest)[1..] == rest;
    var x := Runs([u] + rest);
    assert x == Merge(Some(Single(u)), Runs(rest));
    MergeHead(Single(u), Runs(rest));
    if current.Some? {
      assert Merge(current, x) == [current.value] + x;
    }
  }

  /** Loop step when the type is unchanged: the item's text joins the open
      section. */
  lemma ExtendRun(c: Section, u: Item, rest: seq<Item>)
    requires c.sectionType == u.kind
    ensures Merge(Some(c), Runs([u] + rest)) == Merge(Some(c.(content := c.content + [u.text])), Runs(rest))
  {
    assert ([u] + rest)[1..] == rest;
    var r := Runs(rest);
    if r != [] && r[0].sectionType == u.kind {
      assert c.content + ([u.text] + r[0].content) == c.content + [u.text] + r[0].content;
    }
  }

  /** The loop body for one kept entry: a new section is opened (closing
      the open one) when there is none or the type changes; the text is then
      appended to the open section. */
  method AddItem(sections: seq<Section>, current: Option<Section>, u: Item, ghost later: seq<Item>)
    returns (sections': seq<Section>, current': Option<Section>)
    ensures current'.Some?
    ensures sections' + Merge(current', Runs(later)) == sections + Merge(current, Runs([u] + later))
  {
    sections', current' := sections, current;
    if current'.None? || u.kind != current'.value.sectionType {
      StartRun(sections', current', u, later);
      sections' := sections' + Closed(current');
      current' := Some(Section(u.kind, u.title, []));
      assert [] + [u.text] == [u.text];
    } else {
      ExtendRun(current'.value, u, later);
    }
    current' := Some(current'.value.(content := current'.value.content + [u.text]));
  }

  /** `extract_text_from_docling(doc)`: one pass over the text entries that
      keeps an open section and closes it when the type changes. */
  method ExtractText(doc: DoclingDoc) returns (sections: seq<Section>)
    ensures sections == Sections(doc.texts.GetOr([]))
  {
    sections := [];
    var current: Option<Section> := None;
    if doc.texts.Some? {
      var entries := doc.texts.value;
      assert entries[0..] == entries;
      for i := 0 to |entries|
        invariant sections + Merge(current, Runs(KeptItems(entries[i..]))) == Sections(entries)
      {
        var entry := entries[i];
        ghost var later := KeptItems(entries[i + 1..]);
        assert entries[i..][1..] == entries[i + 1..];
        if entry.TextEntry? && entry.text.Some? && Strip(entry.text.value) != "" {
          var title := Strip(entry.labelName.GetOr(""));
          var content := Strip(entry.text.value);
          var sectionType := Classify(title);
          var u := Item(sectionType, title, content);
          assert KeptItems(entries[i..]) == [u] + later;
          sections, current := AddItem(sections, current, u, later);
        } else {
          assert KeptItems(entries[i..]) == later;
        }
      }
      assert entries[|entries|..] == [];
      if current.Some? {
        sections := sections + [current.value];
      }
    }
  }

  /** What the section list promises: no section is empty, neighbours differ
      in type, and the contents, in order, are the stripped non-blank texts
      of the entries. */
  lemma SectionsSpec(es: seq<TextEntry>)
    ensures forall k :: 0 <= k < |Sections(es)| ==> Sections(es)[k].content != []
    ensures forall k :: 0 <= k < |Sections(es)| - 1 ==> Sections(es)[k].sectionType != Sections(es)[k + 1].sectionType
    ensures Flatten(Contents(Sections(es))) == Texts(KeptItems(es))
  {
    RunsShape(KeptItems(es));
    RunsContents(KeptItems(es));
  }

  // ------------------------------------------------------------------
  // Tables (extract_tables_from_docling)
  // ------------------------------------------------------------------

  datatype StructuredTable = StructuredTable(headers: seq<string>, rows: seq<seq<string>>)

  predicate CellHasText(c: CellEntry)
  {
    c.CellEntry? && c.text.Some? && Strip(c.text.value) != ""
  }

  /** The stripped texts of the non-blank header cells (`header`) or of the
      other non-blank cells, in cell order. */
  function CellTexts(cells: seq<CellEntry>, header: bool): seq<string>
  {
    if cells == [] then []
    else
      var c := cells[|cells| - 1];
      CellTexts(cells[..|cells| - 1], header)
        + (if CellHasText(c) && c.columnHeader.GetOr(false) == header then [Strip(c.text.value)] else [])
  }

  /** `[xs[i:i + w] for i in range(0, len(xs), w)]`: consecutive windows of
      width `w`, the last one possibly shorter. */
  function Windows(xs: seq<string>, w: nat): seq<seq<string>>
    requires w > 0
    decreases |xs|
  {
    if xs == [] then [] else if |xs| <= w then [xs] else [xs[..w]] + Windows(xs[w..], w)
  }

  /** The windows put back together give the list; every window but the
      last has width `w`, and the last has between 1 and `w` entries. */
  lemma {:induction false} WindowsShape(xs: seq<string>, w: nat)
    requires w > 0
    ensures Flatten(Windows(xs, w)) == xs
    ensures forall k :: 0 <= k < |Windows(xs, w)| - 1 ==> |Windows(xs, w)[k]| == w
    ensures Windows(xs, w) != [] ==> 0 < |Windows(xs, w)[|Windows(xs, w)| - 1]| <= w
    decreases |xs|
  {
    if xs == [] {
    } else if |xs| <= w {
      assert Flatten([xs]) == xs + Flatten([xs][1..]);
    } else {
      var r := Windows(xs[w..], w);
      WindowsShape(xs[w..], w);
      assert Windows(xs, w)[1..] == r;
      assert xs == xs[..w] + xs[w..];
    }
  }

  /** There are `ceil(|xs| / w)` windows. */
  lemma {:induction false} WindowsCount(xs: seq<string>, w: nat)
    requires w > 0
    ensures (|Windows(xs, w)| - 1) * w < |xs| <= |Windows(xs, w)| * w || xs == []
    ensures xs == [] <==> Windows(xs, w) == []
    decreases |xs|
  {
    if |xs| > w {
      WindowsCount(xs[w..], w);
      var n := |Windows(xs[w..], w)|;
      assert |Windows(xs, w)| == n + 1;
      assert (n + 1) * w == n * w + w;
    }
  }

  lemma SliceShift<T>(xs: seq<T>, w: nat, lo: nat, hi: nat)
    requires w <= |xs| && lo <= hi <= |xs| - w
    ensures xs[w..][lo..hi] == xs[lo + w..hi + w]
  {
  }

  /** Window `k` is the slice `xs[k * w : k * w + w]`, as Python clips it. */
  lemma {:induction false} WindowsAt(xs: seq<string>, w: nat, k: nat)
    requires w > 0 && k < |Windows(xs, w)|
    ensures k * w < |xs|
    ensures Windows(xs, w)[k] == xs[k * w .. if k * w + w <= |xs| then k * w + w else |xs|]
    decreases |xs|
  {
    if k > 0 {
      var rest := xs[w..];
      assert Windows(xs, w) == [xs[..w]] + Windows(rest, w);
      WindowsAt(rest, w, k - 1);
      var lo := (k - 1) * w;
      assert lo + w == k * w;
      var hi := if lo + w <= |rest| then lo + w else |rest|;
      SliceShift(xs, w, lo, hi);
    }
  }

  /** The table an entry contributes: only when it has at least one header
      cell and at least one other cell. */
  function TableOf(e: TableEntry): seq<StructuredTable>
  {
    if e.TableEntry? && e.tableCells.Some? then
      var headers := CellTexts(e.tableCells.value, true);
      var rows := CellTexts(e.tableCells.value, false);
      if headers != [] && rows != [] then [StructuredTable(headers, Windows(rows, |headers|))] else []
    else []
  }

  function Tables(es: seq<TableEntry>): seq<StructuredTable>
  {
    if es == [] then [] else Tables(es[..|es| - 1]) + TableOf(es[|es| - 1])
  }

  /** `extract_tables_from_docling(doc)`. */
  method ExtractTables(doc: DoclingDoc) returns (tables: seq<StructuredTable>)
    ensures tables == Tables(doc.tables.GetOr([]))
  {
    tables := [];
    if doc.tables.Some? {
      var entries := doc.tables.value;
      for i := 0 to |entries|
        invariant tables == Tables(entries[..i])
      {
        var entry := entries[i];
        assert entries[..i + 1][..i] == entries[..i];
        if entry.TableEntry? && entry.tableCells.Some? {
          var cells := entry.tableCells.value;
          var headers, rows := CollectCells(cells);
          if headers != [] && rows != [] {
            tables := tables + [StructuredTable(headers, Windows(rows, |headers|))];
          }
        }
      }
      assert entries[..|entries|] == entries;
    }
  }

  /** The cell loop: each non-blank cell's stripped text goes to the headers
      when its `"column_header"` is set, to the row cells otherwise. */
  method CollectCells(cells: seq<CellEntry>) returns (headers: seq<string>, rows: seq<string>)
    ensures headers == CellTexts(cells, true) && rows == CellTexts(cells, false)
  {
    headers, rows := [], [];
    for j := 0 to |cells|
      invariant headers == CellTexts(cells[..j], true) && rows == CellTexts(cells[..j], false)
    {
      var cell := cells[j];
      assert cells[..j + 1][..j] == cells[..j];
      if cell.CellEntry? && cell.text.Some? && Strip(cell.text.value) != "" {
        if cell.columnHeader.GetOr(false) {
          headers := headers + [Strip(cell.text.value)];
        } else {
          rows := rows + [Strip(cell.text.value)];
        }
      }
    }
    assert cells[..|cells|] == cells;
  }

  /** Every emitted table has headers, and its rows are the row cells in
      windows of the header count, the last one possibly short. */
  lemma TableSpec(e: TableEntry)
    requires TableOf(e) != []
    ensures var t := TableOf(e)[0];
      e.TableEntry? && e.tableCells.Some? &&
      t.headers == CellTexts(e.tableCells.value, true) && t.headers != [] &&
      Flatten(t.rows) == CellTexts(e.tableCells.value, false) && t.rows != [] &&
      (forall k :: 0 <= k < |t.rows| ==> 0 < |t.rows[k]| <= |t.headers|) &&
      (forall k :: 0 <= k < |t.rows| - 1 ==> |t.rows[k]| == |t.headers|)
  {
    var rows := CellTexts(e.tableCells.value, false);
    var w := |CellTexts(e.tableCells.value, true)|;
    WindowsShape(rows, w);
  }

  /** Tables come out in entry order, at most one per entry. */
  lemma {:induction false} TablesAppend(a: seq<TableEntry>, b: seq<TableEntry>)
    ensures Tables(a + b) == Tables(a) + Tables(b)
    decreases |b|
  {
    if b == [] {
      assert a + b == a;
    } else {
      assert (a + b)[..|a + b| - 1] == a + b[..|b| - 1];
      TablesAppend(a, b[..|b| - 1]);
    }
  }

  // ------------------------------------------------------------------
  // Lists (extract_lists_from_docling)
  // ------------------------------------------------------------------

  datatype ListKind = Ordered | Unordered

  datatype StructuredList = StructuredList(listType: ListKind, items: seq<string>)

  /** `"ordered"` when the field is exactly that, `"unordered"` otherwise. */
  function KindOf(listType: Option<string>): ListKind
  {
    if listType == Some("ordered") then Ordered else Unordered
  }

  /** The `"text"` of each item that has one. */
  function ItemTexts(items: seq<ItemEntry>): seq<string>
  {
    if items == [] then [] else (if items[0].text.Some? then [items[0].text.value] else []) + ItemTexts(items[1..])
  }

  /** `[item["text"].strip() for item in items if "text" in item and item["text"].strip()]` */
  function ListItems(items: seq<ItemEntry>): seq<string>
  {
    StripNonBlank(ItemTexts(items))
  }

  /** The list an entry contributes: only when it keeps some item. */
  function ListOf(e: ListEntry): seq<StructuredList>
  {
    if e.ListEntry? && e.items.Some? then
      var items := ListItems(e.items.value);
      if items != [] then [StructuredList(KindOf(e.listType), items)] else []
    else []
  }

  function Lists(es: seq<ListEntry>): seq<StructuredList>
  {
    if es == [] then [] else Lists(es[..|es| - 1]) + ListOf(es[|es| - 1])
  }

  /** `extract_lists_from_docling(doc)`. */
  method ExtractLists(doc: DoclingDoc) returns (lists: seq<StructuredList>)
    ensures lists == Lists(doc.lists.GetOr([]))
  {
    lists := [];
    if doc.lists.Some? {
      var entries := doc.lists.value;
      for i := 0 to |entries|
        invariant lists == Lists(entries[..i])
      {
        var entry := entries[i];
        assert entries[..i + 1][..i] == entries[..i];
        if entry.ListEntry? && entry.items.Some? {
          var listType := KindOf(entry.listType);
          var listItems := ListItems(entry.items.value);
          if listItems != [] {
            lists := lists + [StructuredList(listType, listItems)];
          }
        }
      }
      assert entries[..|entries|] == entries;
    }
  }

  /** Every emitted list has items, each stripped and non-empty. */
  lemma ListsNonEmpty(es: seq<ListEntry>, k: nat)
    requires k < |Lists(es)|
    ensures Lists(es)[k].items != []
    ensures forall i :: 0 <= i < |Lists(es)[k].items| ==>
      var x := Lists(es)[k].items[i]; x != "" && !IsSpace(x[0]) && !IsSpace(x[|x| - 1])
    decreases |es|
  {
    var init := es[..|es| - 1];
    if k < |Lists(init)| {
      ListsNonEmpty(init, k);
    }
  }

  /** Lists come out in entry order, at most one per entry. */
  lemma {:induction false} ListsAppend(a: seq<ListEntry>, b: seq<ListEntry>)
    ensures Lists(a + b) == Lists(a) + Lists(b)
    decreases |b|
  {
    if b == [] {
      assert a + b == a;
    } else {
      assert (a + b)[..|a + b| - 1] == a + b[..|b| - 1];
      ListsAppend(a, b[..|b| - 1]);
    }
  }
}
