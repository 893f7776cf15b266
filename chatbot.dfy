/** Model of the retrieval and answer step of the chatbot: parsing the
    model's numbered list of reworded queries, collecting the metadata
    entries the vector search returns for them, removing duplicate contents,
    formatting the context, and the bounded conversation history. The
    language model and the vector search are function parameters. */
module Chatbot {
  import opened Wrappers
  import opened Strings
  import opened Seqs

  // ------------------------------------------------------------------
  // Query expansion (generate_expanded_queries)
  // ------------------------------------------------------------------

  const MaxExpansions: nat := 5
  const DefaultTopK: nat := 3

  /** `f"{i+1}."`, the list marker removed from the line at position `i`. */
  function Marker(i: nat): (m: string)
    ensures m != []
  {
    Decimal(i + 1) + "."
  }

  /** `if q.strip()`: the line has a non-whitespace character. */
  predicate NonBlank(line: string)
  {
    StripStart(line) < |line|
  }

  lemma NonBlankIff(line: string)
    ensures NonBlank(line) <==> Strip(line) != ""
    ensures NonBlank(line) <==> !AllSpace(line)
  {
    StripSpec(line);
  }

  /** `line.replace(f"{i+1}.", "").strip()` */
  function ParseLine(line: string, i: nat): string
  {
    Strip(RemoveAll(line, Marker(i)))
  }

  /** The lines of the reply: `reply.strip().split("\n")`. */
  function ReplyLines(reply: string): seq<string>
  {
    Split(Strip(reply), "\n")
  }

  /** The comprehension over `enumerate(lines)` from position `from` on:
      blank lines are dropped, and each kept line loses the marker of its
      position in the unfiltered list. */
  function ParseFrom(lines: seq<string>, from: nat): seq<string>
    requires from <= |lines|
    decreases |lines| - from
  {
    if from == |lines| then []
    else (if NonBlank(lines[from]) then [ParseLine(lines[from], from)] else []) + ParseFrom(lines, from + 1)
  }

  function Take<T>(xs: seq<T>, n: nat): (r: seq<T>)
    ensures |r| == if |xs| <= n then |xs| else n
    ensures r == xs[..|r|]
  {
    if |xs| <= n then xs else xs[..n]
  }

  /** `generate_expanded_queries`, given the model's reply. */
  function ExpandedQueries(reply: string): seq<string>
  {
    Take(ParseFrom(ReplyLines(reply), 0), MaxExpansions)
  }

  /** The positions of the non-blank lines at or after `from`, in order. */
  function Positions(lines: seq<string>, from: nat): (ps: seq<nat>)
    requires from <= |lines|
    ensures forall k :: 0 <= k < |ps| ==> from <= ps[k] < |lines| && NonBlank(lines[ps[k]])
    decreases |lines| - from
  {
    if from == |lines| then [] else (if NonBlank(lines[from]) then [from] else []) + Positions(lines, from + 1)
  }

  predicate Increasing(ps: seq<nat>)
  {
    forall k, l :: 0 <= k < l < |ps| ==> ps[k] < ps[l]
  }

  /** `ps` holds every non-blank line at or after `from`. */
  predicate CoversNonBlank(lines: seq<string>, from: nat, ps: seq<nat>)
  {
    forall p :: from <= p < |lines| && NonBlank(lines[p]) ==> p in ps
  }

  lemma IncreasingCons(p: nat, ps: seq<nat>)
    requires Increasing(ps) && forall k :: 0 <= k < |ps| ==> p < ps[k]
    ensures Increasing([p] + ps)
  {
    var qs := [p] + ps;
    forall k, l | 0 <= k < l < |qs| ensures qs[k] < qs[l] {
      assert qs[l] == ps[l - 1];
      if k > 0 {
        assert qs[k] == ps[k - 1];
      }
    }
  }

  lemma CoversStep(lines: seq<string>, from: nat, head: seq<nat>, rest: seq<nat>)
    requires from < |lines| && CoversNonBlank(lines, from + 1, rest)
    requires head == if NonBlank(lines[from]) then [from] else []
    ensures CoversNonBlank(lines, from, head + rest)
  {
    forall p | from <= p < |lines| && NonBlank(lines[p]) ensures p in head + rest {
      if p > from {
        assert p in rest;
      }
    }
  }

  lemma {:induction false} PositionsIncreasing(lines: seq<string>, from: nat)
    requires from <= |lines|
    ensures Increasing(Positions(lines, from))
    decreases |lines| - from
  {
    if from < |lines| && NonBlank(lines[from]) {
      PositionsIncreasing(lines, from + 1);
      IncreasingCons(from, Positions(lines, from + 1));
    } else if from < |lines| {
      PositionsIncreasing(lines, from + 1);
    }
  }

  lemma {:induction false} PositionsCover(lines: seq<string>, from: nat)
    requires from <= |lines|
    ensures CoversNonBlank(lines, from, Positions(lines, from))
    decreases |lines| - from
  {
    if from < |lines| {
      PositionsCover(lines, from + 1);
      CoversStep(lines, from, if NonBlank(lines[from]) then [from] else [], Positions(lines, from + 1));
    }
  }

  /** The kept positions are increasing and miss no non-blank line. */
  lemma PositionsSpec(lines: seq<string>, from: nat)
    requires from <= |lines|
    ensures Increasing(Positions(lines, from))
    ensures CoversNonBlank(lines, from, Positions(lines, from))
  {
    PositionsIncreasing(lines, from);
    PositionsCover(lines, from);
  }

  /** Entry `k` of `qs` is line `ps[k]` with its own marker removed. */
  predicate ParsedAt(lines: seq<string>, qs: seq<string>, ps: seq<nat>)
  {
    |qs| == |ps| && forall k :: 0 <= k < |qs| ==> ps[k] < |lines| && qs[k] == ParseLine(lines[ps[k]], ps[k])
  }

  lemma ParsedAtCons(lines: seq<string>, p: nat, qs: seq<string>, ps: seq<nat>)
    requires p < |lines| && ParsedAt(lines, qs, ps)
    ensures ParsedAt(lines, [ParseLine(lines[p], p)] + qs, [p] + ps)
  {
    var qs', ps' := [ParseLine(lines[p], p)] + qs, [p] + ps;
    forall k | 0 < k < |qs'| ensures ps'[k] < |lines| && qs'[k] == ParseLine(lines[ps'[k]], ps'[k]) {
      assert qs'[k] == qs[k - 1] && ps'[k] == ps[k - 1];
    }
  }

  /** Parsed entry `k` comes from the `k`-th non-blank line, with the marker
      of that line's own position removed. */
  lemma {:induction false} ParseFromAt(lines: seq<string>, from: nat)
    requires from <= |lines|
    ensures ParsedAt(lines, ParseFrom(lines, from), Positions(lines, from))
    decreases |lines| - from
  {
    if from < |lines| {
      ParseFromAt(lines, from + 1);
      var pr := ParseFrom(lines, from + 1);
      var rest := Positions(lines, from + 1);
      if NonBlank(lines[from]) {
        assert ParseFrom(lines, from) == [ParseLine(lines[from], from)] + pr;
        assert Positions(lines, from) == [from] + rest;
        ParsedAtCons(lines, from, pr, rest);
      } else {
        assert ParseFrom(lines, from) == pr;
        assert Positions(lines, from) == rest;
      }
    }
  }

  /** There are `min(5, n)` expansions for `n` non-blank lines, taken from
      the first non-blank lines in order. */
  lemma ExpansionsSpec(reply: string)
    ensures var n := |Positions(ReplyLines(reply), 0)|;
      |ExpandedQueries(reply)| == if n <= MaxExpansions then n else MaxExpansions
    ensures forall k :: 0 <= k < |ExpandedQueries(reply)| ==>
      var p := Positions(ReplyLines(reply), 0)[k];
      ExpandedQueries(reply)[k] == ParseLine(ReplyLines(reply)[p], p)
  {
    ParseFromAt(ReplyLines(reply), 0);
  }

  /** A line that starts with its own marker, as "3. text" on the third
      line, gives its text stripped (when the text repeats no marker). */
  lemma NumberedLine(i: nat, rest: string)
    requires !Contains(rest, Marker(i))
    ensures ParseLine(Marker(i) + rest, i) == Strip(rest)
  {
    RemoveAllPrefix(Marker(i), rest);
  }

  // ------------------------------------------------------------------
  // Search and neighbour lookup (search_faiss)
  // ------------------------------------------------------------------

  /** One record of the metadata file. */
  datatype MetadataEntry = MetadataEntry(title: Option<string>, filename: Option<string>, text: Option<string>)

  /** One retrieved document. */
  datatype Retrieved = Retrieved(title: string, content: string)

  /** The exceptions the search can raise: `metadata[idx]` out of range,
      and `doc["title"]` on a record without a title. */
  datatype SearchError = IndexOutOfRange(idx: int) | MissingTitle(position: nat)

  const NoContent: string := "No content found."

  /** The list position Python reads for `metadata[idx]`, counting from the
      end for a negative index. */
  function Position(md: seq<MetadataEntry>, idx: int): int
  {
    if idx >= 0 then idx else |md| + idx
  }

  /** The index raises nothing: it is skipped by the `idx < len(metadata)`
      guard, or it reads a record that has a title. */
  predicate Resolvable(md: seq<MetadataEntry>, idx: int)
  {
    idx >= |md| || (-|md| <= idx && md[Position(md, idx)].title.Some?)
  }

  /** No index of `ids` raises. */
  predicate AllResolvable(md: seq<MetadataEntry>, ids: seq<int>)
  {
    forall j :: 0 <= j < |ids| ==> Resolvable(md, ids[j])
  }

  function ErrorOf(md: seq<MetadataEntry>, idx: int): SearchError
    requires !Resolvable(md, idx)
  {
    if idx < -|md| then IndexOutOfRange(idx) else MissingTitle(Position(md, idx))
  }

  /** What index `idx` appends: nothing above the guard, else the record's
      title and text (or the placeholder). */
  function Hit(md: seq<MetadataEntry>, idx: int): seq<Retrieved>
  {
    if -|md| <= idx < |md| && md[Position(md, idx)].title.Some? then
      var doc := md[Position(md, idx)];
      [Retrieved(doc.title.value, doc.text.GetOr(NoContent))]
    else []
  }

  /** The neighbour loop over `ids`, appending to `acc`. */
  function CollectFrom(acc: seq<Retrieved>, md: seq<MetadataEntry>, ids: seq<int>): Result<seq<Retrieved>, SearchError>
    decreases |ids|
  {
    if ids == [] then Ok(acc)
    else if !Resolvable(md, ids[0]) then Err(ErrorOf(md, ids[0]))
    else CollectFrom(acc + Hit(md, ids[0]), md, ids[1..])
  }

  /** The outer loop over the expanded queries. */
  function CollectQueries(acc: seq<Retrieved>, md: seq<MetadataEntry>, qs: seq<string>,
                          search: (string, nat) -> seq<int>, topK: nat): Result<seq<Retrieved>, SearchError>
    decreases |qs|
  {
    if qs == [] then Ok(acc)
    else
      match CollectFrom(acc, md, search(qs[0], topK))
      case Err(e) => Err(e)
      case Ok(acc') => CollectQueries(acc', md, qs[1..], search, topK)
  }

  /** The hits of each expansion, in expansion order. */
  function QueryHits(md: seq<MetadataEntry>, qs: seq<string>, search: (string, nat) -> seq<int>, topK: nat)
    : (r: seq<seq<Retrieved>>)
    ensures |r| == |qs|
    ensures forall i :: 0 <= i < |qs| ==> r[i] == Hits(md, search(qs[i], topK))
  {
    if qs == [] then [] else [Hits(md, search(qs[0], topK))] + QueryHits(md, qs[1..], search, topK)
  }

  /** The results each index contributes, one after another. */
  function Hits(md: seq<MetadataEntry>, ids: seq<int>): seq<Retrieved>
  {
    if ids == [] then [] else Hit(md, ids[0]) + Hits(md, ids[1..])
  }

  /** With no failing index, the loop appends exactly the hits; with one, it
      fails. */
  lemma {:induction false} CollectFromSpec(acc: seq<Retrieved>, md: seq<MetadataEntry>, ids: seq<int>)
    ensures AllResolvable(md, ids) ==> CollectFrom(acc, md, ids) == Ok(acc + Hits(md, ids))
    ensures !AllResolvable(md, ids) ==> CollectFrom(acc, md, ids).Err?
    decreases |ids|
  {
    if ids == [] {
      assert acc + [] == acc;
    } else {
      var rest := ids[1..];
      CollectFromSpec(acc + Hit(md, ids[0]), md, rest);
      if AllResolvable(md, ids) {
        assert Resolvable(md, ids[0]);
        assert forall j :: 0 <= j < |rest| ==> rest[j] == ids[j + 1];
        assert AllResolvable(md, rest);
        assert CollectFrom(acc, md, ids) == CollectFrom(acc + Hit(md, ids[0]), md, rest);
        assert Hits(md, ids) == Hit(md, ids[0]) + Hits(md, rest);
        assert acc + Hit(md, ids[0]) + Hits(md, rest) == acc + Hits(md, ids);
      }
      if !AllResolvable(md, ids) {
        var j :| 0 <= j < |ids| && !Resolvable(md, ids[j]);
        if j > 0 {
          assert rest[j - 1] == ids[j];
        }
      }
    }
  }

  /** Every hit is the title and text (or the placeholder) of a record of
      the metadata, and an index at or above `len(metadata)` contributes
      nothing. */
  lemma {:induction false} HitsSpec(md: seq<MetadataEntry>, ids: seq<int>)
    ensures |Hits(md, ids)| <= |ids|
    ensures forall k :: 0 <= k < |Hits(md, ids)| ==>
      exists p :: (0 <= p < |md| && md[p].title == Some(Hits(md, ids)[k].title) &&
        Hits(md, ids)[k].content == md[p].text.GetOr(NoContent))
    ensures (forall j :: 0 <= j < |ids| ==> ids[j] >= |md|) ==> Hits(md, ids) == []
  {
    if ids != [] {
      HitsSpec(md, ids[1..]);
      var h: seq<Retrieved> := Hit(md, ids[0]);
      var rest: seq<Retrieved> := Hits(md, ids[1..]);
      var all: seq<Retrieved> := h + rest;
      forall k | 0 <= k < |all|
        ensures exists p :: (0 <= p < |md| && md[p].title == Some(all[k].title) &&
          all[k].content == md[p].text.GetOr(NoContent))
      {
        if k < |h| {
          var p := Position(md, ids[0]);
          assert md[p].title == Some(all[k].title);
        } else {
          assert all[k] == rest[k - |h|];
        }
      }
      if forall j :: 0 <= j < |ids| ==> ids[j] >= |md| {
        assert forall j :: 0 <= j < |ids[1..]| ==> ids[1..][j] == ids[j + 1];
      }
    }
  }

  lemma {:induction false} HitsAppend(md: seq<MetadataEntry>, a: seq<int>, b: seq<int>)
    ensures Hits(md, a + b) == Hits(md, a) + Hits(md, b)
  {
    if a != [] {
      assert (a + b)[1..] == a[1..] + b;
      HitsAppend(md, a[1..], b);
    } else {
      assert a + b == b;
    }
  }

  /** Each index at or above `len(metadata)` contributes nothing, wherever
      it stands among the others: dropping it leaves the hits unchanged. */
  lemma HitsSkipLarge(md: seq<MetadataEntry>, ids: seq<int>)
    ensures forall j :: 0 <= j < |ids| && ids[j] >= |md| ==> Hits(md, ids) == Hits(md, ids[..j] + ids[j + 1..])
  {
    forall j | 0 <= j < |ids| && ids[j] >= |md| ensures Hits(md, ids) == Hits(md, ids[..j] + ids[j + 1..]) {
      HitsSkipAt(md, ids, j);
    }
  }

  lemma HitsSkipAt(md: seq<MetadataEntry>, ids: seq<int>, j: nat)
    requires j < |ids| && ids[j] >= |md|
    ensures Hits(md, ids) == Hits(md, ids[..j] + ids[j + 1..])
  {
    HitsAround(md, ids, j);
    HitsAppend(md, ids[..j], ids[j + 1..]);
  }

  /** Entry `j` adds nothing: the hits are those before it and those after. */
  lemma HitsAround(md: seq<MetadataEntry>, ids: seq<int>, j: nat)
    requires j < |ids| && ids[j] >= |md|
    ensures Hits(md, ids) == Hits(md, ids[..j]) + Hits(md, ids[j + 1..])
  {
    var tail := ids[j..];
    assert ids == ids[..j] + tail;
    HitsAppend(md, ids[..j], tail);
    assert tail[0] == ids[j] && tail[1..] == ids[j + 1..];
    assert Hits(md, tail) == Hits(md, ids[j + 1..]);
  }

  /** The raw result list of `search_faiss`: expansion order first, then
      neighbour order. */
  function RawResults(md: seq<MetadataEntry>, qs: seq<string>, search: (string, nat) -> seq<int>, topK: nat)
    : Result<seq<Retrieved>, SearchError>
  {
    CollectQueries([], md, qs, search, topK)
  }

  /** With no failing index, the raw list is the hits of each expansion's
      neighbours, in expansion order. */
  lemma {:induction false} CollectQueriesSpec(acc: seq<Retrieved>, md: seq<MetadataEntry>, qs: seq<string>,
                                              search: (string, nat) -> seq<int>, topK: nat)
    requires forall i :: 0 <= i < |qs| ==> AllResolvable(md, search(qs[i], topK))
    ensures CollectQueries(acc, md, qs, search, topK) == Ok(acc + Flatten(QueryHits(md, qs, search, topK)))
    decreases |qs|
  {
    if qs == [] {
      assert acc + [] == acc;
    } else {
      var ids := search(qs[0], topK);
      var h := Hits(md, ids);
      assert AllResolvable(md, ids);
      CollectFromSpec(acc, md, ids);
      var rest := qs[1..];
      forall i | 0 <= i < |rest| ensures AllResolvable(md, search(rest[i], topK)) {
        assert rest[i] == qs[i + 1];
      }
      CollectQueriesSpec(acc + h, md, rest, search, topK);
      var later := QueryHits(md, rest, search, topK);
      assert QueryHits(md, qs, search, topK) == [h] + later;
      FlattenCons(h, later);
      assert acc + h + Flatten(later) == acc + (h + Flatten(later));
    }
  }

  /** `search_faiss(query, top_k)`: the expansions of the query, the
      neighbours of each, the guarded lookups, then the dedup. */
  method SearchFaiss(query: string, topK: nat, expand: string -> string, search: (string, nat) -> seq<int>,
                     metadata: seq<MetadataEntry>)
    returns (r: Result<seq<Retrieved>, SearchError>)
    ensures r == SearchResults(query, topK, expand, search, metadata)
  {
    var expandedQueries := ExpandedQueries(expand(query));
    var all := CollectAll(expandedQueries, topK, search, metadata);
    match all
    case Err(e) => r := Err(e);
    case Ok(allResults) => r := Ok(Dedup(allResults));
  }

  /** The loop over the expansions, appending to `all_results`; an
      exception ends the search. */
  method CollectAll(expandedQueries: seq<string>, topK: nat, search: (string, nat) -> seq<int>,
                    metadata: seq<MetadataEntry>)
    returns (r: Result<seq<Retrieved>, SearchError>)
    ensures r == RawResults(metadata, expandedQueries, search, topK)
  {
    var allResults: seq<Retrieved> := [];
    assert expandedQueries[0..] == expandedQueries;
    for i := 0 to |expandedQueries|
      invariant CollectQueries(allResults, metadata, expandedQueries[i..], search, topK)
             == RawResults(metadata, expandedQueries, search, topK)
    {
      var indices := search(expandedQueries[i], topK);
      assert expandedQueries[i..][1..] == expandedQueries[i + 1..];
      var step := CollectNeighbours(allResults, indices, metadata);
      if step.Err? {
        return Err(step.error);
      }
      allResults := step.value;
    }
    assert expandedQueries[|expandedQueries|..] == [];
    r := Ok(allResults);
  }

  /** The loop over one expansion's neighbour indices. */
  method CollectNeighbours(allResults: seq<Retrieved>, indices: seq<int>, metadata: seq<MetadataEntry>)
    returns (r: Result<seq<Retrieved>, SearchError>)
    ensures r == CollectFrom(allResults, metadata, indices)
  {
    var results := allResults;
    assert indices[0..] == indices;
    for j := 0 to |indices|
      invariant CollectFrom(results, metadata, indices[j..]) == CollectFrom(allResults, metadata, indices)
    {
      var idx := indices[j];
      assert indices[j..][1..] == indices[j + 1..];
      if idx < |metadata| {
        if idx < -|metadata| {
          return Err(IndexOutOfRange(idx));
        }
        var doc := metadata[if idx >= 0 then idx else |metadata| + idx];
        if doc.title.None? {
          return Err(MissingTitle(Position(metadata, idx)));
        }
        assert Hit(metadata, idx) == [Retrieved(doc.title.value, doc.text.GetOr(NoContent))];
        results := results + [Retrieved(doc.title.value, doc.text.GetOr(NoContent))];
      } else {
        assert results + Hit(metadata, idx) == results;
      }
    }
    assert indices[|indices|..] == [];
    r := Ok(results);
  }

  function SearchResults(query: string, topK: nat, expand: string -> string, search: (string, nat) -> seq<int>,
                         metadata: seq<MetadataEntry>): Result<seq<Retrieved>, SearchError>
  {
    match RawResults(metadata, ExpandedQueries(expand(query)), search, topK)
    case Ok(all) => Ok(Dedup(all))
    case Err(e) => Err(e)
  }

  // ------------------------------------------------------------------
  // Dedup by content: {doc["content"]: doc for doc in results}.values()
  // ------------------------------------------------------------------

  /** The position of the entry keyed by content `c`, if any, searching
      from the end: over a raw list, the last entry with that content. */
  function KeyIndex(d: seq<Retrieved>, c: string): (r: Option<nat>)
    ensures r.Some? ==> r.value < |d| && d[r.value].content == c
    ensures r.None? ==> forall k :: 0 <= k < |d| ==> d[k].content != c
  {
    if d == [] then None
    else if d[|d| - 1].content == c then Some(|d| - 1)
    else KeyIndex(d[..|d| - 1], c)
  }

  /** `d[x["content"]] = x` on an insertion-ordered dict: a present key
      keeps its place and takes the new value, a new key goes last. */
  function Insert(d: seq<Retrieved>, x: Retrieved): seq<Retrieved>
  {
    match KeyIndex(d, x.content)
    case Some(k) => d[k := x]
    case None => d + [x]
  }

  function Dedup(rs: seq<Retrieved>): seq<Retrieved>
  {
    if rs == [] then [] else Insert(Dedup(rs[..|rs| - 1]), rs[|rs| - 1])
  }

  predicate DistinctContents(d: seq<Retrieved>)
  {
    forall i, j :: 0 <= i < j < |d| ==> d[i].content != d[j].content
  }

  function ContentSet(d: seq<Retrieved>): set<string>
  {
    set k | 0 <= k < |d| :: d[k].content
  }

  /** The first position with content `c`. */
  function FirstWith(rs: seq<Retrieved>, c: string): (r: Option<nat>)
    ensures r.Some? ==> r.value < |rs| && rs[r.value].content == c
    ensures r.None? ==> forall k :: 0 <= k < |rs| ==> rs[k].content != c
  {
    if rs == [] then None
    else match FirstWith(rs[..|rs| - 1], c)
      case Some(k) => Some(k)
      case None => if rs[|rs| - 1].content == c then Some(|rs| - 1) else None
  }

  /** `KeyIndex` finds the last entry with the content, `FirstWith` the first. */
  lemma {:induction false} KeyIndexLast(rs: seq<Retrieved>, c: string)
    ensures KeyIndex(rs, c).Some? ==> forall k :: KeyIndex(rs, c).value < k < |rs| ==> rs[k].content != c
  {
    if rs != [] && rs[|rs| - 1].content != c {
      var init := rs[..|rs| - 1];
      KeyIndexLast(init, c);
      forall k | KeyIndex(rs, c).Some? && KeyIndex(rs, c).value < k < |rs| ensures rs[k].content != c {
        if k < |rs| - 1 {
          assert rs[k] == init[k];
        }
      }
    }
  }

  lemma {:induction false} FirstWithFirst(rs: seq<Retrieved>, c: string)
    ensures FirstWith(rs, c).Some? ==> forall k :: 0 <= k < FirstWith(rs, c).value ==> rs[k].content != c
  {
    if rs != [] {
      var init := rs[..|rs| - 1];
      FirstWithFirst(init, c);
      forall k | FirstWith(rs, c).Some? && 0 <= k < FirstWith(rs, c).value ensures rs[k].content != c {
        assert rs[k] == init[k];
      }
    }
  }

  predicate Before(a: Option<nat>, b: Option<nat>)
  {
    a.Some? && b.Some? && a.value < b.value
  }

  /** What the dict comprehension gives for the raw list `rs`: one entry per
      content, each the last raw entry with it, ordered by where the content
      first appeared. */
  predicate DedupOf(rs: seq<Retrieved>, d: seq<Retrieved>)
  {
    && DistinctContents(d)
    && ContentSet(d) == ContentSet(rs)
    && (forall k :: 0 <= k < |d| ==>
          KeyIndex(rs, d[k].content).Some? && rs[KeyIndex(rs, d[k].content).value] == d[k])
    && (forall i, j :: 0 <= i < j < |d| ==> Before(FirstWith(rs, d[i].content), FirstWith(rs, d[j].content)))
  }

  lemma ContentSetSnoc(rs: seq<Retrieved>, x: Retrieved)
    ensures ContentSet(rs + [x]) == ContentSet(rs) + {x.content}
  {
    var s := rs + [x];
    forall c | c in ContentSet(s) ensures c in ContentSet(rs) + {x.content} {
      var k :| 0 <= k < |s| && s[k].content == c;
      if k < |rs| {
        assert rs[k].content == c;
      }
    }
    forall c | c in ContentSet(rs) ensures c in ContentSet(s) {
      var k :| 0 <= k < |rs| && rs[k].content == c;
      assert s[k].content == c;
    }
    assert s[|rs|].content == x.content;
  }

  lemma FirstWithSnoc(rs: seq<Retrieved>, x: Retrieved, c: string)
    ensures FirstWith(rs + [x], c) ==
      if FirstWith(rs, c).Some? then FirstWith(rs, c) else if x.content == c then Some(|rs|) else None
  {
    assert (rs + [x])[..|rs|] == rs;
  }

  lemma KeyIndexSnoc(rs: seq<Retrieved>, x: Retrieved, c: string)
    ensures KeyIndex(rs + [x], c) == if x.content == c then Some(|rs|) else KeyIndex(rs, c)
  {
    assert (rs + [x])[..|rs|] == rs;
  }

  /** A key already present: its entry takes the new value in place. */
  lemma InsertPresent(rs: seq<Retrieved>, d: seq<Retrieved>, x: Retrieved, k: nat)
    requires DedupOf(rs, d)
    requires KeyIndex(d, x.content) == Some(k)
    ensures DedupOf(rs + [x], d[k := x])
  {
    InsertPresentSet(rs, d, x, k);
    InsertPresentLast(rs, d, x, k, d[k := x]);
    InsertPresentOrder(rs, d, x, k, d[k := x]);
  }

  lemma InsertPresentSet(rs: seq<Retrieved>, d: seq<Retrieved>, x: Retrieved, k: nat)
    requires DedupOf(rs, d)
    requires KeyIndex(d, x.content) == Some(k)
    ensures DistinctContents(d[k := x])
    ensures ContentSet(d[k := x]) == ContentSet(rs + [x])
  {
    var d' := d[k := x];
    ContentSetSnoc(rs, x);
    forall c | c in ContentSet(d') ensures c in ContentSet(d) {
      var i :| 0 <= i < |d'| && d'[i].content == c;
      assert d[i].content == c;
    }
    forall c | c in ContentSet(d) ensures c in ContentSet(d') {
      var i :| 0 <= i < |d| && d[i].content == c;
      assert d'[i].content == c;
    }
    assert d[k].content in ContentSet(d);
  }

  lemma InsertPresentLast(rs: seq<Retrieved>, d: seq<Retrieved>, x: Retrieved, k: nat, d': seq<Retrieved>)
    requires DedupOf(rs, d)
    requires KeyIndex(d, x.content) == Some(k) && d' == d[k := x]
    ensures forall i :: 0 <= i < |d'| ==>
      KeyIndex(rs + [x], d'[i].content).Some? && (rs + [x])[KeyIndex(rs + [x], d'[i].content).value] == d'[i]
  {
    var s := rs + [x];
    forall i | 0 <= i < |d'|
      ensures KeyIndex(s, d'[i].content).Some? && s[KeyIndex(s, d'[i].content).value] == d'[i]
    {
      KeyIndexSnoc(rs, x, d'[i].content);
      if i != k {
        assert d'[i] == d[i] && d[i].content != x.content;
        var p := KeyIndex(rs, d[i].content).value;
        assert s[p] == rs[p];
      }
    }
  }

  lemma InsertPresentOrder(rs: seq<Retrieved>, d: seq<Retrieved>, x: Retrieved, k: nat, d': seq<Retrieved>)
    requires DedupOf(rs, d)
    requires KeyIndex(d, x.content) == Some(k) && d' == d[k := x]
    ensures forall i, j :: 0 <= i < j < |d'| ==>
      Before(FirstWith(rs + [x], d'[i].content), FirstWith(rs + [x], d'[j].content))
  {
    var s := rs + [x];
    forall i, j | 0 <= i < j < |d'| ensures Before(FirstWith(s, d'[i].content), FirstWith(s, d'[j].content)) {
      assert d'[i].content == d[i].content && d'[j].content == d[j].content;
      assert Before(FirstWith(rs, d[i].content), FirstWith(rs, d[j].content));
      FirstWithSnoc(rs, x, d[i].content);
      FirstWithSnoc(rs, x, d[j].content);
    }
  }

  /** A new key: the entry goes last. */
  lemma InsertNew(rs: seq<Retrieved>, d: seq<Retrieved>, x: Retrieved)
    requires DedupOf(rs, d)
    requires KeyIndex(d, x.content).None?
    ensures DedupOf(rs + [x], d + [x])
  {
    var s := rs + [x];
    var d' := d + [x];
    assert s[..|s| - 1] == rs;
    ContentSetSnoc(rs, x);
    ContentSetSnoc(d, x);
    assert x.content !in ContentSet(rs);
    assert FirstWith(rs, x.content).None?;
    forall i | 0 <= i < |d'|
      ensures KeyIndex(s, d'[i].content).Some? && s[KeyIndex(s, d'[i].content).value] == d'[i]
    {
      if i < |d| {
        assert d'[i] == d[i] && d[i].content != x.content;
        assert KeyIndex(s, d[i].content) == KeyIndex(rs, d[i].content);
      }
    }
    forall i, j | 0 <= i < j < |d'| ensures Before(FirstWith(s, d'[i].content), FirstWith(s, d'[j].content)) {
      assert d'[i] == d[i];
      assert FirstWith(s, d[i].content) == FirstWith(rs, d[i].content);
      if j < |d| {
        assert d'[j] == d[j];
        assert FirstWith(s, d[j].content) == FirstWith(rs, d[j].content);
      }
    }
  }

  /** The dedup is exactly the dict comprehension's result. */
  lemma {:induction false} DedupSpec(rs: seq<Retrieved>)
    ensures DedupOf(rs, Dedup(rs))
  {
    if rs != [] {
      var init := rs[..|rs| - 1];
      var x := rs[|rs| - 1];
      DedupSpec(init);
      assert rs == init + [x];
      match KeyIndex(Dedup(init), x.content)
      case Some(k) => InsertPresent(init, Dedup(init), x, k);
      case None => InsertNew(init, Dedup(init), x);
    }
  }

  // ------------------------------------------------------------------
  // Context, history and the answer (generate_response_with_ollama)
  // ------------------------------------------------------------------

  const NoInfoMessage: string := "I couldn't find any relevant information on this topic."
  const ContextSeparator: string := "\n\n"
  const HistoryCapacity: nat := 3

  /** `f"Title: {doc['title']}\nContent: {doc['content']}"` */
  function EntryText(d: Retrieved): string
  {
    "Title: " + d.title + "\nContent: " + d.content
  }

  function EntryTexts(docs: seq<Retrieved>): (r: seq<string>)
    ensures |r| == |docs|
  {
    seq(|docs|, k requires 0 <= k < |docs| => EntryText(docs[k]))
  }

  /** The context string: the entries joined by blank lines. */
  function Context(docs: seq<Retrieved>): string
  {
    Join(ContextSeparator, EntryTexts(docs))
  }

  /** A title or content that cannot run into a blank-line separator: it
      holds no `"\n\n"` and does not end in a newline (in an entry both are
      followed by one). */
  predicate Unbroken(u: string)
  {
    !Contains(u, ContextSeparator) && (u == [] || u[|u| - 1] != '\n')
  }

  lemma AdjacentNewlines(u: string, j: nat)
    requires j + 1 < |u|
    ensures u[j] == '\n' && u[j + 1] == '\n' ==> StartsAt(u, j, ContextSeparator)
  {
    if u[j] == '\n' && u[j + 1] == '\n' {
      assert u[j..j + 2] == ContextSeparator;
    }
  }

  lemma SeparatorChars(s: string, k: nat)
    ensures StartsAt(s, k, ContextSeparator) ==> s[k] == '\n' && s[k + 1] == '\n'
  {
    if StartsAt(s, k, ContextSeparator) {
      StartsAtChar(s, k, ContextSeparator, 0);
      StartsAtChar(s, k, ContextSeparator, 1);
    }
  }

  /** Inside an unbroken `u` that is followed by a newline, no two
      newlines are adjacent. */
  lemma UnbrokenAt(s: string, off: nat, u: string, k: nat)
    requires StartsAt(s, off, u) && off + |u| < |s| && s[off + |u|] == '\n'
    requires Unbroken(u) && off <= k < off + |u|
    ensures !(s[k] == '\n' && s[k + 1] == '\n')
  {
    StartsAtChar(s, off, u, k - off);
    if k + 1 < off + |u| {
      StartsAtChar(s, off, u, k + 1 - off);
      ContainsIff(u, ContextSeparator);
      AdjacentNewlines(u, k - off);
    }
  }

  /** The layout of an entry followed by a separator, piece by piece. */
  predicate EntryLayout(s: string, t: string, c: string)
  {
    && |s| == 19 + |t| + |c|
    && StartsAt(s, 0, "Title: ") && StartsAt(s, 7, t) && StartsAt(s, 7 + |t|, "\nContent: ")
    && StartsAt(s, 17 + |t|, c) && StartsAt(s, 17 + |t| + |c|, ContextSeparator)
  }

  lemma EntryLayoutOf(d: Retrieved)
    ensures EntryLayout(EntryText(d) + ContextSeparator, d.title, d.content)
  {
    var t, c := d.title, d.content;
    var s := EntryText(d) + ContextSeparator;
    assert s == "Title: " + t + "\nContent: " + c + ContextSeparator;
    assert s[0..7] == "Title: " && s[7..7 + |t|] == t;
    assert s[7 + |t|..17 + |t|] == "\nContent: " && s[17 + |t|..17 + |t| + |c|] == c;
    assert s[17 + |t| + |c|..] == ContextSeparator;
  }

  /** No separator starts inside the entry part of such a layout. */
  lemma NoSeparatorAt(s: string, t: string, c: string, k: nat)
    requires EntryLayout(s, t, c) && Unbroken(t) && Unbroken(c) && k < 17 + |t| + |c|
    ensures !StartsAt(s, k, ContextSeparator)
  {
    SeparatorChars(s, k);
    if k < 7 {
      StartsAtChar(s, 0, "Title: ", k);
    } else if k < 7 + |t| {
      StartsAtChar(s, 7 + |t|, "\nContent: ", 0);
      UnbrokenAt(s, 7, t, k);
    } else if k < 17 + |t| {
      StartsAtChar(s, 7 + |t|, "\nContent: ", k - 7 - |t|);
      if k == 7 + |t| {
        StartsAtChar(s, 7 + |t|, "\nContent: ", 1);
      }
    } else {
      StartsAtChar(s, 17 + |t| + |c|, ContextSeparator, 0);
      UnbrokenAt(s, 17 + |t|, c, k);
    }
  }

  /** An entry whose title and content are unbroken holds no blank-line
      separator, even where it meets the next separator. */
  lemma EntrySeparable(d: Retrieved)
    requires Unbroken(d.title) && Unbroken(d.content)
    ensures SeparableBy(EntryText(d), ContextSeparator)
  {
    var x := EntryText(d);
    EntryLayoutOf(d);
    forall k | 0 <= k < |x| ensures !StartsAt(x + ContextSeparator, k, ContextSeparator) {
      NoSeparatorAt(x + ContextSeparator, d.title, d.content, k);
    }
  }

  /** The context can be split back into its entries when no title or
      content holds a `"\n\n"` or ends in a newline. */
  lemma ContextSplits(docs: seq<Retrieved>)
    requires docs != []
    requires forall k :: 0 <= k < |docs| ==> Unbroken(docs[k].title) && Unbroken(docs[k].content)
    ensures Split(Context(docs), ContextSeparator) == EntryTexts(docs)
  {
    forall k | 0 <= k < |docs| ensures SeparableBy(EntryTexts(docs)[k], ContextSeparator) {
      EntrySeparable(docs[k]);
    }
    SplitJoin(ContextSeparator, EntryTexts(docs));
  }

  /** `f"User: {query}\nBot: {context}"` */
  function HistoryEntry(query: string, context: string): string
  {
    "User: " + query + "\nBot: " + context
  }

  /** What `deque(maxlen=n)` holds after appending the items of `s` in
      order: the last `n` of them. */
  function Recent(s: seq<string>, n: nat): (r: seq<string>)
    ensures |r| <= n && |r| <= |s|
    ensures forall i :: 0 <= i < |r| ==> r[i] == s[|s| - |r| + i]
    ensures |s| <= n ==> r == s
    ensures |s| > n ==> |r| == n
  {
    if |s| <= n then s else s[|s| - n..]
  }

  /** Appending to the bounded buffer loses nothing more than appending to
      the whole history first and bounding afterwards. */
  lemma RecentAppend(s: seq<string>, x: string, n: nat)
    ensures Recent(Recent(s, n) + [x], n) == Recent(s + [x], n)
  {
    var r := Recent(s, n);
    if |s| > n {
      assert r == s[|s| - n..];
      if n > 0 {
        assert (r + [x])[|r + [x]| - n..] == (s + [x])[|s + [x]| - n..];
      } else {
        assert Recent(r + [x], n) == [];
      }
    }
  }

  /** The buffer after appending `xs` one by one to a buffer with contents
      `h`. */
  function AppendAll(h: seq<string>, xs: seq<string>, n: nat): seq<string>
    decreases |xs|
  {
    if xs == [] then h else AppendAll(Recent(h + [xs[0]], n), xs[1..], n)
  }

  lemma AppendAllStep(h: seq<string>, x: string, tail: seq<string>, n: nat)
    ensures AppendAll(h, [x] + tail, n) == AppendAll(Recent(h + [x], n), tail, n)
  {
    assert ([x] + tail)[0] == x && ([x] + tail)[1..] == tail;
  }

  /** After any sequence of appends the buffer holds the last `n` of all
      entries ever appended, oldest first. */
  lemma {:induction false} AppendAllRecent(s: seq<string>, xs: seq<string>, n: nat)
    ensures AppendAll(Recent(s, n), xs, n) == Recent(s + xs, n)
    decreases |xs|
  {
    var r := Recent(s, n);
    if xs == [] {
      assert s + xs == s;
      assert Recent(r, n) == r;
    } else {
      var x, tail := xs[0], xs[1..];
      assert xs == [x] + tail;
      calc {
        AppendAll(r, xs, n);
        { AppendAllStep(r, x, tail, n); }
        AppendAll(Recent(r + [x], n), tail, n);
        { RecentAppend(s, x, n); }
        AppendAll(Recent(s + [x], n), tail, n);
        { AppendAllRecent(s + [x], tail, n); }
        Recent((s + [x]) + tail, n);
        { assert (s + [x]) + tail == s + xs; }
        Recent(s + xs, n);
      }
    }
  }

  /** The `chat_history` deque: a buffer of at most `capacity` entries that
      drops the oldest entry when full. */
  class ChatHistory {
    var entries: seq<string>
    const capacity: nat

    ghost predicate Valid()
      reads this
    {
      |entries| <= capacity
    }

    /** `deque(maxlen=capacity)` */
    constructor (capacity: nat)
      ensures Valid() && entries == [] && this.capacity == capacity
    {
      this.capacity := capacity;
      entries := [];
    }

    /** `chat_history.append(x)` */
    method Append(x: string)
      requires Valid()
      modifies this
      ensures Valid() && entries == Recent(old(entries) + [x], capacity)
    {
      if |entries| < capacity {
        entries := entries + [x];
      } else if capacity > 0 {
        entries := entries[1..] + [x];
      }
    }

    /** `''.join(chat_history)` */
    function Joined(): string
      reads this
    {
      Join("", entries)
    }
  }

  /** The module-level `chat_history = deque(maxlen=3)`: an empty history
      keeping the last three exchanges. */
  method NewChatHistory() returns (h: ChatHistory)
    ensures fresh(h) && h.Valid() && h.entries == [] && h.capacity == HistoryCapacity
  {
    h := new ChatHistory(HistoryCapacity);
  }

  /** The pieces of the answer prompt the model of the source keeps: the
      context, the joined history and the question. */
  datatype Prompt = Prompt(context: string, history: string, question: string)

  /** `generate_response_with_ollama(query, retrieved_docs)`; `llm` is the
      chat model. */
  method GenerateResponse(history: ChatHistory, query: string, retrievedDocs: seq<Retrieved>, llm: Prompt -> string)
    returns (answer: string, sent: Option<Prompt>)
    requires history.Valid()
    modifies history
    ensures history.Valid()
    ensures retrievedDocs == [] ==>
      answer == NoInfoMessage && sent == None && history.entries == old(history.entries)
    ensures retrievedDocs != [] ==>
      && history.entries == Recent(old(history.entries) + [HistoryEntry(query, Context(retrievedDocs))], history.capacity)
      && sent == Some(Prompt(Context(retrievedDocs), Join("", history.entries), query))
      && answer == llm(sent.value)
  {
    if retrievedDocs == [] {
      return NoInfoMessage, None;
    }
    var context := Context(retrievedDocs);
    history.Append(HistoryEntry(query, context));
    var prompt := Prompt(context, history.Joined(), query);
    answer := llm(prompt);
    sent := Some(prompt);
  }

  /** `chatbot(query)`: search with the default `top_k`, then answer. */
  method Chat(history: ChatHistory, query: string, expand: string -> string, search: (string, nat) -> seq<int>,
              metadata: seq<MetadataEntry>, llm: Prompt -> string)
    returns (r: Result<string, SearchError>)
    requires history.Valid()
    modifies history
    ensures history.Valid()
    ensures SearchResults(query, DefaultTopK, expand, search, metadata).Err? ==>
      r == Err(SearchResults(query, DefaultTopK, expand, search, metadata).error) && history.entries == old(history.entries)
    ensures SearchResults(query, DefaultTopK, expand, search, metadata) == Ok([]) ==>
      r == Ok(NoInfoMessage) && history.entries == old(history.entries)
    ensures SearchResults(query, DefaultTopK, expand, search, metadata).Ok? && SearchResults(query, DefaultTopK, expand, search, metadata).value != [] ==>
      && history.entries == Recent(old(history.entries) + [HistoryEntry(query, Context(SearchResults(query, DefaultTopK, expand, search, metadata).value))], history.capacity)
      && r == Ok(llm(Prompt(Context(SearchResults(query, DefaultTopK, expand, search, metadata).value), Join("", history.entries), query)))
  {
    var retrieved := SearchFaiss(query, DefaultTopK, expand, search, metadata);
    if retrieved.Err? {
      return Err(retrieved.error);
    }
    var answer, _ := GenerateResponse(history, query, retrieved.value, llm);
    r := Ok(answer);
  }
}
