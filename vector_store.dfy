/** Loading the chunk files and pairing every chunk text with its metadata
    record and its vector (`load_chunks`, `build_faiss_index`). A directory
    is the sequence of its files in listing order, each already parsed; the
    embedding model is a function parameter. */
module VectorStore {
  import opened Wrappers
  import opened Strings
  import opened Seqs

  const JsonSuffix: string := ".json"
  const Untitled: string := "Untitled"

  /** One element of a file's `"chunks"` list. */
  datatype ChunkRecord = ChunkRecord(text: Option<string>, title: Option<string>)

  /** A directory entry: its name and, when it is a chunk file, the
      `"chunks"` list it holds (absent when the file has no such key). */
  datatype ChunkFile = ChunkFile(filename: string, chunks: Option<seq<ChunkRecord>>)

  /** `{"title": ..., "filename": ...}` */
  datatype Meta = Meta(title: string, filename: string)

  /** `chunk["text"]` raises `KeyError` on the chunk at `index` of `filename`. */
  datatype LoadError = MissingText(filename: string, index: nat)

  /** The two parallel lists `load_chunks` returns. */
  datatype Loaded = Loaded(texts: seq<string>, metadata: seq<Meta>)

  /** Where a loaded chunk comes from: its file, its position in that file's
      list, and the record itself. */
  datatype Origin = Origin(filename: string, index: nat, chunk: ChunkRecord)

  predicate IsChunkFile(name: string)
  {
    EndsWith(name, JsonSuffix)
  }

  /** The chunks a file contributes, in order: none unless its name ends in
      `.json`, and none when it has no `"chunks"` key. */
  function FileOrigins(f: ChunkFile): (r: seq<Origin>)
    ensures !IsChunkFile(f.filename) ==> r == []
    ensures IsChunkFile(f.filename) ==> |r| == |f.chunks.GetOr([])|
  {
    if IsChunkFile(f.filename) then
      var cs := f.chunks.GetOr([]);
      seq(|cs|, j requires 0 <= j < |cs| => Origin(f.filename, j, cs[j]))
    else []
  }

  function PerFile(files: seq<ChunkFile>): (r: seq<seq<Origin>>)
    ensures |r| == |files|
    ensures forall k :: 0 <= k < |files| ==> r[k] == FileOrigins(files[k])
  {
    if files == [] then [] else PerFile(files[..|files| - 1]) + [FileOrigins(files[|files| - 1])]
  }

  /** Every loaded chunk, in file-listing order and then list order. */
  function Origins(files: seq<ChunkFile>): seq<Origin>
  {
    Flatten(PerFile(files))
  }

  predicate HasText(o: Origin)
  {
    o.chunk.text.Some?
  }

  predicate AllHaveText(os: seq<Origin>)
  {
    forall i :: 0 <= i < |os| ==> HasText(os[i])
  }

  function TextsOf(os: seq<Origin>): (r: seq<string>)
    ensures |r| == |os|
  {
    seq(|os|, i requires 0 <= i < |os| => os[i].chunk.text.GetOr(""))
  }

  /** `{"title": chunk.get("title", "Untitled"), "filename": filename}` */
  function MetaOf(o: Origin): Meta
  {
    Meta(o.chunk.title.GetOr(Untitled), o.filename)
  }

  function MetasOf(os: seq<Origin>): (r: seq<Meta>)
    ensures |r| == |os|
  {
    seq(|os|, i requires 0 <= i < |os| => MetaOf(os[i]))
  }

  /** The first chunk without a text. */
  function FirstMissing(os: seq<Origin>): (p: nat)
    requires exists i :: 0 <= i < |os| && !HasText(os[i])
    ensures p < |os| && !HasText(os[p])
    ensures forall i :: 0 <= i < p ==> HasText(os[i])
  {
    if !HasText(os[0]) then 0
    else
      assert exists i :: 0 <= i < |os[1..]| && !HasText(os[1..][i]) by {
        var i :| 0 <= i < |os| && !HasText(os[i]);
        assert i > 0 && os[1..][i - 1] == os[i];
      }
      1 + FirstMissing(os[1..])
  }

  /** What `load_chunks` returns, or the `KeyError` it raises first. */
  function Load(files: seq<ChunkFile>): Result<Loaded, LoadError>
  {
    var os := Origins(files);
    if AllHaveText(os) then Ok(Loaded(TextsOf(os), MetasOf(os)))
    else
      var p := FirstMissing(os);
      Err(MissingText(os[p].filename, os[p].index))
  }

  lemma OriginsSnoc(files: seq<ChunkFile>, i: nat)
    requires i < |files|
    ensures Origins(files[..i + 1]) == Origins(files[..i]) + FileOrigins(files[i])
  {
    assert files[..i + 1][..i] == files[..i];
    FlattenSnoc(PerFile(files[..i]), FileOrigins(files[i]));
  }

  /** The chunks of the first `i` files come first. */
  lemma OriginsPrefix(files: seq<ChunkFile>, i: nat)
    requires i <= |files|
    ensures Origins(files[..i]) <= Origins(files)
  {
    assert PerFile(files) == PerFile(files[..i]) + PerFile(files[i..]);
    FlattenAppend(PerFile(files[..i]), PerFile(files[i..]));
  }

  lemma TextsMetasSnoc(os: seq<Origin>, o: Origin)
    ensures TextsOf(os + [o]) == TextsOf(os) + [o.chunk.text.GetOr("")]
    ensures MetasOf(os + [o]) == MetasOf(os) + [MetaOf(o)]
  {
    assert TextsOf(os + [o]) == TextsOf(os) + [o.chunk.text.GetOr("")];
    assert MetasOf(os + [o]) == MetasOf(os) + [MetaOf(o)];
  }

  lemma FileOriginsPrefix(f: ChunkFile, j: nat)
    requires IsChunkFile(f.filename) && j < |f.chunks.GetOr([])|
    ensures FileOrigins(f)[..j + 1] == FileOrigins(f)[..j] + [Origin(f.filename, j, f.chunks.GetOr([])[j])]
  {
  }

  /** The first chunk without a text is found right after a prefix whose
      chunks all have one. */
  lemma FirstMissingAfter(os: seq<Origin>, before: seq<Origin>, o: Origin)
    requires before + [o] <= os && AllHaveText(before) && !HasText(o)
    ensures !AllHaveText(os) && FirstMissing(os) == |before| && os[|before|] == o
  {
    assert os[|before|] == (before + [o])[|before|];
    assert forall p :: 0 <= p < |before| ==> os[p] == before[p];
  }

  /** A chunk without a text, after chunks that all have one, is the error
      `load_chunks` raises. */
  lemma MissingAt(files: seq<ChunkFile>, i: nat, j: nat)
    requires i < |files| && IsChunkFile(files[i].filename)
    requires j < |files[i].chunks.GetOr([])| && files[i].chunks.GetOr([])[j].text.None?
    requires AllHaveText(Origins(files[..i]) + FileOrigins(files[i])[..j])
    ensures Load(files) == Err(MissingText(files[i].filename, j))
  {
    var fo := FileOrigins(files[i]);
    var before := Origins(files[..i]) + fo[..j];
    var o := Origin(files[i].filename, j, files[i].chunks.GetOr([])[j]);
    OriginsSnoc(files, i);
    OriginsPrefix(files, i + 1);
    FileOriginsPrefix(files[i], j);
    assert fo[..j + 1] <= fo;
    assert before + [o] == Origins(files[..i]) + fo[..j + 1];
    assert Origins(files[..i]) + fo[..j + 1] <= Origins(files[..i]) + fo;
    FirstMissingAfter(Origins(files), before, o);
  }

  /** The chunks of file `i`, appended to the parallel lists; an error when
      one of them has no text. */
  method LoadFile(files: seq<ChunkFile>, i: nat, texts: seq<string>, metadata: seq<Meta>)
    returns (r: Result<Loaded, LoadError>)
    requires i < |files|
    requires AllHaveText(Origins(files[..i]))
    requires texts == TextsOf(Origins(files[..i])) && metadata == MetasOf(Origins(files[..i]))
    ensures r.Err? ==> Load(files) == r
    ensures r.Ok? ==>
      && AllHaveText(Origins(files[..i + 1]))
      && r.value.texts == TextsOf(Origins(files[..i + 1]))
      && r.value.metadata == MetasOf(Origins(files[..i + 1]))
  {
    OriginsSnoc(files, i);
    var f := files[i];
    if !IsChunkFile(f.filename) {
      assert Origins(files[..i]) + FileOrigins(f) == Origins(files[..i]);
      return Ok(Loaded(texts, metadata));
    }
    var cs := f.chunks.GetOr([]);
    var ts, ms := texts, metadata;
    ghost var done := Origins(files[..i]);
    for j := 0 to |cs|
      invariant AllHaveText(done + FileOrigins(f)[..j])
      invariant ts == TextsOf(done + FileOrigins(f)[..j]) && ms == MetasOf(done + FileOrigins(f)[..j])
    {
      var chunk := cs[j];
      if chunk.text.None? {
        MissingAt(files, i, j);
        return Err(MissingText(f.filename, j));
      }
      FileOriginsPrefix(f, j);
      var o := Origin(f.filename, j, chunk);
      assert done + FileOrigins(f)[..j + 1] == (done + FileOrigins(f)[..j]) + [o];
      TextsMetasSnoc(done + FileOrigins(f)[..j], o);
      ts := ts + [chunk.text.value];
      ms := ms + [Meta(chunk.title.GetOr(Untitled), f.filename)];
    }
    assert FileOrigins(f)[..|cs|] == FileOrigins(f);
    r := Ok(Loaded(ts, ms));
  }

  /** `load_chunks(input_folder)` over the folder's listing. */
  method LoadChunks(files: seq<ChunkFile>) returns (r: Result<Loaded, LoadError>)
    ensures r == Load(files)
  {
    var texts: seq<string> := [];
    var metadata: seq<Meta> := [];
    for i := 0 to |files|
      invariant AllHaveText(Origins(files[..i]))
      invariant texts == TextsOf(Origins(files[..i])) && metadata == MetasOf(Origins(files[..i]))
    {
      var step := LoadFile(files, i, texts, metadata);
      if step.Err? {
        return step;
      }
      texts, metadata := step.value.texts, step.value.metadata;
    }
    assert files[..|files|] == files;
    r := Ok(Loaded(texts, metadata));
  }

  // ------------------------------------------------------------------
  // Properties of the loaded lists
  // ------------------------------------------------------------------

  /** The two lists are in lock-step: position `i` of both comes from the
      same chunk of the same file. */
  lemma LoadAligned(files: seq<ChunkFile>)
    requires Load(files).Ok?
    ensures |Load(files).value.texts| == |Load(files).value.metadata| == |Origins(files)|
    ensures forall i :: 0 <= i < |Origins(files)| ==>
      && Origins(files)[i].chunk.text == Some(Load(files).value.texts[i])
      && Load(files).value.metadata[i] == Meta(Origins(files)[i].chunk.title.GetOr(Untitled), Origins(files)[i].filename)
  {
  }

  /** The loading fails exactly when some chunk of a `.json` file has no
      text. */
  lemma LoadFailsIff(files: seq<ChunkFile>)
    ensures Load(files).Err? <==> exists i :: 0 <= i < |Origins(files)| && Origins(files)[i].chunk.text.None?
  {
  }

  /** Every loaded chunk is a chunk of a `.json` file of the listing, and
      it remembers that file's name and its place in the file. */
  lemma {:induction false} OriginsFromFiles(files: seq<ChunkFile>, p: nat)
    requires p < |Origins(files)|
    ensures exists k :: (0 <= k < |files| && files[k].filename == Origins(files)[p].filename
      && IsChunkFile(files[k].filename)
      && Origins(files)[p].index < |files[k].chunks.GetOr([])|
      && files[k].chunks.GetOr([])[Origins(files)[p].index] == Origins(files)[p].chunk)
    decreases |files|
  {
    var n := |files| - 1;
    OriginsSnoc(files, n);
    assert files[..n + 1] == files;
    var front := Origins(files[..n]);
    if p < |front| {
      OriginsFromFiles(files[..n], p);
      var k :| 0 <= k < n && files[..n][k].filename == front[p].filename
        && IsChunkFile(files[..n][k].filename)
        && front[p].index < |files[..n][k].chunks.GetOr([])|
        && files[..n][k].chunks.GetOr([])[front[p].index] == front[p].chunk;
      assert files[k] == files[..n][k];
    } else {
      var j := p - |front|;
      assert Origins(files)[p] == FileOrigins(files[n])[j];
    }
  }

  /** Chunk `j` of file `k` is loaded at position `ChunkPosition(files, k, j)`. */
  function ChunkPosition(files: seq<ChunkFile>, k: nat, j: nat): nat
    requires k < |files|
  {
    Offset(PerFile(files), k) + j
  }

  lemma ChunkLoadedAt(files: seq<ChunkFile>, k: nat, j: nat)
    requires k < |files| && IsChunkFile(files[k].filename) && j < |files[k].chunks.GetOr([])|
    ensures ChunkPosition(files, k, j) < |Origins(files)|
    ensures Origins(files)[ChunkPosition(files, k, j)] == Origin(files[k].filename, j, files[k].chunks.GetOr([])[j])
  {
    FlattenIndex(PerFile(files), k, j);
  }

  /** Files keep their listing order: every chunk of file `k` comes before
      every chunk of a later file `l`, and chunks keep their order within a
      file. */
  lemma LoadOrder(files: seq<ChunkFile>, k: nat, j: nat, l: nat, m: nat)
    requires k < |files| && IsChunkFile(files[k].filename) && j < |files[k].chunks.GetOr([])|
    requires l < |files| && IsChunkFile(files[l].filename) && m < |files[l].chunks.GetOr([])|
    requires k < l || (k == l && j < m)
    ensures ChunkPosition(files, k, j) < ChunkPosition(files, l, m)
  {
    if k < l {
      var xss := PerFile(files);
      assert xss[..l] == xss[..k + 1] + xss[k + 1..l];
      FlattenAppend(xss[..k + 1], xss[k + 1..l]);
      assert xss[..k + 1] == xss[..k] + [xss[k]];
      FlattenSnoc(xss[..k], xss[k]);
    }
  }

  /** A listing without `.json` files loads nothing. */
  lemma {:induction false} NoChunkFiles(files: seq<ChunkFile>)
    requires forall k :: 0 <= k < |files| ==> !IsChunkFile(files[k].filename)
    ensures Load(files) == Ok(Loaded([], []))
    decreases |files|
  {
    if files != [] {
      var n := |files| - 1;
      OriginsSnoc(files, n);
      assert files[..n + 1] == files;
      NoChunkFiles(files[..n]);
    }
  }

  // ------------------------------------------------------------------
  // build_faiss_index
  // ------------------------------------------------------------------

  /** One record of `metadata.json`. */
  datatype IndexedRecord = IndexedRecord(title: string, filename: string, text: string)

  /** What `build_faiss_index` produces: nothing for an empty input; else the
      vectors it adds to the index, and the records it writes beside them,
      or an `IndexError` after the index is written when `metadata` is
      shorter than `text_chunks`. */
  datatype BuildOutcome<V> =
    | NothingToIndex
    | Built(vectors: seq<V>, records: seq<IndexedRecord>)
    | MetadataTooShort(written: seq<V>)

  function BuildFaissIndex<V>(texts: seq<string>, metadata: seq<Meta>, embed: string -> V): (r: BuildOutcome<V>)
    ensures r.NothingToIndex? <==> texts == []
    ensures r.Built? <==> texts != [] && |metadata| >= |texts|
    ensures r.Built? ==> |r.vectors| == |r.records| == |texts|
    ensures r.Built? ==> forall i :: 0 <= i < |texts| ==>
      r.vectors[i] == embed(texts[i])
      && r.records[i] == IndexedRecord(metadata[i].title, metadata[i].filename, texts[i])
    ensures r.MetadataTooShort? ==> |r.written| == |texts| && forall i :: 0 <= i < |texts| ==> r.written[i] == embed(texts[i])
  {
    if texts == [] then NothingToIndex
    else
      var vectors := seq(|texts|, i requires 0 <= i < |texts| => embed(texts[i]));
      if |metadata| < |texts| then MetadataTooShort(vectors)
      else Built(vectors, seq(|texts|, i requires 0 <= i < |texts| =>
        IndexedRecord(metadata[i].title, metadata[i].filename, texts[i])))
  }

  /** Loading and then indexing: each vector sits beside the record of the
      chunk it embeds, with the chunk's title (or `"Untitled"`), its file's
      name and its text. */
  lemma LoadThenIndex<V>(files: seq<ChunkFile>, embed: string -> V)
    requires Load(files).Ok? && Origins(files) != []
    ensures BuildFaissIndex(Load(files).value.texts, Load(files).value.metadata, embed).Built?
    ensures var b := BuildFaissIndex(Load(files).value.texts, Load(files).value.metadata, embed);
      |b.records| == |Origins(files)| &&
      forall i :: 0 <= i < |Origins(files)| ==>
        && Origins(files)[i].chunk.text == Some(b.records[i].text)
        && b.vectors[i] == embed(b.records[i].text)
        && b.records[i].title == Origins(files)[i].chunk.title.GetOr(Untitled)
        && b.records[i].filename == Origins(files)[i].filename
  {
    LoadAligned(files);
  }
}
