/** What the chat side reads back from `metadata.json` after the index
    build wrote it: every record has a title, a file name and its text. */
module Pipeline {
  import opened Wrappers
  import VectorStore
  import Chatbot

  /** `json.dump(indexed_data)` followed by `json.load`. */
  function ToMetadata(records: seq<VectorStore.IndexedRecord>): (md: seq<Chatbot.MetadataEntry>)
    ensures |md| == |records|
  {
    seq(|records|, i requires 0 <= i < |records| =>
      Chatbot.MetadataEntry(Some(records[i].title), Some(records[i].filename), Some(records[i].text)))
  }

  /** Over metadata written by the build, the neighbour loop raises nothing
      for any index FAISS can return (`-1` or above), and every hit is the
      title and the text of one of the written records. */
  lemma WrittenMetadataResolves(records: seq<VectorStore.IndexedRecord>, acc: seq<Chatbot.Retrieved>, ids: seq<int>)
    requires forall j :: 0 <= j < |ids| ==> ids[j] >= -|records|
    ensures Chatbot.CollectFrom(acc, ToMetadata(records), ids) == Ok(acc + Chatbot.Hits(ToMetadata(records), ids))
    ensures forall k :: 0 <= k < |Chatbot.Hits(ToMetadata(records), ids)| ==>
      exists p :: (0 <= p < |records|
        && Chatbot.Hits(ToMetadata(records), ids)[k] == Chatbot.Retrieved(records[p].title, records[p].text))
  {
    var md := ToMetadata(records);
    forall j | 0 <= j < |ids| ensures Chatbot.Resolvable(md, ids[j]) {
      if ids[j] < |md| {
        assert md[Chatbot.Position(md, ids[j])].title.Some?;
      }
    }
    Chatbot.CollectFromSpec(acc, md, ids);
    Chatbot.HitsSpec(md, ids);
    var hs := Chatbot.Hits(md, ids);
    forall k | 0 <= k < |hs|
      ensures exists p :: (0 <= p < |records| && hs[k] == Chatbot.Retrieved(records[p].title, records[p].text))
    {
      var p :| 0 <= p < |md| && md[p].title == Some(hs[k].title) && hs[k].content == md[p].text.GetOr(Chatbot.NoContent);
      assert hs[k] == Chatbot.Retrieved(records[p].title, records[p].text);
    }
  }

  /** The placeholder index `-1`, which FAISS returns when it has fewer than
      `top_k` vectors, passes the `idx < len(metadata)` guard and reads the
      last record. */
  lemma PaddingReadsLast(records: seq<VectorStore.IndexedRecord>)
    requires records != []
    ensures Chatbot.Hit(ToMetadata(records), -1) ==
      [Chatbot.Retrieved(records[|records| - 1].title, records[|records| - 1].text)]
  {
  }
}
