/**
 * The indexing script of api/create_vector_store.py from the decoded file
 * to the (text, vector) pairs handed to the index builder (lines 23-64).
 * Reading the file, building the FAISS index and saving it are not modelled.
 */
module VectorStore {
  import opened Wrappers
  import opened Json
  import opened Corpus
  import opened Embedding

  /** The pairs of line 64, or the error that aborts the script first. */
  method IndexEntries<V>(data: Json, pyStr: Json -> string, encode: seq<string> -> seq<V>)
    returns (r: Result<seq<(string, V)>, CorpusError>)
    ensures LoadTexts(data, pyStr).Failure? ==> r == Failure(LoadTexts(data, pyStr).error)
    ensures LoadTexts(data, pyStr).Success? ==>
      var texts := LoadTexts(data, pyStr).value;
      r == Success(Zip(texts, EncodeAll(encode, Batches(texts))))
  {
    var loaded := LoadTexts(data, pyStr);
    if loaded.Failure? {
      return Failure(loaded.error);
    }
    var texts := loaded.value;
    var embeddings := EmbedTexts(texts, encode);
    r := Success(Zip(texts, embeddings));
  }

  /** With one vector per input, every selected text enters the index exactly
      once, in order, beside the vector at the same position of the
      accumulated list (which `EncodedPositions` locates in its batch). */
  lemma IndexCoversTexts<V>(data: Json, pyStr: Json -> string, encode: seq<string> -> seq<V>)
    requires OnePerInput(encode)
    requires LoadTexts(data, pyStr).Success?
    ensures var texts := LoadTexts(data, pyStr).value;
      var vectors := EncodeAll(encode, Batches(texts));
      var pairs := Zip(texts, vectors);
      && |vectors| == |pairs| == |texts| <= |data.items|
      && forall i :: 0 <= i < |texts| ==> pairs[i] == (texts[i], vectors[i])
  {
    var texts := LoadTexts(data, pyStr).value;
    if |texts| > 0 {
      EncodedPositions(encode, texts, 0);
    } else {
      assert Batches(texts) == [];
    }
  }
}
