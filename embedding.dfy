/**
 * The batched encoding loop of api/create_vector_store.py (lines 52-64):
 * the texts are cut into consecutive slices of 16, each slice is given to
 * the sentence encoder, the vectors it returns are appended to one list,
 * and the texts are then paired with the vectors position by position.
 *
 * The encoder is a parameter `encode`; a vector is any type `V`.
 */
module Embedding {

  const BatchSize: nat := 16

  function Min(a: int, b: int): int {
    if a <= b then a else b
  }

  /** The texts cut into consecutive chunks of `BatchSize`, the last one possibly shorter. */
  function Batches<T>(xs: seq<T>): seq<seq<T>>
    decreases |xs|
  {
    if |xs| == 0 then []
    else if |xs| <= BatchSize then [xs]
    else [xs[..BatchSize]] + Batches(xs[BatchSize..])
  }

  /** Concatenation of a list of lists. */
  function Flatten<T>(xss: seq<seq<T>>): seq<T>
    decreases |xss|
  {
    if |xss| == 0 then [] else xss[0] + Flatten(xss[1..])
  }

  /** The vectors the encoder returns for each batch, in batch order, as
      `embeddings.extend(batch_emb)` accumulates them. */
  function EncodeAll<V>(encode: seq<string> -> seq<V>, batches: seq<seq<string>>): seq<V>
    decreases |batches|
  {
    if |batches| == 0 then [] else encode(batches[0]) + EncodeAll(encode, batches[1..])
  }

  /** The loop of lines 53-58: `range(0, len(texts), 16)`, the slice
      `texts[i:i+16]`, one encoder call and one `extend` per batch. */
  method EmbedTexts<V>(texts: seq<string>, encode: seq<string> -> seq<V>) returns (embeddings: seq<V>)
    ensures embeddings == EncodeAll(encode, Batches(texts))
  {
    embeddings := [];
    var i := 0;
    while i < |texts|
      invariant 0 <= i
      invariant embeddings + EncodeAll(encode, Batches(texts[Min(i, |texts|)..])) == EncodeAll(encode, Batches(texts))
    {
      var batch := texts[i..Min(i + BatchSize, |texts|)];
      var rest := texts[Min(i + BatchSize, |texts|)..];
      assert Batches(texts[i..]) == [batch] + Batches(rest) by {
        if |texts| - i > BatchSize {
          assert texts[i..][..BatchSize] == batch;
          assert texts[i..][BatchSize..] == rest;
        } else {
          assert batch == texts[i..] && rest == [];
          assert Batches(rest) == [];
        }
      }
      embeddings := embeddings + encode(batch);
      i := i + BatchSize;
    }
  }

  /** Python's `zip(xs, ys)`: pairs up to the shorter of the two lists. */
  function Zip<A, B>(xs: seq<A>, ys: seq<B>): (r: seq<(A, B)>)
    ensures |r| == Min(|xs|, |ys|)
    ensures forall k :: 0 <= k < |r| ==> r[k] == (xs[k], ys[k])
  {
    seq(Min(|xs|, |ys|), k requires 0 <= k < Min(|xs|, |ys|) => (xs[k], ys[k]))
  }

  /** Every batch is non-empty and at most `BatchSize` long, there are
      ceil(n / 16) of them, and together they give back the texts. */
  lemma {:induction false} BatchesShape<T>(xs: seq<T>)
    ensures forall k :: 0 <= k < |Batches(xs)| ==> 0 < |Batches(xs)[k]| <= BatchSize
    ensures |Batches(xs)| == (|xs| + BatchSize - 1) / BatchSize
    ensures Flatten(Batches(xs)) == xs
    decreases |xs|
  {
    if |xs| > BatchSize {
      BatchesShape(xs[BatchSize..]);
      assert xs == xs[..BatchSize] + xs[BatchSize..];
    }
  }

  /** The k-th batch is the slice `xs[16k : 16k + 16]` that the loop takes. */
  lemma {:induction false} BatchAt<T>(xs: seq<T>, k: nat)
    requires k < |Batches(xs)|
    ensures k * BatchSize < |xs|
    ensures Batches(xs)[k] == xs[k * BatchSize..Min(k * BatchSize + BatchSize, |xs|)]
    decreases |xs|
  {
    if k > 0 {
      BatchAt(xs[BatchSize..], k - 1);
      assert xs[BatchSize..][(k - 1) * BatchSize..Min((k - 1) * BatchSize + BatchSize, |xs| - BatchSize)]
          == xs[k * BatchSize..Min(k * BatchSize + BatchSize, |xs|)];
    }
  }

  /** The encoder returns exactly one vector per text it is given. */
  ghost predicate OnePerInput<V>(encode: seq<string> -> seq<V>) {
    forall b :: |encode(b)| == |b|
  }

  /** The encoder treats every text on its own: its output for a batch is
      `embed` applied to each text of the batch. */
  ghost predicate PerText<V>(encode: seq<string> -> seq<V>, embed: string -> V) {
    forall b :: |encode(b)| == |b| && forall k :: 0 <= k < |b| ==> encode(b)[k] == embed(b[k])
  }

  /** With one vector per input, the accumulated list is as long as the texts
      and its i-th vector is the one the encoder returned for text i, found
      at position i mod 16 of batch i div 16. */
  lemma {:induction false} EncodedPositions<V>(encode: seq<string> -> seq<V>, xs: seq<string>, i: nat)
    requires OnePerInput(encode)
    requires i < |xs|
    ensures |EncodeAll(encode, Batches(xs))| == |xs|
    ensures i / BatchSize < |Batches(xs)| && i % BatchSize < |Batches(xs)[i / BatchSize]|
    ensures EncodeAll(encode, Batches(xs))[i] == encode(Batches(xs)[i / BatchSize])[i % BatchSize]
    decreases |xs|
  {
    if |xs| > BatchSize {
      var head := xs[..BatchSize];
      var tail := xs[BatchSize..];
      assert Batches(xs) == [head] + Batches(tail);
      assert EncodeAll(encode, Batches(xs)) == encode(head) + EncodeAll(encode, Batches(tail));
      if i < BatchSize {
        EncodedPositions(encode, tail, 0);
      } else {
        EncodedPositions(encode, tail, i - BatchSize);
        assert (i - BatchSize) / BatchSize == i / BatchSize - 1;
        assert (i - BatchSize) % BatchSize == i % BatchSize;
      }
    }
  }

  /** With an encoder that treats each text on its own, the i-th vector is
      the embedding of the i-th text, so the pairing of line 64 matches
      every text with its own vector, one to one. */
  lemma PairedWithOwnVector<V>(encode: seq<string> -> seq<V>, embed: string -> V, texts: seq<string>)
    requires PerText(encode, embed)
    ensures var pairs := Zip(texts, EncodeAll(encode, Batches(texts)));
      && |pairs| == |texts|
      && forall i :: 0 <= i < |texts| ==> pairs[i] == (texts[i], embed(texts[i]))
  {
    var vectors := EncodeAll(encode, Batches(texts));
    if |texts| > 0 {
      EmbeddedAt(encode, embed, texts, 0);
      forall i | 0 <= i < |texts| ensures vectors[i] == embed(texts[i]) {
        EmbeddedAt(encode, embed, texts, i);
      }
    }
  }

  /** One position of `PairedWithOwnVector`: the i-th vector is the embedding
      of the i-th text. */
  lemma EmbeddedAt<V>(encode: seq<string> -> seq<V>, embed: string -> V, texts: seq<string>, i: nat)
    requires PerText(encode, embed)
    requires i < |texts|
    ensures |EncodeAll(encode, Batches(texts))| == |texts|
    ensures EncodeAll(encode, Batches(texts))[i] == embed(texts[i])
  {
    assert OnePerInput(encode) by {
      forall b ensures |encode(b)| == |b| {
      }
    }
    var k, m := i / BatchSize, i % BatchSize;
    EncodedPositions(encode, texts, i);
    BatchAt(texts, k);
    var start := k * BatchSize;
    var batch := texts[start..Min(start + BatchSize, |texts|)];
    assert start + m == i;
    assert batch[m] == texts[i];
    assert encode(batch)[m] == embed(batch[m]);
  }
}
