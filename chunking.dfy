/** Document chunking of the MLM script (`NN_DataHelper.on_data_process` of
    the pretraining script): the documents are joined into one text, the
    text is cut into consecutive pieces of `max_seq_length - 2` characters,
    and each piece becomes one training sample. */
module Chunking {
  import opened Common

  /** The pieces the `while` loop cuts `s` into, `width` characters at a
      time; the last piece holds what is left. */
  function Chunks(s: string, width: int): seq<string>
    requires width > 0 || |s| == 0
    decreases |s|
  {
    if |s| == 0 then []
    else
      var n := Min(width, |s|);
      [s[..n]] + Chunks(s[n..], width)
  }

  /** The pieces join back to the text. */
  lemma {:induction false} ChunksConcat(s: string, width: int)
    requires width > 0 || |s| == 0
    ensures Concat(Chunks(s, width)) == s
    decreases |s|
  {
    if |s| > 0 {
      var n := Min(width, |s|);
      ChunksConcat(s[n..], width);
      ConcatPrepend(s[..n], Chunks(s[n..], width));
      assert s[..n] + s[n..] == s;
    }
  }

  /** Every piece is non-empty and at most `width` long, and every piece
      but the last is exactly `width` long. */
  lemma {:induction false} ChunksLengths(s: string, width: int)
    requires width > 0 || |s| == 0
    ensures forall i :: 0 <= i < |Chunks(s, width)| ==> 0 < |Chunks(s, width)[i]| <= width
    ensures forall i :: 0 <= i < |Chunks(s, width)| - 1 ==> |Chunks(s, width)[i]| == width
    decreases |s|
  {
    if |s| > 0 {
      var n := Min(width, |s|);
      var rest := Chunks(s[n..], width);
      ChunksLengths(s[n..], width);
      var r := [s[..n]] + rest;
      assert Chunks(s, width) == r;
      forall i | 0 <= i < |r|
        ensures 0 < |r[i]| <= width
        ensures i < |r| - 1 ==> |r[i]| == width
      {
        if i > 0 {
          assert r[i] == rest[i - 1];
        } else if |r| > 1 {
          assert |s[n..]| > 0;
        }
      }
    }
  }

  /** There are as many pieces as `width`-long runs needed to cover the
      text: `ceil(|s| / width)`. */
  lemma {:induction false} ChunksCount(s: string, width: int)
    requires width > 0
    ensures |s| <= |Chunks(s, width)| * width < |s| + width
    decreases |s|
  {
    if |s| > 0 {
      var n := Min(width, |s|);
      var k := |Chunks(s[n..], width)|;
      ChunksCount(s[n..], width);
      assert (1 + k) * width == width + k * width;
    }
  }

  /** `s[pos:pos + max_seq_length - 2]` followed by `pos += len(text)`. */
  function Advance(s: string, pos: int, maxSeqLength: int): int
  {
    pos + |Slice(s, pos, pos + maxSeqLength - 2)|
  }

  /** With `max_seq_length <= 2` the position never reaches the end of a
      non-empty text: the slice is empty, or (for a negative stop, counted
      from the end) stops short of the end. The loop then never ends, so
      `ChunkText` asks for `max_seq_length > 2` unless the text is empty. */
  lemma NoProgress(s: string, pos: int, maxSeqLength: int)
    requires maxSeqLength <= 2 && 0 <= pos < |s|
    ensures pos <= Advance(s, pos, maxSeqLength) < |s|
  {
  }

  /** `Advance` applied `k` times from position 0. */
  function AdvanceN(s: string, k: nat, maxSeqLength: int): int
  {
    if k == 0 then 0 else Advance(s, AdvanceN(s, k - 1, maxSeqLength), maxSeqLength)
  }

  /** However many rounds run, a non-empty text is never used up when
      `max_seq_length <= 2`. */
  lemma {:induction false} NeverEnds(s: string, k: nat, maxSeqLength: int)
    requires maxSeqLength <= 2 && |s| > 0
    ensures 0 <= AdvanceN(s, k, maxSeqLength) < |s|
  {
    if k > 0 {
      NeverEnds(s, k - 1, maxSeqLength);
      NoProgress(s, AdvanceN(s, k - 1, maxSeqLength), maxSeqLength);
    }
  }

  /** One round of the loop cuts off the first piece of what is left. */
  lemma ChunkStep(s: string, pos: nat, width: int)
    requires pos < |s| && width > 0
    ensures var text := Slice(s, pos, pos + width);
      && 0 < |text| && pos + |text| <= |s|
      && Chunks(s[pos..], width) == [text] + Chunks(s[pos + |text|..], width)
  {
    var n := Min(width, |s| - pos);
    assert Slice(s, pos, pos + width) == s[pos..pos + n] == s[pos..][..n];
    assert s[pos..][n..] == s[pos + n..];
  }

  /** The `while` loop of lines 61-64. */
  method ChunkText(s: string, maxSeqLength: int) returns (texts: seq<string>)
    requires maxSeqLength > 2 || |s| == 0
    ensures texts == Chunks(s, maxSeqLength - 2)
  {
    texts := [];
    var pos := 0;
    while pos < |s|
      invariant 0 <= pos <= |s|
      invariant texts + Chunks(s[pos..], maxSeqLength - 2) == Chunks(s, maxSeqLength - 2)
      decreases |s| - pos
    {
      var text := Slice(s, pos, pos + maxSeqLength - 2);
      ChunkStep(s, pos, maxSeqLength - 2);
      assert texts + Chunks(s[pos..], maxSeqLength - 2) == (texts + [text]) + Chunks(s[pos + |text|..], maxSeqLength - 2);
      pos := pos + |text|;
      texts := texts + [text];
    }
    assert s[pos..] == [];
    assert texts + [] == texts;
  }

  /** `on_data_process` (lines 52-70): one node per piece, in piece order.
      `makeSample(i, text)` stands for `make_mlm_wwm_sample` on the `i`-th
      piece, whose result also depends on how far the random generator has
      advanced. */
  method OnDataProcess<N>(documents: seq<string>, maxSeqLength: int, makeSample: (nat, string) -> N)
    returns (nodes: seq<N>)
    requires maxSeqLength > 2 || |Concat(documents)| == 0
    ensures var texts := Chunks(Concat(documents), maxSeqLength - 2);
      |nodes| == |texts| && forall i :: 0 <= i < |texts| ==> nodes[i] == makeSample(i, texts[i])
  {
    var text := Concat(documents);
    var texts := ChunkText(text, maxSeqLength);
    nodes := [];
    for i := 0 to |texts|
      invariant |nodes| == i
      invariant forall j :: 0 <= j < i ==> nodes[j] == makeSample(j, texts[j])
    {
      nodes := nodes + [makeSample(i, texts[i])];
    }
  }

  /** What the nodes are made of: the pieces join back to the joined
      documents, an empty text gives no node, and otherwise every piece is
      non-empty, at most `max_seq_length - 2` long, and exactly that long
      unless it is the last. */
  lemma ChunkedDocuments(documents: seq<string>, maxSeqLength: int)
    requires maxSeqLength > 2 || |Concat(documents)| == 0
    ensures var texts := Chunks(Concat(documents), maxSeqLength - 2);
      && Concat(texts) == Concat(documents)
      && (|Concat(documents)| == 0 <==> texts == [])
      && (forall i :: 0 <= i < |texts| ==> 0 < |texts[i]| <= maxSeqLength - 2)
      && (forall i :: 0 <= i < |texts| - 1 ==> |texts[i]| == maxSeqLength - 2)
  {
    ChunksConcat(Concat(documents), maxSeqLength - 2);
    ChunksLengths(Concat(documents), maxSeqLength - 2);
  }
}
