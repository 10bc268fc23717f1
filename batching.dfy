/** Encoding followed by collation in the classification script: every
    example is padded to `max_seq_length`, and `collate_fn` then cuts every
    row back to the longest `seqlen` of the batch. */
module Batching {
  import opened Common
  import opened Records
  import opened Encoding

  /** The `seqlen` of every example. */
  function Lengths(toks: seq<Tokenized>): (r: seq<int>)
    ensures |r| == |toks| && forall i :: 0 <= i < |toks| ==> r[i] == |toks[i].inputIds|
  {
    seq(|toks|, i requires 0 <= i < |toks| => |toks[i].inputIds|)
  }

  /** The largest `seqlen` of a non-empty batch, the width `collate_fn`
      cuts to: the length of its longest token list. */
  function Longest(toks: seq<Tokenized>): (m: nat)
    requires |toks| > 0
    ensures forall i :: 0 <= i < |toks| ==> |toks[i].inputIds| <= m
    ensures exists i :: 0 <= i < |toks| && |toks[i].inputIds| == m
  {
    var xs := Lengths(toks);
    var i :| 0 <= i < |xs| && xs[i] == SeqMax(xs);
    SeqMax(xs)
  }

  /** The fields `on_data_process` gives one example whose token list is
      no longer than `max_seq_length`: both lists padded to exactly
      `max_seq_length`. */
  lemma EncodedFields(tok: Tokenized, labelStr: Option<string>, label2id: map<string, int>,
                      maxSeqLength: int, padId: int, rec: Record)
    requires |tok.attentionMask| == |tok.inputIds| <= maxSeqLength
    requires EncodeExample(tok, labelStr, label2id, maxSeqLength, padId) == Ok(rec)
    ensures rec.Keys == {"input_ids", "attention_mask", "labels", "seqlen"}
    ensures rec["seqlen"] == Scalar(|tok.inputIds|)
    ensures rec["input_ids"] == Vector(PadRight(tok.inputIds, maxSeqLength - |tok.inputIds|, padId))
    ensures rec["attention_mask"] == Vector(PadRight(tok.attentionMask, maxSeqLength - |tok.inputIds|, 0))
    ensures rec["labels"] == Vector([LabelId(labelStr, label2id).value])
  {
    if |tok.inputIds| == maxSeqLength {
      assert PadRight(tok.inputIds, 0, padId) == tok.inputIds;
      assert PadRight(tok.attentionMask, 0, 0) == tok.attentionMask;
    }
  }

  /** Cutting a padded list inside its padding gives a shorter padding. */
  lemma PadPrefix(s: seq<int>, n: nat, k: nat, value: int)
    requires k <= n
    ensures Take(PadRight(s, n, value), |s| + k) == PadRight(s, k, value)
  {
    assert PadRight(s, n, value)[..|s| + k] == PadRight(s, k, value);
  }

  /** One example of a batch, encoded then cut to `m` columns (any width
      between its own length and `max_seq_length`, such as the longest
      `seqlen` of the batch): its token list followed by pad ids, and its
      mask followed by zeros, both exactly `m` long. */
  lemma TrimEncoded(tok: Tokenized, labelStr: Option<string>, label2id: map<string, int>,
                    maxSeqLength: int, padId: int, rec: Record, m: int)
    requires |tok.attentionMask| == |tok.inputIds| <= m <= maxSeqLength
    requires EncodeExample(tok, labelStr, label2id, maxSeqLength, padId) == Ok(rec)
    ensures rec["input_ids"].Vector? && rec["attention_mask"].Vector?
    ensures Take(rec["input_ids"].v, m) == PadRight(tok.inputIds, m - |tok.inputIds|, padId)
    ensures Take(rec["attention_mask"].v, m) == PadRight(tok.attentionMask, m - |tok.inputIds|, 0)
    ensures |Take(rec["input_ids"].v, m)| == m
  {
    EncodedFields(tok, labelStr, label2id, maxSeqLength, padId, rec);
    var n := |tok.inputIds|;
    PadPrefix(tok.inputIds, maxSeqLength - n, m - n, padId);
    PadPrefix(tok.attentionMask, maxSeqLength - n, m - n, 0);
  }
}
