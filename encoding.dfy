/** Fixed-length encoding of one classification example
    (`NN_DataHelper.on_data_process` of the sentence-vector script). The
    tokenizer is outside the model: its output is given. */
module Encoding {
  import opened Common
  import opened Records

  /** What the tokenizer returns for one sentence, already truncated to
      `max_seq_length`. */
  datatype Tokenized = Tokenized(inputIds: seq<int>, attentionMask: seq<int>)

  /** `np.pad(s, (0, n), 'constant', constant_values=value)`. */
  function PadRight(s: seq<int>, n: nat, value: int): (r: seq<int>)
    ensures |r| == |s| + n
    ensures r[..|s|] == s
    ensures forall j :: |s| <= j < |r| ==> r[j] == value
  {
    s + seq(n, _ => value)
  }

  /** The label id stored for an example: 0 when the example has no label,
      a `KeyError` when its label is not in `label2id`. */
  function LabelId(labelStr: Option<string>, label2id: map<string, int>): (r: Result<int>)
    ensures r.Err? <==> labelStr.Some? && labelStr.value !in label2id
    ensures r.Err? ==> r.error == KeyError
    ensures labelStr.None? ==> r == Ok(0)
    ensures labelStr.Some? && labelStr.value in label2id ==> r == Ok(label2id[labelStr.value])
  {
    match labelStr
    case None => Ok(0)
    case Some(l) => if l in label2id then Ok(label2id[l]) else Err(KeyError)
  }

  /** The record `on_data_process` returns (lines 58-80). */
  function EncodeExample(tok: Tokenized, labelStr: Option<string>, label2id: map<string, int>,
                         maxSeqLength: int, padId: int): (r: Result<Record>)
    ensures r.Err? <==> labelStr.Some? && labelStr.value !in label2id
    ensures r.Ok? ==>
      var n := |tok.inputIds|;
      && r.value.Keys == {"input_ids", "attention_mask", "labels", "seqlen"}
      && r.value["seqlen"] == Scalar(n)
      && r.value["labels"] == Vector([LabelId(labelStr, label2id).value])
      && r.value["input_ids"].Vector? && r.value["attention_mask"].Vector?
      && var ids, mask := r.value["input_ids"].v, r.value["attention_mask"].v;
         && n <= |ids| && ids[..n] == tok.inputIds
         && |tok.attentionMask| <= |mask| && mask[..|tok.attentionMask|] == tok.attentionMask
         && (n < maxSeqLength ==>
               && |ids| == maxSeqLength
               && (forall j :: n <= j < |ids| ==> ids[j] == padId)
               && |mask| == |tok.attentionMask| + (maxSeqLength - n)
               && (forall j :: |tok.attentionMask| <= j < |mask| ==> mask[j] == 0))
         && (n >= maxSeqLength ==> ids == tok.inputIds && mask == tok.attentionMask)
  {
    var labelId :- LabelId(labelStr, label2id);
    var padLen := maxSeqLength - |tok.inputIds|;
    var ids := if padLen > 0 then PadRight(tok.inputIds, padLen, padId) else tok.inputIds;
    var mask := if padLen > 0 then PadRight(tok.attentionMask, padLen, 0) else tok.attentionMask;
    Ok(map["input_ids" := Vector(ids), "attention_mask" := Vector(mask),
           "labels" := Vector([labelId]), "seqlen" := Scalar(|tok.inputIds|)])
  }
}
