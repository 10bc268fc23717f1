/** The arrays that flow from example encoding into batch collation. */
module Records {

  /** One field of an encoded example: a 0-d array (`seqlen`) or a 1-d
      array (`input_ids`, `attention_mask`, `labels`, ...). */
  datatype Value = Scalar(n: int) | Vector(v: seq<int>)

  /** An encoded example: field name to array. */
  type Record = map<string, Value>

  /** A field of a collated batch: the 1-d tensor stacked from scalars or
      the 2-d tensor stacked from equally long vectors. */
  datatype Tensor = Column(xs: seq<int>) | Matrix(rows: seq<seq<int>>)

  /** The largest element of a non-empty list. */
  function SeqMax(xs: seq<int>): (m: int)
    requires |xs| > 0
    ensures m in xs
    ensures forall j :: 0 <= j < |xs| ==> xs[j] <= m
  {
    if |xs| == 1 then xs[0]
    else
      var m' := SeqMax(xs[..|xs| - 1]);
      assert forall j :: 0 <= j < |xs| - 1 ==> xs[..|xs| - 1][j] == xs[j];
      if xs[|xs| - 1] > m' then xs[|xs| - 1] else m'
  }
}
