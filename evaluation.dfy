/** The bookkeeping of `MySimpleModelCheckpoint.on_save_model` in the
    sentence-vector script: evaluation pairs cached as a flat record stream
    and read back two at a time, the pair columns and their 1/0 labels, the
    embeddings split back into the two columns, and the best-score rule that
    decides when a checkpoint is saved. The record files, the model and the
    correlation are outside the model. */
module Evaluation {
  import opened Common

  /** The records of a cache file, as `NumpyWriter` receives them. */
  class RecordWriter<E> {
    var records: seq<E>

    constructor()
      ensures records == []
    {
      records := [];
    }

    /** `f_out.write(x)` */
    method Write(x: E)
      modifies this
      ensures records == old(records) + [x]
    {
      records := records + [x];
    }
  }

  /** The record stream a list of pairs is written as: `pair[0]`, then
      `pair[1]`, pair after pair. */
  function Flatten<E>(pairs: seq<(E, E)>): (r: seq<E>)
    ensures |r| == 2 * |pairs|
  {
    if |pairs| == 0 then [] else Flatten(pairs[..|pairs| - 1]) + [pairs[|pairs| - 1].0, pairs[|pairs| - 1].1]
  }

  /** Pair `j` sits at positions `2j` and `2j + 1` of the stream. */
  lemma {:induction false} FlattenAt<E>(pairs: seq<(E, E)>)
    ensures forall j :: 0 <= j < |pairs| ==> Flatten(pairs)[2 * j] == pairs[j].0 && Flatten(pairs)[2 * j + 1] == pairs[j].1
  {
    if |pairs| > 0 {
      var init := pairs[..|pairs| - 1];
      FlattenAt(init);
      forall j | 0 <= j < |pairs|
        ensures Flatten(pairs)[2 * j] == pairs[j].0 && Flatten(pairs)[2 * j + 1] == pairs[j].1
      {
        if j < |pairs| - 1 {
          assert init[j] == pairs[j];
        }
      }
    }
  }

  /** The loops of lines 280-290: every pair written, first element first. */
  method WritePairs<E>(w: RecordWriter<E>, pairs: seq<(E, E)>)
    modifies w
    ensures w.records == old(w.records) + Flatten(pairs)
  {
    for i := 0 to |pairs|
      invariant w.records == old(w.records) + Flatten(pairs[..i])
    {
      assert pairs[..i + 1][..i] == pairs[..i];
      w.Write(pairs[i].0);
      w.Write(pairs[i].1);
    }
    assert pairs[..|pairs|] == pairs;
  }

  /** `[(d[i], d[i + 1]) for i in range(0, len(d), 2)]` (lines 267-268): an
      odd-length stream raises `IndexError` at its last record. */
  function ReadPairs<E>(d: seq<E>): (r: Result<seq<(E, E)>>)
    ensures r.Ok? <==> |d| % 2 == 0
    ensures r.Err? ==> r.error == IndexError
    ensures r.Ok? ==> |r.value| == |d| / 2
    ensures r.Ok? ==> forall j :: 0 <= j < |d| / 2 ==> r.value[j] == (d[2 * j], d[2 * j + 1])
  {
    if |d| % 2 == 1 then Err(IndexError)
    else Ok(seq(|d| / 2, j requires 0 <= j < |d| / 2 => (d[2 * j], d[2 * j + 1])))
  }

  /** Written pairs read back are the pairs. */
  lemma WriteRead<E>(pairs: seq<(E, E)>)
    ensures ReadPairs(Flatten(pairs)) == Ok(pairs)
  {
    FlattenAt(pairs);
    var f := Flatten(pairs);
    assert |f| / 2 == |pairs|;
    var r := ReadPairs(f).value;
    forall j | 0 <= j < |pairs|
      ensures r[j] == pairs[j]
    {
      assert r[j] == (f[2 * j], f[2 * j + 1]);
    }
    assert r == pairs;
  }

  /** A stream read back as pairs and written again is the stream. */
  lemma ReadWrite<E>(d: seq<E>)
    requires |d| % 2 == 0
    ensures Flatten(ReadPairs(d).value) == d
  {
    var pairs := ReadPairs(d).value;
    FlattenAt(pairs);
    var f := Flatten(pairs);
    forall k | 0 <= k < |d|
      ensures f[k] == d[k]
    {
      var j := k / 2;
      assert j < |pairs|;
      assert pairs[j] == (d[2 * j], d[2 * j + 1]);
      if k % 2 == 0 {
        assert k == 2 * j;
      } else {
        assert k == 2 * j + 1;
      }
    }
    assert f == d;
  }

  /** The evaluation set of lines 292-295: the first and second elements of
      the positive then the negative pairs, one label per pair (1 for a
      positive, 0 for a negative), and both columns in one list. */
  datatype EvalSet<E> = EvalSet(a: seq<E>, b: seq<E>, labels: seq<int>, t: seq<E>)

  function Firsts<E>(pairs: seq<(E, E)>): (r: seq<E>)
    ensures |r| == |pairs| && forall j :: 0 <= j < |pairs| ==> r[j] == pairs[j].0
  {
    seq(|pairs|, j requires 0 <= j < |pairs| => pairs[j].0)
  }

  function Seconds<E>(pairs: seq<(E, E)>): (r: seq<E>)
    ensures |r| == |pairs| && forall j :: 0 <= j < |pairs| ==> r[j] == pairs[j].1
  {
    seq(|pairs|, j requires 0 <= j < |pairs| => pairs[j].1)
  }

  function MakeEvalSet<E>(pos: seq<(E, E)>, neg: seq<(E, E)>): EvalSet<E>
  {
    var a := Firsts(pos + neg);
    var b := Seconds(pos + neg);
    EvalSet(a, b, seq(|pos|, _ => 1) + seq(|neg|, _ => 0), a + b)
  }

  /** Row `j` of the evaluation set is pair `j` of the positives followed by
      the negatives, labelled 1 exactly when it is a positive; the list
      given to the model holds the first column then the second. */
  lemma EvalSetAligned<E>(pos: seq<(E, E)>, neg: seq<(E, E)>)
    ensures var e := MakeEvalSet(pos, neg);
      && |e.a| == |e.b| == |e.labels| == |pos| + |neg|
      && (forall j :: 0 <= j < |pos| ==> (e.a[j], e.b[j]) == pos[j] && e.labels[j] == 1)
      && (forall j :: |pos| <= j < |pos| + |neg| ==> (e.a[j], e.b[j]) == neg[j - |pos|] && e.labels[j] == 0)
      && e.t[..|e.a|] == e.a && e.t[|e.a|..] == e.b
  {
    var e := MakeEvalSet(pos, neg);
    assert forall j :: 0 <= j < |pos| ==> (pos + neg)[j] == pos[j];
    assert forall j :: |pos| <= j < |pos| + |neg| ==> (pos + neg)[j] == neg[j - |pos|];
  }

  /** The batch loop of lines 297-305: the model's output row for every
      element of `t`, batch after batch, in order. `embed` stands for the
      row the model gives an element; it does not depend on the other
      elements of its batch. */
  method Embed<E, V>(t: seq<E>, batchSize: nat, embed: E -> V) returns (vecs: seq<V>)
    requires batchSize > 0
    ensures |vecs| == |t| && forall k :: 0 <= k < |t| ==> vecs[k] == embed(t[k])
  {
    vecs := [];
    var start := 0;
    while start < |t|
      invariant 0 <= start <= |t| && |vecs| == start
      invariant forall k :: 0 <= k < start ==> vecs[k] == embed(t[k])
      decreases |t| - start
    {
      var stop := if start + batchSize < |t| then start + batchSize else |t|;
      var batch := t[start..stop];
      for j := 0 to |batch|
        invariant |vecs| == start + j
        invariant forall k :: 0 <= k < start + j ==> vecs[k] == embed(t[k])
      {
        vecs := vecs + [embed(batch[j])];
      }
      start := stop;
    }
  }

  /** Lines 307-308: the first `len(a_data)` rows are the first column's,
      the rest the second's, so row `j` of each lines up with pair `j`. */
  lemma SplitVectors<E, V>(pos: seq<(E, E)>, neg: seq<(E, E)>, vecs: seq<V>, embed: E -> V)
    requires var e := MakeEvalSet(pos, neg);
      |vecs| == |e.t| && forall k :: 0 <= k < |e.t| ==> vecs[k] == embed(e.t[k])
    ensures var e := MakeEvalSet(pos, neg);
      var aVecs, bVecs := vecs[..|e.a|], vecs[|e.a|..];
      && |aVecs| == |bVecs| == |e.labels|
      && forall j :: 0 <= j < |e.a| ==> aVecs[j] == embed(e.a[j]) && bVecs[j] == embed(e.b[j])
  {
    var e := MakeEvalSet(pos, neg);
    EvalSetAligned(pos, neg);
    forall j | 0 <= j < |e.a|
      ensures vecs[j] == embed(e.a[j]) && vecs[|e.a|..][j] == embed(e.b[j])
    {
      assert e.t[j] == e.a[j];
      assert e.t[|e.a| + j] == e.b[j];
    }
  }

  /** A correlation as the evaluation returns it: `spearmanr` gives NaN
      when a column is constant. */
  datatype Score = NaN | Num(x: real)

  /** `best.get('f1', -inf)`: `None` is minus infinity. */
  function Beats(f: Score, best: Option<real>): bool
  {
    match f
    case NaN => false
    case Num(x) => best.None? || x >= best.value
  }

  /** The best of a run of scores under the rule of lines 311-317. */
  function BestOf(scores: seq<Score>): Option<real>
  {
    if |scores| == 0 then None
    else
      var prev := BestOf(scores[..|scores| - 1]);
      var f := scores[|scores| - 1];
      if Beats(f, prev) then Some(f.x) else prev
  }

  /** The rule keeps the maximum: the best is one of the numeric scores and
      no numeric score exceeds it; with no numeric score it stays minus
      infinity. */
  lemma {:induction false} BestIsMax(scores: seq<Score>)
    ensures BestOf(scores).None? <==> forall i :: 0 <= i < |scores| ==> scores[i].NaN?
    ensures BestOf(scores).Some? ==>
      && (exists i :: 0 <= i < |scores| && scores[i] == Num(BestOf(scores).value))
      && (forall i :: 0 <= i < |scores| && scores[i].Num? ==> scores[i].x <= BestOf(scores).value)
  {
    if |scores| > 0 {
      var init := scores[..|scores| - 1];
      BestIsMax(init);
      assert forall i :: 0 <= i < |init| ==> init[i] == scores[i];
      if BestOf(init).Some? && !Beats(scores[|scores| - 1], BestOf(init)) {
        var i :| 0 <= i < |init| && init[i] == Num(BestOf(init).value);
        assert scores[i] == Num(BestOf(scores).value);
      }
    }
  }

  /** The callback's state across evaluations: `self.best['f1']` and the
      scores at which `trainer.save_checkpoint` ran. */
  class BestCheckpoint {
    var best: Option<real>
    var saved: seq<real>
    ghost var scores: seq<Score>

    ghost predicate Valid()
      reads this
    {
      && best == BestOf(scores)
      && (best.None? <==> saved == [])
      && (best.Some? ==> saved[|saved| - 1] == best.value)
      && forall i, j :: 0 <= i < j < |saved| ==> saved[i] <= saved[j]
    }

    /** `MySimpleModelCheckpoint.__init__` (lines 248-250): no best score yet. */
    constructor()
      ensures Valid() && scores == [] && saved == []
    {
      best := None;
      saved := [];
      scores := [];
    }

    /** Lines 311-317: with a new score `f`, save and record it iff it is a
      number at least as large as the best so far. */
    method OnScore(f: Score) returns (save: bool)
      requires Valid()
      modifies this
      ensures Valid()
      ensures scores == old(scores) + [f]
      ensures save <==> Beats(f, old(best))
      ensures saved == old(saved) + (if save then [f.x] else [])
      ensures best == (if save then Some(f.x) else old(best))
    {
      assert (scores + [f])[..|scores|] == scores;
      save := Beats(f, best);
      if save {
        best := Some(f.x);
        saved := saved + [f.x];
      }
      scores := scores + [f];
    }
  }
}
