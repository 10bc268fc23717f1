/** The loops of `collate_fn` in both scripts, as they run: the batch
    gathered key by key, each list stacked, then `seqlen` popped and the
    sequence fields cut. Each method is proved to compute the function of
    module `Collate` that specifies it. */
module CollateFn {
  import opened Common
  import opened Records
  import opened Collate

  /** `o[k] = [b[k]] for k in b`, the first example (lines 121-123). */
  method FirstFields(b: Record) returns (o: map<string, seq<Value>>)
    ensures o.Keys == b.Keys && forall k :: k in b ==> o[k] == [b[k]]
  {
    o := map[];
    var ks := b.Keys;
    while ks != {}
      invariant ks <= b.Keys
      invariant o.Keys == b.Keys - ks
      invariant forall k :: k in o ==> o[k] == [b[k]]
      decreases ks
    {
      var k :| k in ks;
      o := o[k := [b[k]]];
      ks := ks - {k};
    }
  }

  /** `o[k].append(b[k]) for k in b`, a later example (lines 125-126): a key
      the first example lacked raises `KeyError`. */
  method AppendFields(o: map<string, seq<Value>>, b: Record) returns (r: Result<map<string, seq<Value>>>)
    ensures r.Err? <==> !(b.Keys <= o.Keys)
    ensures r.Ok? ==>
      && r.value.Keys == o.Keys
      && forall k :: k in o ==> r.value[k] == o[k] + (if k in b then [b[k]] else [])
  {
    var o' := o;
    var ks := b.Keys;
    while ks != {}
      invariant ks <= b.Keys
      invariant b.Keys - ks <= o.Keys
      invariant o'.Keys == o.Keys
      invariant forall k :: k in o' ==> o'[k] == o[k] + (if k in b.Keys - ks then [b[k]] else [])
      decreases ks
    {
      var k :| k in ks;
      if k !in o' {
        return Err(KeyError);
      }
      o' := o'[k := o'[k] + [b[k]]];
      ks := ks - {k};
    }
    r := Ok(o');
  }

  /** The loop over the batch (lines 120-126). */
  method GatherBatch(batch: seq<Record>) returns (r: Result<map<string, seq<Value>>>)
    ensures r == Gathered(batch)
  {
    if |batch| == 0 {
      return Ok(map[]);
    }
    var o := FirstFields(batch[0]);
    assert batch[..1] == [batch[0]];
    var i := 1;
    while i < |batch|
      invariant 1 <= i <= |batch|
      invariant KeysCovered(batch[..i])
      invariant o.Keys == batch[0].Keys
      invariant forall k :: k in o ==> o[k] == FieldList(batch[..i], k)
    {
      var next := AppendFields(o, batch[i]);
      if next.Err? {
        assert !KeysCovered(batch) by {
          var k :| k in batch[i] && k !in o;
        }
        return Err(KeyError);
      }
      GatherStep(batch, i, o, next.value);
      o := next.value;
      i := i + 1;
    }
    assert batch[..i] == batch;
    var g := Gathered(batch);
    assert g.Ok? && g.value.Keys == o.Keys;
    assert forall k :: k in o ==> o[k] == g.value[k];
    assert o == g.value;
    r := Ok(o);
  }

  /** One more example appended to every list keeps the lists equal to the
      fields of the examples seen so far. */
  lemma GatherStep(batch: seq<Record>, i: nat, o: map<string, seq<Value>>, o': map<string, seq<Value>>)
    requires 1 <= i < |batch| && KeysCovered(batch[..i])
    requires o.Keys == batch[0].Keys && batch[i].Keys <= o.Keys
    requires forall k :: k in o ==> o[k] == FieldList(batch[..i], k)
    requires o'.Keys == o.Keys
    requires forall k :: k in o ==> o'[k] == o[k] + (if k in batch[i] then [batch[i][k]] else [])
    ensures KeysCovered(batch[..i + 1])
    ensures forall k :: k in o' ==> o'[k] == FieldList(batch[..i + 1], k)
  {
    assert batch[..i + 1][..i] == batch[..i];
  }

  /** `o[k] = torch.stack(o[k]) for k in o` (lines 127-128). */
  method StackFields(o: map<string, seq<Value>>) returns (r: Result<map<string, Tensor>>)
    ensures r == StackAll(o)
  {
    var t: map<string, Tensor> := map[];
    var ks := o.Keys;
    while ks != {}
      invariant ks <= o.Keys
      invariant t.Keys == o.Keys - ks
      invariant forall k :: k in t ==> Stack(o[k]) == Ok(t[k])
      decreases ks
    {
      var k :| k in ks;
      var s := Stack(o[k]);
      if s.Err? {
        assert !(forall k :: k in o ==> Stack(o[k]).Ok?);
        return Err(s.error);
      }
      t := t[k := s.value];
      ks := ks - {k};
    }
    assert t == map k | k in o :: Stack(o[k]).value;
    r := Ok(t);
  }

  /** `collate_fn` of the classification script (lines 118-134): `seqlen`
      is removed, `input_ids`, `attention_mask` and a present
      `token_type_ids` are cut to the longest `seqlen`, every other field
      (`labels`) is stacked and left whole. */
  method CollateClassify(batch: seq<Record>) returns (r: Result<map<string, Tensor>>)
    ensures r == Collated(batch, ClassifyCuts)
  {
    var stacked :- StackBatchFields(batch);
    r := CutClassify(stacked);
  }

  /** Lines 129-133 of the classification script. */
  method CutClassify(stacked: map<string, Tensor>) returns (r: Result<map<string, Tensor>>)
    ensures r == CutStacked(stacked, ClassifyCuts)
  {
    if "seqlen" !in stacked {
      return Err(KeyError);
    }
    var m :- MaxOf(stacked["seqlen"]);
    var o := stacked - {"seqlen"};
    var cuts := ClassifyCuts;
    o :- CutNext(o, m, cuts);
    cuts := cuts[1..];
    o :- CutNext(o, m, cuts);
    cuts := cuts[1..];
    o :- CutNext(o, m, cuts);
    cuts := cuts[1..];
    assert cuts == [];
    r := Ok(o);
  }

  /** `collate_fn` of the MLM script (lines 98-118): as for classification,
      and `labels` and `weight` are cut too. */
  method CollateMlm(batch: seq<Record>) returns (r: Result<map<string, Tensor>>)
    ensures r == Collated(batch, MlmCuts)
  {
    var stacked :- StackBatchFields(batch);
    r := CutMlm(stacked);
  }

  /** Lines 108-117 of the MLM script. */
  method CutMlm(stacked: map<string, Tensor>) returns (r: Result<map<string, Tensor>>)
    ensures r == CutStacked(stacked, MlmCuts)
  {
    if "seqlen" !in stacked {
      return Err(KeyError);
    }
    var m :- MaxOf(stacked["seqlen"]);
    var o := stacked - {"seqlen"};
    var cuts := MlmCuts;
    o :- CutNext(o, m, cuts);
    cuts := cuts[1..];
    o :- CutNext(o, m, cuts);
    cuts := cuts[1..];
    o :- CutNext(o, m, cuts);
    cuts := cuts[1..];
    o :- CutNext(o, m, cuts);
    cuts := cuts[1..];
    o :- CutNext(o, m, cuts);
    cuts := cuts[1..];
    assert cuts == [];
    r := Ok(o);
  }

  /** One statement `o[key] = o[key][:, :m]` of either script, skipped
      when the field is optional and absent. */
  method CutNext(o: map<string, Tensor>, m: int, cuts: seq<Cut>) returns (r: Result<map<string, Tensor>>)
    requires DistinctKeys(cuts) && |cuts| > 0
    ensures DistinctKeys(cuts[1..])
    ensures ApplyCuts(o, m, cuts) == if r.Ok? then ApplyCuts(r.value, m, cuts[1..]) else Err(r.error)
  {
    ApplyCutsStep(o, m, cuts);
    var c := cuts[0];
    if c.key !in o && c.optional {
      return Ok(o);
    }
    r := CutField(o, c.key, m);
  }

  /** The two stacking loops together. */
  method StackBatchFields(batch: seq<Record>) returns (r: Result<map<string, Tensor>>)
    ensures r == Stacked(batch)
  {
    var o :- GatherBatch(batch);
    r := StackFields(o);
  }
}
