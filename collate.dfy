/** Batch collation (`collate_fn` of both scripts): stack the examples field
    by field, drop `seqlen`, and cut the sequence-shaped fields to the
    longest `seqlen` of the batch. */
module Collate {
  import opened Common
  import opened Records

  /** `o[k]` after the first loop: field `k` of every example that has it,
      in batch order. */
  function FieldList(batch: seq<Record>, k: string): seq<Value>
  {
    if |batch| == 0 then []
    else
      var last := batch[|batch| - 1];
      FieldList(batch[..|batch| - 1], k) + (if k in last then [last[k]] else [])
  }

  /** Every later example has only keys of the first one; otherwise
      `o[k].append` raises `KeyError`. */
  predicate KeysCovered(batch: seq<Record>)
  {
    forall i :: 0 < i < |batch| ==> batch[i].Keys <= batch[0].Keys
  }

  /** The dictionary of lists built by the loop of lines 120-126. */
  function Gathered(batch: seq<Record>): (r: Result<map<string, seq<Value>>>)
    ensures r.Err? <==> !KeysCovered(batch)
    ensures r.Ok? && |batch| > 0 ==>
      r.value.Keys == batch[0].Keys && forall k :: k in r.value ==> r.value[k] == FieldList(batch, k)
  {
    if |batch| == 0 then Ok(map[])
    else if !KeysCovered(batch) then Err(KeyError)
    else Ok(map k | k in batch[0] :: FieldList(batch, k))
  }

  /** `torch.stack`: scalars give a column, equally long vectors a matrix,
      anything else (or nothing) is refused. */
  function Stack(vals: seq<Value>): (r: Result<Tensor>)
    ensures r.Err? ==> r.error == ShapeError
    ensures r.Ok? ==> |vals| > 0
    ensures r.Ok? && r.value.Column? ==>
      |r.value.xs| == |vals| && forall j :: 0 <= j < |vals| ==> vals[j] == Scalar(r.value.xs[j])
    ensures r.Ok? && r.value.Matrix? ==>
      |r.value.rows| == |vals| && forall j :: 0 <= j < |vals| ==> vals[j] == Vector(r.value.rows[j])
  {
    if |vals| == 0 then Err(ShapeError)
    else if forall j :: 0 <= j < |vals| ==> vals[j].Scalar? then
      Ok(Column(seq(|vals|, j requires 0 <= j < |vals| => vals[j].n)))
    else if vals[0].Vector? && forall j :: 0 <= j < |vals| ==> vals[j].Vector? && |vals[j].v| == |vals[0].v| then
      Ok(Matrix(seq(|vals|, j requires 0 <= j < |vals| => vals[j].v)))
    else Err(ShapeError)
  }

  /** The loop of lines 127-128: every list stacked, or the stacking error. */
  function StackAll(o: map<string, seq<Value>>): (r: Result<map<string, Tensor>>)
    ensures r.Ok? ==> r.value.Keys == o.Keys && forall k :: k in o ==> Stack(o[k]) == Ok(r.value[k])
    ensures r.Err? ==> exists k :: k in o && Stack(o[k]).Err?
  {
    if forall k :: k in o ==> Stack(o[k]).Ok? then Ok(map k | k in o :: Stack(o[k]).value)
    else Err(ShapeError)
  }

  /** `torch.max` of a tensor: its largest element. */
  function MaxOf(t: Tensor): (r: Result<int>)
    ensures t.Column? && |t.xs| > 0 ==> r.Ok? && r.value in t.xs && forall j :: 0 <= j < |t.xs| ==> t.xs[j] <= r.value
    ensures t.Column? && |t.xs| == 0 ==> r == Err(EmptyTensor)
  {
    var all := if t.Column? then t.xs else Concat(t.rows);
    if |all| == 0 then Err(EmptyTensor) else Ok(SeqMax(all))
  }

  /** `t[:, :m]`: every row cut to its first `m` entries; a 1-d tensor has
      no second dimension. */
  function CutRows(t: Tensor, m: int): (r: Result<Tensor>)
    ensures r.Ok? <==> t.Matrix?
    ensures r.Ok? ==>
      && r.value.Matrix? && |r.value.rows| == |t.rows|
      && forall j :: 0 <= j < |t.rows| ==> r.value.rows[j] == Take(t.rows[j], m)
  {
    if t.Column? then Err(IndexError)
    else Ok(Matrix(seq(|t.rows|, j requires 0 <= j < |t.rows| => Take(t.rows[j], m))))
  }

  /** One cut of the collated batch: a field, and whether the source cuts it
      only `if` it is present. */
  datatype Cut = Cut(key: string, optional: bool)

  /** The assignments after `o.pop('seqlen')`, in source order. */
  function ApplyCuts(o: map<string, Tensor>, m: int, cuts: seq<Cut>): (r: Result<map<string, Tensor>>)
    ensures r.Ok? ==> r.value.Keys == o.Keys
    ensures r.Ok? ==> forall k :: k in o && (forall c :: c in cuts ==> c.key != k) ==> r.value[k] == o[k]
    ensures r.Ok? ==> forall c :: c in cuts && c.key in o ==> CutRows(o[c.key], m) == Ok(r.value[c.key])
    ensures (exists c :: c in cuts && !c.optional && c.key !in o) ==> r.Err?
    ensures ((forall c :: c in cuts && !c.optional ==> c.key in o) &&
             (forall c :: c in cuts && c.key in o ==> o[c.key].Matrix?)) ==> r.Ok?
    requires DistinctKeys(cuts)
    decreases |cuts|
  {
    if |cuts| == 0 then Ok(o)
    else
      var c := cuts[0];
      if c.key !in o then
        if c.optional then ApplyCuts(o, m, cuts[1..]) else Err(KeyError)
      else
        var t :- CutRows(o[c.key], m);
        ApplyCuts(o[c.key := t], m, cuts[1..])
  }

  predicate DistinctKeys(cuts: seq<Cut>)
  {
    forall i, j :: 0 <= i < j < |cuts| ==> cuts[i].key != cuts[j].key
  }

  /** The batch stacked field by field (lines 119-128). */
  function Stacked(batch: seq<Record>): Result<map<string, Tensor>>
  {
    var o :- Gathered(batch);
    StackAll(o)
  }

  /** What `collate_fn` returns for a batch, with the cuts it applies. */
  function Collated(batch: seq<Record>, cuts: seq<Cut>): Result<map<string, Tensor>>
    requires DistinctKeys(cuts)
  {
    var stacked :- Stacked(batch);
    CutStacked(stacked, cuts)
  }

  /** Lines 129-133 on the stacked batch: `seqlen` popped, its maximum
      taken, and the cuts applied. */
  function CutStacked(stacked: map<string, Tensor>, cuts: seq<Cut>): Result<map<string, Tensor>>
    requires DistinctKeys(cuts)
  {
    if "seqlen" !in stacked then Err(KeyError)
    else
      var m :- MaxOf(stacked["seqlen"]);
      ApplyCuts(stacked - {"seqlen"}, m, cuts)
  }

  /** `o[key] = o[key][:, :m]` */
  function CutField(o: map<string, Tensor>, key: string, m: int): (r: Result<map<string, Tensor>>)
  {
    if key !in o then Err(KeyError)
    else
      var t :- CutRows(o[key], m);
      Ok(o[key := t])
  }

  /** Cuts of the classification script (lines 130-133). */
  const ClassifyCuts := [Cut("input_ids", false), Cut("attention_mask", false), Cut("token_type_ids", true)]

  /** Cuts of the MLM script (lines 112-117). */
  const MlmCuts := ClassifyCuts + [Cut("labels", false), Cut("weight", false)]

  /** `o` is the stacked batch `s` without `seqlen`, with each field named
      in `cuts` cut to `m` columns and every other field left as stacked. */
  ghost predicate CutFrom(o: map<string, Tensor>, s: map<string, Tensor>, m: int, cuts: seq<Cut>)
  {
    && o.Keys == s.Keys - {"seqlen"}
    && (forall c :: c in cuts && !c.optional ==> c.key in o)
    && (forall c :: c in cuts && c.key in o ==> CutRows(s[c.key], m) == Ok(o[c.key]))
    && (forall k :: k in o && (forall c :: c in cuts ==> c.key != k) ==> o[k] == s[k])
  }

  /** The longest `seqlen` of a stacked batch. */
  function MaxSeqlen(s: map<string, Tensor>): Result<int>
  {
    if "seqlen" in s then MaxOf(s["seqlen"]) else Err(KeyError)
  }

  /** A collated batch has no `seqlen`, has the fields of its first example
      otherwise, and holds each field cut or left whole as `cuts` says. */
  lemma {:induction false} CollatedShape(batch: seq<Record>, cuts: seq<Cut>)
    requires DistinctKeys(cuts)
    requires Collated(batch, cuts).Ok?
    ensures Stacked(batch).Ok? && MaxSeqlen(Stacked(batch).value).Ok?
    ensures var o := Collated(batch, cuts).value;
      && "seqlen" !in o
      && o.Keys == batch[0].Keys - {"seqlen"}
      && CutFrom(o, Stacked(batch).value, MaxSeqlen(Stacked(batch).value).value, cuts)
  {
    var g := Gathered(batch).value;
    assert |batch| > 0 by {
      assert |batch| == 0 ==> Stacked(batch) == Ok(map[]);
    }
    assert g.Keys == batch[0].Keys;
    var s := Stacked(batch).value;
    assert s.Keys == g.Keys;
  }

  lemma ApplyCutsStep(o: map<string, Tensor>, m: int, cuts: seq<Cut>)
    requires DistinctKeys(cuts) && |cuts| > 0
    ensures DistinctKeys(cuts[1..])
    ensures ApplyCuts(o, m, cuts) ==
      if cuts[0].key !in o && cuts[0].optional then ApplyCuts(o, m, cuts[1..])
      else match CutField(o, cuts[0].key, m)
        case Err(e) => Err(e)
        case Ok(o') => ApplyCuts(o', m, cuts[1..])
  {
  }

}
