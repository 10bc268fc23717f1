/** `generate_pair_example` of the sentence-vector script as the loops it is:
    popping from the caller's label lists in place, building the flat list,
    and pairing shuffled indices. Each method is proved against the value
    model of module `Pairs`. The random draws are given: `draw(k)` for the
    `randint` of label `k`, `picks(k)` for its `np.random.choice`, the key
    order `keys0` for the shuffled `all_keys`, and `shuffle(n)` for the
    shuffled `idx_list` of `n` indices. */
module PairsGen {
  import opened Common
  import opened Pairs

  /** One label's example list, which the generator pops from in place
      (`copy.copy` of the dictionary shares the lists with the caller). */
  class ExampleList<E> {
    var items: seq<E>

    constructor(items0: seq<E>)
      ensures items == items0
    {
      items := items0;
    }

    /** `list.pop(i)` */
    method PopAt(i: nat) returns (x: E)
      requires i < |items|
      modifies this
      ensures x == old(items)[i] && items == Pop(old(items), i)
    {
      x := items[i];
      items := items[..i] + items[i + 1..];
    }
  }

  /** The `zip` loop of lines 161-168: read the examples at the next two
      chosen positions (in descending order), pop both, append the pair,
      and stop once the positive list reaches `posMax`. */
  method TakePairs<E>(examples: ExampleList<E>, ids: seq<nat>, count: nat, posMax: int) returns (pairs: seq<(E, E)>)
    requires Descending(ids) && forall j :: 0 <= j < |ids| ==> ids[j] < |examples.items|
    modifies examples
    ensures var m := PairsTaken(|ids|, count, posMax);
      && examples.items == Keep(old(examples.items), Elems(ids[..2 * m]))
      && pairs == TakenPairs(old(examples.items), ids, m)
  {
    ghost var s := examples.items;
    ghost var m := PairsTaken(|ids|, count, posMax);
    pairs := [];
    var t := 0;
    KeepNone(s, Elems(ids[..0]));
    while t < |ids| / 2
      invariant t <= m
      invariant t == 0 || count + t < posMax
      invariant examples.items == Keep(s, Elems(ids[..2 * t]))
      invariant pairs == TakenPairs(s, ids, t)
      decreases |ids| / 2 - t
    {
      TakeRound(s, ids, t);
      var i1, i2 := ids[2 * t], ids[2 * t + 1];
      var v1 := examples.items[i1];
      var v2 := examples.items[i2];
      var x1 := examples.PopAt(i1);
      var x2 := examples.PopAt(i2);
      TakenPairsNext(s, ids, t);
      pairs := pairs + [(v1, v2)];
      t := t + 1;
      if count + |pairs| >= posMax {
        break;
      }
    }
    assert t == m;
  }

  /** Different labels have different list objects. */
  predicate Separate<K, E>(d: map<K, ExampleList<E>>)
  {
    forall k1, k2 :: k1 in d && k2 in d && k1 != k2 ==> d[k1] != d[k2]
  }

  /** One label's turn of lines 149-171 on its list, in place: skip an
      empty list, let `randint` raise for a list of one, skip a draw below
      two, and otherwise pop the pairs at the sorted chosen positions. */
  method LabelStep<E>(examples: ExampleList<E>, draw: int, picks: seq<nat>, count: nat, posMax: nat) returns (t: Turn<E>)
    requires DrawFits(|examples.items|, draw, picks)
    modifies examples
    ensures t == LabelTurn(old(examples.items), draw, picks, count, posMax)
    ensures examples.items == if t.Took? then t.rest else old(examples.items)
    ensures t.Took? ==> t.rest == Keep(old(examples.items), t.gone)
  {
    var n := |examples.items|;
    if n == 0 {
      return Skip;
    } else if n == 1 {
      return Raise;
    }
    var size := if n > 100 then n / 2 / 5 else draw;
    if size < 2 {
      return Skip;
    }
    ghost var s := examples.items;
    var ids := SortDesc(picks);
    assert forall j :: 0 <= j < |ids| ==> ids[j] in Elems(picks);
    var pairs := TakePairs(examples, ids, count, posMax);
    var m := PairsTaken(|ids|, count, posMax);
    t := Took(examples.items, Elems(ids[..2 * m]), pairs);
  }

  /** The lists of `d` are those of the positive loop's state. */
  ghost predicate ListsAt<K, E>(d: map<K, ExampleList<E>>, lists0: map<K, seq<E>>, gone: map<K, set<nat>>)
    reads d.Values
  {
    && d.Keys == lists0.Keys
    && forall k :: k in d ==> d[k].items == Current(lists0, gone, k)
  }

  /** The turn of label `keys[i]` (lines 149-171), removing the label from
      the key list when at most one example is left. */
  method VisitLabel<K(==), E>(d: map<K, ExampleList<E>>, keys: seq<K>, i: nat, pos: seq<(E, E)>, posMax: nat,
                              draw: K -> int, picks: K -> seq<nat>, ghost lists0: map<K, seq<E>>, ghost gone: map<K, set<nat>>)
    returns (t: Turn<E>, keys': seq<K>, pos': seq<(E, E)>, ghost gone': map<K, set<nat>>)
    requires Separate(d) && AllFit(lists0, draw, picks) && ListsAt(d, lists0, gone)
    requires Pending(PosState(false, keys, gone, pos), i, lists0) && i < |keys|
    modifies d[keys[i]]
    ensures t == LabelTurn(lists0[keys[i]], draw(keys[i]), picks(keys[i]), |pos|, posMax)
    ensures PosState(t.Raise?, keys', gone', pos') == Apply(PosState(false, keys, gone, pos), i, t)
    ensures ListsAt(d, lists0, gone')
  {
    var k := keys[i];
    var examples := d[k];
    t := LabelStep(examples, draw(k), picks(k), |pos|, posMax);
    keys', pos', gone' := keys, pos, gone;
    if t.Took? {
      gone' := gone[k := t.gone];
      pos' := pos + t.pairs;
      if |examples.items| <= 1 {
        keys' := RemoveFirst(keys, k);
      }
      ApplyTook(PosState(false, keys, gone, pos), i, t, keys');
    }
    forall k' | k' in d
      ensures d[k'].items == Current(lists0, gone', k')
    {
      if k' != k {
        assert d[k'] != examples;
      }
    }
  }

  /** The positive loop of lines 148-173 over the shuffled keys `keys0`.
      It returns whether a `randint(1, 1)` raised, the key list after the
      removals, and the positive pairs; `gone` records the positions popped
      from each visited label's list. */
  method PositivePhase<K(==), E>(d: map<K, ExampleList<E>>, keys0: seq<K>, posMax: nat, draw: K -> int, picks: K -> seq<nat>,
                                 ghost lists0: map<K, seq<E>>)
    returns (raised: bool, keys: seq<K>, pos: seq<(E, E)>, ghost gone: map<K, set<nat>>)
    requires Separate(d) && ListsAt(d, lists0, map[]) && Distinct(keys0) && AllFit(lists0, draw, picks)
    requires forall j :: 0 <= j < |keys0| ==> keys0[j] in lists0
    modifies d.Values
    ensures PosState(raised, keys, gone, pos) == PosRun(PosState(false, keys0, map[], []), 0, lists0, posMax, draw, picks)
    ensures ListsAt(d, lists0, gone)
  {
    ghost var target := PosRun(PosState(false, keys0, map[], []), 0, lists0, posMax, draw, picks);
    raised, keys, pos, gone := false, keys0, [], map[];
    var i := 0;
    while i < |keys|
      invariant Pending(PosState(false, keys, gone, pos), i, lists0)
      invariant PosRun(PosState(false, keys, gone, pos), i, lists0, posMax, draw, picks) == target
      invariant Separate(d) && ListsAt(d, lists0, gone)
      decreases |keys| + 1 - i
    {
      ghost var st := PosState(false, keys, gone, pos);
      var t;
      t, keys, pos, gone := VisitLabel(d, keys, i, pos, posMax, draw, picks, lists0, gone);
      if t.Raise? {
        raised := true;
        RunRaise(st, i, lists0, posMax, draw, picks, t);
        return;
      }
      RunStep(st, i, lists0, posMax, draw, picks, t);
      i := i + 1;
    }
    RunEnd(PosState(false, keys, gone, pos), i, lists0, posMax, draw, picks);
  }

  /** `d` holds the lists `lists` under the listed keys. */
  ghost predicate Holds<K, E>(d: map<K, ExampleList<E>>, keys: seq<K>, lists: map<K, seq<E>>)
    reads d.Values
  {
    forall j :: 0 <= j < |keys| ==> keys[j] in d && keys[j] in lists && d[keys[j]].items == lists[keys[j]]
  }

  /** `num_all` (lines 144-146): the number of examples of all labels. */
  method CountExamples<K, E>(d: map<K, ExampleList<E>>, keys0: seq<K>, ghost lists: map<K, seq<E>>) returns (total: nat)
    requires Holds(d, keys0, lists)
    ensures total == TotalLength(keys0, lists)
  {
    total := 0;
    var i := 0;
    while i < |keys0|
      invariant i <= |keys0|
      invariant total == TotalLength(keys0[..i], lists)
    {
      assert keys0[..i + 1][..i] == keys0[..i];
      total := total + |d[keys0[i]].items|;
      i := i + 1;
    }
    assert keys0[..i] == keys0;
  }

  /** `flat_examples` (lines 175-179): every example of the listed labels,
      tagged with its label, label after label. */
  method FlattenLists<K, E>(d: map<K, ExampleList<E>>, keys: seq<K>, ghost lists: map<K, seq<E>>) returns (flat: seq<(K, E)>)
    requires Holds(d, keys, lists)
    ensures flat == Flat(keys, lists)
  {
    flat := [];
    var i := 0;
    while i < |keys|
      invariant i <= |keys|
      invariant flat == Flat(keys[..i], lists)
    {
      var k := keys[i];
      var l := d[k].items;
      ghost var before := flat;
      var j := 0;
      while j < |l|
        invariant j <= |l|
        invariant flat == before + Tagged(k, l[..j])
      {
        flat := flat + [(k, l[j])];
        j := j + 1;
      }
      assert keys[..i + 1][..i] == keys[..i];
      assert l[..j] == l;
      i := i + 1;
    }
    assert keys[..i] == keys;
  }

  /** The inner `for` of lines 186-195: the first position of `rest` from
      `from` on whose example has a label other than `k`. */
  method FindOther<K(==), E>(flat: seq<(K, E)>, k: K, rest: seq<nat>, from: nat) returns (r: Option<nat>)
    requires forall j :: 0 <= j < |rest| ==> rest[j] < |flat|
    ensures r == FirstOther(flat, k, rest, from)
  {
    var q := from;
    while q < |rest|
      invariant from <= q
      invariant FirstOther(flat, k, rest, from) == FirstOther(flat, k, rest, q)
      decreases |rest| - q
    {
      if flat[rest[q]].0 != k {
        return Some(q);
      }
      q := q + 1;
    }
    return None;
  }

  /** The negative loop of lines 183-196 on the shuffled index list `idx0`:
      pop the first index, pair its example with the first other-labelled
      one found from position `skip` of the rest on, remove that index by
      value, and stop once there are more than five negatives per
      positive. */
  method NegativePhase<K(==), E>(flat: seq<(K, E)>, idx0: seq<nat>, posCount: nat, skip: nat) returns (neg: seq<(E, E)>)
    requires IsPermutation(idx0, |flat|)
    ensures NegOk(flat, NegRun(flat, idx0, [], posCount, skip))
    ensures neg == NegValues(flat, NegRun(flat, idx0, [], posCount, skip))
  {
    NegRunSound(flat, idx0, [], posCount, skip);
    var idx: seq<nat> := idx0;
    neg := [];
    ghost var acc: seq<(nat, nat)> := [];
    while |idx| >= 2
      invariant forall j :: 0 <= j < |idx| ==> idx[j] < |flat|
      invariant Distinct(idx) && NegOk(flat, acc) && Used(acc) !! Elems(idx)
      invariant NegRun(flat, idx, acc, posCount, skip) == NegRun(flat, idx0, [], posCount, skip)
      invariant neg == NegValues(flat, acc)
      decreases |idx|
    {
      var first := idx[0];
      var found := FindOther(flat, flat[first].0, idx[1..], skip);
      if found.None? {
        NegRunNone(flat, idx, acc, posCount, skip);
        idx := idx[1..];
      } else {
        NegStep(flat, idx, acc, found.value);
        NegRunSome(flat, idx, acc, posCount, skip, found.value);
        var second := idx[1..][found.value];
        NegValuesAppend(flat, acc, first, second);
        neg := neg + [(flat[first].1, flat[second].1)];
        acc := acc + [(first, second)];
        idx := RemoveFirst(idx[1..], second);
        if |neg| > 5 * posCount {
          return;
        }
      }
    }
    assert NegRun(flat, idx, acc, posCount, skip) == acc;
  }

  /** `generate_pair_example` (lines 137-198) on the label lists of `d`,
      which hold `lists0` on entry: the result is the model's, and the
      lists are left without the examples the positive loop popped (up to
      the label that raised, if one did). */
  method GeneratePairExample<K(==,!new), E>(d: map<K, ExampleList<E>>, keys0: seq<K>, draw: K -> int, picks: K -> seq<nat>,
                                       shuffle: nat -> seq<nat>, skip: nat, ghost lists0: map<K, seq<E>>)
    returns (r: Result<(seq<(E, E)>, seq<(E, E)>)>)
    requires Separate(d) && ListsAt(d, lists0, map[]) && KeyOrder(keys0, lists0) && AllFit(lists0, draw, picks)
    requires forall n :: IsPermutation(shuffle(n), n)
    modifies d.Values
    ensures r == GeneratePairs(lists0, keys0, draw, picks, shuffle, skip)
    ensures ListsAt(d, lists0, PosPhase(lists0, keys0, draw, picks).gone)
  {
    var total := CountExamples(d, keys0, lists0);
    var posMax := total / 2 / 5;
    assert posMax == PosMax(keys0, lists0);
    var raised, keys, pos, gone := PositivePhase(d, keys0, posMax, draw, picks, lists0);
    if raised {
      return Err(ValueError);
    }
    ghost var st := PosPhase(lists0, keys0, draw, picks);
    assert forall j :: 0 <= j < |keys| ==> keys[j] in Elems(keys0);
    var flat := FlattenLists(d, keys, Remaining(lists0, gone));
    var idx := shuffle(|flat|);
    var neg := NegativePhase(flat, idx, |pos|, skip);
    r := Ok((pos, neg));
  }
}
