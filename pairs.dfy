/** Positive and negative pair construction for evaluation
    (`generate_pair_example` of the sentence-vector script), on values: the
    label lists as sequences, and every random draw given. A positive pair
    is two examples of one label, popped from that label's list; a negative
    pair is two examples of different labels, found by a greedy scan over a
    shuffled index list. The loops themselves, popping from the caller's
    lists, are in module `PairsGen`. */
module Pairs {
  import opened Common

  // ---------------------------------------------------------------------
  // Popping chosen positions

  /** The elements of `s` at the positions not in `gone`, in their order.
      What it keeps is stated by the lemmas below: `KeepNone` (nothing
      removed), `KeepBelow` (the prefix before a position is untouched),
      `KeepPop` (removing a position below all removed ones is a `pop`) and
      `KeepLength` (one element fewer per removed position). */
  function Keep<E>(s: seq<E>, gone: set<nat>): (r: seq<E>)
    ensures |r| <= |s|
  {
    if |s| == 0 then []
    else Keep(s[..|s| - 1], gone) + (if |s| - 1 in gone then [] else [s[|s| - 1]])
  }

  /** Removing no position inside the list keeps all of it. */
  lemma {:induction false} KeepNone<E>(s: seq<E>, gone: set<nat>)
    requires forall j :: j in gone ==> j >= |s|
    ensures Keep(s, gone) == s
  {
    if |s| > 0 {
      KeepNone(s[..|s| - 1], gone);
    }
  }

  /** Removing only positions above `i` leaves positions `0..i` in place. */
  lemma {:induction false} KeepBelow<E>(s: seq<E>, gone: set<nat>, i: nat)
    requires i < |s| && forall j :: j in gone ==> j > i
    ensures |Keep(s, gone)| > i && Keep(s, gone)[..i + 1] == s[..i + 1]
  {
    var init := s[..|s| - 1];
    if i < |s| - 1 {
      KeepBelow(init, gone, i);
      assert Keep(s, gone)[..i + 1] == Keep(init, gone)[..i + 1];
    } else {
      KeepNone(init, gone);
    }
  }

  /** `list.pop(i)` below every removed position removes position `i` of
      the original list. */
  lemma {:induction false} KeepPop<E>(s: seq<E>, gone: set<nat>, i: nat)
    requires i < |s| && forall j :: j in gone ==> j > i
    ensures var k := Keep(s, gone);
      i < |k| && Keep(s, gone + {i}) == k[..i] + k[i + 1..]
  {
    var init := s[..|s| - 1];
    var last: seq<E> := if |s| - 1 in gone then [] else [s[|s| - 1]];
    KeepBelow(s, gone, i);
    if i < |s| - 1 {
      KeepPop(init, gone, i);
      KeepBelow(init, gone, i);
      var k0 := Keep(init, gone);
      assert Keep(s, gone + {i}) == (k0[..i] + k0[i + 1..]) + last;
      assert Keep(s, gone) == k0 + last;
      assert (k0 + last)[..i] == k0[..i];
      assert (k0 + last)[i + 1..] == k0[i + 1..] + last;
    } else {
      KeepNone(init, gone);
      KeepNone(init, gone + {i});
    }
  }

  // ---------------------------------------------------------------------
  // sorted(ids, reverse=True)

  predicate Descending(s: seq<nat>)
  {
    forall i, j :: 0 <= i < j < |s| ==> s[i] > s[j]
  }

  function InsertDesc(x: nat, s: seq<nat>): (r: seq<nat>)
    requires Descending(s) && x !in s
    ensures Descending(r) && |r| == |s| + 1 && Elems(r) == Elems(s) + {x}
  {
    if |s| == 0 then [x]
    else if x > s[0] then
      assert Elems([x] + s) == Elems(s) + {x};
      [x] + s
    else
      var t := InsertDesc(x, s[1..]);
      assert Elems(s) == Elems(s[1..]) + {s[0]};
      assert Elems([s[0]] + t) == Elems(t) + {s[0]};
      assert forall j :: 0 <= j < |t| ==> t[j] in Elems(s[1..]) + {x};
      [s[0]] + t
  }

  /** `sorted(ids, reverse=True)` for distinct indices. */
  function SortDesc(s: seq<nat>): (r: seq<nat>)
    requires Distinct(s)
    ensures Descending(r) && |r| == |s| && Elems(r) == Elems(s)
  {
    if |s| == 0 then []
    else
      assert Distinct(s[1..]);
      assert s[0] !in s[1..];
      assert Elems(s) == Elems(s[1..]) + {s[0]};
      InsertDesc(s[0], SortDesc(s[1..]))
  }

  /** The length left after removing positions inside the list. */
  lemma {:induction false} KeepLength<E>(s: seq<E>, gone: set<nat>)
    requires forall j :: j in gone ==> j < |s|
    ensures |Keep(s, gone)| == |s| - |gone|
  {
    if |s| > 0 {
      var n := |s| - 1;
      if n in gone {
        KeepLength(s[..n], gone - {n});
        KeepSame(s[..n], gone, gone - {n});
      } else {
        KeepLength(s[..n], gone);
      }
    }
  }

  /** Positions past the end make no difference. */
  lemma {:induction false} KeepSame<E>(s: seq<E>, gone: set<nat>, gone': set<nat>)
    requires forall j :: j < |s| ==> (j in gone <==> j in gone')
    ensures Keep(s, gone) == Keep(s, gone')
  {
    if |s| > 0 {
      KeepSame(s[..|s| - 1], gone, gone');
    }
  }

  /** `list.pop(i)` */
  function Pop<E>(s: seq<E>, i: nat): seq<E>
    requires i < |s|
  {
    s[..i] + s[i + 1..]
  }

  /** One round of the `zip` loop of lines 161-168: reading positions `i1`
      and `i2` of the list so far, then popping `i1` and then `i2` (both
      below every earlier position, since the positions are in descending
      order) reads and removes exactly positions `i1` and `i2` of the
      original list. */
  lemma TakeRound<E>(s: seq<E>, ids: seq<nat>, t: nat)
    requires Descending(ids) && 2 * t + 2 <= |ids|
    requires forall j :: 0 <= j < |ids| ==> ids[j] < |s|
    ensures var k, i1, i2 := Keep(s, Elems(ids[..2 * t])), ids[2 * t], ids[2 * t + 1];
      && i2 < i1 < |k| && k[i1] == s[i1] && k[i2] == s[i2]
      && i2 < |Pop(k, i1)|
      && Pop(Pop(k, i1), i2) == Keep(s, Elems(ids[..2 * t + 2]))
  {
    var gone := Elems(ids[..2 * t]);
    var i1, i2 := ids[2 * t], ids[2 * t + 1];
    AboveRound(ids, t);
    KeepBelow(s, gone, i1);
    KeepPop(s, gone, i1);
    KeepPop(s, gone + {i1}, i2);
    ElemsRound(ids, t);
  }

  lemma AboveRound(ids: seq<nat>, t: nat)
    requires Descending(ids) && 2 * t + 2 <= |ids|
    ensures forall j :: j in Elems(ids[..2 * t]) ==> j > ids[2 * t]
    ensures ids[2 * t] > ids[2 * t + 1]
  {
    forall j | j in Elems(ids[..2 * t])
      ensures j > ids[2 * t]
    {
      var x :| 0 <= x < 2 * t && ids[..2 * t][x] == j;
      assert ids[x] == j;
    }
  }

  lemma ElemsRound(ids: seq<nat>, t: nat)
    requires 2 * t + 2 <= |ids|
    ensures Elems(ids[..2 * t + 2]) == Elems(ids[..2 * t]) + {ids[2 * t]} + {ids[2 * t + 1]}
  {
    assert ids[..2 * t + 2] == ids[..2 * t] + [ids[2 * t], ids[2 * t + 1]];
  }

  // ---------------------------------------------------------------------
  // One label's turn (lines 149-171)

  /** `num_size`: a tenth of a list longer than 100, otherwise the
      `randint` draw. */
  function NumSize(n: nat, draw: int): int
  {
    if n > 100 then n / 2 / 5 else draw
  }

  /** The random draws for a label whose list has `n` examples are ones the
      generator can return: `randint(1, min(50, n))` lies in
      `[1, min(50, n) - 1]`, and `choice(..., replace=False)` gives
      `num_size` distinct positions of the list. */
  predicate DrawFits(n: nat, draw: int, picks: seq<nat>)
  {
    && (2 <= n <= 100 ==> 1 <= draw < Min(50, n))
    && (2 <= n && NumSize(n, draw) >= 2 ==>
          |picks| == NumSize(n, draw) && Distinct(picks) && forall j :: 0 <= j < |picks| ==> picks[j] < n)
  }

  /** How many pairs the `zip` loop makes from `nIds` positions when the
      positive list holds `count` pairs: it stops after the pair that
      brings the count to `pos_num_max`, and at least one pair is made
      before the check. */
  function PairsTaken(nIds: nat, count: nat, posMax: int): nat
  {
    Min(nIds / 2, Max(1, posMax - count))
  }

  /** The first `m` pairs of positions, as elements of the original list. */
  function TakenPairs<E>(s: seq<E>, ids: seq<nat>, m: nat): seq<(E, E)>
    requires 2 * m <= |ids| && forall j :: 0 <= j < |ids| ==> ids[j] < |s|
  {
    seq(m, u requires 0 <= u < m => (s[ids[2 * u]], s[ids[2 * u + 1]]))
  }

  lemma TakenPairsNext<E>(s: seq<E>, ids: seq<nat>, m: nat)
    requires 2 * m + 2 <= |ids| && forall j :: 0 <= j < |ids| ==> ids[j] < |s|
    ensures TakenPairs(s, ids, m + 1) == TakenPairs(s, ids, m) + [(s[ids[2 * m]], s[ids[2 * m + 1]])]
  {
  }

  /** What a label's turn does: raise, skip the label, or take pairs. */
  datatype Turn<E> = Raise | Skip | Took(rest: seq<E>, gone: set<nat>, pairs: seq<(E, E)>)

  /** One label's turn with `count` positive pairs so far. A list of one
      example reaches `randint(1, 1)`, which raises `ValueError`. */
  function LabelTurn<E>(s: seq<E>, draw: int, picks: seq<nat>, count: nat, posMax: int): Turn<E>
    requires DrawFits(|s|, draw, picks)
  {
    if |s| == 0 then Skip
    else if |s| == 1 then Raise
    else if NumSize(|s|, draw) < 2 then Skip
    else
      var ids := SortDesc(picks);
      assert forall j :: 0 <= j < |ids| ==> ids[j] in Elems(picks);
      var m := PairsTaken(|ids|, count, posMax);
      var gone := Elems(ids[..2 * m]);
      Took(Keep(s, gone), gone, TakenPairs(s, ids, m))
  }

  /** A turn raises exactly for a list of one example. A turn that takes
      pairs takes at least one and at most `num_size / 2`, exactly one once
      `count` has reached `pos_num_max`, and no more than bring the count to
      `pos_num_max` before that; it removes two chosen positions per pair
      and the rest of the list keeps its order. */
  lemma TurnCounts<E>(s: seq<E>, draw: int, picks: seq<nat>, count: nat, posMax: int)
    requires DrawFits(|s|, draw, picks)
    ensures LabelTurn(s, draw, picks, count, posMax).Raise? <==> |s| == 1
    ensures var t := LabelTurn(s, draw, picks, count, posMax);
      t.Took? ==>
        && 1 <= |t.pairs| <= NumSize(|s|, draw) / 2
        && (count >= posMax ==> |t.pairs| == 1)
        && (count < posMax ==> count + |t.pairs| <= posMax)
        && |t.gone| == 2 * |t.pairs| && t.gone <= Elems(picks)
        && t.rest == Keep(s, t.gone) && |t.rest| == |s| - |t.gone|
  {
    var t := LabelTurn(s, draw, picks, count, posMax);
    if t.Took? {
      var ids := SortDesc(picks);
      var m := PairsTaken(|ids|, count, posMax);
      assert forall j :: 0 <= j < |ids| ==> ids[j] in Elems(picks);
      assert Descending(ids[..2 * m]);
      DistinctElems(ids[..2 * m]);
      assert t.gone <= Elems(picks) by {
        assert forall x :: x in t.gone ==> x in Elems(ids);
      }
      KeepLength(s, t.gone);
    }
  }

  /** Pair `u` is the elements at two different positions of `s`, both in
      `gone`. */
  ghost predicate PairAt<E>(s: seq<E>, gone: set<nat>, pairs: seq<(E, E)>, u: int)
    requires 0 <= u < |pairs|
  {
    exists a: nat, b: nat :: a in gone && b in gone && b < a < |s| && pairs[u] == (s[a], s[b])
  }

  ghost predicate PairsFrom<E>(s: seq<E>, gone: set<nat>, pairs: seq<(E, E)>)
  {
    forall u :: 0 <= u < |pairs| ==> PairAt(s, gone, pairs, u)
  }

  /** Each pair a turn takes is the elements at two different positions of
      the list, both among the positions the turn removes. */
  lemma TurnPairs<E>(s: seq<E>, draw: int, picks: seq<nat>, count: nat, posMax: int)
    requires DrawFits(|s|, draw, picks)
    ensures var t := LabelTurn(s, draw, picks, count, posMax);
      t.Took? ==> PairsFrom(s, t.gone, t.pairs)
  {
    var t := LabelTurn(s, draw, picks, count, posMax);
    if t.Took? {
      var ids := SortDesc(picks);
      var m := PairsTaken(|ids|, count, posMax);
      assert forall j :: 0 <= j < |ids| ==> ids[j] in Elems(picks);
      TakenFrom(s, ids, m);
    }
  }

  lemma TakenFrom<E>(s: seq<E>, ids: seq<nat>, m: nat)
    requires Descending(ids) && 2 * m <= |ids| && forall j :: 0 <= j < |ids| ==> ids[j] < |s|
    ensures PairsFrom(s, Elems(ids[..2 * m]), TakenPairs(s, ids, m))
  {
    var gone, pairs := Elems(ids[..2 * m]), TakenPairs(s, ids, m);
    forall u | 0 <= u < |pairs|
      ensures PairAt(s, gone, pairs, u)
    {
      var a, b := ids[2 * u], ids[2 * u + 1];
      assert ids[..2 * m][2 * u] == a && ids[..2 * m][2 * u + 1] == b;
      assert a in gone && b in gone && b < a < |s|;
      assert pairs[u] == (s[a], s[b]);
    }
  }

  lemma {:induction false} DistinctElems(s: seq<nat>)
    requires Descending(s)
    ensures |Elems(s)| == |s|
  {
    if |s| > 0 {
      var init := s[..|s| - 1];
      DistinctElems(init);
      assert Elems(s) == Elems(init) + {s[|s| - 1]};
      assert s[|s| - 1] !in Elems(init);
    }
  }

  // ---------------------------------------------------------------------
  // The positive loop (lines 148-173)

  /** The draws of every label fit its list. */
  predicate AllFit<K, E>(lists0: map<K, seq<E>>, draw: K -> int, picks: K -> seq<nat>)
  {
    forall k :: k in lists0 ==> DrawFits(|lists0[k]|, draw(k), picks(k))
  }

  /** The state of the positive loop over the original label lists
      `lists0`: whether a turn raised, the key list (exhausted labels are
      removed from it while it is iterated), the positions removed from each
      visited label's list, and the positive pairs so far. */
  datatype PosState<K, E> = PosState(raised: bool, keys: seq<K>, gone: map<K, set<nat>>, pos: seq<(E, E)>)

  /** A label's list in the loop's state: its original list without the
      removed positions. */
  function Current<K, E>(lists0: map<K, seq<E>>, gone: map<K, set<nat>>, k: K): seq<E>
    requires k in lists0
  {
    if k in gone then Keep(lists0[k], gone[k]) else lists0[k]
  }

  /** The keys from `i` on are labels not visited yet. */
  predicate Pending<K(==), E>(st: PosState<K, E>, i: nat, lists0: map<K, seq<E>>)
  {
    && i <= |st.keys| + 1 && Distinct(st.keys)
    && forall j :: i <= j < |st.keys| ==> st.keys[j] in lists0 && st.keys[j] !in st.gone
  }

  /** What the loop needs of a label's turn on list `s`: a raise only for a
      list of one example; pairs taken from removed chosen positions, the
      rest of the list being the others; at most enough pairs to reach
      `posMax`, or exactly one once it is reached. */
  ghost predicate TurnOk<E>(t: Turn<E>, s: seq<E>, picks: seq<nat>, count: nat, posMax: nat)
  {
    && (t.Raise? ==> |s| == 1)
    && (t.Took? ==>
          && t.gone <= Elems(picks) && t.rest == Keep(s, t.gone)
          && PairsFrom(s, t.gone, t.pairs)
          && (count >= posMax ==> |t.pairs| == 1)
          && (count < posMax ==> count + |t.pairs| <= posMax))
  }

  lemma TurnIsOk<E>(s: seq<E>, draw: int, picks: seq<nat>, count: nat, posMax: nat)
    requires DrawFits(|s|, draw, picks)
    ensures TurnOk(LabelTurn(s, draw, picks, count, posMax), s, picks, count, posMax)
  {
    TurnCounts(s, draw, picks, count, posMax);
    TurnPairs(s, draw, picks, count, posMax);
  }

  /** The effect of turn `t` of label `keys[i]`. A label left with at most
      one example is removed from the key list being iterated, so the
      iteration goes on at index `i + 1` of the shortened list. */
  function Apply<K, E>(st: PosState<K, E>, i: nat, t: Turn<E>): (r: PosState<K, E>)
    requires i < |st.keys|
    ensures |r.keys| <= |st.keys|
  {
    match t
    case Raise => st.(raised := true)
    case Skip => st
    case Took(rest, gone, pairs) =>
      PosState(st.raised, if |rest| <= 1 then Pop(st.keys, i) else st.keys, st.gone[st.keys[i] := gone], st.pos + pairs)
  }

  /** With distinct keys, removing the label by value is removing it at its
      index. */
  lemma ApplyTook<K, E>(st: PosState<K, E>, i: nat, t: Turn<E>, keys': seq<K>)
    requires Distinct(st.keys) && i < |st.keys| && t.Took?
    requires keys' == if |t.rest| <= 1 then RemoveFirst(st.keys, st.keys[i]) else st.keys
    ensures Apply(st, i, t) == PosState(st.raised, keys', st.gone[st.keys[i] := t.gone], st.pos + t.pairs)
  {
    RemoveFirstAt(st.keys, i);
  }

  /** The turn of label `keys[i]`, whose list is still its original one. */
  function Visit<K(==), E>(st: PosState<K, E>, i: nat, lists0: map<K, seq<E>>, posMax: nat,
                           draw: K -> int, picks: K -> seq<nat>): (r: PosState<K, E>)
    requires AllFit(lists0, draw, picks) && Pending(st, i, lists0) && i < |st.keys|
    ensures |r.keys| <= |st.keys|
  {
    var k := st.keys[i];
    Apply(st, i, LabelTurn(lists0[k], draw(k), picks(k), |st.pos|, posMax))
  }

  lemma ApplyPending<K, E>(st: PosState<K, E>, i: nat, t: Turn<E>, lists0: map<K, seq<E>>)
    requires Pending(st, i, lists0) && i < |st.keys|
    ensures Pending(Apply(st, i, t), i + 1, lists0)
  {
    var k := st.keys[i];
    var r := Apply(st, i, t);
    if t.Took? {
      assert r.gone == st.gone[k := t.gone];
      if |t.rest| <= 1 {
        assert r.keys == Pop(st.keys, i);
        forall j | i + 1 <= j < |r.keys|
          ensures r.keys[j] == st.keys[j + 1] && r.keys[j] != k
        {
        }
      } else {
        assert r.keys == st.keys;
      }
    }
  }

  /** The loop from label index `i` on, stopping at a raise. Removing the
      last key while at it ends the loop with `i` past the end. */
  function PosRun<K(==), E>(st: PosState<K, E>, i: nat, lists0: map<K, seq<E>>, posMax: nat,
                            draw: K -> int, picks: K -> seq<nat>): PosState<K, E>
    requires AllFit(lists0, draw, picks) && Pending(st, i, lists0)
    decreases |st.keys| + 1 - i
  {
    if i >= |st.keys| then st
    else
      var next := Visit(st, i, lists0, posMax, draw, picks);
      if next.raised then next
      else
        ApplyPending(st, i, LabelTurn(lists0[st.keys[i]], draw(st.keys[i]), picks(st.keys[i]), |st.pos|, posMax), lists0);
        PosRun(next, i + 1, lists0, posMax, draw, picks)
  }

  /** Past the last key the loop is over. */
  lemma RunEnd<K, E>(st: PosState<K, E>, i: nat, lists0: map<K, seq<E>>, posMax: nat,
                     draw: K -> int, picks: K -> seq<nat>)
    requires AllFit(lists0, draw, picks) && Pending(st, i, lists0) && i >= |st.keys|
    ensures PosRun(st, i, lists0, posMax, draw, picks) == st
  {
  }

  /** A turn that raises ends the loop. */
  lemma RunRaise<K, E>(st: PosState<K, E>, i: nat, lists0: map<K, seq<E>>, posMax: nat,
                       draw: K -> int, picks: K -> seq<nat>, t: Turn<E>)
    requires AllFit(lists0, draw, picks) && Pending(st, i, lists0) && i < |st.keys|
    requires t == LabelTurn(lists0[st.keys[i]], draw(st.keys[i]), picks(st.keys[i]), |st.pos|, posMax)
    requires t.Raise?
    ensures PosRun(st, i, lists0, posMax, draw, picks) == st.(raised := true)
  {
    assert Visit(st, i, lists0, posMax, draw, picks) == st.(raised := true);
  }

  /** A turn that does not raise hands over to the next index. */
  lemma RunStep<K, E>(st: PosState<K, E>, i: nat, lists0: map<K, seq<E>>, posMax: nat,
                      draw: K -> int, picks: K -> seq<nat>, t: Turn<E>)
    requires AllFit(lists0, draw, picks) && Pending(st, i, lists0) && i < |st.keys|
    requires t == LabelTurn(lists0[st.keys[i]], draw(st.keys[i]), picks(st.keys[i]), |st.pos|, posMax)
    requires !st.raised && !t.Raise?
    ensures Pending(Apply(st, i, t), i + 1, lists0)
    ensures PosRun(st, i, lists0, posMax, draw, picks) == PosRun(Apply(st, i, t), i + 1, lists0, posMax, draw, picks)
  {
    ApplyPending(st, i, t, lists0);
    assert Visit(st, i, lists0, posMax, draw, picks) == Apply(st, i, t);
  }

  /** Every visited label's removed positions are chosen ones; the key list
      only loses labels, and a label leaves it only after a turn that left
      it at most one example. */
  ghost predicate KeysFrom<K, E>(st: PosState<K, E>, lists0: map<K, seq<E>>, keys0: seq<K>, picks: K -> seq<nat>)
  {
    && st.gone.Keys <= lists0.Keys
    && (forall k :: k in st.gone ==> st.gone[k] <= Elems(picks(k)))
    && Elems(st.keys) <= Elems(keys0)
    && forall k :: k in keys0 && k !in st.keys ==> k in st.gone && k in lists0 && |Keep(lists0[k], st.gone[k])| <= 1
  }

  /** Positive pair `u` is two examples at different removed positions of
      label `k`'s original list. */
  ghost predicate FromLabel<K, E>(pos: seq<(E, E)>, lists0: map<K, seq<E>>, gone: map<K, set<nat>>, u: int, k: K)
    requires 0 <= u < |pos|
  {
    k in lists0 && k in gone && PairAt(lists0[k], gone[k], pos, u)
  }

  ghost predicate FromSomeLabel<K(!new), E>(pos: seq<(E, E)>, lists0: map<K, seq<E>>, gone: map<K, set<nat>>, u: int)
    requires 0 <= u < |pos|
  {
    exists k :: FromLabel(pos, lists0, gone, u, k)
  }

  ghost predicate PosFrom<K(!new), E>(pos: seq<(E, E)>, lists0: map<K, seq<E>>, gone: map<K, set<nat>>)
  {
    forall u :: 0 <= u < |pos| ==> FromSomeLabel(pos, lists0, gone, u)
  }

  /** The loop invariant. Besides the above: with `pos_num_max` reached,
      each visited label adds at most one pair, so there are at most
      `posMax` pairs plus one per visited label; and a raise comes from a
      list of one example. */
  ghost predicate PosInv<K(!new), E>(st: PosState<K, E>, lists0: map<K, seq<E>>, keys0: seq<K>, posMax: nat, picks: K -> seq<nat>)
  {
    && KeysFrom(st, lists0, keys0, picks)
    && PosFrom(st.pos, lists0, st.gone)
    && |st.pos| <= posMax + |st.gone.Keys|
    && (st.raised ==> exists k :: k in lists0 && |lists0[k]| == 1)
  }

  lemma PairAtShift<E>(s: seq<E>, gone: set<nat>, pos: seq<(E, E)>, pairs: seq<(E, E)>, u: int)
    requires 0 <= u < |pairs| && PairAt(s, gone, pairs, u)
    ensures PairAt(s, gone, pos + pairs, |pos| + u)
  {
    var a: nat, b: nat :| a in gone && b in gone && b < a < |s| && pairs[u] == (s[a], s[b]);
    assert (pos + pairs)[|pos| + u] == pairs[u];
  }

  lemma PairAtKeep<E>(s: seq<E>, gone: set<nat>, pos: seq<(E, E)>, pairs: seq<(E, E)>, u: int)
    requires 0 <= u < |pos| && PairAt(s, gone, pos, u)
    ensures PairAt(s, gone, pos + pairs, u)
  {
    var a: nat, b: nat :| a in gone && b in gone && b < a < |s| && pos[u] == (s[a], s[b]);
    assert (pos + pairs)[u] == pos[u];
  }

  lemma ApplyKeys<K, E>(st: PosState<K, E>, i: nat, t: Turn<E>, lists0: map<K, seq<E>>, keys0: seq<K>,
                        picks: K -> seq<nat>, posMax: nat)
    requires Pending(st, i, lists0) && i < |st.keys| && KeysFrom(st, lists0, keys0, picks)
    requires TurnOk(t, lists0[st.keys[i]], picks(st.keys[i]), |st.pos|, posMax)
    ensures KeysFrom(Apply(st, i, t), lists0, keys0, picks)
  {
    var k := st.keys[i];
    var r := Apply(st, i, t);
    if t.Took? {
      assert r.gone == st.gone[k := t.gone];
      if |t.rest| <= 1 {
        assert r.keys == Pop(st.keys, i);
        assert Elems(r.keys) <= Elems(st.keys) by {
          forall x | x in r.keys
            ensures x in st.keys
          {
            var j :| 0 <= j < |r.keys| && r.keys[j] == x;
            assert x == if j < i then st.keys[j] else st.keys[j + 1];
          }
        }
        forall x | x in st.keys && x != k
          ensures x in r.keys
        {
          var j :| 0 <= j < |st.keys| && st.keys[j] == x;
          assert x == if j < i then r.keys[j] else r.keys[j - 1];
        }
      } else {
        assert r.keys == st.keys;
      }
    }
  }

  lemma ApplyPos<K(!new), E>(st: PosState<K, E>, i: nat, t: Turn<E>, lists0: map<K, seq<E>>,
                             picks: K -> seq<nat>, posMax: nat)
    requires Pending(st, i, lists0) && i < |st.keys| && PosFrom(st.pos, lists0, st.gone)
    requires TurnOk(t, lists0[st.keys[i]], picks(st.keys[i]), |st.pos|, posMax)
    ensures PosFrom(Apply(st, i, t).pos, lists0, Apply(st, i, t).gone)
  {
    var k := st.keys[i];
    var r := Apply(st, i, t);
    if t.Took? {
      assert r.pos == st.pos + t.pairs && r.gone == st.gone[k := t.gone];
      forall u | 0 <= u < |r.pos|
        ensures FromSomeLabel(r.pos, lists0, r.gone, u)
      {
        if u < |st.pos| {
          assert FromSomeLabel(st.pos, lists0, st.gone, u);
          var x :| FromLabel(st.pos, lists0, st.gone, u, x);
          PairAtKeep(lists0[x], st.gone[x], st.pos, t.pairs, u);
          assert FromLabel(r.pos, lists0, r.gone, u, x);
        } else {
          assert PairAt(lists0[k], t.gone, t.pairs, u - |st.pos|);
          PairAtShift(lists0[k], t.gone, st.pos, t.pairs, u - |st.pos|);
          assert FromLabel(r.pos, lists0, r.gone, u, k);
        }
      }
    }
  }

  lemma ApplyCount<K, E>(st: PosState<K, E>, i: nat, t: Turn<E>, lists0: map<K, seq<E>>,
                         picks: K -> seq<nat>, posMax: nat)
    requires Pending(st, i, lists0) && i < |st.keys| && |st.pos| <= posMax + |st.gone.Keys|
    requires TurnOk(t, lists0[st.keys[i]], picks(st.keys[i]), |st.pos|, posMax)
    ensures var r := Apply(st, i, t);
      && |r.pos| <= posMax + |r.gone.Keys|
      && (r.raised ==> st.raised || |lists0[st.keys[i]]| == 1)
  {
    var k := st.keys[i];
    var r := Apply(st, i, t);
    if t.Took? {
      assert r.gone.Keys == st.gone.Keys + {k};
    }
  }

  lemma ApplyInv<K(!new), E>(st: PosState<K, E>, i: nat, t: Turn<E>, lists0: map<K, seq<E>>, keys0: seq<K>,
                             picks: K -> seq<nat>, posMax: nat)
    requires Pending(st, i, lists0) && i < |st.keys| && PosInv(st, lists0, keys0, posMax, picks)
    requires TurnOk(t, lists0[st.keys[i]], picks(st.keys[i]), |st.pos|, posMax)
    ensures PosInv(Apply(st, i, t), lists0, keys0, posMax, picks)
  {
    ApplyKeys(st, i, t, lists0, keys0, picks, posMax);
    ApplyPos(st, i, t, lists0, picks, posMax);
    ApplyCount(st, i, t, lists0, picks, posMax);
  }

  /** The whole loop keeps the invariant. */
  lemma {:induction false} PosRunInv<K(!new), E>(st: PosState<K, E>, i: nat, lists0: map<K, seq<E>>, posMax: nat,
                                                 draw: K -> int, picks: K -> seq<nat>, keys0: seq<K>)
    requires AllFit(lists0, draw, picks) && Pending(st, i, lists0) && PosInv(st, lists0, keys0, posMax, picks)
    ensures PosInv(PosRun(st, i, lists0, posMax, draw, picks), lists0, keys0, posMax, picks)
    decreases |st.keys| + 1 - i
  {
    if i < |st.keys| {
      var k := st.keys[i];
      var t := LabelTurn(lists0[k], draw(k), picks(k), |st.pos|, posMax);
      TurnIsOk(lists0[k], draw(k), picks(k), |st.pos|, posMax);
      ApplyInv(st, i, t, lists0, keys0, picks, posMax);
      var next := Apply(st, i, t);
      if !next.raised {
        ApplyPending(st, i, t, lists0);
        PosRunInv(next, i + 1, lists0, posMax, draw, picks, keys0);
      }
    }
  }

  /** The loop from the start: every key pending, nothing removed, no pair. */
  lemma PosStart<K(!new), E>(lists0: map<K, seq<E>>, keys0: seq<K>, posMax: nat, picks: K -> seq<nat>)
    requires KeyOrder(keys0, lists0)
    ensures Pending(PosState(false, keys0, map[], []), 0, lists0)
    ensures PosInv(PosState(false, keys0, map[], []), lists0, keys0, posMax, picks)
  {
  }

  // ---------------------------------------------------------------------
  // The flat list (lines 175-179)

  /** The key list as the source builds it: every label once, in the
      shuffled order. */
  predicate KeyOrder<K(==), E>(keys0: seq<K>, lists0: map<K, seq<E>>)
  {
    Distinct(keys0) && (forall j :: 0 <= j < |keys0| ==> keys0[j] in lists0) && forall k :: k in lists0 ==> k in keys0
  }

  /** The examples of one label, each tagged with the label. */
  function Tagged<K, E>(k: K, l: seq<E>): (r: seq<(K, E)>)
    ensures |r| == |l| && forall j :: 0 <= j < |l| ==> r[j] == (k, l[j])
  {
    seq(|l|, j requires 0 <= j < |l| => (k, l[j]))
  }

  /** `flat_examples`: the tagged examples of the keys' lists, key after key. */
  function Flat<K, E>(keys: seq<K>, lists: map<K, seq<E>>): seq<(K, E)>
    requires forall j :: 0 <= j < |keys| ==> keys[j] in lists
  {
    if |keys| == 0 then [] else Flat(keys[..|keys| - 1], lists) + Tagged(keys[|keys| - 1], lists[keys[|keys| - 1]])
  }

  /** The flat list holds exactly the examples of the listed labels, each
      with its own label. */
  lemma {:induction false} FlatEntries<K, E>(keys: seq<K>, lists: map<K, seq<E>>)
    requires forall j :: 0 <= j < |keys| ==> keys[j] in lists
    ensures forall u :: 0 <= u < |Flat(keys, lists)| ==>
      Flat(keys, lists)[u].0 in keys && Flat(keys, lists)[u].1 in lists[Flat(keys, lists)[u].0]
    ensures forall j, x :: 0 <= j < |keys| && x in lists[keys[j]] ==> (keys[j], x) in Flat(keys, lists)
  {
    if |keys| > 0 {
      var init, k := keys[..|keys| - 1], keys[|keys| - 1];
      FlatEntries(init, lists);
      var f0: seq<(K, E)>, tail: seq<(K, E)> := Flat(init, lists), Tagged(k, lists[k]);
      var f := f0 + tail;
      assert Flat(keys, lists) == f;
      forall u | 0 <= u < |f|
        ensures f[u].0 in keys && f[u].1 in lists[f[u].0]
      {
        if u < |f0| {
          assert f[u] == f0[u];
          assert f0[u].0 in init;
        } else {
          assert f[u] == tail[u - |f0|];
        }
      }
      forall j, x | 0 <= j < |keys| && x in lists[keys[j]]
        ensures (keys[j], x) in f
      {
        if j < |init| {
          assert keys[j] == init[j];
          assert (keys[j], x) in f0;
        } else {
          var q :| 0 <= q < |lists[k]| && lists[k][q] == x;
          assert tail[q] == (k, x);
          assert f[|f0| + q] == tail[q];
        }
      }
    }
  }

  // ---------------------------------------------------------------------
  // The negative loop (lines 181-196)

  /** The first position from `from` on in `rest` whose example has a label
      other than `k`. */
  function FirstOther<K(==), E>(flat: seq<(K, E)>, k: K, rest: seq<nat>, from: nat): (r: Option<nat>)
    requires forall j :: 0 <= j < |rest| ==> rest[j] < |flat|
    ensures r.Some? ==> from <= r.value < |rest| && flat[rest[r.value]].0 != k
    ensures r.Some? ==> forall q :: from <= q < r.value ==> flat[rest[q]].0 == k
    ensures r.None? ==> forall q :: from <= q < |rest| ==> flat[rest[q]].0 == k
    decreases |rest| - from
  {
    if from >= |rest| then None
    else if flat[rest[from]].0 != k then Some(from)
    else FirstOther(flat, k, rest, from + 1)
  }

  /** The loop on index list `idx` with the negative pairs `acc` so far, as
      pairs of positions of `flat`: pop the first index, pair it with the
      first index from position `skip` on of the rest whose label differs,
      remove that one by value; stop at fewer than two indices or once
      there are more than `5 * posCount` negatives. The source scans
      `idx_list[1:]`, that is `skip = 1`. */
  function NegRun<K(==), E>(flat: seq<(K, E)>, idx: seq<nat>, acc: seq<(nat, nat)>, posCount: nat, skip: nat): seq<(nat, nat)>
    requires forall j :: 0 <= j < |idx| ==> idx[j] < |flat|
    decreases |idx|
  {
    if |idx| < 2 then acc
    else
      var first, rest := idx[0], idx[1..];
      match FirstOther(flat, flat[first].0, rest, skip)
      case None => NegRun(flat, rest, acc, posCount, skip)
      case Some(p) =>
        var more := acc + [(first, rest[p])];
        if |more| > 5 * posCount then more
        else
          var left := RemoveFirst(rest, rest[p]);
          RemoveFirstIn(rest, rest[p]);
          NegRun(flat, left, more, posCount, skip)
  }

  lemma RemoveFirstIn(s: seq<nat>, x: nat)
    requires x in s
    ensures forall j :: 0 <= j < |RemoveFirst(s, x)| ==> RemoveFirst(s, x)[j] in s
  {
    var r := RemoveFirst(s, x);
    forall j | 0 <= j < |r|
      ensures r[j] in s
    {
      assert r[j] in r;
    }
  }

  /** The positions used by a list of position pairs. */
  function Used(ps: seq<(nat, nat)>): set<nat>
  {
    if |ps| == 0 then {} else Used(ps[..|ps| - 1]) + {ps[|ps| - 1].0, ps[|ps| - 1].1}
  }

  /** Pairs of positions of `flat` whose labels differ and that use no
      position twice. */
  ghost predicate NegOk<K, E>(flat: seq<(K, E)>, ps: seq<(nat, nat)>)
  {
    && |Used(ps)| == 2 * |ps|
    && forall u :: 0 <= u < |ps| ==> ps[u].0 < |flat| && ps[u].1 < |flat| && flat[ps[u].0].0 != flat[ps[u].1].0
  }

  lemma UsedAppend(ps: seq<(nat, nat)>, a: nat, b: nat)
    ensures Used(ps + [(a, b)]) == Used(ps) + {a, b}
  {
    assert (ps + [(a, b)])[..|ps|] == ps;
  }

  /** Removing by value from a list without duplicates leaves the others,
      without duplicates. */
  lemma DropFirst(idx: seq<nat>)
    requires Distinct(idx) && 1 <= |idx|
    ensures Distinct(idx[1..]) && Elems(idx[1..]) <= Elems(idx) && idx[0] !in Elems(idx[1..])
  {
  }

  lemma PopIndex<T>(s: seq<T>, p: nat, q: nat)
    requires p < |s| && q < |s| - 1
    ensures Pop(s, p)[q] == if q < p then s[q] else s[q + 1]
  {
  }

  lemma PopDistinct(s: seq<nat>, p: nat)
    requires Distinct(s) && p < |s|
    ensures Distinct(Pop(s, p)) && forall x :: x in Pop(s, p) ==> x in s && x != s[p]
  {
    var left := Pop(s, p);
    forall x | x in left
      ensures x in s && x != s[p]
    {
      var q :| 0 <= q < |left| && left[q] == x;
      PopIndex(s, p, q);
    }
    forall q1, q2 | 0 <= q1 < q2 < |left|
      ensures left[q1] != left[q2]
    {
      PopIndex(s, p, q1);
      PopIndex(s, p, q2);
    }
  }

  lemma RemoveDistinct(rest: seq<nat>, p: nat)
    requires Distinct(rest) && p < |rest|
    ensures var left := RemoveFirst(rest, rest[p]);
      && Distinct(left) && forall x :: x in left ==> x in rest && x != rest[p]
  {
    RemoveFirstAt(rest, p);
    PopDistinct(rest, p);
  }

  /** A new pair of two unused positions with different labels keeps the
      pairs sound. */
  lemma NegAdd<K, E>(flat: seq<(K, E)>, acc: seq<(nat, nat)>, a: nat, b: nat)
    requires NegOk(flat, acc) && a !in Used(acc) && b !in Used(acc) && a != b
    requires a < |flat| && b < |flat| && flat[a].0 != flat[b].0
    ensures NegOk(flat, acc + [(a, b)]) && Used(acc + [(a, b)]) == Used(acc) + {a, b}
  {
    var more := acc + [(a, b)];
    UsedAppend(acc, a, b);
    assert Used(acc) !! {a, b};
    assert |{a, b}| == 2;
    forall u | 0 <= u < |more|
      ensures more[u].0 < |flat| && more[u].1 < |flat| && flat[more[u].0].0 != flat[more[u].1].0
    {
      if u < |acc| {
        assert more[u] == acc[u];
      }
    }
  }

  /** One step of the loop keeps the pairs sound and the unused indices
      fresh. */
  lemma NegStep<K, E>(flat: seq<(K, E)>, idx: seq<nat>, acc: seq<(nat, nat)>, p: nat)
    requires forall j :: 0 <= j < |idx| ==> idx[j] < |flat|
    requires Distinct(idx) && NegOk(flat, acc) && Used(acc) !! Elems(idx)
    requires 1 <= |idx| && p < |idx| - 1 && flat[idx[1..][p]].0 != flat[idx[0]].0
    ensures var rest := idx[1..];
      var more, left := acc + [(idx[0], rest[p])], RemoveFirst(rest, rest[p]);
      && Distinct(left) && NegOk(flat, more) && Used(more) !! Elems(left)
      && Used(more) + Elems(left) <= Used(acc) + Elems(idx)
  {
    var first, rest := idx[0], idx[1..];
    var second := rest[p];
    assert Distinct(rest);
    assert first != second && first in Elems(idx) && second in Elems(idx);
    NegAdd(flat, acc, first, second);
    RemoveDistinct(rest, p);
    var left := RemoveFirst(rest, second);
    forall x | x in left
      ensures x in Elems(idx) && x != first && x != second
    {
      assert x in rest;
    }
  }

  /** The loop only appends: the pairs so far stay a prefix. */
  lemma {:induction false} NegRunExtends<K, E>(flat: seq<(K, E)>, idx: seq<nat>, acc: seq<(nat, nat)>, posCount: nat, skip: nat)
    requires forall j :: 0 <= j < |idx| ==> idx[j] < |flat|
    ensures var r := NegRun(flat, idx, acc, posCount, skip);
      |acc| <= |r| && r[..|acc|] == acc
    decreases |idx|
  {
    if |idx| >= 2 {
      var first, rest := idx[0], idx[1..];
      match FirstOther(flat, flat[first].0, rest, skip)
      case None =>
        NegRunExtends(flat, rest, acc, posCount, skip);
      case Some(p) =>
        var more := acc + [(first, rest[p])];
        if |more| <= 5 * posCount {
          var left := RemoveFirst(rest, rest[p]);
          RemoveFirstIn(rest, rest[p]);
          NegRunExtends(flat, left, more, posCount, skip);
          assert more[..|acc|] == acc;
        }
    }
  }

  /** The loop stops right after passing five negatives per positive, so it
      makes at most one more than that. */
  lemma {:induction false} NegRunBound<K, E>(flat: seq<(K, E)>, idx: seq<nat>, acc: seq<(nat, nat)>, posCount: nat, skip: nat)
    requires forall j :: 0 <= j < |idx| ==> idx[j] < |flat|
    requires |acc| <= 5 * posCount
    ensures |NegRun(flat, idx, acc, posCount, skip)| <= 5 * posCount + 1
    decreases |idx|
  {
    if |idx| >= 2 {
      var first, rest := idx[0], idx[1..];
      match FirstOther(flat, flat[first].0, rest, skip)
      case None =>
        NegRunBound(flat, rest, acc, posCount, skip);
      case Some(p) =>
        var more := acc + [(first, rest[p])];
        if |more| <= 5 * posCount {
          var left := RemoveFirst(rest, rest[p]);
          RemoveFirstIn(rest, rest[p]);
          NegRunBound(flat, left, more, posCount, skip);
        }
    }
  }

  /** Every negative pair is two examples of different labels, and no
      example of the flat list is used twice, by any scan start. */
  lemma {:induction false} NegRunSound<K, E>(flat: seq<(K, E)>, idx: seq<nat>, acc: seq<(nat, nat)>, posCount: nat, skip: nat)
    requires forall j :: 0 <= j < |idx| ==> idx[j] < |flat|
    requires Distinct(idx) && NegOk(flat, acc) && Used(acc) !! Elems(idx)
    ensures NegOk(flat, NegRun(flat, idx, acc, posCount, skip))
    decreases |idx|
  {
    if |idx| >= 2 {
      var first, rest := idx[0], idx[1..];
      var found := FirstOther(flat, flat[first].0, rest, skip);
      if found.None? {
        NegRunNone(flat, idx, acc, posCount, skip);
        NegRunSound(flat, rest, acc, posCount, skip);
      } else {
        var p := found.value;
        NegStep(flat, idx, acc, p);
        NegRunSome(flat, idx, acc, posCount, skip, p);
        var more := acc + [(first, rest[p])];
        if |more| <= 5 * posCount {
          NegRunSound(flat, RemoveFirst(rest, rest[p]), more, posCount, skip);
        }
      }
    }
  }

  /** The positions the negative pairs use are ones given. */
  lemma {:induction false} NegRunUsed<K, E>(flat: seq<(K, E)>, idx: seq<nat>, acc: seq<(nat, nat)>, posCount: nat, skip: nat)
    requires forall j :: 0 <= j < |idx| ==> idx[j] < |flat|
    requires Distinct(idx) && NegOk(flat, acc) && Used(acc) !! Elems(idx)
    ensures Used(NegRun(flat, idx, acc, posCount, skip)) <= Used(acc) + Elems(idx)
    decreases |idx|
  {
    if |idx| >= 2 {
      var first, rest := idx[0], idx[1..];
      var found := FirstOther(flat, flat[first].0, rest, skip);
      if found.None? {
        NegRunNone(flat, idx, acc, posCount, skip);
        NegRunUsed(flat, rest, acc, posCount, skip);
      } else {
        var p := found.value;
        NegStep(flat, idx, acc, p);
        NegRunSome(flat, idx, acc, posCount, skip, p);
        var more := acc + [(first, rest[p])];
        if |more| <= 5 * posCount {
          NegRunUsed(flat, RemoveFirst(rest, rest[p]), more, posCount, skip);
        }
      }
    }
  }

  /** The examples a list of position pairs stands for. */
  function NegValues<K, E>(flat: seq<(K, E)>, ps: seq<(nat, nat)>): (r: seq<(E, E)>)
    requires forall u :: 0 <= u < |ps| ==> ps[u].0 < |flat| && ps[u].1 < |flat|
    ensures |r| == |ps| && forall u :: 0 <= u < |ps| ==> r[u] == (flat[ps[u].0].1, flat[ps[u].1].1)
  {
    seq(|ps|, u requires 0 <= u < |ps| => (flat[ps[u].0].1, flat[ps[u].1].1))
  }

  /** One round of the loop that finds no partner. */
  lemma NegRunNone<K, E>(flat: seq<(K, E)>, idx: seq<nat>, acc: seq<(nat, nat)>, posCount: nat, skip: nat)
    requires forall j :: 0 <= j < |idx| ==> idx[j] < |flat|
    requires Distinct(idx) && NegOk(flat, acc) && Used(acc) !! Elems(idx) && |idx| >= 2
    requires FirstOther(flat, flat[idx[0]].0, idx[1..], skip).None?
    ensures Distinct(idx[1..]) && Elems(idx[1..]) <= Elems(idx) && Used(acc) !! Elems(idx[1..])
    ensures NegRun(flat, idx, acc, posCount, skip) == NegRun(flat, idx[1..], acc, posCount, skip)
  {
    DropFirst(idx);
  }

  /** One round of the loop that pairs `idx[0]` with `idx[1..][p]`. */
  lemma NegRunSome<K, E>(flat: seq<(K, E)>, idx: seq<nat>, acc: seq<(nat, nat)>, posCount: nat, skip: nat, p: nat)
    requires forall j :: 0 <= j < |idx| ==> idx[j] < |flat|
    requires |idx| >= 2 && FirstOther(flat, flat[idx[0]].0, idx[1..], skip) == Some(p)
    ensures var rest := idx[1..];
      var more: seq<(nat, nat)>, left: seq<nat> := acc + [(idx[0], rest[p])], RemoveFirst(rest, rest[p]);
      && (forall j :: 0 <= j < |left| ==> left[j] < |flat|)
      && NegRun(flat, idx, acc, posCount, skip) == if |more| > 5 * posCount then more else NegRun(flat, left, more, posCount, skip)
  {
    var rest := idx[1..];
    RemoveFirstIn(rest, rest[p]);
  }

  lemma NegValuesAppend<K, E>(flat: seq<(K, E)>, ps: seq<(nat, nat)>, a: nat, b: nat)
    requires forall u :: 0 <= u < |ps| ==> ps[u].0 < |flat| && ps[u].1 < |flat|
    requires a < |flat| && b < |flat|
    ensures NegValues(flat, ps + [(a, b)]) == NegValues(flat, ps) + [(flat[a].1, flat[b].1)]
  {
  }

  // ---------------------------------------------------------------------
  // generate_pair_example (lines 137-198)

  /** `num_all`: the number of examples of all labels. */
  function TotalLength<K, E>(keys: seq<K>, lists0: map<K, seq<E>>): nat
    requires forall j :: 0 <= j < |keys| ==> keys[j] in lists0
  {
    if |keys| == 0 then 0 else TotalLength(keys[..|keys| - 1], lists0) + |lists0[keys[|keys| - 1]]|
  }

  /** `pos_num_max` */
  function PosMax<K, E>(keys0: seq<K>, lists0: map<K, seq<E>>): nat
    requires forall j :: 0 <= j < |keys0| ==> keys0[j] in lists0
  {
    TotalLength(keys0, lists0) / 2 / 5
  }

  /** The positive loop over all labels in the shuffled key order `keys0`. */
  function PosPhase<K(!new), E>(lists0: map<K, seq<E>>, keys0: seq<K>, draw: K -> int, picks: K -> seq<nat>): (r: PosState<K, E>)
    requires KeyOrder(keys0, lists0) && AllFit(lists0, draw, picks)
    ensures PosInv(r, lists0, keys0, PosMax(keys0, lists0), picks)
  {
    var posMax := PosMax(keys0, lists0);
    var st := PosState(false, keys0, map[], []);
    PosStart(lists0, keys0, posMax, picks);
    PosRunInv(st, 0, lists0, posMax, draw, picks, keys0);
    PosRun(st, 0, lists0, posMax, draw, picks)
  }

  /** The label lists after the positive loop. */
  function Remaining<K, E>(lists0: map<K, seq<E>>, gone: map<K, set<nat>>): (r: map<K, seq<E>>)
    ensures r.Keys == lists0.Keys && forall k :: k in lists0 ==> r[k] == Current(lists0, gone, k)
  {
    map k | k in lists0 :: Current(lists0, gone, k)
  }

  /** The flat list after a positive loop that did not raise. */
  function FlatAfter<K(!new), E>(lists0: map<K, seq<E>>, keys0: seq<K>, draw: K -> int, picks: K -> seq<nat>): seq<(K, E)>
    requires KeyOrder(keys0, lists0) && AllFit(lists0, draw, picks)
  {
    var st := PosPhase(lists0, keys0, draw, picks);
    assert forall j :: 0 <= j < |st.keys| ==> st.keys[j] in Elems(keys0);
    Flat(st.keys, Remaining(lists0, st.gone))
  }

  /** `np.random.shuffle(idx_list)`: some order of `0..n`. */
  predicate IsPermutation(s: seq<nat>, n: nat)
  {
    |s| == n && Distinct(s) && forall j :: 0 <= j < |s| ==> s[j] < n
  }

  /** The negative pairs, as positions of the flat list, for the shuffle of
      its indices given by `shuffle`. */
  function NegPhase<K(!new), E>(lists0: map<K, seq<E>>, keys0: seq<K>, draw: K -> int, picks: K -> seq<nat>,
                                shuffle: nat -> seq<nat>, skip: nat): (r: seq<(nat, nat)>)
    requires KeyOrder(keys0, lists0) && AllFit(lists0, draw, picks)
    requires forall n :: IsPermutation(shuffle(n), n)
    ensures NegOk(FlatAfter(lists0, keys0, draw, picks), r)
  {
    var flat := FlatAfter(lists0, keys0, draw, picks);
    var idx := shuffle(|flat|);
    assert IsPermutation(idx, |flat|);
    NegRunSound(flat, idx, [], |PosPhase(lists0, keys0, draw, picks).pos|, skip);
    NegRun(flat, idx, [], |PosPhase(lists0, keys0, draw, picks).pos|, skip)
  }

  /** `generate_pair_example`: `ValueError` from a list of one example, or
      the positive and the negative pairs. `skip` is where the scan for a
      partner starts; the source's `idx_list[1:]` is `skip = 1`. */
  function GeneratePairs<K(!new), E>(lists0: map<K, seq<E>>, keys0: seq<K>, draw: K -> int, picks: K -> seq<nat>,
                                     shuffle: nat -> seq<nat>, skip: nat): Result<(seq<(E, E)>, seq<(E, E)>)>
    requires KeyOrder(keys0, lists0) && AllFit(lists0, draw, picks)
    requires forall n :: IsPermutation(shuffle(n), n)
  {
    var st := PosPhase(lists0, keys0, draw, picks);
    if st.raised then Err(ValueError)
    else Ok((st.pos, NegValues(FlatAfter(lists0, keys0, draw, picks), NegPhase(lists0, keys0, draw, picks, shuffle, skip))))
  }

  /** Negative pair `u` has examples of the lists of two different labels
      of `keys`. */
  ghost predicate NegAt<K(!new), E>(keys: seq<K>, lists: map<K, seq<E>>, neg: seq<(E, E)>, u: int)
    requires 0 <= u < |neg|
  {
    exists k1, k2 :: k1 in keys && k2 in keys && k1 in lists && k2 in lists && k1 != k2 && neg[u].0 in lists[k1] && neg[u].1 in lists[k2]
  }

  lemma NegValuesFrom<K(!new), E>(keys: seq<K>, lists: map<K, seq<E>>, ps: seq<(nat, nat)>)
    requires forall j :: 0 <= j < |keys| ==> keys[j] in lists
    requires NegOk(Flat(keys, lists), ps)
    ensures forall u :: 0 <= u < |ps| ==> NegAt(keys, lists, NegValues(Flat(keys, lists), ps), u)
  {
    var flat := Flat(keys, lists);
    var neg := NegValues(flat, ps);
    FlatEntries(keys, lists);
    forall u | 0 <= u < |ps|
      ensures NegAt(keys, lists, neg, u)
    {
      var a, b := ps[u].0, ps[u].1;
      assert flat[a].0 in keys && flat[a].1 in lists[flat[a].0];
      assert flat[b].0 in keys && flat[b].1 in lists[flat[b].0];
      assert neg[u] == (flat[a].1, flat[b].1);
    }
  }

  lemma SubsetCard<T>(a: set<T>, b: set<T>)
    requires a <= b
    ensures |a| <= |b|
  {
    assert b == a + (b - a);
  }

  /** `generate_pair_example` raises `ValueError`, and only when some label
      has exactly one example. */
  lemma GeneratePairsRaise<K(!new), E>(lists0: map<K, seq<E>>, keys0: seq<K>, draw: K -> int, picks: K -> seq<nat>,
                                       shuffle: nat -> seq<nat>, skip: nat)
    requires KeyOrder(keys0, lists0) && AllFit(lists0, draw, picks)
    requires forall n :: IsPermutation(shuffle(n), n)
    ensures var r := GeneratePairs(lists0, keys0, draw, picks, shuffle, skip);
      r.Err? ==> r.error == ValueError && exists k :: k in lists0 && |lists0[k]| == 1
  {
  }

  /** Every positive pair is two examples at different positions of one
      label's original list, positions that are gone from that list
      afterwards; there are at most `pos_num_max` positives plus one per
      label. */
  lemma GeneratePairsPositives<K(!new), E>(lists0: map<K, seq<E>>, keys0: seq<K>, draw: K -> int, picks: K -> seq<nat>,
                                           shuffle: nat -> seq<nat>, skip: nat)
    requires KeyOrder(keys0, lists0) && AllFit(lists0, draw, picks)
    requires forall n :: IsPermutation(shuffle(n), n)
    ensures var r := GeneratePairs(lists0, keys0, draw, picks, shuffle, skip);
      var st := PosPhase(lists0, keys0, draw, picks);
      r.Ok? ==>
        && r.value.0 == st.pos
        && PosFrom(r.value.0, lists0, st.gone)
        && (forall k :: k in lists0 && k in st.gone ==> Remaining(lists0, st.gone)[k] == Keep(lists0[k], st.gone[k]))
        && |r.value.0| <= PosMax(keys0, lists0) + |lists0.Keys|
  {
    var st := PosPhase(lists0, keys0, draw, picks);
    SubsetCard(st.gone.Keys, lists0.Keys);
  }

  /** Every negative pair has examples of the remaining lists of two
      different labels still in the key list (a label removed at line 171
      contributes none), and there are at most five negatives per positive,
      plus one. */
  lemma GeneratePairsNegatives<K(!new), E>(lists0: map<K, seq<E>>, keys0: seq<K>, draw: K -> int, picks: K -> seq<nat>,
                                           shuffle: nat -> seq<nat>, skip: nat)
    requires KeyOrder(keys0, lists0) && AllFit(lists0, draw, picks)
    requires forall n :: IsPermutation(shuffle(n), n)
    ensures var r := GeneratePairs(lists0, keys0, draw, picks, shuffle, skip);
      var st := PosPhase(lists0, keys0, draw, picks);
      r.Ok? ==>
        && |r.value.1| <= 5 * |r.value.0| + 1
        && forall u :: 0 <= u < |r.value.1| ==> NegAt(st.keys, Remaining(lists0, st.gone), r.value.1, u)
  {
    var r := GeneratePairs(lists0, keys0, draw, picks, shuffle, skip);
    var st := PosPhase(lists0, keys0, draw, picks);
    if r.Ok? {
      var rem := Remaining(lists0, st.gone);
      assert forall j :: 0 <= j < |st.keys| ==> st.keys[j] in Elems(keys0);
      var flat := Flat(st.keys, rem);
      assert flat == FlatAfter(lists0, keys0, draw, picks);
      var idx := shuffle(|flat|);
      assert IsPermutation(idx, |flat|);
      NegRunBound(flat, idx, [], |st.pos|, skip);
      NegValuesFrom(st.keys, rem, NegPhase(lists0, keys0, draw, picks, shuffle, skip));
    }
  }

  // ---------------------------------------------------------------------
  // The scan of `idx_list[1:]`

  /** As written, the scan for a partner skips the index right after the
      popped one: two examples of different labels make no negative pair. */
  lemma ScanSkipsNeighbour<K, E>(k1: K, e1: E, k2: K, e2: E, posCount: nat)
    requires k1 != k2
    ensures NegRun([(k1, e1), (k2, e2)], [0, 1], [], posCount, 1) == []
  {
    var flat := [(k1, e1), (k2, e2)];
    assert [0, 1][1..] == [1];
    assert FirstOther(flat, k1, [1], 1).None?;
    assert NegRun(flat, [0, 1], [], posCount, 1) == NegRun(flat, [1], [], posCount, 1);
  }

  /** Scanning from the index right after the popped one, the loop leaves
      an index unpaired only when every index after it has its label: with
      no negative pair made, all examples share one label. */
  lemma {:induction false} ScanFromStartPairs<K, E>(flat: seq<(K, E)>, idx: seq<nat>, acc: seq<(nat, nat)>, posCount: nat)
    requires forall j :: 0 <= j < |idx| ==> idx[j] < |flat|
    requires |idx| >= 1 && NegRun(flat, idx, acc, posCount, 0) == acc
    ensures forall j :: 0 <= j < |idx| ==> flat[idx[j]].0 == flat[idx[0]].0
    decreases |idx|
  {
    if |idx| >= 2 {
      var first, rest := idx[0], idx[1..];
      var found := FirstOther(flat, flat[first].0, rest, 0);
      if found.Some? {
        var p := found.value;
        var more := acc + [(first, rest[p])];
        if |more| <= 5 * posCount {
          var left := RemoveFirst(rest, rest[p]);
          RemoveFirstIn(rest, rest[p]);
          NegRunExtends(flat, left, more, posCount, 0);
        }
        assert false;
      }
      forall j | 1 <= j < |idx|
        ensures flat[idx[j]].0 == flat[idx[0]].0
      {
        assert idx[j] == rest[j - 1];
      }
    }
  }
}
