/** The label table of the sentence-vector classifier: `on_get_labels` reads
    the first label file, keeps its non-blank lines (the `label` field of
    each line when the file is JSON lines), and numbers the sorted distinct
    labels 0..n-1 in both directions. */
module Labels {
  import opened Common

  /** A label file: its name and the lines `readlines()` returns. */
  datatype LabelFile = LabelFile(name: string, lines: seq<string>)

  datatype LabelTables = LabelTables(label2id: map<string, nat>, id2label: map<nat, string>)

  /** `s.replace('\r\n', '')` */
  function DropCrLf(s: string): (r: string)
    ensures |r| <= |s|
    ensures '\r' !in s ==> r == s
  {
    if |s| == 0 then []
    else if |s| >= 2 && s[0] == '\r' && s[1] == '\n' then DropCrLf(s[2..])
    else [s[0]] + DropCrLf(s[1..])
  }

  /** `replace('\r\n', '')` keeps every character other than `'\r'` and
      `'\n'` as often as before. */
  lemma {:induction false} DropCrLfKeeps(s: string)
    ensures forall c :: c != '\r' && c != '\n' ==> multiset(DropCrLf(s))[c] == multiset(s)[c]
    decreases |s|
  {
    if |s| > 0 {
      if |s| >= 2 && s[0] == '\r' && s[1] == '\n' {
        DropCrLfKeeps(s[2..]);
        assert s == [s[0], s[1]] + s[2..];
      } else {
        DropCrLfKeeps(s[1..]);
        assert s == [s[0]] + s[1..];
      }
    }
  }

  /** Each removal of `replace('\r\n', '')` takes one `'\r'` and one
      `'\n'`. */
  lemma {:induction false} DropCrLfPairs(s: string)
    ensures var r := DropCrLf(s);
      && |r| + 2 * multiset(s)['\r'] == |s| + 2 * multiset(r)['\r']
      && |r| + 2 * multiset(s)['\n'] == |s| + 2 * multiset(r)['\n']
    decreases |s|
  {
    if |s| > 0 {
      if |s| >= 2 && s[0] == '\r' && s[1] == '\n' {
        DropCrLfPairs(s[2..]);
        assert s == [s[0], s[1]] + s[2..];
      } else {
        DropCrLfPairs(s[1..]);
        assert s == [s[0]] + s[1..];
      }
    }
  }

  lemma ConsSplit(x: string, d: string)
    requires |x| > 0
    ensures x + d == [x[0]] + (x[1..] + d)
  {
    assert x == [x[0]] + x[1..];
  }

  /** A prefix without `'\r'` is left as it is. */
  lemma {:induction false} DropCrLfPrefix(x: string, t: string)
    requires '\r' !in x
    ensures DropCrLf(x + t) == x + DropCrLf(t)
  {
    if |x| > 0 {
      assert (x + t)[0] == x[0] && x[0] in x;
      assert (x + t)[1..] == x[1..] + t;
      assert DropCrLf(x + t) == [x[0]] + DropCrLf(x[1..] + t);
      assert '\r' !in x[1..] by {
        assert forall c :: c in x[1..] ==> c in x;
      }
      DropCrLfPrefix(x[1..], t);
      ConsSplit(x, DropCrLf(t));
    } else {
      assert x + t == t && x + DropCrLf(t) == DropCrLf(t);
    }
  }

  /** `s.replace('\n', '')` */
  function DropLf(s: string): (r: string)
    ensures '\n' !in r
    ensures '\n' !in s ==> r == s
  {
    if |s| == 0 then []
    else (if s[0] == '\n' then [] else [s[0]]) + DropLf(s[1..])
  }

  /** `replace('\n', '')` keeps every other character as often as before. */
  lemma {:induction false} DropLfKeeps(s: string)
    ensures forall c :: c != '\n' ==> multiset(DropLf(s))[c] == multiset(s)[c]
    decreases |s|
  {
    if |s| > 0 {
      DropLfKeeps(s[1..]);
      assert s == [s[0]] + s[1..];
    }
  }

  /** A prefix without `'\n'` is left as it is. */
  lemma {:induction false} DropLfPrefix(x: string, t: string)
    requires '\n' !in x
    ensures DropLf(x + t) == x + DropLf(t)
  {
    if |x| > 0 {
      assert (x + t)[0] == x[0] && x[0] in x;
      assert (x + t)[1..] == x[1..] + t;
      assert DropLf(x + t) == [x[0]] + DropLf(x[1..] + t);
      assert '\n' !in x[1..] by {
        assert forall c :: c in x[1..] ==> c in x;
      }
      DropLfPrefix(x[1..], t);
      ConsSplit(x, DropLf(t));
    } else {
      assert x + t == t && x + DropLf(t) == DropLf(t);
    }
  }

  /** The line terminator removal of line 92: no `'\n'` is left, and every
      character other than `'\r'` and `'\n'` is kept. */
  function StripLineEnd(line: string): (r: string)
    ensures '\n' !in r
    ensures forall c :: c != '\r' && c != '\n' ==> multiset(r)[c] == multiset(line)[c]
    ensures multiset(r)['\r'] <= multiset(line)['\r']
  {
    DropCrLfKeeps(line);
    DropCrLfPairs(line);
    DropLfKeeps(DropCrLf(line));
    DropLf(DropCrLf(line))
  }

  /** A line `x` without a terminator reads back as `x`, whether it ended in
      `"\n"`, in `"\r\n"`, or in nothing (the last line of a file). */
  lemma StripTerminated(x: string)
    requires '\r' !in x && '\n' !in x
    ensures StripLineEnd(x) == x
    ensures StripLineEnd(x + "\n") == x
    ensures StripLineEnd(x + "\r\n") == x
  {
    DropCrLfPrefix(x, "\n");
    DropCrLfPrefix(x, "\r\n");
    assert DropCrLf("\n") == "\n";
    assert DropCrLf("\r\n") == "";
    DropLfPrefix(x, "\n");
    assert DropLf("\n") == "";
    assert x + "" == x;
  }

  predicate EndsWith(s: string, suffix: string)
  {
    |suffix| <= |s| && s[|s| - |suffix|..] == suffix
  }

  predicate IsJsonFile(name: string)
  {
    EndsWith(name, ".json")
  }

  /** The label a kept line contributes: the line itself, or the `label`
      field that `parseJsonLabel` extracts from a JSON line. */
  function LabelOfLine(line: string, isJson: bool, parseJsonLabel: string -> string): string
  {
    if isJson then parseJsonLabel(StripLineEnd(line)) else StripLineEnd(line)
  }

  /** The labels a file yields: one per line that is not blank once its
      line terminator is removed. */
  function FileLabels(file: LabelFile, parseJsonLabel: string -> string): set<string>
  {
    LinesLabels(file.lines, IsJsonFile(file.name), parseJsonLabel)
  }

  function LinesLabels(lines: seq<string>, isJson: bool, parseJsonLabel: string -> string): set<string>
  {
    set l | l in lines && StripLineEnd(l) != "" :: LabelOfLine(l, isJson, parseJsonLabel)
  }

  lemma LinesLabelsStep(lines: seq<string>, i: nat, isJson: bool, parseJsonLabel: string -> string)
    requires i < |lines|
    ensures LinesLabels(lines[..i + 1], isJson, parseJsonLabel)
         == LinesLabels(lines[..i], isJson, parseJsonLabel)
            + (if StripLineEnd(lines[i]) != "" then {LabelOfLine(lines[i], isJson, parseJsonLabel)} else {})
  {
    assert lines[..i + 1] == lines[..i] + [lines[i]];
  }

  /** Python's `<` on `str`: lexicographic order on code points, a proper
      prefix coming first. */
  predicate Less(a: string, b: string)
    decreases |a|
  {
    |b| > 0 && (|a| == 0 || a[0] < b[0] || (a[0] == b[0] && Less(a[1..], b[1..])))
  }

  lemma {:induction false} LessIrreflexive(a: string)
    ensures !Less(a, a)
    decreases |a|
  {
    if |a| > 0 {
      LessIrreflexive(a[1..]);
    }
  }

  lemma {:induction false} LessAsymmetric(a: string, b: string)
    requires Less(a, b)
    ensures !Less(b, a)
    decreases |a|
  {
    if |a| > 0 && a[0] == b[0] {
      LessAsymmetric(a[1..], b[1..]);
    }
  }

  lemma {:induction false} LessTransitive(a: string, b: string, c: string)
    requires Less(a, b) && Less(b, c)
    ensures Less(a, c)
    decreases |a|
  {
    if |a| > 0 && a[0] == b[0] && b[0] == c[0] {
      LessTransitive(a[1..], b[1..], c[1..]);
    }
  }

  lemma {:induction false} LessTotal(a: string, b: string)
    ensures a == b || Less(a, b) || Less(b, a)
    decreases |a|
  {
    if |a| > 0 && |b| > 0 && a[0] == b[0] {
      LessTotal(a[1..], b[1..]);
      if a[1..] == b[1..] {
        assert a == [a[0]] + a[1..] && b == [b[0]] + b[1..];
      }
    }
  }

  predicate StrictlySorted(s: seq<string>)
  {
    forall i, j :: 0 <= i < j < |s| ==> Less(s[i], s[j])
  }

  /** Insertion of one label into a sorted list without duplicates. */
  function Insert(x: string, s: seq<string>): (r: seq<string>)
    requires StrictlySorted(s)
    ensures StrictlySorted(r)
    ensures Elems(r) == Elems(s) + {x}
    decreases |s|
  {
    if |s| == 0 then [x]
    else if x == s[0] then s
    else if Less(x, s[0]) then
      InsertFront(x, s);
      [x] + s
    else
      LessTotal(x, s[0]);
      var t := Insert(x, s[1..]);
      InsertAfter(x, s, t);
      [s[0]] + t
  }

  lemma InsertFront(x: string, s: seq<string>)
    requires StrictlySorted(s) && |s| > 0 && Less(x, s[0])
    ensures StrictlySorted([x] + s)
    ensures Elems([x] + s) == Elems(s) + {x}
  {
    forall j | 0 < j < |s| ensures Less(x, s[j]) {
      LessTransitive(x, s[0], s[j]);
    }
    var r := [x] + s;
    forall i, j | 0 <= i < j < |r| ensures Less(r[i], r[j]) {
      if i > 0 {
        assert r[i] == s[i - 1] && r[j] == s[j - 1];
      }
    }
  }

  lemma InsertAfter(x: string, s: seq<string>, t: seq<string>)
    requires StrictlySorted(s) && |s| > 0 && Less(s[0], x)
    requires StrictlySorted(t) && Elems(t) == Elems(s[1..]) + {x}
    ensures StrictlySorted([s[0]] + t)
    ensures Elems([s[0]] + t) == Elems(s) + {x}
  {
    assert Elems(s) == {s[0]} + Elems(s[1..]) by {
      assert s == [s[0]] + s[1..];
    }
    forall y | y in t ensures Less(s[0], y) {
      assert y in Elems(t);
      if y != x {
        assert y in Elems(s[1..]);
        var j :| 0 <= j < |s[1..]| && s[1..][j] == y;
        assert s[j + 1] == y;
      }
    }
    var r := [s[0]] + t;
    forall i, j | 0 <= i < j < |r| ensures Less(r[i], r[j]) {
      assert r[j] == t[j - 1] && r[j] in t;
      if i > 0 {
        assert r[i] == t[i - 1];
      }
    }
    assert Elems(r) == {s[0]} + Elems(t);
  }

  /** `sorted(list(set(D)))`: the distinct labels in increasing order. */
  function SortedDistinct(d: seq<string>): (r: seq<string>)
    ensures StrictlySorted(r)
    ensures Elems(r) == Elems(d)
  {
    if |d| == 0 then []
    else
      assert Elems(d) == Elems(d[..|d| - 1]) + {d[|d| - 1]} by {
        assert d == d[..|d| - 1] + [d[|d| - 1]];
      }
      Insert(d[|d| - 1], SortedDistinct(d[..|d| - 1]))
  }

  /** A set has one strictly sorted listing, so `SortedDistinct` is the
      same list as Python's `sorted(set(D))`. */
  lemma {:induction false} StrictlySortedUnique(a: seq<string>, b: seq<string>)
    requires StrictlySorted(a) && StrictlySorted(b)
    requires Elems(a) == Elems(b)
    ensures a == b
    decreases |a|
  {
    assert |b| > 0 ==> b[0] in Elems(b);
    if |a| > 0 {
      assert a[0] in Elems(a);
      assert a[0] in Elems(b);
      assert |b| > 0;
      assert b[0] in Elems(b);
      if a[0] != b[0] {
        var i :| 0 <= i < |a| && a[i] == b[0];
        var j :| 0 <= j < |b| && b[j] == a[0];
        assert Less(a[0], b[0]);
        assert Less(b[0], a[0]);
        LessAsymmetric(a[0], b[0]);
      }
      forall y | y in a[1..] ensures y != a[0] {
        var i :| 0 <= i < |a[1..]| && a[1..][i] == y;
        assert Less(a[0], a[i + 1]);
        LessIrreflexive(a[0]);
      }
      forall y | y in b[1..] ensures y != b[0] {
        var i :| 0 <= i < |b[1..]| && b[1..][i] == y;
        assert Less(b[0], b[i + 1]);
        LessIrreflexive(b[0]);
      }
      assert a == [a[0]] + a[1..] && b == [b[0]] + b[1..];
      assert Elems(a[1..]) == Elems(a) - {a[0]};
      assert Elems(b[1..]) == Elems(b) - {b[0]};
      StrictlySortedUnique(a[1..], b[1..]);
    }
  }

  lemma SortedIndexOrder(s: seq<string>, i: nat, j: nat)
    requires StrictlySorted(s) && i < |s| && j < |s|
    ensures Less(s[i], s[j]) <==> i < j
  {
    if i == j {
      LessIrreflexive(s[i]);
    } else if j < i {
      LessAsymmetric(s[j], s[i]);
    }
  }

  /** `t` numbers `labels` 0..n-1 in increasing order, and its two maps
      are inverse to each other. */
  ghost predicate NumbersInOrder(t: LabelTables, labels: set<string>)
  {
    && t.label2id.Keys == labels
    && (forall i :: i in t.id2label <==> 0 <= i < |t.label2id|)
    && (forall l :: l in t.label2id ==> t.label2id[l] in t.id2label && t.id2label[t.label2id[l]] == l)
    && (forall i :: i in t.id2label ==> t.id2label[i] in t.label2id && t.label2id[t.id2label[i]] == i)
    && (forall a, b :: a in t.label2id && b in t.label2id ==> (Less(a, b) <==> t.label2id[a] < t.label2id[b]))
  }

  /** No label occurs twice in a strictly sorted list. */
  lemma SortedInjective(sorted: seq<string>)
    requires StrictlySorted(sorted)
    ensures forall j1, j2 :: 0 <= j1 < |sorted| && 0 <= j2 < |sorted| && sorted[j1] == sorted[j2] ==> j1 == j2
  {
    forall j1, j2 | 0 <= j1 < |sorted| && 0 <= j2 < |sorted| && sorted[j1] == sorted[j2]
      ensures j1 == j2
    {
      SortedIndexOrder(sorted, j1, j2);
      LessIrreflexive(sorted[j1]);
    }
  }

  /** `{label: i for i, label in enumerate(D)}` (line 99). */
  function LabelIds(sorted: seq<string>): (m: map<string, nat>)
    requires StrictlySorted(sorted)
    ensures m.Keys == Elems(sorted)
    ensures forall j :: 0 <= j < |sorted| ==> m[sorted[j]] == j
  {
    SortedInjective(sorted);
    map j | 0 <= j < |sorted| :: sorted[j] := j as nat
  }

  /** `{i: label for i, label in enumerate(D)}` (line 100). */
  function IdLabels(sorted: seq<string>): (m: map<nat, string>)
    ensures forall i :: i in m <==> 0 <= i < |sorted|
    ensures forall j :: 0 <= j < |sorted| ==> m[j] == sorted[j]
  {
    map j: nat | 0 <= j < |sorted| :: sorted[j]
  }

  /** The two dictionary comprehensions over `enumerate(D)` (lines 99-100). */
  function Enumerate(sorted: seq<string>): (t: LabelTables)
    requires StrictlySorted(sorted)
    ensures NumbersInOrder(t, Elems(sorted))
  {
    var t := LabelTables(LabelIds(sorted), IdLabels(sorted));
    EnumerateInOrder(sorted, t);
    t
  }

  lemma EnumerateInOrder(sorted: seq<string>, t: LabelTables)
    requires StrictlySorted(sorted)
    requires t.label2id.Keys == Elems(sorted)
    requires forall j :: 0 <= j < |sorted| ==> t.label2id[sorted[j]] == j
    requires forall i :: i in t.id2label <==> 0 <= i < |sorted|
    requires forall j :: 0 <= j < |sorted| ==> t.id2label[j] == sorted[j]
    ensures NumbersInOrder(t, Elems(sorted))
  {
    assert |t.label2id| == |sorted| by {
      SortedInjective(sorted);
      DistinctCard(sorted);
    }
    forall l | l in t.label2id
      ensures t.label2id[l] in t.id2label && t.id2label[t.label2id[l]] == l
    {
      var j :| 0 <= j < |sorted| && sorted[j] == l;
    }
    forall a, b | a in t.label2id && b in t.label2id
      ensures Less(a, b) <==> t.label2id[a] < t.label2id[b]
    {
      var i1 :| 0 <= i1 < |sorted| && sorted[i1] == a;
      var i2 :| 0 <= i2 < |sorted| && sorted[i2] == b;
      SortedIndexOrder(sorted, i1, i2);
    }
  }

  /** `on_get_labels` (lines 83-101).  `None` gives `(None, None)`, an empty
      file list fails at `files[0]`; otherwise `label2id` numbers the
      distinct non-blank labels of the first file 0..n-1 in sorted order
      and `id2label` is its inverse. */
  method GetLabels(files: Option<seq<LabelFile>>, parseJsonLabel: string -> string)
    returns (r: Result<Option<LabelTables>>)
    ensures files.None? ==> r == Ok(None)
    ensures files == Some([]) ==> r == Err(IndexError)
    ensures files.Some? && |files.value| > 0 ==>
      r.Ok? && r.value.Some? && NumbersInOrder(r.value.value, FileLabels(files.value[0], parseJsonLabel))
  {
    if files.None? {
      return Ok(None);
    }
    if |files.value| == 0 {
      return Err(IndexError);
    }
    var file := files.value[0];
    var isJson := IsJsonFile(file.name);
    var d: seq<string> := [];
    var i := 0;
    while i < |file.lines|
      invariant 0 <= i <= |file.lines|
      invariant Elems(d) == LinesLabels(file.lines[..i], isJson, parseJsonLabel)
    {
      var line := StripLineEnd(file.lines[i]);
      if line != "" {
        if isJson {
          line := parseJsonLabel(line);
        }
        ElemsAppend(d, line);
        d := d + [line];
      }
      LinesLabelsStep(file.lines, i, isJson, parseJsonLabel);
      i := i + 1;
    }
    assert file.lines[..i] == file.lines;
    assert Elems(d) == FileLabels(file, parseJsonLabel);
    var sorted := SortedDistinct(d);
    r := Ok(Some(Enumerate(sorted)));
  }

  lemma ElemsAppend<T>(s: seq<T>, x: T)
    ensures Elems(s + [x]) == Elems(s) + {x}
  {
  }

  lemma {:induction false} DistinctCard(s: seq<string>)
    requires forall j1, j2 :: 0 <= j1 < |s| && 0 <= j2 < |s| && s[j1] == s[j2] ==> j1 == j2
    ensures |Elems(s)| == |s|
  {
    if |s| > 0 {
      var t := s[..|s| - 1];
      assert s == t + [s[|s| - 1]];
      assert Elems(s) == Elems(t) + {s[|s| - 1]};
      assert s[|s| - 1] !in Elems(t);
      DistinctCard(t);
    }
  }
}
