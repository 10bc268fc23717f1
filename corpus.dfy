/** The MLM corpus reader (`on_get_corpus` of the pretraining script): every
    JSON line with a `content` field becomes the list of its non-empty
    blank-line-separated documents, and a line counter stops reading a file
    once more than 1000 lines have been kept. File opening and `json.loads`
    are outside the model: each file is given as its parsed lines. */
module Corpus {
  import opened Common

  /** One line of a corpus file after `json.loads`. */
  datatype JsonLine =
    | Falsy                  // `null`, `{}`, `[]`, `""`, `0`: skipped by `if not jd`
    | Content(text: string)  // an object whose `content` is `text`
    | NoContent              // a non-empty object without `content`: `KeyError`

  /** The text is two newlines long at `i`. */
  predicate BlankAt(s: string, i: int)
  {
    0 <= i && i + 1 < |s| && s[i] == '\n' && s[i + 1] == '\n'
  }

  /** `s.split('\n\n')`: the separator is found scanning from the left, and
      the pieces are what lies between consecutive separators. */
  function SplitBlank(s: string): (r: seq<string>)
    ensures |r| >= 1
    ensures |r[0]| <= |s| && r[0] == s[..|r[0]|]
    ensures |r| > 1 ==> BlankAt(s, |r[0]|)
    decreases |s|
  {
    if |s| < 2 then [s]
    else if s[0] == '\n' && s[1] == '\n' then [""] + SplitBlank(s[2..])
    else
      var rest := SplitBlank(s[1..]);
      [[s[0]] + rest[0]] + rest[1..]
  }

  /** `'\n\n'.join(pieces)` */
  function JoinBlank(pieces: seq<string>): string
    requires |pieces| >= 1
  {
    if |pieces| == 1 then pieces[0] else pieces[0] + ("\n\n" + JoinBlank(pieces[1..]))
  }

  /** A piece `split` can return: no separator inside it. */
  predicate NoBlank(p: string)
  {
    forall j :: 0 <= j < |p| ==> !BlankAt(p, j)
  }

  /** Pieces `split('\n\n')` can return: no separator inside any piece, and
      no piece but the last ending in a newline (that newline and the
      separator after it would hold an earlier separator). */
  predicate SplitPieces(pieces: seq<string>)
  {
    && (forall i :: 0 <= i < |pieces| ==> NoBlank(pieces[i]))
    && (forall i :: 0 <= i < |pieces| - 1 && |pieces[i]| > 0 ==> pieces[i][|pieces[i]| - 1] != '\n')
  }

  /** A character put in front of the first piece is put in front of the
      joined text. */
  lemma JoinCons(c: char, pieces: seq<string>)
    requires |pieces| >= 1
    ensures JoinBlank([[c] + pieces[0]] + pieces[1..]) == [c] + JoinBlank(pieces)
  {
    var r := [[c] + pieces[0]] + pieces[1..];
    if |pieces| > 1 {
      assert r[1..] == pieces[1..];
      var t := "\n\n" + JoinBlank(pieces[1..]);
      assert ([c] + pieces[0]) + t == [c] + (pieces[0] + t);
    }
  }

  /** An empty first piece is a separator in front of the rest. */
  lemma JoinEmptyFirst(pieces: seq<string>)
    requires |pieces| >= 1
    ensures JoinBlank([""] + pieces) == "\n\n" + JoinBlank(pieces)
  {
    assert ([""] + pieces)[1..] == pieces;
  }

  /** Joining the pieces with the separator gives the text back. */
  lemma {:induction false} JoinSplit(s: string)
    ensures JoinBlank(SplitBlank(s)) == s
    decreases |s|
  {
    if |s| < 2 {
    } else if s[0] == '\n' && s[1] == '\n' {
      JoinSplit(s[2..]);
      JoinEmptyFirst(SplitBlank(s[2..]));
      assert s == "\n\n" + s[2..];
    } else {
      JoinSplit(s[1..]);
      JoinCons(s[0], SplitBlank(s[1..]));
      assert s == [s[0]] + s[1..];
    }
  }

  /** The pieces `SplitBlank` returns are pieces `split` can return. */
  lemma {:induction false} SplitBlankPieces(s: string)
    ensures SplitPieces(SplitBlank(s))
    decreases |s|
  {
    if |s| < 2 {
      assert forall j :: 0 <= j < |s| ==> !BlankAt(s, j);
    } else if s[0] == '\n' && s[1] == '\n' {
      SplitBlankPieces(s[2..]);
      PiecesEmptyFirst(SplitBlank(s[2..]));
    } else {
      var rest := SplitBlank(s[1..]);
      SplitBlankPieces(s[1..]);
      if |rest[0]| > 0 {
        assert rest[0][0] == s[1];
      }
      if |rest| > 1 && |rest[0]| == 0 {
        assert BlankAt(s[1..], 0);
      }
      PiecesCons(s[0], rest);
    }
  }

  lemma PiecesEmptyFirst(pieces: seq<string>)
    requires SplitPieces(pieces)
    ensures SplitPieces([""] + pieces)
  {
    var r := [""] + pieces;
    assert forall i :: 1 <= i < |r| ==> r[i] == pieces[i - 1];
  }

  lemma PiecesCons(c: char, pieces: seq<string>)
    requires |pieces| >= 1 && SplitPieces(pieces)
    requires |pieces[0]| > 0 ==> !(c == '\n' && pieces[0][0] == '\n')
    requires |pieces| > 1 && |pieces[0]| == 0 ==> c != '\n'
    ensures SplitPieces([[c] + pieces[0]] + pieces[1..])
  {
    var p := [c] + pieces[0];
    var r := [p] + pieces[1..];
    assert forall i :: 1 <= i < |r| ==> r[i] == pieces[i];
    NoBlankCons(c, pieces[0]);
  }

  lemma PiecesTail(pieces: seq<string>)
    requires |pieces| >= 1 && SplitPieces(pieces)
    ensures SplitPieces(pieces[1..])
  {
    assert forall i :: 0 <= i < |pieces| - 1 ==> pieces[1..][i] == pieces[i + 1];
  }

  lemma PiecesDropChar(pieces: seq<string>)
    requires |pieces| >= 1 && |pieces[0]| > 0 && SplitPieces(pieces)
    ensures SplitPieces([pieces[0][1..]] + pieces[1..])
  {
    var p := pieces[0];
    var r := [p[1..]] + pieces[1..];
    NoBlankTail(p);
    assert forall i :: 1 <= i < |r| ==> r[i] == pieces[i];
    if |r| > 1 && |p| > 1 {
      assert p[1..][|p| - 2] == p[|p| - 1];
    }
  }

  lemma NoBlankCons(c: char, q: string)
    requires NoBlank(q) && (|q| > 0 ==> !(c == '\n' && q[0] == '\n'))
    ensures NoBlank([c] + q)
  {
    var p := [c] + q;
    forall j | 0 <= j < |p|
      ensures !BlankAt(p, j)
    {
      if j > 0 {
        assert !BlankAt(q, j - 1);
      }
    }
  }

  lemma NoBlankTail(p: string)
    requires NoBlank(p) && |p| > 0
    ensures NoBlank(p[1..])
  {
    forall j | 0 <= j < |p[1..]|
      ensures !BlankAt(p[1..], j)
    {
      assert !BlankAt(p, j + 1);
    }
  }

  /** A text without a separator is one piece. */
  lemma {:induction false} SplitNoBlank(s: string)
    requires NoBlank(s)
    ensures SplitBlank(s) == [s]
    decreases |s|
  {
    if |s| >= 2 {
      assert !BlankAt(s, 0);
      NoBlankTail(s);
      SplitNoBlank(s[1..]);
      assert s == [s[0]] + s[1..];
    }
  }

  /** `split('\n\n')` is the only way to cut a text into pieces that join
      back to it and that `split` can return. */
  lemma {:induction false} SplitUnique(s: string, pieces: seq<string>)
    requires |pieces| >= 1 && SplitPieces(pieces) && JoinBlank(pieces) == s
    ensures SplitBlank(s) == pieces
    decreases |s|
  {
    if |pieces| == 1 {
      SplitNoBlank(s);
    } else {
      var p, tail := pieces[0], pieces[1..];
      PiecesTail(pieces);
      if |p| == 0 {
        assert s == "\n\n" + JoinBlank(tail);
        assert s[2..] == JoinBlank(tail);
        SplitUnique(s[2..], tail);
        assert pieces == [""] + tail;
      } else {
        var p' := p[1..];
        var pieces' := [p'] + tail;
        PiecesDropChar(pieces);
        assert !BlankAt(s, 0) by {
          assert s[0] == p[0];
          if |p| > 1 {
            assert !BlankAt(p, 0);
          } else {
            assert p[|p| - 1] != '\n';
          }
        }
        assert pieces'[0] == p' && pieces'[1..] == tail;
        assert p == [p[0]] + p';
        assert [[p[0]] + p'] + tail == pieces;
        JoinCons(p[0], pieces');
        assert s[1..] == JoinBlank(pieces');
        SplitUnique(s[1..], pieces');
      }
    }
  }

  /** `[doc for doc in docs if doc]`: no empty piece is left, and every
      other piece is kept as often as it occurs. */
  function NonEmpty(pieces: seq<string>): (r: seq<string>)
    ensures forall d :: d in r <==> d in pieces && d != ""
    ensures forall d :: d != "" ==> multiset(r)[d] == multiset(pieces)[d]
    ensures |r| <= |pieces|
  {
    if |pieces| == 0 then []
    else
      assert pieces == [pieces[0]] + pieces[1..];
      (if pieces[0] == "" then [] else [pieces[0]]) + NonEmpty(pieces[1..])
  }

  /** The filter keeps the order: filtering a concatenation filters each
      part. */
  lemma {:induction false} NonEmptyAppend(a: seq<string>, b: seq<string>)
    ensures NonEmpty(a + b) == NonEmpty(a) + NonEmpty(b)
    decreases |a|
  {
    if |a| == 0 {
      assert a + b == b;
    } else {
      assert (a + b)[0] == a[0] && (a + b)[1..] == a[1..] + b;
      NonEmptyAppend(a[1..], b);
    }
  }

  /** The document list one record contributes (lines 85-86). */
  function Docs(text: string): (r: seq<string>)
  {
    NonEmpty(SplitBlank(text))
  }

  /** Every document of a record is a non-empty piece of its content with
      no separator inside, and the documents with the empty pieces between
      them join back to the content. */
  lemma DocsOfContent(text: string)
    ensures forall d :: d in Docs(text) ==> d != "" && NoBlank(d) && d in SplitBlank(text)
    ensures JoinBlank(SplitBlank(text)) == text
  {
    SplitBlankPieces(text);
    JoinSplit(text);
  }

  /** The documents of every record with content, in file order: what a
      file contributes when the counter never stops it. */
  function ContentDocs(lines: seq<JsonLine>): seq<seq<string>>
  {
    if |lines| == 0 then []
    else (if lines[0].Content? then [Docs(lines[0].text)] else []) + ContentDocs(lines[1..])
  }

  /** How many more records a file may contribute when the counter stands at
      `lineNo`: up to 1001 in all, and at least the one that trips the
      `break`. */
  function Cap(lineNo: nat): nat
  {
    if lineNo <= 1000 then 1001 - lineNo else 1
  }

  /** The inner loop of lines 80-90 from counter `lineNo`: the document
      lists appended to `D` and the counter after the file, or the
      `KeyError` of a line without content. The `break` ends this file
      only. */
  function FileDocs(lines: seq<JsonLine>, lineNo: nat): Result<(seq<seq<string>>, nat)>
  {
    if |lines| == 0 then Ok(([], lineNo))
    else match lines[0]
      case Falsy => FileDocs(lines[1..], lineNo)
      case NoContent => Err(KeyError)
      case Content(t) =>
        if lineNo + 1 > 1000 then Ok(([Docs(t)], lineNo + 1))
        else Then([Docs(t)], FileDocs(lines[1..], lineNo + 1))
  }

  /** The outer loop of lines 77-90 from counter `lineNo`. */
  function FilesDocs(files: seq<seq<JsonLine>>, lineNo: nat): Result<(seq<seq<string>>, nat)>
  {
    if |files| == 0 then Ok(([], lineNo))
    else
      var first :- FileDocs(files[0], lineNo);
      Then(first.0, FilesDocs(files[1..], first.1))
  }

  /** What `on_get_corpus` returns. */
  function CorpusDocs(files: seq<seq<JsonLine>>): Result<seq<seq<string>>>
  {
    var r :- FilesDocs(files, 0);
    Ok(r.0)
  }

  /** `D` extended by what is read next. */
  function Then(D: seq<seq<string>>, r: Result<(seq<seq<string>>, nat)>): Result<(seq<seq<string>>, nat)>
  {
    match r
    case Err(e) => Err(e)
    case Ok(v) => Ok((D + v.0, v.1))
  }

  lemma ThenThen(D: seq<seq<string>>, E: seq<seq<string>>, r: Result<(seq<seq<string>>, nat)>)
    ensures Then(D, Then(E, r)) == Then(D + E, r)
  {
    if r.Ok? {
      assert D + (E + r.value.0) == (D + E) + r.value.0;
    }
  }

  /** Line `j` of a file is a line without content that the inner loop
      reaches: fewer than `Cap(lineNo)` records with content come before
      it, so the `break` has not ended the file yet. */
  predicate Reached(lines: seq<JsonLine>, lineNo: nat, j: int)
  {
    0 <= j < |lines| && lines[j] == NoContent && |ContentDocs(lines[..j])| < Cap(lineNo)
  }

  /** A line without content that the loop reaches raises `KeyError`. */
  lemma {:induction false} FileDocsErrAt(lines: seq<JsonLine>, lineNo: nat, j: nat)
    requires Reached(lines, lineNo, j)
    ensures FileDocs(lines, lineNo) == Err(KeyError)
    decreases j
  {
    if j > 0 {
      var tail := lines[1..];
      assert lines[..j] == [lines[0]] + tail[..j - 1];
      assert tail[j - 1] == lines[j];
      match lines[0]
      case Falsy =>
        assert ContentDocs(lines[..j]) == ContentDocs(tail[..j - 1]);
        FileDocsErrAt(tail, lineNo, j - 1);
      case NoContent =>
      case Content(t) =>
        assert |ContentDocs(lines[..j])| == 1 + |ContentDocs(tail[..j - 1])|;
        if lineNo + 1 <= 1000 {
          FileDocsErrAt(tail, lineNo + 1, j - 1);
        } else {
          assert false;
        }
    }
  }

  /** A file that fails has a line without content that the loop reaches. */
  lemma {:induction false} FileDocsErrWhere(lines: seq<JsonLine>, lineNo: nat) returns (j: nat)
    requires FileDocs(lines, lineNo).Err?
    ensures Reached(lines, lineNo, j)
    decreases |lines|
  {
    var tail := lines[1..];
    match lines[0]
    case NoContent =>
      j := 0;
      assert lines[..0] == [];
    case Falsy =>
      var j' := FileDocsErrWhere(tail, lineNo);
      j := j' + 1;
      assert lines[..j] == [lines[0]] + tail[..j'];
      assert ContentDocs(lines[..j]) == ContentDocs(tail[..j']);
    case Content(t) =>
      var j' := FileDocsErrWhere(tail, lineNo + 1);
      j := j' + 1;
      assert lines[..j] == [lines[0]] + tail[..j'];
      assert |ContentDocs(lines[..j])| == 1 + |ContentDocs(tail[..j'])|;
  }

  /** One file fails exactly when the loop reaches a line without content
      before the counter stops the file, and then with `KeyError`; a file
      without such a line does not fail. */
  lemma {:induction false} FileDocsErr(lines: seq<JsonLine>, lineNo: nat)
    ensures NoContent !in lines ==> FileDocs(lines, lineNo).Ok?
    ensures FileDocs(lines, lineNo).Err? ==> FileDocs(lines, lineNo).error == KeyError
    ensures FileDocs(lines, lineNo).Err? <==> exists j :: Reached(lines, lineNo, j)
  {
    if FileDocs(lines, lineNo).Err? {
      var j := FileDocsErrWhere(lines, lineNo);
      FileDocsErrAt(lines, lineNo, j);
    }
    forall j | Reached(lines, lineNo, j)
      ensures FileDocs(lines, lineNo).Err?
    {
      FileDocsErrAt(lines, lineNo, j);
    }
  }

  /** One file: the counter advances once per record with content (falsy
      records do not count), and the file contributes as many document
      lists as it has records with content, up to `Cap(lineNo)`. */
  lemma {:induction false} FileDocsCount(lines: seq<JsonLine>, lineNo: nat)
    requires FileDocs(lines, lineNo).Ok?
    ensures var (ds, n) := FileDocs(lines, lineNo).value;
      n == lineNo + |ds| && |ds| == Min(|ContentDocs(lines)|, Cap(lineNo))
    decreases |lines|
  {
    if |lines| > 0 {
      var tail := lines[1..];
      match lines[0]
      case Falsy =>
        FileDocsCount(tail, lineNo);
        assert ContentDocs(lines) == ContentDocs(tail);
      case Content(t) =>
        assert |ContentDocs(lines)| == 1 + |ContentDocs(tail)|;
        if lineNo + 1 <= 1000 {
          FileDocsCount(tail, lineNo + 1);
          assert |FileDocs(lines, lineNo).value.0| == 1 + |FileDocs(tail, lineNo + 1).value.0|;
          assert Cap(lineNo) == Cap(lineNo + 1) + 1;
        }
    }
  }

  /** The document lists a file contributes are those of its first records
      with content, in order. */
  lemma {:induction false} FileDocsPrefix(lines: seq<JsonLine>, lineNo: nat)
    requires FileDocs(lines, lineNo).Ok?
    ensures var ds := FileDocs(lines, lineNo).value.0;
      |ds| <= |ContentDocs(lines)| && ds == ContentDocs(lines)[..|ds|]
    decreases |lines|
  {
    if |lines| > 0 {
      var tail := lines[1..];
      if lines[0].Falsy? {
        FileDocsPrefix(tail, lineNo);
        assert ContentDocs(lines) == ContentDocs(tail);
      } else if lines[0].Content? {
        var d := Docs(lines[0].text);
        assert ContentDocs(lines) == [d] + ContentDocs(tail);
        if lineNo + 1 <= 1000 {
          FileDocsPrefix(tail, lineNo + 1);
          var ds := FileDocs(tail, lineNo + 1).value.0;
          assert FileDocs(lines, lineNo).value.0 == [d] + ds;
          PrefixCons(d, ContentDocs(tail), |ds|);
        }
      }
    }
  }

  lemma PrefixCons<T>(x: T, a: seq<T>, k: nat)
    requires k <= |a|
    ensures ([x] + a)[..k + 1] == [x] + a[..k]
  {
  }

  /** The cap of lines 89-90: reading from counter `lineNo`, the first file
      adds at most `Cap(lineNo)` document lists and every later one adds at
      most `Cap` of the counter it starts from; in all, at most
      `Cap(lineNo) + |files| - 1`. From zero: at most 1001 from the first
      file and 1000 plus the number of files overall. */
  lemma {:induction false} FilesDocsBound(files: seq<seq<JsonLine>>, lineNo: nat)
    requires FilesDocs(files, lineNo).Ok?
    ensures FilesDocs(files, lineNo).value.1 == lineNo + |FilesDocs(files, lineNo).value.0|
    ensures |files| > 0 ==> |FilesDocs(files, lineNo).value.0| <= Cap(lineNo) + |files| - 1
    ensures |files| == 0 ==> FilesDocs(files, lineNo).value.0 == []
    decreases |files|
  {
    if |files| > 0 {
      FileDocsCount(files[0], lineNo);
      var first := FileDocs(files[0], lineNo).value;
      FilesDocsBound(files[1..], first.1);
    }
  }

  /** The whole corpus holds at most 1000 document lists plus one per file. */
  lemma CorpusBound(files: seq<seq<JsonLine>>)
    requires CorpusDocs(files).Ok?
    ensures |CorpusDocs(files).value| <= 1000 + |files|
  {
    FilesDocsBound(files, 0);
  }

  /** The inner loop, appending to `D` and advancing the counter. */
  method ReadFile(lines: seq<JsonLine>, D0: seq<seq<string>>, lineNo0: nat) returns (r: Result<(seq<seq<string>>, nat)>)
    ensures r == Then(D0, FileDocs(lines, lineNo0))
  {
    var D, lineNo, i := D0, lineNo0, 0;
    while i < |lines|
      invariant 0 <= i <= |lines|
      invariant Then(D, FileDocs(lines[i..], lineNo)) == Then(D0, FileDocs(lines, lineNo0))
    {
      ghost var rest := FileDocs(lines[i + 1..], lineNo);
      assert lines[i..][1..] == lines[i + 1..];
      match lines[i] {
        case Falsy =>
          assert FileDocs(lines[i..], lineNo) == rest;
        case NoContent =>
          assert FileDocs(lines[i..], lineNo) == Err(KeyError);
          assert Then(D, FileDocs(lines[i..], lineNo)) == Err(KeyError);
          return Err(KeyError);
        case Content(t) =>
          var docs := Docs(t);
          if lineNo + 1 > 1000 {
            assert FileDocs(lines[i..], lineNo) == Ok(([docs], lineNo + 1));
            assert Then(D, FileDocs(lines[i..], lineNo)) == Ok((D + [docs], lineNo + 1));
            return Ok((D + [docs], lineNo + 1));
          }
          assert FileDocs(lines[i..], lineNo) == Then([docs], FileDocs(lines[i + 1..], lineNo + 1));
          ThenThen(D, [docs], FileDocs(lines[i + 1..], lineNo + 1));
          D := D + [docs];
          lineNo := lineNo + 1;
      }
      i := i + 1;
    }
    assert lines[i..] == [];
    assert D + [] == D;
    assert Then(D, FileDocs(lines[i..], lineNo)) == Ok((D, lineNo));
    r := Ok((D, lineNo));
  }

  /** `on_get_corpus` (lines 74-95). */
  method GetCorpus(files: seq<seq<JsonLine>>) returns (r: Result<seq<seq<string>>>)
    ensures r == CorpusDocs(files)
  {
    var D: seq<seq<string>> := [];
    var lineNo := 0;
    var i := 0;
    while i < |files|
      invariant 0 <= i <= |files|
      invariant Then(D, FilesDocs(files[i..], lineNo)) == Then([], FilesDocs(files, 0))
    {
      assert files[i..][1..] == files[i + 1..];
      assert files[i..][0] == files[i];
      var next := ReadFile(files[i], D, lineNo);
      if next.Err? {
        assert FilesDocs(files[i..], lineNo) == Err(next.error);
        assert Then(D, FilesDocs(files[i..], lineNo)) == Err(next.error);
        return Err(next.error);
      }
      ghost var first := FileDocs(files[i], lineNo).value;
      ThenThen(D, first.0, FilesDocs(files[i + 1..], first.1));
      D, lineNo := next.value.0, next.value.1;
      i := i + 1;
    }
    assert files[i..] == [];
    assert D + [] == D;
    assert Then(D, FilesDocs(files[i..], lineNo)) == Ok((D, lineNo));
    assert [] + FilesDocs(files, 0).value.0 == FilesDocs(files, 0).value.0;
    r := Ok(D);
  }
}
