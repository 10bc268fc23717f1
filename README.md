# Verified model of the data shaping of a sentence-vector classifier and an MLM pretrainer

This project models, in Dafny, the data-shaping routines of two training
scripts. The first script, `task_tnews_cosface.py`, trains a sentence-vector
classifier with a CosFace head. The second, `train.py`, does masked-language-model
pretraining. Nothing of the neural networks is modelled. What is modelled is
what these scripts do to lists, strings and dictionaries before and after the
model runs:

- **Label table** (`labels.dfy`): `on_get_labels` reads the label lines of
  the first file, drops blank ones, sorts the distinct labels and numbers
  them `0..n-1`. The model proves that `label2id` and `id2label` are mutual
  inverses, that ids follow the sorted order, and that the sorted distinct
  list is the only strictly sorted listing of the label set.
- **Fixed-length encoding** (`encoding.dfy`, `batching.dfy`): the record
  `on_data_process` builds from the tokenizer's output. It holds the
  `seqlen`, the right-padding of the ids and the mask, and the label id.
- **Batch collation** (`collate.dfy` specifies, `collate_fn.dfy` runs the
  loops) for both scripts. Records are stacked key by key, `seqlen` is
  removed, and the sequence-shaped fields are cut to the longest `seqlen`.
- **Pair construction** (`pairs.dfy` specifies, `pairs_gen.dfy` runs it
  in place). `generate_pair_example` builds same-label positive pairs by
  popping chosen positions from the shared label lists, in descending
  order. It builds cross-label negative pairs by a greedy scan over a
  shuffled flat index list. Two Python behaviours are kept as the script
  has them:
  - the pops mutate the caller's lists, because `copy.copy` is shallow;
  - a label removed from `all_keys` while the loop runs over `all_keys`
    makes the loop skip the next label.
- **Evaluation bookkeeping** (`evaluation.dfy`), from `on_save_model`:
  - pairs are written flat and read back by stride 2;
  - the evaluation columns and the label vector are built;
  - the model's vectors are split into the two columns;
  - the best-score rule decides when a checkpoint is saved.
- **Document chunking** (`chunking.dfy`), from the MLM `on_data_process`:
  the joined documents are sliced into pieces of `max_seq_length - 2`
  characters, and each piece becomes one sample.
- **Corpus reading** (`corpus.dfy`), from the MLM `on_get_corpus`:
  - each record's content is split on blank lines and empty pieces are
    dropped;
  - a line counter stops each file once it passes 1000, but the `break`
    leaves only the inner loop.

`common.dfy` holds the Python semantics the modules share: `Result` with
Python's exception kinds, slicing, `''.join`, `list.remove`. `records.dfy`
holds the array values.

Random draws are inputs of the model, each with a precondition that says
what the generator can return:
- `keys0` is the shuffled key list, each label once;
- `draw` gives the `randint` value of every label, and `picks` its
  `np.random.choice` positions: `num_size` distinct positions of the list;
- `shuffle(n)` is a permutation of `0..n-1`.

The tokenizer's output is given as a token list. `make_mlm_wwm_sample` is a
function parameter. Parsed JSON lines are given as values.

## Model

| member | source | states |
|---|---|---|
| Common.Slice | task_pretrain/mlm_pretrain/train.py:62 | Python's `s[i:j]` is never longer than the list, and between in-range bounds it is exactly the elements between them |
| Common.Take | task_sentence_vector/task_classify_vector/task_tnews_cosface.py:130-133 | `row[:m]` for `m >= 0` is the first `min(m, len)` elements of the row |
| Common.RemoveFirst | task_sentence_vector/task_classify_vector/task_tnews_cosface.py:171 | `list.remove(x)` of a value in the list: the list is one element shorter and every element left comes from it |
| Common.RemoveFirstAt | task_sentence_vector/task_classify_vector/task_tnews_cosface.py:190 | in a list without duplicates, `remove` of the value at index `i` drops exactly position `i` |
| Records.SeqMax | task_sentence_vector/task_classify_vector/task_tnews_cosface.py:129 | `torch.max` of a non-empty column is one of its elements and no element is larger |
| Encoding.PadRight | task_sentence_vector/task_classify_vector/task_tnews_cosface.py:72-73 | `np.pad(s, (0, n))` with a constant: `n` longer, the original prefix unchanged, every added entry the constant |
| Encoding.LabelId | task_sentence_vector/task_classify_vector/task_tnews_cosface.py:67 | a missing label gives id 0, a known label its `label2id` id, and an unknown label `KeyError` (both directions) |
| Encoding.EncodeExample | task_sentence_vector/task_classify_vector/task_tnews_cosface.py:58-80 | the record has exactly `input_ids`, `attention_mask`, `labels` and `seqlen`; `seqlen` is the token count; the token ids and mask are kept as a prefix, and below `max_seq_length` they are padded to exactly that length with the pad id and 0; fails exactly when the label is unknown |
| Batching.Longest | task_sentence_vector/task_classify_vector/task_tnews_cosface.py:129 | the largest `seqlen` of a non-empty batch: no token list is longer, and some token list has that length |
| Batching.EncodedFields | task_sentence_vector/task_classify_vector/task_tnews_cosface.py:67-79 | an encoded example's four fields: `seqlen` is the token count, ids and mask padded by `max_seq_length - seqlen`, the label id as a one-element vector |
| Batching.PadPrefix | task_sentence_vector/task_classify_vector/task_tnews_cosface.py:130-131 | cutting a right-padded row inside its padding gives the row padded by fewer entries |
| Batching.TrimEncoded | task_sentence_vector/task_classify_vector/task_tnews_cosface.py:129-131 | an encoded example cut to any width `m` between its token count and `max_seq_length` is its ids padded with the pad id, and its mask padded with 0, to exactly `m` |
| Labels.DropCrLf | task_sentence_vector/task_classify_vector/task_tnews_cosface.py:92 | `replace('\r\n', '')` never makes the line longer, and a line without `\r` is unchanged |
| Labels.DropCrLfKeeps | task_sentence_vector/task_classify_vector/task_tnews_cosface.py:92 | `replace('\r\n', '')` keeps every character other than `\r` and `\n` as often as it occurs |
| Labels.DropCrLfPairs | task_sentence_vector/task_classify_vector/task_tnews_cosface.py:92 | `replace('\r\n', '')` removes characters only in `\r\n` pairs: the line shrinks by two per `\r` removed, and loses as many `\n` as `\r` |
| Labels.DropCrLfPrefix | task_sentence_vector/task_classify_vector/task_tnews_cosface.py:92 | `replace('\r\n', '')` leaves a leading part without `\r` in place and works on the rest |
| Labels.DropLf | task_sentence_vector/task_classify_vector/task_tnews_cosface.py:92 | `replace('\n', '')` leaves no newline, and a line without newline is unchanged |
| Labels.DropLfKeeps | task_sentence_vector/task_classify_vector/task_tnews_cosface.py:92 | `replace('\n', '')` keeps every other character as often as it occurs |
| Labels.DropLfPrefix | task_sentence_vector/task_classify_vector/task_tnews_cosface.py:92 | `replace('\n', '')` leaves a leading part without newline in place and works on the rest |
| Labels.StripLineEnd | task_sentence_vector/task_classify_vector/task_tnews_cosface.py:92 | the line terminator removal leaves no newline, keeps every character other than `\r` and `\n` as often as it occurs, and never adds a `\r` |
| Labels.StripTerminated | task_sentence_vector/task_classify_vector/task_tnews_cosface.py:92 | a line `x` without `\r` or `\n` strips to itself, and so do `x` followed by `\n` and `x` followed by `\r\n` |
| Labels.LinesLabelsStep | task_sentence_vector/task_classify_vector/task_tnews_cosface.py:91-97 | the labels of the first `i + 1` lines are those of the first `i` plus the `i`-th line's label unless that line is blank once stripped |
| Labels.LessIrreflexive | task_sentence_vector/task_classify_vector/task_tnews_cosface.py:98 | Python's string `<` is irreflexive |
| Labels.LessAsymmetric | task_sentence_vector/task_classify_vector/task_tnews_cosface.py:98 | Python's string `<` is asymmetric |
| Labels.LessTransitive | task_sentence_vector/task_classify_vector/task_tnews_cosface.py:98 | Python's string `<` is transitive |
| Labels.LessTotal | task_sentence_vector/task_classify_vector/task_tnews_cosface.py:98 | any two different strings are ordered one way or the other |
| Labels.Insert | task_sentence_vector/task_classify_vector/task_tnews_cosface.py:98 | inserting a label into a strictly sorted list keeps it strictly sorted and adds exactly that label |
| Labels.InsertFront | task_sentence_vector/task_classify_vector/task_tnews_cosface.py:98 | a label smaller than the head goes in front, keeping the list strictly sorted |
| Labels.InsertAfter | task_sentence_vector/task_classify_vector/task_tnews_cosface.py:98 | a label larger than the head goes into the tail, keeping the list strictly sorted |
| Labels.SortedDistinct | task_sentence_vector/task_classify_vector/task_tnews_cosface.py:98 | `sorted(list(set(D)))` is strictly sorted and holds exactly the labels of `D` |
| Labels.StrictlySortedUnique | task_sentence_vector/task_classify_vector/task_tnews_cosface.py:98 | two strictly sorted lists with the same labels are equal, so the sorted distinct list is determined by the label set |
| Labels.SortedIndexOrder | task_sentence_vector/task_classify_vector/task_tnews_cosface.py:98-99 | in a strictly sorted list, one label is smaller than another exactly when its index is smaller |
| Labels.SortedInjective | task_sentence_vector/task_classify_vector/task_tnews_cosface.py:99-100 | no label sits at two indices of a strictly sorted list |
| Labels.Enumerate | task_sentence_vector/task_classify_vector/task_tnews_cosface.py:99-100 | the two tables number the labels `0..n-1` in increasing order and are inverse to each other |
| Labels.EnumerateInOrder | task_sentence_vector/task_classify_vector/task_tnews_cosface.py:99-100 | tables built by the two comprehensions are mutual inverses and ids follow the label order |
| Labels.GetLabels | task_sentence_vector/task_classify_vector/task_tnews_cosface.py:83-101 | `None` gives `(None, None)`; an empty file list fails at `files[0]` with `IndexError`; otherwise `label2id` numbers the distinct non-blank labels of the first file `0..n-1` in sorted order and `id2label` is its inverse |
| Labels.DistinctCard | task_sentence_vector/task_classify_vector/task_tnews_cosface.py:98 | a list without repeated labels has as many distinct labels as elements |
| Collate.Gathered | task_sentence_vector/task_classify_vector/task_tnews_cosface.py:119-126 | the dictionary of lists: `KeyError` exactly when a later example has a key the first lacks; otherwise the first example's keys, each holding that field of every example in batch order |
| Collate.Stack | task_sentence_vector/task_classify_vector/task_tnews_cosface.py:127-128 | `torch.stack`: scalars give a column of those scalars, equally long vectors a matrix of those rows; anything else is a shape error |
| Collate.StackAll | task_sentence_vector/task_classify_vector/task_tnews_cosface.py:127-128 | every list is stacked under its own key, or some list cannot be stacked |
| Collate.MaxOf | task_sentence_vector/task_classify_vector/task_tnews_cosface.py:129 | the maximum of a non-empty column is one of its entries and no entry is larger; an empty column is an error |
| Collate.CutRows | task_sentence_vector/task_classify_vector/task_tnews_cosface.py:130 | `t[:, :m]` succeeds exactly on a matrix and cuts each of its rows to its first `m` entries |
| Collate.ApplyCuts | task_sentence_vector/task_classify_vector/task_tnews_cosface.py:130-133 | the cuts keep the keys, leave uncut fields alone, cut each named field that is present, and fail on a missing mandatory field |
| Collate.CollatedShape | task_sentence_vector/task_classify_vector/task_tnews_cosface.py:118-134 | a collated batch has no `seqlen`, has every other field of the first example, and holds each field cut to the largest `seqlen` or left whole as the cut list says |
| Collate.ApplyCutsStep | task_pretrain/mlm_pretrain/train.py:112-117 | the cuts are applied one statement at a time, in source order |
| CollateFn.FirstFields | task_sentence_vector/task_classify_vector/task_tnews_cosface.py:121-123 | the first example opens one list per key, holding its own field |
| CollateFn.AppendFields | task_sentence_vector/task_classify_vector/task_tnews_cosface.py:125-126 | a later example appends its field to every list; a key the first example lacked raises `KeyError` (both directions) |
| CollateFn.GatherBatch | task_sentence_vector/task_classify_vector/task_tnews_cosface.py:119-126 | the loop over the batch computes the dictionary of lists `Collate.Gathered` specifies, including its `KeyError` |
| CollateFn.GatherStep | task_sentence_vector/task_classify_vector/task_tnews_cosface.py:125-126 | appending one more example keeps each list equal to that field of the examples seen so far |
| CollateFn.StackFields | task_sentence_vector/task_classify_vector/task_tnews_cosface.py:127-128 | the stacking loop gives `Collate.StackAll` of the lists |
| CollateFn.CollateClassify | task_sentence_vector/task_classify_vector/task_tnews_cosface.py:118-134 | the classification `collate_fn` equals the specified collation with the cuts of `input_ids`, `attention_mask` and, if present, `token_type_ids`; `labels` is stacked and not cut |
| CollateFn.CutClassify | task_sentence_vector/task_classify_vector/task_tnews_cosface.py:129-133 | the statements after stacking compute the specified cut of the stacked batch |
| CollateFn.CollateMlm | task_pretrain/mlm_pretrain/train.py:98-118 | the MLM `collate_fn` equals the specified collation with `input_ids`, `attention_mask`, `token_type_ids` if present, `labels` and `weight` cut |
| CollateFn.CutMlm | task_pretrain/mlm_pretrain/train.py:110-117 | the statements after stacking compute the specified cut of the stacked batch |
| CollateFn.CutNext | task_pretrain/mlm_pretrain/train.py:112-117 | one cut statement, skipped for an absent optional field, leaves the rest of the cuts to do |
| CollateFn.StackBatchFields | task_sentence_vector/task_classify_vector/task_tnews_cosface.py:119-128 | the two loops together compute the stacked batch |
| Chunking.ChunksConcat | task_pretrain/mlm_pretrain/train.py:58-64 | the chunks joined give back `''.join(documents)` |
| Chunking.ChunksLengths | task_pretrain/mlm_pretrain/train.py:61-64 | every chunk is non-empty and at most `max_seq_length - 2` long, and every chunk but the last is exactly that long |
| Chunking.ChunksCount | task_pretrain/mlm_pretrain/train.py:61-64 | there are `ceil(len / (max_seq_length - 2))` chunks |
| Chunking.NoProgress | task_pretrain/mlm_pretrain/train.py:61-63 | with `max_seq_length <= 2`, a round never carries `pos` to the end of a non-empty text: the slice is empty, or a negative stop counted from the end cuts it short |
| Chunking.NeverEnds | task_pretrain/mlm_pretrain/train.py:61-63 | with `max_seq_length <= 2`, no number of rounds ends the loop on a non-empty text |
| Chunking.ChunkStep | task_pretrain/mlm_pretrain/train.py:62-64 | one round cuts off the first chunk of the text still left |
| Chunking.ChunkText | task_pretrain/mlm_pretrain/train.py:58-64 | the `while` loop produces exactly the chunks of the joined text |
| Chunking.OnDataProcess | task_pretrain/mlm_pretrain/train.py:52-70 | one node per chunk, in chunk order, each made from its chunk |
| Chunking.ChunkedDocuments | task_pretrain/mlm_pretrain/train.py:57-70 | the chunks join back to the documents, an empty text gives no chunk and so no node, and chunk lengths are as above |
| Corpus.SplitBlank | task_pretrain/mlm_pretrain/train.py:85 | `split('\n\n')`: at least one piece; the first piece is a prefix of the text, followed by a separator when more pieces follow |
| Corpus.JoinSplit | task_pretrain/mlm_pretrain/train.py:85 | the pieces joined with the separator give the text back |
| Corpus.SplitBlankPieces | task_pretrain/mlm_pretrain/train.py:85 | no piece holds a separator, and every piece but the last is followed by a separator that starts no earlier one |
| Corpus.SplitNoBlank | task_pretrain/mlm_pretrain/train.py:85 | a text without a separator is a single piece |
| Corpus.SplitUnique | task_pretrain/mlm_pretrain/train.py:85 | the pieces are the only ones that join back to the text and that `split` can return, so `SplitBlank` is Python's `split` |
| Corpus.NonEmpty | task_pretrain/mlm_pretrain/train.py:86 | `[doc for doc in docs if doc]`: no empty piece is left, every non-empty piece is kept exactly as often as it occurs, and the list never grows |
| Corpus.NonEmptyAppend | task_pretrain/mlm_pretrain/train.py:86 | the filter distributes over concatenation, so it keeps the order of the pieces |
| Corpus.DocsOfContent | task_pretrain/mlm_pretrain/train.py:84-86 | every document of a record is a non-empty piece of its content without a separator |
| Corpus.FileDocsErrAt | task_pretrain/mlm_pretrain/train.py:80-90 | a record without `content` that the loop reaches, with fewer records with content before it than the counter still admits (`Cap(lineNo)`), raises `KeyError` |
| Corpus.FileDocsErrWhere | task_pretrain/mlm_pretrain/train.py:80-90 | a file that fails has a record without `content` that the loop reaches before the counter stops the file |
| Corpus.FileDocsErr | task_pretrain/mlm_pretrain/train.py:80-90 | a file fails exactly when the loop reaches a record without `content` before the cap, and then with `KeyError`; records without `content` after the cap are never read, and a file without such records does not fail |
| Corpus.FileDocsCount | task_pretrain/mlm_pretrain/train.py:80-90 | the counter advances once per record with content, falsy records do not count, and a file contributes as many lists as it has such records up to the cap |
| Corpus.FileDocsPrefix | task_pretrain/mlm_pretrain/train.py:80-90 | a file's document lists are those of its first records with content, in order |
| Corpus.FilesDocsBound | task_pretrain/mlm_pretrain/train.py:77-90 | the counter ends at the number of lists read; the first file gives at most the cap, and every later file at most one more, because `break` leaves only the inner loop |
| Corpus.CorpusBound | task_pretrain/mlm_pretrain/train.py:74-95 | the corpus holds at most 1000 document lists plus one per file |
| Corpus.ReadFile | task_pretrain/mlm_pretrain/train.py:80-90 | the inner loop appends exactly what the file specification gives and advances the counter with it |
| Corpus.GetCorpus | task_pretrain/mlm_pretrain/train.py:74-95 | the outer loop returns the specified corpus |
| Evaluation.RecordWriter.Write | task_sentence_vector/task_classify_vector/task_tnews_cosface.py:282-283 | `f_out.write(x)` appends one record |
| Evaluation.Flatten | task_sentence_vector/task_classify_vector/task_tnews_cosface.py:280-290 | the stream of `n` pairs has `2n` records |
| Evaluation.FlattenAt | task_sentence_vector/task_classify_vector/task_tnews_cosface.py:281-283 | pair `j` sits at records `2j` and `2j + 1` |
| Evaluation.WritePairs | task_sentence_vector/task_classify_vector/task_tnews_cosface.py:280-290 | the write loop appends `pair[0]` then `pair[1]` of every pair, in order |
| Evaluation.ReadPairs | task_sentence_vector/task_classify_vector/task_tnews_cosface.py:267-268 | reading by stride 2 succeeds exactly on an even stream, giving record pairs `(2j, 2j+1)`; an odd stream raises `IndexError` |
| Evaluation.WriteRead | task_sentence_vector/task_classify_vector/task_tnews_cosface.py:267-290 | pairs written and read back are the same pairs |
| Evaluation.ReadWrite | task_sentence_vector/task_classify_vector/task_tnews_cosface.py:267-290 | an even stream read back as pairs and written again is the same stream |
| Evaluation.EvalSetAligned | task_sentence_vector/task_classify_vector/task_tnews_cosface.py:292-295 | row `j` of `a_data`, `b_data` and `labels` comes from pair `j` of the positives then the negatives; `labels` is `len(pos)` ones followed by `len(neg)` zeros; `t_data` is `a_data + b_data` |
| Evaluation.Embed | task_sentence_vector/task_classify_vector/task_tnews_cosface.py:297-305 | the batch loop yields one vector per input, in order, each the model's output for that input |
| Evaluation.SplitVectors | task_sentence_vector/task_classify_vector/task_tnews_cosface.py:307-308 | the first `len(a_data)` vectors are those of `a_data` and the rest those of `b_data`, aligned row by row |
| Evaluation.BestIsMax | task_sentence_vector/task_classify_vector/task_tnews_cosface.py:311-317 | the best score kept is the largest numeric score so far, and none exists exactly when every score was NaN |
| Evaluation.BestCheckpoint.constructor | task_sentence_vector/task_classify_vector/task_tnews_cosface.py:247-250 | no best score yet, no checkpoint saved |
| Evaluation.BestCheckpoint.OnScore | task_sentence_vector/task_classify_vector/task_tnews_cosface.py:311-317 | a checkpoint is saved, and the best replaced by the score, exactly when the score is at least the best so far; otherwise nothing changes, so the stored best never decreases |
| Pairs.KeepNone | task_sentence_vector/task_classify_vector/task_tnews_cosface.py:164-165 | removing no position inside the list leaves it whole |
| Pairs.KeepBelow | task_sentence_vector/task_classify_vector/task_tnews_cosface.py:164-165 | removing only positions above `i` leaves positions `0..i` in place |
| Pairs.KeepPop | task_sentence_vector/task_classify_vector/task_tnews_cosface.py:164-165 | `list.pop(i)` below every position already popped removes position `i` of the original list |
| Pairs.KeepLength | task_sentence_vector/task_classify_vector/task_tnews_cosface.py:164-170 | popping `g` distinct positions leaves `len - g` examples |
| Pairs.InsertDesc | task_sentence_vector/task_classify_vector/task_tnews_cosface.py:158 | inserting into a descending list keeps it descending, with that index added |
| Pairs.SortDesc | task_sentence_vector/task_classify_vector/task_tnews_cosface.py:158 | `sorted(ids, reverse=True)` is descending with the same indices |
| Pairs.TakeRound | task_sentence_vector/task_classify_vector/task_tnews_cosface.py:161-166 | after `t` rounds, reading and popping `i1` then `i2` reads and removes those positions of the original list |
| Pairs.AboveRound | task_sentence_vector/task_classify_vector/task_tnews_cosface.py:158-165 | the positions popped before round `t` are all above `i1`, which is above `i2` |
| Pairs.TakenPairsNext | task_sentence_vector/task_classify_vector/task_tnews_cosface.py:166 | each round appends the pair of its two examples |
| Pairs.LabelTurn | task_sentence_vector/task_classify_vector/task_tnews_cosface.py:149-171 | one label's turn: skip an empty list or one with `num_size < 2`, raise on a list of one example, or take pairs |
| Pairs.TurnCounts | task_sentence_vector/task_classify_vector/task_tnews_cosface.py:150-168 | a turn raises exactly for a list of one example; a turn that takes pairs takes between one and `num_size // 2`, exactly one once `pos_num_max` is reached and no more than reach it before, removes two chosen positions per pair, and the rest of the list keeps its order |
| Pairs.TurnPairs | task_sentence_vector/task_classify_vector/task_tnews_cosface.py:161-166 | every pair a turn takes is the examples at two different positions of the list, both among the removed positions |
| Pairs.TakenFrom | task_sentence_vector/task_classify_vector/task_tnews_cosface.py:161-166 | the first `m` rounds take the examples at the first `2m` chosen positions |
| Pairs.TurnIsOk | task_sentence_vector/task_classify_vector/task_tnews_cosface.py:150-168 | every turn is a raise for a one-example list, a skip, or a take within the counts above |
| Pairs.ApplyTook | task_sentence_vector/task_classify_vector/task_tnews_cosface.py:170-171 | with distinct keys, `all_keys.remove(pos_label)` removes the label at the loop's index |
| Pairs.ApplyPending | task_sentence_vector/task_classify_vector/task_tnews_cosface.py:171 | after a turn, the labels from the next index on are still unvisited, although removing the current label makes the loop skip one |
| Pairs.RunEnd | task_sentence_vector/task_classify_vector/task_tnews_cosface.py:148 | past the last key the loop is over |
| Pairs.RunRaise | task_sentence_vector/task_classify_vector/task_tnews_cosface.py:152 | a turn that raises ends the loop with the error |
| Pairs.RunStep | task_sentence_vector/task_classify_vector/task_tnews_cosface.py:148-171 | a turn that does not raise hands over to the next index of the possibly shortened key list |
| Pairs.ApplyKeys | task_sentence_vector/task_classify_vector/task_tnews_cosface.py:170-171 | the key list keeps only labels of the shuffled list, and a removed label has at most one example left |
| Pairs.ApplyPos | task_sentence_vector/task_classify_vector/task_tnews_cosface.py:161-166 | every positive pair stays two examples at different removed positions of one label's list |
| Pairs.ApplyCount | task_sentence_vector/task_classify_vector/task_tnews_cosface.py:167-168 | a turn keeps the count at most `pos_num_max` plus one per visited label, and raises only on a list of one example |
| Pairs.ApplyInv | task_sentence_vector/task_classify_vector/task_tnews_cosface.py:148-171 | one turn keeps the loop invariant |
| Pairs.PosRunInv | task_sentence_vector/task_classify_vector/task_tnews_cosface.py:148-173 | the whole positive loop keeps the invariant: a label leaves the key list only with at most one example left, every pair is two removed positions of one label's list, the count is at most `pos_num_max` plus one per visited label, and a raise comes from a list of one example |
| Pairs.PosStart | task_sentence_vector/task_classify_vector/task_tnews_cosface.py:140-147 | the loop starts with every label unvisited and no pair |
| Pairs.FlatEntries | task_sentence_vector/task_classify_vector/task_tnews_cosface.py:175-179 | the flat list holds exactly the examples of the listed labels, each with its own label |
| Pairs.FirstOther | task_sentence_vector/task_classify_vector/task_tnews_cosface.py:186-188 | the first scanned index whose label differs from `k1`; all indices skipped before it have label `k1`, and none is found only when every one does |
| Pairs.NegAdd | task_sentence_vector/task_classify_vector/task_tnews_cosface.py:189-190 | a pair of two unused positions with different labels keeps the pairs sound |
| Pairs.NegStep | task_sentence_vector/task_classify_vector/task_tnews_cosface.py:185-190 | one round keeps the pairs sound and the remaining indices unused |
| Pairs.NegRunExtends | task_sentence_vector/task_classify_vector/task_tnews_cosface.py:183-196 | the loop only appends negative pairs |
| Pairs.NegRunBound | task_sentence_vector/task_classify_vector/task_tnews_cosface.py:183-196 | the loop stops right after passing five negatives per positive, so it ends with at most `5 * len(pos) + 1` |
| Pairs.NegRunSound | task_sentence_vector/task_classify_vector/task_tnews_cosface.py:183-196 | every negative pair joins two examples of different labels, and no flat example is used twice |
| Pairs.NegRunUsed | task_sentence_vector/task_classify_vector/task_tnews_cosface.py:183-196 | the negatives use only indices of the shuffled list |
| Pairs.NegRunNone | task_sentence_vector/task_classify_vector/task_tnews_cosface.py:185-188 | a round that finds no partner drops the popped index and goes on |
| Pairs.NegRunSome | task_sentence_vector/task_classify_vector/task_tnews_cosface.py:185-194 | a round that finds a partner appends it, removes it, and stops once the bound is passed |
| Pairs.PosPhase | task_sentence_vector/task_classify_vector/task_tnews_cosface.py:137-173 | the positive loop from the shuffled key order keeps the loop invariant |
| Pairs.NegPhase | task_sentence_vector/task_classify_vector/task_tnews_cosface.py:175-196 | the negatives, as flat positions, are sound |
| Pairs.NegValuesFrom | task_sentence_vector/task_classify_vector/task_tnews_cosface.py:175-190 | each negative's examples come from two different labels of the key list |
| Pairs.GeneratePairsRaise | task_sentence_vector/task_classify_vector/task_tnews_cosface.py:152 | `generate_pair_example` raises only `ValueError`, and only when some label has exactly one example |
| Pairs.GeneratePairsPositives | task_sentence_vector/task_classify_vector/task_tnews_cosface.py:137-173 | every positive pair is two examples at different positions of one label's list, positions popped from that list, which keeps the rest in order; at most `pos_num_max` plus one per label |
| Pairs.GeneratePairsNegatives | task_sentence_vector/task_classify_vector/task_tnews_cosface.py:175-198 | every negative pair joins examples of two different labels still in the key list, so labels removed at line 171 give none; at most `5 * len(pos) + 1` negatives |
| Pairs.ScanSkipsNeighbour | task_sentence_vector/task_classify_vector/task_tnews_cosface.py:186 | as written, the scan skips the index right after the popped one: two examples of different labels give no negative pair |
| Pairs.ScanFromStartPairs | task_sentence_vector/task_classify_vector/task_tnews_cosface.py:186 | scanning from the next index, the loop makes no negative only when every example has the same label |
| PairsGen.ExampleList.PopAt | task_sentence_vector/task_classify_vector/task_tnews_cosface.py:164-165 | `list.pop(i)` returns element `i` and removes exactly it |
| PairsGen.TakePairs | task_sentence_vector/task_classify_vector/task_tnews_cosface.py:161-168 | the `zip` loop pops exactly the first chosen positions it reaches from the shared list and returns their pairs, stopping at `pos_num_max` |
| PairsGen.LabelStep | task_sentence_vector/task_classify_vector/task_tnews_cosface.py:149-168 | one label's turn on its shared list is the specified turn, and the list is left without the removed positions |
| PairsGen.VisitLabel | task_sentence_vector/task_classify_vector/task_tnews_cosface.py:148-171 | a visit changes the key list, the removed positions and the pairs as `Pairs.Apply` says, and only the visited label's list |
| PairsGen.PositivePhase | task_sentence_vector/task_classify_vector/task_tnews_cosface.py:148-173 | the positive loop, removing keys while iterating, ends in the state `Pairs.PosRun` specifies, with every shared list updated in place |
| PairsGen.CountExamples | task_sentence_vector/task_classify_vector/task_tnews_cosface.py:144-146 | `num_all` is the number of examples of all labels |
| PairsGen.FlattenLists | task_sentence_vector/task_classify_vector/task_tnews_cosface.py:175-179 | the nested loop builds the specified flat list |
| PairsGen.FindOther | task_sentence_vector/task_classify_vector/task_tnews_cosface.py:186-188 | the scan returns the first index with another label, or none |
| PairsGen.NegativePhase | task_sentence_vector/task_classify_vector/task_tnews_cosface.py:183-196 | the `while` loop produces the specified negatives, which are sound |
| PairsGen.GeneratePairExample | task_sentence_vector/task_classify_vector/task_tnews_cosface.py:137-198 | `generate_pair_example` returns the specified result and leaves the caller's lists without the popped examples |

## Left out

- The tokenizer call (task_tnews_cosface.py line 63) is not modelled: its output is an input of `Encoding.EncodeExample`, assumed already truncated to `max_seq_length`.
- `make_mlm_wwm_sample` (train.py line 68) is the parameter `makeSample` of `Chunking.OnDataProcess`. The random generator state it advances is folded into the chunk index it receives.
- File opening, `readlines`, `json.loads`, the record caches and their existence checks, `print` and `logging` are left out as I/O. Files are given as their parsed lines, and a JSON label line as a `parseJsonLabel` function.
- The random number generator is left out. Every draw is an input constrained by a precondition, as listed above.
- `evaluate_sample`, with its cosine distances and Spearman correlation, is floating-point numerics. A score is kept abstract as a real or NaN.
- The losses, the CosFace head, the trainer, the DataLoader, device moves, DDP and argument parsing are left out as framework code.
- Integer widths are left out. Numbers are unbounded: `int64` arrays and the `int32` draw never get near their limits for list lengths.
- The `print` calls at lines 180 and 197 of task_tnews_cosface.py and at lines 92-94 of train.py are left out. The one in train.py is unreachable anyway: `line_no % 10000 == 0` needs `line_no >= 10000`, and every such value has already taken the `break` at `line_no > 1000`.
- The `flag` of the positive loop (task_tnews_cosface.py lines 160 and 172-173) is never set. Its `break` is dead, and the model has none.
- `Collate.CollatedShape` states the collated shape for any cut list. The composition of encoding and collation over a whole batch is stated per row (`Batching.TrimEncoded`), not for the stacked tensor.
- Common.RemoveFirst: a value absent from the list is not modelled; Python raises `ValueError` there. Both callers (task_tnews_cosface.py lines 171 and 190) remove an element they have just read from the list.
- Corpus.FileDocsErr: a truthy JSON value that is not an object (a non-empty list, a number, `true`) raises `TypeError` at train.py line 84, and a `content` that is not a string raises `AttributeError` at line 85. `JsonLine` has no case for either, so the model states neither failure.
- Labels.GetLabels: a JSON label line without a `label` key raises `KeyError` at task_tnews_cosface.py line 96. The model's `parseJsonLabel` is a total function, so that failure is not stated.
- Chunking.ChunkText requires `max_seq_length > 2` for a non-empty text, a setting the script never checks. Below it the loop never ends; see the finding below.
- `PairsGen.GeneratePairExample` requires the label lists to be distinct objects. Aliased lists under two labels are not modelled.
- `PairsGen.GeneratePairExample`: `num_all` is computed over the shuffled key order rather than the dictionary's order. Both give the same sum.
- `PairsGen.PositivePhase` asks only for distinct keys that are all labels of the dictionary, not for every label to be listed. That is weaker than what the caller guarantees, and enough for the loop.
- `Pairs.GeneratePairs` takes the start of the partner scan as a parameter `skip`. The script's `idx_list[1:]` is `skip = 1`, and every property but the ones in the finding below holds for any start.
- `Pairs.DrawFits`: a list of more than 100 examples makes `num_size` a tenth of its length with no draw. A list of two to 100 examples draws from `[1, min(50, len) - 1]`. `np.random.choice` with `replace=False` is taken to return `num_size` distinct positions.

## Findings

| source | as written | input that shows it | evidently intended | confidence | as-written member | corrected member |
|---|---|---|---|---|---|---|
| task_sentence_vector/task_classify_vector/task_tnews_cosface.py:186 | after `idx_list.pop(0)`, the partner scan runs over `idx_list[1:]`, so it never looks at the index right after the popped one | flat examples `[(A, x), (B, y)]` with `idx_list = [0, 1]`: `0` is popped, the scan of `[1][1:]` is empty, and no negative pair is made although the labels differ | scan all of the remaining indices (`for i in idx_list`), so that a round makes no pair only when every remaining example has the popped one's label | not executed | Pairs.ScanSkipsNeighbour | Pairs.ScanFromStartPairs |
| task_pretrain/mlm_pretrain/train.py:61-63 | the chunk loop slices `document_text_string[pos:pos + max_seq_length - 2]` and advances `pos` by the slice's length, with no check on `max_seq_length` | `max_seq_length = 2` and documents `["a"]`: every slice `s[0:0]` is empty, `pos` stays 0, and the `while` loop never ends (with `max_seq_length = 1` and `"abc"`, `s[0:-1]` moves `pos` to 2, and then `s[2:1]` is empty) | a chunk width `max_seq_length - 2` of at least 1, so that every round consumes at least one character and the loop ends after `ceil(len / width)` rounds | not executed | Chunking.NeverEnds | Chunking.ChunkText |
