# tomlctl path engine in Dafny

This models the path engine of tomlctl (`internal/utils`). tomlctl is a command-line tool that reads, writes and deletes values in a TOML document.

The engine has three parts:

- A **path parser**. `ParsePath` turns a path such as `a.b[0].c` into key and index tokens. It splits the path at every `.` and skips empty segments. Each remaining segment is either a plain key, or a key with one bracketed signed decimal index at its end. It rejects a path for one of three reasons: a missing or misplaced `]`, an index that `strconv.Atoi` does not accept, or text after the `]`.
- A **literal inference**. `InferValue` turns the text given to `set` into a typed value. It tries, in order: an integer, a float, exactly `true`/`false`, a bracketed comma list (each element inferred in turn), and otherwise the text itself.
- A **tree navigator**. It works over the decoded document: tables (`map[string]any`), arrays (`[]any`) and scalars.
  - `Lookup` walks a path.
  - `SetValue` walks a path, creating missing intermediate tables and arrays and growing arrays. A grown array is a new slice, so it is written back into its holder through the stack of parent records kept during the walk.
  - `DeletePath` removes a table entry or an array element. A removed element shifts the later ones left. A path that leads nowhere changes nothing.

The model has seven modules:

- `Base` holds Option and Result, and a few facts about sequence slices.
- `Document` holds the tree value `Value` and the path token `Token`.
- `GoStrings` holds the parts of Go's `strings` and `strconv` that the engine calls.
- `PathParser` holds the parser: the imperative `ParsePath` loop, proved equal to the recursive grammar `ParseSpec`, with the parser's properties, including a render/parse round trip.
- `Inference` holds `InferValue`, a method proved equal to the function `Infer`. Its list branch calls `InferElements`, which holds the element loop and calls `InferValue` again on each piece.
- `Navigator` holds `Lookup`, `SetValue` and `DeletePath` on values (`LookupTokens`, `SetTokens`, `DeleteTokens`), with the lemmas that say what they promise.
- `Heap` and `Core` hold the same three operations on a model of the Go heap and prove them against the `Navigator` functions.

The heap model works as follows:

- **Tables** are `MapNode` objects whose entry maps are updated in place.
- **Arrays** are `array<Node>` objects. They are written in place when an element is set without growth. They are replaced by a fresh array when they grow or shrink, and the fresh array is stored into the slot named by the last parent record.
- **Ghost state.** A ghost `Shape` names the tree the heap holds. A sequence of ghost `Link`s (a zipper) mirrors Go's `parents` stack.

Outcomes are values. Each operation ends with Go's `nil`, an error, or a run-time panic. A panic is the `Panicked` outcome, never something a precondition excludes.

## Model

| member | source | states |
|---|---|---|
| GoStrings.Split | internal/utils/parse.go:20 | `strings.Split` always yields at least one piece |
| GoStrings.SplitCount | internal/utils/parse.go:20 | `strings.Split` yields one more piece than there are separators |
| GoStrings.SplitPiecesFree | internal/utils/parse.go:20 | no piece of `strings.Split` contains the separator |
| GoStrings.JoinSplit | internal/utils/parse.go:20 | joining the pieces with the separator gives back the input |
| GoStrings.SplitPieceLengths | internal/utils/parse.go:20 | no piece is longer than the split text |
| GoStrings.SplitAround | internal/utils/parse.go:20 | splitting at one separator splits both sides independently |
| GoStrings.SplitNoSeparator | internal/utils/parse.go:20 | text without the separator is a single piece |
| GoStrings.SplitJoin | internal/utils/parse.go:20 | `Split` inverts joining of separator-free pieces |
| GoStrings.IndexOf | internal/utils/parse.go:30-31 | `strings.Index` gives -1 or a position holding the character, and not -1 when the character occurs |
| GoStrings.IndexOfFirst | internal/utils/parse.go:30-31 | the position found is the first occurrence; -1 exactly when there is none |
| GoStrings.IndexOfAt | internal/utils/parse.go:30-31 | an occurrence with none before it is the one `strings.Index` finds |
| GoStrings.IndexOfBelow | internal/utils/parse.go:30-31 | the character occurs before position j exactly when its first occurrence is below j |
| GoStrings.TrimLeft | internal/utils/value.go:22 | the left trim never lengthens the text |
| GoStrings.TrimRight | internal/utils/value.go:22 | the right trim never lengthens the text |
| GoStrings.Trim | internal/utils/value.go:22 | `strings.Trim` never lengthens the text |
| GoStrings.TrimLeftKeeps | internal/utils/value.go:22 | the left trim keeps a suffix, removes only cut-set characters, and stops at the first other one |
| GoStrings.TrimRightKeeps | internal/utils/value.go:22 | the right trim keeps a prefix, removes only cut-set characters, and stops at the last other one |
| GoStrings.TrimEnds | internal/utils/value.go:22 | what `strings.Trim` keeps neither starts nor ends with a cut-set character |
| GoStrings.TrimShortens | internal/utils/value.go:21-22 | bracketed text loses at least both brackets, so list elements are shorter than the list |
| GoStrings.TrimSpace | internal/utils/value.go:29 | `strings.TrimSpace` never lengthens the text |
| GoStrings.Atoi | internal/utils/parse.go:47 | an accepted number lies within the 64-bit `int` range |
| GoStrings.AtoiAccepts | internal/utils/value.go:9-11 | only sign? digit+ texts are accepted; a digit string within range reads as its decimal value |
| GoStrings.Itoa | internal/utils/parse.go:47 | the decimal rendering is a non-empty digit string |
| GoStrings.ItoaValue | internal/utils/parse.go:47 | the rendered digits denote the number |
| GoStrings.AtoiItoa | internal/utils/parse.go:47 | `Atoi` reads back every rendered non-negative `int` |
| GoStrings.AtoiNegative | internal/utils/parse.go:47 | `Atoi` reads back `-` plus a rendering, down to the least `int` |
| PathParser.ParsePartsStep | internal/utils/parse.go:21-62 | one iteration of the segment loop: empty segments add nothing, and a failing segment ends the parse with its error |
| PathParser.PrependTwice | internal/utils/parse.go:42-60 | appending tokens in two steps is appending their concatenation |
| PathParser.PrependNothing | internal/utils/parse.go:18 | the loop starts from an empty token list |
| PathParser.AppendSegment | internal/utils/parse.go:27-61 | one non-empty segment either appends exactly its tokens or reports its error, as the grammar says |
| PathParser.ParsePath | internal/utils/parse.go:17-64 | the loop over the split segments returns what the grammar `ParseSpec` gives |
| PathParser.ParseSpec | internal/utils/parse.go:17-64 | the parse of a path is an error or a token list of at most two tokens per `.`-separated segment |
| PathParser.ParseParts | internal/utils/parse.go:21-62 | segments without `[` always parse; the tokens are at most two per segment |
| PathParser.ParseSegment | internal/utils/parse.go:27-61 | a segment without `[` never fails; a parsed segment gives at most two tokens, a key before an index when two |
| PathParser.ParseBracketed | internal/utils/parse.go:28-58 | no `]`, or a `]` before the first `[`, is a missing-bracket error; a parsed bracketed segment ends with its index, after an optional key |
| PathParser.ParsePartsAppend | internal/utils/parse.go:20-63 | parsing a list of segments is parsing its two halves in turn; the first error wins |
| PathParser.EmptySegmentsSkipped | internal/utils/parse.go:22-25 | doubled, leading and trailing dots are skipped, and the empty path gives no tokens and no error |
| PathParser.BracketedSegment | internal/utils/parse.go:28-58 | for `k[d]t`, an invalid index is reported before trailing text; otherwise the tokens are the key (if non-empty) and the index |
| PathParser.MissingBracketExactly | internal/utils/parse.go:30-36 | a segment with `[` has a missing-bracket error exactly when a `]` precedes its first `[` or none follows it |
| PathParser.CloseBeforeOpen | internal/utils/parse.go:31-34 | the first `]` is absent or before position o exactly when one occurs before o or none from o on |
| PathParser.KeysAreClean | internal/utils/parse.go:38-61 | every key the parser produces is non-empty and free of `.` and `[` |
| PathParser.SegmentKeysClean | internal/utils/parse.go:38-61 | the same for the tokens of one `.`-free segment |
| PathParser.PartsKeysClean | internal/utils/parse.go:21-62 | the same for a list of `.`-free segments |
| PathParser.IndexText | internal/utils/parse.go:46-47 | the decimal text of an index contains no `.`, `[` or `]` |
| PathParser.AtoiIndexText | internal/utils/parse.go:47 | `Atoi` reads back the text of every index an `int` can hold |
| PathParser.SegmentsDotFree | internal/utils/parse.go:20 | the canonical segments of a token sequence contain no `.` |
| PathParser.CanonicalSegment | internal/utils/parse.go:28-53 | `k[n]` parses to the key part and the index n |
| PathParser.FirstSegmentParses | internal/utils/parse.go:27-61 | the first canonical segment parses to the tokens it spells |
| PathParser.KeyIndexSegmentParses | internal/utils/parse.go:38-53 | a key followed by an index is one segment that parses to both |
| PathParser.IndexSegmentParses | internal/utils/parse.go:38-53 | an index with no key before it is a `[n]` segment of its own |
| PathParser.ExpressibleSuffix | internal/utils/parse.go:20-63 | a suffix of a renderable token sequence is renderable |
| PathParser.SegmentsParse | internal/utils/parse.go:21-62 | the canonical segments parse back to the tokens |
| PathParser.RoundTrip | internal/utils/parse.go:17-64 | for non-empty keys free of `.`, `[`, `]` and indices within `int`, parsing the rendered path gives the tokens back |
| PathParser.PlainPath | internal/utils/parse.go:59-61 | a path without `.` and `[` is one key equal to the path, even if it contains `]` |
| PathParser.ExampleNested | internal/utils/parse.go:17-64 | `a.b[0].c` parses to keys a, b, index 0, key c |
| PathParser.ExampleNestedSegments | internal/utils/parse.go:21-62 | the segments of `a.b[0].c` parse to those tokens |
| PathParser.ExampleNegativeIndex | internal/utils/parse.go:47 | `a[-1]` parses, with index -1 |
| PathParser.ExampleNegativeParts | internal/utils/parse.go:21-62 | the segment list of `a[-1]` parses to key a, index -1 |
| PathParser.ExampleNegativeSegment | internal/utils/parse.go:28-53 | the segment `a[-1]` parses to key a, index -1 |
| PathParser.ExampleGrowthPath | internal/utils/parse.go:17-64 | `a[0].b` parses to key a, index 0, key b |
| PathParser.ExampleGrowthSegments | internal/utils/parse.go:21-62 | the segments of `a[0].b` parse to those tokens |
| PathParser.ExampleGrowthSegment | internal/utils/parse.go:28-53 | the segment `a[0]` parses to key a, index 0 |
| PathParser.ExampleBadIndex | internal/utils/parse.go:46-50 | `a[]` and `a[x]` are rejected as invalid indices |
| PathParser.ExampleSecondIndex | internal/utils/parse.go:54-58 | `a[0][1]` is rejected as an unsupported format: a segment holds one index |
| PathParser.ExampleTrailing | internal/utils/parse.go:54-58 | `a[0]x` is rejected as an unsupported format |
| PathParser.ExampleUnclosed | internal/utils/parse.go:33-36 | `a[0` and `a]0[` are rejected for a missing `]` |
| Inference.ElementsShorter | internal/utils/value.go:22-29 | every recursive call of the list branch is on text shorter than the list, so inference terminates |
| Inference.InferValue | internal/utils/value.go:8-34 | the method returns what `Infer` gives |
| Inference.Infer | internal/utils/value.go:8-34 | the result is never nil; an integer is what `Atoi` reads; a float keeps its accepted text; a boolean is its lower-case word; a string is the text itself |
| Inference.InferElements | internal/utils/value.go:27-31 | the element loop infers each trimmed piece in turn, in order |
| Inference.IntegerExactly | internal/utils/value.go:9-11 | the result is an integer exactly when `Atoi` accepts the text, and then it is the number read; this rule comes first |
| Inference.FloatExactly | internal/utils/value.go:9-14 | the result is a float exactly when `Atoi` rejects the text and the float parser accepts it, and the float keeps the text; this rule comes second |
| Inference.BoolExactly | internal/utils/value.go:15-20 | the result is a boolean b exactly when the text is `true` or `false` spelled in lower case |
| Inference.WordsStayStrings | internal/utils/value.go:33 | text that starts like no number or list and is not a boolean word comes back unchanged as a string |
| Inference.ListElements | internal/utils/value.go:21-31 | bracketed text is a list; an empty inner text gives the empty list; otherwise there are commas + 1 elements, element k being the inference of the k-th trimmed piece |
| Inference.ExampleCapitalisedBool | internal/utils/value.go:15-20 | `True` stays a string |
| Inference.ExampleFlattenedList | internal/utils/value.go:21-31 | `[[1,2]]` is the flat list 1, 2 |
| Inference.ExampleFlattenedPieces | internal/utils/value.go:22-29 | the inner text and pieces of `[[1,2]]` |
| Inference.ExampleFlattenedSplit | internal/utils/value.go:26 | `1,2` splits into `1` and `2` |
| Inference.ExampleFlattenedTrim | internal/utils/value.go:22 | `strings.Trim` strips both brackets from each end of `[[1,2]]` |
| Inference.ExampleDigits | internal/utils/value.go:9-11 | `1` and `2` are integers |
| Inference.ExampleSigned | internal/utils/value.go:9-11 | `-7` and `+3` are the integers -7 and 3 |
| Inference.ExampleFloat | internal/utils/value.go:9-14 | `1.5`, which `Atoi` rejects, is the float `1.5` when the float parser accepts it, and the string otherwise |
| Inference.ExampleMixedList | internal/utils/value.go:21-33 | `[1, 2, abc]` is the list 1, 2, "abc": pieces are trimmed, and a word stays a string |
| Inference.ThreeElements | internal/utils/value.go:21-31 | bracketed text whose inner text splits into three pieces is the list of their three inferences |
| Inference.ExampleEmptyLists | internal/utils/value.go:22-25 | `[]` and `[[]]` are the empty list |
| Inference.ExampleBlankList | internal/utils/value.go:22-33 | `[ ]` is the one-element list holding the empty string |
| Inference.ExampleBlankPieces | internal/utils/value.go:22-29 | the pieces of `[ ]` |
| Navigator.FreshNeverFails | internal/utils/core.go:100-110 | a container `SetValue` just created always suits the next token: no type error can follow it |
| Navigator.LookupTokens | internal/utils/core.go:24-44 | no tokens find the node itself; a found key step met a table holding the key, a found index step an array holding the position |
| Navigator.Lookup | internal/utils/core.go:11-45 | a path finds something only when it parses to a non-empty token list |
| Navigator.Fresh | internal/utils/core.go:103-107 | the created container suits the next token and is empty |
| Navigator.Grown | internal/utils/core.go:132-134 | the grown array has the new length, keeps the old elements in place and holds nil in every new slot |
| Navigator.Child | internal/utils/core.go:86-125 | the child a non-terminal step moves to is never nil: it is a fresh container or what one lookup step finds |
| Navigator.SetTokens | internal/utils/core.go:74-191 | a successful walk keeps the kind of the node it starts from and never shortens an array |
| Navigator.Set | internal/utils/core.go:54-193 | a successful `SetValue` had a parsing path and leaves a table at the root |
| Navigator.SetTokensIntended | internal/utils/core.go:159-178 | the corrected walk, too, keeps the kind of the start node and never shortens an array |
| Navigator.SetNoPanic | internal/utils/core.go:140-188 | a walk with no negative index, whose every non-terminal index finds an element already there, does not panic |
| Navigator.SetThenLookupPath | internal/utils/core.go:54-193 | after a successful `SetValue`, `Lookup` of the same path string finds the value set |
| Navigator.SetErrKeepsTree | internal/utils/core.go:80-83 | a walk that returns an error leaves the tree as it was |
| Navigator.SetThenLookup | internal/utils/core.go:94-98 | after a successful set, looking the same path up finds the value set |
| Navigator.SetOkSuits | internal/utils/core.go:80-83 | a successful step met, and leaves, a container of the kind its token needs |
| Navigator.SetPathShaped | internal/utils/core.go:100-110 | after a successful set, every proper prefix of the path reaches a container suiting the next token |
| Navigator.SetLocality | internal/utils/core.go:94-98 | a successful set leaves unchanged whatever a diverging path found before |
| Navigator.TerminalGrowth | internal/utils/core.go:128-156 | a terminal index past the end stores an array of length i+1: old elements in place, nil in the new slots, the value at i |
| Navigator.TerminalInPlace | internal/utils/core.go:137-142 | a terminal index inside the array replaces that element only |
| Navigator.SetFailsCleanly | internal/utils/core.go:55-61 | every error return of `SetValue` leaves the tree as it was; the error is a syntax error exactly when the path does not parse |
| Navigator.NeverSyntax | internal/utils/core.go:74-191 | the walk itself never reports a syntax error |
| Navigator.LookupSplit | internal/utils/core.go:24-42 | looking up p + q is looking up p, then q from there |
| Navigator.DeleteNeverErrs | internal/utils/core.go:221-280 | the walk of `DeletePath` never returns an error |
| Navigator.DeleteErrsOnlyOnSyntax | internal/utils/core.go:202-208 | `DeletePath` returns an error exactly when the path does not parse |
| Navigator.RemoveAt | internal/utils/core.go:225-255 | removing keeps the node's kind, takes exactly the key out of a table, and shortens an array by one exactly when the index is in range |
| Navigator.DeleteTokens | internal/utils/core.go:221-280 | the walk never errs, and a success keeps the kind of the start node |
| Navigator.Delete | internal/utils/core.go:201-281 | `DeletePath` errs exactly when the path does not parse, and a success leaves a table at the root |
| Navigator.LookupOne | internal/utils/core.go:24-42 | the first step of a lookup |
| Navigator.NegativeStepShift | internal/utils/core.go:272-277 | a negative index met at step j+1 is one met at step j from the first child |
| Navigator.DeletePanicsExactly | internal/utils/core.go:272-277 | `DeletePath` panics exactly when a step before the last meets an array with a negative index |
| Navigator.DeleteMissingIsNoop | internal/utils/core.go:229-237 | deleting a path that leads nowhere changes nothing, unless a negative index before the last step panics |
| Navigator.DeleteRemoves | internal/utils/core.go:227-253 | deleting below a reachable holder succeeds, and the holder, at the same place, has the last token removed from it |
| Navigator.RemovedElement | internal/utils/core.go:240 | removing element i keeps the earlier elements and moves each later one down by one |
| Navigator.DeleteKeyThenLookup | internal/utils/core.go:227-232 | after deleting a key path, the path finds nothing |
| Navigator.DeleteKeyIdempotent | internal/utils/core.go:227-232 | deleting a key path twice is deleting it once |
| Navigator.DeleteKeyThenLookupPath | internal/utils/core.go:201-281 | after `DeletePath` of a path ending in a key, `Lookup` of the same path finds nothing |
| Navigator.DeleteKeyIdempotentPath | internal/utils/core.go:201-281 | `DeletePath` twice with a path ending in a key is `DeletePath` once |
| Navigator.DeleteLocality | internal/utils/core.go:225-264 | a delete leaves unchanged what a diverging path finds; for an index delete, the path must diverge before the array |
| Navigator.IntendedAgrees | internal/utils/core.go:159-178 | where the code as written does not panic, the corrected walk does the same thing |
| Navigator.IntendedPanicsOnlyOnNegative | internal/utils/core.go:159-178 | the corrected walk never panics on a path without negative indices |
| Navigator.IntendedThenLookup | internal/utils/core.go:159-178 | after a successful corrected set, the path finds the value set |
| Navigator.ExampleIntermediateGrowth | internal/utils/core.go:119-124 | setting `a[0].b` past the end of an array panics as written, and builds `a = [{b = val}]` as intended |
| Navigator.ExampleIntermediateGrowthPanics | internal/utils/core.go:168-176 | `SetValue(tree, "a[0].b", val)` on an empty tree panics |
| Navigator.ExampleTerminalGrowth | internal/utils/core.go:128-156 | setting `a[5]` on an empty tree stores five nils then val, and `a[2]` is then found holding nil |
| Navigator.ExampleNegativeSetPanics | internal/utils/core.go:142 | a negative terminal index panics in `SetValue` |
| Navigator.ExampleDeleteShifts | internal/utils/core.go:240 | deleting `a[0]` shifts the later elements, so the same path then finds the next element |
| Heap.MapNode.constructor | internal/utils/core.go:106 | a new table is empty |
| Heap.PutEntry | internal/utils/core.go:96 | storing into a table entry changes that entry of the tree and nothing else |
| Heap.PutElem | internal/utils/core.go:142 | storing into an array slot changes that element of the tree and nothing else |
| Heap.RemoveEntry | internal/utils/core.go:231 | `delete(m, k)` removes that entry from the tree and changes nothing else |
| Core.GrowArray | internal/utils/core.go:132-134 | a fresh array holding the old elements, then nils up to the new length |
| Core.CutArray | internal/utils/core.go:240 | a fresh array holding the elements before and after position i |
| Core.NewContainer | internal/utils/core.go:103-107 | a fresh, unshared empty array before an index token, empty table before a key |
| Core.WriteBack | internal/utils/core.go:144-155 | storing through the last parent record puts the new node in the slot the record names |
| Core.WriteBackElem | internal/utils/core.go:146-149 | storing into the parent array's slot replaces that subtree of the tree and keeps the rest unshared |
| Core.WriteBackEntry | internal/utils/core.go:150-153 | storing into the parent table's entry replaces that subtree of the tree and keeps the rest unshared |
| Core.WriteBackRoot | internal/utils/core.go:242-253 | after the write-back the whole tree is the old tree with the new node in that slot |
| Core.Lookup | internal/utils/core.go:11-45 | the node found and the flag are what the value-level lookup gives; not found yields nil |
| Core.FillEntry | internal/utils/core.go:100-110 | a missing or nil entry is filled with a fresh container suiting the next token |
| Core.FillElem | internal/utils/core.go:179-188 | a nil element is filled with a fresh container suiting the next token |
| Core.EnterKey | internal/utils/core.go:86-110 | a key step records its parent and moves to the child the value-level walk moves to |
| Core.EnterElem | internal/utils/core.go:119-125 | an index step inside the array records its parent and moves to the child the value-level walk moves to |
| Core.GrowStore | internal/utils/core.go:128-142 | a terminal index past the end gives a fresh array: old elements kept, nils after them, the value at i |
| Core.StoreGrown | internal/utils/core.go:140-155 | the grown array is written back, and the tree is the value-level result |
| Core.StoreEntry | internal/utils/core.go:94-98 | a terminal key sets that entry, and the tree is the value-level result |
| Core.StoreElem | internal/utils/core.go:137-142 | a terminal index inside the array sets that element in place |
| Core.SetGrown | internal/utils/core.go:128-157 | a terminal index past the end always succeeds, and the tree is the value-level result |
| Core.GrowThenPanic | internal/utils/core.go:160-176 | growing an array before a non-terminal token and storing it through the last parent record always fails the bounds check, since that record is the array itself |
| Core.SetLastKey | internal/utils/core.go:78-98 | a terminal key fails on a non-table or sets the entry, as the value-level walk does |
| Core.SetLastIdx | internal/utils/core.go:111-157 | a terminal index fails on a non-array, panics on a negative index, or stores (growing if needed), as the value-level walk does |
| Core.SetLast | internal/utils/core.go:78-157 | the last token's outcome and tree are those of the value-level walk |
| Core.KeyStep | internal/utils/core.go:78-110 | a non-terminal key step stops with the value-level outcome or advances the walk |
| Core.IdxStep | internal/utils/core.go:111-189 | a non-terminal index step stops with the value-level outcome (panicking on growth or a negative index) or advances the walk |
| Core.Step | internal/utils/core.go:78-189 | a non-terminal step of either kind stops with the value-level outcome or advances the walk |
| Core.InvStep | internal/utils/core.go:74-191 | one step of the `SetValue` loop preserves its invariant |
| Core.SetLoop | internal/utils/core.go:74-191 | the loop over the non-terminal tokens stops with the value-level outcome or reaches the last token |
| Core.SetWalk | internal/utils/core.go:74-192 | the walk returns the value-level outcome and, unless it panics, leaves the value-level tree |
| Core.SetValue | internal/utils/core.go:54-193 | the returned outcome is the value-level `Set`; unless it panics, the heap then holds the value-level tree, and after an error it holds the old tree |
| Core.DelKeyStep | internal/utils/core.go:259-271 | a non-terminal key step stops with nothing deleted, or moves to the entry (or past a missing one) |
| Core.DelIdxStep | internal/utils/core.go:259-278 | a non-terminal index step stops with nothing deleted, panics on a negative index, or moves down |
| Core.DelStep | internal/utils/core.go:259-278 | a non-terminal step of either kind stops with the value-level outcome or moves down |
| Core.DelLoop | internal/utils/core.go:221-279 | the loop over the non-terminal tokens stops with the value-level outcome or reaches the last token |
| Core.DelEntry | internal/utils/core.go:227-232 | a terminal key is deleted from the table reached, and the tree is the value-level result |
| Core.CutStore | internal/utils/core.go:240 | a fresh array without element i |
| Core.CutElem | internal/utils/core.go:240-253 | the shortened array is written back and the tree is the value-level result |
| Core.DelLast | internal/utils/core.go:225-256 | the last token's outcome and tree are those of the value-level delete |
| Core.DeletePath | internal/utils/core.go:201-281 | the outcome is the value-level `Delete`; unless it panics, the heap then holds the value-level tree, or the old tree when nothing was deleted |

The value-level functions (`Navigator.LookupTokens`, `SetTokens`, `DeleteTokens`, `PathParser.ParseSpec`, `Inference.Infer`) state each operation on whole trees. The lemmas state what each promises. The heap methods are proved against those functions.

Where the code and its design description disagree, the model follows the code:

- **A failed `set` creates nothing.** The design says a failed `set` may leave behind containers it created on earlier steps. In the code, a type mismatch can only be met before the first container is created. A created container always suits the next token (`Navigator.FreshNeverFails`). After it, the walk can only succeed or panic. So every error return leaves the tree as it was: `Navigator.SetFailsCleanly` for the values, and the last ensures of `Core.SetValue` for the heap.
- **Delete then lookup can still find something.** The design says a lookup of a deleted path finds nothing. This holds for key paths (`Navigator.DeleteKeyThenLookup`). It fails for index paths, because removing element i shifts element i+1 down into its place (`Navigator.ExampleDeleteShifts`). For the same reason `DeletePath` is idempotent only for key paths (`Navigator.DeleteKeyIdempotent`, `Navigator.DeleteKeyIdempotentPath`): deleting an index path a second time removes the next element (the third ensures of `Navigator.ExampleDeleteShifts`).
- **Negative indices panic.** A negative index parses. `Lookup` and a terminal delete guard against it. `SetValue` and a non-terminal delete step index with it and panic (core.go:142, 181, 277). The model returns `Panicked`.

## Left out

- `internal/utils/file.go` (file I/O, the TOML codec, temp-file-then-rename) and `cmd/tomlctl/main.go` (argument dispatch, printing, exit codes) are not part of this model.
- `strconv.ParseFloat` is not modelled. The inference takes the texts it accepts as a parameter `isFloat`. The inference lemmas assume only `FloatSound(isFloat)`: accepted texts are non-empty, made of float characters, and start (after a sign) with a digit, `.`, `i`/`I` or `n`/`N`. A float keeps its text (`VFloat(raw)`); floating-point values are not modelled.
- `strings.TrimSpace` removes ASCII white space only; Unicode white space is left out.
- Go slice capacity and backing-array sharing are not modelled. `append(a[:i], a[i+1:]...)` and `make` + `copy` produce a fresh array, and only the slot named by the last parent record is updated. A tree from one decode shares no slices, so the two readings agree on the trees the tool builds.
- Core.SetValue: the value being set must share no object with the tree (`Objs(vs) !! Objs(S)`), as a value freshly built by `InferValue` does not. After a panic the contents of the heap are not stated.
- Core.DeletePath: after a panic the contents of the heap are not stated.
- Go's runtime limits are left out: integers are unbounded apart from the `int` range that `Atoi` enforces, and `make([]any, i+1)` for a huge index has no memory limit.

## Findings

| source | as written | input that shows it | evidently intended | confidence | as-written member | corrected member |
|---|---|---|---|---|---|---|
| internal/utils/core.go:119-124, 159-178 | For a non-terminal index past the end of the array, the parent record just pushed names that same array, with the new index. The growth write-back then stores into `parentA[p.idx]`, beyond its length, and panics. | `SetValue(tree, "a[0].b", val)` on a tree without `a` | grow the array, fill slot i with a fresh container, store the grown array in its holder and walk on: `a = [{b = val}]` | not executed | Navigator.ExampleIntermediateGrowthPanics | Navigator.IntendedPanicsOnlyOnNegative |

`Navigator.SetTokens` models the code as written, and it is what `Core.SetValue` is proved against. `Navigator.SetTokensIntended` is the corrected walk; `Navigator.IntendedAgrees` and `Navigator.IntendedThenLookup` are proved about it. `Navigator.ExampleIntermediateGrowth` shows both walks on the input above.
