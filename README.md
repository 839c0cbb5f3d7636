# klog test logger: structured key/value serialisation

This project models the part of klog that turns structured log parameters
into text, together with the test logger that uses it.

- `serialize.dfy` (module `Serialize`) models `internal/serialize/keyvalues.go`:
  - `TrimDuplicates` takes several alternating key/value lists and removes
    repeated keys. A key given in a later list wins over the same key in an
    earlier list. Within one list, the last pair with a key wins. Each output
    list keeps its pairs in input order.
  - `KVListFormat` appends ` key=value` for every pair to a byte buffer. How
    the value is written depends on its dynamic type. A trailing key without
    a value gets the placeholder `(MISSING)`.
- `testinglogger.dfy` (module `TestingLogger`) models
  `testinglogger/testinglogger.go`:
  - A logger holds the test's `Logger`, a name prefix and context values.
  - `WithName` and `WithValues` derive new loggers and leave the parent as it
    was. Each derived logger gets its own copy of the values.
  - `Info` and `Error` deduplicate the context values against the call's
    values and format both into one buffer. `log` then hands the record to the
    test's `Log`.

Go's `interface{}` items are the datatype `Value`. Its tags are `Str`, `Err`,
`Bytes`, `Stringer`, `Nil` and `Other`, and they stand for the runtime type
switch. Go's `fmt` verbs are library behaviour, so they are the fields of a
`Printer` record that every formatting member receives as a parameter:

- `quote` stands for `%q`;
- `quoteASCII` stands for `%+q` on a byte slice;
- `plain` stands for `%+v`;
- `keyStr` stands for `%s` on a key.

The model proves which verb is chosen and the ` key=value` structure around it.

Each imperative operation is proved against a specification function:

- `TrimDuplicates` against `Trimmed`. `Trimmed` keeps pair j of list i exactly
  when its key occurs neither in a later pair of list i nor in any later list.
- `KVListFormat` against `Rendered`.
- `log`, `Info` and `Error` against `LogArgs`, `InfoText` and `ErrorText`.

Lemmas then prove the properties of these functions: precedence, uniqueness,
order, the value of the last occurrence, odd-length handling, and the way the
text is put together.

Two details of the code are easy to misread:

- After `TrimDuplicates`, the trailing key of an odd-length list carries a nil
  value (internal/serialize/keyvalues.go:55-60), not a missing one. So
  `(MISSING)` appears only when `KVListFormat` is given an odd-length list
  directly (`TrimmedTrailingKeyRendering`, `OddKeyRendering`).
- `(MISSING)` is itself a string, so it is written quoted
  (`TrailingKeyRendering`).

## Model

| member | source | states |
|---|---|---|
| Serialize.Pairs | internal/serialize/keyvalues.go:40-46 | a list of n items holds ceil(n/2) pairs |
| Serialize.PairAt | internal/serialize/keyvalues.go:46-60 | pair j is item 2j with item 2j+1, or with the filler when item 2j+1 does not exist |
| Serialize.PairsOfFlatten | internal/serialize/keyvalues.go:61-63 | splitting a flattened pair list into pairs gives the pairs back |
| Serialize.FlattenOfPairs | internal/serialize/keyvalues.go:40-60 | flattening the pairs of a list gives the list back, with the filler appended when its length is odd |
| Serialize.Flatten | internal/serialize/keyvalues.go:63 | a list of n pairs flattens to 2n items |
| Serialize.Trimmed | internal/serialize/keyvalues.go:27-38 | there are as many output lists as input lists, and every output list has even length |
| Serialize.Survivors | internal/serialize/keyvalues.go:46-63 | the pairs one list keeps against the keys already claimed are never more than its pairs; `SurvivorKeys`, `SurvivorsDistinct`, `SurvivorsInOrder`, `SurvivorsAreLast` and `LastSurvives` state which ones |
| Serialize.TrimDuplicates | internal/serialize/keyvalues.go:27-67 | the outer backward loop, with its shared seen-key set, returns exactly `Trimmed` of the input lists |
| Serialize.ScanList | internal/serialize/keyvalues.go:46-64 | the inner backward loop over one list keeps exactly the pairs whose key is neither already seen nor held by a later pair, and adds the list's keys to the seen set |
| Serialize.SurvivorsStep | internal/serialize/keyvalues.go:47-63 | one backward step prepends pair j-1 exactly when its key is neither claimed nor held by a later pair |
| Serialize.ScanKeep | internal/serialize/keyvalues.go:52-63 | an unseen key is recorded as seen and its pair is prepended, with nil for a missing value |
| Serialize.ScanSkip | internal/serialize/keyvalues.go:48-51 | a key already seen is skipped, and the scan invariant still holds |
| Serialize.ListDone | internal/serialize/keyvalues.go:34-38 | after one list is scanned, its output is output list i and the seen set holds the keys of lists i onward |
| Serialize.TrimmedByList | internal/serialize/keyvalues.go:31-66 | output lists built one by one make up `Trimmed` |
| Serialize.KeysCons | internal/serialize/keyvalues.go:29 | the keys of a pair followed by a list are that pair's key and the list's keys |
| Serialize.SurvivorKeys | internal/serialize/keyvalues.go:48-53 | the keys kept from a list are its keys minus those already claimed |
| Serialize.SurvivorsDistinct | internal/serialize/keyvalues.go:48-53 | no two kept pairs of a list share a key |
| Serialize.SurvivorsInOrder | internal/serialize/keyvalues.go:61-63 | the kept pairs are a subsequence of the list's pairs |
| Serialize.SurvivorsAreLast | internal/serialize/keyvalues.go:40-53 | every kept pair is the last pair of the list with its key, and its key was not claimed |
| Serialize.LastSurvives | internal/serialize/keyvalues.go:48-63 | the last pair with an unclaimed key is kept |
| Serialize.SurvivorsOfDistinct | internal/serialize/keyvalues.go:48-63 | with distinct keys and none claimed, every pair is kept |
| Serialize.TrimmedPairs | internal/serialize/keyvalues.go:34-63 | the pairs of output list i are the pairs of input list i that survive the keys of the later lists |
| Serialize.KeysFromHolds | internal/serialize/keyvalues.go:32-34 | a key is among the keys of lists i onward exactly when one of those lists holds it |
| Serialize.TrimmedKeyPlacement | internal/serialize/keyvalues.go:32-51 | a key is in output list i if and only if input list i holds it and no later list does |
| Serialize.TrimmedKeyHome | internal/serialize/keyvalues.go:28-53 | every key of every input list is in exactly one output list |
| Serialize.TrimmedKeysUnique | internal/serialize/keyvalues.go:28-53 | no key occurs twice across all output lists together |
| Serialize.TrimmedInOrder | internal/serialize/keyvalues.go:61-63 | each output list keeps its pairs in input order |
| Serialize.TrimmedLastValue | internal/serialize/keyvalues.go:40-60 | the pair kept for a key is its last occurrence in the list, with that occurrence's value, and no other pair of the output list has that key |
| Serialize.TrimmedOddKey | internal/serialize/keyvalues.go:40-60 | the trailing key of an odd list is kept, paired with nil, when no later list holds it |
| Serialize.TrimmedSingle | internal/serialize/keyvalues.go:27-67 | a single even list with distinct keys comes back unchanged |
| Serialize.Rendered | internal/serialize/keyvalues.go:71-82 | the text is empty exactly when the list is empty, and otherwise starts with a space |
| Serialize.RenderedAsPairs | internal/serialize/keyvalues.go:74-81 | one field is written per pair, ceil(n/2) in all, and a trailing key gets the placeholder |
| Serialize.RenderedFlatten | internal/serialize/keyvalues.go:74-96 | an even list renders its own pairs, so no placeholder appears |
| Serialize.RenderedAppend | internal/serialize/keyvalues.go:74-96 | formatting two lists one after the other writes the same text as formatting their concatenation, when the first has no unpaired key |
| Serialize.RenderValue | internal/serialize/keyvalues.go:84-95 | strings, errors (by their message) and Stringers (by their text) are written with `%q`, byte slices with `%+q`, and nil and anything else with `%+v` |
| Serialize.TrailingKeyRendering | internal/serialize/keyvalues.go:69-86 | an odd list, an even list followed by a trailing key, is written as the even list's fields followed by ` key=` and the quoted placeholder `(MISSING)` |
| Serialize.PairsSnocKey | internal/serialize/keyvalues.go:40-46 | the trailing key of an odd list is its last pair, with the filler value |
| Serialize.KeysSnoc | internal/serialize/keyvalues.go:29 | the keys of pairs followed by one more pair are their keys and that pair's key |
| Serialize.SurvivorsSnoc | internal/serialize/keyvalues.go:46-63 | the last pair of a list is kept when its key is unclaimed, and its key is then claimed against every earlier pair |
| Serialize.FlattenSnoc | internal/serialize/keyvalues.go:61-63 | a pair added at the end of the kept pairs adds its key and value at the end of the list |
| Serialize.RenderPairsSnoc | internal/serialize/keyvalues.go:74-96 | a pair added at the end adds its field at the end of the text |
| Serialize.TrimmedTrailingKeyRendering | internal/serialize/keyvalues.go:40-96 | after deduplication, the trailing key of any odd list that no later list holds ends its output list paired with nil and is written with the nil value, not the placeholder |
| Serialize.OddKeyRendering | internal/serialize/keyvalues.go:55-81 | for the three-item list `a, v, b` with distinct keys: after deduplication `b` is written with nil, while direct formatting writes the placeholder |
| Serialize.Buffer.constructor | internal/serialize/keyvalues.go:73 | a new buffer is empty |
| Serialize.Buffer.WriteByte | internal/serialize/keyvalues.go:82 | writing a byte appends it |
| Serialize.Buffer.WriteString | internal/serialize/keyvalues.go:86-93 | writing a string appends it |
| Serialize.Buffer.Len | testinglogger/testinglogger.go:101 | the length of the buffer's text |
| Serialize.WrittenField | internal/serialize/keyvalues.go:82-95 | a space followed by the field text appends exactly one `Field` |
| Serialize.RenderedStep | internal/serialize/keyvalues.go:74-81 | one loop step writes the field of pair i, with the placeholder past the end, and moves on two items |
| Serialize.KVListFormat | internal/serialize/keyvalues.go:71-97 | the buffer's old content is kept, and exactly `Rendered` of the items is appended; the value verb is chosen by type as in lines 84-95 |
| TestingLogger.Sink.constructor | testinglogger/testinglogger.go:36-40 | a fresh test Logger has recorded no calls |
| TestingLogger.Sink.Helper | testinglogger/testinglogger.go:38 | a `Helper` call is recorded after the earlier calls |
| TestingLogger.Sink.Log | testinglogger/testinglogger.go:39 | a `Log` call with its arguments is recorded after the earlier calls |
| TestingLogger.JoinName | testinglogger/testinglogger.go:118-121 | the new prefix is the old prefix, then `/` only when the old prefix is non-empty, then the name |
| TestingLogger.NamePath | testinglogger/testinglogger.go:113-123 | the prefix after a chain of `WithName` calls ends with the last name |
| TestingLogger.SlashedSnoc | testinglogger/testinglogger.go:113-121 | adding one more name to a non-empty path adds `/` and that name |
| TestingLogger.NamePathIsSlashed | testinglogger/testinglogger.go:113-123 | successive `WithName` calls with non-empty names give the names separated by `/` |
| TestingLogger.SlashedStartsWithFirst | testinglogger/testinglogger.go:113-123 | a path of names starts with the first name |
| TestingLogger.LogArgs | testinglogger/testinglogger.go:96-104 | the record holds `what`, then `prefix:` only for a non-empty prefix, then the message, then the buffer without its first byte only for a non-empty buffer |
| TestingLogger.InfoText | testinglogger/testinglogger.go:73-76 | Info's field text is empty or starts with the separator space |
| TestingLogger.ErrorText | testinglogger/testinglogger.go:86-90 | Error's field text is never empty and starts with the separator space |
| TestingLogger.InfoTextOnePass | testinglogger/testinglogger.go:73-76 | formatting the two deduplicated lists into one buffer writes the same text as formatting them as one list |
| TestingLogger.InfoTextEmpty | testinglogger/testinglogger.go:73-104 | Info's field text is empty exactly when there are no context values and no call values; otherwise it starts with the space that `log` drops |
| TestingLogger.KeyOfNonEmpty | internal/serialize/keyvalues.go:46-47 | the first item of a non-empty list is one of its keys |
| TestingLogger.CallSiteOverridesContext | testinglogger/testinglogger.go:74-76 | a key given at the call site leaves the deduplicated context list and stays in the call list |
| TestingLogger.PodTrimmed | testinglogger/testinglogger.go:74 | context pod=nginx against call pod=busybox deduplicates to no context pairs and the call pair |
| TestingLogger.PodOverride | testinglogger/testinglogger.go:71-78 | context values `pod`,`nginx` and call values `pod`,`busybox` log `INFO`, the message and `pod="busybox"` |
| TestingLogger.ErrorTextFields | testinglogger/testinglogger.go:84-92 | the `err` field comes first, outside deduplication, so Error's text is never empty; an `err` key given at the call site survives deduplication as well |
| TestingLogger.InfoBuffer | testinglogger/testinglogger.go:73-76 | the buffer Info fills holds `InfoText` |
| TestingLogger.ErrorBuffer | testinglogger/testinglogger.go:86-90 | the buffer Error fills holds `ErrorText` |
| TestingLogger.CopySlice | testinglogger/testinglogger.go:65-69 | the copy is a fresh array with the same items |
| TestingLogger.AppendValues | testinglogger/testinglogger.go:127 | `append` gives the old items followed by the new ones, in the same array when nothing is added and in a fresh one otherwise |
| TestingLogger.TLogger.constructor | testinglogger/testinglogger.go:51-55 | a logger holds the given test Logger, prefix and values |
| TestingLogger.TLogger.Clone | testinglogger/testinglogger.go:57-63 | the clone has the same Logger, prefix and values, in a fresh values array |
| TestingLogger.TLogger.WithName | testinglogger/testinglogger.go:113-123 | the new prefix is `name` after an empty prefix and `prefix/name` otherwise; values and Logger are the same and the receiver is not modified |
| TestingLogger.TLogger.WithValues | testinglogger/testinglogger.go:125-129 | the new values are the old values followed by the call's values, in a fresh array; prefix and Logger are the same and the receiver is not modified |
| TestingLogger.TLogger.V | testinglogger/testinglogger.go:108-111 | the level is ignored and the receiver itself is returned |
| TestingLogger.TLogger.Enabled | testinglogger/testinglogger.go:80-82 | every level is enabled |
| TestingLogger.TLogger.log | testinglogger/testinglogger.go:94-106 | the test Logger records one `Helper` call and then one `Log` call whose arguments are `LogArgs` |
| TestingLogger.TLogger.Info | testinglogger/testinglogger.go:71-78 | the test Logger records `Helper`, `Helper` and one `Log` of `INFO` with the deduplicated context and call fields |
| TestingLogger.TLogger.Error | testinglogger/testinglogger.go:84-92 | the test Logger records `Helper`, `Helper` and one `Log` of `ERROR` with the `err` field followed by the deduplicated fields |
| TestingLogger.New | testinglogger/testinglogger.go:42-49 | a new logger has the given test Logger, no prefix and no values |
| TestingLogger.DeriveSiblings | testinglogger/testinglogger.go:57-129 | two loggers derived from one parent by `WithValues` each hold the parent's values followed by their own, in arrays of their own |

## Left out

- Go `fmt` verbs (`%q`, `%+q`, `%+v`, `%s`), with their escaping and Unicode rules, are library behaviour. They are the `Printer` parameter, so the model fixes which verb is used but not the text it produces.
- The runtime type switch and the `fmt.Stringer` check are the tags of `Value`. A value is a Stringer only by its tag.
- Keys are compared by value. Go panics when an uncomparable key, such as a slice, is used as a map key. The model has no panic: a `Bytes` key is compared by content.
- Byte buffers and byte slices hold `char`s. A `Bytes` value carries `bv8` items, but it is written only through `quoteASCII`.
- Go slice capacity is not modelled. `AppendValues` assumes the capacity equals the length, which holds for a slice that `copySlice` just made. So an `append` that adds items always allocates.
- The `Error` parameter is a Go `error`, so it is an `Err` value or nil (`requires err.Err? || err.Nil?`).
- The concrete `testing.TB` and conformance to the `logr.Logger` interface (testinglogger/testinglogger.go:36-40, 131) are not modelled. The test Logger is a recorded list of `Helper` and `Log` calls.
- `V` and `Enabled` return a `TLogger` and a `bool`, not a `logr.Logger`.
- Concurrent use of loggers is not modelled. Only the sequential property holds here: derived loggers do not share or change their parent's values.
- calldepth-test/call_depth_helper_test.go forwards to klog's global `InfoDepth`, which is not part of this model.
- The receiver of `WithName` and `WithValues` is a Go value. Here it is a `TLogger` object that these methods do not modify: they have no `modifies` clause.
