# Vanity-address search host: a Dafny model

The system searches for Solana addresses with a wanted start and end on
OpenCL devices. Requests arrive as patterns and wait in a store. Workers
take them in chunks, one worker per device. Each worker is meant to bind the
chunk's prefixes and suffix to its device and launch the kernel
repeatedly, advancing a shared seed each time. It decodes the kernel's found outputs
into `(address, private key)` hits and marks each request done as soon as
a hit matches it.

This project models three parts of that host side and proves properties
about them:

- **`GpuWorker`** (`gpu_worker.dfy`) models the batch reconciliation of
  `multi_gpu_worker` and `get_results` in `core/gpu_worker.py`:
  - building the active list and the key map;
  - the batch-wide case flag (an OR over the list);
  - first-match search of a hit against the active list;
  - removal of the first occurrence of the matched pair, at most one per
    result batch;
  - the round loop until the list is empty, and the found-byte filter of
    `get_results`.

  The kernel's answers are a parameter, one list of raw outputs per
  dispatch. The base58 encoder is a function parameter.
- **`PatternParser`** (`parser.dfy`) models `parse_wallet_pattern` of
  `core/utils/parser.py`. The first `"__"` splits the pattern; failing
  that, a trailing `_` marks a start-only pattern; failing that, a leading
  `_` marks an end-only pattern.
- **`Searcher`** (`searcher.dfy`) models `Searcher.set_search_params`,
  `Searcher.find` and `save_result` of `core/searcher.py`:
  - packing the prefixes into one byte string plus a `uint8` length per
    prefix;
  - the allocation of the seven device buffers, each a handle id and a
    size: the seed, output, occupied-byte and group-offset buffers are
    allocated once and then kept at any size, while the prefix, length and
    suffix buffers follow a reuse-unless-too-small rule;
  - uploading the parameters and setting the ten kernel arguments;
  - the work size of one launch and the single seed advance per `find`;
  - counting the found outputs.
- **`Text`** and **`Wrappers`** (`text.dfy`) hold shared pieces:
  - UTF-8 encoding per RFC 3629;
  - the `startswith` and `endswith` tests;
  - an `Option` type.

Three points of the code's behaviour shape the model:

- Digits in a pattern are plain text: `"5__3"` is the start `"5"` and the
  end `"3"`, not a count of characters.
- Matching on the host is always exact, with `startswith` and `endswith`.
  The batch case flag only goes to the kernel.
- The worker calls `set_search_params_batch(pairs, case_sensitive)`, which
  `core/searcher.py` does not define. The worker model records each call as
  a `Bind`. It holds the active pairs, the case flag, the prefixes of the
  pairs packed in list order with `Searcher.PackPrefixes`, and the pair
  count as a `uint32`, the value `set_search_params` passes as kernel
  argument 6. The pairs' suffixes have no counterpart in
  `set_search_params(PREFIXES, SUFFIX, CASE_SENSITIVE)`, so a `Bind`
  carries no packed suffix. `Searcher.SetSearchParams` models the
  `set_search_params` that does exist. As written, the worker's call
  raises `AttributeError` and the worker stops before its first dispatch;
  the chunk model follows the call's evident purpose instead.

## Model

| member | source | states |
|---|---|---|
| GpuWorker.ActiveOf | core/gpu_worker.py:48-53 | defined as the list of the tasks' `(row_id, prefix, suffix)` keys in task order (no contract of its own; BuildChunk states that the building loop produces it) |
| GpuWorker.TaskMapOf | core/gpu_worker.py:48-52 | defined as the map built by assigning each task's `(row_id, case_sensitive)` under its key in task order (no contract of its own; TaskMapDomain and TaskMapLastWins state what it holds) |
| GpuWorker.TaskMapDomain | core/gpu_worker.py:50-52 | the keys of `task_map` are exactly the keys of the tasks, and every entry carries its key's row id |
| GpuWorker.TaskMapLastWins | core/gpu_worker.py:51-52 | a key's map entry is `(row_id, case_sensitive)` of the last task with that key |
| GpuWorker.BuildChunk | core/gpu_worker.py:48-53 | the building loop's list is one key per task in order, and its map is the last-task-wins map |
| GpuWorker.DuplicateKeyExample | core/gpu_worker.py:51-53 | two tasks with one key leave two list entries but one map entry, holding the later task's flag |
| GpuWorker.CaseSensitiveOf | core/gpu_worker.py:59-60 | the batch flag is true exactly when some active pair's map entry is case-sensitive |
| GpuWorker.ChunkCaseSensitivity | core/gpu_worker.py:48-60 | for distinct keys the first round's flag is true exactly when some task asked for case sensitivity |
| GpuWorker.DuplicateKeyDropsCaseFlag | core/gpu_worker.py:51-60 | with a repeated key a case-sensitive task can be outvoted by a later duplicate: the flag follows the map |
| GpuWorker.Matches | core/gpu_worker.py:83 | defined as `address.startswith(prefix) and address.endswith(suffix)` (no contract of its own) |
| GpuWorker.FirstMatch | core/gpu_worker.py:82-85 | none exactly when no active pair matches the address; otherwise the first pair in list order that matches |
| GpuWorker.FindPair | core/gpu_worker.py:82-85 | the search loop with its `break` returns exactly the first matching pair |
| GpuWorker.MatchIsCaseExact | core/gpu_worker.py:83 | `startswith`/`endswith` are exact: `"soXYZ"` does not match prefix `"So"`, `"SoXYZ"` does |
| GpuWorker.IndexOf | core/gpu_worker.py:100 | the position found holds `x` and no earlier position does |
| GpuWorker.RemoveFirst | core/gpu_worker.py:100 | `list.remove` shortens the list by one and removes one copy of `x` from its multiset |
| GpuWorker.RemoveFirstIsFirstOccurrence | core/gpu_worker.py:100 | the element removed is the first occurrence, and the elements before and after it keep their order |
| GpuWorker.RemoveFirstKeeps | core/gpu_worker.py:100 | nothing appears in the list after a removal that was not there before |
| GpuWorker.Kept | core/gpu_worker.py:125-127 | the kept outputs all have a nonzero found byte and come from the input |
| GpuWorker.KeptAppend | core/gpu_worker.py:124-127 | the found-byte filter distributes over concatenation, so input order is kept |
| GpuWorker.KeptComplete | core/gpu_worker.py:125-127 | every output with a nonzero found byte is kept |
| GpuWorker.SliceFrom | core/gpu_worker.py:131 | defined as Python's `payload[32:]`, empty once 32 reaches the length (no contract of its own; GetResults states the decoded address through it) |
| GpuWorker.DecodeOutput | core/gpu_worker.py:128-135 | defined as the hit whose address is `encode` of the payload from byte 32 on and whose private key is `encode` of the whole payload (no contract of its own) |
| GpuWorker.GetResults | core/gpu_worker.py:123-139 | one `[address, private_key]` per kept output in input order, the address encoding the payload past byte 32 |
| GpuWorker.FirstRetirement | core/gpu_worker.py:78-88 | defined as the first hit with a matching active pair, together with that pair (no contract of its own; FirstRetirementIsFirst states it) |
| GpuWorker.FirstRetirementIsFirst | core/gpu_worker.py:78-88 | a batch retires nothing exactly when no hit matches; otherwise it retires at the first hit that matches, with that hit's first matching pair |
| GpuWorker.Reconcile | core/gpu_worker.py:78-102 | with no matching hit the list is unchanged and nothing is retired; otherwise the first matched pair loses its first occurrence and its row gets the hit's store update |
| GpuWorker.AfterRetiring | core/gpu_worker.py:100 | defined as `active_pairs.remove` applied once per round, in order, to the starting list, and none when a retired pair is absent (no contract of its own; AfterRetiringShrinks and AfterRetiringStep state it) |
| GpuWorker.AfterRetiringShrinks | core/gpu_worker.py:100 | each retirement shrinks the list by one: what is left plus what was retired is the starting multiset |
| GpuWorker.AfterRetiringStep | core/gpu_worker.py:100 | retiring one more present pair removes its first occurrence from the current list |
| GpuWorker.PrefixesOf | core/gpu_worker.py:58-62 | defined as the prefixes of the bound pairs in list order (no contract of its own; BindPrefixesReadBack states what their packing holds) |
| GpuWorker.BindOf | core/gpu_worker.py:58-62 | defined as the binding of one round: the active list, its OR-ed case flag, its prefixes packed with `Searcher.PackPrefixes` and its length as a `uint32` (no contract of its own; BindsFollowBind and BindPrefixesReadBack state it) |
| GpuWorker.BindPrefixesReadBack | core/gpu_worker.py:58-62 | a round's packed prefixes have one length byte per pair and, when each encoded prefix is under 256 bytes, read back as the pairs' encoded prefixes in list order |
| GpuWorker.BindsFollowBind | core/gpu_worker.py:58-62 | binding the current list keeps every round's binding in step with the retirements: the list of its time, its OR-ed flag, its packed prefixes and its pair count |
| GpuWorker.BindsFollowRetire | core/gpu_worker.py:100 | a further retirement leaves the earlier rounds' bindings valid |
| GpuWorker.Decoded | core/gpu_worker.py:74 | defined as `get_results([r for r in result])` for one dispatch's outputs (no contract of its own; GetResults states that its loop returns this list, element by element) |
| GpuWorker.Retires | core/gpu_worker.py:73-88 | defined as `if result:` holding and some decoded hit matching an active pair (no contract of its own; HandleResult states that exactly then the dispatch retires a pair) |
| GpuWorker.NextRetiring | core/gpu_worker.py:66-105 | defined as the first dispatch from a given one on whose result retires a pair (no contract of its own; NextRetiringNone and NextRetiringFirst state it) |
| GpuWorker.NextRetiringNone | core/gpu_worker.py:66-105 | the round finds no retiring dispatch exactly when no remaining dispatch's result retires a pair |
| GpuWorker.NextRetiringFirst | core/gpu_worker.py:66-105 | the dispatch the round stops at retires a pair and no earlier one does |
| GpuWorker.RetirementMatches | core/gpu_worker.py:82-98 | the update issued carries the retired pair's row id and an address that matches that pair |
| GpuWorker.HandleResult | core/gpu_worker.py:73-105 | one dispatch retires a pair exactly when its result is non-empty and one of its hits matches; otherwise the list is unchanged |
| GpuWorker.RunRound | core/gpu_worker.py:66-113 | the inner loop stops right after the first retiring dispatch and reports its retirement; without one it uses up the dispatches and changes nothing |
| GpuWorker.RetireKeepsTrace | core/gpu_worker.py:90-100 | one retirement keeps the map membership, the removal history, the bindings and the store updates consistent |
| GpuWorker.RoundsFollowStep | core/gpu_worker.py:66-105 | a round that ends at the first retiring dispatch after the previous round's extends the record of which dispatch retired which pair with which update |
| GpuWorker.IncreasingStep | core/gpu_worker.py:66-105 | a later round ends at a later dispatch, so the rounds' dispatches stay strictly increasing and no more numerous than the dispatches used |
| GpuWorker.ChunkRetire | core/gpu_worker.py:58-105 | one round that binds the list and retires at its first retiring dispatch keeps the whole chunk state, with one active pair fewer |
| GpuWorker.ChunkExhausted | core/gpu_worker.py:58-105 | one round that binds the list and finds no retiring dispatch keeps the chunk state and uses up the dispatches |
| GpuWorker.DrainChunk | core/gpu_worker.py:55-113 | the chunk loop ends with an empty list unless the dispatches run out. Retirement `k` came from dispatch `rounds[k]`, the first dispatch after round `k - 1`'s whose result retires a pair from the list of its time, and it retired exactly the pair and update that result calls for. The rounds' dispatches strictly increase, so there are no more retirements than dispatches used, and with pairs left no remaining dispatch retires one. The list is always the start minus the retired pairs, each round was bound to the list of its time, and each update matches its pair. There is one bind per retirement, plus one more exactly when pairs are left and a final round ran out of dispatches without retiring |
| GpuWorker.ScenarioHits | core/gpu_worker.py:73-85 | in a fixed scenario only the third dispatch has a hit, and that hit matches row 1's prefix |
| GpuWorker.ScenarioOnlyThirdRetires | core/gpu_worker.py:66-105 | in that scenario no other dispatch retires a pair |
| GpuWorker.ScenarioThirdDispatchRetiresFirst | core/gpu_worker.py:48-105 | two tasks, an empty result, an unflagged output and then a hit: three dispatches retire row 1 and leave row 2 |
| PatternParser.HasSeparator | core/utils/parser.py:5 | defined as Python's `"__" in pattern` (no contract of its own) |
| PatternParser.FindSeparator | core/utils/parser.py:5-6 | the cut point of `split("__", 1)`: none exactly when there is no `"__"`; otherwise the first `"__"` |
| PatternParser.ParseWalletPattern | core/utils/parser.py:1-12 | with `"__"`: start + `"__"` + end is the pattern and no `"__"` starts inside the start, so the cut is at the first `"__"`; else a trailing `_`; else a leading `_`; else both parts empty |
| PatternParser.ParsePartsComeFromPattern | core/utils/parser.py:1-12 | in every branch the parts' lengths sum to at most the pattern's, and both parts occur in the pattern |
| PatternParser.ParseSplitsAtFirstSeparator | core/utils/parser.py:5-6 | the cut is at the first `"__"`, so the end may itself contain `"__"` |
| PatternParser.ParseDigitsAreLiteral | core/utils/parser.py:5-6 | `"5__3"` gives `("5", "3")`: digits are text, not counts |
| PatternParser.ParseSeparatorBeatsMarkers | core/utils/parser.py:5-10 | `"_a__b_"` gives `("_a", "b_")`: the separator takes precedence over both markers |
| PatternParser.ParseThirdUnderscoreGoesToEnd | core/utils/parser.py:5-6 | `"a___b"` gives `("a", "_b")` |
| PatternParser.ParseMarkerExamples | core/utils/parser.py:2-12 | `"abc_"`, `"_abc_"`, `"_abc"`, `"abc"` and `""` decode as the branch order says: a trailing `_` wins over a leading one |
| Text.StartsWith | core/gpu_worker.py:83 | defined as `s.startswith(p)`: `p` is the first `len(p)` characters of `s`; also the test at core/utils/parser.py:9 (no contract of its own; FirstMatch, MatchIsCaseExact and ParseWalletPattern state what follows from it) |
| Text.EndsWith | core/gpu_worker.py:83 | defined as `s.endswith(q)`: `q` is the last `len(q)` characters of `s`; also the test at core/utils/parser.py:7 (no contract of its own; FirstMatch, MatchIsCaseExact and ParseWalletPattern state what follows from it) |
| Text.EncodeChar | core/searcher.py:55 | per section 3 of RFC 3629: one byte exactly below U+0080, two below U+0800, three below U+10000, four above; lead bytes C2-DF, E0-EF and F0-F4 for two, three and four bytes; continuation bytes 80-BF; and the bytes decode back to the code point (DecodeBytes, a reference decoder with no source counterpart) |
| Text.Utf8 | core/searcher.py:59 | the encoding of a string has between one and four bytes per character |
| Text.Utf8Append | core/searcher.py:55-56 | encoding a concatenation is concatenating the encodings |
| Text.Utf8Ascii | core/searcher.py:59 | an ASCII string encodes to one byte per character, each its code |
| Searcher.Zeros | core/searcher.py:118 | defined as `np.zeros(n)`, `n` zero bytes (no contract of its own; SetSearchParams and Upload state that the output array and the output buffer get 33 of them) |
| Searcher.PackData | core/searcher.py:56 | the joined prefix data has the total encoded length |
| Searcher.PackDataAt | core/searcher.py:55-57 | the bytes of prefix `i` sit in the joined data right after those of the prefixes before it |
| Searcher.PackDataAppend | core/searcher.py:56 | joining a concatenated list is concatenating the joins |
| Searcher.Lengths | core/searcher.py:58 | defined as the `uint8` length array, each prefix's encoded length modulo 256 (no contract of its own; PackPrefixes states it) |
| Searcher.PackPrefixes | core/searcher.py:55-58 | one length byte per prefix, the encoded length modulo 256, and data of the total encoded length |
| Searcher.EncodeAll | core/searcher.py:55 | defined as the list of the prefixes' UTF-8 encodings, in order (no contract of its own; UnpackPackPrefixes states that the packing reads back to it) |
| Searcher.UnpackPackPrefixes | core/searcher.py:55-58 | when every encoded prefix is shorter than 256 bytes, reading the data back by the length array gives exactly the encoded prefixes. The reader `Searcher.Unpack` stands for no source line: it is a reference reader, playing the kernel's part, for this round trip |
| Searcher.UnpackPackCons | core/searcher.py:55-58 | one step of that round trip: a first prefix shorter than 256 bytes is read back in front of the rest |
| Searcher.LongPrefixLengthWraps | core/searcher.py:58 | a prefix of 256 encoded bytes gets length byte 0 |
| Searcher.Reserved | core/searcher.py:99-102 | one buffer is kept when present and large enough; otherwise it is new, with the next handle and the first or required size |
| Searcher.ReserveAll | core/searcher.py:68-114 | the handle counter never goes back |
| Searcher.FirstSuffixSize | core/searcher.py:112 | defined as `max(1, n)`, the size of a first suffix buffer (no contract of its own; ReserveAllGrows and ReserveAllSuffixCapacity state it) |
| Searcher.ReserveAllGrows | core/searcher.py:68-114 | the four fixed buffers are made once and then kept; the prefix, length and suffix buffers reach their required sizes and are replaced only when absent or smaller; a first suffix buffer has `max(1, n)` bytes |
| Searcher.ReservedKeepsDistinct | core/searcher.py:99-102 | reserving one slot keeps all handles distinct and below the next one |
| Searcher.ReserveAllDistinct | core/searcher.py:68-114 | after reserving no two buffers share a handle |
| Searcher.ReserveAllComplete | core/searcher.py:68-114 | after reserving every slot holds a buffer; when every buffer was kept, no handle was used |
| Searcher.ReserveAllIdempotent | core/searcher.py:68-114 | reserving again for the same sizes changes no buffer identity or size and uses no handle |
| Searcher.ReserveAllSuffixCapacity | core/searcher.py:111-114 | the suffix buffer always holds at least `max(1, len(suffix))` bytes |
| Searcher.HostSetting.constructor | core/searcher.py:64-65 | the setting starts with its work sizes, occupied-byte count and seed size, and no seed advance yet |
| Searcher.HostSetting.IncreaseKey32 | core/searcher.py:143 | one call advances the seed exactly once |
| Searcher.Searcher.constructor | core/searcher.py:30-52 | a new session has no buffers, no output array, no arguments and no launches |
| Searcher.Searcher.ReserveBuffers | core/searcher.py:68-114 | the buffers follow the capacity rule; handles stay distinct; every slot is filled; the suffix buffer has at least `max(1, n)` bytes; a new output buffer comes with a zeroed 33-byte array |
| Searcher.Searcher.Upload | core/searcher.py:64-130 | the seed, iteration bytes, device index, packed prefixes and suffix (one zero byte when its `uint32` length is 0) go to their buffers; the output is reset to 33 zeros; arguments 0 to 9 are set |
| Searcher.Searcher.SetSearchParams | core/searcher.py:54-130 | the session invariant is kept; buffers follow the capacity rule; the output array is 33 zeros; the suffix buffer has at least `max(1, n)` bytes; argument 6 is the prefix count and argument 8 the suffix length, both as `uint32`; no launch happens |
| Searcher.Searcher.Find | core/searcher.py:132-152 | one launch of `global_work_size // gpu_chunks` items with the current seed; the seed advances exactly once; the output is the device's answer; buffers and arguments are unchanged |
| Searcher.UploadedContents | core/searcher.py:89-119 | defined as the contents the upload half of `set_search_params` writes over the old ones: the iteration byte, the group offset, the packed prefixes and lengths, the suffix (or one zero byte) and 33 output zeros, each under its buffer's handle (no contract of its own; UploadedContentsTwice states it) |
| Searcher.UploadedArgs | core/searcher.py:121-130 | defined as kernel arguments 0 to 9 as `set_search_params` sets them (no contract of its own; UploadedArgsTwice states it) |
| Searcher.UploadedContentsTwice | core/searcher.py:89-119 | uploading the same parameters into the same buffers again leaves every buffer's contents as they were |
| Searcher.UploadedArgsTwice | core/searcher.py:121-130 | setting the same kernel arguments again leaves every argument as it was |
| Searcher.ReserveAllKeeps | core/searcher.py:68-116 | a complete buffer map whose prefix, length and suffix buffers already have room is returned unchanged, with no handle used |
| Searcher.RebindIsStable | core/searcher.py:54-130 | from a session whose seven buffers all exist and whose prefix, length and suffix buffers already have room, one more `set_search_params` keeps every buffer and the handle counter, and gives the whole new state: the output array is 33 zeros, the current seed is copied, no launch happens, the buffers receive the uploaded contents and arguments 0 to 9 are set (an empty body fails it) |
| Searcher.BindTwice | core/searcher.py:54-130 | two calls with the same parameters leave exactly the state one call gives: the buffers and handle counter of the capacity rule applied once to the starting buffers, 33 output zeros, the current seed copied, no launch, and the contents and arguments of a single upload over the starting ones |
| Searcher.SavedKeys | core/searcher.py:241-246 | at most one saved key per output |
| Searcher.SavedKeysCount | core/searcher.py:240-247 | one saved key per output whose found byte is set |
| Searcher.SavedKeysAppend | core/searcher.py:241-246 | saving distributes over concatenation, so input order is kept |
| Searcher.SaveResult | core/searcher.py:237-247 | `save_keypair` is called on `output[1:]` of each found output, in order, and the count returned is the number of found outputs |

## Left out

- The OpenCL API (context, program build, queue, `enqueue_copy`, `enqueue_nd_range_kernel`, `flush`, `wait`) is not modelled, because it is a foreign device interface. A buffer is a handle id plus a size. The bytes last copied into a buffer are recorded by handle, and kernel arguments are recorded by position.
- The kernel is not modelled. Its answer is a parameter: `deviceOutput` of `Searcher.Searcher.Find`, and the dispatch stream of `GpuWorker.DrainChunk`.
- `HostSetting` is kept to the fields the session reads. `core/config.py` is not part of this model. The seed is known only by how many times it has been advanced, and the contents of `key32` are not modelled.
- Timing is left out: `time.time`, the NVIDIA `time.sleep` throttle, the 10 ms sleep, speed logging and the one-second `log_stats` window. These only affect wall-clock behaviour, never which pairs are retired.
- Logging (`logger`, `logging`) is left out.
- The queue loops of both `multi_gpu_worker` functions are left out because they are multiprocessing plumbing. This covers `task_queue.get`, the `None` shutdown value and the exception handlers. The second `multi_gpu_worker` in `core/searcher.py` is left out for the same reason.
- The store (`Postgres`, its update and its notify polling) is not modelled. A store update appears as an `Update` value.
- Base58 is a function parameter `encode`, and `save_keypair` is recorded as the list of key bytes it is called with. Both are foreign library calls.
- `GpuWorker.DrainChunk`: the dispatch stream is finite. With no retiring hit, the source loops forever; the model instead stops when the supplied dispatches run out.
- `GpuWorker.HandleResult`: the truth test `if result:` is modelled as "the list of outputs is non-empty". The value `find` returns is a 33-byte NumPy array, and Python refuses a truth test on an array of more than one element. The worker code therefore only makes sense for a list-of-outputs result, which is what the model takes.
- `set_search_params_batch` does not exist in `core/searcher.py`. As written, the call at core/gpu_worker.py:62 raises `AttributeError`, the `except` at lines 119-120 logs it, and the worker returns without dispatching anything. The chunk model follows the call's evident purpose instead: it records each such call as a `Bind` of the active pairs and the case flag and goes on to dispatch.
- `Text.Utf8`: `str.encode("utf-8")` raises `UnicodeEncodeError` on a lone surrogate in a Python string. The model cannot express that input, because a Dafny `char` excludes the surrogate range, so that error path is not modelled.
- `Searcher.PackPrefixes`: a prefix length of 256 or more wraps modulo 256, as older NumPy did with `np.array(..., dtype=np.uint8)`. NumPy 2 raises `OverflowError` instead, and that error path is not modelled.
- `Searcher.Searcher.Upload`: the copy of the previous host output array into the output buffer (core/searcher.py:81) is not recorded. The zeroed copy at lines 118-119 overwrites it before any launch.
- `Searcher.Searcher.Find` requires the seed and output buffers to exist. A call of `find()` before any `set_search_params` fails in the source on the unset `memobj_key32` (core/searcher.py:134), and that error path is not modelled.
- Buffers of size 0 are modelled as buffers of size 0. OpenCL refuses them, and that error path is not modelled.
- `Searcher.SaveResult` and `Searcher.SavedKeys` require every output to be non-empty. Python would raise `IndexError` on `output[0]` of an empty output.
- `Searcher.ReserveAll`: its own contract only says that handles never go back. What it does to each buffer is stated by `ReserveAllGrows`, `ReserveAllDistinct`, `ReserveAllComplete`, `ReserveAllIdempotent` and `ReserveAllSuffixCapacity`.
- The `hasattr` tests are not modelled separately: the constructor always sets the attributes, so `hasattr` is always true and only the `is None` test matters.
