# Sarah: a combined sequential array and random-access hash, in Dafny

Sarah (lib/sarah.rb) is one keyed collection backed by two stores:

- `@seq`: a dense array holding the keys `0 .. seq.size-1`.
- `@rnd`: an insertion-ordered hash holding every other key. These are non-integer keys, integers past the end of `@seq`, and negative integers.

Values move between the stores:

- `[]=` writes an integer key with `|k| <= seq.size` into `@seq`, after normalising a negative key by adding `seq.size`. It then absorbs `@rnd[seq.size]`, `@rnd[seq.size + 1]`, … into `@seq` until the run of keys breaks.
- `delete_key` on an index of `@seq` truncates `@seq` there. The elements that followed move into `@rnd` under their old keys.
- `push` and `unshift` delete the `@rnd` keys that the grown `@seq` now covers. They do not absorb anything afterwards.

The project has six files:

- `assoc.dfy` (module `Assoc`): the insertion-ordered hash. It is a list of key/value pairs. Putting an existing key updates it where it stands; putting a new key appends it; deleting a key removes it.
- `store.dfy` (module `Store`): the two stores as one value, `State(sequential, random)`. Every read of the source is a function of that value, and so is the state every write leaves. It also defines the invariant `Valid`: `@rnd` keys are unique, and no integer `@rnd` key lies in `[0, seq.size)`.
- `properties.dfy` (module `Properties`): what the source promises about those functions. This covers read-after-write and the frame of `[]=`, the separation invariant for every mutator, the exact effect of `delete_key`, `push`, `unshift`, `shift` and `pop`, round trips, last-write-wins for hash merges, and slices.
- `container.dfy` (module `Container`): the class `Sarah`. Its fields are `default`, `defaultProc`, `sequential` (`@seq`) and `random` (`@rnd`). Its methods update the fields in place with the source's loops. Each method that changes the stores is proved to leave exactly the state the `Store` function computes, and to keep `Valid`. The slice methods return a new Sarah that satisfies `Valid`.
- `scenarios.dfy` (module `Scenarios`): the behaviour checked by the repository's tests for this version (test/02new.rb, test/03set_get.rb, test/04stack.rb), and the quirks of the source that the model keeps.
- `wrappers.dfy`: `Option` and `Result`.

Keys are `Int(i)` or `Other(name)`, which mirrors `is_a? Integer`. Values are of a generic type `V`. `default_proc` is an optional pure function of the key, or of no key (`nil`).

The model reproduces these behaviours of the code as written:

- A negative key stored in `@rnd` while `@seq` was short is read before `@seq` (lib/sarah.rb:80). A later in-range write of that key updates `@seq` but deletes only the normalised key, so the stale entry keeps shadowing it (`Scenarios.StaleNegativeKeyShadows`).
- `push` does not absorb, so `@rnd` may still hold the key `seq.size` afterwards (`Scenarios.PushLeavesNextKey`).
- `unshift` does not renumber `@rnd` (`Scenarios.UnshiftKeepsRandomKeys`).
- `delete_key`, `shift` and `pop` pass `nil` to the default proc, where `[]` passes the key (`Scenarios.RemovalsPassNil`).

## Model

| member | source | states |
|---|---|---|
| Store.Absorb | lib/sarah.rb:169-174 | after the migration loop, `@rnd` has no entry at key `seq.size`; the old `@seq` is a prefix of the new one |
| Store.Normalize | lib/sarah.rb:162 | the shift of a negative key by `seq.size`, used by `[]=` here and by `delete_key` at line 289; a part of `Place`, `Get` and `DeleteKey` |
| Store.Fallback | lib/sarah.rb:85 | the default proc applied to the key, or the default; `shift`, `pop` and `delete_key` use it with nil (lines 117-120, 128-131, 302); a part of `Get`, `Shift`, `Pop` and `DeleteKey` |
| Store.HasKey | lib/sarah.rb:62-65 | `has_key?`: every integer from `-seq.size` to `seq.size-1` is present, and a non-integer key is present exactly when `@rnd` holds it |
| Store.Get | lib/sarah.rb:75-87 | `[]` with one key: a non-negative index of `@seq` that `@rnd` does not shadow reads `seq[i]`; a missing key reads the default proc's value for the key, or the default |
| Store.Fetch | lib/sarah.rb:97-108 | `fetch` succeeds whenever the key is present or a default argument or a block is given; when it fails, the error is KeyError for that key |
| Store.Size | lib/sarah.rb:318 | `size` is 0 exactly when both stores are empty, and is at least each store's size |
| Store.Keys | lib/sarah.rb:337-347 | `keys` has `size` entries and begins with `0 .. seq.size-1` in order |
| Store.Values | lib/sarah.rb:353 | `values` has `size` entries and begins with `@seq` |
| Store.Each | lib/sarah.rb:138-142 | `each` yields `size` pairs: `(i, seq[i])` for every index, then the `@rnd` entries in order |
| Store.Place | lib/sarah.rb:161-167 | the write half of `[]=`; what it promises is stated by `Properties.PlaceThenGet` and `Properties.PlaceKeepsValid` |
| Store.Assign | lib/sarah.rb:160-177 | the stores `[]=` leaves; stated by `Properties.AssignThenGet`, `Properties.AssignFrame` and `Properties.AssignKeepsValid` |
| Store.Demote | lib/sarah.rb:294 | the copy loop of `delete_key`; stated by `Properties.DemoteAppends` |
| Store.DeleteKey | lib/sarah.rb:286-303 | the value and the stores `delete_key` leaves; stated by `Properties.DeleteKeyInSeq`, `Properties.DeleteKeyInRandom`, `Properties.DeleteKeyAbsent` and `Properties.DeleteKeyKeepsValid` |
| Store.Shift | lib/sarah.rb:114-122 | the value and the stores `shift` leaves; stated by `Properties.ShiftUnshiftRoundTrip` and `Properties.ShiftPopKeepValid` |
| Store.Pop | lib/sarah.rb:125-133 | the value and the stores `pop` leaves; stated by `Properties.PopPushRoundTrip` and `Properties.ShiftPopKeepValid` |
| Store.DropRange | lib/sarah.rb:264 | the deletion loop of `push`/`unshift`; stated by `Properties.DropRangeIsWithout` |
| Store.Push | lib/sarah.rb:273-277 | the stores `push` leaves; stated by `Properties.PushSpec` |
| Store.Unshift | lib/sarah.rb:263-267 | the stores `unshift` leaves; stated by `Properties.UnshiftSpec` |
| Store.AssignFrom | lib/sarah.rb:251 | the array loop of `merge!`; stated by `Properties.AssignFromWrites` |
| Store.MergeArray | lib/sarah.rb:250-251 | `merge!` of one array; stated by `Properties.MergeArrayWrites` and `Properties.MergeArrayIntoEmpty` |
| Store.MergeSource | lib/sarah.rb:247-252 | the per-source dispatch of `merge!`: a hash goes pair by pair through `[]=`, an array index by index; a part of `Merge` |
| Store.MergePairs | lib/sarah.rb:248-249 | `merge!` of one hash, and `set_pairs`; stated by `Properties.MergePairsLastWriteWins` and `Properties.MergePairsAppendsFar` |
| Store.Merge | lib/sarah.rb:246-255 | `merge!` of a list of arrays and hashes; stated by `Properties.MergeKeepsValid` and `Properties.NewArrayAndHash` |
| Store.AppendPiece | lib/sarah.rb:212-219 | one structure of `append!`; stated through `Properties.AppendKeepsValid` and `Scenarios.AppendFour` |
| Store.Append | lib/sarah.rb:210-222 | `append!`; stated by `Properties.AppendKeepsValid` and `Scenarios.AppendFour` |
| Store.InsertPiece | lib/sarah.rb:230-237 | one structure of `insert!`; stated through `Properties.InsertKeepsValid` and `Scenarios.InsertFour` |
| Store.Insert | lib/sarah.rb:228-240 | `insert!`, last structure first; stated by `Properties.InsertKeepsValid` and `Scenarios.InsertFour` |
| Store.Section | lib/sarah.rb:361 | `Array#slice(start, len)`; stated by `Properties.SliceSplits` |
| Store.Cut | lib/sarah.rb:370 | what `Array#slice!(start, len)` leaves; stated by `Properties.SliceSplits` |
| Store.Slice | lib/sarah.rb:360-364 | `slice`; stated by `Properties.SliceSpec` and `Properties.SliceExact` |
| Store.SeqSlice | lib/sarah.rb:378-382 | `seq_slice`; stated by `Properties.SeqSliceSpec` |
| Store.SliceRest | lib/sarah.rb:369-391 | the stores `slice!` and `seq_slice!` leave; stated by `Properties.SliceSplits` and `Properties.SliceRestKeepsValid` |
| Properties.FetchAgreesWithGet | lib/sarah.rb:97-108 | on a present key `fetch` returns what `[]` returns; on a missing key `[]` gives the default proc's value for the key (or the default); `fetch` fails with KeyError for that key exactly when the key is missing and neither a default argument nor a block is given |
| Properties.ViewsAgree | lib/sarah.rb:318-353 | `keys`, `values` and `each` all have `size` = `seq.size + rnd.size` entries; `keys` is `0 .. seq.size-1` followed by the `@rnd` keys in order; position by position, `keys` and `values` are the key and value that `each` yields |
| Properties.KeysArePresent | lib/sarah.rb:337-347 | every key `keys` lists is present, and every present non-negative or non-integer key is listed; a negative key that only `@seq` answers for (one `@rnd` does not hold) is not listed |
| Properties.KeysDistinct | lib/sarah.rb:337-347 | under the invariant, `keys` lists no key twice |
| Properties.EachAgreesWithGet | lib/sarah.rb:138-142 | under the invariant, every pair `each` yields is a present key together with the value `[]` reads for it, and no key is yielded twice |
| Properties.AbsorbKeepsFixedReads | lib/sarah.rb:169-174 | moving entries from `@rnd` to `@seq` changes neither `has_key?` nor `[]` for any non-negative or non-integer key |
| Properties.AbsorbKeepsValid | lib/sarah.rb:169-174 | the migration loop keeps the invariant and the total size |
| Properties.PlaceThenGet | lib/sarah.rb:161-167 | once the first half of `[]=` has written a non-negative or non-integer key, that key is present with the written value |
| Properties.AssignThenGet | lib/sarah.rb:160-177 | after `s[k] = v` with `k` non-integer or `>= 0`, `has_key?(k)` holds, `s[k]` is `v`, and `fetch(k)` succeeds with `v`, also when migration carried `k` into `@seq` |
| Properties.AssignFrame | lib/sarah.rb:160-177 | `s[k] = v` with `k` non-integer or `>= 0` changes neither `has_key?` nor `[]` for any other non-negative or non-integer key |
| Properties.PlaceKeepsValid | lib/sarah.rb:161-167 | the write half of `[]=` keeps the invariant; for a non-negative or non-integer key the size grows by one exactly when the key was absent |
| Properties.AssignKeepsValid | lib/sarah.rb:160-177 | `[]=` keeps the invariant and leaves `@rnd` without key `seq.size`; for a non-negative or non-integer key the size grows by one exactly when the key was absent |
| Properties.DemoteAppends | lib/sarah.rb:294 | when `@rnd` holds none of the keys `from .. seq.size-1`, the copy loop of `delete_key` appends the elements from index `from` on to `@rnd`, in order, under their own indices |
| Properties.DeleteKeyInSeq | lib/sarah.rb:288-300 | under the invariant, `delete_key(i)` for an integer `i` that `@rnd` does not hold and whose normalised value `k` indexes `@seq` returns the old `seq[k]`, leaves `seq[0...k]`, and appends every later element to `@rnd` under its own index; each later index is then present in `@rnd` with its old value, the size drops by one, and the invariant holds |
| Properties.DeleteKeyInRandom | lib/sarah.rb:287 | a key present in `@rnd` is deleted there first: its value is returned and `@seq` is untouched |
| Properties.DeleteKeyAbsent | lib/sarah.rb:286-303 | deleting a missing key returns the default proc's value for `nil` (or the default) and changes neither store |
| Properties.DeleteKeyKeepsValid | lib/sarah.rb:286-303 | `delete_key` keeps the invariant, and the size drops by one exactly when the key was present |
| Properties.WithoutHasKey | lib/sarah.rb:264 | the reference removal of the keys `lo .. hi-1` keeps exactly the other keys, and keeps them unique |
| Properties.DropRangeIsWithout | lib/sarah.rb:274 | the deletion loop of `push`/`unshift` leaves `@rnd` without the keys `lo .. hi-1`, with every other entry kept in order |
| Properties.DropRangeKeepsValid | lib/sarah.rb:264 | deleting a range of integer keys from `@rnd`, as `push` and `unshift` begin, keeps the invariant |
| Properties.PushSpec | lib/sarah.rb:273-277 | `push` makes `@seq` the old one followed by the values `vs`, and removes from `@rnd` exactly the keys `seq.size .. seq.size+vs.size-1` of the old `@seq`, keeping every other entry in order |
| Properties.UnshiftSpec | lib/sarah.rb:263-267 | `unshift` makes `@seq` the values `vs` followed by the old one, and removes from `@rnd` exactly the keys `seq.size .. seq.size+vs.size-1` of the old `@seq`, keeping every other entry in order |
| Properties.PushUnshiftKeepValid | lib/sarah.rb:263-277 | `push` and `unshift` keep the invariant |
| Properties.ShiftUnshiftRoundTrip | lib/sarah.rb:114-122 | under the invariant and on a non-empty `@seq`, unshifting the value `shift` returned restores both stores |
| Properties.PopPushRoundTrip | lib/sarah.rb:125-133 | under the invariant and on a non-empty `@seq`, pushing the value `pop` returned restores both stores |
| Properties.ShiftPopKeepValid | lib/sarah.rb:114-133 | `shift` and `pop` keep the invariant, and shrink the size by one exactly when `@seq` is not empty |
| Properties.AssignFromWrites | lib/sarah.rb:251 | the array loop of `merge!`, from index `i` on, writes `vs[j]` at every key `j >= i` and leaves every other non-negative or non-integer key as it was |
| Properties.MergeArrayWrites | lib/sarah.rb:251 | `merge!` of an array makes each index read its element and leaves every other non-negative or non-integer key as it was |
| Properties.MergeArrayIntoEmpty | lib/sarah.rb:251 | an array merged into an empty Sarah becomes `@seq` as it is, with `@rnd` empty |
| Properties.AssignFar | lib/sarah.rb:160-177 | `[]=` with a new key that is a non-integer or an integer past `seq.size`, on a Sarah whose `@rnd` lacks key `seq.size`, appends the pair to `@rnd` and absorbs nothing |
| Properties.MergePairsAppendsFar | lib/sarah.rb:249 | merging pairs with distinct new keys of that kind appends them to `@rnd` in order and leaves `@seq` alone |
| Properties.NewArrayAndHash | lib/sarah.rb:42-47 | `new` with an array and a hash of distinct non-integer keys keeps the array as `@seq` and the hash as `@rnd` |
| Properties.MergePairsSnoc | lib/sarah.rb:249 | merging a hash with one more pair is merging the shorter hash and then assigning that pair |
| Properties.MergePairsLastWriteWins | lib/sarah.rb:249 | when `merge!` or `set_pairs` gets only non-negative or non-integer keys, a written key reads its last written value and is present; an unwritten key reads and exists as before |
| Properties.AssignFromKeepsValid | lib/sarah.rb:251 | the array loop of `merge!` keeps the invariant |
| Properties.MergePairsKeepsValid | lib/sarah.rb:249 | merging a hash keeps the invariant |
| Properties.MergeKeepsValid | lib/sarah.rb:246-255 | `merge!` of any sequence of arrays and hashes keeps the invariant |
| Properties.AppendKeepsValid | lib/sarah.rb:210-222 | `append!` keeps the invariant |
| Properties.InsertKeepsValid | lib/sarah.rb:228-240 | `insert!` keeps the invariant |
| Properties.AssignKeepsPrefix | lib/sarah.rb:160-177 | `[]=` with a key that is not an integer below `m` leaves the first `m` elements of `@seq` alone |
| Properties.MergePairsKeepsPrefix | lib/sarah.rb:249 | merging pairs whose keys are not integers below `m` leaves the first `m` elements of `@seq` alone |
| Properties.SliceSpec | lib/sarah.rb:360-364 | `slice(start, len)` is nil exactly when `start > seq.size`; otherwise the new Sarah satisfies the invariant, and its `@seq` begins with the selected section when `@rnd` is separated and holds no negative integer key |
| Properties.SliceExact | lib/sarah.rb:360-364 | under the invariant, when `@rnd` holds no negative integer key and not the key `section.size`, `slice` is exactly the section as `@seq` with `@rnd` unchanged |
| Properties.SeqSliceSpec | lib/sarah.rb:378-382 | `seq_slice(start, len)` is nil past the end; otherwise it is a Sarah whose `@seq` is exactly the section and whose `@rnd` is empty |
| Properties.SliceSplits | lib/sarah.rb:369-373 | past the end, `slice!` leaves `@seq` untouched; otherwise the section, put back between the two parts `slice!` leaves, restores `@seq`, and the length drops by the section's length |
| Properties.SliceRestKeepsValid | lib/sarah.rb:369-391 | `slice!` and `seq_slice!` keep the invariant and leave `@rnd` as it was |
| Container.Sarah.constructor | lib/sarah.rb:42-47 | a new Sarah holds the given defaults and the stores that merging the given sources into an empty Sarah produces, and satisfies the invariant |
| Container.Sarah.HasKey | lib/sarah.rb:62-65 | `has_key?` of the object: `Store.HasKey` of its two fields |
| Container.Sarah.Get | lib/sarah.rb:75-87 | `[]` of the object: `Store.Get` of its fields and defaults |
| Container.Sarah.Fetch | lib/sarah.rb:97-108 | `fetch` of the object: `Store.Fetch` of its fields |
| Container.Sarah.Size | lib/sarah.rb:318 | `size`: `Store.Size` of its fields |
| Container.Sarah.SeqSize | lib/sarah.rb:308 | `seq_size`: the length of `@seq` |
| Container.Sarah.RndSize | lib/sarah.rb:313 | `rnd_size`: the number of `@rnd` entries |
| Container.Sarah.Keys | lib/sarah.rb:337-347 | `keys`: `Store.Keys` of its fields |
| Container.Sarah.Values | lib/sarah.rb:353 | `values`: `Store.Values` of its fields |
| Container.Sarah.Each | lib/sarah.rb:138-142 | `each`: `Store.Each` of its fields |
| Container.Sarah.Clear | lib/sarah.rb:52-56 | both stores become empty, so the size is 0; the defaults are unchanged |
| Container.Sarah.Assign | lib/sarah.rb:160-177 | the write, then the migration loop, leaves exactly `Store.Assign` of the old stores; returns the value; keeps the invariant |
| Container.Sarah.DeleteKey | lib/sarah.rb:286-303 | returns the value and leaves the stores that `Store.DeleteKey` gives; keeps the invariant |
| Container.Sarah.DemoteTail | lib/sarah.rb:294 | the demotion loop stores every element from the cut onwards in `@rnd` under its own index, exactly as `Store.Demote` says |
| Container.Sarah.Shift | lib/sarah.rb:114-122 | returns the first element (or the default for nil) and leaves `Store.Shift` of the old stores |
| Container.Sarah.Pop | lib/sarah.rb:125-133 | returns the last element (or the default for nil) and leaves `Store.Pop` of the old stores |
| Container.Sarah.DropKeys | lib/sarah.rb:264 | the deletion loop leaves `@rnd` as `Store.DropRange` of the old one, does not touch `@seq`, and keeps the invariant |
| Container.Sarah.Push | lib/sarah.rb:273-277 | leaves `Store.Push` of the old stores and keeps the invariant |
| Container.Sarah.Unshift | lib/sarah.rb:263-267 | leaves `Store.Unshift` of the old stores and keeps the invariant |
| Container.Sarah.MergeArray | lib/sarah.rb:251 | the index loop leaves `Store.MergeArray` of the old stores and keeps the invariant |
| Container.Sarah.MergePairs | lib/sarah.rb:249 | the pair loop leaves `Store.MergePairs` of the old stores and keeps the invariant |
| Container.Sarah.SetPairs | lib/sarah.rb:199-202 | leaves `Store.MergePairs` of the old stores and keeps the invariant |
| Container.Sarah.Merge | lib/sarah.rb:246-255 | the source loop leaves `Store.Merge` of the old stores and keeps the invariant |
| Container.Sarah.Set | lib/sarah.rb:186-191 | merges the values as an array and then the trailing hash, if any; keeps the invariant |
| Container.Sarah.AppendPiece | lib/sarah.rb:212-219 | one structure of `append!`: leaves `Store.AppendPiece` of the old stores |
| Container.Sarah.Append | lib/sarah.rb:210-222 | the loop over the structures, first to last, leaves `Store.Append` of the old stores and keeps the invariant |
| Container.Sarah.InsertPiece | lib/sarah.rb:230-237 | one structure of `insert!`: leaves `Store.InsertPiece` of the old stores |
| Container.Sarah.Insert | lib/sarah.rb:228-240 | the loop over the structures, last to first, leaves `Store.Insert` of the old stores and keeps the invariant |
| Container.Sarah.Slice | lib/sarah.rb:360-364 | nil exactly when `Store.Slice` is; otherwise a fresh Sarah holding `Store.Slice`'s stores and the same defaults, and satisfying the invariant |
| Container.Sarah.SeqSlice | lib/sarah.rb:378-382 | as `Slice`, for `Store.SeqSlice` |
| Container.Sarah.SliceInPlace | lib/sarah.rb:369-373 | returns what `slice` returned before the cut and leaves `@seq` cut (`Store.SliceRest`); keeps the invariant |
| Container.Sarah.SeqSliceInPlace | lib/sarah.rb:387-391 | returns what `seq_slice` returned before the cut and leaves `@seq` cut; keeps the invariant |
| Scenarios.NewConsecutive | test/02new.rb:32-37 | array `[0, 1]` then hash `{2 => :two, 3 => :three}` give `@seq == [0, 1, :two, :three]` and an empty `@rnd` |
| Scenarios.NewMixed | test/02new.rb:24-30 | array `[1, 2]` then hash `{:one => 1, :two => 2}` keep the array in `@seq` and the hash in `@rnd`, two entries each |
| Scenarios.MixedSetUp | test/03set_get.rb:6-8 | array `[1, 2]` then hash `{:a => 3, :b => 4}` give the Sarah the other test 03 lemmas start from |
| Scenarios.MixedHasKey | test/03set_get.rb:10-22 | keys 0, -1 and :a are present, 2 and :c are not; the size is 4, and an empty Sarah has size 0 |
| Scenarios.MixedGetSet | test/03set_get.rb:24-38 | the stored values read back, a missing key reads nil, and `s[2] = 5; s[:c] = 6` read back 5 and 6 |
| Scenarios.Defaulting | test/03set_get.rb:36-48 | an explicit default is returned for a missing key; a default block that returns the key returns 1 and 2 |
| Scenarios.MixedFetch | test/03set_get.rb:50-55 | `fetch` returns the value, raises KeyError, returns the default argument, or calls the block with the key |
| Scenarios.Stack | test/04stack.rb:8-16 | push 1, 2, 3 and unshift 4, 5, 6 give `[4, 5, 6, 1, 2, 3]`; shift gives 4, pop gives 3, leaving `[5, 6, 1, 2]` |
| Scenarios.AppendFour | lib/sarah.rb:210-222 | appending an array, a hash with one new symbol key and two more arrays to a Sarah whose `@rnd` holds no integer key extends `@seq` by the three values and `@rnd` by the one pair |
| Scenarios.InsertFour | lib/sarah.rb:228-240 | inserting the same four structures puts the three values in front of `@seq` in their given order and adds the one pair to `@rnd` |
| Scenarios.Appending | test/04stack.rb:18-25 | the two `append!` calls give `@seq == [1 .. 6]` and `@rnd == {:one => 1, :two => 2}` |
| Scenarios.Inserting | test/04stack.rb:27-34 | the two `insert!` calls give `@seq == [4, 5, 6, 1, 2, 3]` and `@rnd == {:one => 1, :two => 2}` |
| Scenarios.StaleNegativeKeyShadows | lib/sarah.rb:161-164 | `s[-1] = x` on an empty Sarah goes to `@rnd`; after `s[0] = y` and `s[-1] = z`, `@seq` is `[z]` but `s[-1]` still reads `x` |
| Scenarios.SliceTakesStaleNegativeKey | lib/sarah.rb:360-364 | after `s[-1] = x; s[0] = a; s[1] = b`, `@seq` is `[a, b]` and `@rnd` is `{-1 => x}`, and `slice(0, 2)` gives `@seq == [a, x]` with an empty `@rnd`: merging `@rnd` writes `-1` into the section |
| Scenarios.PushLeavesNextKey | lib/sarah.rb:273-277 | after a push, `@rnd` still holds the key just past the new end of `@seq`; the next `[]=` absorbs it |
| Scenarios.UnshiftKeepsRandomKeys | lib/sarah.rb:263-267 | unshift moves every element of `@seq` up but keeps the keys of `@rnd` |
| Scenarios.RemovalsPassNil | lib/sarah.rb:114-133 | `shift` and `pop` (lines 114-133) and `delete_key` (line 302) pass nil to the default proc, while `[]` (line 85) passes the key |
| Scenarios.DeleteKeyDemotes | lib/sarah.rb:286-300 | deleting index 1 of `[0, 1, 2]` returns 1, leaves `@seq == [0]`, and appends `2 => 2` to `@rnd` |

## Left out

- The receiver passed to `default_proc`, and any side effects of the proc. The proc is a pure function of the key, or of `nil`.
- A block given to `new` and the `:default_proc` option are one constructor parameter. The block already takes precedence in the source (lib/sarah.rb:45), so only the resulting proc matters.
- `default` and `default_proc` writers: they are the public fields `default` and `defaultProc`.
- Ruby's exception classes. `fetch`'s KeyError is a `Failure` result. The ArgumentError that an odd-length `set_pairs` list raises is not modelled: `SetPairs` takes a list of pairs.
- `merge!` with another Sarah as the source. Its `each_pair` yields two values to a one-parameter block, so `[]=` receives only a key; this arity failure is a property of the language, not of the container.
- `respond_to?` dispatch. `merge!` takes an explicit sum type of sources (array or hash). `append!` and `insert!` take the same with one more case, the two stores of a Sarah, which their first branch handles. The source silently skips any other object; the model has no such argument.
- `set`'s test for a trailing hash. `Set` takes the leading values and an optional hash.
- Aliasing: `seq`, `rnd` and `seq_values` return the internal objects, which a caller could mutate. The model exposes the stores only as values.
- Ruby's `Array#slice` with negative starts or lengths, with ranges, and with a single index. Slices take a non-negative `(start, len)`. `[]` with a length or a range is `slice`, so it is not modelled separately.
- Block-yielding iteration. `each`/`each_pair` are the sequence of pairs they yield, and `each_index` the sequence of keys (`Store.Keys`).
- The `self` that mutators return for chaining.
- `rnd_keys`, `rnd_values`, `seq_keys`: the `Assoc.Keys`/`Assoc.Values` of `@rnd` and `Store.SeqKeys` of `seq.size`, used by `keys` and `values`.
- Properties.SliceSpec: states only that the new `@seq` begins with the section, not its exact contents. An integer key of `@rnd` right after the section (for example key `seq.size` after a `push`) is absorbed into the new `@seq` behind it. A negative key of `@rnd` is excluded because merging `@rnd` normalises it against the section and overwrites one of its elements (`Scenarios.SliceTakesStaleNegativeKey`). When neither kind of key is present, `Properties.SliceExact` gives the exact result.
