# A verified model of the gbon codec

gbon encodes Go values to a byte stream and decodes them so that sharing survives: slices that
overlapped in memory overlap again, maps come out in one canonical order, and type descriptors,
strings and maps are written once and referred to by id afterwards. This project models the parts
of the codec where fast, stateful code must agree with a simple rule, and proves that it does.

To verify: `dafny verify dfyconfig.toml`.

## What is modelled

**Slice-backing groups** (one slice class, addresses in element units).

- `Grouping.dfy` is the rule: components in creation order, and `Scan`, the linear first-fit that
  joins a window to the oldest component that may take it and merges the others it bridges.
- `GroupingRuns.dfy` proves what every scan and emission keeps: spans of live components are
  disjoint, member windows cover their component without a hole, and every slot resolves to a
  component that holds it.
- `Components.dfy` proves that without emission the components are the connected components of
  window overlap, whatever the scan order.
- `HostCache.dfy` treats whole runs, and says exactly when the host cache equals first-fit. `Caching.dfy` carries that
  to whole streams: which streams never depend on the cache, one that does, and what empty windows do.
- `EmitSkip.dfy` is the skiplist over emitted spans with its per-segment aggregates.
- `ClassIndex.dfy` is the encoder's own state: arena with intrusive member chains, live array with
  tombstones, skiplist, host cache. Each operation is a method proved equal to the rule.
- `Emission.dfy` writes a component through its member windows (in-place stable sort and overlap
  collapse) and is proved to produce the bytes of `Records.dfy`.
- `Elements.dfy`, `Records.dfy` and `Streams.dfy` are the elements of every primitive kind, what the decoder stores of
  them, the records, views and decoder, and the end-to-end round trip over streams of values with memory changing
  between them. A value may scan slots that it never writes.
- `Sharing.dfy` says exactly which cells are shared after decoding, within a value and across values, and where
  sharing is lost. `Reuse.dfy` says exactly when an earlier record is used again, in terms of memory.

**Canonical order.**

- `RankOrder.dfy` has both walks over map keys, rank cells and skeleton bytes, for all
  interface-free key types with pointers over an arbitrary, possibly cyclic heap, the proof that they
  order keys alike, and the proof that keys of a statically stable type never tie.
- `Rejects.dfy` says exactly which keys are rejected, and `KeyBytes.dfy` that the rendered bytes are the tokens of the
  values, with zero values elided and nothing else.
- `StableGuard.dfy` is the guard of stable mode: ties and zero float keys, what it sees and what it achieves.
- `StablePlans.dfy` is the static verdict over recursive type graphs, exactly, and the proof that it makes the guard idle.

**Wire layer.**

- `Args.dfy` (module `Bytes`, `Args`, `Integers`) and `Containers.dfy`: arguments, zigzag, big integers,
  record headers and views, each with one accepted spelling.
- `Descs.dfy` and `DescWire.dfy`: descriptor graphs with cycles, structural equality, NAMED chains, and the
  descriptor round trip with writer and reader ids in lockstep.
- `InternTable.dfy`: the open-addressed string table.
- `StreamReader.dfy`: the sliding-window reader over a source that delivers in pieces.
- `SkipPath.dfy`: skipping a value position against decoding it; `Accepts.dfy`: both accept whatever is written.
- `Vectors.dfy`: the argument and token tables for all arguments, and vectors of the format.
- `Interns.dfy`: identity interns over weak handles, with objects dying and addresses reused.

Parameters stand for what the model does not compute: memory is a function from addresses to bit
patterns (0 for a bitwise-zero element), the element kind of the decoder's type is an
arbitrary constant (`Elements.KIND`), tower heights are an arbitrary function into 1..20, the string
hash is an arbitrary function, a source offers an arbitrary number of bytes at each offset, whether an insert triggers a
sweep is an arbitrary choice, and so is everything that decoding asks of the Go types it decodes into.

## Where code and comments differ

- doc.go:27-33 says that windows which observe shared memory decode as windows over one backing, also across the
  values of a stream. It holds for a stream's first value (`Sharing.FirstValue`). Later it fails: `Sharing.SharingLost`
  is a family of two-value streams, the second of which holds the window of the first again and a wider one over it.
  The narrow window joins the first record, the wide one founds its own, and the memory they share comes back as two
  cells. `Sharing.SharingExact`, `Sharing.SharedIffOneHome` and `Sharing.SharedIffOneHost` say exactly when cells of one
  value are shared: when one earlier record hosts both windows, or none hosts either. `Sharing.SharedAcross` and
  `Sharing.SharedAcrossHost` say when cells of two values are: when the record of the earlier window hosts the later.
- doc.go:3-5 and README.md:134-135 promise floats to the bit, NaN payloads included, and complex64. The wire keeps them
  (`Elements.TokenReadsBack`). The decoder stores complex64 elements through `SetComplex`, and elements of a defined
  float32 type through `SetFloat` (codec_decode.go:870, 887, 1629): each 32-bit float is widened and narrowed back, which
  makes a signalling NaN quiet (section 6.2 of IEEE 754). `Elements.SignallingLost` is the input, 0x7f800001 read back
  as 0x7fc00001; `Elements.StoredExact` says that exactly the elements with such a NaN are changed, and the round trips
  of records and streams are stated with what is stored. Re-encoding fails with it: `Records.RecordCanonical`.
- The comment at codec_encode.go:2110-2116 calls a host-cache hit stable because a cached host is the oldest
  containing component. It is not in every run: `HostCache.CacheOverridesFirstFit` gives a family of runs in which
  an older component is frozen after a younger one was cached, and the cache then overrides first-fit, and
  `Caching.CacheShows` the streams that reach it. What it takes is a component that stays live past its value: a slot
  that is scanned and not written (an unexported or blank slice field, codec_encode.go:584-597, or the entries of a map
  that is written as a REF), or the slots a coder callback adds through `encodeSub` (codec_encode.go:1247-1272).
  `HostCache.HostIsFirstFitIff` and `HostCache.FreezeKeepsExactIff` say exactly when the two agree, and
  `Caching.WholeNeedsNoCache` that streams which write all they scan never depend on the cache.
- The comment at codec_encode.go:2074-2076 says that all non-nil empty slices collapse into one component. The
  join test at codec_encode.go:2154-2187 needs `origin < send`, so an empty window joins a live component only strictly
  inside its span. `EmptyWindows.EmptyTwice` gives the exact condition under which two scans of an empty window meet in
  one component, and `EmptyWindows.EmptyOrphan` the input on which they do not: the first component stays live with no
  slot resolving to it. The model follows the code.
- gbon.go:17-24 says that stable mode rejects a zero float key of either sign. A positive zero in the elided tail of an
  array key is not seen: `StableGuards.ElidedZeroUnseen` is the input, `StableGuards.FlagExact` the exact condition for
  every key. Behind pointers a second kind of zero is not seen, one at an address that was entered before under another
  type (`StableGuards.AliasedZeroUnseen`); without such addresses everything within reach is (`StableGuards.FlagReaches`).
  What the rule is for still holds: `StableGuards.GuardedKeysExact`, keys that pass have one stored form.
- The comment in `classify` (codec_encode.go:691-693) calls coder leaves guard leaves; the builder returns before
  classifying them (codec_encode.go:525-543), so their verdict is not stable. The model follows the code.

## Model

| member | source | states |
|---|---|---|
| `EmitSkips.EmitSkip.Insert` | codec_encode.go:824-899 | indexing a frozen span adds exactly it, after all spans of the same or a smaller origin, and keeps every level a sorted sublist with exact segment maxima |
| `EmitSkips.EmitSkip.EmitQuery` | codec_encode.go:901-988 | a query appends the components whose span contains the window, in origin order, and nothing else |
| `IndexRuns.IndexedExact` | codec_encode.go:785-988 | for every insertion sequence and all tower heights, a query reports each containing component exactly once and nothing else |
| `IndexRuns.HeightsUnobservable` | codec_encode.go:800-822 | tower heights do not show in any answer, not even in its order |
| `Towers.ContainingOnce` | codec_encode.go:918-988 | a component indexed once is reported at most once |
| `GroupingRuns.MergeAllFacts` | codec_encode.go:2200-2208 | a bridge merge unites spans and members of exactly the live candidates, re-points exactly their slots, and leaves everything else alone |
| `GroupingRuns.JoinInv` | codec_encode.go:2086-2253 | whatever host was chosen, joining by first-fit keeps live spans disjoint, components covered without a hole, and slots resolved to a component holding them |
| `GroupingRuns.ScanInv` | codec_encode.go:2086-2253 | the same for a whole scan, for all contents of memory |
| `GroupingRuns.FreezeInv` | codec_encode.go:2303-2316 | emission of a live component keeps the invariant |
| `HostCache.RunInv` | codec_encode.go:2086-2316 | every state of every run of scans, emissions and value changes satisfies the invariant |
| `Components.ScanAllScanned` | codec_encode.go:2086-2303 | non-empty windows scanned from nothing, in any order: members of a component are connected, all windows resolve |
| `Components.ResolveIffConnected` | codec_encode.go:2086-2303 | two windows share a component if and only if a chain of overlapping windows joins them |
| `Components.SpanIsHull` | codec_encode.go:2220-2225 | the span of a window's component is the hull of the windows connected to it |
| `Components.OrderIndependent` | codec_encode.go:2086-2303 | partition and spans depend on the set of windows, not on the scan order |
| `HostCache.ScanFrozen` | codec_encode.go:2058-2072 | a scan changes no emitted component, emits none and revives none |
| `HostCache.HostIsFirstFitIff` | codec_encode.go:2110-2153 | cache and full search agree for all contents of memory if and only if the cached host is the oldest containing component |
| `HostCache.ScanIsLinear` | codec_encode.go:2110-2153 | with the oldest host cached, the cached scan has the outcome of linear first-fit |
| `HostCache.ScanKeepsExact` | codec_encode.go:2120-2150 | no scan makes an exact cache inexact |
| `HostCache.FreezeKeepsExactIff` | codec_encode.go:990-1000 | an emission keeps the cache exact if and only if every cached window it covers has an older host |
| `HostCache.SettledRunExact` | codec_encode.go:2110-2153 | where no slot is scanned while a live component is older than an emitted one, the cache is exact throughout |
| `HostCache.SettledRunIsLinear` | codec_encode.go:2110-2153 | in such runs every scan equals linear first-fit without any cache |
| `HostCache.CacheOverridesFirstFit` | codec_encode.go:2110-2153 | runs in which a cached host overrides the older component that first-fit picks |
| `LiveArray.CreateLive` | codec_encode.go:2241-2252 | inserting the new entry at the split point keeps the live array sorted by creation key, complete and duplicate-free, tombstones counted |
| `LiveSearch.LeftOf` | codec_encode.go:2162-2172 | the backward scan may stop at the first live entry ending at or before the window: nothing further left can meet it |
| `LiveSearch.RightOf` | codec_encode.go:2173-2185 | the forward scan may stop at the first live entry beginning at or after the window's end |
| `LiveSearch.PastLast` | codec_encode.go:2155-2159 | past the last live envelope nothing can meet the window: the tail shortcut is exact |
| `ClassIndexes.CandidatesAre` | codec_encode.go:2151-2202 | the indexed search, sorted by creation sequence, finds exactly the candidates of the linear search |
| `ClassIndexes.ClassIndex.EnvNoteDead` | codec_encode.go:1048-1065 | tombstoning keeps the array an exact index of the live components, with or without compaction |
| `ClassIndexes.ClassIndex.Compact` | codec_encode.go:1067-1077 | compaction drops exactly the tombstones and keeps the order |
| `ClassIndexes.ClassIndex.EnvLower` | codec_encode.go:1026-1046 | binary search finds the first entry whose creation key is at least the given one |
| `ClassIndexes.ClassIndex.IsRepresentable` | codec_encode.go:2040-2058 | the guard answers whether the frozen record can serve the window in this memory |
| `ClassIndexes.ClassIndex.EmittedHost` | codec_encode.go:2110-2153 | host resolution through cache, skiplist and creation order equals the specified host, and the cache becomes the specified cache |
| `ClassIndexes.ClassIndex.LiveCandidates` | codec_encode.go:2151-2187 | finds exactly the live components that meet the window, each once, and the place where a new one belongs |
| `ClassIndexes.ClassIndex.MergeInto` | codec_encode.go:2286-2303 | the intrusive chains, spans, tombstone and slot table after a merge are those of the specified merge |
| `ClassIndexes.ClassIndex.ScanAddSlot` | codec_encode.go:2086-2253 | one scan on the encoder's structures equals one linear first-fit scan of the abstract state, and all index invariants hold after it |
| `ClassIndexes.ClassIndex.MarkEmitted` | codec_encode.go:2303-2316 | freezing on the encoder's structures equals freezing in the abstract state |
| `MemberWindows.SortWindows` | codec_encode.go:2495-2503 | the in-place insertion sort orders windows by offset and, at equal offsets, by member order, and permutes them |
| `MemberWindows.CollapseWindows` | codec_encode.go:2504-2518 | the in-place collapse keeps a window exactly where it reaches further than all before it |
| `MemberWindows.CollapsedTiles` | codec_encode.go:2504-2518 | when the windows cover the prefix, the kept ones tile it from left to right with no hole |
| `Emission.SliceWriter.Covering` | codec_encode.go:2344-2353 | every index of a component has a covering member, and the walk finds one |
| `Emission.SliceWriter.DenseE` | codec_encode.go:2360-2381 | the dense prefix, read through covering members only |
| `Emission.SliceWriter.CompWindows` | codec_encode.go:2477-2518 | the member windows, clamped, tile the dense prefix |
| `Emission.SliceWriter.WriteGroupElems` | codec_encode.go:2430-2465 | elements of any primitive kind are written in index order, each read inside a member window |
| `Elements.TokenReadsBack` | codec_encode.go:1786-1820 | on the wire every element of every primitive kind, integers of every size among them, reads back bit for bit |
| `Elements.StoredExact` | codec_decode.go:1583-1640 | the decoder stores an element as it was written if and only if no signalling NaN in it goes through a wider float, and stores a zero only for a zero |
| `Elements.SignallingIff` | codec_decode.go:880-890 | a signalling NaN lies between infinity and the least quiet NaN, whatever its sign |
| `Elements.SignallingLost` | codec_decode.go:880-890 | a float32 NaN that comes back with another payload, alone in a defined type or as half of a complex64 |
| `Elements.TokenIsWritten` | internal/wire/value.go:28-128 | an accepted element is a pattern of its kind that fits the size of the Go type, spelled as the writer spells it |
| `Emission.SliceWriter.WriteGroupRecord` | codec_encode.go:2384-2425 | the record bytes are those of the live span, and the component is frozen under the next id |
| `Emission.SliceWriter.WriteView` | codec_encode.go:2558-2571 | the view has the window's exact geometry in its smallest form |
| `Emission.SliceWriter.EncodeSlice` | codec_encode.go:2637-2650 | a slice position writes its record on first encounter and always its view, as the value-level encoder does |
| `Emission.SliceWriter.EncodeSlices` | codec_encode.go:2086-2571 | scanning a value and emitting the positions it writes, which may be fewer, yields exactly the specified bytes and state |
| `Records.RecordRoundTrip` | codec_encode.go:2384-2425 | a record reads back as what the decoder stores of the whole contents it was written from, and as these contents themselves if and only if no element is lost: elision loses nothing |
| `Records.RecordCanonical` | codec_decode.go:1395-1425 | an accepted record is spelled as the writer spells its contents, dense prefix minimal; writing the backing it yields gives its bytes again if and only if no element was lost |
| `Records.DecodeBare` | codec_decode.go:1377-1401 | a bare view over a known record decodes to its window |
| `Records.DecodeFresh` | codec_decode.go:1402-1434 | a record and its view decode to a window over a new backing of the stored elements, registered under the next id |
| `Streams.ScanAllReady` | codec_encode.go:2086-2253 | after a scan pass every slot resolves to a component holding it, and an emitted one can serve it in this memory |
| `Streams.SlotRoundTrip` | codec_encode.go:2637-2650 | one slice position decodes to the window's place over its component's record |
| `Streams.ValueRoundTrip` | codec_encode.go:1984-2026 | one value, scanned, emitted in part or whole, and decoded, comes back faithfully and leaves encoder and decoder in step |
| `Streams.StreamRoundTrip` | codec_decode.go:1365-1434 | for every stream of values, whether or not all that is scanned is written, and any memory between them, every written window comes back with its length, capacity and place over a backing that holds what the decoder stores of memory as it was when its record was written, in the record of the component its window resolved to |
| `Homes.EachAtHome` | codec_encode.go:2086-2253 | after a scan pass each window stands where its last scan put it: in the written record that hosts it unless an older live component met it, otherwise in a live one |
| `Homes.OneGroupIff` | codec_encode.go:2058-2072 | two windows of a pass that share memory end up in one component if and only if one earlier record took both, or none took either |
| `Homes.SettledHomes` | codec_encode.go:2110-2153 | with nothing live older than a written component, that is known from the hosts found before the pass |
| `Sharing.SharingExact` | codec_encode.go:2058-2072 | over whole streams, within a value and across values: two elements are one cell after decoding if and only if they have one address and their windows resolved to one component |
| `Sharing.SharedIffOneHome` | codec_encode.go:2058-2253 | within a value, elements at one address are one cell if and only if their windows have one home |
| `Sharing.SharedIffOneHost` | codec_encode.go:2058-2153 | in terms of the encoder's state before the value: sharing is lost exactly between windows that different earlier records host |
| `Sharing.SharedAcross` | codec_encode.go:2058-2253 | across values, elements at one address are one cell if and only if the home of the later window is the component of the earlier one |
| `Sharing.SharedAcrossHost` | codec_encode.go:2058-2153 | in terms of the encoder's state before the later value: exactly when its window is hosted by the record of the earlier one |
| `Sharing.SharingLost` | codec_encode.go:2040-2072 | streams on which sharing is lost: a window seen before, and a wider one over it |
| `Sharing.SharingLostSent` | codec_encode.go:2040-2072 | these streams are well formed for every pair of such windows |
| `Sharing.NoFalseSharing` | codec_decode.go:1269-1276 | over whole streams no two addresses become one cell |
| `Sharing.LiveIffUnwritten` | codec_encode.go:2026-2058 | a decoded slice shows live contents over its length if and only if memory holds what was stored of its record's dense prefix under it: with nothing lost, if and only if that was not written since emission; with nothing written, if and only if nothing was lost |
| `Sharing.LiveContents` | codec_encode.go:2026-2058 | the same for every written position of every stream |
| `Sharing.FirstValue` | codec_encode.go:2384-2571 | a stream's first value, whatever follows: sharing exactly as in memory, and contents over the whole capacity, to the bit exactly where the decoder loses no NaN |
| `Reuse.HostNoneIff` | codec_encode.go:2040-2058 | no record hosts a window if and only if each that spans it lacks, past its dense prefix, a nonzero element under the window's length |
| `Reuse.HostAgrees` | codec_encode.go:2040-2058 | the host depends on memory under the window's length only, not on the rest of its capacity |
| `Reuse.HostIs` | codec_encode.go:2110-2153 | a host spans the window and lacks nothing; for a window that is not cached it is the oldest such record |
| `Reuse.HostedIsBareView` | codec_encode.go:2637-2650 | a hosted window is written as a bare view over the host's record, with its exact geometry |
| `Reuse.UnchangedIsBareView` | codec_encode.go:2026-2058 | over whole streams: a window spanned by a record whose memory was not written under its length comes out as a bare view |
| `Reuse.ReusedIffHome` | codec_encode.go:2058-2253 | a decoded slice lies in an earlier value's record if and only if its window's home is a written component |
| `Reuse.ReusedIff` | codec_encode.go:2040-2153 | with a settled start, if and only if some record that spans the window lacks nothing of what memory holds under its length |
| `Caching.CalmNeedsNoCache` | codec_encode.go:2110-2153 | where every value begins with nothing live older than a written component, state, births and bytes are those of linear first-fit without a cache |
| `Caching.WholeIsCalm` | codec_encode.go:1984-2026 | streams of non-empty windows that write all they scan leave nothing live between values |
| `Caching.WholeNeedsNoCache` | codec_encode.go:2110-2153 | the bytes of such streams never depend on the cache |
| `Caching.StreamRuns` | codec_encode.go:2086-2316 | every stream is a run of the encoder, and a calm one is a settled run |
| `Caching.CacheShows` | codec_encode.go:2110-2153 | a stream with an unwritten slot after which the cache hosts a window in the younger record and first-fit takes the older; written once more, the bytes differ from those of the cacheless encoder |
| `Caching.CacheShowsSent` | codec_encode.go:2110-2153 | these streams are well formed for all windows of 64-bit addresses |
| `EmptyWindows.EmptyFoundsIff` | codec_encode.go:2154-2187 | an empty window joins a live component only strictly inside it, a written one that contains it, and founds one exactly when neither exists |
| `EmptyWindows.EmptyTwice` | codec_encode.go:2074-2076 | two scans of one empty window resolve to one component if and only if something took it before them |
| `EmptyWindows.EmptyOrphan` | codec_encode.go:2154-2187 | one empty window at two positions leaves a live component, older than the written one, to which no slot resolves |
| `Lexicographic.RankLess` | codec_encode.go:3071-3090 | the cell comparison is lexicographic, a strict prefix below its extension |
| `Lexicographic.LexBigEndian` | codec_encode.go:3092-3104 | big-endian payloads of one width compare as numbers |
| `Chunks.LexPacked` | codec_encode.go:3116-3142 | packed words compare as the raw bytes, at equal length |
| `Chunks.AlignedLex` | codec_encode.go:3071-3090 | token sequences that part at tokens of one shape compare alike as cells and as bytes, and tie only when equal |
| `RankOrder.WalkImages` | codec_encode.go:3220-3337 | the rank walk and the skeleton walk reject the same keys, visit the same addresses, and are two readings of one token sequence |
| `RankOrder.WalkAligned` | codec_encode.go:3555-3653 | keys of one type never have one token sequence a strict prefix of the other, whatever the visited sets, nil and cycle collapses included |
| `RankOrder.RankIsSkeletonOrder` | codec_encode.go:3222-3366 | for any two keys of one interface-free type over any heap, rank cells order them as their skeleton bytes do, ties included |
| `KeyWalkers.RankWalker.Walk` | codec_encode.go:3208-3337 | the walk over one buffer and one visited set emits exactly the specified cells, rejects exactly the specified keys and flags exactly those on which it meets a zero float |
| `KeyWalkers.RankWalker.AppendLeaf` | codec_encode.go:3224-3290 | keys without parts, through the token, packing and big-integer appenders |
| `KeyWalkers.RankWalker.AppendPacked` | codec_encode.go:3116-3142 | eight bytes to a cell, the last padded on the right |
| `KeyRejects.NaNExact` | codec_encode.go:3233-3262 | the NaN test refuses exactly floats whose bits without the sign are past those of infinity, which is itself accepted |
| `KeyRejects.RejectIff` | codec_encode.go:3220-3337 | the walk rejects a key if and only if such a float or an unexported field stands outside elided tails and blank fields, in the key or in what it enters |
| `KeyRejects.RejectReaches` | codec_encode.go:3220-3337 | where no address is taken for two types: in the key or anywhere within reach |
| `KeyRejects.PlainWalked` | codec_encode.go:3220-3337 | keys without floats and unexported fields are never rejected |
| `KeyBytes.SkeletonIsToken` | codec_encode.go:3555-3653 | the rendered bytes of a primitive key are the token its value is written as |
| `KeyBytes.SkeletonIsWritten` | codec_encode.go:3555-3653 | those of a string are its literal, of a big integer its body, and the head of an array is that of its record |
| `KeyBytes.ZeroElided` | codec_encode.go:1713-1782 | the zero value of every type is elided |
| `KeyBytes.OnlyZeroElided` | codec_encode.go:1713-1782 | what is elided is the zero value of its type, bit for bit, big integers aside |
| `StableKeys.StableRanksInjective` | codec_encode.go:308-347 | keys of a type the static walk accepts have injective ranks |
| `StableKeys.StableKeyWalkIff` | codec_encode.go:308-347 | the walk accepts exactly the types all of whose parts are booleans, integers, strings, arrays and structs, none more than 64 levels down |
| `StableKeys.StableNeverTies` | codec_encode.go:2826-2845 | no two pairs of such a map tie: the later tie-break phases are never reached |
| `StableKeys.StableOrder` | codec_encode.go:2826-2845 | the order of such a map's pairs is the same for every order of iteration |
| `StableKeys.CmpLenPrefixIsTokenOrder` | codec_encode.go:3051-3069 | the string shortcut orders keys as their rendered tokens |
| `StableGuards.CollectPairs` | codec_encode.go:2803-2819 | the pairs of a map with their rank cells and zero flags, or a reject exactly when some key is rejected |
| `StableGuards.StableGuard` | codec_encode.go:2858-2892 | the guard reports the first zero float key or the first undecided tie in sorted order, a zero before a tie at one place, and passes exactly when there is neither |
| `StableGuards.StableKeysPass` | codec_encode.go:315-347 | on a map whose key type the static walk accepts the guard passes, whatever the values |
| `StableGuards.ZeroFloatIff` | codec_encode.go:3233-3262 | a zero float key has a float, or half of a complex number, with all bits clear but the sign |
| `StableGuards.FlagExact` | codec_encode.go:3233-3300 | any key is flagged exactly when a zero float stands outside elided tails in it or in what the walk enters through its pointers; a key without pointers, exactly when one stands in it |
| `StableGuards.EnteredFresh` | codec_encode.go:3286-3295 | the walk enters each address once, and the addresses it has seen in the end are those it entered |
| `StableGuards.EnteredIffReachable` | codec_encode.go:3286-3295 | where no address is taken for two types, it enters exactly what pointers outside elided tails reach |
| `StableGuards.FlagReaches` | codec_encode.go:3233-3300 | so there the flag sees every zero float within reach, and on every heap nothing else |
| `StableGuards.AliasedZeroUnseen` | codec_encode.go:3286-3295 | a zero float within reach that is not flagged, and is when the two pointers trade places |
| `StableGuards.ElidedZeroUnseen` | codec_encode.go:3313-3325 | a key with a zero float that is not flagged |
| `StableGuards.GuardedKeysExact` | codec_encode.go:2876-2886 | keys that pass the zero float guard and are equal as Go values have the same bits in every component |
| `StablePlans.BuildClosed` | codec_encode.go:525-597 | plans built depth first, recursive types included: a stable plan is sound and has only stable children |
| `StablePlans.StablePlanSound` | codec_encode.go:637-699 | a stable plan reaches no interface or coder leaf and only maps whose key type the static walk accepts |
| `StablePlans.StablePlanIff` | codec_encode.go:525-597 | a plan is stable if and only if every type that elements, fields, pointees and map values lead to is sound by itself and none leads back to itself |
| `StablePlans.StablePlanNeedsNoGuard` | codec_encode.go:2846-2892 | in any value of a type with a stable plan, recursive types included: the pairs of every map reached come in one order for every order of iteration, and neither stable-guard error can fire |
| `Args.ArgRoundTrip` | internal/wire/arg.go:91-97 | every 64-bit argument reads back as written, wherever it stands |
| `Args.ArgCanonical` | internal/wire/arg.go:108-158 | accepted argument bytes are those the writer produces |
| `Args.TokenRoundTrip` | internal/wire/arg.go:99-106 | every token head with its argument reads back as written |
| `Args.TokenCanonical` | internal/wire/arg.go:202-221 | accepted token bytes are those the writer produces |
| `Integers.ZigzagExact` | internal/wire/arg.go:24-28 | the wrapping machine image is the mathematical zigzag image |
| `Integers.ZigzagBijection` | internal/wire/arg.go:24-34 | zigzag is a bijection of int64 and uint64 |
| `Integers.ZigzagBigBijection` | internal/wire/value.go:130-152 | the unbounded zigzag is a bijection of the integers and the naturals |
| `Integers.BigintRoundTrip` | internal/wire/value.go:154-196 | every integer of any size reads back as written; zero and nil share one encoding |
| `Integers.BigintCanonical` | internal/wire/value.go:174-196 | accepted big-integer bytes are those the writer produces |
| `Integers.BigintOverBudget` | internal/wire/value.go:174-196 | a magnitude longer than the budget is refused |
| `Containers.ValidateExact` | internal/wire/container.go:176-196 | both bounds checks are exact despite wrapping arithmetic |
| `Containers.ViewRoundTrip` | internal/wire/container.go:95-174 | every geometry that fits its record reads back as written |
| `Containers.ViewCanonical` | internal/wire/container.go:120-196 | a view has one accepted spelling, the smallest form |
| `Containers.HeaderRoundTrip` | internal/wire/container.go:54-86 | record heads read back as written |
| `Containers.HeaderCanonical` | internal/wire/container.go:64-86 | accepted record heads are spelled as the writer spells them |
| `Descriptors.DescEqualIffBisimilar` | internal/wire/desc.go:144-184 | structural equality terminates on every graph, cyclic or not, and holds exactly of bisimilar descriptors |
| `Observations.DescEqualIffLookAlike` | internal/wire/desc.go:144-184 | and exactly of descriptors that no walk along type positions tells apart by kind, name, width, length, tag, or the names and numbers of positions |
| `NamedChains.HasCycle` | codec_decode.go:452-463 | the two-speed walk terminates and reports a cycle exactly when the chain has one |
| `NamedChains.DerefNamed` | codec_decode.go:444-471 | false exactly on a cyclic chain; otherwise the first descriptor that is not NAMED, with the exact wrapper count |
| `DescWire.StringRoundTrip` | internal/wire/value.go:299-304 | a string position, literal or REF, reads back as written and keeps ids in step, one record for each string |
| `DescWire.DescRoundTrip` | internal/wire/desc.go:64-136 | writing and reading a type-ref position inside any open literals keeps writer and reader in step |
| `DescWire.DescGraphRoundTrip` | internal/wire/desc.go:204-340 | any well-formed descriptor graph, cyclic or not, reads back as a bisimilar graph, the writer's next id equal to the reader's record count |
| `DescWire.CoherentIsWritten` | internal/wire/desc.go:64-75 | the writer refuses only a name bound to two different structures |
| `DescWire.StringWrittenAgain` | internal/wire/value.go:299-304 | whatever is written in between, a string written again is a REF to the id it took first, and takes none |
| `DescWire.TypeWrittenAgain` | internal/wire/desc.go:64-75 | the same for any descriptor equal to one written before |
| `InternTables.InternTable.Probe` | internal/wire/wire.go:169-206 | every probe ends, at the slot of the string or at the empty slot that proves it absent |
| `InternTables.InternTable.Get` | internal/wire/wire.go:168-183 | the table answers as the map it stands for |
| `InternTables.InternTable.Set` | internal/wire/wire.go:185-206 | the newest binding wins, growing or not |
| `InternTables.InternTable.Rehash` | internal/wire/wire.go:221-234 | rehashing keeps every binding |
| `InternTables.InternTable.Clear` | internal/wire/wire.go:236-240 | clearing drops every binding and keeps the slots |
| `InternTables.AbsentAt` | internal/wire/wire.go:168-183 | an empty slot at the end of a probe means the string is in no slot at all |
| `StreamReaders.StreamReader.Fill` | internal/wire/wire.go:392-417 | the window stays stream[base..base+len), the position does not move, and the wanted bytes are there or the source has ended |
| `StreamReaders.StreamReader.Compact` | internal/wire/wire.go:419-438 | compaction moves neither the position nor the armed token |
| `StreamReaders.StreamReader.ByteAt` | internal/wire/wire.go:566-583 | a byte read from the window is the flat string's byte |
| `StreamReaders.StreamReader.ReadN` | internal/wire/wire.go:585-608 | a block read is the flat string's block, or a truncation fault exactly when the string is too short |
| `StreamReaders.StreamReader.ReadDirect` | internal/wire/wire.go:610-648 | a large read takes exactly its bytes from the source, in a buffer of at most twice what was delivered plus 64 KiB |
| `StreamReaders.StreamReader.ReadTokenArg` | internal/wire/arg.go:214-221 | a token read through the window equals the parse of the flat string, faults included |
| `StreamReaders.StreamReader.PeekRef` | internal/wire/codec_helpers.go:250-277 | the lookahead answers as a parse of the flat string, consumes nothing, and is the same armed, moved or fresh; only a cursor left inside an armed token gets the armed id, exactly where a REF head stands under it |
| `StreamReaders.StreamReader.Discard` | internal/wire/wire.go:449-455 | releasing the consumed prefix moves neither the position nor the armed token |
| `SkipPath.SkipSame` | codec_decode.go:2392-2403 | key bytes that agree are skipped alike, wherever they stand |
| `SkipPath.DecodeSame` | codec_decode.go:1915-1955 | the same key bytes read later in the stream decode to the same key, REFs to strings included |
| `SkipPath.RepeatedKey` | codec_decode.go:2384-2403 | where the skip path sees a duplicate by its bytes, decoding sees one by its canonical bytes |
| `SkipPath.DecodeSkips` | codec_decode.go:2198-2428 | wherever decoding succeeds, for all Go types, skipping succeeds, consumes the same bytes and registers the same record kinds, lengths and strings |
| `Acceptance.ScalarAccepts` | codec_decode.go:2225-2290 | where the token of any pattern of a scalar kind and width stands, its body is read exactly to its end |
| `Acceptance.BigAccepts` | internal/wire/value.go:154-196 | the same for big integers of every size |
| `Acceptance.DecodeAccepts` | codec_decode.go:825-930 | decoding accepts the bytes of every well-typed value, with strings, structs, arrays, slices, blobs, maps of distinct keys and windows over known records, to their exact end, and has the writer's records and strings then |
| `Acceptance.SkipAccepts` | codec_decode.go:2198-2428 | so does skipping |
| `Acceptance.CanonExact` | codec_decode.go:2384-2403 | there is a form in which keys differ whenever they decode to different values, so distinct keys are enough |
| `Acceptance.QuadSkipped` | codec_decode.go:2248-2254 | a 16-byte float is skipped whatever its bits |
| `Interns.MapTable.EncodeMap` | codec_encode.go:2757-2761 | one map position is one visit of the run the table has been through; its REF names the object that stands there, its literal takes an id given to nobody, and it is a REF if and only if the object has an id |
| `Interns.MapTable.SweepDead` | codec_encode.go:174-188 | a sweep evicts exactly the dead entries |
| `Interns.RunInv` | codec_encode.go:87-118 | in every run with objects dying and addresses reused, entries verified in an epoch still have their object |
| `Interns.RefNamesItsObject` | codec_encode.go:100-112 | no REF ever carries an id given to another object, no literal reuses an id |
| `Interns.RefIffOwned` | codec_encode.go:100-118 | in every run an object that was given an id and is alive is a REF to that id, and only an object without one is a literal |
| `Interns.VisitedAgain` | codec_encode.go:2757-2761 | two visits of one object, however far apart, carry one id, the second as a REF, across epochs, deaths and sweeps |
| `Interns.SweepInvisible` | codec_encode.go:120-188 | any sweep schedule yields the ids and tokens of never sweeping |
| `Vectors.ArgTable` | internal/wire/arg.go:44-97 | the bytes of every argument |
| `Vectors.TokenTable` | internal/wire/arg.go:99-106 | a token is its argument with the class in the high nibble |
| `Vectors.IntVectors` | internal/wire/golden_test.go:108-131 | integer tokens |
| `Vectors.OtherVectors` | internal/wire/golden_test.go:133-148 | booleans, unsigned and big integers |
| `Vectors.FloatVectors` | internal/wire/golden_test.go:163-200 | float and complex tokens |
| `Vectors.HeaderVectors` | internal/wire/golden_test.go:236-298 | record heads |
| `Vectors.ViewVectors` | internal/wire/golden_test.go:298-390 | views of the three forms |
| `ValueVectors.PointVector` | internal/wire/golden_test.go:472-500 | a struct of two fields of one type, the second a REF |
| `ValueVectors.KindVectors` | internal/wire/desc.go:12-28 | first bytes of descriptors of every kind modelled |
| `ValueVectors.BasicDescs` | internal/wire/desc.go:268-354 | the basic descriptors that can be written, with their widths |
| `ValueVectors.CompositeDescs` | internal/wire/desc.go:268-354 | and the composite ones |
| `ValueVectors.FlatVectors` | internal/wire/golden_test.go:150-161 | nils, structs and REFs |
| `ValueVectors.LineVectors` | codec_golden_test.go:57-58 | a string and the same string again |
| `ValueVectors.BackingVector` | codec_golden_test.go:53-53 | an elided slice |
| `ValueVectors.HeadVectors` | codec_golden_test.go:60-64 | maps and blobs of zeros |

## Left out

- Canonical grains, interior paths, coders, adapters, registries, error rendering, files and networks.
- Slice classes other than one: a component of one element size never meets one of another, and the model has one class.
- Elements that are not of a primitive kind, and with them records written while another is open; BLOB records, whose elements are raw bytes.
- Emission.SliceWriter.WriteGroupRecord: elements of primitive kinds only; elements that are themselves encoded recursively are not modelled.
- Emission.SliceWriter.EncodeSlice: nil slices and slices of zero-size elements, which have no slot, are not modelled.
- The same float conversion at positions other than slice elements: struct fields, map values and roots.
- Records.DecodeBare: the check that the backing's Go type is assignable, and the skipped references of evolved types, are not modelled.
- Emission.SliceWriter.EncodeSlices: a value is one scan pass and one emission pass; the further passes of coder callbacks are not modelled.
- KeyWalkers.RankWalker.Walk: the intern bookkeeping that only keys with interface positions need is not modelled.
- Zero-size elements and nil slices, which never enter the grouping.
- Budgets (depth, nodes, bytes, lengths) except the length bound of big integers.
- Concurrent mutation: memory is constant while one value is scanned and emitted, and arbitrary between values.
- Interface positions inside map keys, whose rank needs the descriptor intern simulation.
- The value-bytes and pointer-sequence phases of the pair order, which only order pairs that tie on rank; the guard takes their verdict as a parameter.
- Matching of descriptors against Go types; in the skip path, positions of pointers, interfaces and coders, and NAMED chains that close on themselves.
- SkipPath.DecodeSkips: budgets are off; with a depth budget the skip path charges a frame for each NAMED wrapper of an element, decoding only a node.
- The pointer table beside the map table of identity interns; both use the same entries.
- A source that fails, and a source that reports its end together with its last bytes.
- InternTables.InternTable.Set: ids are unbounded, so the wrap of id plus one at 2^64 - 1 is not modelled.
- Interns.MapTable.EncodeMap: the choice of when an insert sweeps is a parameter, because the code samples a map in arbitrary order.
- StablePlans.StablePlanIff: that the plan of an accepted key type consists of value types only, none of which contains itself, is a hypothesis on the type graph, as it holds of Go types.
- Acceptance.DecodeAccepts: the Go type has every field; a field it lacks is skipped, which `Acceptance.SkipAccepts` covers by itself.
