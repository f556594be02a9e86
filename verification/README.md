# A model of astral-go in Dafny

astral-go moves typed objects between peers. A type may be known only at run time: a
*Blueprint* names its fields, and a registry of Blueprints and compile-time prototypes tells
every reader and writer what to do. This project models that core in Dafny 4.11 and proves
what it promises, together with the text codecs and the small concurrent protocols around
it. `dafny verify dfyconfig.toml` checks everything.

## How it is laid out

| files | what they model |
|---|---|
| `Bytes`, `Bits`, `Schema` | byte and bit strings; specs, Blueprints, values, the registry chain |
| `Ledger` | the depth, frame and byte counters, and the readers and writers that share them |
| `Construct` | zero-value construction under the depth cap and the node budget |
| `StructCodec` | the codecs of compile-time structs, built from self-delimiting fields |
| `Codec`, `CodecImpl` | one pass of the encoder and the decoder, as functions and as the methods that do it |
| `CodecPlan`, `CodecRoundTrip`, `CodecTheorems`, `CodecCanon`, `CodecEnum`, `CodecBounds`, `CodecWire`, `CodecTells` | what the codec promises: limits, round trips, the bytes themselves, and that they tell values apart |
| `Fresh` | what `New` puts into an object, and that it can be written and read |
| `Order`, `Registry`, `RegistryImpl`, `Sync` | dependency order, registration, the list that a peer replays |
| `Bundle`, `BundleImpl`, `ObjectIdentity` | bundles: an ordered, indexed list of objects and its framing; what an Object ID stands for |
| `Bip39`, `ObjectIdText`, `SearchQuery` | the text codecs |
| `IncomingQuery`, `AsyncWriter`, `ContextReader`, `Registrar` | concurrent protocols, as state machines over their atomic steps |

Choices that matter when reading it:

- A Go string is a sequence of characters below 256, one per byte. `SearchQuery` alone works
  on Unicode characters, because its source ranges over runes.
- A compile-time type is a leaf codec. The primitives are concrete: fixed-width big-endian
  integers, length-prefixed strings and bytes, booleans. Any other struct is an `Opaque`
  codec: which values it can write, their bytes, what it reads, and the frames that a value
  opens when written and when read. `RoundTrips` is what the theorems ask of one, for the
  values it can write; `StructCodec` proves it of every struct of self-delimiting fields, and
  of `map_spec`, `array_spec` and `identity` by name.
- A map value keeps its entries in the order of one enumeration of the Go map. That the order
  does not matter, for maps at any depth, is a theorem: `Alike` relates values that differ in
  nothing else, and alike values have the same bytes, ledger, verdict and Object ID.
- `PrimitivesCompiled` says that the allowlisted primitive names resolve to compile-time
  prototypes, as in the default registry. Construction of a primitive restarts with a fresh
  budget, so without it construction need not end. `Registries.RunFit` proves that it holds
  for good once the primitives are registered, whatever is registered after them.
- A source may deliver fewer bytes than asked for: `ObjectReader.Read` leaves the amount open.
- Code that changes things step by step is written as classes and loops and tied to the
  functions: `CodecImpl`, `RegistryImpl`, `BundleImpl`, the loops in `Order`, `Sync`,
  `Construct`, `Bip39` and `SearchQuery`, and the critical sections of the protocols.
- A protocol's interleavings are runs of a `Next` function, one action per compare-and-swap,
  critical section, channel operation, timer or callback. A property of a protocol holds in
  every state that some run reaches.

Where code and comments disagree the model follows the code:

- `validateBlueprint` says that a slice, array or map of the type being defined is allowed;
  `validateReferences` then refuses it, because the name is not registered yet
  (astral/blueprint.go:172-175, astral/blueprints.go:513-526). `SelfRefused` states it.
- `AllBlueprints` is documented as ordered for replay. A derived struct that needs a runtime
  struct of its own level is listed before it, one that holds itself is listed though no peer
  can take it (astral/blueprints.go:603-627), and structs that lead into a circle of references
  are appended alphabetically, so that even one outside the circle may come too early
  (astral/blueprints.go:318-329). `RuntimeComesTooLate` and `SelfNeverReplays` are chains
  whose list fails a peer, and `CircleDisorders` covers every circle of structs that peers do
  not know. `AllBlueprints` and `SyncToPeer` say that the list replays exactly when the chain is
  `Orderly`, which can be read off the entries beforehand.
- `New` fills a reference field from the registry that holds the Blueprint, and reading resolves
  the same field from the registry at hand (astral/blueprints.go:90-127,
  astral/runtime_object.go:609-630). When a child registered a name before its parent did, the
  two differ: `ShadowedNew` is such a chain. `NewFields` says what New gives on any chain, and
  `NewRoundTrip` that without shadowed names it is what reading gives.
- `Encode` is documented to apply the bounds of `Decode`. For values with maps it does not:
  a map value is staged in a buffer with a ledger of its own (astral/map_value.go:57-72).
  `MapsBreakAgreement` shows a family that is written and then refused, and `DecodeOfEncode`
  says exactly which values come back.
- `parsePartialID` tests that Size is 0; `ParsePartialExact` shows that the test on the first
  character already ensures it (astral/object_id.go:68-85).
- An incoming query is documented to be resolved once, which holds; but a caller may be told
  that the query timed out while the op gets a live connection, and an accept from a spawned
  goroutine may miss the teardown of a panicking op. `RefusedYetAccepted` and `HelperCanLeak`
  are the runs. `MismatchExact` says when the first happens: exactly if an accept had won the
  compare-and-swap before the caller's own reject tried it. `TeardownExact` says when the
  second does: exactly if the field was empty when `abandon` looked under the lock.

## Model

| member | source | states |
|---|---|---|
| `Schema.ValidateBlueprint` | astral/blueprint.go:124-228 | the loop with its `seen` set accepts exactly the well-formed Blueprints: one kind, allowlisted primitives and keys, bounded distinct case-folded ASCII names, bounded arrays, no direct self-reference by Ref or Ptr |
| `Ledger.SessionSafe` | astral/depth.go:38-77 | over any tree of frames, reads and derived readers, error or not: bytes handed over equal bytes charged and stay within the budget, depth is the number of open frames, never above 64 in a body, and returns to its entry value |
| `Ledger.ActSafe` | astral/depth.go:184-197 | the same for a single read, derived reader or frame |
| `Ledger.SpentRefuses` | astral/depth.go:145-161 | once the bytes are spent, no tree of frames and derived readers gets another byte out of any reader, and a tree with a read anywhere in it ends in an error |
| `Streams.Budget.Enter` | astral/depth.go:38-54 | depth is counted even when refused, frames only when the depth is allowed; the error says exactly which limit test failed |
| `Streams.Budget.Exit` | astral/depth.go:56-60 | unwinds one level and touches nothing else |
| `Streams.Budget.Charge` | astral/depth.go:67-77 | counts the bytes first and reports the limit after |
| `Streams.ObjectReader.Read` | astral/depth.go:145-161 | hands over a prefix of the source clamped to the room left, charges exactly it, and yields nothing once the room is gone |
| `Streams.ObjectReader.Sub` | astral/depth.go:121-123 | a derived reader shares the ledger |
| `Streams.ObjectWriter.SubWriter` | astral/depth.go:129-131 | a derived writer shares the ledger |
| `Streams.ObjectWriter.Write` | astral/depth.go:163-169 | the bytes go out and are charged, limit or not |
| `Construct.NodesExact` | astral/runtime_object.go:254-293 | the counted nodes are exactly the paths of Ref fields within the depth cap |
| `Construct.DeepIffTooDeep` | astral/runtime_object.go:79-85 | construction meets its depth cap exactly when some path of Ref fields is longer than it |
| `Construct.NewAtExact` | astral/runtime_object.go:79-116 | in any registry, cyclic ones included, construction gives up exactly when a node is too deep or there are more nodes than budget, and otherwise spends one unit per node |
| `Construct.NewExact` | astral/blueprints.go:90-127 | New of a runtime struct type is non-nil exactly when its Ref unfolding has no node deeper than 64 and at most 4096 nodes |
| `Construct.NewAliasExact` | astral/runtime_object.go:94-100 | New of an alias is non-nil exactly when its primitive is on the chain of the registry that holds it |
| `Construct.Conservation` | astral/runtime_object.go:106-115 | runtime objects built plus budget left is the budget at the start, across all siblings |
| `Construct.BuildBudget.Take` | astral/build_budget.go:22-31 | takes one unit while there is one |
| `Construct.MakeAt` | astral/blueprints.go:100-127 | resolution along the parent chain and construction, step by step, is `NewAt` |
| `Construct.MakeObjectAt` | astral/runtime_object.go:79-116 | the field loop on the shared budget is `ObjectAt` |
| `Construct.MakeZero` | astral/runtime_object.go:254-293 | the zero of a spec and the budget it leaves; what that zero is, `Fresh.NewFields` says |
| `Construct.Make` | astral/blueprints.go:90-93 | New starts with a full budget; what it returns, `Fresh.NewFields`, `Fresh.NewAlias` and `Fresh.NewProto` say |
| `Fresh.SameBuilt` | astral/runtime_object.go:79-116 | two constructions of one name that both succeed give the same object, at whatever depth and budget |
| `Fresh.BuiltAlone` | astral/runtime_object.go:254-259 | what can be built inside another object can be built on its own, and is what New gives |
| `Fresh.NewFields` | astral/runtime_object.go:254-293 | a new struct field by field: zero primitives, the New of each referenced type, empty slices and maps, arrays of full length with nothing in them, no value where one may be absent, names resolved by the registry that holds the Blueprint |
| `Fresh.NewAlias` | astral/runtime_object.go:94-99 | a new alias holds the zero of its primitive |
| `Fresh.NewProto` | astral/blueprints.go:90-127 | a new prototype is the zero of its codec, all bytes zero |
| `Fresh.OnlyLimits` | astral/runtime_object.go:251-253 | after registrations nothing but a limit makes New of a registered name nil |
| `Fresh.NewGood` | astral/runtime_object.go:79-116 | a new object that is not nil conforms to its type, can be written and is canonical, on a chain without shadowed names |
| `Fresh.NewRoundTrip` | astral/object.go:102-150 | it has an encoding, and comes back as it was exactly when the decoder's limits admit it |
| `Fresh.ShadowedNew` | astral/runtime_object.go:609-630 | with a shadowed name New can give an object that reading never gives |
| `Fresh.RegisteredName` | astral/blueprint.go:124-180 | a registered type's name is printable and fits a tag, an alias has no fields, and no two fields differ in letter case alone |
| `Streams.Budget.Nest` | astral/depth.go:38-60 | the frames that a compile-time struct opens and leaves again are granted, all or none, exactly when its depth and their number stay within the limits |
| `StructCodecs.DelimitedRoundTrips` | astral/struct_value.go:33-75 | a codec whose items are recognised by their own bytes reads back every value it writes, whatever follows, and refuses every proper prefix |
| `StructCodecs.ItemsAreValues` | astral/struct_value.go:82-125 | every item of such a format is a value of its codec, written as those bytes |
| `StructCodecs.StringDelimits` | astral/string_types.go:112-133 | a length-prefixed string is recognised by its own bytes |
| `StructCodecs.FixedDelimits` | astral/identity.go:122-146 | so is a fixed number of bytes, whichever of them the reader accepts |
| `StructCodecs.StructDelimits` | astral/struct_value.go:56-72 | fields one after another are, if each of them is |
| `StructCodecs.SpecKindsValid` | astral/map_spec.go:9-17 | the codecs of map_spec, array_spec and identity round-trip |
| `StructCodecs.SpecRegistryReady` | astral/array_spec.go:31 | a registry that holds all three meets what the codec's theorems ask |
| `CodecPlan.LeafWrites` | astral/string_types.go:21-39 | a leaf is written exactly when its length fits its prefix, or its struct codec can write it, and its bytes and frames fit the ledger |
| `CodecPlan.WriteExact` | astral/runtime_object.go:330-382 | for every slot, value and ledger: writing succeeds exactly when the value's plan exists and fits, and then the output and the ledger are those of the plan |
| `CodecPlan.WriteObjExact` | astral/runtime_object.go:145-168 | the same for structs, aliases, leaves and carriers |
| `CodecPlan.PointerExact` | astral/ptr_value.go:41-79 | the same for a flagged element in its frame |
| `CodecPlan.IfaceExact` | astral/interface_value.go:36-97 | the same for a tagged element in its two frames |
| `CodecPlan.MapExact` | astral/map_value.go:33-98 | the same for a map: staged, sorted, emitted |
| `CodecPlan.TaggedExact` | astral/object.go:102-121 | a tag and its object fail or fit together |
| `CodecRoundTrip.BlobReads` | astral/read_bounded.go:21-46 | a length-prefixed payload reads back and leaves the rest, exactly when its bytes fit |
| `CodecRoundTrip.LeafReads` | astral/fixed_width.go:22-35 | every leaf codec undoes its own writing |
| `CodecRoundTrip.KeyReads` | astral/map_value.go:196-213 | a map key reads back |
| `CodecRoundTrip.FlaggedReads` | astral/runtime_blueprint_codec.go:28-50 | presence flag and object read back, absent forms collapse, for fast path, slow path and Ptr fields alike |
| `CodecRoundTrip.TaggedReads` | astral/runtime_object.go:304-328 | a tag and the object it names read back |
| `CodecRoundTrip.IfaceReads` | astral/interface_value.go:99-147 | an interface element reads back in one frame |
| `CodecRoundTrip.ElemReads` | astral/runtime_slice.go:97-135 | both read paths of an element undo the one write path, each with its own frame count |
| `CodecRoundTrip.RowReads` | astral/slice_value.go:60-114 | the elements of a container, or the fields of a struct, read back in order |
| `CodecRoundTrip.SliceReads` | astral/runtime_slice.go:111-135 | count and elements read back |
| `CodecRoundTrip.MapReads` | astral/runtime_map.go:105-149 | reading the sorted entries rebuilds the map, on either path |
| `CodecRoundTrip.ContainerReads` | astral/runtime_array.go:68-93 | slices, arrays and maps read back with a frame on the fast path and none on the slow one |
| `CodecRoundTrip.ObjReads` | astral/runtime_object.go:170-197 | a conforming object of any schema read into a fresh New comes back in canonical form and leaves exactly what follows |
| `CodecRoundTrip.SlotReads` | astral/runtime_object.go:606-675 | the same for every field and element slot, succeeding exactly when the decoder's own frames and bytes fit |
| `CodecTheorems.EncodeExact` | astral/object.go:102-121 | Encode succeeds exactly when tag and object have a plan that fits |
| `CodecTheorems.DecodeTag` | astral/object.go:124-143 | Decode takes the name from the tag and reads the object on a fresh ledger |
| `CodecTheorems.DecodeOfEncode` | astral/object.go:102-150 | Decode of what Encode wrote, `*Nil` itself included, plus anything after it, succeeds exactly when the decoder's frames fit, gives the canonical value and leaves the rest |
| `CodecTheorems.ObjNeedsNoMore` | astral/runtime_blueprint_codec.go:28-50 | for a map-free value whose structs open no more frames when read than when written, no read path opens more frames, or deeper ones, than the write path |
| `CodecTheorems.MapFreeAgreement` | astral/object.go:102-150 | such a value that Encode accepts is never refused by Decode on a limit |
| `CodecTheorems.SlotAgreement` | astral/depth.go:38-77 | the same at any depth of any two ledgers, and the reader has spent no more than the writer afterwards |
| `CodecTheorems.MapsBreakAgreement` | astral/map_value.go:56-77 | towers of maps up to 1000 storeys all encode, and decode exactly up to 20 storeys |
| `CodecWire.BlobOnWire` | astral/string_types.go:95-110 | a length-prefixed leaf is too large exactly when its length does not fit the prefix; else the prefix is that length and the payload follows |
| `CodecWire.FixedOnWire` | astral/fixed_width.go:22-28 | numbers in their width, booleans as 0 or 1, raw bytes as they are |
| `CodecWire.PlannedObj` | astral/string_types.go:21-39 | a value can be written exactly when every leaf, key and tag in it fits its prefix, no required value is nil, and each map value fits a ledger of its own |
| `CodecWire.EncodeAccepts` | astral/object.go:102-121 | Encode accepts exactly such values, typed, whose plan fits the ledger |
| `CodecWire.FlagExact` | astral/ptr_value.go:97-106 | 0 reads as absent, 1 as an object, every other flag is refused |
| `CodecWire.NilTag` | astral/runtime_object.go:304-313 | the empty tag and "nil" read as no value |
| `CodecWire.UnknownRefused` | astral/runtime_object.go:315-318 | a name that New cannot make is not found, and nothing of the object is read |
| `CodecWire.CountOnWire` | astral/slice_value.go:22-58 | a slice or map starts with its count in four bytes; a slice's elements are written as an array's |
| `CodecWire.KeyAsPrimitive` | astral/map_value.go:185-195 | a map key travels as the primitive of its type would |
| `CodecWire.LastWins` | astral/map_value.go:100-163 | a repeated key has the value of its last entry, and every key one value |
| `CodecTells.LeafTells` | astral/fixed_width.go:22-35 | two payloads of one kind with one encoding are one payload |
| `CodecTells.SlotTells` | astral/runtime_object.go:330-400 | two values of any slot with one encoding, whatever follows, are the same in canonical form |
| `CodecTells.ObjTells` | astral/object.go:102-121 | the same for objects of one type, beyond what a decoder's limits would let it read |
| `CodecCanon.KeyWireInjective` | astral/map_value.go:185-194 | encoded keys are injective |
| `CodecCanon.SortOrders` | astral/map_value.go:79-81 | the pairs come out strictly rising by encoded key |
| `CodecCanon.SortNumeric` | astral/map_value.go:185-194 | unsigned keys come out in numeric order |
| `CodecCanon.OrderedUnique` | astral/map_value.go:79-81 | a strictly ordered list is determined by its elements |
| `CodecEnum.AlikePlan` | astral/map_value.go:33-98 | values that differ only in how the maps at any depth are enumerated have one plan |
| `CodecEnum.AlikeWrites` | astral/map_value.go:56-98 | so WriteTo of any object has one outcome: both fail, or both succeed with the same bytes and ledger |
| `CodecEnum.AlikeSlots` | astral/runtime_object.go:330-382 | the same in any slot of any schema |
| `CodecEnum.AlikeEncodes` | astral/object.go:102-121 | the same for Encode |
| `CodecEnum.PermutedAlike` | astral/map_value.go:56-77 | permuting the entries of a map gives a value alike |
| `CodecEnum.ConformingKeyed` | astral/map_value.go:100-163 | every value that conforms to a schema has maps with distinct valid keys throughout, so all its re-enumerations are alike |
| `CodecCanon.SortKeepsMap` | astral/map_value.go:100-163 | the sorted entries stand for the same finite map |
| `CodecCanon.CanonObjSame` | astral/object.go:180-209 | a value and its canonical form have the same bytes and type |
| `CodecCanon.ReencodeSame` | astral/object.go:102-150 | encoding what was decoded gives the same bytes, ledger and verdict |
| `CodecBounds.ElemAdvances` | astral/ptr_value.go:81-124 | an element consumes at least one byte beyond what its own elements consume |
| `CodecBounds.RowAdvances` | astral/slice_value.go:60-114 | on any input, elements completed never exceed bytes consumed, and the depth is restored |
| `CodecBounds.EntriesAdvance` | astral/map_value.go:100-163 | the same for map entries |
| `CodecBounds.ObjAdvances` | astral/runtime_object.go:170-197 | the same for an object of any schema on any bytes |
| `CodecBounds.DecodeBounded` | astral/object.go:124-150 | Decode of arbitrary bytes ends; it consumes a prefix, charges at most the byte budget, ends at depth 0 and completes no more elements than bytes it consumed |
| `CodecWriter.PutLeaf` | astral/byte_types.go:18-35 | writing a leaf on the stream is `WriteLeaf`, whose bytes `CodecWire.BlobOnWire` and `CodecWire.FixedOnWire` give, and the reported count is the bytes moved |
| `CodecWriter.PutField` | astral/runtime_object.go:330-382 | `writeField` step by step |
| `CodecWriter.PutElem` | astral/ptr_value.go:41-79 | the element codecs in their frames, unwound on every path |
| `CodecWriter.PutIface` | astral/interface_value.go:36-97 | tag, then the object in a second frame |
| `CodecWriter.PutRow` | astral/slice_value.go:22-58 | the element and field loops: first error ends them, counts add up |
| `CodecWriter.PutObject` | astral/runtime_object.go:145-168 | WriteTo of objects and carriers |
| `CodecWriter.PutStaged` | astral/map_value.go:56-77 | the staging loop, each value on a ledger of its own |
| `CodecWriter.PutPairs` | astral/map_value.go:83-95 | the emitting loop |
| `CodecWriter.EncodeTo` | astral/object.go:102-121 | Encode on a writer that carries a ledger |
| `CodecReader.Fill` | astral/depth.go:145-161 | reading in full has one outcome, whatever amounts the source delivers |
| `CodecReader.GrowBuffer.Grow` | astral/read_bounded.go:28-31 | a full buffer grows by at most one chunk and keeps its bytes |
| `CodecReader.GrowBuffer.Receive` | astral/read_bounded.go:33-42 | deliveries fill the reserved part in order; the memory stays within one chunk of the bytes received after every one |
| `CodecReader.FillBounded` | astral/read_bounded.go:21-46 | the outcome is that of one full read, and on every input, error or not, the buffer allocated is at most 64 KiB longer than the bytes consumed; a length within 64 KiB takes one buffer of that length |
| `CodecReader.GetBlob` | astral/byte_types.go:181-197 | prefix and payload; whatever length the prefix claims, the memory taken is within one chunk of the bytes consumed |
| `CodecReader.GetStruct` | astral/struct_value.go:82-125 | the read of a compile-time struct: its bytes within the byte budget, its frames within the others |
| `CodecReader.GetLeaf` | astral/fixed_width.go:30-35 | the leaf readers |
| `CodecReader.GetFlag` | astral/ptr_value.go:81-124 | a flag other than 0 and 1 is refused |
| `CodecReader.GetKey` | astral/map_value.go:196-213 | the key reader |
| `CodecReader.GetObject` | astral/runtime_object.go:170-197 | New and the ReadFrom of what it made |
| `CodecReader.GetTagged` | astral/runtime_object.go:304-328 | `readPolymorphic` |
| `CodecReader.GetFlagged` | astral/runtime_blueprint_codec.go:28-50 | `readRuntimeBlueprintPtr` and the inside of the pointer codec |
| `CodecReader.GetElem` | astral/runtime_blueprint_codec.go:20-50 | the choice of path, and the frame of the fast one |
| `CodecReader.GetField` | astral/runtime_object.go:606-675 | `readField` |
| `CodecReader.GetContainer` | astral/runtime_slice.go:97-109 | element type resolved first, then the fast or the slow path |
| `CodecReader.GetRow` | astral/runtime_slice.go:111-135 | the reading loop over elements and fields |
| `CodecReader.GetEntries` | astral/runtime_map.go:105-149 | entries set as they arrive; a repeated key replaces its value |
| `CodecReader.DecodeBytes` | astral/object.go:124-150 | Decode of bytes, with the count of those consumed |
| `Order.DrainPermutes` | astral/blueprints.go:302-332 | whatever the references, the loop emits every name once |
| `Order.DrainDepsFirst` | astral/blueprints.go:305-317 | without the error every name follows those it references |
| `Order.DrainCycleExact` | astral/blueprints.go:318-329 | the loop gets stuck exactly when the references have a cycle |
| `Order.DrainShape` | astral/blueprints.go:302-332 | the names come out as those that lead into no cycle, then alphabetically those that do |
| `Order.OrderingPlaces` | astral/blueprints.go:318-329 | cycle or not, a referenced name stands before the one that references it exactly when it leads into no cycle or sorts before it |
| `Order.RefsExact` | astral/blueprints.go:286-293 | the counted references are the in-set, non-self ones of the fields |
| `Order.OrderingCorrect` | astral/blueprints.go:271-332 | for distinct names: a permutation, dependencies first unless the error, the error exactly on a cycle |
| `Order.OrderingInputFree` | astral/blueprints.go:296-300 | the result does not depend on the order of the input |
| `Order.BuildGraph` | astral/blueprints.go:281-294 | the in-degrees count, and the adjacency lists reverse, each reference once |
| `Order.Pass` | astral/blueprints.go:306-317 | one sweep with its in-degree updates is one sweep of the specification |
| `Order.OrderByReference` | astral/blueprints.go:271-332 | Kahn's loops compute that order and that error |
| `Registries.ApplyGrows` | astral/blueprints.go:375-412 | a call leaves every name that resolved, from any level, resolving as it did; a new one is a prototype or the Blueprint registered, whose needs resolved before |
| `Registries.GrowsRanked` | astral/blueprints.go:513-526 | a name that resolves for the first time can be ranked above all others, so no cycle closes |
| `Registries.RunKeeps` | astral/blueprints.go:138-158 | after any run of Add and RegisterBlueprint at any level: runtime Blueprints are valid and filed under their names, and from every level the references, as names resolve from there, are closed and fall along one rank |
| `Registries.NoReferenceCycle` | astral/blueprints.go:513-526 | no chain of references, resolved from any level, returns to its start |
| `Registries.RegisterExact` | astral/blueprints.go:375-397 | a Blueprint is accepted exactly when it is valid and new and its fields find every name that reading or constructing them looks up |
| `Registries.RegisteredResolves` | astral/blueprints.go:513-526 | after any run, whatever a registered Blueprint's fields look up is there, at its own level and from every level below |
| `Registries.ResolutionStays` | astral/blueprints.go:503-511 | what a name resolves to never changes, whatever is registered later and wherever |
| `Registries.RunFit` | astral/blueprints.go:375-412 | once the primitives are prototypes, no run of registrations takes one over or leaves an invalid entry, at any level |
| `Registries.FitCloses` | astral/blueprints.go:391-397 | in such a chain every alias finds its primitive where it was registered |
| `Registries.SelfRefused` | astral/blueprints.go:516-526 | a Blueprint that refers to itself is never registered |
| `RegistryImpl.Blueprints.CheckReferences` | astral/blueprints.go:516-526 | true exactly when all referenced names are on the chain: for a valid Blueprint, exactly when whatever reading or constructing its fields looks up is there |
| `RegistryImpl.Blueprints.RegisterBlueprint` | astral/blueprints.go:375-412 | files a valid, new Blueprint whose fields find all they look up, or names the first rule broken and changes nothing; a stored one without an Object ID is reported and stays |
| `RegistryImpl.Blueprints.AddAll` | astral/blueprints.go:138-158 | nothing is inserted if an entry has no name or is a populated Blueprint; insertion stops at the first name that exists and keeps what came before; on success every prototype is filed with its own codec |
| `Sync.ReplayRegisters` | astral/blueprints.go:528-534 | replaying a list in which each entry's needs come first registers every entry the peer lacks |
| `Sync.ReplayMisses` | astral/blueprints.go:375-397 | a tidy list that does not replay leaves a peer with exactly the known names without one of its own |
| `Sync.FillBuckets` | astral/blueprints.go:558-601 | each unseen entry of a level goes to exactly the bucket of its class; one that cannot be described is reported unless it is a primitive |
| `Sync.AppendByName` | astral/blueprints.go:177-188 | appends exactly the named Blueprints after the list, in the order of the names; distinct valid names keep it tidy, and an order that puts needs first keeps it replayable |
| `Sync.ReportedNames` | astral/blueprints.go:580-600 | what is reported is registered and is no primitive |
| `Sync.AllBlueprints` | astral/blueprints.go:534-633 | lists exactly the names with a Blueprint and reports exactly the unseen prototypes that cannot be described; on a chain left by any run: the cycle error exactly when derived structs of one level need each other in a circle, every name listed or known to peers, and the list replays if and only if no listed derived struct unknown to peers needs what is listed too late |
| `Sync.UnservedExactly` | astral/blueprints.go:603-627 | on a chain with all it references, what comes too late for a derived struct, unless known or listed by the parents, is itself, a runtime struct of its own level, or a derived one that leads into a circle and sorts after it |
| `Sync.CircleDisorders` | astral/blueprints.go:318-329 | no order serves derived structs that need each other in a circle and that peers do not know |
| `Sync.RuntimeComesTooLate` | astral/blueprints.go:603-627 | a chain, built by two registrations, whose derived struct needs a runtime struct of its level: its list fails every peer with exactly the known names |
| `Sync.SelfNeverReplays` | astral/blueprints.go:580-600 | a chain whose derived struct holds a slice of itself: its list fails every peer with exactly the known names |
| `Sync.SyncToPeer` | astral/blueprints.go:534-633 | after any run of registrations: an orderly chain's list leaves every peer that has the known names with every name and every listed Blueprint it lacked; for a peer with no more than those, exactly an orderly chain's does |
| `Bundles.CanonId` | astral/object.go:180-209 | an object read back has the same Object ID |
| `Bundles.AlikeId` | astral/object.go:180-209 | however the maps inside an object are enumerated, it has one Object ID |
| `ObjectIdentity.CanonicalLayout` | astral/object.go:188-206 | the ID of a typed object covers the stamp, the length of the type name, the name, and the bytes that writing the object gives |
| `ObjectIdentity.CanonicalTells` | astral/object.go:180-209 | two typed objects have the same canonical bytes exactly when their types and payload bytes are the same |
| `ObjectIdentity.SameObject` | astral/object.go:180-209 | for values of one schema that is exactly when they have one canonical form |
| `ObjectIdentity.IdExact` | astral/object.go:180-209 | under a digest without collisions, IDs are equal exactly for one object |
| `ObjectIdentity.NewExactly` | astral/bundle.go:174-187 | a bundle takes a typed object exactly when it has an ID and no member has its type and bytes |
| `Bundles.IndexedSnoc` | astral/bundle.go:174-187 | appending a new ID keeps the index exact |
| `Bundles.IdsDistinct` | astral/bundle.go:251-266 | no ID repeats |
| `Bundles.BundleWrites` | astral/bundle.go:69-116 | a bundle is written exactly when every member has a plan and everything fits, block bytes charged twice |
| `Bundles.AlikeBundle` | astral/bundle.go:69-116 | however the maps inside its members are enumerated, a bundle is written in one way and its index stays exact |
| `Bundles.MembersRead` | astral/bundle.go:143-166 | the members read back in order, none turning into a duplicate |
| `Bundles.BundleRoundTrip` | astral/bundle.go:69-171 | ReadFrom of WriteTo gives the same ordered typed members, canonical, and leaves the rest, exactly when the decoder's frames fit; a bundle with an untyped member is written and never read back |
| `Bundles.BundleAgreement` | astral/bundle.go:69-171 | a map-free bundle can always be read from the ledger it was written on |
| `BundleImpl.AppendUnique` | astral/bundle.go:174-187 | a member without an ID or with a taken one is refused and nothing changes; among typed objects, under a digest without collisions, that is one whose type and bytes an earlier member has |
| `BundleImpl.Bundle.Append` | astral/bundle.go:29-45 | objects before the first refused one stay, and the index stays exact |
| `BundleImpl.Bundle.Fetch` | astral/bundle.go:48-63 | finds a member by ID exactly when there is one |
| `BundleImpl.Bundle.WriteTo` | astral/bundle.go:69-116 | the staging loop on the shared ledger |
| `BundleImpl.Bundle.ReadFrom` | astral/bundle.go:119-171 | the bundle becomes what was read; on any error list and index are unchanged |
| `BundleImpl.GetMembers` | astral/bundle.go:143-166 | the member loop with its index |
| `Bip39.EntropyRoundTrip` | api/bip137sig/bip39.go:30-65 | every entropy of the five sizes comes back from its mnemonic |
| `Bip39.MnemonicRoundTrip` | api/bip137sig/bip39.go:69-115 | every accepted word list is the mnemonic of the entropy it gives |
| `Bip39.AcceptedExactly` | api/bip137sig/bip39.go:30-115 | a word list is accepted exactly when it is the mnemonic of some entropy, and of one only |
| `Bip39.MnemonicNumber` | api/bip137sig/bip39.go:30-66 | the words are the base-2048 digits of the entropy followed by the first bits of its digest |
| `Bip39.EntropyToMnemonic` | api/bip137sig/bip39.go:30-65 | the checks and loops compute `ToMnemonic` |
| `Bip39.SealBits` | api/bip137sig/bip39.go:36-49 | the bit array is the entropy followed by the checksum |
| `Bip39.PickWords` | api/bip137sig/bip39.go:51-62 | eleven bits at a time select the words |
| `Bip39.FindIndices` | api/bip137sig/bip39.go:75-83 | all indices, or the first unknown word |
| `Bip39.CollectBytes` | api/bip137sig/bip39.go:97-103 | setting bits one by one collects the bytes |
| `Bip39.ChecksumMatches` | api/bip137sig/bip39.go:105-112 | true exactly when all checksum bits agree |
| `Bip39.MnemonicToEntropy` | api/bip137sig/bip39.go:69-115 | the checks and loops compute `FromMnemonic`, with its errors |
| `ObjectIdText.DecodeYield` | astral/object_id.go:87-100 | a decode yields 5 bytes for 8 characters only if all are letters of the alphabet |
| `ObjectIdText.DecodeExact` | astral/object_id.go:92-107 | 64 characters decode to 40 bytes exactly when all are letters |
| `ObjectIdText.ParseString` | astral/object_id.go:227-234 | every ID, the zero one included, comes back from String |
| `ObjectIdText.StringNumber` | astral/object_id.go:87-100 | behind its prefix the text is one number in base 32: Size times 2^256 plus the hash |
| `ObjectIdText.ParseFullExact` | astral/object_id.go:55-63 | a data1 body parses exactly when it has at most 64 letters, and prints without leading zeros |
| `ObjectIdText.SameId` | astral/object_id.go:39-63 | two parsable bodies name one ID exactly when they agree after their leading 'y' |
| `ObjectIdText.ParsePartialString` | astral/object_id.go:238-243 | every hash comes back from PartialString with Size 0 |
| `ObjectIdText.ParsePartialExact` | astral/object_id.go:68-85 | a data0 body parses exactly when it has 52 letters and starts with 'y' or 'b', and it is then the only partial text of its ID |
| `SearchQuery.MarshalText` | api/objects/search_query.go:49-77 | the printing loop |
| `SearchQuery.TokenizeQuery` | api/objects/search_query.go:122-144 | the tokenizer's loop is its state machine |
| `SearchQuery.UnmarshalText` | api/objects/search_query.go:83-114 | the parsing loop; `UnmarshalExact` says what it makes of any text |
| `SearchQuery.TokensOfJoin` | api/objects/search_query.go:122-144 | joined pieces are cut where they were joined |
| `SearchQuery.UnmarshalExact` | api/objects/search_query.go:83-114 | of any text: the words are the tokens without a colon, joined in order; the tags are the other tokens, in order, each cut at its first colon |
| `SearchQuery.UnmarshalPieces` | api/objects/search_query.go:87-112 | pieces typed with spaces between them are read one by one, as typed |
| `SearchQuery.UnmarshalWords` | api/objects/search_query.go:107-112 | plain words all come back, in lower case |
| `SearchQuery.ModifierRead` | api/objects/search_query.go:88-98 | what each of the three modifiers means |
| `SearchQuery.ParsePrint` | api/objects/search_query.go:49-114 | a printable query is what its text parses to: tags in order, modifiers, text |
| `SearchQuery.ParsedClean` | api/objects/search_query.go:83-114 | whatever is parsed is lower-case and quote-free, with colon-free names |
| `SearchQuery.ParsePrintExact` | api/objects/search_query.go:49-114 | printing and parsing are inverse on a query exactly when it is printable |
| `SearchQuery.ModifierIsLost` | api/objects/search_query.go:87-98 | a required tag whose name starts with a modifier does not come back |
| `IncomingQuery.RunKeeps` | lib/routing/incoming_query.go:46-162 | the invariant of every interleaving |
| `IncomingQuery.OneWinner` | lib/routing/incoming_query.go:46-123 | one call wins, and stays the winner |
| `IncomingQuery.SendNeverBlocks` | lib/routing/incoming_query.go:46-123 | the winner's send finds the one-slot channel empty |
| `IncomingQuery.WriterIsTheWinners` | lib/routing/incoming_query.go:149-162 | await returns a writer only if it is the other half of the winning accept's pipe |
| `IncomingQuery.AfterOwnRejection` | lib/routing/incoming_query.go:46-50 | after await's own rejection won, every accept gets an error connection |
| `IncomingQuery.WinnerReachesCaller` | lib/routing/incoming_query.go:96-123 | in every continuation the caller receives what the winner said: the code of a winning reject, 1 for code 0, or the pipe of a winning accept |
| `IncomingQuery.LoserChangesNothing` | lib/routing/incoming_query.go:46-49 | a call after the winner changes nothing, and an accept gets an error connection |
| `IncomingQuery.GivesUpFor` | lib/routing/incoming_query.go:148-160 | a caller that gave up is refused as canceled or timed out, as it had reason to |
| `IncomingQuery.EndedResolves` | lib/routing/op.go:98-135 | once the op's goroutine ends the query is resolved, by an internal error if that goroutine answers for an op that did not, and with both halves closed if the op panicked after accepting on it |
| `IncomingQuery.ResolvedReachesCaller` | lib/routing/incoming_query.go:149-162 | while the caller waits on a resolved query some step toward it is enabled |
| `IncomingQuery.TeardownExact` | lib/routing/incoming_query.go:75-90 | whatever follows, once the op's goroutine has ended both halves are closed exactly if `abandon` found a read half under the lock; at the end a winning accept's pipe is closed exactly if its half had been stored and the field is empty |
| `IncomingQuery.MismatchExact` | lib/routing/incoming_query.go:149-162 | once the caller gave up and all calls returned, someone holds a live connection exactly if an accept had won before the caller's own reject |
| `IncomingQuery.HelperCanLeak` | lib/routing/incoming_query.go:75-90 | a run in which an accept on a spawned goroutine is not torn down |
| `IncomingQuery.RefusedYetAccepted` | lib/routing/incoming_query.go:149-162 | a run in which the caller is refused and the op gets a live connection |
| `AsyncWriter.Writer.Write` | streams/async_writer.go:44-66 | accepted exactly without error, when open and with room; else nothing changes |
| `AsyncWriter.Writer.Close` | streams/async_writer.go:70-79 | marks closed and drops nothing |
| `AsyncWriter.Writer.TakeFirst` | streams/async_writer.go:195-210 | removes the head and its length |
| `AsyncWriter.RunKeeps` | streams/async_writer.go:156-210 | the invariant of every interleaving of writers, closers, syncers and flusher |
| `AsyncWriter.OutputIsPrefix` | streams/async_writer.go:156-210 | `used` is the sum of the queued lengths, and the output is a prefix of the accepted bytes in order |
| `AsyncWriter.SyncNilDelivers` | streams/async_writer.go:131-144 | when Sync returns nil all chunks accepted by then are out |
| `AsyncWriter.ExitDelivers` | streams/async_writer.go:156-210 | an exit without error means all chunks are out and no more are accepted |
| `AsyncWriter.FailureSticks` | streams/async_writer.go:171-176 | after a failure nothing is accepted or sent, the error stays, and Write and Sync report it |
| `AsyncWriter.OutputClosedLast` | streams/async_writer.go:156-161 | the output is closed before the exit, takes no byte afterwards, and without an error had all of them |
| `AsyncWriter.HistoryGrows` | streams/async_writer.go:156-210 | no step takes back delivered bytes or accepted chunks |
| `AsyncWriter.HandedBackIsOut` | streams/async_writer.go:179-183 | chunks go back to their owners once, in order, and after their bytes are out |
| `AsyncWriter.NobodyOversleeps` | streams/async_writer.go:131-144 | the flusher never sleeps on work, and nobody sleeps in Sync once it exited |
| `ContextReader.Reader.EnterRead` | streams/context_reader.go:28-69 | buffer first, then the error, then the read in progress; the bytes land in the caller's array |
| `ContextReader.Reader.Finish` | streams/context_reader.go:55-63 | bytes and error are committed together and the channel field cleared |
| `ContextReader.RunKeeps` | streams/context_reader.go:28-79 | the invariant of every interleaving of calls, cancellations and background reads |
| `ContextReader.OneOutstanding` | streams/context_reader.go:47-66 | at most one read of the source is outstanding |
| `ContextReader.NothingLost` | streams/context_reader.go:28-79 | returned bytes are a prefix of the source; the rest is in the buffer or with the read in progress |
| `ContextReader.PassTakesAll` | streams/context_reader.go:31-66 | a caller gets as many bytes as are there and fit, else the error, and waits only when there is neither |
| `ContextReader.ErrorComesLast` | streams/context_reader.go:41-45 | the source's error is returned only when every byte was |
| `ContextReader.NoReadAfterError` | streams/context_reader.go:41-45 | after that the source is read no more |
| `ContextReader.WaitersWake` | streams/context_reader.go:68-78 | a waiting caller's channel is closed or will be |
| `Registrar.AppRegistrar.Backoff` | lib/apps/registrar.go:188-199 | waits the current delay and doubles it within its bounds |
| `Registrar.AppRegistrar.AttachAll` | lib/apps/registrar.go:209-221 | succeeds exactly when every handler is taken and the hooks pass, and then all are attached in order |
| `Registrar.AppRegistrar.AttachRegistered` | lib/apps/registrar.go:223-234 | keeps a handler only if the node took it and every hook passed |
| `Registrar.RunKeeps` | lib/apps/registrar.go:141-275 | the invariant of every run of the reconnect loop |
| `Registrar.ReadyClosedOnce` | lib/apps/registrar.go:164-182 | no ready channel is closed twice |
| `Registrar.ReadyMeansAttached` | lib/apps/registrar.go:153-172 | every announcement had exactly the handlers acknowledged by then attached, in order, and so had every later one |
| `Registrar.AckedStay` | lib/apps/registrar.go:223-262 | an acknowledged handler is never forgotten |
| `Registrar.NothingSkipped` | lib/apps/registrar.go:223-262 | a handler is acknowledged only after the node took it and the last hook agreed; readiness follows only a step that succeeded |
| `Registrar.FailureLeaves` | lib/apps/registrar.go:141-275 | any failure leaves the connection, and a handler that failed is not kept |
| `Registrar.StopsOnlyWhen` | lib/apps/registrar.go:141-275 | the loop ends only with its context or after a registration that failed |
| `Registrar.DelayBounded` | lib/apps/registrar.go:188-199 | every wait lies within the two bounds and doubles the one before it, or starts over at the lower bound |

## Left out

- JSON forms of every type: they rest on encoding/json and follow other rules for absent values.
- Go reflection and derivation of Blueprints from Go types: a compile-time struct is a codec that round-trips, with the frames each value opens; what a refused one had written, taken or opened below its own frame before the refusal is not followed. A `bundle` nested as a member is such a leaf.
- An unbound runtime object (no Blueprint) and values mutated through Set, Append or Each: not part of the model.
- OrderedBlueprints: the same order as AllBlueprints over names; it would only add easy members.
- Sync.FillBuckets: does not report an alias prototype that stands under a primitive's name and cannot be described, because prototypes without a Blueprint are not told apart by kind.
- Construct.Make: assumes the allowlisted primitives are compile-time prototypes, as the default registry has them and `Registries.RunFit` keeps them.
- CodecReader.FillBounded: does not model spare capacity, because how far Go's append over-allocates is not the program's choice.
- The first reservation of a slice or map, at most 64 elements (`elemCap`): elements are counted when complete, not when room is made for them.
- Error values carry their class, not their text.
- Cryptography: digests are functions with no assumed property; the 2048 BIP-39 words are any list of 2048 distinct words; seed derivation is absent.
- Strings that are not valid UTF-8 in search queries: the source would replace their bytes.
- Memory shared with the caller (an async chunk while it is queued) and the source's data races (`AddRegistrationHooks`, `Err`): values are copied.
- SetWriter and SetAfterFlush on an async writer: the output is fixed.
- Real time: a timer is a step that may happen; delays are numbers, and the two backoff bounds are in order.
- Network, IPC, authentication, logging and the api/ wire structs.
- Query argument parsing before an op runs (`checkRequired`, the query editor): only the op's calls on its query are modelled.
