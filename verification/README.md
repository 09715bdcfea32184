# TensorFlow core protocols, codecs and registries in Dafny

A Dafny model of six parts of TensorFlow: the graph/session protocol of the C API and the Go wrapper's Run/Close
protocol, the node table and its name index, the codecs of string tensors and of nested Go slices, GPU occupancy and
tensor layout arithmetic, ownership and packing in the C API, and the stateful registries of the stream executor.

| file | what it models | form |
|---|---|---|
| `SessionProtocol.dfy` | one graph, any number of sessions and threads; every critical section, `Extend` and `delete` is a step | transition system, invariants over all runs |
| `GoSession.dfy` | handle, mutex and WaitGroup shared by any number of goroutines calling Run and Close | transition system, safety and termination |
| `GraphTable.dfy` | finishing operations, importing GraphDefs, looking up and enumerating | class |
| `Arithmetic.dfy`, `Sequences.dfy`, `Wrappers.dfy` | products, distinct elements, options and results | shared by the others |
| `Bytes.dfy`, `Varint.dfy`, `StringTensor.dfy` | fixed-width integers, base 128 varints, TF_STRING buffers | methods on arrays against specification functions |
| `GoTensor.dfy` | encoding and decoding nested slices and arrays by way of a byte buffer | classes, recursive methods |
| `Occupancy.dfy` | occupancy and the stepped search for a register limit | functions and a loop |
| `Layout.dfy` | dimension permutations, strides, addresses | functions and loops on arrays |
| `TensorOwnership.dfy` | reference counts, deallocators, inputs and outputs of a run | class |
| `AttrPacking.dfy` | string and shape lists packed into the caller's storage | methods on arrays |
| `Streams.dfy` | sticky errors, gated operations, the pool of sub-streams | class, a tree of objects |
| `PluginRegistry.dfy`, `ExecutorCache.dfy` | factories and defaults, the two-level cache | classes |

Library code that these parts call and do not decide is taken by what it promises: `Session::Extend` changes nothing
when it fails, `Session::Run`, `NodeBuilder::Finalize`, the conversion of a GraphDef, allocators and the platform's
executor answer as a parameter says.

## Where the code falls short of what it says

Each of these is a lemma or a contract below, with the exact condition under which the code does what it says, and
with a member that reaches the failing case.

- `go/tensor.go`: only siblings are compared, so `[[[1,2],[3,4]],[[5],[6]]]` is accepted. A value comes back from the
  round trip if and only if it is rectangular (`GoTensor.RoundTrip`, `GoTensor.CousinsAreNotCompared`).
- `device_description.cc`: the register search returns the best value for all devices and inputs if and only if the step
  is 1, or the warp size divides the granularity and the step is not 0 (`Occupancy.SearchFindsBestIff`,
  `Occupancy.UnsafeSearchFails`).
- `c_api.cc`: after a failed extension `outputs[]` is left as it was, though the header promises NULLs
  (`TensorOwnership.Heap.SessionRun`, `TensorOwnership.OutputsAreLeftAsTheyWere`).
- `c_api.cc`: the total size of an empty list is -1, though the header calls it a cumulative size
  (`AttrPacking.GetAttrMetadata`, `AttrPacking.EmptyListHasNegativeTotal`); a stale error makes the string list getter
  fail and is overwritten by the shape list getter (`AttrPacking.StaleErrorFails`).
- `stream.cc`: `BlockHostUntilDone` holds the stream's mutex while `CheckError(false)` locks it again, and the mutex
  (`platform/default/mutex.h`, lines 43-51) is a `std::mutex` or a `std::shared_timed_mutex`. The call does not return if
  and only if the stream is ok and a sub-stream that is out is not healthy: if that sub-stream reports an error this
  stream's mutex is locked twice, if it does not return itself one further down
  (`Streams.Stream.BlockHostUntilDone`, `Streams.FailedSubStreamRelocks`).
- `stream.cc`: `GetOrCreateSubStream` checks the parent, so a sub-stream that failed to initialise can be handed out
  (`Streams.Stream.GetOrCreateSubStream`, `Streams.FailedSubStreamRelocks`).
- `plugin_registry.cc`: the null plugin can be set as a default that is then not found
  (`PluginRegistry.Registry.SetDefaultFactory`, `PluginRegistry.NullDefaultIsNotFound`).
- `graph_constructor.cc`: a failed import removes its nodes but uses up their ids, so the node table grows by empty
  slots; no live node and no name changes (`GraphTable.Graph.TFGraphImportGraphDef`,
  `GraphTable.FailedImportUsesUpAnId`).

## Model

| member | source | states |
|---|---|---|
| `SessionProtocol.StepKeepsInv` | `Official source file/tensorflow/c/c_api.cc:1527-1687` | Every enabled step (critical section, Extend, delete) from a state of the invariant leads to a state of the invariant. |
| `SessionProtocol.RunKeepsInv` | `Official source file/tensorflow/c/c_api.cc:1527-1687` | The invariant holds in every state of every interleaving. |
| `SessionProtocol.NeverFaults` | `Official source file/tensorflow/c/c_api.cc:1527-1687` | No step of any run touches a graph or a session that has been freed. |
| `SessionProtocol.GraphLifetime` | `Official source file/tensorflow/c/c_api.cc:1614-1647` | The graph is freed at most once and never while a session holds it; once deletion is requested and the last session is gone, it has been freed or exactly one thread is about to free it; with no call in progress it has been freed exactly then. |
| `SessionProtocol.OneThreadFrees` | `Official source file/tensorflow/c/c_api.cc:1527-1533` | What a step changes about who frees the graph keeps the balance: frees plus threads about to free is 1 if the graph is unused and to be deleted, else 0. |
| `SessionProtocol.HoldersStayCounted` | `Official source file/tensorflow/c/c_api.cc:1620-1643` | num_sessions stays the number of sessions that hold the graph. |
| `SessionProtocol.SessionsReceiveEachNodeOnce` | `Official source file/tensorflow/c/c_api.cc:1652-1687` | Over every interleaving, what a session has accepted is the live op nodes with ids below its boundary: by increasing id, none missing, none twice. |
| `SessionProtocol.HelperTrueSendsSnapshot` | `Official source file/tensorflow/c/c_api.cc:1652-1687` | When the helper returns true, its session has accepted every op node that was in the graph when the helper read it under the graph's lock, whatever other threads did since. (When it returns true: HelperAnswers.) |
| `SessionProtocol.SnapshotOf` | `Official source file/tensorflow/c/c_api.cc:1654-1658` | A helper call past its look at the graph has looked at it in one earlier step, holding the session's lock, and remembers the node count of that step. |
| `SessionProtocol.OpsExactlyOnce` | `Official source file/tensorflow/c/c_api.cc:1661-1671` | The nodes put into a GraphDef are exactly the live op nodes of the id range, each once, by increasing id. |
| `SessionProtocol.OpsSplit` | `Official source file/tensorflow/c/c_api.cc:1665-1671` | The batches of two adjacent id ranges concatenate to the batch of the whole range. |
| `SessionProtocol.NodesOnlyGrow` | `Official source file/tensorflow/c/c_api.cc:1656-1665` | In any run the node table of an earlier state is a prefix of that of a later one. |
| `SessionProtocol.HelperAnswers` | `Official source file/tensorflow/c/c_api.cc:1652-1703` | In every run: a helper call has answered false if and only if the last step it took was an Extend that failed; where the Extend succeeded, or none was needed, it has answered true, after exactly the steps of the path it took. |
| `SessionProtocol.ExtendAcceptsAllOrNothing` | `Official source file/tensorflow/c/c_api.cc:1674-1681` | A failed Extend leaves the session's nodes and its cursor alone, a successful one adds the whole batch. |
| `SessionProtocol.GraphHoldsWhatWasAdded` | `Official source file/tensorflow/c/c_api.cc:1656-1671` | In every run the graph is its two first nodes, source and sink, and then all that has been added, in order, whatever sessions did. |
| `SessionProtocol.SessionIsDeleted` | `Official source file/tensorflow/c/c_api.cc:1635-1647` | The last step of TF_DeleteSessionWithGraph deletes the session of the call and no other step deletes any. |
| `SessionProtocol.CallCanProceed` | `Official source file/tensorflow/c/c_api.cc:1614-1687` | Inside every call the thread's next step is always enabled: a lock is only waited for where a call begins. |
| `SessionProtocol.LockHolderCanProceed` | `Official source file/tensorflow/c/c_api.cc:1652-1653` | A helper call that has to wait for the session's lock waits for another thread that is inside a call on that session. |
| `GoSession.RunKeepsInv` | `Official source file/tensorflow/go/session.go:69-149` | The invariant of mutex, WaitGroup, handle and deletion count holds in every state of every run. |
| `GoSession.NeverFaults` | `Official source file/tensorflow/go/session.go:69-118` | No Run uses a nil handle or a deleted C session; while a Run is in flight the handle is set and nothing has been deleted. |
| `GoSession.StepsFindTheSession` | `Official source file/tensorflow/go/session.go:74-149` | In every run: a Run in flight finds the handle set, nothing deleted and its count in the WaitGroup; a Close about to close or delete finds the session set and not deleted, and no Run in flight. |
| `GoSession.DeletedAtMostOnce` | `Official source file/tensorflow/go/session.go:134-149` | Over any number of Close calls, including failing ones, the C session is deleted at most once; the handle is nil only after that, stays nil, and then no Run is in flight. (What one Close has done when it returns: CloseOutcome.) |
| `GoSession.SomeCallCanProceed` | `Official source file/tensorflow/go/session.go:70-77` | While a call is in progress some call can take a step: a Close that waits for the WaitGroup is not waited for by the Runs it waits for. |
| `GoSession.CallsReturn` | `Official source file/tensorflow/go/session.go:132-149` | Without new calls, a run from a reachable state is at most as long as the work left, and can only stop when every call has returned. |
| `GoSession.CloseReturns` | `Official source file/tensorflow/go/session.go:134-149` | A Close that has the mutex returns however many calls of Run and Close begin meanwhile: as long as it has not, the steps taken by calls since are fewer than the work there was, and it or a Run in flight can take the next. |
| `GoSession.CloseWaitsForRun` | `Official source file/tensorflow/go/session.go:132-137` | Close blocks until all previous calls of Run have returned: a Run in flight at any time before a Close got past its wait has returned in between. |
| `GoSession.AdvanceShrinksWork` | `Official source file/tensorflow/go/session.go:69-149` | Every step of a call shrinks the work left over all goroutines. |
| `GoSession.CallHasDone` | `Official source file/tensorflow/go/session.go:69-149` | In every run, when a call returns: a Run has run the C session once, or found the handle nil and not run it; a Close that found the handle set has deleted the C session and cleared the handle if TF_CloseSessionWithGraph succeeded, and changed neither if not; one that found it nil has closed and deleted nothing. |
| `GoSession.CloseOutcome` | `Official source file/tensorflow/go/session.go:138-149` | When a Close that calls TF_CloseSessionWithGraph returns, the handle is nil and the C session has been deleted once if and only if that call succeeded; otherwise both are as they were before it. |
| `GoSession.CloseOfClosed` | `Official source file/tensorflow/go/session.go:138-140` | A Close that finds the handle nil asks nothing of the C session: it stays deleted once, and the handle nil. |
| `GraphTable.Graph.constructor` | `Official source file/tensorflow/core/graph/graph.cc:198-218` | A new graph holds the source and the sink, which the name index does not list. |
| `GraphTable.Graph.FinishOperation` | `Official source file/tensorflow/c/c_api.cc:1060-1091` | Succeeds if and only if the name is not in use and the node can be finalized; adds the node and its index entry on success, nothing otherwise. |
| `GraphTable.Graph.OperationByName` | `Official source file/tensorflow/c/c_api.cc:1535-1543` | Finds a node if and only if an operation of that name is in the graph, and then that operation. |
| `GraphTable.Graph.NextOperation` | `Official source file/tensorflow/c/c_api.cc:1545-1566` | Returns the first live node after the position, past source and sink, or nothing and a position past the end. |
| `GraphTable.Graph.EnsureNoNameCollisions` | `Official source file/tensorflow/core/graph/graph_constructor.cc:186-219` | Accepts if and only if no live node has an imported name, or the prefix that all imported names will have. |
| `GraphTable.Graph.BuildNodeIndex` | `Official source file/tensorflow/core/graph/graph_constructor.cc:221-235` | Accepts if and only if the imported names are valid and distinct. |
| `GraphTable.Graph.ImportGraphDef` | `Official source file/tensorflow/core/graph/graph_constructor.cc:433-580` | Succeeds if and only if names do not collide and conversion completes; then the prefixed nodes are appended, else ids without nodes, one for each node that conversion had made. |
| `GraphTable.Graph.TFGraphImportGraphDef` | `Official source file/tensorflow/c/c_api.cc:1593-1610` | The index agrees with the node table after success and after failure; success gives each new slot its prefixed name; a failed import changes neither the index nor any live node. |
| `GraphTable.FailedImportUsesUpAnId` | `Official source file/tensorflow/core/graph/graph_constructor.cc:573-580` | An import that fails after making one node leaves an id without a node behind. |
| `GraphTable.Graph.IndexNodesFrom` | `Official source file/tensorflow/c/c_api.cc:1606-1609` | Entering the new nodes makes an index that agreed with the old nodes agree with all of them. |
| `GraphTable.ImportedNamesAreNew` | `Official source file/tensorflow/core/graph/graph_constructor.cc:186-235` | With the collision check passed, no imported node has the name of another node. |
| `GraphTable.EnumerateFollowsIds` | `Official source file/tensorflow/c/c_api.h:734-740` | The documented loop visits the live operations by increasing id. |
| `GraphTable.EnumerationIsComplete` | `Official source file/tensorflow/c/c_api.h:729-740` | The documented loop ends having visited every live operation exactly once, and each is found again under its name. |
| `GraphTable.NodeNameCharacters` | `Official source file/tensorflow/core/graph/graph_constructor.cc:45-53` | Which characters a valid node name has, by code: letters, digits and . first, then also - / and _. |
| `GraphTable.ImportedName` | `Official source file/tensorflow/core/graph/graph_constructor.cc:62-68` | Between prefix and name there is exactly the slash that the prefix may lack, and nothing if the prefix is empty. |
| `GraphTable.ImportableIff` | `Official source file/tensorflow/core/graph/graph_constructor.cc:186-235` | Without a prefix, an import is possible if and only if no node has an imported name and these are valid and distinct; with one, if and only if the prefix without its slash is a valid name, no node's name begins with it and a slash, and the names are valid and distinct. |
| `Varint.VarintLength` | `Official source file/tensorflow/core/lib/core/coding.cc:127-134` | The length of the varint of the value. |
| `Varint.EncodeVarint64` | `Official source file/tensorflow/core/lib/core/coding.cc:110-119` | Writes the varint of the value in place and nothing else, and returns where it ends. |
| `Varint.GetVarint64Ptr` | `Official source file/tensorflow/core/lib/core/coding.cc:166-181` | Reads a header if and only if one starts here and ends before the limit, and returns its end and its 64-bit value. |
| `Varint.OrIsSum` | `Official source file/tensorflow/core/lib/core/coding.cc:171-175` | The bitwise or of a number with one that is shifted past all its bits is their sum. |
| `Varint.OrSetsBits` | `Official source file/tensorflow/core/lib/core/coding.cc:171-175` | A bit is set in the bitwise or if and only if it is set in one of the two numbers. |
| `Varint.GroupAdded` | `Official source file/tensorflow/core/lib/core/coding.cc:171-175` | So or-ing in the next group, shifted to its place in 64 bits, adds it modulo 2^64: nothing is cut off from the first nine groups, and all but one bit of the tenth. |
| `Varint.VarintDecodes` | `Official source file/tensorflow/core/lib/core/coding.cc:110-181` | The varint of any 64-bit value is a header that reads back as the value. |
| `Varint.HeaderIsPrefixFree` | `Official source file/tensorflow/core/lib/core/coding.cc:166-181` | No header is a proper prefix of another. |
| `Varint.VarintOf300` | `Official source file/tensorflow/core/lib/core/coding.cc:110-119` | The varint of 300 is the bytes 172 and 2. |
| `StringTensor.EncodedSize` | `Official source file/tensorflow/c/c_api.cc:362-370` | The computed size is that of the offset table and the records. |
| `StringTensor.EncodeStrings` | `Official source file/tensorflow/c/c_api.cc:361-385` | The buffer is exactly the offset table followed by the records: CHECK_EQ(dst, base + size) holds. |
| `StringTensor.EncodeOne` | `Official source file/tensorflow/c/c_api.cc:379-383` | One turn of the loop adds one offset to the table and one record to the data, and changes nothing else that is written. |
| `StringTensor.DecodeStrings` | `Official source file/tensorflow/c/c_api.cc:327-358` | For any buffer in signed range: succeeds if and only if there is a table and every element's record lies wholly in the data region, and returns the strings of those records. |
| `StringTensor.DecodeOne` | `Official source file/tensorflow/c/c_api.cc:343-355` | One element is decoded if and only if its record lies wholly in the data region; all reads are inside the buffer. |
| `StringTensor.HeaderDecidesRecord` | `Official source file/tensorflow/c/c_api.cc:347-355` | A header decides the record: the strings that start there are the bytes of the given length, if they are there, and no others. |
| `StringTensor.EncodedElement` | `Official source file/tensorflow/c/c_api.cc:376-384` | The i-th offset is strictly inside the data region and leads to the i-th record. |
| `StringTensor.EncodingDecodes` | `Official source file/tensorflow/c/c_api.cc:327-385` | The encoding of any strings holds those strings. |
| `StringTensor.EncodingInSignedRange` | `Official source file/tensorflow/c/c_api.cc:343-350` | An encoding below 2^63 bytes has no offset and no length that the decoder's casts would change. |
| `StringTensor.ToPtrdiffIsTwosComplement` | `Official source file/tensorflow/c/c_api.cc:343-353` | The casts to ptrdiff_t are those of two's complement. |
| `StringTensor.DecodingIsUnique` | `Official source file/tensorflow/c/c_api.cc:327-358` | A buffer read as n strings holds at most one list of strings. |
| `StringTensor.RoundTrip` | `Official source file/tensorflow/c/c_api_test.cc:115-140` | Decoding what was encoded succeeds and gives back the strings, for all strings and both byte orders. |
| `StringTensor.EncodingInNumbers` | `Official source file/tensorflow/c/c_api.cc:361-385` | The encoding of the two strings A and the empty one, byte by byte. |
| `Bytes.GetPut` | `Official source file/tensorflow/go/tensor.go:187-190` | An integer that fits is read back from its bytes, in either byte order. |
| `Bytes.PutGet` | `Official source file/tensorflow/go/tensor.go:222-225` | Every byte string is the encoding of the integer read from it. |
| `Bytes.PutAt` | `Official source file/tensorflow/go/tensor.go:187-190` | Byte i of an integer is at place i in little-endian order, and i places from the end in big-endian order. |
| `Bytes.PutInNumbers` | `Official source file/tensorflow/go/tensor.go:187-190` | 0x1234 is written and read as 0x34, 0x12 in little-endian order and as 0x12, 0x34 in big-endian order. |
| `GoTensor.CheckSiblings` | `Official source file/tensorflow/go/tensor.go:195-202` | Fails if and only if elements that are slices differ in length. |
| `GoTensor.EncodeTensor` | `Official source file/tensorflow/go/tensor.go:185-216` | Succeeds if and only if the value is accepted; appends its elements in order and records its lengths in the shape from here on. |
| `GoTensor.EncodeElements` | `Official source file/tensorflow/go/tensor.go:204-210` | The same for all elements of one slice, each overwriting the lengths that the ones before recorded. |
| `GoTensor.DecodeTensor` | `Official source file/tensorflow/go/tensor.go:220-240` | Succeeds if and only if the kind is known, where it matters, and there are bytes enough; consumes exactly the bytes that encode the value it returns, which has the type and the shape. |
| `GoTensor.DimsAndKindOf` | `Official source file/tensorflow/go/tensor.go:151-163` | The number of slices and arrays around the element type, and its kind; fails if and only if that is not in the table. |
| `GoTensor.TypeOf` | `Official source file/tensorflow/go/tensor.go:166-181` | The element type in as many slices as the shape has dimensions; fails if and only if the data type is not in the table. |
| `GoTensor.NewTensor` | `Official source file/tensorflow/go/tensor.go:51-62` | Succeeds if and only if the type is known and the value is accepted; the buffer holds its elements in order, and the shape is the recorded one. |
| `GoTensor.Tensor.Value` | `Official source file/tensorflow/go/tensor.go:97-107` | Returns a value of the type and shape whose encoding is what it has consumed; panics if and only if the kind is unknown or bytes are missing. |
| `GoTensor.RoundTrip` | `Official source file/tensorflow/go/tensor.go:48-107` | NewTensor and then Value give an accepted value back, with arrays as slices, if and only if it is rectangular. |
| `GoTensor.DecodedIsEncoded` | `Official source file/tensorflow/go/tensor.go:185-240` | What is decoded from a value's encoding at its recorded shape is that value if and only if it is rectangular, and then nothing is left over. |
| `GoTensor.RectangularHasRecordedShape` | `Official source file/tensorflow/go/tensor.go:204-210` | A rectangular value has the recorded shape, also where it has empty slices. |
| `GoTensor.RectangularIsAccepted` | `Official source file/tensorflow/go/tensor.go:193-213` | Every rectangular value of a known kind (or without elements) is accepted. |
| `GoTensor.RectangularFillsShape` | `Official source file/tensorflow/go/tensor.go:185-216` | The bytes of an accepted rectangular value are the element size times the product of the recorded shape. |
| `GoTensor.FlattenInjective` | `Official source file/tensorflow/go/tensor.go:185-216` | Two values of one type and shape with the same bytes are the same. |
| `GoTensor.CousinsAreNotCompared` | `Official source file/tensorflow/go/tensor.go:193-204` | [[[1,2],[3,4]],[[5],[6]]] is accepted though not rectangular, with shape [2,2,1]: slices under different parents are not compared, against the comment on lines 48-50. |
| `GoTensor.AcceptedIff` | `Official source file/tensorflow/go/tensor.go:185-216` | A value is accepted if and only if at no depth there is an element of unknown kind or a slice with two slices of different lengths. |
| `GoTensor.ElementSizes` | `Official source file/tensorflow/go/tensor.go:187-190` | Exactly the ten numeric kinds are encoded, in 1, 2, 4, 8 or 16 bytes, kind by kind. |
| `GoTensor.ElementRanges` | `Official source file/tensorflow/go/tensor.go:187-190` | The bit patterns of each kind: one or two parts below 2^8, 2^16, 2^32 or 2^64. |
| `GoTensor.ElementBytes` | `Official source file/tensorflow/go/tensor.go:187-190` | An element's bytes are those of its bit pattern at the size of its kind, the real part's before the imaginary part's. |
| `GoTensor.ElementsInOrder` | `Official source file/tensorflow/go/tensor.go:204-210` | Element i of a slice begins i element sizes into the slice's bytes, at every level: row-major order. |
| `Occupancy.CeilIsLeast` | `Official source file/tensorflow/stream_executor/lib/mathutil.h:57-87` | The ceiling of a ratio is the least count whose multiple reaches the numerator. |
| `Occupancy.RoundUpIsLeastMultiple` | `Official source file/tensorflow/stream_executor/device_description.cc:153-156` | Rounding up gives the least multiple that is not below the value. |
| `Occupancy.CalculateDimensionality` | `Official source file/tensorflow/stream_executor/device_description.cc:142-151` | The least number of blocks that hold the elements within the limit, a single block being cut down to them; the CHECK_LE never fails. |
| `Occupancy.OccupancyIsGreatestFit` | `Official source file/tensorflow/stream_executor/device_description.cc:163-213` | For an initialised device and a register count within the thread's limit, the occupancy is the greatest number of blocks whose warps, rounded registers and rounded shared memory fit together; otherwise it is 0. (In numbers: OccupancyInNumbers.) |
| `Occupancy.OccupancyAntitone` | `Official source file/tensorflow/stream_executor/device_description.cc:163-213` | More registers per thread, more shared memory or more threads never increase the occupancy. |
| `Occupancy.OccupancyInNumbers` | `Official source file/tensorflow/stream_executor/device_description.cc:163-213` | The occupancy without any of the functions it is computed with: for the least numbers of warps, of granules of warps, of granules of registers per warp and of granules of shared memory that suffice, n is at most the occupancy if and only if n blocks of these allocations keep all four limits; 0 if a limit is not set or the registers exceed the thread's. |
| `Occupancy.ConversionsAreTwosComplement` | `Official source file/tensorflow/stream_executor/device_description.cc:217-224` | The conversions to int and back to uint64 are those of two's complement. |
| `Occupancy.RoundDownIsGreatestMultiple` | `Official source file/tensorflow/stream_executor/device_description.cc:158-161` | Rounding down gives the greatest multiple that is not above the value. |
| `Occupancy.CalculateRegisterLimitForTargetOccupancy` | `Official source file/tensorflow/stream_executor/device_description.cc:215-232` | With a safe step the loop returns the greatest register count that reaches the target, or 0 if none does; with any step it computes the stepped search that the lemmas below are about, and divides by zero exactly where that does. For an uninitialised limit, which the counter takes for -1, it returns 0. |
| `Occupancy.RoundDownShrinks` | `Official source file/tensorflow/stream_executor/device_description.cc:158-161` | The next value visited is smaller, by at most the step. |
| `Occupancy.SkippedAllocateTheSame` | `Official source file/tensorflow/stream_executor/device_description.cc:221-224` | With a safe step, all register counts between two visited ones are allocated the same number of registers. |
| `Occupancy.SafeSearchFindsBest` | `Official source file/tensorflow/stream_executor/device_description.cc:215-232` | With a safe step, the search returns the greatest register count that reaches the target, or 0 if none does. |
| `Occupancy.SearchFindsBestIff` | `Official source file/tensorflow/stream_executor/device_description.cc:215-232` | For a warp size and a granularity, the search does so for every device and input if and only if the step is 1, or above 1 and the warp size divides the granularity. |
| `Occupancy.UnsafeSearchFails` | `Official source file/tensorflow/stream_executor/device_description.cc:221-224` | For every other warp size and granularity there is a device on which the search divides by zero or skips the best value. |
| `Layout.DimIndicesLocateAxes` | `Official source file/tensorflow/stream_executor/dnn.cc:127-157` | The indices are distinct, cover the vector, and are where the layout puts batch, depth and each spatial axis. |
| `Layout.ReorderDims` | `Official source file/tensorflow/stream_executor/dnn.cc:159-184` | The result is the input's batch, depth and spatial entries as the other layout arranges them. |
| `Layout.ReorderThereAndBack` | `Official source file/tensorflow/stream_executor/dnn.cc:159-184` | Reordering to another layout and back is the identity. |
| `Layout.ReorderComposes` | `Official source file/tensorflow/stream_executor/dnn.cc:159-184` | Reordering over an intermediate layout is reordering directly. |
| `Layout.ReorderKeepsEntries` | `Official source file/tensorflow/stream_executor/dnn.cc:159-184` | Reordering keeps the multiset of entries. |
| `Layout.BatchDescriptor.FullDims` | `Official source file/tensorflow/stream_executor/dnn.cc:197-203` | For each layout the sequence of count, feature maps and spatial sizes outright; and each of the three is where the indices of the layout say. |
| `Layout.BatchDescriptor.FullStrides` | `Official source file/tensorflow/stream_executor/dnn.cc:205-214` | The row-major strides of the physical layout, reordered to the requested one. |
| `Layout.StridesAreRowMajor` | `Official source file/tensorflow/stream_executor/dnn.cc:205-212` | In the physical layout the last stride is 1 and each other one is the next stride times the next dimension. |
| `Layout.StridesFollowAxes` | `Official source file/tensorflow/stream_executor/dnn.cc:205-214` | Batch, depth and each spatial axis have the stride of the physical layout at the index where the requested layout has them. |
| `Layout.StridesOfImages` | `Official source file/tensorflow/stream_executor/dnn.cc:205-214` | Two images of three 4 by 5 maps: strides 60, 20, 5, 1, and the same in the order of the other three layouts. |
| `Layout.BatchDescriptor.NodesPerFeatureMap` | `Official source file/tensorflow/stream_executor/dnn.cc:274-280` | The product of the spatial sizes. |
| `Layout.BatchDescriptor.ElementCount` | `Official source file/tensorflow/stream_executor/dnn.cc:286-288` | Count times feature maps times spatial sizes, which is the product of the full dimensions in every layout. |
| `Layout.ProductOfArranged` | `Official source file/tensorflow/stream_executor/dnn.cc:197-203` | The product of an arranged vector does not depend on the layout. |
| `Layout.RowMajorAt` | `Official source file/tensorflow/stream_executor/dnn.cc:207-212` | A stride is the product of all later dimensions. |
| `Layout.DigitsOfAddress` | `Official source file/tensorflow/stream_executor/dnn.cc:205-212` | A valid coordinate has an address below the number of elements, and is its mixed-radix digits. |
| `Layout.AddressOfDigits` | `Official source file/tensorflow/stream_executor/dnn.cc:205-212` | Every address below the number of elements is that of its digits, which are a valid coordinate. |
| `Layout.AddressIsLayoutIndependent` | `Official source file/tensorflow/stream_executor/dnn.cc:205-214` | An element has one address, whichever layout the coordinate and the strides are expressed in. |
| `Layout.LocateOfAddress` | `Official source file/tensorflow/stream_executor/dnn.cc:197-214` | In every layout the address of a valid coordinate is below the element count, and the coordinate is what is located there. |
| `Layout.AddressOfLocate` | `Official source file/tensorflow/stream_executor/dnn.cc:197-214` | In every layout each address below the element count is that of the valid coordinate located there. |
| `Layout.ConversionIsBijective` | `Official source file/tensorflow/stream_executor/dnn.cc:197-214` | Moving each element of one physical layout to its place in another is invertible, within the same storage. |
| `TensorOwnership.Heap.NewTensor` | `Official source file/tensorflow/c/c_api.cc:173-199` | An aligned client buffer is adopted; a misaligned one is copied and deallocated at once; the new tensor is the only new holder. |
| `TensorOwnership.Heap.DeleteTensor` | `Official source file/tensorflow/c/c_api.cc:201-204` | The tensor's deallocator runs if and only if nobody else holds the buffer. |
| `TensorOwnership.Heap.Unref` | `Official source file/tensorflow/core/lib/core/refcount.h:86-97` | The holder is gone, and the buffer is deallocated if and only if it was the last. |
| `TensorOwnership.HeldIsNotFreed` | `Official source file/tensorflow/c/c_api.cc:109-111` | What is held has not been deallocated; each memory taken over has been deallocated exactly once if nobody holds it, and not at all otherwise. |
| `TensorOwnership.CountedUnref` | `Official source file/tensorflow/core/lib/core/refcount.h:86-97` | Letting go of a buffer keeps every count equal to the number of holders. |
| `TensorOwnership.ConservedFree` | `Official source file/tensorflow/c/c_api.cc:109-111` | Running the deallocator of the last holder keeps the balance of memory taken over and deallocated. |
| `TensorOwnership.Heap.RunInputs` | `Official source file/tensorflow/c/c_api.cc:440-464` | All inputs are deleted, also after one that does not decode; succeeds if and only if none is malformed, with every shared input's buffer held by the runtime. |
| `TensorOwnership.Heap.Produce` | `Official source file/tensorflow/c/c_api.cc:493-511` | What the session returns is held by the runtime's tensors, new or shared. |
| `TensorOwnership.Heap.Store` | `Official source file/tensorflow/c/c_api.cc:517-529` | Every output becomes a tensor of the caller's with an identifier of its own, sharing the result's buffer if it has one. |
| `TensorOwnership.Heap.SessionRun` | `Official source file/tensorflow/c/c_api.cc:1689-1731` | On every path each input is deleted once and the runtime ends up holding nothing new; on success the outputs are the caller's, share what they should, and otherwise are on new memory of their own; on failure outputs[] is all NULL if and only if the extension succeeded, or it was so before (c_api.h line 906 promises NULLs). |
| `TensorOwnership.OutputsAreLeftAsTheyWere` | `Official source file/tensorflow/c/c_api.cc:1698-1703` | After a run whose extension fails, an output that was there is still there. |
| `AttrPacking.GetAttrMetadata` | `Official source file/tensorflow/c/c_api.cc:1231-1328` | Count and total size of a list of strings or shapes, -1 for an empty list's total; fails on a stale error, a missing attribute, no value, or an empty list of an unrecognised type. |
| `AttrPacking.EmptyListHasNegativeTotal` | `Official source file/tensorflow/c/c_api.cc:1256-1259` | An empty list that is declared as one of strings has a total size of -1. |
| `AttrPacking.StaleErrorFails` | `Official source file/tensorflow/c/c_api.cc:1354-1355` | With an error from before, the string list getter fails where it succeeds without one, and writes nothing; the shape list getter succeeds. |
| `AttrPacking.ListMetadata` | `Official source file/tensorflow/c/c_api.cc:1256-1310` | The same for the list alone: the first kind of element that there is any of decides the type. |
| `AttrPacking.GetAttrStringList` | `Official source file/tensorflow/c/c_api.cc:1350-1375` | Succeeds if and only if status was OK, the attribute is a list, and the requested strings together fit the storage; says exactly what is written in both cases. |
| `AttrPacking.GetAttrShapeList` | `Official source file/tensorflow/c/c_api.cc:1415-1444` | Succeeds if and only if the attribute holds valid shapes and the requested ones together fit the storage, unknown ranks taking no space; the status on entry does not matter. |
| `AttrPacking.HasShapesIff` | `Official source file/tensorflow/core/framework/partial_tensor_shape.cc:47-62` | Which attributes have valid shapes, in numbers: a list of nothing but shapes without negative dimensions other than -1, and without dimensions where the rank is unknown; or no value. |
| `AttrPacking.PackStrings` | `Official source file/tensorflow/c/c_api.cc:1362-1374` | The strings before the first that exceeds the storage are packed one after the other; positions and lengths are set up to and including that one; all else is unchanged. |
| `AttrPacking.PackShapes` | `Official source file/tensorflow/c/c_api.cc:1424-1443` | The same for shapes, -1 being the rank of an unknown one. |
| `AttrPacking.PartAt` | `Official source file/tensorflow/c/c_api.cc:1363-1373` | The segments are consecutive and disjoint, and each holds its part. |
| `AttrPacking.AllFit` | `Official source file/tensorflow/c/c_api.cc:1367-1371` | All requested parts fit if and only if the sum of their lengths does. |
| `AttrPacking.ShapesFitLikeParts` | `Official source file/tensorflow/c/c_api.cc:1431-1439` | The same for shapes, for storage of non-negative size. |
| `AttrPacking.FetchStrings` | `Official source file/tensorflow/c/c_api_test.cc:986-1016` | With storage sized from the metadata, the getter succeeds, fills the storage exactly, and what is read back is the list. |
| `AttrPacking.FetchShapes` | `Official source file/tensorflow/c/c_api_test.cc:1167-1193` | The same for shapes, of known and unknown rank. |
| `Streams.Stream.Init` | `Official source file/tensorflow/stream_executor/stream.cc:231-248` | Succeeds at most once: a second call after a success fails its CHECK, a call after a failure may succeed. |
| `Streams.Stream.ThenBlas` | `Official source file/tensorflow/stream_executor/stream.cc:1382-1396` | Reaches the executor if and only if the stream is ok and BLAS is supported; the stream stays ok if and only if the operation succeeds. |
| `Streams.Stream.ThenWaitFor` | `Official source file/tensorflow/stream_executor/stream.cc:1330-1341` | Waiting for a stream in error makes this one erroneous; waiting for itself fails a CHECK. |
| `Streams.Stream.GetOrCreateSubStream` | `Official source file/tensorflow/stream_executor/stream.cc:1280-1295` | Hands out the first available sub-stream, never one that is out already, and makes one only if none is available; fails if and only if it has to make one while this stream, not the new one, is in error. |
| `Streams.Stream.ReturnSubStream` | `Official source file/tensorflow/stream_executor/stream.cc:1297-1306` | Takes back exactly that sub-stream; fatal if and only if it is not one of this stream's. |
| `Streams.Stream.BlockHostUntilDone` | `Official source file/tensorflow/stream_executor/stream.cc:4038-4064` | Returns true if and only if this stream and all sub-streams out below it are healthy; then none of those waited for has a sub-stream out. Does not return if and only if it is ok and a sub-stream that is out is not healthy: then the thread locks a mutex again that it holds, this stream's or one below. Returns at once, with nothing changed, on a stream in error; otherwise no sub-stream is out when it returns. Clears no error and issues nothing anywhere in the tree. |
| `Streams.Stream.DrainSubStreams` | `Official source file/tensorflow/stream_executor/stream.cc:4048-4058` | The loop under the mutex gets to its end if and only if every sub-stream that is out is healthy. |
| `Streams.Stream.HealthyIffAllDrain` | `Official source file/tensorflow/stream_executor/stream.cc:4038-4064` | Healthy means: all streams waited for, recursively, have had no error and are drained by the executor. |
| `Streams.FailedSubStreamRelocks` | `Official source file/tensorflow/stream_executor/stream.cc:1289-1292` | A sub-stream that fails to initialise is handed out by a stream that is ok, and waiting for the stream then does not return. |
| `Streams.Stream.Perform` | `Official source file/tensorflow/stream_executor/stream.h:88-91` | One operation, on the stream or on a sub-stream at any depth: whether the process goes on after it, exactly; what it does to the stream that it is performed on, outright; errors anywhere in the tree stay, streams in error issue nothing, and the set of sub-streams that are out changes as the event says, which is the one that the operation asks for. |
| `Streams.Stream.Entrain` | `Official source file/tensorflow/stream_executor/stream.h:88-91` | Over every sequence of operations (initialising, issuing, waiting, lending, taking back, draining, and any of these on sub-streams): after a successful initialisation an error stays and nothing reaches the executor, for every stream of the tree that there was; no sub-stream is lent that is out; and between two times that one is lent it is taken back or drained. The run gets to its end, unless an operation other than issuing or reporting fails a CHECK or locks a mutex twice; what that takes is said by Perform. |
| `Streams.NeverLentTwice` | `Official source file/tensorflow/stream_executor/stream.cc:1280-1306` | Between two times that one sub-stream is lent there is a return of it, or a drain that gets to its end. |
| `PluginRegistry.Registry.RegisterFactory` | `Official source file/tensorflow/stream_executor/plugin_registry.cc:190-195` | Registers once: a second factory for a platform and plugin is refused; no other platform or kind is affected. |
| `PluginRegistry.Registry.RegisterFactoryForAllPlatforms` | `Official source file/tensorflow/stream_executor/plugin_registry.cc:198-203` | The same for all platforms; what a platform finds does not change unless it found nothing. |
| `PluginRegistry.Registry.HasFactory` | `Official source file/tensorflow/stream_executor/plugin_registry.cc:142-172` | True if and only if the kind is valid and the plugin can be resolved, for the platform or generically. |
| `PluginRegistry.Registry.SetDefaultFactory` | `Official source file/tensorflow/stream_executor/plugin_registry.cc:101-140` | Succeeds if and only if HasFactory; the default lookup then finds that plugin's factory if and only if the plugin is not the null one. |
| `PluginRegistry.Registry.GetFactory` | `Official source file/tensorflow/stream_executor/plugin_registry.cc:206-223` | The platform's own factory of the plugin if there is one, else the generic one, else not found; fails on the default if and only if none, or the null plugin, is set; adds nothing that can be found. |
| `PluginRegistry.Registry.GetFactoryOfKind` | `Official source file/tensorflow/stream_executor/plugin_registry.cc:227-236` | The same for the platform that a platform kind is mapped to; fails if it is not mapped. |
| `PluginRegistry.LookupSucceedsIff` | `Official source file/tensorflow/stream_executor/plugin_registry.cc:206-223` | In any reachable state the default is found if and only if a default other than null is set. |
| `PluginRegistry.HasAndGet` | `Official source file/tensorflow/stream_executor/plugin_registry.cc:142-223` | HasFactory and GetFactory agree on every plugin other than the default. |
| `PluginRegistry.OwnFactoryFirst` | `Official source file/tensorflow/stream_executor/plugin_registry.cc:190-223` | Whatever is registered for all platforms, before or after, a platform gets the first factory registered for it. |
| `PluginRegistry.NullDefaultIsNotFound` | `Official source file/tensorflow/stream_executor/plugin_registry.cc:206-216` | The null plugin can be registered and set as default, and is found directly, but not as the default. |
| `ExecutorCache.Cache.Get` | `Official source file/tensorflow/stream_executor/executor_cache.cc:35-53` | Finds what the plain map from full configurations holds. |
| `ExecutorCache.Cache.Insert` | `Official source file/tensorflow/stream_executor/executor_cache.cc:23-33` | Adds to the plain map unless the configuration is there, which it reports. |
| `ExecutorCache.Cache.DestroyAllExecutors` | `Official source file/tensorflow/stream_executor/executor_cache.cc:55-55` | Empties the plain map. |
| `ExecutorCache.Cache.Perform` | `Official source file/tensorflow/stream_executor/executor_cache.cc:23-55` | Over any sequence of operations, the buckets represent the plain map, without two equal configurations. |
| `ExecutorCache.FirstInsertIsFound` | `Official source file/tensorflow/stream_executor/executor_cache.cc:23-53` | What is found is what the first insertion of the configuration since the last clearing stored. |
| `ExecutorCache.FoundWasInserted` | `Official source file/tensorflow/stream_executor/executor_cache.cc:23-53` | Whatever is found was stored by such an insertion. |

## Left out

- SessionProtocol.NeverFaults: assumes what the C API asks of clients: no new session and no growth of a graph after TF_DeleteGraph, which is called once, and no call on a session that is being deleted.
- SessionProtocol: one graph at a time; sessions of different graphs share no state.
- SessionProtocol.NodesOnlyGrow: a failed import appears as ids without nodes; its nodes are never visible to another thread, as the graph's mutex is held throughout.
- GraphTable.Graph.ImportGraphDef: the order in which nodes are converted and the checks made meanwhile (edges, shapes, control dependencies, back edges) are parameters; GraphDef parsing, devices and version numbers are not modelled.
- GraphTable.Graph.FinishOperation: colocation constraints and input edges are not modelled; the outcome of Finalize is a parameter.
- StringTensor.DecodeStrings: offsets and lengths of 2^63 and above, which the signed casts make negative, are excluded by `InSignedRange`.
- GoTensor.Tensor.Value: the buffer is consumed, so a second call is modelled as what it is, a call on an empty buffer; named Go types, data type codes and floating point values are kept as kinds and bit patterns.
- Occupancy.CalculateOccupancy: overflow of uint64 products is excluded; divisors that describe the device are not zero.
- Occupancy.SearchFindsBestIff: for warp sizes and granularities whose product fits an int, so that the failing devices can exist.
- Layout.BatchDescriptor.ElementCount: dimensions are naturals, and products do not overflow int64.
- TensorOwnership.Heap.NewTensor: contents, shapes and the static byte behind empty tensors (whose deallocator does nothing) are not modelled; each tensor of that kind counts as memory of its own. A client hands a piece of memory over once.
- TensorOwnership.Heap.SessionRun: run metadata is not modelled beyond its check, nor are partial runs, which use the same helpers. The input tensors are distinct and alive.
- AttrPacking.GetAttrStringList: lengths are not truncated to int, and the sum of pointer and size does not overflow.
- Streams.Stream.BlockHostUntilDone: temporary device memory is not modelled; other threads do not interleave with the call.
- Streams.Stream.Entrain: operations name streams that were there before the run or by their place in the pool; what the state is when a CHECK fails or a mutex is relocked is not said, as the process or the thread does not go on.
- Streams.Stream.ThenBlas: stands for all gated operations; timers, events, callbacks and the DNN, FFT, RNG and memcpy wrappers add nothing to the protocol.
- PluginRegistry.Registry.GetFactory: of the locking, of which only registration does any, nothing is modelled.
- ExecutorCache.Cache.Insert: the destruction of an executor that is refused or cleared is not modelled.
- Device enumeration, kernel specifications, DSO loading, the checkpoint reader and the Python code: simple loops, maps and foreign calls.
