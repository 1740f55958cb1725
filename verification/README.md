# The APX port runtime, modelled in Dafny

APX connects *provide ports* and *require ports* of the same signature over a network. This
project models the parts of `apx/` that decide whether data survives that trip, and proves what
they promise:

- **Port codec** (`DataElement`, `Bytes`, `Layout`, `Reading`, `RoundTrip`, `Bytecode`, `Format`,
  `Decoder`, `Program`, `WriterModel`, `ReaderModel`, `PackLeaf`, `PackRun`, `PackRecords`,
  `UnpackLeaf`, `UnpackRun`, `UnpackPort`, `PortRoundTrip`, `Queue`, `Refusals`; the objects are in
  `Compiler`, `DecoderClass`, `Serializer`, `Deserializer`, `Vm`). A tree of data elements is compiled to bytecode; a
  serializer and a deserializer, each with a stack of states and a padding cursor, run it.
  `Layout` says in recursive functions what the bytes of a value are, and `Reading` as a relation
  what bytes show; everything else is proved to agree with them. `Format` holds the numbers of the
  bytecode and the letters of the texts, byte by byte.
- **Routing** (`Routing`, `RoutingData`, `RoutingInvariant`, `RoutingSteps`, `RoutingWrites`,
  `RoutingDetach`, `RoutingServer`, `RoutingRuns`, `BytePortMap`, `PortConnectorChanges`,
  `Signatures`). Nodes connect, write and detach in any order; opening a require file, a provider's
  write and each of the two phases of a detach are single steps, with other steps in between.
- **Transport** (`Headers`, `Receiver`, `Transport`, `FileMap`). Length-framed messages over a byte
  stream that is cut anywhere, fragments with a more bit, and the map of files by address.
- **Initializer parser** (`Initializer`, `AttributeParser`). A loop with an explicit stack of
  states that are reused in place, equal to a recursive grammar on every text.

Objects of the source whose methods update fields are classes here, and their methods are proved
against functions on values; the laws are proved about those functions.

Parts of the source's surroundings are not part of this model and enter it as follows. Of the `dtl`
values only the conversions matter: an integer converts if it fits the width asked for, booleans,
strings and byte arrays convert only to themselves. `bstr_lstrip` skips what `isspace` accepts and
`bstr_match_pair` finds the closing quote that no backslash hides, or fails; `bstr_make_cstr` copies the
bytes between two positions as they are; `unsigned long` has 64 bits; texts are followed
by a NUL. `adt_ary` and `adt_list` are sequences that keep insertion order and remove the first
equal element; `adt_hash` is a map. `pack.h` is little- or big-endian base 256.

The routing results hold under what the server's surroundings keep to: one provider for a signature
at a time, unqueued ports without dynamic data, a require file that is opened once, writes of whole
ports to connected providers, and a connection that delivers nothing more once it is being detached.
`RoutingRuns.Admissible` states all of this as a condition that can be evaluated before each step.

Where the code falls short of what one would expect of it, the model follows the code and lemmas give
the input and the condition:

- The codec loses values exactly as the conditions `Readable` and `Exact` of `PortRoundTrip` say;
  `EmptyDynamicArrayIsLost`, `LimitedFieldIsLost`, `WideUnsignedLimitsLoseEveryValue` and
  `StringIsCutAtNul` are examples of each kind. `DefaultRangeItemsExact` says which arrays the default
  range check lets through, though not all their items can be read.
- Written numbers come back exactly within the range that `WrittenTreeReadsBack` states.
- A queue is written as `QueueWrites` says and read back exactly if all its elements are readable
  (`QueueReads`).
- A lone first byte of a 16-bit length is used up exactly in the cases of `Num16SplitHeader`.
- Ports of equal signatures have equal sizes exactly without dynamic data (`SignatureSizeExact`).
  Equal signatures mean equal names and agreeing elements for all names that a definition can give:
  those are exactly the well-escaped ones (`ClosingQuoteExact`), and they are kept with their escapes.
  Being well escaped is sufficient, not necessary. A caller of `apx_dataElement_set_name_cstr` can give
  other names, and `QuotedNamesCollide` is a collision among those.
- The first file of a type gets an automatic address exactly as `FirstOfTypeExact` says, which rules
  out port data in both directions (`FirstFileIsRefused`). The command area is protected exactly from
  files with a right neighbour (`CommandAreaExact`, `CommandAreaLast`). A created file keeps the list in
  order exactly if it stands between its neighbours (`CreateKeepsOrder`, `WrappingSizeBreaksOrder`).

`dafny verify dfyconfig.toml` checks the whole project.

## Model

| member | source | states |
|---|---|---|
| Bytecode.SizeExact | apx/src/compiler.c:381-399 | the compiler's 32-bit size arithmetic gives the element's true size whenever that is below 2^32 |
| Compilation.CompileErrorExact | apx/src/compiler.c:220-403 | the first error met by compilation is none exactly for the elements the compiler accepts |
| Refusals.LeafRefusals | apx/src/compiler.c:220-403 | which error a leaf that does not compile gives |
| Refusals.FirstFieldRefusals | apx/src/compiler.c:637-712 | which error a record without fields, or with a bad first one, gives |
| Compilation.Compiler.CompileDataElement | apx/src/compiler.c:220-403 | the compiler object appends exactly the bytecode of the element, computes its wrapped size and sets the dynamic-data flag, or reports the first error |
| Compilation.Compiler.CompileRecordFields | apx/src/compiler.c:637-680 | the loop over record fields appends every field's select and code in order, the last one flagged, with sizes added up in 32 bits |
| Compilation.Compiler.CompileLimit | apx/src/compiler.c:405-596 | a limit instruction carries both limits in the width of the type, and types without limits are refused |
| Compilation.Compiler.CompileArraySize | apx/src/compiler.c:598-635 | array lengths take the narrowest of three encodings, with the dynamic flag |
| Compilation.Compiler.CompileRecordSelect | apx/src/compiler.c:682-712 | a record select carries the field's name and its terminator; missing and overlong names are refused |
| Compilation.Compiler.CompilePort | apx/src/compiler.c:110-190 | the compiled port is a header followed by the element's code, or the error of either |
| Formats.DataBytes | apx/include/apx/vm_defs.h:149-218 | the bytes of every data instruction: type, array flag, and length in one, two or four little-endian bytes with the dynamic flag |
| Formats.LeafProgram | apx/src/compiler.c:405-596 | limit checks, byte by byte, stand before packing and behind unpacking, the lower limit first |
| Formats.QueueHeader | apx/test/testsuite_compiler_pack.c:225-263 | the header bytes of a queue of one-byte elements |
| Formats.RecordsProgram | apx/test/testsuite_compiler_pack.c:1257-1303 | the whole program of an array of records, from header to end, for both program types |
| Decoding.DecodeCompiled | apx/src/decoder.c:234-379 | decoding a compiled program yields exactly the operation list given by recursion on the element and stops at the end of the program |
| Decoding.DecodeSelectCode | apx/src/decoder.c:493-506 | a record select decodes to its field name and last-field flag and ends behind the terminator |
| Decoding.DecodeLimitCode | apx/src/decoder.c:381-491 | a limit instruction decodes to the limits as the type stores them |
| Decoding.DecodeDataCode | apx/src/decoder.c:351-379 | a data instruction decodes to its type, array length and dynamic flag |
| Formats.DecodeExact | apx/src/decoder.c:234-506 | for every sequence of bytes and every position, what decoding gives is exactly the operation that stands there byte by byte, whoever wrote it |
| Refusals.DecodeRefusals | apx/src/decoder.c:234-506 | every other instruction is refused, as cut off or as malformed |
| Decoders.Decoder.ParseNextOperation | apx/src/decoder.c:112-139 | the decoder object moves to the operation that decoding at its position gives, or reports that function's error |
| Decoders.Decoder.RecallProgramPosition | apx/src/decoder.c:190-219 | recalling goes back to the one saved position and is refused if there is none |
| Programs.HeaderRoundTrip | apx/src/program.c:48-239 | decoding an encoded header, whatever follows it, returns type, flags, data size, element size and queue length and stops just past it |
| Formats.HeaderExact | apx/src/program.c:153-239 | for every sequence of bytes, what header decoding gives is exactly the header that stands there; element size and queue length fill the data with its length field |
| Formats.NarrowestWidths | apx/src/vm_common.c:252-291 | numbers in headers and length fields in data take the least of one, two and four bytes |
| Programs.QueueLengthRecovered | apx/src/program.c:153-239 | the queue length comes back by exact division of the data size without its length field |
| Programs.AppendHeader | apx/src/program.c:48-151 | the encoder appends the header that the specification encodes, or leaves the program alone |
| Programs.ReadHeader | apx/src/program.c:153-239 | the decoder's cursor and fields are those of the specification, error by error |
| PackLeaf.DefaultRangeItemsExact | apx/src/serializer.c:1028-1062 | the default range check of an array passes exactly if every item that can be read is in range and the last item can be read: a later item makes the loop forget a read error |
| PackRecords.RecordRuns | apx/src/serializer.c:1529-1571 | a record's part of a program writes its fields one behind the other and pops every state it pushed, at any nesting depth |
| PackRecords.FieldsRun | apx/src/serializer.c:531-551 | the select and code of all remaining fields lay out those fields and leave the record with its last one |
| PackRecords.ItemsRun | apx/src/serializer.c:841-884 | the array_next loop packs every remaining record of an array through the one saved position and ends after the last |
| PackRecords.PackProgramCorrect | apx/src/serializer.c:1360-1440 | the compiled pack program packs exactly the conforming values that fit the buffer, writes their recursive layout, moves the cursor past the full size and empties the state stack; every other value is refused |
| PackRun.LeafPacks | apx/src/serializer.c:1302-1440 | one pack instruction accepts exactly the values that fit its element and its buffer, writes their layout, ends behind the full element and pops its state; everything else stays |
| Refusals.ScalarRefusals | apx/src/serializer.c:1502-1527 | which error packing a scalar gives, if any: wrong kind, not convertible, out of range, no room, in this order |
| Refusals.NumbersRefusals | apx/src/serializer.c:1573-1612 | a fixed array of numbers: no array, wrong length |
| Refusals.StringRefusals | apx/src/serializer.c:1614-1657 | a fixed string: wrong kind, no text, no room or too long, and no other refusal |
| Refusals.BytesRefusals | apx/src/serializer.c:1659-1688 | a fixed byte array: wrong kind, wrong length, no room, and no other refusal |
| Refusals.DynamicRefusals | apx/src/serializer.c:1323-1358 | the same for dynamic arrays before their items are looked at |
| Refusals.LimitRefusals | apx/src/serializer.c:553-791 | the same for limits: no range, not convertible, outside |
| Refusals.QueueRefusals | apx/src/serializer.c:1360-1376 | full, used-up and unopened queues |
| Serialization.Serializer.PackArrayOfScalar | apx/src/serializer.c:1573-1612 | the in-place loop stores what the model stores, item by item, with its errors |
| Serialization.Serializer.PackStringValue | apx/src/serializer.c:1614-1657 | a string is copied over zeros and refused if too long |
| Serialization.Serializer.PopStates | apx/src/serializer.c:1690-1704 | finished records are left as long as each was the last field of its parent |
| Serialization.Serializer.CheckValueRange | apx/src/serializer.c:553-791 | range checks accept exactly the values within the limits, scalar or array |
| Serialization.Serializer.QueuedWriteEnd | apx/src/serializer.c:824-839 | ending a queue writes the number of elements in the room left in front of them and closes the queue, or reports that there is no queue or no room |
| Serialization.Serializer.PackElement | apx/src/serializer.c:266-529 | every packing entry point does to the object and its buffer what the value model does |
| UnpackLeaf.LoadItemsExact | apx/src/deserializer.c:1484-1519 | the array loop reads all items exactly if the buffer holds them |
| UnpackLeaf.FoldPopWorks | apx/src/deserializer.c:1571-1614 | folding a finished value into its parents succeeds through any number of last fields |
| UnpackRun.RecordReads | apx/src/deserializer.c:1460-1482 | a record's part of an unpack program yields the record that recursion reads, and fails exactly when there is none |
| UnpackPort.ItemsRead | apx/src/deserializer.c:662-708 | the array_next loop reads every remaining record and collects them in order |
| UnpackPort.TopCheckExact | apx/src/deserializer.c:422-660 | a top-level limit check accepts exactly what the stated condition accepts, wrap-around of unsigned limits included |
| UnpackPort.UnpackProgramCorrect | apx/src/deserializer.c:1337-1416 | on every buffer of any content the compiled unpack program ends with the value that recursion on the element reads, and fails exactly when there is none |
| UnpackLeaf.LeafUnpacks | apx/src/deserializer.c:1337-1447 | one unpack instruction reads exactly the value that recursion on the element reads at the cursor, ends behind the full element, or fails when there is none |
| Refusals.UnpackRefusals | apx/src/deserializer.c:1337-1447 | which error unpacking gives for too little data, for a length beyond the capacity and for an empty dynamic array |
| Deserialization.Deserializer.PopStates | apx/src/deserializer.c:1571-1614 | the loop moves the finished value into its parents as the fold says |
| Deserialization.Deserializer.UnpackArrayOfScalar | apx/src/deserializer.c:1484-1519 | the loop collects exactly the items the model loads, or stops with its error |
| Deserialization.Deserializer.UnpackString | apx/src/deserializer.c:1521-1558 | a fixed string ends at its first NUL but uses up its whole room; a dynamic one keeps all bytes |
| Queues.ReadQueuedAll | apx/src/deserializer.c:737-762 | unpacking element by element up to the one flagged as last gives all that are left in the queue, in order, or fails exactly if one of them is not readable |
| Layouts.CutAtNulIs | apx/src/deserializer.c:1521-1558 | what is read of a fixed string is its part before the first NUL, whatever follows |
| Readings.ReadExact | apx/src/deserializer.c:1337-1416 | for every element and every buffer, what recursion on the element reads is exactly the value that the bytes show: little-endian two's complement numbers, characters, booleans, strings up to a NUL, lengths in front of dynamic arrays, items and fields one behind the other, and of a limited port a value that its limits allow |
| Readings.AllowedExact | apx/src/deserializer.c:422-660 | limits allow the numbers between them, 32-bit unsigned ones in the order of signed numbers, no 64-bit unsigned one from 2^63 on, and arrays of at most 32 bits only |
| Readings.ScalarReadExact | apx/src/deserializer.c:944-1046 | of every type exactly one value is shown by every bytes of its size |
| Readings.StoredShows | apx/src/serializer.c:1720-1785 | the bytes stored for a scalar show it, and true is stored as 1 |
| Bytes.ByteOrder | apx/src/serializer.c:1720-1785 | byte i of a packed number is its digit of 256^i; big-endian is the same backwards |
| RoundTrips.FieldRoundTrip | apx/src/deserializer.c:1337-1416 | reading the layout of any value of a field gives its canonical form exactly when it is readable |
| PortRoundTrips.ReadLayout | apx/src/deserializer.c:1337-1416 | the same for whole ports, arrays of records and limits included |
| PortRoundTrips.ExactCanon | apx/src/deserializer.c:1521-1558 | the canonical form is the value itself exactly for the stated exact values |
| PortRoundTrips.FieldOffset | apx/src/compiler.c:381-399 | a field's bytes lie at the sum of the sizes before it, for every value |
| PortRoundTrips.LimitReadableExact | apx/src/deserializer.c:482-540 | values within their limits pass the unpack-side check exactly under the stated condition on the limits |
| PortRoundTrips.PortRoundTrip | apx/src/vm.c:242-335 | compiled pack program, then compiled unpack program, on one buffer: the value comes back exactly when it is readable and exact, and the run fails exactly when it is not readable |
| PortRoundTrips.EmptyDynamicArrayIsLost | apx/src/deserializer.c:1353-1358 | an empty dynamic array packs and does not unpack |
| PortRoundTrips.LimitedFieldIsLost | apx/src/compiler.c:371-377 | a limited record field packs and does not unpack |
| PortRoundTrips.WideUnsignedLimitsLoseEveryValue | apx/src/deserializer.c:482-540 | unsigned limits on either side of 2^31 refuse every packed value |
| PortRoundTrips.StringIsCutAtNul | apx/src/deserializer.c:1521-1558 | a fixed string with a NUL inside comes back shortened |
| Vms.Vm.RunPackProgram | apx/src/vm.c:242-287 | the dispatch loop over the objects is the run of the model |
| Vms.Vm.RunUnpackProgram | apx/src/vm.c:289-335 | the same for unpack programs |
| Vms.Vm.PackPort | apx/src/vm.c:163-180 | compile, select, pack: accepted exactly for conforming values that fit, and the buffer then holds the layout |
| Vms.Vm.UnpackPort | apx/src/vm.c:182-211 | compile, select, unpack: exactly the value that the bytes show, or an error if they show none |
| Queues.QueueWrites | apx/src/serializer.c:793-839 | a cleared queue of capacity n takes k elements exactly if k is at most n, all fit and the buffer has room for them and their number, and stores them in order behind that number |
| Queues.QueueReads | apx/src/deserializer.c:710-762 | a written queue gives back its elements first in, first out, all of them, with the last one flagged, exactly if it has any and all are readable; otherwise reading it fails |
| Queues.PackQueued | apx/src/serializer.c:1360-1440 | packing into an active queue is packing without one, unless the queue is full |
| Queues.UnpackQueued | apx/src/deserializer.c:1337-1416 | unpacking from an active queue is unpacking without one, until it is used up |
| Routing.TotalSizeGrows | apx/src/node_manager.c:387-468 | with running offsets a port ends before the next one begins |
| Routing.AttachPairs | apx/src/port_signature_map_entry.c:220-313 | notifying the other side about an attached port adds exactly the couples it becomes part of, each once |
| Routing.DetachPairs | apx/src/port_signature_map_entry.c:220-313 | detaching adds exactly the couples it leaves, once, also when both ends detach in the same batch |
| Routing.PairRecorded | apx/src/port_signature_map_entry.c:220-313 | the two entries of a couple mirror each other: the tables of both sides record the same pairs and nothing else |
| Routing.TableCreated | apx/src/node_instance.c:831-863 | creating a change table on demand records nothing and lists its node as modified |
| Routing.MapAttached | apx/src/port_signature_map.c:200-228 | attaching keeps the signature map exact: lists of exactly the attached ports of a signature, entries exactly for those that are not empty |
| Routing.MapDetached | apx/src/port_signature_map.c:285-328 | detaching keeps it exact, deleting the entry that becomes empty |
| RoutingServers.Server.RecordCouple | apx/src/port_signature_map_entry.c:220-313 | the loop body adds one couple to both sides' tables, require port first |
| RoutingServers.Server.Notify | apx/src/port_signature_map_entry.c:220-313 | the notify loops add all couples of a port, and cannot fail within a connect-only or detach-only batch |
| RoutingServers.Server.Insert | apx/src/port_signature_map.c:200-228 | a port is attached, its couples recorded, the map stays exact |
| RoutingServers.Server.Remove | apx/src/port_signature_map.c:285-316 | a port is detached, its lost couples recorded, the map stays exact |
| RoutingServers.Server.ConnectPorts | apx/src/port_signature_map.c:156-198 | connecting a side attaches all its ports and records exactly the new couples |
| RoutingServers.Server.DisconnectPorts | apx/src/port_signature_map.c:240-282 | disconnecting a side detaches all its ports and records exactly the lost couples |
| RoutingServers.Server.ClearChanges | apx/src/server.c:481-499 | after a batch no node has a change table and the list of modified nodes is empty |
| RoutingServers.Server.Join | apx/src/node_instance.c:937-989 | a receiver is listed once and holds the provider's bytes; all other receivers and bytes stay as they were |
| RoutingServers.Server.RoutePortData | apx/src/node_instance.c:1604-1661 | the provider's bytes are copied to the receiver's place, or unequal sizes refused |
| RoutingServers.Server.ProcessProvideChanges | apx/src/server.c:390-443 | exactly the recorded receivers of a provider are connected and given its bytes |
| RoutingServers.Server.ProcessRequireChanges | apx/src/server.c:347-385 | exactly the recorded providers of a requester are connected and its bytes filled in |
| RoutingServers.Server.OpenRequireFile | apx/src/node_instance.c:1163-1211 | opening a require file connects the side, keeps the invariant and changes nothing else |
| RoutingServers.Server.ConnectProvidePorts | apx/src/node_instance.c:1325-1349 | a provider's first write connects the side, keeps the invariant and changes nothing else |
| RoutingServers.Server.WriteProvidePortData | apx/src/node_instance.c:1313-1372 | the outcome of a provider's write in every data state, errors included, and the invariant |
| RoutingServers.Server.RouteProvideData | apx/src/node_instance.c:1521-1587 | a write spanning any number of whole ports gives each receiver of each written port that port's bytes, and touches nothing else |
| RoutingServers.Server.DetachNodes | apx/src/server_connection.c:537-704 | first phase of a detach: the nodes leave the map, every broken couple is recorded once and mirrored in the tables taken along, and the invariant holds |
| RoutingServers.Server.FinishProvider | apx/src/server_connection.c:706-725 | second phase for a provider: only its first list is cleared, the invariant holds |
| RoutingServers.Server.HandleRequirePortsDisconnected | apx/src/node_instance.c:889-934 | the recorded provider of each require port loses it as a receiver, and nobody else |
| RoutingServers.Server.FinishRequester | apx/src/server_connection.c:727-746 | second phase for a requester: it is off every list it was pending for, and disconnected |
| RoutingData.HeldAfter | apx/src/node_instance.c:1663-1672 | writing one port's bytes changes what that port holds and no other |
| RoutingData.OnePartner | apx/src/server.c:347-385 | with unique providers a require port's change entry has one partner at most |
| RoutingData.JoinedDelivering | apx/src/node_instance.c:937-989 | one more delivered couple keeps every attached receiver equal to its provider |
| RoutingInvariant.ConnectingKeeps | apx/src/node_instance.c:1502-1519 | attaching a side keeps everything that does not depend on delivery |
| RoutingInvariant.DeliveredKeeps | apx/src/server.c:347-443 | once all new couples are delivered the whole invariant holds again |
| RoutingInvariant.QuiescentRouting | apx/src/server_connection.c:537-580 | with no detach under way each connected provider's list holds exactly the connected require ports of its signature, each once, and all hold its bytes |
| RoutingWrites.RoutedKeeps | apx/src/node_instance.c:1521-1587 | a routed write keeps the invariant, data coherence included |
| RoutingWrites.RouteStep | apx/src/node_instance.c:1534-1580 | at a port boundary the byte map names the port that begins there, and stepping by its size reaches the next boundary |
| RoutingDetach.DetachedKeeps | apx/src/server_connection.c:582-704 | gathering the tables of detached nodes keeps the invariant, lost receivers being pending |
| RoutingDetach.DetachedOutcome | apx/src/server_connection.c:624-704 | the gathered tables record exactly the broken couples; connected sides without one are disconnected at once |
| RoutingDetach.ProviderFinishedKeeps | apx/src/node_instance.c:1067-1075 | clearing a detached provider's first list keeps the invariant |
| RoutingDetach.ProviderFinishedOutcome | apx/src/node_instance.c:1067-1075 | afterwards the first list of the provider is empty, it is disconnected, and all other lists and nodes are as they were |
| RoutingDetach.UnlistedKeeps | apx/src/node_instance.c:1592-1602 | taking one pending receiver off its provider's list keeps the invariant, other steps having run in between |
| RoutingDetach.RequesterFinishedKeeps | apx/src/server_connection.c:727-746 | with all entries processed the requester may be disconnected |
| RoutingRuns.CoherentAlways | apx/src/node_instance.c:1604-1661 | between any two steps, also amid a detach, a connected pair is listed and its bytes are equal |
| RoutingRuns.AdmissibleExact | apx/src/server.c:375-379 | what is asked of the surroundings before a step can be evaluated on the server's own tables: no provider listed for a signature of the node, exactly when attaching it leaves providers unique |
| RoutingRuns.DoesEffect | apx/src/node_instance.c:1313-1372 | each kind of step in terms of single fields: which states, bytes, lists, attached ports and gathered tables it changes, and how; everything else stays |
| RoutingRuns.Step | apx/src/server.c:308-342 | every admissible step keeps the invariant and changes exactly what its kind of step names |
| RoutingRuns.Run | apx/src/server_connection.c:537-580 | in every world of every run, whatever the order of whole steps, connected pairs are listed and hold equal bytes; whenever no detach is under way routing is exact; only writes report errors, in a state that expects none or past the node's data |
| BytePortMaps.PortAtExact | apx/src/byte_port_map.c:112-119 | the port of a byte is the one whose range holds it; bytes past the data have none |
| BytePortMaps.BytePortMap.constructor | apx/src/byte_port_map.c:135-165 | the nested loops fill a map as long as the data with the port of every byte |
| BytePortMaps.BytePortMap.Lookup | apx/src/byte_port_map.c:112-119 | looking up any offset gives that port, or none past the end |
| BytePortMaps.PlacePorts | apx/src/node_manager.c:399-452 | running offsets place every port at the sum of the sizes before it |
| PortConnectorChanges.ChangeEntry.AddConnection | apx/src/port_connector_change_entry.c:99-142 | a partner is added whatever the representation, unless the entry records disconnections |
| PortConnectorChanges.ChangeEntry.RemoveConnection | apx/src/port_connector_change_entry.c:147-190 | the same for disconnections, counted downwards |
| PortConnectorChanges.ChangeEntry.Get | apx/src/port_connector_change_entry.c:192-213 | partners by index, for either sign and representation |
| PortConnectorChanges.ChangeTable.constructor | apx/src/port_connector_change_table.c:51-69 | a new table holds one empty entry for each port |
| PortConnectorChanges.ChangeTable.Connect | apx/src/port_connector_change_table.c:108-119 | one entry takes the partner, all others stay |
| PortConnectorChanges.ChangeTable.Disconnect | apx/src/port_connector_change_table.c:121-132 | the same for disconnections |
| PortConnectorChanges.ChangeTable.GetPort | apx/src/port_connector_change_table.c:143-150 | the partners of one entry by index, or none |
| Signatures.SignatureExact | apx/src/port_instance.c:318-386 | for all names that definitions can give, two signatures are equal exactly if the names are equal and the elements agree up to the capacity of dynamic arrays |
| Initializers.ClosingQuoteExact | apx/src/parser_base.c:94-97 | what can stand between two quotes, in field names, port names and initial values, are exactly the well-escaped texts, and where a text ends is determined |
| Signatures.ElementUnique | apx/src/data_element.c:840-947 | an element's normalised text determines the element and where it ends, for all field names that definitions can give |
| Signatures.TextExact | apx/src/data_element.c:840-947 | two texts are equal exactly for elements that agree; a text that is not normalised tells everything, capacities of dynamic arrays included |
| Signatures.TextExists | apx/src/data_element.c:999-1031 | an element has a text exactly if its limits are those of numbers and bytes |
| Signatures.CompiledHasText | apx/src/compiler.c:220-403 | everything that compiles has one |
| Formats.KnownTexts | apx/test/testsuite_data_element.c:160-185 | the texts of an array with limits and of its dynamic form |
| Signatures.LimitsUnique | apx/src/data_element.c:999-1031 | the text of limits determines both limits |
| Signatures.EqualSignatureEqualSize | apx/src/node_instance.c:1611-1613 | ports without dynamic data that share a signature have equal compiled sizes |
| Signatures.DeclaredSizes | apx/src/port_instance.c:402-429 | so ports declared by elements meet what routing asks of signatures |
| Signatures.ToString | apx/src/data_element.c:840-947 | the loop that appends to a string produces the text of the specification, or nothing |
| Signatures.SignatureSizeExact | apx/src/data_element.c:1033-1057 | a signature determines the size of its ports exactly if there is no dynamic data: every compilable element with dynamic data shares its signature with one of another size |
| Signatures.AgreeCompiles | apx/src/compiler.c:220-403 | the compiler accepts that other element as well, if its size still fits 32 bits |
| Signatures.DynamicCapacityIsLost | apx/src/data_element.c:1033-1057 | for example byte arrays of capacities 10 and 300 |
| Signatures.QuotedNamesCollide | apx/src/data_element.c:840-947 | with a bare quote in a field name, which apx_dataElement_set_name_cstr can give it but no definition, two different records share a signature |
| Headers.Num32RoundTrip | apx/src/numheader.c:129-182 | every length up to the maximum comes back, whatever follows it |
| Headers.Num32Wire | apx/src/numheader.c:129-152 | the bytes of a length: itself up to 127, else four bytes, most significant first, with the first bit set |
| Headers.ReadNum32Exact | apx/src/numheader.c:154-182 | what every sequence of bytes is read as, and exactly when it is incomplete |
| Headers.Num16RoundTrip | apx/src/numheader.c:58-127 | the same for the 16-bit pair with its wrapped range |
| Headers.Num16Wire | apx/src/numheader.c:58-86 | the bytes of a 16-bit length, with 2^15 taken off numbers beyond it |
| Headers.ReadNum16Exact | apx/src/numheader.c:95-127 | what every sequence of bytes is read as |
| Headers.Num16SplitHeader | apx/src/numheader.c:95-127 | a lone first byte is used up exactly for numbers that need two |
| Headers.EncodeNum32 | apx/src/numheader.c:129-152 | the encoder writes exactly the header in place, or leaves the buffer alone |
| Headers.AddressRoundTrip | apx/src/remotefile.c:63-121 | every address of up to 30 bits comes back with its more bit, whatever follows it |
| Headers.AddressWire | apx/src/remotefile.c:63-91 | the bytes of an address: two or four, most significant first, with the bit that tells the form and the more bit |
| Headers.ReadAddressExact | apx/src/remotefile.c:93-121 | what every sequence of bytes is read as, and exactly when it is incomplete |
| Headers.EncodeAddress | apx/src/remotefile.c:63-91 | the encoder writes exactly the address header in place, or leaves the buffer alone |
| Receivers.Receiver.Write | apx/src/file_manager_receiver.c:131-159 | a fragment starts, continues or completes a reception as the model says; a refused one changes nothing |
| Receivers.ReceiveExact | apx/src/file_manager_receiver.c:131-222 | which fragments are taken, and what they make of the reception: exactly those that begin a message, or continue the current one where it ends, and fit |
| Receivers.Receiver.ProcessMoreBit | apx/src/file_manager_receiver.c:224-234 | the last fragment delivers the message and makes room for the next |
| Transport.StepProgress | apx/src/client_connection.c:370-427 | every turn of the loop uses up at least one byte or stops, and stops exactly at an incomplete message |
| Transport.ChunkingIndependence | apx/src/client_connection.c:207-243 | a stream cut anywhere, the unparsed tail kept each time, gives the same messages, state, tail and error as one call on the whole stream |
| Transport.FeedExhausts | apx/src/server_connection.c:202-238 | the tail a call leaves behind holds no complete message |
| Transport.FragmentsFeed | apx/src/file_manager.c:207-240 | the fragments still to come complete the message, or overflow the receive buffer |
| Transport.EndToEnd | apx/src/file_manager.c:356-367 | from the first byte of a connection, a greeting and then messages fragmented, address-encoded, framed and delivered in any chunks: the greeting reaches its check only, each message leads to one call, in order, commands at 0x3FFFFC00 to the command handler and writes below it to the file handler with address and data, nothing is left over, and an address above it is an error |
| Transport.ChunksDispatch | apx/src/server_connection.c:427-485 | for any application, such messages in any chunks are dispatched each once and in order, up to its first error |
| Transport.TooLargeIsRefused | apx/src/file_manager_receiver.c:191-222 | a message larger than the receive buffer breaks the connection |
| Transport.MalformedIsRefused | apx/src/file_manager.c:207-240 | a message without a whole address header, or whose fragment is not taken, breaks the connection with that error |
| Transport.Connection.OnDataReceived | apx/src/client_connection.c:207-243 | the connection object returns the bytes used up and ends in the state of the model, or fails with its error |
| Transport.Connection.ParseOne | apx/src/server_connection.c:427-485 | one message is parsed and delivered, or nothing happens while it is incomplete |
| FileMaps.PlacedByAddress | apx/src/file_map.c:339-403 | a file with its own address, or the first of its type, stops at the assertion exactly if a file before it reaches into its address, is refused exactly if none does but one at or behind it leaves no room or the file would enter the command area in front of another, and is created otherwise |
| FileMaps.LastOfTypeExact | apx/src/file_map.c:295-337 | the file found is the last of the first run of its type, and there is one exactly if some file has the type |
| FileMaps.PlacedBehindRun | apx/src/file_map.c:243-337 | a file that continues the first run of its type gets the least aligned address behind every file of that run; it is created exactly if that address is inside the address space and, when files lie behind the run, it ends before all of them and before the command area |
| FileMaps.CreateKeepsOrder | apx/src/file_map.c:92-129 | a created file is added and no other changed; the list stays sorted with ranges apart exactly if the file stands between its neighbours, which it does unless 32-bit sums wrap behind a run; and all files stay inside the address space exactly if it does |
| FileMaps.CreatedAddress | apx/src/file_map.c:92-129 | a created file begins at its own address, at the start address of its type, or at the least aligned address behind every file of the first run of its type; it carries the remote bit exactly in a remote map, and nothing else of it is changed |
| FileMaps.AutomaticAddresses | apx/test/testsuite_file_map.c:62-93 | where the first and the second file of every type lie in a map of their own |
| FileMaps.AlignedUpLeast | apx/src/file_map.c:275-280 | rounding up gives the least aligned address that is not smaller, unless the 32-bit sum wraps |
| FileMaps.FindOnly | apx/src/file_map.c:142-171 | at most one file holds an address, so the cache cannot change what is found |
| FileMaps.FileMap.CreateFile | apx/src/file_map.c:92-129 | on every map and for every file: the file is inserted as specified, refused with the map unchanged, or the assertion about its left neighbour stops it; and a map in order stays so exactly if the file stands between its neighbours |
| FileMaps.FileMap.InsertItem | apx/src/file_map.c:367-403 | insertion behind the given neighbour, with the assertion and the checks the source makes there |
| FileMaps.FileMap.FindLastElementOfType | apx/src/file_map.c:295-337 | the two loops find the last file of the first run of the type |
| FileMaps.FileMap.FindByAddress | apx/src/file_map.c:142-171 | with its cache it finds a file exactly when a plain linear search does, and the same one in every map in order |
| FileMaps.FileMap.FindByName | apx/src/file_map.c:173-202 | with its cache it finds some file of the name, the first one if names are unique |
| FileMaps.FileMap.RemoveFile | apx/src/file_map.c:131-140 | one occurrence is removed and the cache forgotten, or the file is not found |
| FileMaps.FirstOfTypeExact | apx/src/file_map.c:243-293 | the first file of a type gets an automatic address exactly if no file before the start of the type reaches into it and none behind is in its way |
| FileMaps.FirstFileIsRefused | apx/src/file_map.c:92-129 | so once any file begins at the start address of a type, no first file of that type with a size is created: with a provide file at address 0 no first require file gets an automatic address, nor the other way round |
| FileMaps.CommandAreaExact | apx/src/file_map.c:367-403 | a file that has its own address or is the first of its type and would reach into the command area is created exactly if no file lies at or behind it and none reaches into it |
| FileMaps.CommandAreaLast | apx/src/file_map.c:367-403 | wherever its address comes from, a created file that reaches into the command area is the last of the list |
| FileMaps.CommandAreaIsNotProtected | apx/src/file_map.c:367-403 | for example a file at the start of the command area in an empty map |
| FileMaps.WrappingSizeBreaksOrder | apx/src/file_map.c:243-293 | an example of a file whose 32-bit end wraps and which is created out of order |
| Initializers.WrittenTreeReadsBack | apx/src/attribute_parser.c:322-357 | however a tree is written, numbers being decimal, octal or hexadecimal with digits of either case and white space standing around every item, its text is consumed to its end and not further, and the tree comes back unchanged exactly when its numbers lie in [-2^31, 2^32-1] |
| Initializers.WrittenPlainly | apx/src/attribute_parser.c:602-693 | every tree of set scalars and well-escaped texts can be written so |
| Initializers.StrToULExact | apx/src/attribute_parser.c:771-798 | a numeral in any base, behind white space and a sign or none, is read to its value, saturated or negated modulo 2^64, and to its end |
| AttributeParsers.AttributeParser.Parse | apx/src/attribute_parser.c:322-357 | on every text the parser object returns exactly what the recursive grammar gives |
| AttributeParsers.AttributeParser.ParseInitializerList | apx/src/attribute_parser.c:602-693 | the loop with its explicit stack leaves the grammar's value in the current state |
| AttributeParsers.AttributeParser.HandleValue | apx/src/attribute_parser.c:620-686 | the value handler that the source jumps back to, through any number of closing braces |
| AttributeParsers.AttributeParser.PushValueToParent | apx/src/attribute_parser.c:695-717 | the value moves from the current state to the list of its parent |
| AttributeParsers.AttributeParser.ParseScalar | apx/src/attribute_parser.c:719-769 | one scalar as the grammar reads it, or nothing |

## Left out

- PortRoundTrips.PortRoundTrip: elements of 2^32 bytes and more, whose size the compiler wraps.
- RoutingServers.Server.WriteProvidePortData: writes that cover part of a port, for which the routing loop reads beyond the written bytes.
- RoutingServers.Server.OpenRequireFile: several providers of one signature, for which the source returns "not implemented", and a second opening of one file, which attaches its ports twice.
- RoutingRuns.Run: steps that overlap. A connected provider's write (node_instance.c:1361-1369, 1521-1587) takes its node's lock only for the routing loop and never the global lock, and the delivery when a require file is opened (node_instance.c:951-965) reads and writes bytes after that node's lock was released; both are whole steps here.
- RoutingServers.Server.FinishProvider: the second and later lists of a detached provider stay as they are; no statement is made about them, since its ports are not attached.
- BytePortMaps.PlacePorts: nodes with 4 GiB of port data and more, whose offsets wrap.
- Vms.Vm.RunPackProgram: the number of operations of a run is a ghost parameter, since programs of other origin need not end.
- Receivers.Receiver.Reserve: a buffer that grows in the middle of a reception, where only the position is kept.
- Type references: elements that name other types, and the derivation of types and initial values.
- Dynamic arrays of records, and arrays of records inside records: the source refuses the former, and its single saved position and `array_next` do not support the latter.
- The limit-check variant that is declared but never generated, and unterminated field names, with which the decoder reads on behind the program.
- Appending to an existing queue: its length is never read back successfully. Queued records count every leaf.
- State left behind after an error or a failed run, such as states still on a stack.
- The range-check result that a read state stores, and the distinction between signed and unsigned tags of values, which nothing reads.
- Sending: data for clients, acknowledgements, error codes and snapshots; sends succeed.
- `preferred_provider`, which routing never reads, and the connector list type, which is a sequence here.
- Reference counts, destructors and failing allocations; sockets, threads and locks, beyond which steps there are.
- A greeting that is rejected without an error code, and the text of greetings.
- Rational scaling, value tables, the line parser, client, event loop, listeners and extensions.
- The publish-file command and file info accessors.
