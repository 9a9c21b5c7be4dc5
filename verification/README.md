# mosproxy, modelled in Dafny

mosproxy is a DNS proxy. This project models the parts of it whose correctness spans many
functions or many interleavings, and proves what they are for:

- **The message codec** (`pkg/dnsmsg`). Names are their wire bytes. `NameWire.Expand` is an
  independent decoder written from section 4.1.4 of RFC 1035, with a budget of pointers and of
  room. Packing is a function of the bytes and the compression map so far; the methods over the
  mutable map and buffer are proved equal to it, including the patched RDLENGTH and header. The
  results are the compression invariant, round trips (with the exact condition under which a
  packed message comes back), normalisation of everything `Unpack` accepts, exact and bounded
  lengths, and what a size limit does and does not guarantee.
- **The domain matcher** (`internal/domain_matcher`). Rules are a map from paths to data. The
  trie, the compiler to sorted arrays, the binary search, the serializer and the validator are
  imperative, in the source's own form, and every one of them is proved to keep the answers of the
  rule map, for every order in which Go iterates its maps.
- **The connection pool and the pipelined connection** (`internal/connpool`,
  `internal/upstream/transport/pipeline_conn.go`). One step per critical section, any number of
  users, any interleaving. The methods of the classes are proved to take exactly these steps.
- **Health checks and the load balancer** (`app/router/upstream.go`, `app/router/upstream_lb.go`).
  The health state is a function of the history of results; rebuilds of the index run while more
  results come in; the weighted choice is exact.
- **Address ranges** (`internal/netlist`, `app/router/ip_set.go`). The sorted index against a scan,
  and CIDR prefixes against their ranges, bit by bit.

## Layout

| files | about |
|---|---|
| `Wrappers`, `WireBytes`, `ByteOrder` | options and results, big-endian numbers, the order of byte strings |
| `NameWire`, `NameCompression`, `NameText`, `NameCodec` | names: wire form and decoder, compression, text form, the methods |
| `Records`, `RecordRoundTrip`, `RecordCodec` | questions and records as lists of fields, their round trip, the methods |
| `Messages`, `MessageRoundTrip`, `MessageLengths`, `PointerChains`, `SizeLimitGaps`, `MsgCodec` | messages: meaning, round trips, lengths and limits, the two places where the code falls short, the methods |
| `Transport` | the request buffers that rely on exact lengths |
| `DomainTrie`, `CompiledTrie`, `TrieSizes`, `TrieCompiler`, `TrieSerializer` | rules and trie, search in the arrays, section sizes, the compiler, the file format |
| `ConnPool`, `ConnPoolMethods` | the pool as a state machine, and its methods |
| `PipelineConn` | query ids and response routing |
| `UpstreamHealth`, `LoadBalancer`, `HealthSampler` | health state, sampler, and both at work at once |
| `Netlist`, `Cidr` | the range index, and address sets from prefixes |

The project is the `.dfy` files of this directory, as `dfyconfig.toml` says.

## Where the code and its description differ

The model follows the code in each case.

- `Pack` says a size limit is an upper bound. The eleven bytes of the OPT record's own header are
  not reserved: `MessageLengths.SizeLimitPlain` says exactly when the limit holds, and
  `SizeLimitGaps.HeaderNotReserved` that every limit can be exceeded by all of them. An OPT body
  at least as long as the limit turns the limit off altogether (`MessageLengths.SizeLimitVoid`,
  `SizeLimitGaps.LimitSwitchedOff`). With room for `MaxPackLen` the limit always holds
  (`MessageLengths.RoomyLimit`). Reaching the limit does not stop packing either: later records
  that fit are still written, and the truncated flag is set on a copy of the header that is never
  used.
- Compression emits chains of pointers of any length, and unpacking follows ten. `RoundTrip` gives
  the exact condition, and `PointerChains.NestedRoundTrip` a family of messages that stop coming
  back at twelve nested names.
- `unpack` accepts names of 254 wire bytes, `Parse` accepts 255.
- The comment on `AppendReadableTo` speaks of an error result; there is none. The root name is only
  written as a dot when the destination is empty.
- The cache of labels that `Compile` passes along is never filled, so every occurrence of a label is
  stored (`TrieCompiler.Compile` says when that is too much).
- The comment on `ListBuilder.Add` says it refuses ranges whose start is below their end. It refuses
  those whose start is above it.
- `Status` and `Reserve` of a pipelined connection disagree about the last query id, so that a
  connection may promise any number of ids (`PipelineConn.EndlessPromises`). It keeps its promises
  exactly while they are at most 65536 (`PipelineConn.PromisesAreKept`), and the shortest way to
  break one is two callers at the last id (`PipelineConn.TwoPromises`,
  `PipelineConn.LastIdIsPromisedTwice`).
- The pool's search looks at five live busy connections, although the constant is four, and may miss
  an available one. `ConnPool.SearchMisses` says exactly when some order of the map lets it.
- A matcher file that ends within its label section is accepted when it has no regular expressions,
  and its labels are checked against the length that was announced, not against what was read. So
  validation does not always give an index that is safe to search:
  `TrieSerializer.MissingLabelPasses` is such a file, and `TrieSerializer.AcceptedIsSafe` says
  exactly which accepted files are safe.

## Model

| member | source | states |
|---|---|---|
| NameWire.LabelsRoundTrip | pkg/dnsmsg/name.go:270-285 | the labels that parseLabels cuts out of a finished name give the wire form back |
| NameWire.FromLabelsRoundTrip | pkg/dnsmsg/name.go:270-285 | any labels of 1 to 255 bytes written one after the other are found again by parseLabels |
| NameWire.ValidIffShortLabels | pkg/dnsmsg/name.go:251-268 | a finished name is one that RFC 1035 allows exactly when no label is longer than 63 bytes |
| NameWire.ExpandIsValid | pkg/dnsmsg/name.go:130-197 | whatever decodes is a name of labels of 1 to 63 bytes within the room given, and its place in the message ends inside the message |
| NameCodec.Name.Decode | pkg/dnsmsg/name.go:146-191 | the decoding loop terminates on every input and gives the bytes, the next offset or the error of the decoder of section 4.1.4 of RFC 1035 with ten pointers and 254 bytes |
| NameCodec.Name.Unpack | pkg/dnsmsg/name.go:130-197 | a dirty name is refused untouched; otherwise the decoded name, its labels and the offset after it, or the decoder's error |
| NameCodec.Name.ParseLabels | pkg/dnsmsg/name.go:270-285 | succeeds exactly on a finished name, and then appends exactly its labels |
| NameCodec.PackName | pkg/dnsmsg/name.go:70-106 | the buffer behind the message offset and the map become exactly what PutName says, with pointers relative to that offset; the same errors |
| NameCodec.PackNameLen | pkg/dnsmsg/name.go:108-126 | the predicted length of a name under the map, or the error packing it would give |
| NameCompression.AppendKeepsInv | pkg/dnsmsg/name.go:70-106 | whatever bytes are appended, every recorded suffix still decodes at its offset |
| NameCompression.PutNameKeepsInv | pkg/dnsmsg/name.go:70-106 | packing a valid name succeeds and keeps the invariant that every recorded suffix lies at an earlier offset where a decoder finds exactly it, following fewer pointers than it has labels; the name written decodes to itself with exactly the counted number of pointers |
| NameCompression.ExpandGrow | pkg/dnsmsg/name.go:130-197 | what was decoded decodes the same after the message has grown |
| NameCompression.PutNameEnd | pkg/dnsmsg/name.go:189-196 | the decoder's next offset after a packed name is where packing stopped |
| NameCompression.NameLenIsExact | pkg/dnsmsg/name.go:108-126 | packLen predicts exactly what pack appends, and both fail alike, for every map |
| NameCompression.NameLenShrinks | pkg/dnsmsg/name.go:108-126 | with more suffixes in the map the predicted length never grows |
| NameCodec.Name.Parse | pkg/dnsmsg/name.go:295-361 | the loop over the text, with its label buffer and escapes, computes exactly Parsed, and leaves the labels of the name |
| NameCodec.Name.AppendLabel | pkg/dnsmsg/name.go:251-268 | one label is appended, or refused when it is empty, longer than 63 bytes or makes the name longer than 255 |
| NameCodec.DecodeDDD | pkg/dnsmsg/utils.go:99-118 | the three-digit escape gives its byte, and nothing for other characters or numbers above 255 |
| NameCodec.AppendEscapedLabel | pkg/dnsmsg/name.go:226-249 | each byte of the label is appended as itself, as an escaped dot or backslash, or as three digits |
| NameCodec.Name.AppendReadableTo | pkg/dnsmsg/name.go:212-224 | the escaped labels joined by dots behind the destination, and a dot only when all of it is empty |
| NameText.ReadableParses | pkg/dnsmsg/name.go:212-249 | parsing the readable form of any valid name up to 255 bytes, with any label bytes, gives the name back (escapes of section 5.1 of RFC 1035) |
| NameText.ParsedReadsBack | pkg/dnsmsg/name.go:295-361 | whatever text is accepted gives a valid name of at most 255 bytes, which its readable form gives again |
| Records.BodyOfFields | pkg/dnsmsg/rr.go:552-588 | the body made from the fields that packing a body writes is that body, for every kind that matches its type |
| Records.HdrOfFields | pkg/dnsmsg/rr.go:34-75 | the header made from the fields that packing a header writes is that header with the length written |
| Records.QuestionOfFields | pkg/dnsmsg/question.go:43-83 | the question made from the fields that packing it writes is that question |
| RecordRoundTrip.FieldsRoundTrip | pkg/dnsmsg/rr.go:237-285 | fields packed one after the other read back as themselves and end where packing ended, exactly when every name fits the limits of unpacking; the invariant is kept |
| RecordRoundTrip.PutWithLengthIsExact | pkg/dnsmsg/rr.go:502-521 | writing the header with length zero, then the body, then patching the length gives what writing the final length at once gives |
| RecordRoundTrip.ItemRoundTrip | pkg/dnsmsg/rr.go:502-521 | a question or record that was packed reads back, up to Length, exactly when its names fit; its compression targets survive the patched length |
| RecordCodec.PackQuestion | pkg/dnsmsg/question.go:43-51 | appends exactly what PutItem says of the question |
| RecordCodec.PackHdr | pkg/dnsmsg/rr.go:63-75 | appends exactly the header's fields with the given length |
| RecordCodec.PackBody | pkg/dnsmsg/rr.go:109-480 | appends exactly the body's fields, for each of the seven body kinds |
| RecordCodec.PackSoa | pkg/dnsmsg/rr.go:237-252 | appends two names and five numbers in order |
| RecordCodec.PackRR | pkg/dnsmsg/rr.go:502-521 | the record with its length patched in place is exactly PutItem of the record; a body over 65535 bytes is an error |
| RecordCodec.PackRRLen | pkg/dnsmsg/rr.go:523-541 | the predicted length of header and body under the map, with the errors of either |
| RecordCodec.QuestionPackLen | pkg/dnsmsg/question.go:13-22 | the predicted length of a question under the map |
| RecordCodec.HdrPackLen | pkg/dnsmsg/rr.go:77-83 | the predicted length of a record header under the map |
| RecordCodec.BodyPackLen | pkg/dnsmsg/rr.go:125-500 | the predicted length of a body under the map |
| RecordCodec.UnpackHdr | pkg/dnsmsg/rr.go:34-61 | reads name, type, class, TTL and length exactly as the field reader does, with its errors |
| RecordCodec.UnpackQuestion | pkg/dnsmsg/question.go:65-83 | reads a question exactly as the field reader does |
| RecordCodec.UnpackBody | pkg/dnsmsg/rr.go:552-588 | reads the body that the type and the length ask for, with its errors |
| RecordCodec.UnpackSoa | pkg/dnsmsg/rr.go:254-285 | reads two names and five numbers in order |
| RecordCodec.UnpackSrv | pkg/dnsmsg/rr.go:410-429 | reads three numbers and a name in order |
| RecordCodec.UnpackResource | pkg/dnsmsg/rr.go:552-588 | reads header and body as one record and gives the offset after it |
| Messages.HeaderRoundTrip | pkg/dnsmsg/msg.go:28-112 | packing and unpacking the header bits gives the header back exactly when opcode and rcode are below 16 |
| Messages.SectionsItems | pkg/dnsmsg/msg.go:204-252 | cutting the items read into four sections by the header's counts loses none and keeps their order |
| MessageRoundTrip.ItemsRoundTrip | pkg/dnsmsg/msg.go:331-381 | a run of packed items keeps the compression invariant and reads back, up to Length, exactly when every name in it fits |
| MessageRoundTrip.UnpackedIsNormal | pkg/dnsmsg/msg.go:204-252 | whatever Unpack accepts has valid names of at most 254 bytes, header bits in range and bodies that match their types |
| MessageRoundTrip.RoundTrip | pkg/dnsmsg/msg.go:272-393 | a message packed without limit, compressed or not, unpacks to itself up to Length if and only if its header fits its bits, its bodies match their types and every name has at most 254 bytes and needs at most ten pointers |
| MessageRoundTrip.ShortNamesFit | pkg/dnsmsg/msg.go:272-393 | names of at most 254 bytes and ten labels are enough for that |
| MessageRoundTrip.Normalisation | pkg/dnsmsg/msg.go:204-252 | any bytes that Unpack accepts give a message that packs again without compression or limit and unpacks to the same message up to Length |
| MessageRoundTrip.NormalRoundTrips | pkg/dnsmsg/msg.go:272-393 | without compression exactly the normal messages pack and come back |
| PointerChains.NestedRoundTrip | pkg/dnsmsg/name.go:179-181 | of the messages that ask for k nested names, those with k up to eleven come back compressed, the others do not |
| MessageLengths.ExactLength | pkg/dnsmsg/msg.go:396-421 | MaxPackLen is exactly the length of the message packed without compression or limit, and both give the same error |
| MessageLengths.ItemLenExact | pkg/dnsmsg/rr.go:523-541 | the predicted length of an item without a map is what packing it appends |
| MessageLengths.ItemLenCovers | pkg/dnsmsg/rr.go:523-541 | the length predicted with a map is an upper bound of what packing with that map or a larger one appends |
| MessageLengths.FieldsLenShrinks | pkg/dnsmsg/rr.go:523-541 | the predicted length of a record's fields never grows as the map grows |
| MessageLengths.CompressedLength | pkg/dnsmsg/msg.go:396-421 | a compressed message is never longer than MaxPackLen |
| MessageLengths.SizeLimit | pkg/dnsmsg/msg.go:298-389 | with room for the OPT body the output, prefix included, is at most the limit less that body, or the bare header, plus what the OPT record takes |
| MessageLengths.SizeLimitPlain | pkg/dnsmsg/msg.go:298-389 | without an OPT record the limit holds exactly when prefix and header fit it; with a root-named OPT record of l raw bytes it holds exactly when what was packed before ends l + 11 bytes earlier, and with room for prefix, header and OPT body it is exceeded by at most eleven bytes |
| MessageLengths.SizeLimitVoid | pkg/dnsmsg/msg.go:320-343 | when the OPT body is at least as long as the limit nothing is dropped at all, and if the body is raw, as every unpacked one is, the output exceeds the limit |
| MessageLengths.LimitedIsSubsequence | pkg/dnsmsg/msg.go:330-389 | what is written is an order-preserving subsequence of the message's items, packed as such, and the last OPT record is always kept at the end |
| MessageLengths.LastOptIsLast | pkg/dnsmsg/msg.go:308-314 | the reserved record is the last OPT record of the additional section |
| MessageLengths.RoomyLimit | pkg/dnsmsg/msg.go:298-389 | a limit that prefix and MaxPackLen fit into holds, with or without an OPT record, packing cannot fail, and nothing is dropped but OPT records before the last, which moves to the end |
| MessageLengths.OptIsCounted | pkg/dnsmsg/msg.go:316-332 | what MaxPackLen counts for a section covers its other records and its last OPT record |
| SizeLimitGaps.HeaderNotReserved | pkg/dnsmsg/msg.go:316-320 | for every limit, prefix and OPT body with room between them there is a message that is packed to the limit and eleven bytes |
| SizeLimitGaps.LimitSwitchedOff | pkg/dnsmsg/msg.go:316-332 | with an OPT body at least as long as the limit, answers of any length come through |
| MsgCodec.PackQuestions | pkg/dnsmsg/msg.go:330-346 | the question loop writes exactly the questions that the limit admits, under the map so far |
| MsgCodec.PackRRs | pkg/dnsmsg/msg.go:348-369 | the record loop writes exactly the records that the limit admits, leaving OPT records out when one is reserved |
| MsgCodec.FindOpt | pkg/dnsmsg/msg.go:308-314 | finds the last OPT record of a section |
| MsgCodec.PackInto | pkg/dnsmsg/msg.go:272-393 | sections, reserved OPT record and the header patched in place together are exactly Packed, behind an untouched prefix |
| MsgCodec.Msg.Pack | pkg/dnsmsg/msg.go:272-393 | the prefix followed by exactly what Packed says, or its error |
| MsgCodec.Msg.MaxPackLen | pkg/dnsmsg/msg.go:396-421 | header and predicted lengths of all four sections |
| MsgCodec.Msg.Unpack | pkg/dnsmsg/msg.go:204-252 | the header and, appended section by section, exactly the items that Unpacked reads; or its error, and then the header and the items before the one that could not be read, in their sections |
| Transport.IdPatch | internal/upstream/transport/utils.go:17-50 | overwriting the first two bytes of a packed message gives the message packed under the other id |
| Transport.PackMsg | internal/upstream/transport/utils.go:37-50 | the buffer of MaxPackLen bytes is filled exactly, with the message under the new id; otherwise the error of MaxPackLen, or else the section count that is too large |
| Transport.PackTcpMsg | internal/upstream/transport/utils.go:17-35 | two bytes of payload length followed by exactly that payload; otherwise the error of MaxPackLen, or an overflow above 65535 bytes, or the section count that is too large |
| Transport.RequestReads | internal/upstream/transport/utils.go:17-50 | the payload has the length announced (section 4.2.2 of RFC 1035) and unpacks to the message under the new id |
| ByteOrder.CompareSwaps | internal/domain_matcher/compiled_tree.go:92-94 | the byte order compares two strings the other way round when they are swapped, and equal only when they are |
| ByteOrder.LessTrans | internal/domain_matcher/compiled_tree.go:92-94 | the byte order is transitive |
| DomainTrie.MatchTrieIsRules | internal/domain_matcher/compiled_tree.go:113-170 | the walk through the trie answers as the rule map: an exact rule that is not inherited first, else the deepest inherited rule on the way with its level, else -2 |
| DomainTrie.Tree.NewChild | internal/domain_matcher/tree.go:48-57 | a new node is linked below its parent and changes no rule; it fails exactly at 2^31 - 2 nodes |
| DomainTrie.Tree.Add | internal/domain_matcher/tree.go:23-46 | the trie afterwards holds the old rules with this one set, overwriting an earlier one for the name; it fails exactly when the nodes missing on the path are too many, and then no rule changes |
| CompiledTrie.ChildMapAt | internal/domain_matcher/compiled_tree.go:106-111 | in an ascending segment every entry is found under its own label |
| CompiledTrie.BinarySearchIdx | internal/domain_matcher/compiled_tree.go:187-206 | finds a label in an ascending segment if and only if it is there |
| CompiledTrie.Step | internal/domain_matcher/compiled_tree.go:148-154 | one step down leads to the child under the label, or says that there is none |
| CompiledTrie.Match | internal/domain_matcher/compiled_tree.go:118-170 | on every valid index and every name the search stays in range and answers as the trie that the arrays stand for |
| TrieSizes.IndexFits | internal/domain_matcher/compiled_tree.go:74-76 | the index section has at most one entry for every node but the root, so its overflow check never fails |
| TrieCompiler.SortIdx | internal/domain_matcher/compiled_tree.go:92-94 | the segment becomes ascending by label and keeps its entries |
| TrieCompiler.CompiledTree.CompileNodes | internal/domain_matcher/compiled_tree.go:56-69 | the rules of a node and of everything below it are copied, and nothing that was copied is lost |
| TrieCompiler.CompiledTree.PlaceLabel | internal/domain_matcher/compiled_tree.go:83-89 | the address given leads to the label; a new label fails exactly when the section would exceed 2^31 - 1 bytes |
| TrieCompiler.CompiledTree.AppendChildren | internal/domain_matcher/compiled_tree.go:79-91 | one entry for every child, in any order, and exactly the label bytes they need |
| TrieCompiler.CompiledTree.BuildSegment | internal/domain_matcher/compiled_tree.go:74-94 | the new segment lists exactly the children in ascending order, behind everything that was there |
| TrieCompiler.CompiledTree.BuildIdx | internal/domain_matcher/compiled_tree.go:71-103 | everything below the node is listed and nothing done before is lost; it fails exactly when one of the two sections would overflow, and otherwise grows both by the sizes of the subtree |
| TrieCompiler.Compile | internal/domain_matcher/compiled_tree.go:43-54 | the arrays are safe to search and stand for exactly the trie; it fails exactly when the labels, with repetitions, exceed 2^31 - 1 bytes |
| TrieCompiler.CompiledAnswersRules | internal/domain_matcher/compiled_tree.go:118-170 | compiled arrays answer every name as the rules do |
| TrieCompiler.CompileAndMatch | internal/domain_matcher/compiled_tree.go:43-170 | any sequence of Add, Compile under any map order, and Match give the answer of the rule map |
| TrieSerializer.ValidSegAddrIsWithin | internal/domain_matcher/utils.go:17-22 | the test with wrapping 32-bit addition is true exactly when offset and length are not negative and end in range |
| TrieSerializer.NodeRoundTrip | internal/domain_matcher/serialize.go:112-122 | a node written in 17 bytes reads back, negative data offsets included |
| TrieSerializer.IdxRoundTrip | internal/domain_matcher/serialize.go:125-134 | an index entry written in 12 bytes reads back |
| TrieSerializer.SerializationRoundTrip | internal/domain_matcher/serialize.go:73-309 | a written matcher reads back equal if and only if its arrays can be searched safely; otherwise the reader reports an invalid pointer |
| TrieSerializer.ValidationDecides | internal/domain_matcher/serialize.go:252-279 | an index that passes the validation is safe to search if and only if no label of it lies outside the labels that were read; when all announced labels were read exactly the safe ones pass |
| TrieSerializer.CompiledSurvives | internal/domain_matcher/serialize.go:73-309 | every compiled set of rules can be written, passes the validation, reads back equal and still answers as the rules do |
| TrieSerializer.AcceptedIsCanonical | internal/domain_matcher/serialize.go:158-309 | an accepted file begins with exactly the bytes that would be written for its matcher, or it ends within its labels, announces more of them and has no regular expressions |
| TrieSerializer.AcceptedIsSafe | internal/domain_matcher/serialize.go:158-309 | the index of an accepted file is safe to search if and only if no label is missing, and so whenever the file holds all the labels it announces |
| TrieSerializer.MissingLabelPasses | internal/domain_matcher/serialize.go:243-279 | a file whose only label is announced but not there is accepted, and its index is not safe to search |
| TrieSerializer.ValidateNode | internal/domain_matcher/serialize.go:253-278 | the first objection to the node's entries decides; a node is safe to search exactly when it passes and its labels were read |
| TrieSerializer.Validate | internal/domain_matcher/serialize.go:252-279 | the whole index is safe to search exactly when it passes and no label is missing |
| TrieSerializer.SerializeBody | internal/domain_matcher/serialize.go:73-156 | the stream grows by exactly the file of the matcher, or the error of its first part that does not fit |
| TrieSerializer.DeserializeBody | internal/domain_matcher/serialize.go:158-309 | reads exactly what Deserialized says, with its errors, also from a file that ends within its labels |
| TrieSerializer.ReadRegexp | internal/domain_matcher/serialize.go:282-298 | reads a length and that many bytes, and refuses what does not compile |
| TrieSerializer.ReadAndMatch | internal/domain_matcher/serialize.go:158-309 | on any accepted input of which no label is missing the search of any name is in range and agrees with the trie the file stands for |
| ConnPool.GetKeepsInv | internal/connpool/pool.go:147-207 | Get keeps the invariant in every outcome: busy, idle, queued, dialing, refused, closed |
| ConnPool.WakeKeepsInv | internal/connpool/pool.go:399-413 | a waiter that takes the connection, gets the error, or gives up before or after the outcome keeps it |
| ConnPool.ReleaseKeepsInv | internal/connpool/pool.go:211-259 | a Release keeps it: of a removed, closed, still busy or now idle connection, with its evictions |
| ConnPool.DialDoneKeepsInv | internal/connpool/pool.go:356-397 | a dial that ends, with or without a connection, before or after Close, keeps it |
| ConnPool.CloseKeepsInv | internal/connpool/pool.go:307-331 | Close with the cancellation of all dials keeps it |
| ConnPool.NextKeepsInv | internal/connpool/pool.go:133-432 | every critical section keeps the invariant |
| ConnPool.RunKeepsInv | internal/connpool/pool.go:133-432 | the invariant holds at every moment of every run |
| ConnPool.StreamsAreConserved | internal/connpool/pool.go:44-61 | in every run curStream of a pooled connection is the number of its unreleased holders and of the waiters of its dial; idle ones have none, busy ones between one and maxStream, and none is both |
| ConnPool.QuietPoolIsIdle | internal/connpool/pool.go:224-257 | when nobody holds or waits, no connection is left busy |
| ConnPool.MaxConnHolds | internal/connpool/pool.go:191-203 | dialing, busy and idle connections together never exceed MaxConn |
| ConnPool.LastCallIsOpen | internal/connpool/pool.go:179-189 | in an open pool callers only ever queue on a dial that is still running |
| ConnPool.PooledAfter | internal/connpool/pool.go:387-394 | only a dial that ends in an open pool adds a connection, a new one |
| ConnPool.NoReentry | internal/connpool/pool.go:156-173 | a connection that was removed never comes back, in any run |
| ConnPool.CloseIsFinal | internal/connpool/pool.go:367-376 | after Close nothing is ever added |
| ConnPool.ReleaseKeepsItsOwn | internal/connpool/pool.go:224-257 | a Release that makes its connection idle leaves at most the allowed number of idle ones, evicts exactly the surplus, and never its own |
| ConnPool.SearchMisses | internal/connpool/pool.go:269-303 | the search never misses a busy connection that could serve, in any order of the map, if and only if there is none or at most four live ones cannot serve |
| ConnPoolMethods.Pool.SearchBusy | internal/connpool/pool.go:270-297 | the loop picks the most loaded connection with room among those it saw, dropping closed ones, in any map order |
| ConnPoolMethods.Pool.PickBusyConn | internal/connpool/pool.go:270-303 | the picked connection has one stream more, and nothing else changes but dropped connections |
| ConnPoolMethods.Pool.PickIdleConn | internal/connpool/pool.go:160-177 | an available idle connection becomes busy, or none was available; closed ones that were met are dropped |
| ConnPoolMethods.Pool.JoinOrDial | internal/connpool/pool.go:179-207 | queues on the last dial, starts one within MaxConn, or refuses, as the state machine allows |
| ConnPoolMethods.Pool.Get | internal/connpool/pool.go:147-207 | the whole critical section is exactly one Get step |
| ConnPoolMethods.Pool.WaitConn | internal/connpool/pool.go:399-413 | gives the delivered outcome, and leaves the queue only when there is none yet |
| ConnPoolMethods.Pool.Release | internal/connpool/pool.go:211-259 | the whole critical section is exactly one Release step, and every evicted connection is closed once |
| ConnPoolMethods.Pool.EvictIdle | internal/connpool/pool.go:229-251 | the surplus over the allowed number of idle connections is evicted |
| ConnPoolMethods.Pool.Evict | internal/connpool/pool.go:235-251 | evicts exactly the wanted number without touching the released connection; the fallback branch is never reached |
| ConnPoolMethods.Pool.MarkDead | internal/connpool/pool.go:262-268 | the connection leaves the pool and nothing else changes |
| ConnPoolMethods.Pool.DialDone | internal/connpool/pool.go:367-396 | the end of a dial is exactly one DialDone step; a connection that comes too late is to be closed |
| ConnPoolMethods.Pool.Close | internal/connpool/pool.go:307-331 | exactly one Close step, and every pooled connection is closed once |
| PipelineConn.NextKeepsInv | internal/upstream/transport/pipeline_conn.go:194-265 | every critical section and every delivery keeps the invariant on ids, owners, buffers and owed closes |
| PipelineConn.RunKeepsInv | internal/upstream/transport/pipeline_conn.go:194-265 | the invariant holds at every moment of every run |
| PipelineConn.IdsStayInRange | internal/upstream/transport/pipeline_conn.go:239-254 | queue keys are below nextQid, and nextQid and reserved together never exceed 65536 |
| PipelineConn.IdsAreNotReused | internal/upstream/transport/pipeline_conn.go:246-251 | a later exchange of the connection always gets a larger id |
| PipelineConn.ResponsesReachTheirOwner | internal/upstream/transport/pipeline_conn.go:148-157 | a response in the buffer or hands of an exchange carries the id that was given to it, and at no time of the run is that id anybody else's, even after the exchange was cancelled |
| PipelineConn.EolCloseIsClean | internal/upstream/transport/pipeline_conn.go:256-265 | an end-of-life close finds no exchange left, however late it comes |
| PipelineConn.UsedUpConnectionsClose | internal/upstream/transport/pipeline_conn.go:256-265 | a used-up connection without exchanges is closed or about to be |
| PipelineConn.AvailableHasId | internal/upstream/transport/pipeline_conn.go:194-201 | while Status says available the next exchange gets an id |
| PipelineConn.TwoPromises | internal/upstream/transport/pipeline_conn.go:194-209 | of two callers who are told in turn that the connection is available, both get ids if and only if it is not at its last id |
| PipelineConn.PromisesAreKept | internal/upstream/transport/pipeline_conn.go:194-254 | in every run in which exchanges begin with a promise of their own: the open promises are all kept if and only if nextQid leaves that many ids, and all promises of the connection's life are kept if and only if they are at most 65536; below the last id they always are |
| PipelineConn.EndlessPromises | internal/upstream/transport/pipeline_conn.go:194-209 | for every number there is a run that makes so many promises and says available at every moment |
| PipelineConn.LastIdIsPromisedTwice | internal/upstream/transport/pipeline_conn.go:194-254 | a run, from the new connection, in which the last id is promised to two callers and the second gets none |
| PipelineConn.PipelineConnection.ReportStatus | internal/upstream/transport/pipeline_conn.go:194-201 | available means that whoever comes next gets an id, and unavailable that all 65536 are used or reserved |
| PipelineConn.PipelineConnection.Reserve | internal/upstream/transport/pipeline_conn.go:203-209 | ids stay in range, as many exchanges as are reserved will get ids, and what Status says does not change |
| PipelineConn.PipelineConnection.AddQueueC | internal/upstream/transport/pipeline_conn.go:239-254 | exactly the step of a beginning exchange, keeping ids in range; no id exactly at the end of life |
| PipelineConn.PipelineConnection.DeleteQueueC | internal/upstream/transport/pipeline_conn.go:256-265 | for whichever exchange holds the id, exactly its end, which keeps the invariant; the connection is to be closed exactly when no exchange is left and no id can be given |
| PipelineConn.PipelineConnection.GetQueueC | internal/upstream/transport/pipeline_conn.go:232-236 | the channel of an exchange exactly when that exchange holds the id |
| UpstreamHealth.HealthIsHistory | app/router/upstream.go:271-309 | with a threshold, an upstream is offline if and only if its results end in at least that many failures; a cancel function is held exactly then, and no other ping loop is uncanceled |
| UpstreamHealth.Upstream.HcOffline | app/router/upstream.go:258-267 | true exactly when the check is on and the history ends in enough failures |
| UpstreamHealth.Upstream.HcSucceed | app/router/upstream.go:271-288 | the success is counted, and a rebuild follows exactly when the status changed |
| UpstreamHealth.Upstream.HcFailed | app/router/upstream.go:292-309 | the failure is counted, and a rebuild and a ping loop follow exactly when the status changed |
| LoadBalancer.OnlineMembers | app/router/upstream_lb.go:102-110 | the index holds exactly the backends that were not reported offline |
| LoadBalancer.Balancer.BuildIdx | app/router/upstream_lb.go:93-112 | the published sampler has the online backends in order and the running sums of their weights |
| LoadBalancer.BinarySearch | app/router/upstream_lb.go:185-185 | the first running sum not below the point, and whether it is equal |
| LoadBalancer.CoversOnce | app/router/upstream_lb.go:171-191 | no two backends cover the same point |
| LoadBalancer.Simple | app/router/upstream_lb.go:171-191 | for every number of either sign the backend that covers its remainder, and none exactly when there is no backend |
| LoadBalancer.FastPath | app/router/upstream_lb.go:160-168 | says zero exactly when there is no backend, and otherwise gives only what simple would give for every number |
| LoadBalancer.WeightsAreExact | app/router/upstream_lb.go:171-191 | of the numbers below the total weight exactly as many choose a backend as its weight |
| LoadBalancer.SignIsIgnored | app/router/upstream_lb.go:180-184 | a negative number goes where its absolute value goes |
| HealthSampler.NextKeepsInv | app/router/upstream.go:385-391 | every result and every step of a rebuild keeps it that an answer that is out of date has a rebuild owed |
| HealthSampler.StaleAnswersAreOwed | app/router/upstream_lb.go:93-112 | in every run a backend whose status differs from the published answer has a rebuild owed by its upstream |
| HealthSampler.QuietSamplerIsCurrent | app/router/upstream_lb.go:93-112 | in every run, when no rebuild is owed or running, the published sampler indexes exactly the online backends in order |
| HealthSampler.QuietChoiceIsOnline | app/router/upstream_lb.go:126-145 | then the choice for any number is a backend that has not just failed as often as its threshold, and there is none only if all have |
| Netlist.Cmp | internal/netlist/ip.go:19-34 | addresses are ordered as the 128-bit numbers they are |
| Netlist.OverlapIsShared | internal/netlist/netlist.go:89-98 | two proper ranges overlap if and only if some address is in both |
| Netlist.ClashIgnoresOrder | internal/netlist/netlist.go:83-99 | whether some two ranges overlap does not depend on their order |
| Netlist.List.Search | internal/netlist/netlist.go:21-23 | the number of ranges that start at or before the address |
| Netlist.List.Lookup | internal/netlist/netlist.go:20-28 | the value of the only range that contains the address, and none if none does |
| Netlist.FoundIgnoresOrder | internal/netlist/netlist.go:20-28 | what a lookup finds is what a scan of the ranges in any order finds |
| Netlist.ListBuilder.Add | internal/netlist/netlist.go:51-65 | a range is appended unless an address is invalid or it ends before it starts |
| Netlist.ListBuilder.Build | internal/netlist/netlist.go:83-103 | fails if and only if two of the added ranges overlap; otherwise the list holds them all, sorted and disjoint |
| Cidr.PrefixIsInterval | app/router/ip_set.go:93-94 | of all numbers of a length exactly those between prefix-zeros and prefix-ones begin with the prefix |
| Cidr.ValueIsNumber | internal/netlist/ip.go:47-53 | the two halves of an address are the number of its 128 bits |
| Cidr.MaskedBits | app/router/ip_set.go:93-93 | the masked address has the prefix followed by zeros |
| Cidr.SetOnes | app/router/ip_set.go:117-120 | the loop sets exactly the bits after the prefix, in place |
| Cidr.LastIP | app/router/ip_set.go:106-125 | the last address has the prefix followed by ones, for IPv4 and IPv6, and an invalid prefix has none |
| Cidr.RangeIsPrefix | app/router/ip_set.go:93-95 | the range of a prefix contains exactly the addresses that share its bits |
| Cidr.OverlapIsMeet | internal/netlist/netlist.go:89-98 | the ranges of two prefixes overlap if and only if some address has both prefixes |
| Cidr.BuildSet | app/router/ip_set.go:73-103 | building fails if and only if two prefixes have an address in common; otherwise the list contains exactly the addresses with one of the prefixes |
| Cidr.MatchAddr | app/router/ip_set.go:44-51 | true exactly when a range of the list contains the address |
| Cidr.BuildAndMatch | app/router/ip_set.go:44-103 | an address matches exactly when it has one of the prefixes |

## Left out

- TrieSerializer.DeserializeBody: a label that lies beyond the bytes that were read is the error LabelsMissing, while the code slices into whatever capacity the buffer has and fails beyond it; and every read of a number is a full one.
- ConnPool.MaxIdleAllowed: the share of the busy connections that the ratio allows is any function of their number, so neither the default ratio nor the rounding of floating point matters.
- Messages and names are values: pools of objects, reuse of buffers and labels that alias a message are not part of the model.
- The names of sections in error messages, and logging.
- PopEDNS0, RemoveEDNS0, ToLower and the other constructors of names (ParseNameLabels, ParseNameRaw): they would only add easy members.
- Re-parsing of a message cut by a size limit: its counts are those of the whole message, and the truncated flag is never written.
- Rule files, regular expressions and compression of the matcher file: an expression is a string of bytes that compiles or does not.
- Pointers to trie nodes, dialing calls, connections and channels are numbers; distinct ones are distinct.
- Sorting is any sort (insertion), since sort.Slice and slices.SortFunc are library functions; the masked address, binary search over integers and the channel's one-element buffer are written from their documentation.
- Timers, ping intervals, rate limiters and the fall-through method of the load balancer.
- The pool's use of connections outside its lock: Status may answer anything in each critical section, Reserve and Close are calls to the environment, and a dial gives either a connection or an error.
- The sum of the weights and the counter of failures do not overflow.
- More than one load balancer on an upstream: each is rebuilt in its own turn, and the model follows one.
- Reading lines of an address file (comments, spaces, netip.ParsePrefix): sets are built from parsed prefixes.
- Size classes of the byte pool: easy arithmetic.
- Sockets, TLS, QUIC, HTTP, Redis, metrics, configuration and the command line.
