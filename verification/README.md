# KNX IoT stack: a model and its proofs

KNX-IOT-STACK is a C implementation of a CoAP/OSCORE device. This project models the parts of it that
hold state over many messages or transform data in place, and proves what they promise. `dafny verify
dfyconfig.toml` checks all of it.

| files | what they model |
|---|---|
| `Base64.dfy` | Base64 (section 4 of RFC 4648): an encoder that carries bits across three-byte groups, and a decoder that overwrites its own input |
| `JsonWriter.dfy`, `JsonLayout.dfy`, `JsonReader.dfy`, `JsonRoundTrip.dfy` | the tree a CBOR payload is parsed into, the recursive JSON writer with its moving position, remaining room and running total, what pretty printing changes, and a reader of JSON text (RFC 8259) that shares nothing with the writer and gives the tree back |
| `CborTree.dfy` | the recursive builder of that tree, which infers the types of arrays |
| `WordBits.dfy`, `Replay.dfy`, `ReplayWord.dfy`, `ReplayPool.dfy`, `ReplayRuns.dfy` | OSCORE replay protection (section 7.4 of RFC 8613): words as sets of bits, one window, the pool of records with eviction, and whole runs of many clients |
| `DiscoveryPaging.dfy` | /.well-known/core: three list producers with shared counters, pages of any size (a build option, `api/oc_knx_helpers.h:30-32`), and a client that follows them |
| `EndpointText.dfy`, `EndpointPrinter.dfy`, `EndpointString.dfy` | IPv6 endpoints as text (section 2.2 of RFC 4291): the parser that expands "::" in place, the printer that inserts it, and scheme and port around both |
| `Blockwise.dfy` | block-wise transfer (section 2 of RFC 7959): slicing, reassembly, and the protocol over a channel that loses, repeats and reorders |
| `GroupTables.dfy`, `GroupTableRuns.dfy`, `GroupTableReload.dfy`, `GroupTableIds.dfy`, `GroupTableEntries.dfy`, `GroupDevice.dfy` | the group object table and the recipient table, the load state machine, resets, storage write by write, what a restart finds, and which entry a payload gives |
| `SMode.dfy` | multicast addresses of group addresses, subscribing, sending, and dispatching telegrams |
| `LinkFormat.dfy` | link format (section 2 of RFC 6690): printing links and scanning them |
| `QueryStrings.dfy` | query strings: counting segments, walking over them, looking up keys |
| `HandshakeLimiter.dfy` | the limiter of password handshakes |
| `Wrappers.dfy` | types, and numbers as text, that several modules share |

A class stands for an object that the program updates in place, and its methods are the program's
operations; each is proved against a function of the old state, and the lemmas are about those
functions, over every input and every run. Storage is a map together with the sequence of its writes, so
that a power failure can fall between any two of them. Time, resources, the results of filters and what
applications do in their handlers are inputs.

## Where the code does not meet what it is for

Each of these is a lemma with the exact condition, or with the family of inputs that fails.

- Replay window: the comparison at `api/oc_replay.c:186` is `>`, so a difference of exactly 32 reaches an
  undefined shift. `ReplayRuns.SafeIffEdgeRefused`: all runs are free of replays exactly when that shift
  gives a value with bit 0 set.
- Discovery: a leading serial-number link is not in the total, and the last entries are cut off
  (`DiscoveryPaging.PagesAreTheList`, `SerialsLoseTheEnd`). Serial numbers are framed without asking
  whether there is room, so a page size that they fill repeats entries (`SmallPages`). The next-page link
  does not repeat the filter (`LinkForgetsTheFilter`, `LinkLosesApps`).
- Endpoint text: every zero group is left out of the printed form and only one "::" is inserted
  (`EndpointPrinter.RoundTrip`, `TwoRunsLoseOne`). A segment of more than four characters among the first
  eight keeps the parser in its loop (`EndpointText.ParseAddress`, exactly then; `FiveDigitsHang`). Without
  a port, a colon in the path is taken for the one before a port, and the address is not found
  (`EndpointString.SplitAuthority`, exactly then).
- Block-wise transfer: the size handed out is wrong for an offset that is not a multiple of the block size
  in a payload shorter than a block (`Blockwise.SizeIsRight`). With mixed block sizes the end can be
  announced too early (`EndIsRight`, `MixedSizesEndEarly`). The last of several blocks cannot be asked for
  again once it has been sent, because the sender frees its buffer behind it: if it is lost, only the
  retransmission of that one message can complete the transfer (`FinishesAfreshIff`, `SecondOfTwoIsLost`).
- JSON: quotes in names and texts are written as they are, and the text reads back as the tree exactly when
  there are none (`JsonRoundTrip.ReadsBack`). The pretty layout changes what is read exactly when a name or
  a text has an odd number of them (`JsonLayout.LayoutOnly`, `OneQuoteDiffers`). A list is taken for one by
  the empty name of its first node, so a map whose first member is a map under an integer key is printed
  as `["1":{}]` (`JsonRoundTrip.ProperIff`, `MapUnderInteger`).
- CBOR tree: empty arrays become null, a null among elements of one type is an error, and an error inside
  an array is forgotten (`CborTree.KeptIffKeepable`, `MixedArraysHideErrors`).
- Group object table: after one object of a payload fails its checks, later ones are neither checked nor
  saved. `GroupTableReload` says what of a POST is then in memory only (`PostIsReloaded`,
  `KeptEntriesAreLost`), over whole runs (`DriftIsExact`), and gives a run that loses an object
  (`RejectedRun`) which a later accepted POST does not repair (`AcceptedAfterRejected`). Reset 2 stores the
  unloaded state before it erases the tables (`GroupTableRuns.ResetTwoAnnouncesFirst`, exact for every
  write at which it is cut short).
- Group object flags: listed flags are added, so that one listed twice becomes another
  (`GroupTableEntries.FlagsAreListed`, `ReadTwiceIsOverwritten`).
- Link format: without a content type the value of `if` is read with a semicolon
  (`LinkFormat.InterfacesReadTooLong`).

## Model

| member | source | states |
|---|---|---|
| `Base64.EncodeBytes` | api/oc_base64.c:61-100 | the loop over the input bytes writes, group by group, the characters of the encoding, and leaves the bits carried over from an unfinished group |
| `Base64.Encode` | api/oc_base64.c:23-117 | writes the padded encoding when the capacity allows it and returns its length; otherwise returns -1 and writes nothing; nothing else changes |
| `Base64.DecodeSymbols` | api/oc_base64.c:131-193 | the in-place loop: it succeeds exactly on decodable text, the octets of the symbols stand at the front, and what is behind them is still the text |
| `Base64.PlaceSextet` | api/oc_base64.c:167-192 | one symbol: the octet it completes is written behind the octets before it, never on a character that is still to be read |
| `Base64.Decode` | api/oc_base64.c:119-201 | decodes over the text itself; on success every byte behind the result is zero; on failure it says how far the text has been overwritten |
| `Base64.DecodeOfEncode` | api/oc_base64.c:23-201 | for every byte string, the encoding is decodable and decodes to that byte string |
| `Base64.EncodeOfDecode` | api/oc_base64.c:23-201 | for decodable text, encoding what was decoded gives the text back exactly when the text is canonical: padded to full groups and without stray bits |
| `JsonWriter.Extend` | api/oc_rep.c:1057-1067 | composition: what a call writes at the moved position, after what was written before, is a zero-terminated prefix of both texts together |
| `JsonWriter.Base64String` | api/oc_rep.c:1096-1125 | a byte string in quotes, or cut behind the opening quote when the encoding does not fit; the announced length is the full one either way |
| `JsonWriter.PutNodes` | api/oc_rep.c:1143-1500 | a list of members or elements: position, room and total advance by the rendering of the whole list |
| `JsonWriter.PutObjects` | api/oc_rep.c:1429-1467 | an array of objects, nested calls included |
| `JsonWriter.PutValue` | api/oc_rep.c:1168-1490 | one value of any type, at any depth: its rendering is appended, which JsonRoundTrip.ValueReads reads back as the value |
| `JsonWriter.Format` | api/oc_rep.c:1136-1502 | one recursive call: it returns the length of its full rendering whatever room it is given, and what it writes is a prefix of it |
| `JsonWriter.ToJson` | api/oc_rep.c:1504-1527 | for every tree, buffer size (0 included) and flag: the result is the length of the full rendering, the buffer holds a zero-terminated prefix of it, and bytes outside the buffer are untouched |
| `JsonWriter.Whole` | api/oc_rep.c:1504-1527 | the prefix is the whole rendering, zero-terminated, when the buffer has at least one byte more than it |
| `JsonLayout.ValueTrack` | api/oc_rep.c:1168-1490 | rendered pretty and compact, a value that is no text opens and closes the same strings, and reads the same outside white space exactly when its names and texts have even numbers of quotes; otherwise the pretty one reads longer |
| `JsonLayout.LayoutOnly` | api/oc_rep.c:1136-1527 | for every tree: the pretty rendering and the compact one differ only in white space outside strings exactly when every name and every text has an even number of quotes, and then no string stays open |
| `JsonLayout.OneQuoteDiffers` | api/oc_rep.c:1136-1527 | a tree with one member named by a single quote is one that reads differently |
| `JsonRoundTrip.ValueReads` | api/oc_rep.c:1168-1490 | behind the text of a value, at any depth and in either layout, a reader of JSON has that value: null, true and false, sign and digits, strings, byte strings in Base64, and nested objects and arrays with their members in order |
| `JsonRoundTrip.NodesRead` | api/oc_rep.c:1143-1500 | the same for a list of members or elements: each with its name or, without one, its number as key |
| `JsonRoundTrip.ReadsBack` | api/oc_rep.c:1136-1527 | for every tree and both layouts: the text reads back as the tree exactly when no name and no text holds a quotation mark, nor, for a strict reader, a control character or a reverse solidus; numbers that the format prints are read by their value |
| `JsonRoundTrip.ProperIff` | api/oc_rep.c:1504-1527 | which trees are printed as JSON: the members of a map unless the first is a map under an integer key, the elements of an array only if the first is a map (or there is none) |
| `JsonRoundTrip.MapUnderInteger` | api/oc_rep.c:1509-1519 | a map that holds a map under the key 1 is printed as a list with a key in it |
| `CborTree.KindIsShared` | api/oc_rep.c:369-429 | the first pass finds a type exactly when the elements that are not null share it |
| `CborTree.TypedIffShared` | api/oc_rep.c:430-559 | the array that is built is a typed one exactly when all elements share one scalar or map type, and a mixed one otherwise |
| `CborTree.KeptIffKeepable` | api/oc_rep.c:189-559 | whatever too long a string leaves in its slot, the tree reads back as the value it was built from, without an error, exactly for values without empty arrays, without nulls among elements of one type, without strings of 32 bytes or more in arrays of strings and without the key -1; an empty array reads back as null |
| `CborTree.MapKept` | api/oc_rep.c:313-346 | a map loses nothing exactly when none of its members does and no key is -1; order is kept |
| `CborTree.ObjectsKept` | api/oc_rep.c:514-534 | the same for an array of maps |
| `CborTree.MixedKept` | api/oc_rep.c:535-552 | the same for an array of mixed types or of arrays |
| `CborTree.TypedKept` | api/oc_rep.c:432-513 | the same for an array of scalars of one type: lost exactly by a null or by a string that is cut to its slot |
| `CborTree.MixedArraysHideErrors` | api/oc_rep.c:535-558 | an error inside an element of a mixed array is overwritten, so that the array reports none although a part of it is lost |
| `CborTree.NullAmongNumbers` | api/oc_rep.c:432-444 | an array of a number and a null is an error, and the same array inside another is none |
| `CborTree.ParseEntity` | api/oc_rep.c:189-254 | the recursive builder computes the tree that the lemmas are about |
| `CborTree.ParseObject` | api/oc_rep.c:313-346 | members are linked behind one another up to the first error |
| `CborTree.ParseArray` | api/oc_rep.c:348-559 | the two passes over an array |
| `WordBits.OrIsUnion` | api/oc_replay.c:198-198 | setting bits is the union of position sets |
| `WordBits.ShiftIsShl` | api/oc_replay.c:213-216 | shifting the word moves every position up and drops those that leave it |
| `WordBits.AndMeets` | api/oc_replay.c:192-192 | the test of a bit is the test whether the sets meet |
| `ReplayWord.CheckWord` | api/oc_replay.c:181-227 | the decision on the 32-bit word is the decision on the set of its one-bits |
| `Replay.DecideRefinesSet` | api/oc_replay.c:181-227 | a check accepts exactly the numbers that are unseen, less than 32 behind and at most the configured window ahead; the record then stands for the set with the number added, and its number never decreases |
| `ReplayPool.Pool.GetEmptyRecord` | api/oc_replay.c:72-88 | the first free record, with nothing changed, or else, exactly when all are in use, the least recently used one, which is freed |
| `ReplayPool.Pool.GetRecord` | api/oc_replay.c:91-112 | the first record in use with this KID and context |
| `ReplayPool.Pool.AddClient` | api/oc_replay.c:232-248 | the pool afterwards: the client has a record with just this number |
| `ReplayPool.Pool.CheckClient` | api/oc_replay.c:118-228 | the pool and the verdict of a check, with the first multicast message of an unknown client trusted when so configured |
| `ReplayPool.Pool.FreeClient` | api/oc_replay.c:250-259 | all records with this KID are freed |
| `ReplayRuns.InvHolds` | api/oc_replay.c:57-259 | after every run each used record stands for exactly the set of numbers accepted from its client since its last sync, and no client has two records |
| `ReplayRuns.CheckIsExact` | api/oc_replay.c:118-228 | after every run, the verdict on any next check |
| `ReplayRuns.RunIsSafe` | api/oc_replay.c:57-259 | no number of a client is accepted twice between two of its syncs, as long as the shift by 32 is never reached or refuses |
| `ReplayRuns.SafeIffEdgeRefused` | api/oc_replay.c:186-201 | every run is free of replays exactly when the machine value of 1 << 32 has bit 0 set: the comparison lets a difference of 32 through |
| `ReplayRuns.OthersAreKept` | api/oc_replay.c:72-88 | another client's event changes a used record only by evicting it: when all are in use and it is the least recently used |
| `ReplayRuns.LostUntilResync` | api/oc_replay.c:118-248 | a client without a record has all its checks refused until it is added anew |
| `ReplayRuns.TimesAreLastHeard` | api/oc_replay.c:118-248 | after every run, the time in each record is that of the last sync of its client, or of its last check if that came later, whether accepted or not |
| `ReplayRuns.OwnRecord` | api/oc_replay.c:118-259 | a client has a record after an event of its own exactly when that is a sync, a check while it had one, or a trusted first multicast message |
| `ReplayRuns.EvictedIsLeastRecent` | api/oc_replay.c:72-88 | over every run, an event of others takes a record only when all are in use, and only from a client that was heard from no later than any other client with a record |
| `ReplayRuns.RecentIsKept` | api/oc_replay.c:72-88 | so a client that was heard from after another one with a record keeps its own |
| `DiscoveryPaging.BlockTable.AddResource` | api/oc_knx_fb.c:284-307 | the blocks of one resource are appended, each once |
| `DiscoveryPaging.BlockTable.CountFunctionalBlocks` | api/oc_knx_fb.c:265-311 | the number and the list of functional blocks, counted once and then remembered |
| `DiscoveryPaging.BlocksOnce` | api/oc_knx_fb.c:265-311 | the list has no repetitions, and holds exactly the block and instance pairs of the device's discoverable data points |
| `DiscoveryPaging.Page.FilterResource` | api/oc_discovery.c:161-191 | a resource that passes the filters is skipped or framed, and the shared counters say how far the whole list has been offered |
| `DiscoveryPaging.Page.ProcessResources` | api/oc_discovery.c:193-215 | the first producer: either the page is the slice of the whole list, or all application resources have been offered |
| `DiscoveryPaging.Page.ProcessBasicResources` | api/oc_discovery.c:217-234 | the second producer, likewise |
| `DiscoveryPaging.Page.AddFunctionBlocks` | api/oc_knx_fb.c:422-467 | the third producer completes the slice |
| `DiscoveryPaging.FillPage` | api/oc_discovery.c:591-616 | the three producers together give one slice of one filtered list, which overruns the page by one resource exactly when the serial numbers have filled it |
| `DiscoveryPaging.HandleDiscovery` | api/oc_discovery.c:345-390 | one request, at any page size: page pn of the filtered list, a link to the next page, or a bad request behind the end |
| `DiscoveryPaging.FollowFrom` | api/oc_discovery.c:345-626 | at every page size, following next pages with the query repeated ends, and gives the list from any page behind the serial numbers on, up to the total that the handler counts |
| `DiscoveryPaging.PagesAreTheList` | api/oc_discovery.c:345-626 | the pages together are the filtered list up to that total, each entry once, exactly when the serial numbers do not fill a page, or just fill it and no resource follows; they are then the whole list exactly when it is no longer than that total |
| `DiscoveryPaging.SmallPages` | api/oc_discovery.c:540-570 | at page sizes that the serial numbers fill, the pages in full: those up to the last serial number overrun by the first resource, and the next page begins with it again |
| `DiscoveryPaging.NoSerialsLoseNothing` | api/oc_discovery.c:345-626 | without a leading serial-number link nothing is lost and nothing is repeated, whatever the filters and the page size |
| `DiscoveryPaging.ListIsRight` | api/oc_discovery.c:161-234 | the list has a link to a block and instance exactly when blocks are asked for and a discoverable data point has them, a link to a resource exactly when the request selects it, and its serial numbers in front |
| `DiscoveryPaging.LinksOnce` | api/oc_knx_fb.c:422-467 | behind the serial numbers no block link is listed twice, and no link at all when ids tell resources apart |
| `DiscoveryPaging.FollowFindsEachOnce` | api/oc_discovery.c:345-626 | so following the pages without serial numbers, at any page size, finds each of the device's block and instance pairs in exactly one link, and exactly the resources selected |
| `DiscoveryPaging.SerialsLoseTheEnd` | api/oc_discovery.c:540-570 | with everything selected, each leading serial-number link costs the last entry: it is not in the total |
| `DiscoveryPaging.LinkIs` | api/oc_knx_helpers.c:146-174 | following the next-page link as it is written gives the first page of the filtered list and then the later pages of the list without a filter |
| `DiscoveryPaging.LinkForgetsTheFilter` | api/oc_knx_helpers.c:146-174 | so it gives the filtered list exactly under a condition on counts, for every page size: how many links are selected, how many functional blocks there are and whether they are asked for, and, for pages shorter than the basic resources, whether those behind the first page are selected |
| `DiscoveryPaging.LinkLosesApps` | api/oc_knx_helpers.c:146-174 | a filter that matches more application resources than a page holds loses some, with or without serial numbers |
| `EndpointText.HexToBin` | api/oc_endpoint.c:238-308 | one or two hexadecimal digits of either case give their value |
| `EndpointText.ShiftTail` | api/oc_endpoint.c:358-369 | the in-place shift inserts zeros at the split |
| `EndpointText.ParseAddress` | api/oc_endpoint.c:310-370 | on every well-formed text the parser ends with the eight groups that section 2.2 of RFC 4291 assigns to it; on any text it stops making progress exactly when one of the first eight non-empty segments is longer than four characters |
| `EndpointText.FiveDigitsHang` | api/oc_endpoint.c:331-356 | five digits in a row are such a text |
| `EndpointText.ParseGroups` | api/oc_endpoint.c:320-357 | the loop over segments: what has been consumed is a prefix of the items, and the bytes are their values; it gets stuck exactly at a segment that is too long |
| `EndpointPrinter.LongestIsFirstLongest` | api/oc_endpoint.c:133-169 | the run that is compressed is the first of the longest runs of zero groups |
| `EndpointPrinter.HexIsMinimal` | api/oc_endpoint.c:152-166 | groups are printed in lower case without leading zeros |
| `EndpointPrinter.OctetsAreHex` | api/oc_endpoint.c:150-166 | the digits chosen octet by octet are the minimal hexadecimal form of the group |
| `EndpointPrinter.ScanGroups` | api/oc_endpoint.c:132-168 | the pass over the address writes the groups that are not zero and finds where the longest run began |
| `EndpointPrinter.InsertGap` | api/oc_endpoint.c:175-179 | the in-place shift doubles one character |
| `EndpointPrinter.GapText` | api/oc_endpoint.c:175-179 | doubling the ':' behind the run makes it the gap of the printed form |
| `EndpointPrinter.PrintAddress` | api/oc_endpoint.c:122-184 | the buffer holds the printed form of the address, within its bounds |
| `EndpointPrinter.AllReads` | api/oc_endpoint.c:122-184 | every printed form is well-formed, and stands for the groups that are not zero with all zeros put where the run is |
| `EndpointPrinter.RoundTrip` | api/oc_endpoint.c:122-370 | reading the printed form gives the address back exactly when its zero groups form at most one run |
| `EndpointPrinter.TwoRunsLoseOne` | api/oc_endpoint.c:122-184 | an address with two zero groups apart is printed as the text of another address |
| `EndpointString.ParseEndpoint` | api/oc_endpoint.c:372-511 | scheme, address, port or default port, and path of every well-formed endpoint text; without a port the path must have no colon |
| `EndpointString.SplitAuthority` | api/oc_endpoint.c:411-498 | the address is found where it is exactly when there is a port, or no colon in the path but as its last character; path and port are then right too |
| `EndpointString.FindPort` | api/oc_endpoint.c:421-457 | the port behind the bracket, or the default of the scheme |
| `EndpointString.PrintEndpoint` | api/oc_endpoint.c:122-217 | the printed endpoint: scheme by the SECURED flag, address in brackets, port |
| `EndpointString.PrintThenParse` | api/oc_endpoint.c:122-511 | parsing a printed endpoint always gives back port and scheme, and gives back the address exactly when its zero groups form at most one run |
| `Blockwise.Buffer.Dispatch` | api/oc_blockwise.c:359-375 | the size handed out and the next offset, as the code computes them |
| `Blockwise.SizeIsRight` | api/oc_blockwise.c:364-370 | that size is the size of the slice exactly when the block is the first or the payload is no shorter than a block |
| `Blockwise.AlignedIsRight` | api/oc_blockwise.c:364-370 | so it is right at every offset that is a multiple of the block size |
| `Blockwise.Buffer.SendBlock` | messaging/coap/engine.c:698-718 | the reply to a block request: none when the unsigned difference of offsets says that it has been provided, else the right slice, and the more flag exactly when bytes are left |
| `Blockwise.Buffer.HandleBlock` | api/oc_blockwise.c:377-397 | accepted exactly when it fits and does not leave a gap; the bytes received grow by the block when it is the next one |
| `Blockwise.RunIsSafe` | messaging/coap/engine.c:692-735 | over every run of requests of any kind that loses, repeats and reorders blocks of any sizes: the bytes received are a prefix of the payload, never shrink and never exceed the buffer |
| `Blockwise.EndIsRight` | messaging/coap/engine.c:1055-1085 | an accepted last block announces the right size exactly when it was the next one or everything was there before |
| `Blockwise.MixedSizesEndEarly` | messaging/coap/engine.c:1055-1085 | with two block sizes half of a payload is announced as all of it |
| `Blockwise.RunIsAligned` | api/oc_blockwise.c:359-397 | with one block size the end is announced only with all of the payload received |
| `Blockwise.AnsweredIsNear` | messaging/coap/engine.c:698-706 | with one block size and more to send, the sender answers a request exactly when it is for the next block or for the one before it, and then with the bytes of that block |
| `Blockwise.NeededIsSent` | messaging/coap/engine.c:692-735 | so the block that the receiver needs next has been sent before or is sent when it is asked for: the drop never starves it |
| `Blockwise.RoundsComplete` | messaging/coap/engine.c:1060-1084 | from every state a run can reach, asking for what comes next completes the exact payload in as many rounds as blocks are left, drops and freed buffers included |
| `Blockwise.CompletesIffItFits` | api/oc_blockwise.c:382-387 | a transfer can complete, at any point of any run, exactly when the payload fits into the receiving buffer |
| `Blockwise.NeededIsAnswered` | messaging/coap/engine.c:692-735 | a request for the block that the receiver needs is answered with that block, also when it has been sent before and the reply was lost; only the last of several blocks, once sent, is not |
| `Blockwise.LostCanBeAskedFor` | messaging/coap/engine.c:692-735 | over every run of a client that asks for what comes next, losses included |
| `Blockwise.FinishesAfreshIff` | messaging/coap/engine.c:692-735 | so with replies to new requests alone a transfer can be completed from any point of such a run exactly when all has been received, or the payload fits and the sender has not freed its buffer behind a last block that is missing |
| `Blockwise.SecondOfTwoIsLost` | messaging/coap/engine.c:719-741 | a run of two blocks in which the reply with the second is lost and no further request is answered |
| `GroupDevice.KnxDevice.FindIndex` | api/oc_knx_fp.c:195-204 | the first slot with the id |
| `GroupDevice.KnxDevice.FindEmpty` | api/oc_knx_fp.c:128-144 | the first free slot, none for a negative id |
| `GroupDevice.KnxDevice.ReadIntoSlot` | api/oc_knx_fp.c:572-647 | the items of an object are written to the slot one by one; whether only an id was there, and how many mandatory items |
| `GroupDevice.KnxDevice.CheckAndSave` | api/oc_knx_fp.c:471-509 | an entry that passes the checks is saved, one that fails is erased, and after a failure nothing is checked or saved |
| `GroupDevice.KnxDevice.HandlePost` | api/oc_knx_fp.c:511-675 | the tables, the writes to storage in their order, and the answer of a POST on either table; outside of loading nothing changes |
| `GroupDevice.KnxDevice.HandleDelete` | api/oc_knx_fp.c:740-778 | the same for a DELETE |
| `GroupDevice.KnxDevice.HandleLoadEvent` | api/oc_knx.c:390-413 | the same for a load event: 1 leads to loading, 2 to loaded, 4 to unloaded with both tables emptied, and 0 changes nothing |
| `GroupDevice.KnxDevice.StorageReset` | api/oc_knx_dev.c:1430-1497 | the same for a reset: modes 2 and 7 empty both tables and unload, all others leave them |
| `GroupDevice.KnxDevice.constructor` | api/oc_knx_fp.c:2490-2514 | start-up loads both tables and the load state from storage |
| `GroupTableRuns.EveryWriteIsSafe` | api/oc_knx.c:404-411 | after every single write of every action but reset 2, a start from storage that finds the device unloaded finds both tables empty |
| `GroupTableRuns.EraseThenUnload` | api/oc_knx.c:404-411 | erasing both tables before writing the state keeps this at each write |
| `GroupTableRuns.ResetTwoAnnouncesFirst` | api/oc_knx_dev.c:1430-1462 | reset 2 writes the state first: interrupted after k writes, it leaves an unloaded device without entries exactly when k is 0 or every slot it had not erased was free |
| `GroupTableRuns.UnloadedMeansEmpty` | api/oc_knx.c:390-413 | over every run of posts, deletions, load events, resets and power failures, as long as no reset 2 is cut short with entries left to erase: an unloaded device has empty tables in memory and in storage |
| `GroupTableReload.OkIffNoneFails` | api/oc_knx_fp.c:471-509 | a POST is answered without a failed check exactly when no object that is reached, in the table as the objects before it left it, is one that the checks reject |
| `GroupTableReload.PostMarked` | api/oc_knx_fp.c:511-675 | from any table and any storage, each slot afterwards in memory and in storage, in terms of the objects of the payload that reached it |
| `GroupTableReload.PostIsReloaded` | api/oc_knx_fp.c:511-675 | from any state, a POST leaves the table equal to its reload exactly when it leaves each slot in sync: saved or erased, or kept equal to what is stored, or not reached and in sync before |
| `GroupTableReload.UnfailedPostIsSaved` | api/oc_knx_fp.c:511-675 | after a POST in which no object fails, and after any POST of recipients: exactly when the slots that the payload did not reach were in sync |
| `GroupTableReload.KeptEntriesAreLost` | api/oc_knx_fp.c:471-479 | from a table equal to its reload: exactly when every entry kept after a failed check is the one in storage |
| `GroupTableReload.DeleteIsSaved` | api/oc_knx_fp.c:740-778 | after a DELETE that finds its entry, from any state: exactly when all other slots were in sync |
| `GroupTableReload.DriftIsExact` | api/oc_knx_fp.c:511-778 | after every run, power failures included: exactly which slots differ from what a restart loads |
| `GroupTableReload.TablesReload` | api/oc_knx_fp.c:511-778 | after every run the recipients are what a restart loads, and so are the group objects as long as no object posted to them has failed the checks |
| `GroupTableReload.RejectedRun` | api/oc_knx_fp.c:471-479 | a run after which they are not: a start, loading, and a POST of an object without a group address and a good one |
| `GroupTableReload.AcceptedAfterRejected` | api/oc_knx_fp.c:511-675 | and a POST that is then accepted does not repair it |
| `GroupTableIds.ObjectKeepsTidy` | api/oc_knx_fp.c:544-661 | one object keeps ids unique and every stored entry free or equal in id, at each write |
| `GroupTableIds.IdsStayUnique` | api/oc_knx_fp.c:511-778 | over every run, power failures included, used ids are unique in both tables when each posted object has one id key |
| `GroupTableEntries.FlagsAreCounts` | api/oc_knx_fp.c:603-618 | a list of flags is stored as the sum of their weights, each as often as it is listed: 1 is 8, 2 is 16, 3 is 64, 4 is 128, 5 is 32 |
| `GroupTableEntries.FlagsAreListed` | api/oc_knx_fp.c:603-618 | so the flags stored are the flags listed exactly when none is listed twice |
| `GroupTableEntries.ConversionsAre` | api/oc_knx_fp.c:586-634 | ids and addresses are the low 32 bits of the number posted, and the number itself when it fits |
| `GroupTableEntries.ObjectIsRead` | api/oc_knx_fp.c:572-647 | the href, group addresses, flags and id of a group object are those of the last item with key 11, 7, 8 and 0, or what they were; nothing else changes |
| `GroupTableEntries.ObjectIsCounted` | api/oc_knx_fp.c:569-647 | it is an id only exactly when no item is more than that; how many mandatory items |
| `GroupTableEntries.RecipientIsRead` | api/oc_knx_fp.c:1420-1513 | the same for the fields of a recipient, with keys 12, 13, 26, 25, 112, 10, 14 and 7 |
| `GroupTableEntries.FirstId` | api/oc_knx_fp.c:102-124 | the id that an object is found by is the first one listed |
| `GroupTableEntries.ObjectIsPosted` | api/oc_knx_fp.c:511-675 | while loading, an object that is complete, or changes an entry, is stored in its slot in memory and in storage when it has a group address, a flag and a known href of at most 30 characters, and answered as created or changed; nothing else changes |
| `GroupTableEntries.ObjectIsRemoved` | api/oc_knx_fp.c:471-509 | one that is an id only, new and incomplete, or rejected for any of these leaves its slot free, in memory and in storage |
| `GroupTableEntries.RecipientIsPosted` | api/oc_knx_fp.c:1361-1555 | while loading, a recipient is stored under the id that it was found by |
| `GroupTableEntries.PostedObjectAnswers` | api/oc_knx.c:848-955 | from the payload to a telegram: a posted object is overwritten, sent on, read or answered for exactly if its list of flags, without repeats, its group addresses and its resource say so |
| `GroupTableEntries.ReadTwiceIsOverwritten` | api/oc_knx_fp.c:603-618 | an object posted with the flag 2 is overwritten by "w" and answers no "r"; and one posted with the flag 1 twice does just the same |
| `SMode.AddressIsInjective` | api/oc_knx_fp.c:2577-2629 | two multicast addresses are equal exactly when group, scope and the low 40 bits of the installation id are |
| `SMode.AddressIs` | api/oc_knx_fp.c:2577-2629 | the address byte by byte: ff, 30 plus the scope, 00 30 fd, the low 40 bits of the installation id and the 32 bits of the group, both big-endian |
| `SMode.RegisterGroupMulticasts` | api/oc_knx_fp.c:2731-2810 | the addresses subscribed to |
| `SMode.Subscribed` | api/oc_knx_fp.c:2731-2810 | an address is subscribed to exactly when some group object receives on its group |
| `SMode.GroupForIs` | api/oc_knx_fp.c:2761-2808 | which group a group address is subscribed to: itself without publisher groups, else that of the first publisher entry that has it, if it is one |
| `SMode.Arrives` | api/oc_knx_client.c:837-847 | a telegram reaches exactly the devices that share the low 40 bits of the installation id and receive on its group |
| `SMode.ArrivesByAddress` | api/oc_knx_client.c:837-847 | without group numbers: exactly those with a READ, WRITE or UPDATE entry for the group address |
| `SMode.SendTelegrams` | api/oc_knx_client.c:762-873 | the telegrams sent for a resource, one for each of its entries that transmits |
| `SMode.TargetIs` | api/oc_knx_client.c:837-847 | a telegram goes to the group of the first recipient entry that has the group address, and to the group address itself if that has none or there is no such entry |
| `SMode.UpdateArrives` | api/oc_knx_client.c:762-873 | from device to device: an update reaches a device exactly when some sending entry has a first group address the other receives on |
| `SMode.FindGroupIndex` | api/oc_knx_fp.c:206-243 | find and find-next give the next used slot with the group address |
| `SMode.Dispatch` | api/oc_knx.c:830-955 | the calls a telegram leads to, up to an entry whose href is unknown |
| `SMode.CallsAre` | api/oc_knx.c:848-955 | each PUT, GET, response and telegram sent on, at either scope, is made exactly when its entry has the group address, the flags say so, bit by bit, and no matching entry up to it has an unknown href |
| `SMode.WriteReachesAll` | api/oc_knx.c:848-900 | with all hrefs known, a "w" telegram calls PUT for exactly the used entries with the WRITE flag and the group address, once each and in ascending order |
| `SMode.ReadIsAnswered` | api/oc_knx.c:920-955 | with all hrefs known, an "r" telegram is answered for exactly the used entries with the READ flag and the group address, at the scopes 2 and 5 |
| `SMode.SubscribersAreUsed` | api/oc_knx_fp.c:2775-2808 | over every run, a slot that is subscribed for is one that telegrams are dispatched to |
| `SMode.UnloadedIsSilent` | api/oc_knx_fp.c:2775-2808 | over every such run, an unloaded device subscribes to nothing |
| `LinkFormat.Response.AddResource` | api/oc_discovery.c:44-159 | a link is framed behind the links before it |
| `LinkFormat.NumberOfEntries` | api/oc_client_api.c:749-780 | as many entries as links |
| `LinkFormat.GetLine` | api/oc_client_api.c:782-835 | the line of an entry, found in one pass |
| `LinkFormat.LineIs` | api/oc_client_api.c:782-835 | entry k of a payload is the text of link k |
| `LinkFormat.GetUri` | api/oc_client_api.c:837-863 | the URI of a line is the URI of its link |
| `LinkFormat.GetParam` | api/oc_client_api.c:865-910 | the attribute of a line, found by scanning for the semicolon before it |
| `LinkFormat.ParamIs` | api/oc_client_api.c:865-910 | every attribute is read back; the last one takes in a semicolon that is left over |
| `LinkFormat.AttributesReadBack` | api/oc_discovery.c:44-159 | with the content type set, rt, if and ct are read back exactly, and missing ones are not found |
| `LinkFormat.InterfacesReadTooLong` | api/oc_discovery.c:138-156 | without a content type the interfaces are read back with a semicolon behind them |
| `LinkFormat.ReadPayload` | api/oc_client_api.c:749-910 | printing a list of links and reading it gives the same number of entries, and of each the URI and what is read of rt, if and ct: the values themselves, the last with a semicolon when there is no content type |
| `QueryStrings.NthKeyValue` | api/oc_ri.c:412-464 | key, value and next position of the n-th segment; a last segment without a value is given a key of no length |
| `QueryStrings.NthKeyExists` | api/oc_ri.c:490-543 | the same for keys with and without a value |
| `QueryStrings.CountingIsWalking` | api/oc_ri.c:412-488 | where all segments have a value, counting to the n-th and advancing n - 1 times lead to the same position |
| `QueryStrings.ScansAgree` | api/oc_ri.c:412-488 | and both give the same key, value and next position |
| `QueryStrings.QueryValue` | api/oc_ri.c:466-488 | the value of the first segment with the key, as long as all segments before it have one |
| `QueryStrings.LookupIsFirst` | api/oc_ri.c:466-488 | that is the first match in the list of segments |
| `QueryStrings.QueryExists` | api/oc_ri.c:545-569 | for a key that is not empty, found exactly when some segment has it, ignoring case |
| `QueryStrings.SameKeyIs` | api/oc_ri.c:480-480 | keys are the same exactly when they differ in the case of ASCII letters only |
| `QueryStrings.ReadQueryText` | api/oc_ri.c:412-569 | the segments of a query built from segments are those segments |
| `HandshakeLimiter.Limiter.DecrementCounter` | api/oc_knx.c:1263-1274 | a tick counts down, and ends blocking at zero |
| `HandshakeLimiter.Limiter.IncrementCounter` | api/oc_knx.c:1276-1280 | a failure counts up and does not itself block |
| `HandshakeLimiter.Limiter.IsHandshakeBlocked` | api/oc_knx.c:1282-1297 | more than ten failures begin to block |
| `HandshakeLimiter.Limiter.Admit` | api/oc_knx.c:1333-1340 | a request is turned away exactly when the limiter blocks, and is told ten seconds for each failure counted |
| `HandshakeLimiter.FailuresAreLimited` | api/oc_knx.c:1258-1303 | over every run, failures exceed ticks by at most ten and the most requests that were pending together, and blocking means that failures are counted |
| `HandshakeLimiter.LimitIsReached` | api/oc_knx.c:1258-1303 | that limit is exact |
| `HandshakeLimiter.ElevenTicks` | api/oc_knx.c:1282-1297 | at least eleven ticks pass between a request that begins to block and the next one that is admitted |
| `HandshakeLimiter.AnnouncedTime` | api/oc_knx.c:1299-1303 | the waiting time that is announced is exact when nothing else fails |

## Left out

- Sockets, event processes, timers, DNS-SD, logging, and the file format of storage: storage is a map from slots to entries, and an entry is taken to fit the 1024 bytes that are read back.
- tinyCBOR, mbedTLS, the SPAKE2+ computation and OSCORE encryption are not part of this model; a CBOR item is a value, and printing a floating-point number is a parameter of the JSON writer (JsonRoundTrip.Formats asks that it prints numbers, and JSON then holds their values).
- The message cache for echo retransmission (api/oc_replay.c:261-337), whose search assigns where it is meant to compare.
- Sequence numbers from 2^63 on: a record's number and the number checked are below it, and OSCORE bounds them by 2^40.
- oc_parse_rep at the root (api/oc_rep.c:561-589), which unwraps the outermost list, and freeing of trees; allocation always succeeds.
- What memory holds in the rest of a typed array after a null: CborTree.Parsed says only that it is lost. What a slot holds after a string too long for it is a parameter, arbitrary in all lemmas.
- JSON buffers of address NULL are buffers of size 0, and names and texts hold no zero byte.
- Discovery by multicast, resources without a URI, the router block dpa.11 and more functional blocks than the table of 50 holds: the filters on rt and if are inputs.
- DiscoveryPaging.LinkForgetsTheFilter: takes the basic resources to be discoverable and ids to tell resources apart.
- Text of rt and if values in link format: the values of rt are one text.
- IPv4 addresses, host names, TCP schemes, and the signs and white space that strtoul skips.
- EndpointString.ParseEndpoint: states nothing for text that is not well-formed, except that it returns.
- Blocks left over from an earlier transfer, the buffers' time-outs, and a request without a block option, which frees the sender's buffer and starts the transfer over (Blockwise.Step has requests for a block, and frees the buffer behind the last one). Blockwise.CompletesIffItFits asks that payload and block size together stay within the 32 bits of an offset.
- The fields non and mt of a recipient, which are never written to storage; the publisher table, except for its group numbers in SMode; the fingerprint; application calls that set entries directly.
- Posting with several id keys in one object: GroupTableIds.IdsStayUnique asks for one; GroupTableRuns.UnloadedMeansEmpty does not.
- Unicast copies of telegrams for recipients with a URL, whose search has no bound on its index (api/oc_knx_fp.c:1698-1714), and the update of a device's own other entries when it sends a response, which walks the table as SMode.Dispatch does.
- Builds without OC_USE_MULTICAST_SCOPE_2, which send at scope 5 only; the trust in first multicast messages is a parameter of the replay pool.
- The port of subscriptions: a telegram is sent to port 5683 and a subscription is made for the device's multicast port; SMode compares addresses only.
- Serial-number text, paging of /f and of sparse tables, device attributes, software update, group mapping, UUIDs and interface masks.
