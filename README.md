# XBee API packet engine, modelled in Dafny

This project models the packet engine of the python-xbee library: the code
that turns a named command and its keyword arguments into the bytes of an
XBee API frame, and that splits a received frame back into a named packet
with one entry per field.

- **Framing** (`xbee_frame.dfy`, `api_frame.dfy`): the one-byte API checksum
  (`0xFF` minus the low byte of the sum), its verification, the big-endian
  signed 16-bit length prefix, `fill_frame` and `empty_frame`, and the
  `APIFrame` object that keeps its data and computes the same checksum.
- **Backend engine** (`marshal.dfy`): `_build_command` over a table of
  command fields (required, defaulted, optional), `_split_response` over a
  table of response fields (fixed length, trailing variable length,
  null-terminated), the echoed-command error, and the per-response
  `parsing` rules applied after the split; `send` as framing of the built
  command.
- **IO samples** (`io_samples.dfy`): the sample header of the Series 1
  layout and of the ZigBee layout (sample count, digital and analog channel
  lists, digital mask) and the sample decoder that pops two bytes of digital
  lines and two bytes per analog channel for each sample.
- **AT response hooks** (`at_hooks.dfy`): the `IS` hook that decodes a
  successful `IS` reply as IO samples, and the ZigBee `ND` hook that decodes
  a node-discovery reply into its named parts.
- **Protocol tables** (`ieee.dfy`, `zigbee.dfy`, `digimesh.dfy`): the
  command and response tables of the Series 1, ZigBee and DigiMesh devices,
  with lemmas about what the engine does on them.
- **Legacy engine** (`legacy_base.dfy`, `xbee1.dfy`): the older engine of
  `xbee/base.py` and `xbee1.py`, whose tables give a length per field and a
  separate field order, and whose sample decoder masks analog readings to
  10 bits.

Supporting modules: `bytes.dfy` (bytes, sums, Python slicing, ASCII lower
case, 16-bit words), `results.dfy` (the `Result` type whose error tags
stand for the exceptions the source raises) and `packets.dfy` (the table
and packet datatypes).

Every loop of the source is a Dafny `method` with a loop and its
invariants, proved equal to a function on values; the lemmas then state
what those functions mean (round trips, completeness, error conditions,
the concrete frames of the library's own examples).

## Model

| member | source | states |
|---|---|---|
| XBeeFrame.Checksum | xbee.py:17-36 | the loop yields `0xFF` minus the low byte of the byte sum, and that byte verifies the data |
| XBeeFrame.VerifyChecksum | xbee.py:38-60 | accepts exactly when data plus checksum sum to `0xFF` modulo 256, i.e. exactly when the checksum is the one `checksum` computes |
| XBeeFrame.ChecksumVerifies | xbee.py:17-60 | the checksum of any data verifies that data |
| XBeeFrame.VerifiesIff | xbee.py:17-60 | a byte verifies the data if and only if it is that data's checksum |
| XBeeFrame.ChecksumOrderFree | xbee.py:26-33 | the checksum depends only on the multiset of bytes, not their order |
| XBeeFrame.LenBytes | xbee.py:62-71 | succeeds exactly below 32768 bytes, giving two big-endian bytes equal to the length; otherwise the signed pack fails |
| XBeeFrame.Signed16 | xbee.py:96-99 | the signed big-endian reading lies in [-32768, 32768) and agrees with the unsigned reading modulo 65536 |
| XBeeFrame.FillFrame | xbee.py:73-85 | a frame is start byte, length, data and checksum: length is data length plus 4, the length bytes decode to the data length, the data sits at offset 3, and the last byte verifies it |
| XBeeFrame.FillFrameLayout | xbee.py:73-85 | below 32768 bytes, the frame is the start byte `0x7E`, the length as high and low byte, the data and its checksum |
| XBeeFrame.EmptyFrame | xbee.py:87-110 | a result is the slice after the length bytes and is verified by the frame's last byte; frames under 3 bytes are rejected, any other rejection is the checksum error, and when the signed length fits the frame is accepted exactly when its checksum verifies that many payload bytes, which are the result |
| XBeeFrame.EmptyFrameWellFormed | xbee.py:87-110 | on a frame whose length field matches its size, the result is the data if its checksum verifies and the checksum error otherwise |
| XBeeFrame.FrameRoundTrip | xbee.py:73-110 | emptying a filled frame gives back the data |
| XBeeFrame.CorruptedChecksumRejected | xbee.py:87-110 | replacing the checksum byte of a filled frame by any other byte makes it rejected |
| XBeeFrame.FrameExamples | xbee.py:17-110 | the checksum, length, fill and empty results on the library's example frames |
| ApiFrame.APIFrame.constructor | xbee/frame.py:11-12 | the frame keeps the data it was given |
| ApiFrame.APIFrame.Checksum | xbee/frame.py:14-32 | the frame's checksum equals the framing checksum of its data and verifies it |
| Marshal.FindCommand | xbee/backend/base.py:96-97 | a found command is in the table with that name; none found means no command has it |
| Marshal.BuildCommand | xbee/backend/base.py:84-145 | the loop over the command's fields equals the field-by-field specification `Build` |
| Marshal.FieldDataMeaning | xbee/backend/base.py:105-143 | a field contributes its argument, else its non-empty default, else nothing when it has no length; it fails when a sized field has neither, or when the bytes have the wrong length |
| Marshal.BuildFieldsOk | xbee/backend/base.py:105-145 | building succeeds if and only if every field succeeds, and the packet is the concatenation of the fields' bytes in table order |
| Marshal.BuildFieldsError | xbee/backend/base.py:105-138 | a failed build reports the error of the first failing field, all earlier fields having succeeded |
| Marshal.BuildFieldsParts | xbee/backend/base.py:105-145 | when each field yields its own bytes, the packet is those bytes concatenated in table order |
| Marshal.BuildStartsWithId | xbee/backend/base.py:105-145 | a built packet starts with the command's id byte from the default of its first field |
| Marshal.SendUnframes | xbee/backend/base.py:328-343 | the frame written by `send` empties back to the built command |
| Marshal.WalkIndex | xbee/backend/base.py:190-226 | the field walk never moves the index backwards nor past the end of the data |
| Marshal.EchoedCommandMeaning | xbee/backend/base.py:167-178 | an id is reported as an echoed command if and only if some command's id default is that byte, and the name reported is the first such command |
| Marshal.UnknownId | xbee/backend/base.py:160-184 | an unknown id gives the echoed-command error naming the command when one has that id, and the unknown-response error otherwise |
| Marshal.RunParseRule | xbee/backend/base.py:235-242 | running one parse rule equals the hook's specification `RunHook` |
| Marshal.ReadTerminated | xbee/backend/base.py:192-200 | the null-terminator scan stops at the first `0x00` from the index and collects the bytes before it; no terminator is reported as none |
| Marshal.WalkFields | xbee/backend/base.py:183-226 | the loop over the response fields, starting after the id byte, equals the field walk `Walk` |
| Marshal.ApplyParsingRules | xbee/backend/base.py:235-242 | the loop over parse rules equals the specification `ApplyParsing` |
| Marshal.SplitResponse | xbee/backend/base.py:147-244 | the split loop, including the null-terminator scan, equals the specification `Split` |
| Marshal.WalkEncode | xbee/backend/base.py:190-233 | walking the encoding of field values consumes all of it and stores exactly those values |
| Marshal.WalkDecodes | xbee/backend/base.py:190-233 | a walk that consumes all data is the walk of some field values whose encoding is that data |
| Marshal.WalkDecodesFixed | xbee/backend/base.py:201-215 | a complete walk starting with a fixed-length field comes from field values whose encoding is the rest of the data |
| Marshal.WalkDecodesNull | xbee/backend/base.py:192-200 | a complete walk starting with a null-terminated field comes from field values whose encoding is the rest of the data |
| Marshal.FieldsMeaning | xbee/backend/base.py:190-226 | the packet holds a field if and only if it was read with bytes (a trailing field only when non-empty), and holds those bytes |
| Marshal.FieldsKeys | xbee/backend/base.py:187-226 | a name is in the packet exactly when it was there before or some field of that name was stored |
| Marshal.FieldsStored | xbee/backend/base.py:200-225 | with distinct names, every stored field holds its own raw bytes |
| Marshal.FieldsKept | xbee/backend/base.py:187-226 | an entry no field names is kept unchanged |
| Marshal.ApplyParsingKeeps | xbee/backend/base.py:235-242 | parse rules keep the packet id and field names and leave every field no rule names untouched |
| Marshal.ApplyOneRule | xbee/backend/base.py:238-242 | a rule whose field is absent is skipped; otherwise its hook's value replaces the field, or its error is raised |
| Marshal.ApplyTwoRules | xbee/backend/base.py:236-242 | two rules on the same present field run in order: the second sees the first one's value, and an error of the first stops the parse |
| Marshal.ApplyParsingAbsent | xbee/backend/base.py:238-239 | rules whose fields are all absent leave the packet unchanged |
| Marshal.SplitUnknownId | xbee/backend/base.py:160-184 | an unknown id fails with a key error, which is the echoed-command error exactly when a command has that id byte |
| Marshal.SplitRoundTrip | xbee/backend/base.py:147-244 | splitting the id followed by encoded field values gives the packet of those values after the parse rules |
| Marshal.SplitComplete | xbee/backend/base.py:147-244 | on well-formed tables every successful split comes from a known id and from field values whose encoding is the rest of the data |
| Marshal.WalkFixed | xbee/backend/base.py:201-215 | fixed-length fields succeed exactly when their total length fits, ending at that total, and otherwise report a short packet |
| Marshal.SplitFixed | xbee/backend/base.py:201-233 | with fixed fields only, shorter data is a short-packet error, longer data a long-packet error, and exact data is split |
| Marshal.WalkIgnoresDefaults | xbee/backend/base.py:190-226 | splitting reads only field names and lengths, never defaults |
| Marshal.WalkKeepsRaw | xbee/backend/base.py:190-226 | the field walk stores raw bytes only |
| Marshal.SplitWithoutParsing | xbee/backend/base.py:235-244 | without parse rules every field of a split packet is raw bytes |
| Marshal.FourFields | xbee/backend/base.py:190-226 | three fixed fields and a trailing one encode by concatenation, the trailing one stored only when non-empty |
| Marshal.SplitFour | xbee/backend/base.py:147-244 | splitting the id and four field values of a three-fixed-plus-trailing response gives those values, then the response's parse rules |
| IoSamples.Channels | xbee/backend/base.py:268-282 | a channel list built from a mask holds only channels below the bound |
| IoSamples.ChannelsMeaning | xbee/backend/base.py:268-282 | a channel is listed if and only if its mask bit is set, in ascending order |
| IoSamples.ChannelLoop | xbee/backend/base.py:272-282 | the loop over mask bits equals the channel list `Channels` |
| IoSamples.Series1Header | xbee/backend/base.py:246-284 | the Series 1 header needs three bytes and has size 3 |
| IoSamples.ZigBeeHeader | xbee/zigbee.py:217-257 | the ZigBee header needs four bytes and has size 4 |
| IoSamples.HeaderOf | xbee/backend/base.py:298-299 | the layout's header succeeds exactly when the data holds a whole header |
| IoSamples.Series1SamplesHeader | xbee/backend/base.py:246-284 | the header loops equal the specification `Series1Header` |
| IoSamples.ZigBeeSamplesHeader | xbee/zigbee.py:217-257 | the header loops equal the specification `ZigBeeHeader` |
| IoSamples.MaskLow9 | xbee/backend/base.py:261-263 | the Series 1 digital mask keeps exactly channels 0 to 8 |
| IoSamples.AnalogBitsSeries1 | xbee/backend/base.py:265-266 | Series 1 analog channel c is bit c+1 of the first mask byte |
| IoSamples.MaskZigBee | xbee/zigbee.py:235-236 | the ZigBee digital mask keeps exactly channels 0 to 6 and 9 to 11 |
| IoSamples.Series1HeaderMeaning | xbee/backend/base.py:246-284 | count is the first byte; digital channels are the set bits 0-8 of the mask word; analog channels are the set bits 1-7 of the first mask byte, shifted down; both ascending |
| IoSamples.ZigBeeHeaderMeaning | xbee/zigbee.py:217-257 | count is the first byte; digital channels are the set bits 0-6 and 9-11 of the mask word; analog channels are the set bits of the fourth byte; both ascending |
| IoSamples.DigitalLines | xbee/backend/base.py:316-318 | the loop over digital channels equals `ReadDigital` |
| IoSamples.AnalogValues | xbee/backend/base.py:320-322 | the loop over analog channels equals `ReadAnalog` |
| IoSamples.PopSample | xbee/backend/base.py:307-324 | one sample's loop equals `ReadSample` |
| IoSamples.ParseSamples | xbee/backend/base.py:286-326 | the samples loop equals the specification `Samples` |
| IoSamples.ReadAnalogLength | xbee/backend/base.py:320-322 | analog reading succeeds exactly when two bytes per channel remain, and consumes exactly those |
| IoSamples.ReadAnalogValues | xbee/backend/base.py:320-322 | each analog channel k holds the big-endian word at bytes 2k and 2k+1, unmasked |
| IoSamples.ReadAnalogAt | xbee/backend/base.py:320-322 | the k-th listed analog channel holds the big-endian word at bytes 2k and 2k+1 |
| IoSamples.ReadAnalogKeys | xbee/backend/base.py:320-322 | analog reading adds exactly the listed channels and keeps all other entries |
| IoSamples.ReadDigitalValues | xbee/backend/base.py:316-318 | each listed digital channel holds its bit of the masked word; other entries are kept |
| IoSamples.ReadSampleLength | xbee/backend/base.py:307-324 | a sample succeeds exactly when its size is available, and consumes exactly that size |
| IoSamples.ReadSampleDigital | xbee/backend/base.py:310-318 | a sample has exactly the header's digital channels, each the bit of the masked first word |
| IoSamples.ReadSampleAnalog | xbee/backend/base.py:320-322 | a sample has exactly the header's analog channels, each the word after the digital bytes |
| IoSamples.ReadSamplesLength | xbee/backend/base.py:307-326 | n samples succeed exactly when n sample sizes are available and give n samples after those already read |
| IoSamples.ReadSamplesNth | xbee/backend/base.py:307-326 | sample j is the sample read at offset j times the sample size |
| IoSamples.ReadManyLength | xbee/backend/base.py:307-326 | reading n samples of a fixed size succeeds exactly when n sizes of bytes are present, appending n results |
| IoSamples.ReadManyNth | xbee/backend/base.py:307-326 | the j-th of n fixed-size samples is the one read j sizes into the bytes |
| IoSamples.ReadManyAll | xbee/backend/base.py:307-326 | reading n fixed-size samples gives n results, result j read j sizes into the bytes |
| IoSamples.SampleReader | xbee/backend/base.py:307-324 | reading one sample succeeds exactly when the sample size is available and then consumes exactly that size |
| IoSamples.SamplesMeaning | xbee/backend/base.py:286-326 | decoding succeeds exactly when header and count samples fit; the result has count samples, sample j read at header size plus j sample sizes |
| IoSamples.SamplesOk | xbee/backend/base.py:286-326 | decoding succeeds exactly when the header fits and count samples fit after it |
| IoSamples.SamplesAt | xbee/backend/base.py:286-326 | a decoded list has count samples, sample j read j sample sizes after the header |
| IoSamples.OneSample | xbee/backend/base.py:286-326 | a one-sample header followed by exactly one sample decodes to that sample |
| IoSamples.SampleExampleAllHigh | xbee/backend/base.py:286-326 | the one-sample frame with all nine digital lines high decodes to nine true lines |
| IoSamples.SampleExampleMixed | xbee/backend/base.py:286-326 | the example with odd digital lines high and ADC 0 at 255 decodes to those values |
| AtHooks.Lookup | xbee/ieee.py:152-160 | a lookup succeeds exactly for a field the packet holds |
| AtHooks.LookupBytes | xbee/ieee.py:152-160 | a byte lookup succeeds exactly for a raw field the packet holds |
| AtHooks.LowerMatchesCommand | xbee/zigbee.py:170-178 | lower-casing matches a two-letter command exactly when each byte is that letter in either case |
| AtHooks.IsAtResponseMeaning | xbee/ieee.py:152-160 | a successful `IS` reply (status 0) decodes its parameter as IO samples; any other reply keeps its raw parameter |
| AtHooks.ParseNdAtResponse | xbee/zigbee.py:180-211 | the node-discovery loop equals the specification `NdAtResponse` |
| AtHooks.NdRoundTrip | xbee/zigbee.py:180-211 | a node record laid out as address, long address, terminated name and the fixed tail decodes to those parts |
| AtHooks.NdDecodeComplete | xbee/zigbee.py:180-211 | a record decodes exactly when its name's terminator leaves exactly 8 tail bytes, and the parts concatenate back to the record |
| AtHooks.NdAtResponseMeaning | xbee/zigbee.py:180-211 | a successful `ND` reply decodes its parameter as a node record; any other reply keeps its raw parameter |
| Ieee.CommandsWellFormed | xbee/ieee.py:33-64 | every Series 1 command starts with its id field and names are distinct |
| Ieee.ReceivedWellFormed | xbee/ieee.py:85-118 | receive tables have distinct names, only a last field of variable length, and no field named id |
| Ieee.RepliesWellFormed | xbee/ieee.py:119-150 | status and AT reply tables are well formed in the same sense |
| Ieee.TablesWellFormed | xbee/ieee.py:33-150 | the Series 1 command and response tables are well formed |
| Ieee.EchoedIds | xbee/ieee.py:33-64 | each command's id maps back to that command's name |
| Ieee.CommandIdsAreNotResponses | xbee/ieee.py:33-150 | no command id is a response id, so an echoed command is reported by name |
| Ieee.AtPayload | xbee/ieee.py:33-37 | an AT command is id 0x08, frame id (default 0x00), command and optional parameter |
| Ieee.BuildAtExamples | xbee/ieee.py:33-37 | built AT commands for given, defaulted, missing and mis-sized arguments |
| Ieee.SumAtPayloads | xbee/ieee.py:33-37 | byte sums of the example AT payloads |
| Ieee.SendAtExamples | xbee/ieee.py:33-37 | the framed bytes `send` writes for the example AT commands |
| Ieee.SplitStatusExamples | xbee/ieee.py:124-127 | status frames of exact, short and long size, an unknown id and an echoed tx command |
| Ieee.AtResponseHook | xbee/ieee.py:128-137 | the `IS` hook on an AT reply leaves a reply without parameter alone and otherwise acts as the `IS` decoder |
| Ieee.AtResponseSplit | xbee/ieee.py:128-137 | splitting an AT reply gives frame id, command, status and, when present, the parameter after the hook |
| Ieee.SplitAtResponseExamples | xbee/ieee.py:128-137 | split results of example AT replies with and without a parameter |
| Ieee.SplitMyReplyBare | xbee/ieee.py:128-137 | an `MY` reply with error status and no parameter splits into frame id, command and status |
| Ieee.SplitMyReplyParameter | xbee/ieee.py:128-137 | an `MY` reply with a parameter keeps the parameter raw, since only `IS` is decoded |
| Ieee.SplitIsResponseExample | xbee/ieee.py:128-160 | an `IS` reply's parameter is replaced by its decoded samples |
| Ieee.IsReplySplit | xbee/ieee.py:128-160 | any successful `IS` reply whose parameter decodes splits into its fields with the parameter replaced by the samples |
| Ieee.GeneralizedParsingExample | xbee/backend/base.py:235-242 | a parse rule with a constant hook replaces the field's value |
| Ieee.RxIoDataSplit | xbee/ieee.py:109-118 | an IO data frame splits into address, RSSI, options and samples decoded by the Series 1 decoder |
| Ieee.RxIoDataDecoded | xbee/ieee.py:109-118 | an IO data frame whose samples decode splits into address, RSSI, options and those samples |
| Ieee.RxIoDataExample | xbee/ieee.py:109-118 | a concrete IO data frame from address 00 01 splits with its sample decoded to DIO 1, 3, 5, 7 high and ADC 0 at 255 |
| XBeeZB.CommandsWellFormed | xbee/zigbee.py:35-74 | every ZigBee command starts with its id field and names are distinct |
| XBeeZB.RxWellFormed | xbee/zigbee.py:90-107 | the two receive tables are well formed |
| XBeeZB.RxIoDataWellFormed | xbee/zigbee.py:108-117 | the IO data table is well formed |
| XBeeZB.NodeIdWellFormed | xbee/zigbee.py:154-168 | the node identification table is well formed |
| XBeeZB.StatusWellFormed | xbee/zigbee.py:118-129 | the status tables are well formed |
| XBeeZB.RepliesWellFormed | xbee/zigbee.py:130-153 | the AT reply tables are well formed |
| XBeeZB.TablesWellFormed | xbee/zigbee.py:35-168 | the ZigBee command and response tables are well formed |
| XBeeZB.EchoedIds | xbee/zigbee.py:35-74 | each command's id maps back to that command's name |
| XBeeZB.CommandIdsAreNotResponses | xbee/zigbee.py:35-168 | no command id is a response id, so an echoed command is reported by name |
| XBeeZB.AtResponseHooks | xbee/zigbee.py:130-141 | an AT reply runs the `IS` hook and then the `ND` hook on its parameter |
| XBeeZB.IsReplyHooks | xbee/zigbee.py:130-141 | on a successful `IS` reply the parameter is decoded by the ZigBee sample decoder, and the `ND` hook leaves it alone |
| XBeeZB.NdReplyHooksMeaning | xbee/zigbee.py:130-211 | on a successful `ND` reply the parameter becomes its node record, or the record error is raised |
| XBeeZB.OtherReplyHooks | xbee/zigbee.py:130-141 | any other reply keeps its raw parameter |
| XBeeZB.AtResponseSplit | xbee/zigbee.py:130-141 | splitting an AT reply gives frame id, command, status and the hooked parameter |
| XBeeZB.SplitNdResponseExample | xbee/zigbee.py:130-211 | a successful `ND` reply's parameter becomes its node record |
| XBeeZB.NdReplySplit | xbee/zigbee.py:130-141 | an `ND` reply with status 0 splits into its fixed fields and raw parameter before the hooks run |
| XBeeZB.NdReplyHooks | xbee/zigbee.py:130-211 | the hooks turn a well-laid-out `ND` parameter into its address, long address, name and tail |
| XBeeZB.RemoteAtResponseHook | xbee/zigbee.py:142-153 | a remote AT reply runs only the `IS` hook |
| XBeeZB.RxIoDataLongAddrSplit | xbee/zigbee.py:108-117 | an IO data frame splits into addresses, options and samples decoded by the ZigBee decoder |
| XBeeZB.NodeIdIndicatorSplit | xbee/zigbee.py:154-168 | a node identification frame splits into its fixed fields, terminated name and trailing fields |
| XBeeZB.NodeIdIndicatorUnterminated | xbee/zigbee.py:154-168 | a node identification frame whose name has no terminator is rejected |
| XBeeZB.NodeIdExample | xbee/zigbee.py:154-168 | a concrete node identification frame and its name |
| DigiMesh.CommandsWellFormed | xbee/backend/digimesh.py:35-67 | every DigiMesh command starts with its id field and names are distinct |
| DigiMesh.RepliesWellFormed | xbee/backend/digimesh.py:83-107 | the AT reply, status and transmit status tables are well formed |
| DigiMesh.ReceivedWellFormed | xbee/backend/digimesh.py:109-149 | the receive and remote AT reply tables are well formed |
| DigiMesh.NodeIdWellFormed | xbee/backend/digimesh.py:128-138 | the node identification table is well formed |
| DigiMesh.TablesWellFormed | xbee/backend/digimesh.py:35-151 | the DigiMesh command and response tables are well formed |
| DigiMesh.SplitValuesRaw | xbee/backend/digimesh.py:83-151 | DigiMesh has no parse rules, so every split field is raw bytes |
| DigiMesh.TxStatusSplit | xbee/backend/digimesh.py:99-107 | a transmit status frame must be exactly 7 bytes and then splits into its five fields |
| DigiMesh.TxStatusExample | xbee/backend/digimesh.py:99-107 | a concrete transmit status frame and its fields |
| DigiMesh.NodeIdSplit | xbee/backend/digimesh.py:128-138 | a node identification frame splits into its fixed fields, terminated name, parent and trailing bytes |
| DigiMesh.NodeIdUnterminated | xbee/backend/digimesh.py:128-138 | a name without terminator is rejected |
| DigiMesh.NodeIdTruncated | xbee/backend/digimesh.py:128-138 | a frame ending before the parent field is short |
| DigiMesh.RemoteAtPayload | xbee/backend/digimesh.py:49-57 | a remote AT command fills frame id, reserved bytes and options from their defaults around the given address and command |
| DigiMesh.RemoteAtFields | xbee/backend/digimesh.py:49-57 | the remote AT fields build to 0x17, frame id 0, the destination, `ff fe`, options 2, the command and any parameter |
| DigiMesh.RemoteAtNeedsDestination | xbee/backend/digimesh.py:49-57 | a remote AT command without long address is refused with that field named |
| DigiMesh.TxPayload | xbee/backend/digimesh.py:58-66 | a transmit command fills its defaults around the given address |
| DigiMesh.TxFields | xbee/backend/digimesh.py:58-66 | the transmit fields build to 0x10, frame id 0, the destination, `ff fe`, radius 0, options 0 and any data |
| DigiMesh.TxNeedsDestination | xbee/backend/digimesh.py:58-66 | a transmit command without address is refused with that field named |
| DigiMesh.RxSplit | xbee/backend/digimesh.py:109-116 | a receive frame splits into address, reserved, options and data |
| LegacyBase.SamplesHeader | xbee/base.py:261-312 | the legacy header succeeds exactly on three or more bytes |
| LegacyBase.ParseSamplesHeader | xbee/base.py:261-312 | the header loops equal `SamplesHeader` |
| LegacyBase.AnalogFlags | xbee/base.py:304-310 | the analog flag loop lists the set bits 1 to 6 of the first mask byte, shifted down |
| LegacyBase.DigitalLinesMeaning | xbee/base.py:289-302 | digital line c < 8 is listed iff bit c of the second mask byte is set, line 8 iff bit 0 of the first, ascending |
| LegacyBase.AnalogLinesMeaning | xbee/base.py:304-310 | analog line c is listed iff c < 6 and bit c+1 of the first mask byte is set, ascending |
| LegacyBase.SamplesHeaderMeaning | xbee/base.py:261-312 | count is the first byte; digital lines 0-7 are the bits of the third byte and line 8 bit 0 of the second; analog lines are bits 1-6 of the second byte; ascending |
| LegacyBase.DigitalValues | xbee/base.py:342-357 | the digital loop equals `ReadDigital` |
| LegacyBase.AnalogValues | xbee/base.py:361-376 | the analog loop equals `ReadAnalog` |
| LegacyBase.ParseSample | xbee/base.py:337-378 | one sample's code equals `ReadSample` |
| LegacyBase.ParseSamples | xbee/base.py:314-380 | the samples loop equals `Samples` |
| LegacyBase.ReadDigitalMeaning | xbee/base.py:342-357 | reading succeeds when the needed bytes are present; line 8 is bit 0 of the first byte, lines 0-7 the bits of the second |
| LegacyBase.ReadDigitalLow | xbee/base.py:342-357 | a digital line below 8 reads bit c of the second sample byte |
| LegacyBase.AnalogValueMeaning | xbee/base.py:364-370 | masking the signed reading with `0x3FF` gives the unsigned word modulo 1024 |
| LegacyBase.ReadAnalogRange | xbee/base.py:361-376 | every analog value lies in [0, 1024) |
| LegacyBase.SampleAnalogRange | xbee/base.py:361-376 | every analog value of one decoded sample lies in [0, 1024) |
| LegacyBase.ReadSamplesMeaning | xbee/base.py:337-380 | n samples are appended after those already read, all analog values in range |
| LegacyBase.SamplesMeaning | xbee/base.py:314-380 | a decoded sample list has as many samples as the count byte, with analog values in [0, 1024) |
| LegacyBase.HeaderAllHigh | xbee/base.py:261-312 | the all-lines-high header lists nine digital lines and no analog line |
| LegacyBase.DigitalAllHigh | xbee/base.py:342-357 | all nine digital lines read high from `01 FF` |
| LegacyBase.SampleExampleAllHigh | xbee/base.py:314-380 | the all-lines-high sample frame decodes to nine true lines |
| LegacyBase.Convert | xbee/base.py:219-242 | a legacy field keeps its name, and its length becomes fixed or trailing |
| LegacyBase.SplitResponse | xbee/base.py:191-259 | the legacy split loop equals `Split` |
| LegacyBase.Backend | xbee/base.py:191-250 | the backend tables built from legacy tables have the same response ids and no commands |
| LegacyBase.SplitAgreesWithBackend | xbee/base.py:191-250 | without sample parsing the legacy split equals the backend split on converted tables |
| LegacyBase.ParseIoFieldMeaning | xbee/base.py:252-259 | no sample field leaves the packet as is; a missing field is a key error; otherwise the field is replaced by its decoded samples |
| LegacyBase.SplitRoundTrip | xbee/base.py:191-259 | splitting the id and encoded values gives those values, with samples decoded |
| LegacyBase.SplitComplete | xbee/base.py:191-259 | every successful legacy split comes from field values whose encoding is the data |
| LegacyBase.SplitMissingSamples | xbee/base.py:252-259 | a sample packet whose sample field is empty, hence absent, raises a key error |
| LegacyBase.SplitFour | xbee/base.py:191-259 | splitting the id and four field values of a three-fixed-plus-trailing response gives those values, then the sample step |
| XBee1.BuildCommand | xbee1.py:165-209 | the build loop equals `Build` |
| XBee1.ParamDataMeaning | xbee1.py:186-207 | a parameter contributes its argument or, when it is trailing and absent, nothing; a sized one is missing or of the wrong length is an error |
| XBee1.BuildParamsOk | xbee1.py:178-209 | building succeeds iff every parameter does, and the packet is their concatenation in order |
| XBee1.BuildParamsIgnores | xbee1.py:181-184 | arguments named like reserved or unlisted parameters do not change the packet |
| XBee1.BuildStartsWithId | xbee1.py:178-184 | a built packet starts with the command id, and an `id` argument is ignored |
| XBee1.AtPayload | xbee1.py:31-36 | an AT command is 0x08, frame id, command and the optional parameter |
| XBee1.BuildAtExamples | xbee1.py:31-36 | built AT commands for given, missing, mis-sized and empty arguments, and an unknown name |
| XBee1.SendUnframes | xbee1.py:133-148 | the frame `send` writes empties back to the built command |
| XBee1.SendAtExamples | xbee1.py:133-148 | the framed bytes `send` writes for the example AT commands |
| XBee1.SendAtExampleBare | xbee1.py:133-148 | `send` of an `MY` command with frame id `A` writes `7E 00 04 08 41 4D 59 10` |
| XBee1.SendAtExampleParameter | xbee1.py:133-148 | the same command with a two-byte parameter writes the longer frame with its own checksum |
| XBee1.ResponsesWellFormed | xbee1.py:75-121 | every legacy response has a trailing field only in last position |
| XBee1.SplitRoundTrip | xbee1.py:211-281 | splitting the id and encoded values gives those values |
| XBee1.SplitUnknownId | xbee1.py:223-231 | an unknown id is a key error, and no command id is a response id |
| XBee1.SplitStatusExamples | xbee1.py:211-281 | status frames of exact, short and long size and unknown ids |
| XBee1.AtResponseSplit | xbee1.py:105-111 | an AT reply splits into frame id, command, status and the parameter when present |
| XBee1.SplitAtResponseExamples | xbee1.py:105-111 | split results of example AT replies |
| XBee1.ReadAtExamples | xbee1.py:151-162 | reading example frames checks the checksum and splits the data |
| XBee1.ReadAtExampleBare | xbee1.py:151-162 | reading a framed `MY` reply without parameter gives frame id, command and status |
| XBee1.ReadAtExampleParameter | xbee1.py:151-162 | reading a framed `MY` reply with a parameter also gives the parameter |
| XBee1.RxIoDataSplit | xbee1.py:89-95 | an IO data frame splits into source, RSSI, options and decoded samples |
| XBee1.RxIoDataFields | xbee1.py:89-95 | an IO data frame splits into source, RSSI, options and the sample bytes, stored only when present, before the sample step |
| XBee1.RxIoDataDecoded | xbee1.py:89-95 | an IO data frame whose samples decode splits into source, RSSI, options and those samples |
| XBee1.RxIoDataExample | xbee1.py:276-279 | a concrete IO data frame from source 00 01 splits with its sample decoded to nine digital lines all high |

## Left out

- Escaping of frame bytes and the frame reader's `fill`, `remaining_bytes`, `parse` and `output` are not modelled; the `APIFrame` class modelled is the one of `xbee/frame.py` that stores data and computes the checksum.
- Serial, thread and tornado I/O (`_write`, `_wait_for_frame`, `wait_read_frame`, the read loops, callbacks, `__getattr__` dispatch of command names) are left out: they are I/O and concurrency. `send` is modelled as the frame it would write.
- Conversion of `str` arguments to bytes is left out: every argument is a byte sequence.
- Python dictionaries are modelled by their insertion order as sequences where order matters (command tables, parse rules) and as maps otherwise.
- The legacy `_build_command` of `xbee/base.py` is the same algorithm as the backend's and is modelled once, as `Marshal.BuildCommand`.
- `xbee1.py`'s `parse_samples_header` and `parse_samples` are the same code as the legacy `xbee/base.py` versions and are modelled once, in `LegacyBase`.
- Marshal.SplitResponse: a null-terminated field with no `0x00` makes the source's scan loop forever; the model ends it with the `MissingTerminator` error.
- AtHooks.NdParameter: an `ND` parameter with no `0x00` from byte 10 on makes the terminator scan of xbee/zigbee.py:193-194 loop forever; the model, and `AtHooks.ParseNdAtResponse`, end it with the `MissingTerminator` error.
- IoSamples.Samples: popping from exhausted IO bytes raises in the source; the model returns `TruncatedIoSample`.
- LegacyBase.SamplesHeader, LegacyBase.ReadDigital, LegacyBase.ReadAnalog: a legacy sample frame too short for its header or values raises `IndexError` (xbee/base.py:278-287, 352-354) or `struct.error` (xbee/base.py:367) in the source; the model returns `TruncatedIoSample`.
- XBeeFrame.LenBytes: the signed pack raises for 32768 bytes or more; the model returns `LengthTooLarge`.
- Marshal.Split: indexing an empty payload raises in the source; the model returns `EmptyPayload`.
- LegacyBase.Split: `data[0]` on an empty payload raises `IndexError` in the legacy engine (xbee/base.py:204); the model returns `EmptyPayload`.
- XBeeFrame.EmptyFrame: a frame too short to hold a length raises in the source; the model returns `ShortFrame`.
- IoSamples.ReadAnalog: the backend decoder stores analog words without masking them to 10 bits, as its code does; only the legacy decoder masks with `0x3FF` (xbee/base.py:369-370, xbee1.py:391-392), modelled as `LegacyBase.AnalogValue`.
- The `NotImplementedError` for a class without tables is not modelled: every engine is given its tables.
