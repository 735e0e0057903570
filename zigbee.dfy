/** The XBee ZB (ZigBee) tables of xbee/zigbee.py, run on the table engine
    of xbee/backend/base.py with the ZigBee IO-sample layout. The `at_response`
    parameter passes through the IS hook and then the ND hook. */
module XBeeZB {
  import opened Bytes
  import opened Results
  import opened Packets
  import Marshal
  import IoSamples
  import AtHooks

  const Commands: seq<Command> := [
    Command("at", [Defaulted("id", 1, [0x08]), Defaulted("frame_id", 1, [0x01]),
                   Required("command", 2), Optional("parameter")]),
    Command("queued_at", [Defaulted("id", 1, [0x09]), Defaulted("frame_id", 1, [0x01]),
                          Required("command", 2), Optional("parameter")]),
    Command("remote_at", [Defaulted("id", 1, [0x17]), Defaulted("frame_id", 1, [0x00]),
                          Defaulted("dest_addr_long", 8, [0, 0, 0, 0, 0, 0, 0, 0]),
                          Defaulted("dest_addr", 2, [0xFF, 0xFE]), Defaulted("options", 1, [0x02]),
                          Required("command", 2), Optional("parameter")]),
    Command("tx", [Defaulted("id", 1, [0x10]), Defaulted("frame_id", 1, [0x01]),
                   Required("dest_addr_long", 8), Required("dest_addr", 2),
                   Defaulted("broadcast_radius", 1, [0x00]), Defaulted("options", 1, [0x00]),
                   Optional("data")]),
    Command("tx_explicit", [Defaulted("id", 1, [0x11]), Defaulted("frame_id", 1, [0x00]),
                            Required("dest_addr_long", 8), Required("dest_addr", 2),
                            Required("src_endpoint", 1), Required("dest_endpoint", 1),
                            Required("cluster", 2), Required("profile", 2),
                            Defaulted("broadcast_radius", 1, [0x00]), Defaulted("options", 1, [0x00]),
                            Optional("data")])
  ]

  const Rx := ResponseSpec("rx",
    [Sized("source_addr_long", 8), Sized("source_addr", 2), Sized("options", 1), Rest("rf_data")], [])
  const RxExplicit := ResponseSpec("rx_explicit",
    [Sized("source_addr_long", 8), Sized("source_addr", 2), Sized("source_endpoint", 1),
     Sized("dest_endpoint", 1), Sized("cluster", 2), Sized("profile", 2), Sized("options", 1),
     Rest("rf_data")], [])
  const RxIoDataLongAddr := ResponseSpec("rx_io_data_long_addr",
    [Sized("source_addr_long", 8), Sized("source_addr", 2), Sized("options", 1), Rest("samples")],
    [ParseRule("samples", IoSamples)])
  const TxStatus := ResponseSpec("tx_status",
    [Sized("frame_id", 1), Sized("dest_addr", 2), Sized("retries", 1), Sized("deliver_status", 1),
     Sized("discover_status", 1)], [])
  const Status := ResponseSpec("status", [Sized("status", 1)], [])
  const AtResponse := ResponseSpec("at_response",
    [Sized("frame_id", 1), Sized("command", 2), Sized("status", 1), Rest("parameter")],
    [ParseRule("parameter", IsAtResponse), ParseRule("parameter", NdAtResponse)])
  const RemoteAtResponse := ResponseSpec("remote_at_response",
    [Sized("frame_id", 1), Sized("source_addr_long", 8), Sized("source_addr", 2),
     Sized("command", 2), Sized("status", 1), Rest("parameter")],
    [ParseRule("parameter", IsAtResponse)])
  const NodeIdIndicator := ResponseSpec("node_id_indicator",
    [Sized("sender_addr_long", 8), Sized("sender_addr", 2), Sized("options", 1),
     Sized("source_addr", 2), Sized("source_addr_long", 8), Terminated("node_id"),
     Sized("parent_source_addr", 2), Sized("device_type", 1), Sized("source_event", 1),
     Sized("digi_profile_id", 2), Sized("manufacturer_id", 2)], [])

  const Responses: map<byte, ResponseSpec> := map[
    0x90 := Rx, 0x91 := RxExplicit, 0x92 := RxIoDataLongAddr, 0x8B := TxStatus,
    0x8A := Status, 0x88 := AtResponse, 0x97 := RemoteAtResponse, 0x95 := NodeIdIndicator]

  const Tables: Variant := Variant(Commands, Responses, ZigBee)

  lemma CommandsWellFormed()
    ensures forall c :: c in Commands ==> IdFirst(c)
    ensures forall i, j :: 0 <= i < j < |Commands| ==> Commands[i].name != Commands[j].name
  {
    assert IdFirst(Commands[0]) && IdFirst(Commands[1]) && IdFirst(Commands[2])
           && IdFirst(Commands[3]) && IdFirst(Commands[4]);
  }

  lemma RxWellFormed()
    ensures ResponseWellFormed(Rx) && ResponseWellFormed(RxExplicit)
  {
    RxOnlyWellFormed();
    RxExplicitWellFormed();
  }

  lemma RxOnlyWellFormed() ensures ResponseWellFormed(Rx) { }
  lemma RxExplicitDistinctLow()
    ensures forall i, j :: 0 <= i < 3 && i < j < 8 ==> RxExplicit.structure[i].name != RxExplicit.structure[j].name
  {
  }

  lemma RxExplicitDistinctHigh()
    ensures forall i, j :: 3 <= i < 8 && i < j < 8 ==> RxExplicit.structure[i].name != RxExplicit.structure[j].name
  {
  }

  lemma RxExplicitWellFormed()
    ensures ResponseWellFormed(RxExplicit)
  {
    RxExplicitDistinctLow();
    RxExplicitDistinctHigh();
  }
  lemma RxIoDataWellFormed() ensures ResponseWellFormed(RxIoDataLongAddr) { }
  lemma TxStatusWellFormed() ensures ResponseWellFormed(TxStatus) { }
  lemma StatusOnlyWellFormed() ensures ResponseWellFormed(Status) { }
  lemma AtResponseWellFormed() ensures ResponseWellFormed(AtResponse) { }
  lemma RemoteAtResponseWellFormed() ensures ResponseWellFormed(RemoteAtResponse) { }
  lemma NodeIdVariableLast() ensures VariableLast(NodeIdIndicator.structure) { }
  lemma NodeIdDistinctLow()
    ensures forall i, j :: 0 <= i < 4 && i < j < 11 ==> NodeIdIndicator.structure[i].name != NodeIdIndicator.structure[j].name
  {
  }

  lemma NodeIdDistinctHigh()
    ensures forall i, j :: 4 <= i < 11 && i < j < 11 ==> NodeIdIndicator.structure[i].name != NodeIdIndicator.structure[j].name
  {
  }

  lemma NodeIdDistinct()
    ensures DistinctResponseNames(NodeIdIndicator.structure)
  {
    NodeIdDistinctLow();
    NodeIdDistinctHigh();
  }
  lemma NodeIdNoId() ensures forall f :: f in NodeIdIndicator.structure ==> f.name != "id" { }

  lemma NodeIdWellFormed()
    ensures ResponseWellFormed(NodeIdIndicator)
  {
    NodeIdVariableLast();
    NodeIdDistinct();
    NodeIdNoId();
  }

  lemma StatusWellFormed()
    ensures ResponseWellFormed(TxStatus) && ResponseWellFormed(Status)
  {
    TxStatusWellFormed();
    StatusOnlyWellFormed();
  }

  lemma RepliesWellFormed()
    ensures ResponseWellFormed(AtResponse) && ResponseWellFormed(RemoteAtResponse)
  {
    AtResponseWellFormed();
    RemoteAtResponseWellFormed();
  }

  /** The tables keep the engine's invariants: every command starts with its
      one-byte id, command names are distinct, and each response has distinct
      field names with a variable-length field only in last place. */
  lemma TablesWellFormed()
    ensures WellFormed(Tables)
  {
    CommandsWellFormed();
    RxWellFormed();
    RxIoDataWellFormed();
    NodeIdWellFormed();
    StatusWellFormed();
    RepliesWellFormed();
  }

  /** The frame type of each command, looked up as the split does. */
  lemma EchoedIds()
    ensures Marshal.EchoedCommand(Commands, 0x08) == Some("at")
    ensures Marshal.EchoedCommand(Commands, 0x09) == Some("queued_at")
    ensures Marshal.EchoedCommand(Commands, 0x17) == Some("remote_at")
    ensures Marshal.EchoedCommand(Commands, 0x10) == Some("tx")
    ensures Marshal.EchoedCommand(Commands, 0x11) == Some("tx_explicit")
  {
  }

  /** No command's frame type is also a response id, so a payload that starts
      with a command's id is reported as an echoed command frame. */
  lemma CommandIdsAreNotResponses(c: Command, rest: seq<byte>)
    requires c in Commands
    ensures c.fields[0].default.value[0] !in Responses
    ensures Marshal.Split(Tables, c.fields[0].default.value + rest)
            == Err(CommandFrameEchoed(c.fields[0].default.value[0], c.name))
  {
    EchoedIds();
    var data := c.fields[0].default.value + rest;
    assert data[0] == c.fields[0].default.value[0];
  }

  /** The fields of an `at_response` whose hooks can run: raw command and
      status, and no parameter yet. */
  predicate ReplyFields(fields: map<string, Value>)
  {
    "command" in fields && fields["command"].Raw? && "status" in fields && fields["status"].Raw?
    && "parameter" !in fields
  }

  /** A successful IS reply: the IS hook decodes the samples, and the ND hook
      then leaves them alone. */
  lemma IsReplyHooks(fields: map<string, Value>, parameter: seq<byte>)
    requires ReplyFields(fields)
    requires Lower(fields["command"].bytes) == AtHooks.IsCommand && fields["status"].bytes == [0x00]
    ensures Marshal.ApplyParsing(ZigBee, AtResponse.parsing, Packet("at_response", fields["parameter" := Raw(parameter)]))
            == match IoSamples.Samples(ZigBee, parameter)
               case Ok(samples) => Ok(Packet("at_response", fields["parameter" := Samples(samples)]))
               case Err(e) => Err(e)
  {
    var rules := AtResponse.parsing;
    var p := Packet("at_response", fields["parameter" := Raw(parameter)]);
    Marshal.ApplyTwoRules(ZigBee, rules[0], rules[1], p);
    AtHooks.IsAtResponseMeaning(ZigBee, p);
    match IoSamples.Samples(ZigBee, parameter) {
      case Ok(samples) =>
        var q := Packet("at_response", p.fields["parameter" := Samples(samples)]);
        Marshal.ApplyOneRule(ZigBee, rules[1], q);
        assert AtHooks.IsCommand != AtHooks.NdCommand;
        assert AtHooks.NdAtResponse(q) == Ok(Samples(samples));
        assert q.fields["parameter" := Samples(samples)] == q.fields;
        assert q.fields == fields["parameter" := Samples(samples)];
      case Err(_) =>
    }
  }

  /** A successful ND reply: the IS hook keeps the bytes, and the ND hook
      decodes them as a node record. */
  lemma NdReplyHooksMeaning(fields: map<string, Value>, parameter: seq<byte>)
    requires ReplyFields(fields)
    requires Lower(fields["command"].bytes) == AtHooks.NdCommand && fields["status"].bytes == [0x00]
    ensures Marshal.ApplyParsing(ZigBee, AtResponse.parsing, Packet("at_response", fields["parameter" := Raw(parameter)]))
            == match AtHooks.NdParameter(parameter)
               case Ok(record) => Ok(Packet("at_response", fields["parameter" := NodeInfo(record)]))
               case Err(e) => Err(e)
  {
    var rules := AtResponse.parsing;
    var p := Packet("at_response", fields["parameter" := Raw(parameter)]);
    Marshal.ApplyTwoRules(ZigBee, rules[0], rules[1], p);
    assert AtHooks.IsCommand != AtHooks.NdCommand;
    AtHooks.IsAtResponseMeaning(ZigBee, p);
    assert p.fields["parameter" := p.fields["parameter"]] == p.fields;
    Marshal.ApplyOneRule(ZigBee, rules[1], p);
    AtHooks.NdAtResponseMeaning(p);
    match AtHooks.NdParameter(parameter) {
      case Ok(record) =>
        assert p.fields["parameter" := NodeInfo(record)] == fields["parameter" := NodeInfo(record)];
      case Err(_) =>
    }
  }

  /** Any other reply keeps its parameter bytes through both hooks. */
  lemma OtherReplyHooks(fields: map<string, Value>, parameter: seq<byte>)
    requires ReplyFields(fields)
    requires !(Lower(fields["command"].bytes) == AtHooks.IsCommand && fields["status"].bytes == [0x00])
    requires !(Lower(fields["command"].bytes) == AtHooks.NdCommand && fields["status"].bytes == [0x00])
    ensures Marshal.ApplyParsing(ZigBee, AtResponse.parsing, Packet("at_response", fields["parameter" := Raw(parameter)]))
            == Ok(Packet("at_response", fields["parameter" := Raw(parameter)]))
  {
    var rules := AtResponse.parsing;
    var p := Packet("at_response", fields["parameter" := Raw(parameter)]);
    Marshal.ApplyTwoRules(ZigBee, rules[0], rules[1], p);
    AtHooks.IsAtResponseMeaning(ZigBee, p);
    assert p.fields["parameter" := p.fields["parameter"]] == p.fields;
    Marshal.ApplyOneRule(ZigBee, rules[1], p);
    AtHooks.NdAtResponseMeaning(p);
  }

  /** The two hooks of `at_response` on the split fields: IS decodes the
      parameter of a successful IS reply as samples, ND then decodes the
      parameter of a successful ND reply as a node record; the ND hook
      leaves decoded samples alone. Any other reply keeps its bytes. */
  lemma AtResponseHooks(fields: map<string, Value>, parameter: seq<byte>)
    requires "command" in fields && fields["command"].Raw? && "status" in fields && fields["status"].Raw?
    requires "parameter" !in fields
    ensures Marshal.ApplyParsing(ZigBee, AtResponse.parsing, Packet("at_response", fields)) == Ok(Packet("at_response", fields))
    ensures var command := Lower(fields["command"].bytes);
            var ok := fields["status"].bytes == [0x00];
            Marshal.ApplyParsing(ZigBee, AtResponse.parsing, Packet("at_response", fields["parameter" := Raw(parameter)]))
            == if command == AtHooks.IsCommand && ok then
                 match IoSamples.Samples(ZigBee, parameter)
                 case Ok(samples) => Ok(Packet("at_response", fields["parameter" := Samples(samples)]))
                 case Err(e) => Err(e)
               else if command == AtHooks.NdCommand && ok then
                 match AtHooks.NdParameter(parameter)
                 case Ok(record) => Ok(Packet("at_response", fields["parameter" := NodeInfo(record)]))
                 case Err(e) => Err(e)
               else Ok(Packet("at_response", fields["parameter" := Raw(parameter)]))
  {
    Marshal.ApplyParsingAbsent(ZigBee, AtResponse.parsing, Packet("at_response", fields));
    var command := Lower(fields["command"].bytes);
    var ok := fields["status"].bytes == [0x00];
    if command == AtHooks.IsCommand && ok {
      IsReplyHooks(fields, parameter);
    } else if command == AtHooks.NdCommand && ok {
      NdReplyHooksMeaning(fields, parameter);
    } else {
      OtherReplyHooks(fields, parameter);
    }
  }

  /** An `at_response` payload splits into frame id, command and status, and
      a non-empty parameter, which the hooks then decode as above. */
  lemma AtResponseSplit(frameId: byte, command: seq<byte>, status: byte, parameter: seq<byte>)
    requires |command| == 2
    ensures var fields := map["frame_id" := Raw([frameId]), "command" := Raw(command), "status" := Raw([status])];
            Marshal.Split(Tables, [0x88, frameId] + command + [status] + parameter)
            == if |parameter| == 0 then Ok(Packet("at_response", fields))
               else Marshal.ApplyParsing(ZigBee, AtResponse.parsing, Packet("at_response", fields["parameter" := Raw(parameter)]))
  {
    var values: seq<seq<byte>> := [[frameId], command, [status], parameter];
    assert Tables.responses[0x88] == AtResponse;
    Marshal.SplitFour(Tables, 0x88, values);
    assert [0x88] + [frameId] + command + [status] + parameter == [0x88, frameId] + command + [status] + parameter;
  }

  /** The node record of the ND example. */
  function NdRecord(addr: seq<byte>, addrLong: seq<byte>, name: seq<byte>, rest: seq<byte>): map<string, seq<byte>>
    requires |rest| == 8
  {
    map["source_addr" := addr, "source_addr_long" := addrLong, "node_identifier" := name,
        "parent_address" := rest[0..2], "device_type" := rest[2..3], "status" := rest[3..4],
        "profile_id" := rest[4..6], "manufacturer" := rest[6..8]]
  }

  /** The parameter of an ND reply: both addresses, the NUL-terminated name,
      then the eight bytes that follow it. */
  function NdPayload(addr: seq<byte>, addrLong: seq<byte>, name: seq<byte>, rest: seq<byte>): seq<byte>
  {
    addr + addrLong + name + [0x00] + rest
  }

  /** The fields of a local ND reply with frame id 1 and status OK, before
      its parameter. */
  const NdReplyFields: map<string, Value> :=
    map["frame_id" := Raw([0x01]), "command" := Raw([0x4E, 0x44]), "status" := Raw([0x00])]

  /** The split of that reply, before its hooks. */
  lemma NdReplySplit(parameter: seq<byte>)
    requires |parameter| > 0
    ensures Marshal.Split(Tables, [0x88, 0x01, 0x4E, 0x44, 0x00] + parameter)
            == Marshal.ApplyParsing(ZigBee, AtResponse.parsing, Packet("at_response", NdReplyFields["parameter" := Raw(parameter)]))
  {
    AtResponseSplit(0x01, [0x4E, 0x44], 0x00, parameter);
    assert [0x88, 0x01] + [0x4E, 0x44] + [0x00] + parameter == [0x88, 0x01, 0x4E, 0x44, 0x00] + parameter;
  }

  /** The hooks of that reply decode its parameter. */
  lemma NdReplyHooks(addr: seq<byte>, addrLong: seq<byte>, name: seq<byte>, rest: seq<byte>)
    requires |addr| == 2 && |addrLong| == 8 && |rest| == 8
    requires forall k :: 0 <= k < |name| ==> name[k] != 0x00
    ensures Marshal.ApplyParsing(ZigBee, AtResponse.parsing,
                                 Packet("at_response", NdReplyFields["parameter" := Raw(NdPayload(addr, addrLong, name, rest))]))
            == Ok(Packet("at_response", NdReplyFields["parameter" := NodeInfo(NdRecord(addr, addrLong, name, rest))]))
  {
    AtHooks.LowerMatchesCommand([0x4E, 0x44], 0x69, 0x73);
    AtHooks.LowerMatchesCommand([0x4E, 0x44], 0x6E, 0x64);
    assert Lower([0x4E, 0x44]) == AtHooks.NdCommand && Lower([0x4E, 0x44]) != AtHooks.IsCommand;
    AtHooks.NdRoundTrip(addr, addrLong, name, rest);
    NdReplyHooksMeaning(NdReplyFields, addr + addrLong + name + [0x00] + rest);
  }

  /** A successful local ND reply has its parameter decoded as the record of
      the discovered node: its two addresses, its name up to the NUL, and the
      eight bytes after it in four fields. */
  lemma SplitNdResponseExample(addr: seq<byte>, addrLong: seq<byte>, name: seq<byte>, rest: seq<byte>)
    requires |addr| == 2 && |addrLong| == 8 && |rest| == 8
    requires forall k :: 0 <= k < |name| ==> name[k] != 0x00
    ensures Marshal.Split(Tables, [0x88, 0x01, 0x4E, 0x44, 0x00] + NdPayload(addr, addrLong, name, rest))
            == Ok(Packet("at_response", NdReplyFields["parameter" := NodeInfo(NdRecord(addr, addrLong, name, rest))]))
  {
    NdReplySplit(NdPayload(addr, addrLong, name, rest));
    NdReplyHooks(addr, addrLong, name, rest);
  }

  /** The hook of `remote_at_response` is IS alone: a successful remote IS
      reply has its samples decoded, and every other remote reply, ND
      included, keeps its parameter bytes. */
  lemma RemoteAtResponseHook(fields: map<string, Value>, parameter: seq<byte>)
    requires "command" in fields && fields["command"].Raw? && "status" in fields && fields["status"].Raw?
    requires "parameter" !in fields
    ensures Marshal.ApplyParsing(ZigBee, RemoteAtResponse.parsing, Packet("remote_at_response", fields["parameter" := Raw(parameter)]))
            == if Lower(fields["command"].bytes) == AtHooks.IsCommand && fields["status"].bytes == [0x00] then
                 match IoSamples.Samples(ZigBee, parameter)
                 case Ok(samples) => Ok(Packet("remote_at_response", fields["parameter" := Samples(samples)]))
                 case Err(e) => Err(e)
               else Ok(Packet("remote_at_response", fields["parameter" := Raw(parameter)]))
  {
    var p := Packet("remote_at_response", fields["parameter" := Raw(parameter)]);
    Marshal.ApplyOneRule(ZigBee, RemoteAtResponse.parsing[0], p);
    assert RemoteAtResponse.parsing == [RemoteAtResponse.parsing[0]];
    AtHooks.IsAtResponseMeaning(ZigBee, p);
    assert p.fields["parameter" := p.fields["parameter"]] == p.fields;
    match IoSamples.Samples(ZigBee, parameter) {
      case Ok(samples) =>
        assert p.fields["parameter" := Samples(samples)] == fields["parameter" := Samples(samples)];
      case Err(_) =>
    }
  }

  /** An `rx_io_data_long_addr` payload (0x92) splits into address, network
      address and options, and its samples, when present, are always decoded
      with the ZigBee header. */
  lemma RxIoDataLongAddrSplit(source: seq<byte>, network: seq<byte>, options: byte, samples: seq<byte>)
    requires |source| == 8 && |network| == 2 && |samples| > 0
    ensures var fields := map["source_addr_long" := Raw(source), "source_addr" := Raw(network), "options" := Raw([options])];
            Marshal.Split(Tables, [0x92] + source + network + [options] + samples)
            == match IoSamples.Samples(ZigBee, samples)
               case Ok(decoded) => Ok(Packet("rx_io_data_long_addr", fields["samples" := Samples(decoded)]))
               case Err(e) => Err(e)
  {
    var values: seq<seq<byte>> := [source, network, [options], samples];
    assert Tables.responses[0x92] == RxIoDataLongAddr;
    Marshal.SplitFour(Tables, 0x92, values);
    var fields := map["source_addr_long" := Raw(source), "source_addr" := Raw(network), "options" := Raw([options])];
    var p := Packet("rx_io_data_long_addr", fields["samples" := Raw(samples)]);
    Marshal.ApplyOneRule(ZigBee, ParseRule("samples", IoSamples), p);
    match IoSamples.Samples(ZigBee, samples) {
      case Ok(decoded) =>
        assert p.fields["samples" := Samples(decoded)] == fields["samples" := Samples(decoded)];
      case Err(_) =>
    }
  }

  /** A node identification payload (0x95) splits into its 21 leading bytes
      of addresses and options, the identifier read up to its first 0x00
      at or after offset 22 (the 0x00 itself is not kept), and the 8 bytes
      of trailer. */
  lemma NodeIdIndicatorSplit(data: seq<byte>, t: nat)
    requires 22 <= t < |data| && |data| == t + 9 && data[0] == 0x95
    requires data[t] == 0x00 && forall k :: 22 <= k < t ==> data[k] != 0x00
    ensures Marshal.Split(Tables, data)
            == Ok(Packet("node_id_indicator",
                         map["sender_addr_long" := Raw(data[1..9]), "sender_addr" := Raw(data[9..11]),
                             "options" := Raw(data[11..12]), "source_addr" := Raw(data[12..14]),
                             "source_addr_long" := Raw(data[14..22]), "node_id" := Raw(data[22..t]),
                             "parent_source_addr" := Raw(data[t + 1..t + 3]), "device_type" := Raw(data[t + 3..t + 4]),
                             "source_event" := Raw(data[t + 4..t + 5]), "digi_profile_id" := Raw(data[t + 5..t + 7]),
                             "manufacturer_id" := Raw(data[t + 7..t + 9])]))
  {
    assert FirstZero(data, 22) == Some(t);
  }

  /** Without a 0x00 after the 21 leading bytes the identifier has no end;
      where the library scans on forever, the model reports it. */
  lemma NodeIdIndicatorUnterminated(data: seq<byte>)
    requires |data| >= 22 && data[0] == 0x95 && forall k :: 22 <= k < |data| ==> data[k] != 0x00
    ensures Marshal.Split(Tables, data) == Err(MissingTerminator)
  {
    assert FirstZero(data, 22) == None;
  }

  /** The library's null-terminated field example: 21 zero bytes, the
      identifier 01 02 03 04 and its terminator, then 8 zero bytes. */
  lemma NodeIdExample(data: seq<byte>)
    requires data == [0x95] + seq(21, _ => 0x00) + [0x01, 0x02, 0x03, 0x04, 0x00] + seq(8, _ => 0x00)
    ensures var r := Marshal.Split(Tables, data);
            r.Ok? && "node_id" in r.value.fields && r.value.fields["node_id"] == Raw([0x01, 0x02, 0x03, 0x04])
  {
    assert data[22..26] == [0x01, 0x02, 0x03, 0x04] && data[26] == 0x00;
    NodeIdIndicatorSplit(data, 26);
  }
}
