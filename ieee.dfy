/** The IEEE 802.15.4 (Series 1) tables of xbee/ieee.py, run on the table
    engine of xbee/backend/base.py with the Series 1 IO-sample layout. */
module Ieee {
  import opened Bytes
  import opened Results
  import opened Packets
  import Marshal
  import IoSamples
  import AtHooks

  const Commands: seq<Command> := [
    Command("at", [Defaulted("id", 1, [0x08]), Defaulted("frame_id", 1, [0x00]),
                   Required("command", 2), Optional("parameter")]),
    Command("queued_at", [Defaulted("id", 1, [0x09]), Defaulted("frame_id", 1, [0x00]),
                          Required("command", 2), Optional("parameter")]),
    Command("remote_at", [Defaulted("id", 1, [0x17]), Defaulted("frame_id", 1, [0x00]),
                          Defaulted("dest_addr_long", 8, [0, 0, 0, 0, 0, 0, 0, 0]),
                          Defaulted("dest_addr", 2, [0xFF, 0xFE]), Defaulted("options", 1, [0x02]),
                          Required("command", 2), Optional("parameter")]),
    Command("tx_long_addr", [Defaulted("id", 1, [0x00]), Defaulted("frame_id", 1, [0x00]),
                             Required("dest_addr", 8), Defaulted("options", 1, [0x00]), Optional("data")]),
    Command("tx", [Defaulted("id", 1, [0x01]), Defaulted("frame_id", 1, [0x00]),
                   Required("dest_addr", 2), Defaulted("options", 1, [0x00]), Optional("data")])
  ]

  const RxLongAddr := ResponseSpec("rx_long_addr",
    [Sized("source_addr", 8), Sized("rssi", 1), Sized("options", 1), Rest("rf_data")], [])
  const Rx := ResponseSpec("rx",
    [Sized("source_addr", 2), Sized("rssi", 1), Sized("options", 1), Rest("rf_data")], [])
  const RxIoDataLongAddr := ResponseSpec("rx_io_data_long_addr",
    [Sized("source_addr_long", 8), Sized("rssi", 1), Sized("options", 1), Rest("samples")],
    [ParseRule("samples", IoSamples)])
  const RxIoData := ResponseSpec("rx_io_data",
    [Sized("source_addr", 2), Sized("rssi", 1), Sized("options", 1), Rest("samples")],
    [ParseRule("samples", IoSamples)])
  const TxStatus := ResponseSpec("tx_status", [Sized("frame_id", 1), Sized("status", 1)], [])
  const Status := ResponseSpec("status", [Sized("status", 1)], [])
  const AtResponse := ResponseSpec("at_response",
    [Sized("frame_id", 1), Sized("command", 2), Sized("status", 1), Rest("parameter")],
    [ParseRule("parameter", IsAtResponse)])
  const RemoteAtResponse := ResponseSpec("remote_at_response",
    [Sized("frame_id", 1), Sized("source_addr_long", 8), Sized("source_addr", 2),
     Sized("command", 2), Sized("status", 1), Rest("parameter")],
    [ParseRule("parameter", IsAtResponse)])

  const Responses: map<byte, ResponseSpec> := map[
    0x80 := RxLongAddr, 0x81 := Rx, 0x82 := RxIoDataLongAddr, 0x83 := RxIoData,
    0x89 := TxStatus, 0x8A := Status, 0x88 := AtResponse, 0x97 := RemoteAtResponse]

  const Tables: Variant := Variant(Commands, Responses, Series1)

  lemma CommandsWellFormed()
    ensures forall c :: c in Commands ==> IdFirst(c)
    ensures forall i, j :: 0 <= i < j < |Commands| ==> Commands[i].name != Commands[j].name
  {
    assert IdFirst(Commands[0]) && IdFirst(Commands[1]) && IdFirst(Commands[2])
           && IdFirst(Commands[3]) && IdFirst(Commands[4]);
  }

  lemma RxLongAddrWellFormed() ensures ResponseWellFormed(RxLongAddr) { }
  lemma RxWellFormed() ensures ResponseWellFormed(Rx) { }
  lemma RxIoDataLongAddrWellFormed() ensures ResponseWellFormed(RxIoDataLongAddr) { }
  lemma RxIoDataWellFormed() ensures ResponseWellFormed(RxIoData) { }
  lemma TxStatusWellFormed() ensures ResponseWellFormed(TxStatus) { }
  lemma StatusWellFormed() ensures ResponseWellFormed(Status) { }
  lemma AtResponseWellFormed() ensures ResponseWellFormed(AtResponse) { }
  lemma RemoteAtResponseWellFormed() ensures ResponseWellFormed(RemoteAtResponse) { }

  lemma ReceivedWellFormed()
    ensures ResponseWellFormed(RxLongAddr) && ResponseWellFormed(Rx)
    ensures ResponseWellFormed(RxIoDataLongAddr) && ResponseWellFormed(RxIoData)
  {
    RxLongAddrWellFormed();
    RxWellFormed();
    RxIoDataLongAddrWellFormed();
    RxIoDataWellFormed();
  }

  lemma RepliesWellFormed()
    ensures ResponseWellFormed(TxStatus) && ResponseWellFormed(Status)
    ensures ResponseWellFormed(AtResponse) && ResponseWellFormed(RemoteAtResponse)
  {
    TxStatusWellFormed();
    StatusWellFormed();
    AtResponseWellFormed();
    RemoteAtResponseWellFormed();
  }

  /** The tables keep the engine's invariants: every command starts with its
      one-byte id, command names are distinct, and each response has distinct
      field names with a variable-length field only in last place. */
  lemma TablesWellFormed()
    ensures WellFormed(Tables)
  {
    CommandsWellFormed();
    ReceivedWellFormed();
    RepliesWellFormed();
  }

  /** The frame type of each command, looked up as the split does. */
  lemma EchoedIds()
    ensures Marshal.EchoedCommand(Commands, 0x08) == Some("at")
    ensures Marshal.EchoedCommand(Commands, 0x09) == Some("queued_at")
    ensures Marshal.EchoedCommand(Commands, 0x17) == Some("remote_at")
    ensures Marshal.EchoedCommand(Commands, 0x00) == Some("tx_long_addr")
    ensures Marshal.EchoedCommand(Commands, 0x01) == Some("tx")
  {

  }

  /** No command's frame type is also a response id, so a payload that starts
      with a command's id is never split as a response but reported as an
      echoed command frame, naming that command. */
  lemma CommandIdsAreNotResponses(c: Command, rest: seq<byte>)
    requires c in Commands
    ensures c.fields[0].default.value[0] !in Responses
    ensures Marshal.Split(Tables, c.fields[0].default.value + rest)
            == Err(CommandFrameEchoed(c.fields[0].default.value[0], c.name))
  {
    EchoedIds();
    var data := c.fields[0].default.value + rest;
    assert data[0] == c.fields[0].default.value[0];
  }

  /** The `at` payload: the frame type 0x08, the frame id (0x00 unless
      given), the two command bytes and the parameter if one is given. */
  lemma AtPayload(args: map<string, seq<byte>>)
    requires "id" !in args && "command" in args && |args["command"]| == 2
    requires "frame_id" in args ==> |args["frame_id"]| == 1
    ensures Marshal.Build(Commands, "at", args)
            == Ok([0x08] + (if "frame_id" in args then args["frame_id"] else [0x00]) + args["command"]
                  + (if "parameter" in args then args["parameter"] else []))
  {
    var f := Commands[0].fields;
    assert Marshal.FindCommand(Commands, "at") == Some(Commands[0]);
    var frameId: seq<byte> := if "frame_id" in args then args["frame_id"] else [0x00];
    var parameter: seq<byte> := if "parameter" in args then args["parameter"] else [];
    assert f[3..][1..] == [];
    assert Marshal.FieldData(f[3], args) == Ok(parameter);
    assert parameter + [] == parameter;
    assert Marshal.BuildFields(f[3..], args) == Ok(parameter);
    assert Marshal.FieldData(f[2], args) == Ok(args["command"]);
    assert Marshal.FieldData(f[1], args) == Ok(frameId);
    assert Marshal.FieldData(f[0], args) == Ok([0x08]);
    assert f[2..][1..] == f[3..];
    assert Marshal.BuildFields(f[2..], args) == Ok(args["command"] + parameter);
    assert f[1..][1..] == f[2..];
    assert Marshal.BuildFields(f[1..], args) == Ok(frameId + (args["command"] + parameter));
    assert Marshal.BuildFields(f, args) == Ok([0x08] + (frameId + (args["command"] + parameter)));
    assert [0x08] + (frameId + (args["command"] + parameter)) == [0x08] + frameId + args["command"] + parameter;
  }

  /** Building the `at` command: frame id and command as given; a missing
      frame id takes its default; a missing command is refused; a frame id of
      the wrong length is refused. */
  lemma BuildAtExamples()
    ensures Marshal.Build(Commands, "at", map["frame_id" := [0x2B], "command" := [0x4D, 0x59]])
            == Ok([0x08, 0x2B, 0x4D, 0x59])
    ensures Marshal.Build(Commands, "at", map["command" := [0x4D, 0x59]]) == Ok([0x08, 0x00, 0x4D, 0x59])
    ensures Marshal.Build(Commands, "at", map[]) == Err(MissingField("command", 2))
    ensures Marshal.Build(Commands, "at", map["frame_id" := [0x41, 0x42], "command" := [0x4D, 0x59]])
            == Err(FieldLengthMismatch("frame_id", 1, 2))
  {
    AtPayload(map["frame_id" := [0x2B], "command" := [0x4D, 0x59]]);
    AtPayload(map["command" := [0x4D, 0x59]]);
    assert [0x08] + [0x2B] + [0x4D, 0x59] + [] == [0x08, 0x2B, 0x4D, 0x59];
    assert [0x08] + [0x00] + [0x4D, 0x59] + [] == [0x08, 0x00, 0x4D, 0x59];
    assert Marshal.FindCommand(Commands, "at") == Some(Commands[0]);
    var f := Commands[0].fields;
    assert f[1..][1..] == f[2..];
  }

  lemma SumAtPayloads()
    ensures Sum([0x08, 0x41, 0x4D, 0x59]) == 0xEF
    ensures Sum([0x08, 0x41, 0x4D, 0x59, 0x00, 0x00]) == 0xEF
  {
    var p1: seq<byte> := [0x08, 0x41, 0x4D, 0x59];
    assert p1[..3] == [0x08, 0x41, 0x4D];
    assert p1[..3][..2] == [0x08, 0x41];
    assert p1[..3][..2][..1] == [0x08];
    assert [0x08][..0] == [];
    assert Sum([0x08]) == 0x08;
    assert Sum([0x08, 0x41]) == 0x49;
    assert Sum([0x08, 0x41, 0x4D]) == 0x96;
    var p2: seq<byte> := [0x08, 0x41, 0x4D, 0x59, 0x00, 0x00];
    assert p2[..5] == [0x08, 0x41, 0x4D, 0x59, 0x00];
    assert p2[..5][..4] == p1;
  }

  /** Sending `at` with frame id 'A' and command MY, with and without a
      parameter, writes these frames. */
  lemma SendAtExamples()
    ensures Marshal.Send(Commands, "at", map["frame_id" := [0x41], "command" := [0x4D, 0x59]])
            == Ok([0x7E, 0x00, 0x04, 0x08, 0x41, 0x4D, 0x59, 0x10])
    ensures Marshal.Send(Commands, "at", map["frame_id" := [0x41], "command" := [0x4D, 0x59], "parameter" := [0x00, 0x00]])
            == Ok([0x7E, 0x00, 0x06, 0x08, 0x41, 0x4D, 0x59, 0x00, 0x00, 0x10])
  {
    var p1: seq<byte> := [0x08, 0x41, 0x4D, 0x59];
    var p2: seq<byte> := [0x08, 0x41, 0x4D, 0x59, 0x00, 0x00];
    AtPayload(map["frame_id" := [0x41], "command" := [0x4D, 0x59]]);
    AtPayload(map["frame_id" := [0x41], "command" := [0x4D, 0x59], "parameter" := [0x00, 0x00]]);
    assert [0x08] + [0x41] + [0x4D, 0x59] + [] == p1;
    assert [0x08] + [0x41] + [0x4D, 0x59] + [0x00, 0x00] == p2;
    SumAtPayloads();
    assert [0x7E] + [0x00, 0x04] + p1 + [0x10] == [0x7E, 0x00, 0x04, 0x08, 0x41, 0x4D, 0x59, 0x10];
    assert [0x7E] + [0x00, 0x06] + p2 + [0x10] == [0x7E, 0x00, 0x06, 0x08, 0x41, 0x4D, 0x59, 0x00, 0x00, 0x10];
  }

  /** Split examples for `status` (0x8A), an unknown id and a command id. */
  lemma SplitStatusExamples()
    ensures Marshal.Split(Tables, [0x8A, 0x01]) == Ok(Packet("status", map["status" := Raw([0x01])]))
    ensures Marshal.Split(Tables, [0x8A]) == Err(ShorterThanExpected)
    ensures Marshal.Split(Tables, [0x8A, 0x00, 0x00, 0x00]) == Err(LongerThanExpected)
    ensures Marshal.Split(Tables, [0x23, 0x00, 0x00, 0x00]) == Err(UnknownResponse(0x23))
    ensures Marshal.Split(Tables, [0x01, 0x00, 0x00, 0x00]) == Err(CommandFrameEchoed(0x01, "tx"))
  {
    assert Marshal.AllFixed(Status.structure);
    assert Marshal.FixedTotal(Status.structure) == 1;
    Marshal.SplitFixed(Tables, [0x8A]);
    Marshal.SplitFixed(Tables, [0x8A, 0x00, 0x00, 0x00]);
    Marshal.SplitFixed(Tables, [0x8A, 0x01]);
    assert [0x8A, 0x01][1..2] == [0x01];
    assert Marshal.EchoedCommand(Commands, 0x23) == None;
    CommandIdsAreNotResponses(Commands[4], [0x00, 0x00, 0x00]);
    assert Commands[4].fields[0].default.value + [0x00, 0x00, 0x00] == [0x01, 0x00, 0x00, 0x00];
  }

  /** The IS hook of `at_response` on the split fields. */
  lemma AtResponseHook(fields: map<string, Value>, parameter: seq<byte>)
    requires "command" in fields && fields["command"].Raw? && "status" in fields && fields["status"].Raw?
    requires "parameter" !in fields
    ensures Marshal.ApplyParsing(Series1, AtResponse.parsing, Packet("at_response", fields)) == Ok(Packet("at_response", fields))
    ensures |parameter| > 0 ==>
              Marshal.ApplyParsing(Series1, AtResponse.parsing, Packet("at_response", fields["parameter" := Raw(parameter)]))
              == if Lower(fields["command"].bytes) == AtHooks.IsCommand && fields["status"].bytes == [0x00] then
                   match IoSamples.Samples(Series1, parameter)
                   case Ok(samples) => Ok(Packet("at_response", fields["parameter" := Samples(samples)]))
                   case Err(e) => Err(e)
                 else Ok(Packet("at_response", fields["parameter" := Raw(parameter)]))
  {
    var rule := ParseRule("parameter", IsAtResponse);
    Marshal.ApplyOneRule(Series1, rule, Packet("at_response", fields));
    var p := Packet("at_response", fields["parameter" := Raw(parameter)]);
    Marshal.ApplyOneRule(Series1, rule, p);
    AtHooks.IsAtResponseMeaning(Series1, p);
    assert p.fields["parameter" := p.fields["parameter"]] == p.fields;
    match IoSamples.Samples(Series1, parameter) {
      case Ok(samples) =>
        assert p.fields["parameter" := Samples(samples)] == fields["parameter" := Samples(samples)];
      case Err(_) =>
    }
  }

  /** An `at_response` payload splits into frame id, command and status, and
      a non-empty parameter; the parameter is decoded as IO samples exactly
      when the reply is a successful IS reply. */
  lemma AtResponseSplit(frameId: byte, command: seq<byte>, status: byte, parameter: seq<byte>)
    requires |command| == 2
    ensures var fields := map["frame_id" := Raw([frameId]), "command" := Raw(command), "status" := Raw([status])];
            Marshal.Split(Tables, [0x88, frameId] + command + [status] + parameter)
            == if |parameter| == 0 then Ok(Packet("at_response", fields))
               else if Lower(command) == AtHooks.IsCommand && status == 0x00 then
                 match IoSamples.Samples(Series1, parameter)
                 case Ok(samples) => Ok(Packet("at_response", fields["parameter" := Samples(samples)]))
                 case Err(e) => Err(e)
               else Ok(Packet("at_response", fields["parameter" := Raw(parameter)]))
  {
    var values: seq<seq<byte>> := [[frameId], command, [status], parameter];
    assert Tables.responses[0x88] == AtResponse;
    Marshal.SplitFour(Tables, 0x88, values);
    assert [0x88] + [frameId] + command + [status] + parameter == [0x88, frameId] + command + [status] + parameter;
    var fields := map["frame_id" := Raw([frameId]), "command" := Raw(command), "status" := Raw([status])];
    AtResponseHook(fields, parameter);
  }

  /** Split examples for `at_response` (0x88): without a parameter the key is
      absent, and a reply to MY keeps its parameter bytes. */
  lemma SplitAtResponseExamples()
    ensures Marshal.Split(Tables, [0x88, 0x44, 0x4D, 0x59, 0x01])
            == Ok(Packet("at_response", map["frame_id" := Raw([0x44]), "command" := Raw([0x4D, 0x59]),
                                            "status" := Raw([0x01])]))
    ensures Marshal.Split(Tables, [0x88, 0x44, 0x4D, 0x59, 0x01] + MyParameter)
            == Ok(Packet("at_response", map["frame_id" := Raw([0x44]), "command" := Raw([0x4D, 0x59]),
                                            "status" := Raw([0x01]), "parameter" := Raw(MyParameter)]))
  {
    SplitMyReplyBare();
    SplitMyReplyParameter();
  }

  /** The parameter of the library's MY reply: "ABCDEF". */
  const MyParameter: seq<byte> := [0x41, 0x42, 0x43, 0x44, 0x45, 0x46]

  lemma SplitMyReplyBare()
    ensures Marshal.Split(Tables, [0x88, 0x44, 0x4D, 0x59, 0x01])
            == Ok(Packet("at_response", map["frame_id" := Raw([0x44]), "command" := Raw([0x4D, 0x59]),
                                            "status" := Raw([0x01])]))
  {
    AtResponseSplit(0x44, [0x4D, 0x59], 0x01, []);
    assert [0x88, 0x44] + [0x4D, 0x59] + [0x01] + [] == [0x88, 0x44, 0x4D, 0x59, 0x01];
  }

  lemma SplitMyReplyParameter()
    ensures Marshal.Split(Tables, [0x88, 0x44, 0x4D, 0x59, 0x01] + MyParameter)
            == Ok(Packet("at_response", map["frame_id" := Raw([0x44]), "command" := Raw([0x4D, 0x59]),
                                            "status" := Raw([0x01]), "parameter" := Raw(MyParameter)]))
  {
    AtResponseSplit(0x44, [0x4D, 0x59], 0x01, MyParameter);
    assert [0x88, 0x44] + [0x4D, 0x59] + [0x01] == [0x88, 0x44, 0x4D, 0x59, 0x01];
    AtHooks.LowerMatchesCommand([0x4D, 0x59], 0x69, 0x73);
  }

  /** A successful IS reply has its parameter decoded as IO samples. */
  lemma IsReplySplit(frameId: byte, parameter: seq<byte>, samples: seq<Sample>)
    requires |parameter| > 0 && IoSamples.Samples(Series1, parameter) == Ok(samples)
    ensures Marshal.Split(Tables, [0x88, frameId, 0x49, 0x53, 0x00] + parameter)
            == Ok(Packet("at_response", map["frame_id" := Raw([frameId]), "command" := Raw([0x49, 0x53]),
                                            "status" := Raw([0x00]), "parameter" := Samples(samples)]))
  {
    AtHooks.LowerMatchesCommand([0x49, 0x53], 0x69, 0x73);
    AtResponseSplit(frameId, [0x49, 0x53], 0x00, parameter);
    assert [0x88, frameId] + [0x49, 0x53] + [0x00] + parameter == [0x88, frameId, 0x49, 0x53, 0x00] + parameter;
  }

  /** The library's IS reply: frame id 'D', status OK and the one-sample
      payload with DIO 1, 3, 5, 7 high and ADC 0 at 255. */
  lemma SplitIsResponseExample()
    ensures Marshal.Split(Tables, [0x88, 0x44, 0x49, 0x53, 0x00] + IoSamples.MixedPayload)
            == Ok(Packet("at_response", map["frame_id" := Raw([0x44]), "command" := Raw([0x49, 0x53]),
                                            "status" := Raw([0x00]),
                                            "parameter" := Samples([IoSamples.MixedSample])]))
  {
    IoSamples.SampleExampleMixed();
    IsReplySplit(0x44, IoSamples.MixedPayload, [IoSamples.MixedSample]);
  }

  /** A parsing rule installed on `at_response` replaces the parameter with
      what the rule returns. */
  lemma GeneralizedParsingExample()
    ensures var spec := ResponseSpec(AtResponse.name, AtResponse.structure,
                                     [ParseRule("parameter", Replace([0x47, 0x48, 0x49, 0x4A, 0x4B, 0x4C]))]);
            Marshal.Split(Variant(Commands, Responses[0x88 := spec], Series1),
                          [0x88, 0x44, 0x4D, 0x59, 0x01, 0x41, 0x42, 0x43, 0x44, 0x45, 0x46])
            == Ok(Packet("at_response", map["frame_id" := Raw([0x44]), "command" := Raw([0x4D, 0x59]),
                                            "status" := Raw([0x01]),
                                            "parameter" := Raw([0x47, 0x48, 0x49, 0x4A, 0x4B, 0x4C])]))
  {
    var rule := ParseRule("parameter", Replace([0x47, 0x48, 0x49, 0x4A, 0x4B, 0x4C]));
    var spec := ResponseSpec(AtResponse.name, AtResponse.structure, [rule]);
    var v := Variant(Commands, Responses[0x88 := spec], Series1);
    var values: seq<seq<byte>> := [[0x44], [0x4D, 0x59], [0x01], [0x41, 0x42, 0x43, 0x44, 0x45, 0x46]];
    Marshal.SplitFour(v, 0x88, values);
    assert [0x88] + [0x44] + [0x4D, 0x59] + [0x01] + [0x41, 0x42, 0x43, 0x44, 0x45, 0x46]
           == [0x88, 0x44, 0x4D, 0x59, 0x01, 0x41, 0x42, 0x43, 0x44, 0x45, 0x46];
    var p := Packet("at_response", Marshal.FourMap(AtResponse.structure, values));
    Marshal.ApplyOneRule(Series1, rule, p);
    var fields := map["frame_id" := Raw([0x44]), "command" := Raw([0x4D, 0x59]), "status" := Raw([0x01])];
    assert fields["parameter" := Raw(values[3])]["parameter" := Raw([0x47, 0x48, 0x49, 0x4A, 0x4B, 0x4C])]
           == fields["parameter" := Raw([0x47, 0x48, 0x49, 0x4A, 0x4B, 0x4C])];
  }

  /** An `rx_io_data` payload (0x83) splits into address, RSSI and options,
      and its samples, when present, are always decoded. */
  lemma RxIoDataSplit(source: seq<byte>, rssi: byte, options: byte, samples: seq<byte>)
    requires |source| == 2 && |samples| > 0
    ensures var fields := map["source_addr" := Raw(source), "rssi" := Raw([rssi]), "options" := Raw([options])];
            Marshal.Split(Tables, [0x83] + source + [rssi, options] + samples)
            == match IoSamples.Samples(Series1, samples)
               case Ok(decoded) => Ok(Packet("rx_io_data", fields["samples" := Samples(decoded)]))
               case Err(e) => Err(e)
  {
    var values: seq<seq<byte>> := [source, [rssi], [options], samples];
    assert Tables.responses[0x83] == RxIoData;
    Marshal.SplitFour(Tables, 0x83, values);
    assert [0x83] + source + [rssi] + [options] + samples == [0x83] + source + [rssi, options] + samples;
    var fields := map["source_addr" := Raw(source), "rssi" := Raw([rssi]), "options" := Raw([options])];
    var p := Packet("rx_io_data", fields["samples" := Raw(samples)]);
    Marshal.ApplyOneRule(Series1, ParseRule("samples", IoSamples), p);
    match IoSamples.Samples(Series1, samples) {
      case Ok(decoded) =>
        assert p.fields["samples" := Samples(decoded)] == fields["samples" := Samples(decoded)];
      case Err(_) =>
    }
  }

  /** An `rx_io_data` payload whose sample bytes decode. */
  lemma RxIoDataDecoded(frame: seq<byte>, source: seq<byte>, rssi: byte, options: byte, samples: seq<byte>, decoded: seq<Sample>)
    requires frame == [0x83] + source + [rssi, options] + samples
    requires |source| == 2 && |samples| > 0 && IoSamples.Samples(Series1, samples) == Ok(decoded)
    ensures Marshal.Split(Tables, frame)
            == Ok(Packet("rx_io_data", map["source_addr" := Raw(source), "rssi" := Raw([rssi]),
                                           "options" := Raw([options]), "samples" := Samples(decoded)]))
  {
    RxIoDataSplit(source, rssi, options, samples);
  }

  /** The library's IO-data frame payload: from address 00 01 at RSSI 0x28,
      one sample with DIO 1, 3, 5, 7 high and ADC 0 at 255. */
  const RxIoDataPayload: seq<byte> := [0x83, 0x00, 0x01, 0x28, 0x00] + IoSamples.MixedPayload

  lemma RxIoDataPayloadParts()
    ensures RxIoDataPayload == [0x83] + [0x00, 0x01] + [0x28, 0x00] + IoSamples.MixedPayload
  { }

  lemma RxIoDataExample()
    ensures Marshal.Split(Tables, RxIoDataPayload)
            == Ok(Packet("rx_io_data", map["source_addr" := Raw([0x00, 0x01]), "rssi" := Raw([0x28]),
                                           "options" := Raw([0x00]),
                                           "samples" := Samples([IoSamples.MixedSample])]))
  {
    RxIoDataPayloadParts();
    IoSamples.SampleExampleMixed();
    RxIoDataDecoded(RxIoDataPayload, [0x00, 0x01], 0x28, 0x00, IoSamples.MixedPayload, [IoSamples.MixedSample]);
  }
}
