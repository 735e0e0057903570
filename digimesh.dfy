/** The DigiMesh tables of xbee/backend/digimesh.py, run on the table engine
    of xbee/backend/base.py with its default (Series 1) IO-sample layout.
    No DigiMesh response has a parsing rule. */
module DigiMesh {
  import opened Bytes
  import opened Results
  import opened Packets
  import Marshal

  const Commands: seq<Command> := [
    Command("at", [Defaulted("id", 1, [0x08]), Defaulted("frame_id", 1, [0x00]),
                   Required("command", 2), Optional("parameter")]),
    Command("queued_at", [Defaulted("id", 1, [0x09]), Defaulted("frame_id", 1, [0x00]),
                          Required("command", 2), Optional("parameter")]),
    Command("remote_at", [Defaulted("id", 1, [0x17]), Defaulted("frame_id", 1, [0x00]),
                          Required("dest_addr_long", 8), Defaulted("reserved", 2, [0xFF, 0xFE]),
                          Defaulted("options", 1, [0x02]), Required("command", 2), Optional("parameter")]),
    Command("tx", [Defaulted("id", 1, [0x10]), Defaulted("frame_id", 1, [0x00]),
                   Required("dest_addr", 8), Defaulted("reserved", 2, [0xFF, 0xFE]),
                   Defaulted("broadcast_radius", 1, [0x00]), Defaulted("options", 1, [0x00]),
                   Optional("data")])
  ]

  const AtResponse := ResponseSpec("at_response",
    [Sized("frame_id", 1), Sized("command", 2), Sized("status", 1), Rest("parameter")], [])
  const Status := ResponseSpec("status", [Sized("status", 1)], [])
  /** The table gives `reserved` a default; reading a response ignores it. */
  const TxStatus := ResponseSpec("tx_status",
    [Sized("frame_id", 1), ResponseField("reserved", Fixed(2), Some([0xFF, 0xFE])), Sized("retries", 1),
     Sized("deliver_status", 1), Sized("discover_status", 1)], [])
  const Rx := ResponseSpec("rx",
    [Sized("source_addr", 8), Sized("reserved", 2), Sized("options", 1), Rest("data")], [])
  const NodeId := ResponseSpec("node_id",
    [Sized("source_addr_long", 8), Sized("network_addr", 2), Sized("options", 1),
     Sized("source_addr", 2), Sized("network_addr_long", 8), Terminated("node_id"),
     Sized("parent", 2), Rest("unknown")], [])
  const RemoteAtResponse := ResponseSpec("remote_at_response",
    [Sized("frame_id", 1), Sized("source_addr", 8), Sized("reserved", 2),
     Sized("command", 2), Sized("status", 1), Rest("parameter")], [])

  const Responses: map<byte, ResponseSpec> := map[
    0x88 := AtResponse, 0x8A := Status, 0x8B := TxStatus, 0x90 := Rx,
    0x95 := NodeId, 0x97 := RemoteAtResponse]

  const Tables: Variant := Variant(Commands, Responses, Series1)

  lemma CommandsWellFormed()
    ensures forall c :: c in Commands ==> IdFirst(c)
    ensures forall i, j :: 0 <= i < j < |Commands| ==> Commands[i].name != Commands[j].name
  {
    assert IdFirst(Commands[0]) && IdFirst(Commands[1]) && IdFirst(Commands[2]) && IdFirst(Commands[3]);
  }

  lemma AtResponseWellFormed() ensures ResponseWellFormed(AtResponse) { }

  lemma StatusWellFormed() ensures ResponseWellFormed(Status) { }

  lemma TxStatusWellFormed() ensures ResponseWellFormed(TxStatus) { }

  lemma RxWellFormed() ensures ResponseWellFormed(Rx) { }

  lemma RemoteAtResponseWellFormed() ensures ResponseWellFormed(RemoteAtResponse) { }

  lemma RepliesWellFormed()
    ensures ResponseWellFormed(AtResponse) && ResponseWellFormed(Status) && ResponseWellFormed(TxStatus)
  {
    AtResponseWellFormed();
    StatusWellFormed();
    TxStatusWellFormed();
  }

  lemma ReceivedWellFormed()
    ensures ResponseWellFormed(Rx) && ResponseWellFormed(RemoteAtResponse)
  {
    RxWellFormed();
    RemoteAtResponseWellFormed();
  }

  lemma NodeIdWellFormed()
    ensures ResponseWellFormed(NodeId)
  {
  }

  /** The tables keep the engine's invariants: every command starts with its
      one-byte id, command names are distinct, and each response has distinct
      field names with a variable-length field only in last place. */
  lemma TablesWellFormed()
    ensures WellFormed(Tables)
  {
    CommandsWellFormed();
    RepliesWellFormed();
    ReceivedWellFormed();
    NodeIdWellFormed();
  }

  /** No response has a parsing rule, so every value of a split DigiMesh
      packet is the raw bytes read for it. */
  lemma SplitValuesRaw(data: seq<byte>)
    requires Marshal.Split(Tables, data).Ok?
    ensures forall k :: k in Marshal.Split(Tables, data).value.fields ==> Marshal.Split(Tables, data).value.fields[k].Raw?
  {
    Marshal.SplitWithoutParsing(Tables, data);
  }

  /** A `tx_status` payload is exactly seven bytes and splits into its five
      fields; `reserved` is always the two bytes read, never its default. */
  lemma TxStatusSplit(data: seq<byte>)
    requires |data| > 0 && data[0] == 0x8B
    ensures |data| < 7 ==> Marshal.Split(Tables, data) == Err(ShorterThanExpected)
    ensures |data| > 7 ==> Marshal.Split(Tables, data) == Err(LongerThanExpected)
    ensures |data| == 7 ==>
              Marshal.Split(Tables, data)
              == Ok(Packet("tx_status", map["frame_id" := Raw(data[1..2]), "reserved" := Raw(data[2..4]),
                                            "retries" := Raw(data[4..5]), "deliver_status" := Raw(data[5..6]),
                                            "discover_status" := Raw(data[6..7])]))
  {
    assert Marshal.AllFixed(TxStatus.structure);
    assert Marshal.FixedTotal(TxStatus.structure) == 6;
    Marshal.SplitFixed(Tables, data);
  }

  /** The library's `tx_status` example: `8b 01 ff ff 01 01 01`, whose
      reserved bytes differ from the table's default `ff fe`. */
  lemma TxStatusExample(data: seq<byte>)
    requires data == [0x8B, 0x01, 0xFF, 0xFF, 0x01, 0x01, 0x01]
    ensures Marshal.Split(Tables, data)
            == Ok(Packet("tx_status", map["frame_id" := Raw([0x01]), "reserved" := Raw([0xFF, 0xFF]),
                                          "retries" := Raw([0x01]), "deliver_status" := Raw([0x01]),
                                          "discover_status" := Raw([0x01])]))
  {
    TxStatusSplit(data);
    assert data[1..2] == [0x01] && data[2..4] == [0xFF, 0xFF] && data[4..5] == [0x01];
    assert data[5..6] == [0x01] && data[6..7] == [0x01];
  }

  /** A `node_id` payload: 21 fixed bytes, the identifier up to its 0x00,
      the two parent bytes and, only when some bytes remain, `unknown`. */
  lemma NodeIdSplit(data: seq<byte>, t: nat)
    requires 22 <= t && t + 3 <= |data| && data[0] == 0x95
    requires data[t] == 0x00 && forall k :: 22 <= k < t ==> data[k] != 0x00
    ensures var fields := map["source_addr_long" := Raw(data[1..9]), "network_addr" := Raw(data[9..11]),
                              "options" := Raw(data[11..12]), "source_addr" := Raw(data[12..14]),
                              "network_addr_long" := Raw(data[14..22]), "node_id" := Raw(data[22..t]),
                              "parent" := Raw(data[t + 1..t + 3])];
            Marshal.Split(Tables, data)
            == Ok(Packet("node_id", if |data| == t + 3 then fields else fields["unknown" := Raw(data[t + 3..])]))
  {
    assert FirstZero(data, 22) == Some(t);
  }

  /** Without a 0x00 after the 21 leading bytes the identifier has no end;
      where the library scans on forever, the model reports it. */
  lemma NodeIdUnterminated(data: seq<byte>)
    requires |data| >= 22 && data[0] == 0x95 && forall k :: 22 <= k < |data| ==> data[k] != 0x00
    ensures Marshal.Split(Tables, data) == Err(MissingTerminator)
  {
    assert FirstZero(data, 22) == None;
  }

  /** A `node_id` payload cut off inside the parent address is too short. */
  lemma NodeIdTruncated(data: seq<byte>, t: nat)
    requires 22 <= t < |data| < t + 3 && data[0] == 0x95
    requires data[t] == 0x00 && forall k :: 22 <= k < t ==> data[k] != 0x00
    ensures Marshal.Split(Tables, data) == Err(ShorterThanExpected)
  {
    assert FirstZero(data, 22) == Some(t);
  }

  lemma FindRemoteAt() ensures Marshal.FindCommand(Commands, "remote_at") == Some(Commands[2]) { }

  lemma FindTx() ensures Marshal.FindCommand(Commands, "tx") == Some(Commands[3]) { }

  /** The `remote_at` payload: frame type 0x17, frame id 0x00, the given
      64-bit destination, reserved `ff fe`, options 0x02, the command and
      the parameter if one is given. */
  lemma RemoteAtPayload(args: map<string, seq<byte>>)
    requires "id" !in args && "frame_id" !in args && "reserved" !in args && "options" !in args
    requires "dest_addr_long" in args && |args["dest_addr_long"]| == 8
    requires "command" in args && |args["command"]| == 2
    ensures Marshal.Build(Commands, "remote_at", args)
            == Ok([0x17, 0x00] + args["dest_addr_long"] + [0xFF, 0xFE, 0x02] + args["command"]
                  + (if "parameter" in args then args["parameter"] else []))
  {
    FindRemoteAt();
    RemoteAtFields(args);
  }

  lemma RemoteAtFields(args: map<string, seq<byte>>)
    requires "id" !in args && "frame_id" !in args && "reserved" !in args && "options" !in args
    requires "dest_addr_long" in args && |args["dest_addr_long"]| == 8
    requires "command" in args && |args["command"]| == 2
    ensures Marshal.BuildFields(Commands[2].fields, args)
            == Ok([0x17, 0x00] + args["dest_addr_long"] + [0xFF, 0xFE, 0x02] + args["command"]
                  + (if "parameter" in args then args["parameter"] else []))
  {
    var f := Commands[2].fields;
    var parameter: seq<byte> := if "parameter" in args then args["parameter"] else [];
    var parts: seq<seq<byte>> := [[0x17], [0x00], args["dest_addr_long"], [0xFF, 0xFE], [0x02], args["command"], parameter];
    forall i | 0 <= i < 7
      ensures Marshal.FieldData(f[i], args) == Ok(parts[i])
    {
    }
    Marshal.BuildFieldsParts(f, args, parts);
    Marshal.FlattenSeven([0x17], [0x00], args["dest_addr_long"], [0xFF, 0xFE], [0x02], args["command"], parameter);
    assert [0x17] + ([0x00] + (args["dest_addr_long"] + ([0xFF, 0xFE] + ([0x02] + (args["command"] + (parameter + []))))))
           == [0x17, 0x00] + args["dest_addr_long"] + [0xFF, 0xFE, 0x02] + args["command"] + parameter;
  }

  /** `remote_at` has no default destination: without one it is refused. */
  lemma RemoteAtNeedsDestination(args: map<string, seq<byte>>)
    requires "id" !in args && "frame_id" !in args && "dest_addr_long" !in args
    ensures Marshal.Build(Commands, "remote_at", args) == Err(MissingField("dest_addr_long", 8))
  {
    var f := Commands[2].fields;
    FindRemoteAt();
    assert Marshal.FieldData(f[2], args) == Err(MissingField("dest_addr_long", 8));
    assert f[1..][1..] == f[2..];
    assert Marshal.FieldData(f[1], args) == Ok([0x00]);
    assert Marshal.FieldData(f[0], args) == Ok([0x17]);
    assert Marshal.BuildFields(f[2..], args) == Err(MissingField("dest_addr_long", 8));
    assert Marshal.BuildFields(f[1..], args) == Err(MissingField("dest_addr_long", 8));
    assert Marshal.BuildFields(f, args) == Err(MissingField("dest_addr_long", 8));
  }

  /** The `tx` payload: frame type 0x10, frame id 0x00, the given 64-bit
      destination, reserved `ff fe`, broadcast radius and options 0x00, then
      the data if any is given. */
  lemma TxPayload(args: map<string, seq<byte>>)
    requires "id" !in args && "frame_id" !in args && "reserved" !in args
    requires "broadcast_radius" !in args && "options" !in args
    requires "dest_addr" in args && |args["dest_addr"]| == 8
    ensures Marshal.Build(Commands, "tx", args)
            == Ok([0x10, 0x00] + args["dest_addr"] + [0xFF, 0xFE, 0x00, 0x00]
                  + (if "data" in args then args["data"] else []))
  {
    FindTx();
    TxFields(args);
  }

  lemma TxFields(args: map<string, seq<byte>>)
    requires "id" !in args && "frame_id" !in args && "reserved" !in args
    requires "broadcast_radius" !in args && "options" !in args
    requires "dest_addr" in args && |args["dest_addr"]| == 8
    ensures Marshal.BuildFields(Commands[3].fields, args)
            == Ok([0x10, 0x00] + args["dest_addr"] + [0xFF, 0xFE, 0x00, 0x00]
                  + (if "data" in args then args["data"] else []))
  {
    var f := Commands[3].fields;
    var d: seq<byte> := if "data" in args then args["data"] else [];
    var parts: seq<seq<byte>> := [[0x10], [0x00], args["dest_addr"], [0xFF, 0xFE], [0x00], [0x00], d];
    forall i | 0 <= i < 7
      ensures Marshal.FieldData(f[i], args) == Ok(parts[i])
    {
    }
    Marshal.BuildFieldsParts(f, args, parts);
    Marshal.FlattenSeven([0x10], [0x00], args["dest_addr"], [0xFF, 0xFE], [0x00], [0x00], d);
    assert [0x10] + ([0x00] + (args["dest_addr"] + ([0xFF, 0xFE] + ([0x00] + ([0x00] + (d + []))))))
           == [0x10, 0x00] + args["dest_addr"] + [0xFF, 0xFE, 0x00, 0x00] + d;
  }

  /** `tx` has no default destination: without one it is refused. */
  lemma TxNeedsDestination(args: map<string, seq<byte>>)
    requires "id" !in args && "frame_id" !in args && "dest_addr" !in args
    ensures Marshal.Build(Commands, "tx", args) == Err(MissingField("dest_addr", 8))
  {
    var f := Commands[3].fields;
    FindTx();
    assert Marshal.FieldData(f[2], args) == Err(MissingField("dest_addr", 8));
    assert f[1..][1..] == f[2..];
    assert Marshal.FieldData(f[1], args) == Ok([0x00]);
    assert Marshal.FieldData(f[0], args) == Ok([0x10]);
    assert Marshal.BuildFields(f[2..], args) == Err(MissingField("dest_addr", 8));
    assert Marshal.BuildFields(f[1..], args) == Err(MissingField("dest_addr", 8));
    assert Marshal.BuildFields(f, args) == Err(MissingField("dest_addr", 8));
  }

  /** An `rx` payload splits into source, reserved and options, and the data
      when there is any, as raw bytes. */
  lemma RxSplit(source: seq<byte>, reserved: seq<byte>, options: byte, rf: seq<byte>)
    requires |source| == 8 && |reserved| == 2
    ensures var fields := map["source_addr" := Raw(source), "reserved" := Raw(reserved), "options" := Raw([options])];
            Marshal.Split(Tables, [0x90] + source + reserved + [options] + rf)
            == Ok(Packet("rx", if |rf| == 0 then fields else fields["data" := Raw(rf)]))
  {
    var values: seq<seq<byte>> := [source, reserved, [options], rf];
    assert Marshal.Fits(Rx.structure, values);
    assert VariableLast(Rx.structure);
    Marshal.SplitRoundTrip(Tables, 0x90, values);
    Marshal.FourFields(Rx.structure, values);
    assert [0x90] + (source + reserved + [options] + rf) == [0x90] + source + reserved + [options] + rf;
  }
}
