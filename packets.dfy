/** The table-driven description of XBee API frames: a command is an ordered
    list of fields to send, a response an ordered list of fields to read plus
    optional parsing rules, and a parsed packet a dictionary of named values. */
module Packets {
  import opened Bytes

  /** A command field: its length (None for a variable-length field such as
      `parameter` or `data`) and the bytes sent when the caller gives none. */
  datatype CommandField = CommandField(name: string, len: Option<nat>, default: Option<seq<byte>>)

  /** A command: its name and fields in wire order; the first field is the
      one-byte frame type `id` with that byte as default. */
  datatype Command = Command(name: string, fields: seq<CommandField>)

  /** How a response field is delimited: a fixed number of bytes, the rest of
      the frame, or up to a 0x00 byte. */
  datatype FieldLen = Fixed(n: nat) | Variable | NullTerminated

  datatype ResponseField = ResponseField(name: string, len: FieldLen, default: Option<seq<byte>>)

  /** The post-processing functions the tables attach to a field. `Replace`
      stands for any constant function, as the library's own tests install. */
  datatype Hook = IoSamples | IsAtResponse | NdAtResponse | Replace(value: seq<byte>)

  datatype ParseRule = ParseRule(field: string, hook: Hook)

  datatype ResponseSpec = ResponseSpec(name: string, structure: seq<ResponseField>, parsing: seq<ParseRule>)

  /** The two IO-sample header layouts: Series 1 / DigiMesh and ZigBee. */
  datatype Layout = Series1 | ZigBee

  /** One radio family's tables and its IO header layout. */
  datatype Variant = Variant(commands: seq<Command>, responses: map<byte, ResponseSpec>, layout: Layout)

  /** One IO sample: digital lines `dio-N` and analog lines `adc-N`, keyed by N. */
  datatype Sample = Sample(dio: map<nat, bool>, adc: map<nat, int>)

  /** A value in a parsed packet: raw bytes, or what a parsing rule made of them. */
  datatype Value = Raw(bytes: seq<byte>) | Samples(samples: seq<Sample>) | NodeInfo(info: map<string, seq<byte>>)

  /** A parsed response: `id` is the response's name, `fields` the other keys. */
  datatype Packet = Packet(id: string, fields: map<string, Value>)

  /** A Variable field may only come last: reading stops there. */
  predicate VariableLast(structure: seq<ResponseField>)
  {
    forall i :: 0 <= i < |structure| - 1 ==> !structure[i].len.Variable?
  }

  predicate DistinctResponseNames(structure: seq<ResponseField>)
  {
    forall i, j :: 0 <= i < j < |structure| ==> structure[i].name != structure[j].name
  }

  /** Every command starts with a one-byte `id` field that has a default. */
  predicate IdFirst(c: Command)
  {
    |c.fields| > 0 && c.fields[0].name == "id" && c.fields[0].len == Some(1)
    && c.fields[0].default.Some? && |c.fields[0].default.value| == 1
  }

  /** The invariants every table of the library keeps. */
  predicate WellFormed(v: Variant)
  {
    (forall c :: c in v.commands ==> IdFirst(c))
    && (forall i, j :: 0 <= i < j < |v.commands| ==> v.commands[i].name != v.commands[j].name)
    && (forall b :: b in v.responses ==> ResponseWellFormed(v.responses[b]))
  }

  /** A response reads distinct fields, none named `id`, a variable-length
      one only in last place, and no parsing rule replaces `id`. */
  predicate ResponseWellFormed(spec: ResponseSpec)
  {
    VariableLast(spec.structure)
    && DistinctResponseNames(spec.structure)
    && (forall f :: f in spec.structure ==> f.name != "id")
    && (forall r :: r in spec.parsing ==> r.field != "id")
  }

  // Shorthands for writing the tables.

  /** A command field the caller must give. */
  function Required(name: string, n: nat): CommandField { CommandField(name, Some(n), None) }

  /** A command field with a default. */
  function Defaulted(name: string, n: nat, default: seq<byte>): CommandField { CommandField(name, Some(n), Some(default)) }

  /** A trailing variable-length command field. */
  function Optional(name: string): CommandField { CommandField(name, None, None) }

  /** A fixed-length response field. */
  function Sized(name: string, n: nat): ResponseField { ResponseField(name, Fixed(n), None) }

  /** A response field holding the rest of the payload. */
  function Rest(name: string): ResponseField { ResponseField(name, Variable, None) }

  /** A response field read up to a 0x00 byte. */
  function Terminated(name: string): ResponseField { ResponseField(name, NullTerminated, None) }
}
