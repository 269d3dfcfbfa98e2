/** The syntax tree of a SIDL interface (include/ast.hh). Fields that a SIF artifact does not
    store (`type_size`, `owned_strings`, the reader-filled hashes) are not part of the values. */
module Ast {
  import opened Octets

  type Uuid = b: Bytes | |b| == 16 witness Zeros(16)

  datatype Expression =
    | StringLiteral(value: Bytes)
    | NumberLiteral(number: u64)
    | Identifier(name: Bytes)

  datatype Annotation = Annotation(name: Bytes, args: seq<Expression>)

  datatype Type =
    | Named(isConst: bool, name: Bytes)
    | Ptr(isConst: bool, inner: Type)
    | Array(isConst: bool, inner: Type)

  datatype Direction = In | Out | InOut

  datatype Parameter =
    Parameter(direction: Direction, annotations: seq<Annotation>, ty: Type, name: Bytes)

  datatype Function =
    Function(id: u32, name: Bytes, annotations: seq<Annotation>, parameters: seq<Parameter>)

  datatype StructField = StructField(ty: Type, name: Bytes)

  datatype Struct = Struct(name: Bytes, annotations: seq<Annotation>, fields: seq<StructField>)

  datatype BitfieldField = BitfieldField(name: Bytes, bits: u64)

  datatype Bitfield =
    Bitfield(name: Bytes, annotations: seq<Annotation>, baseType: Type, fields: seq<BitfieldField>)

  datatype EnumMember = EnumMember(name: Bytes, value: u64, annotations: seq<Annotation>)

  datatype Enum =
    Enum(name: Bytes, annotations: seq<Annotation>, baseType: Type, members: seq<EnumMember>)

  datatype Revision = Revision(
    version: u64,
    annotations: seq<Annotation>,
    bitfields: seq<Bitfield>,
    enums: seq<Enum>,
    structs: seq<Struct>,
    functions: seq<Function>)

  datatype Interface = Interface(
    name: Bytes,
    hasUuid: bool,
    uuidNamespace: Uuid,
    uuidName: Bytes,
    hasPrefix: bool,
    prefix: Bytes,
    annotations: seq<Annotation>,
    revisions: seq<Revision>,
    currentFuncid: u32)
}
