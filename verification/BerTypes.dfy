/** Schemas (Go types with their parsed `ber` tags), Go values, and the encoder tree. */
module BerTypes {
  import opened Bytes
  import opened Results
  import opened BerScalars

  /** The field parameters the codec reads; tag is the tagNum, if any. */
  datatype Params = Params(tag: Option<nat>, optional: bool, isSet: bool, explicitTag: bool, stringType: nat)

  datatype Field = Field(schema: Schema, params: Params)

  /** A Go type. SWrap is a struct whose first field is Value or List, SChoice one whose first field is Present. */
  datatype Schema =
    | SInt
    | SEnumerated
    | SBool
    | SOctets
    | SBits
    | SString
    | SPtr(elem: Schema)
    | SWrap(elem: Schema)
    | SSlice(elem: Schema)
    | SStruct(fields: seq<Field>)
    | SChoice(alts: seq<Field>)

  predicate Primitive(s: Schema) {
    s.SInt? || s.SEnumerated? || s.SBool? || s.SOctets? || s.SBits? || s.SString?
  }

  /** A Go value. VNil is a nil pointer, a nil slice or a nil octet string; a choice holds a value for every alternative. */
  datatype Value =
    | VInt(i: int)
    | VBool(b: bool)
    | VOctets(octets: seq<byte>)
    | VBits(bits: seq<byte>, bitLength: nat)
    | VString(chars: seq<byte>)
    | VNil
    | VPtr(target: Value)
    | VWrap(inner: Value)
    | VSlice(elems: seq<Value>)
    | VStruct(fields: seq<Value>)
    | VChoice(present: int, alts: seq<Value>)

  /** Kinds on which reflect's IsNil is allowed. */
  predicate Nillable(s: Schema) { s.SPtr? || s.SSlice? || s.SOctets? }

  /** The zero value of a Go type. */
  function Zero(s: Schema): Value
    decreases s, 0
  {
    match s
    case SInt | SEnumerated => VInt(0)
    case SBool => VBool(false)
    case SBits => VBits([], 0)
    case SString => VString([])
    case SOctets | SPtr(_) | SSlice(_) => VNil
    case SWrap(e) => VWrap(Zero(e))
    case SStruct(fs) => VStruct(Zeros(fs))
    case SChoice(alts) => VChoice(0, Zeros(alts))
  }

  function Zeros(fs: seq<Field>): (vs: seq<Value>)
    ensures |vs| == |fs|
    decreases fs, 0
  {
    if fs == [] then []
    else
      var f := fs[|fs| - 1];
      assert f.schema < f;
      Zeros(fs[..|fs| - 1]) + [Zero(f.schema)]
  }

  lemma {:induction false} ZerosAt(fs: seq<Field>, k: nat)
    requires k < |fs|
    ensures Zeros(fs)[k] == Zero(fs[k].schema)
  {
    if k < |fs| - 1 {
      ZerosAt(fs[..|fs| - 1], k);
    }
  }

  /** The encoder types of the marshaller. */
  datatype Encoder =
    | EByte(b: byte)
    | EBytes(bytes: seq<byte>)
    | EString(chars: seq<byte>)
    | EInt(i: int)
    | EBits(bits: seq<byte>, bitLength: nat)
    | EStruct(parts: seq<Encoder>)
    | EBer(tagAndLen: Encoder, value: Encoder)

  /** The octets an encoder stands for: for a tree, the concatenation of headers and contents. */
  function Octs(e: Encoder): seq<byte> {
    match e
    case EByte(b) => [b]
    case EBytes(s) => s
    case EString(s) => s
    case EInt(i) => Octets(i, IntLen(i))
    case EBits(bits, n) => BitOctets(bits, n)
    case EStruct(parts) => AllOcts(parts)
    case EBer(h, v) => Octs(h) + Octs(v)
  }

  function AllOcts(es: seq<Encoder>): seq<byte> {
    if es == [] then [] else AllOcts(es[..|es| - 1]) + Octs(es[|es| - 1])
  }
}
