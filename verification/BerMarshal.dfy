/** The marshaller: a typed value becomes a tree of encoders, and the tree is written into one buffer. */
module BerMarshal {
  import opened Bytes
  import opened Results
  import opened BerHeader
  import opened BerScalars
  import opened BerTypes

  const CLASS_CONTEXT := 2
  const TAG_BOOLEAN := 1
  const TAG_INTEGER := 2
  const TAG_BIT_STRING := 3
  const TAG_OCTET_STRING := 4
  const TAG_ENUMERATED := 10
  const TAG_SEQUENCE := 16
  const TAG_SET := 17

  /** Puts the header before contents whose universal tag is utag: own tag, implicit tag or explicit tag. */
  function Finish(p: Params, constructed: bool, utag: nat, content: Encoder): Encoder {
    var own := TagAndLen(0, constructed, utag, |Octs(content)|);
    if p.tag.None? then EBer(EBytes(HeaderOctets(own)), content)
    else if p.explicitTag then
      var inner := EBer(EBytes(HeaderOctets(own)), content);
      EBer(EBytes(HeaderOctets(TagAndLen(CLASS_CONTEXT, true, p.tag.value, |Octs(inner)|))), inner)
    else EBer(EBytes(HeaderOctets(own.(cls := CLASS_CONTEXT, tagNumber := p.tag.value))), content)
  }

  function SequenceTag(p: Params): nat { if p.isSet then TAG_SET else TAG_SEQUENCE }

  /** The universal tag number of a primitive type. */
  function UniversalTag(s: Schema, p: Params): nat {
    match s
    case SBits => TAG_BIT_STRING
    case SOctets => TAG_OCTET_STRING
    case SEnumerated => TAG_ENUMERATED
    case SBool => TAG_BOOLEAN
    case SString => p.stringType
    case _ => TAG_INTEGER
  }

  /** The contents encoder of a primitive value. */
  function Contents(s: Schema, v: Value): Result<Encoder> {
    match s
    case SBits => if v.VBits? then Ok(EBits(v.bits, v.bitLength)) else Fail(Panic)
    case SOctets => if v.VNil? then Ok(EBytes([])) else if v.VOctets? then Ok(EBytes(v.octets)) else Fail(Panic)
    case SBool => if v.VBool? then Ok(EByte(if v.b then 0xff else 0)) else Fail(Panic)
    case SString => if v.VString? then Ok(EString(v.chars)) else Fail(Panic)
    case _ => if v.VInt? then Ok(EInt(v.i)) else Fail(Panic)
  }

  /** The encoder tree of value v of type s under parameters p. */
  function Build(s: Schema, p: Params, v: Value): Result<Encoder>
    decreases s, 0
  {
    if s.SPtr? then
      if v.VNil? then Fail(Error) else if v.VPtr? then Build(s.elem, p, v.target) else Fail(Panic)
    else if s.SWrap? then
      if v.VWrap? then Build(s.elem, p, v.inner) else Fail(Panic)
    else if s.SChoice? then
      if !v.VChoice? || |v.alts| != |s.alts| || !(0 <= v.present <= |s.alts|) then Fail(Panic)
      else if v.present == 0 then Fail(Error)
      else
        var alt := s.alts[v.present - 1];
        assert alt.schema < alt;
        var built := Build(alt.schema, alt.params, v.alts[v.present - 1]);
        if p.tag.None? then built
        else if built.Fail? then Fail(Panic)
        else Ok(Finish(p, true, 0, built.value))
    else if s.SStruct? then
      if s.fields == [] || !v.VStruct? || |v.fields| != |s.fields| then Fail(Panic)
      else
        var built :- BuildFields(s.fields, v.fields);
        if built.1 then Ok(Finish(p, true, SequenceTag(p), EStruct(built.0))) else Fail(Panic)
    else if s.SSlice? then
      var parts :- BuildElems(s.elem, p.(tag := None), if v.VSlice? then v.elems else []);
      Ok(Finish(p, true, SequenceTag(p), EStruct(parts)))
    else
      var contents :- Contents(s, v);
      Ok(Finish(p, false, UniversalTag(s, p), contents))
  }

  /** The encoders of the first fields, and whether one of them was emitted (absent optional fields are not). */
  function BuildFields(fs: seq<Field>, vs: seq<Value>): (r: Result<(seq<Encoder>, bool)>)
    requires |fs| == |vs|
    ensures r.Ok? ==> |r.value.0| == |fs|
    decreases fs, 0
  {
    if fs == [] then Ok(([], false))
    else
      var n := |fs| - 1;
      var f := fs[n];
      assert f.schema < f;
      var before :- BuildFields(fs[..n], vs[..n]);
      if f.params.optional && !Nillable(f.schema) then Fail(Panic)
      else if f.params.optional && vs[n].VNil? then Ok((before.0 + [EBytes([])], before.1))
      else
        var built := Build(f.schema, f.params, vs[n]);
        if built.Fail? then built.PropagateFailure() else Ok((before.0 + [built.value], true))
  }

  function BuildElems(e: Schema, p: Params, vs: seq<Value>): (r: Result<seq<Encoder>>)
    ensures r.Ok? ==> |r.value| == |vs|
    decreases e, 1 + |vs|
  {
    if vs == [] then Ok([])
    else
      var n := |vs| - 1;
      var before :- BuildElems(e, p, vs[..n]);
      var last :- Build(e, p, vs[n]);
      Ok(before + [last])
  }

  /** The octets of v, as BerMarshalWithParams returns them. */
  function Marshal(s: Schema, p: Params, v: Value): Result<seq<byte>> {
    var e :- Build(s, p, v);
    Ok(Octs(e))
  }

  // ---------------------------------------------------------------- in place

  /** The size an encoder announces before writing. */
  function Len(e: Encoder): (n: nat)
    ensures n == |Octs(e)|
  {
    match e
    case EByte(_) => 1
    case EBytes(s) => |s|
    case EString(s) => |s|
    case EInt(i) => IntLen(i)
    case EBits(bits, _) => |bits| + 1
    case EStruct(parts) => SumLen(parts)
    case EBer(h, v) => Len(h) + Len(v)
  }

  function SumLen(es: seq<Encoder>): (n: nat)
    ensures n == |AllOcts(es)|
  {
    if es == [] then 0 else SumLen(es[..|es| - 1]) + Len(es[|es| - 1])
  }

  /** Integers of the tree are 64-bit words. */
  predicate Writable(e: Encoder) {
    match e
    case EInt(i) => IsInt64(i)
    case EStruct(parts) => AllWritable(parts)
    case EBer(h, v) => Writable(h) && Writable(v)
    case _ => true
  }

  predicate AllWritable(es: seq<Encoder>) {
    es == [] || (AllWritable(es[..|es| - 1]) && Writable(es[|es| - 1]))
  }

  /** The array after s is written at start, everything else being as before. */
  ghost predicate Written(now: seq<byte>, was: seq<byte>, start: nat, s: seq<byte>) {
    start + |s| <= |was| && now == was[..start] + s + was[start + |s|..]
  }

  method Copy(s: seq<byte>, dst: array<byte>, start: nat)
    requires start + |s| <= dst.Length
    modifies dst
    ensures Written(dst[..], old(dst[..]), start, s)
  {
    ghost var was := dst[..];
    for k := 0 to |s|
      invariant dst[..] == was[..start] + s[..k] + was[start + k..]
    {
      dst[start + k] := s[k];
    }
    assert s[..|s|] == s;
  }

  lemma WrittenTwice(now: seq<byte>, mid: seq<byte>, was: seq<byte>, start: nat, a: seq<byte>, b: seq<byte>)
    requires Written(mid, was, start, a) && Written(now, mid, start + |a|, b)
    ensures Written(now, was, start, a + b)
  {
  }

  lemma {:induction false} AllOctsPrefix(es: seq<Encoder>, k: nat)
    requires k < |es|
    ensures AllOcts(es[..k + 1]) == AllOcts(es[..k]) + Octs(es[k])
    ensures |AllOcts(es[..k + 1])| <= |AllOcts(es)|
  {
    assert es[..k + 1][..k] == es[..k];
    if k + 1 < |es| {
      AllOctsPrefix(es[..|es| - 1], k);
      assert es[..|es| - 1][..k + 1] == es[..k + 1];
      assert es[..|es| - 1][..k] == es[..k];
    } else {
      assert es[..k + 1] == es;
    }
  }

  lemma {:induction false} AllWritableAt(es: seq<Encoder>, k: nat)
    requires AllWritable(es) && k < |es|
    ensures Writable(es[k])
  {
    if k < |es| - 1 {
      AllWritableAt(es[..|es| - 1], k);
    }
  }

  method EncodeBits(bits: seq<byte>, bitLength: nat, dst: array<byte>, start: nat)
    requires start + |bits| + 1 <= dst.Length
    modifies dst
    ensures Written(dst[..], old(dst[..]), start, BitOctets(bits, bitLength))
  {
    ghost var was := dst[..];
    dst[start] := 8 - bitLength % 8;
    ghost var mid := dst[..];
    assert Written(mid, was, start, [8 - bitLength % 8]);
    Copy(bits, dst, start + 1);
    WrittenTwice(dst[..], mid, was, start, [8 - bitLength % 8], bits);
  }

  /** Every encoder writes exactly its octets from start on and leaves the rest of the buffer alone. */
  method Encode(e: Encoder, dst: array<byte>, start: nat)
    requires Writable(e) && start + Len(e) <= dst.Length
    modifies dst
    ensures Written(dst[..], old(dst[..]), start, Octs(e))
    decreases e
  {
    hide BitOctets, AllOcts, SumLen, AllWritable;
    match e
    case EByte(b) =>
      dst[start] := b;
    case EBytes(s) =>
      Copy(s, dst, start);
    case EString(s) =>
      Copy(s, dst, start);
    case EInt(i) =>
      Int64Encode(i, dst, start);
    case EBits(bits, n) =>
      EncodeBits(bits, n, dst, start);
    case EStruct(parts) =>
      EncodeParts(parts, dst, start);
    case EBer(h, v) =>
      ghost var was := dst[..];
      Encode(h, dst, start);
      ghost var mid := dst[..];
      Encode(v, dst, start + Len(h));
      WrittenTwice(dst[..], mid, was, start, Octs(h), Octs(v));
  }

  lemma NothingWritten(was: seq<byte>, start: nat, parts: seq<Encoder>)
    requires start <= |was|
    ensures Written(was, was, start, AllOcts(parts[..0])) && AllOcts(parts[..0]) == []
  {
  }

  method EncodeParts(parts: seq<Encoder>, dst: array<byte>, start: nat)
    requires AllWritable(parts) && start + SumLen(parts) <= dst.Length
    modifies dst
    ensures Written(dst[..], old(dst[..]), start, AllOcts(parts))
    decreases parts
  {
    hide Octs, AllOcts, Writable, AllWritable, SumLen, Len, Written;
    ghost var was := dst[..];
    NothingWritten(was, start, parts);
    var at := start;
    var k := 0;
    while k < |parts|
      invariant 0 <= k <= |parts|
      invariant at == start + |AllOcts(parts[..k])| <= dst.Length
      invariant Written(dst[..], was, start, AllOcts(parts[..k]))
    {
      AllOctsPrefix(parts, k);
      AllWritableAt(parts, k);
      ghost var mid := dst[..];
      var len := Len(parts[k]);
      Encode(parts[k], dst, at);
      WrittenTwice(dst[..], mid, was, start, AllOcts(parts[..k]), Octs(parts[k]));
      at := at + len;
      k := k + 1;
    }
    assert parts[..k] == parts;
  }

  // ---------------------------------------------------------------- the marshaller itself

  /** Go's integers are 64-bit words. */
  predicate WordSized(v: Value)
    decreases v, 0
  {
    match v
    case VInt(i) => IsInt64(i)
    case VPtr(x) => WordSized(x)
    case VWrap(x) => WordSized(x)
    case VSlice(vs) => AllWordSized(vs)
    case VStruct(vs) => AllWordSized(vs)
    case VChoice(_, vs) => AllWordSized(vs)
    case _ => true
  }

  predicate AllWordSized(vs: seq<Value>)
    decreases vs, 0
  {
    vs == [] || (AllWordSized(vs[..|vs| - 1]) && WordSized(vs[|vs| - 1]))
  }

  lemma {:induction false} AllWordSizedAt(vs: seq<Value>, k: nat)
    requires AllWordSized(vs) && k < |vs|
    ensures WordSized(vs[k])
  {
    if k < |vs| - 1 {
      AllWordSizedAt(vs[..|vs| - 1], k);
    }
  }

  /** The trees the marshaller builds can be written. */
  lemma {:induction false} BuildWritable(s: Schema, p: Params, v: Value)
    requires WordSized(v) && Build(s, p, v).Ok?
    ensures Writable(Build(s, p, v).value)
    decreases s, 0
  {
    hide Finish, Octs, BuildFields, BuildElems;
    if s.SPtr? {
      BuildWritable(s.elem, p, v.target);
    } else if s.SWrap? {
      BuildWritable(s.elem, p, v.inner);
    } else if s.SSlice? {
      ElemsWritable(s.elem, p.(tag := None), if v.VSlice? then v.elems else []);
      FinishWritable(p, true, SequenceTag(p), EStruct(BuildElems(s.elem, p.(tag := None), if v.VSlice? then v.elems else []).value));
    } else if s.SStruct? {
      FieldsWritable(s.fields, v.fields);
      FinishWritable(p, true, SequenceTag(p), EStruct(BuildFields(s.fields, v.fields).value.0));
    } else if s.SChoice? {
      var alt := s.alts[v.present - 1];
      assert alt.schema < alt;
      AllWordSizedAt(v.alts, v.present - 1);
      BuildWritable(alt.schema, alt.params, v.alts[v.present - 1]);
      FinishWritable(p, true, 0, Build(alt.schema, alt.params, v.alts[v.present - 1]).value);
    } else {
      FinishWritable(p, false, UniversalTag(s, p), Contents(s, v).value);
    }
  }

  lemma FinishWritable(p: Params, constructed: bool, utag: nat, content: Encoder)
    requires Writable(content)
    ensures Writable(Finish(p, constructed, utag, content))
  {
    hide HeaderOctets, Octs;
    var own := EBytes(HeaderOctets(TagAndLen(0, constructed, utag, |Octs(content)|)));
    assert Writable(EBer(own, content));
  }

  lemma {:induction false} FieldsWritable(fs: seq<Field>, vs: seq<Value>)
    requires |fs| == |vs| && AllWordSized(vs) && BuildFields(fs, vs).Ok?
    ensures AllWritable(BuildFields(fs, vs).value.0)
    decreases fs, 0
  {
    if fs != [] {
      var n := |fs| - 1;
      FieldsWritable(fs[..n], vs[..n]);
      var f := fs[n];
      assert f.schema < f;
      if !(f.params.optional && vs[n].VNil?) {
        BuildWritable(f.schema, f.params, vs[n]);
      }
    }
  }

  lemma {:induction false} ElemsWritable(e: Schema, p: Params, vs: seq<Value>)
    requires AllWordSized(vs) && BuildElems(e, p, vs).Ok?
    ensures AllWritable(BuildElems(e, p, vs).value)
    decreases e, 1 + |vs|
  {
    if vs != [] {
      ElemsWritable(e, p, vs[..|vs| - 1]);
      BuildWritable(e, p, vs[|vs| - 1]);
    }
  }

  /** Once a field fails the whole struct fails the same way. */
  lemma {:induction false} BuildFieldsFails(fs: seq<Field>, vs: seq<Value>, k: nat)
    requires |fs| == |vs| && k <= |fs| && BuildFields(fs[..k], vs[..k]).Fail?
    ensures BuildFields(fs, vs) == BuildFields(fs[..k], vs[..k])
  {
    if k == |fs| {
      assert fs[..k] == fs && vs[..k] == vs;
    } else {
      var n := |fs| - 1;
      assert fs[..n][..k] == fs[..k] && vs[..n][..k] == vs[..k];
      BuildFieldsFails(fs[..n], vs[..n], k);
    }
  }

  lemma FieldsNext(fs: seq<Field>, vs: seq<Value>, i: nat)
    requires i < |fs| == |vs|
    ensures var f, v := fs[i], vs[i];
            BuildFields(fs[..i + 1], vs[..i + 1]) ==
            var before := BuildFields(fs[..i], vs[..i]);
            if before.Fail? then before
            else if f.params.optional && !Nillable(f.schema) then Fail(Panic)
            else if f.params.optional && v.VNil? then Ok((before.value.0 + [EBytes([])], before.value.1))
            else
              var built := Build(f.schema, f.params, v);
              if built.Fail? then Fail(built.failure) else Ok((before.value.0 + [built.value], true))
  {
    hide Build;
    assert fs[..i + 1][..i] == fs[..i] && vs[..i + 1][..i] == vs[..i];
  }

  lemma ElemsNext(e: Schema, p: Params, vs: seq<Value>, i: nat)
    requires i < |vs|
    ensures BuildElems(e, p, vs[..i + 1]) ==
            var before, built := BuildElems(e, p, vs[..i]), Build(e, p, vs[i]);
            if before.Fail? then before else if built.Fail? then Fail(built.failure) else Ok(before.value + [built.value])
  {
    hide Build;
    assert vs[..i + 1][..i] == vs[..i];
  }

  lemma NothingBuilt(e: Schema, p: Params, fs: seq<Field>, vs: seq<Value>)
    ensures BuildElems(e, p, vs[..0]) == Ok([]) && BuildFields(fs[..0], vs[..0]) == Ok(([], false))
  {
  }

  lemma {:induction false} BuildElemsFails(e: Schema, p: Params, vs: seq<Value>, k: nat)
    requires k <= |vs| && BuildElems(e, p, vs[..k]).Fail?
    ensures BuildElems(e, p, vs) == BuildElems(e, p, vs[..k])
  {
    if k == |vs| {
      assert vs[..k] == vs;
    } else {
      assert vs[..|vs| - 1][..k] == vs[..k];
      BuildElemsFails(e, p, vs[..|vs| - 1], k);
    }
  }

  method MakeHeader(p: Params, constructed: bool, utag: nat, content: Encoder) returns (e: Encoder)
    ensures e == Finish(p, constructed, utag, content)
  {
    var tag := TagAndLen(0, constructed, utag, Len(content));
    var value := content;
    if p.tag.Some? {
      if p.explicitTag {
        var own := AppendTagAndLen(tag);
        value := EBer(EBytes(own), value);
        tag := tag.(constructed := true, len := Len(value));
      }
      tag := tag.(cls := CLASS_CONTEXT, tagNumber := p.tag.value);
    }
    var h := AppendTagAndLen(tag);
    e := EBer(EBytes(h), value);
  }

  method MakeField(s: Schema, p: Params, v: Value) returns (r: Result<Encoder>)
    ensures r == Build(s, p, v)
    decreases s, 0
  {
    if s.SPtr? {
      if v.VNil? { return Fail(Error); }
      if !v.VPtr? { return Fail(Panic); }
      r := MakeField(s.elem, p, v.target);
    } else if s.SWrap? {
      if !v.VWrap? { return Fail(Panic); }
      r := MakeField(s.elem, p, v.inner);
    } else if s.SChoice? {
      if !v.VChoice? || |v.alts| != |s.alts| || !(0 <= v.present <= |s.alts|) { return Fail(Panic); }
      if v.present == 0 { return Fail(Error); }
      var alt := s.alts[v.present - 1];
      assert alt.schema < alt;
      r := MakeField(alt.schema, alt.params, v.alts[v.present - 1]);
      if p.tag.Some? {
        if r.Fail? { return Fail(Panic); }
        var e := MakeHeader(p, true, 0, r.value);
        r := Ok(e);
      }
    } else if s.SStruct? {
      if s.fields == [] || !v.VStruct? || |v.fields| != |s.fields| { return Fail(Panic); }
      r := MakeStruct(s.fields, p, v.fields);
    } else if s.SSlice? {
      r := MakeSlice(s.elem, p, if v.VSlice? then v.elems else []);
    } else {
      r := Contents(s, v);
      if r.Ok? {
        var e := MakeHeader(p, false, UniversalTag(s, p), r.value);
        r := Ok(e);
      }
    }
  }

  /** The loop over the fields of a struct: absent optional fields leave an empty encoder behind. */
  method MakeStruct(fs: seq<Field>, p: Params, vs: seq<Value>) returns (r: Result<Encoder>)
    requires |fs| == |vs|
    ensures r == var built := BuildFields(fs, vs);
                 if built.Fail? then Fail(built.failure)
                 else if built.value.1 then Ok(Finish(p, true, SequenceTag(p), EStruct(built.value.0))) else Fail(Panic)
    decreases fs, 1
  {
    hide Build, BuildFields, Finish;
    NothingBuilt(SInt, p, fs, vs);
    var parts: seq<Encoder> := [];
    var emitted := false;
    var i := 0;
    while i < |fs|
      invariant 0 <= i <= |fs|
      invariant BuildFields(fs[..i], vs[..i]) == Ok((parts, emitted))
    {
      var f := fs[i];
      assert f.schema < f;
      FieldsNext(fs, vs, i);
      if f.params.optional && !Nillable(f.schema) {
        BuildFieldsFails(fs, vs, i + 1);
        return Fail(Panic);
      }
      if f.params.optional && vs[i].VNil? {
        parts := parts + [EBytes([])];
      } else {
        var built := MakeField(f.schema, f.params, vs[i]);
        if built.Fail? {
          BuildFieldsFails(fs, vs, i + 1);
          return built;
        }
        parts := parts + [built.value];
        emitted := true;
      }
      i := i + 1;
    }
    assert fs[..i] == fs && vs[..i] == vs;
    if !emitted {
      return Fail(Panic);
    }
    var e := MakeHeader(p, true, SequenceTag(p), EStruct(parts));
    r := Ok(e);
  }

  /** The loop over the elements of a slice; they do not inherit its tag. */
  method MakeSlice(s: Schema, p: Params, vs: seq<Value>) returns (r: Result<Encoder>)
    ensures r == var built := BuildElems(s, p.(tag := None), vs);
                 if built.Fail? then Fail(built.failure)
                 else Ok(Finish(p, true, SequenceTag(p), EStruct(built.value)))
    decreases s, 1
  {
    hide Build, BuildElems, Finish;
    NothingBuilt(s, p.(tag := None), [], vs);
    var parts: seq<Encoder> := [];
    var i := 0;
    while i < |vs|
      invariant 0 <= i <= |vs|
      invariant BuildElems(s, p.(tag := None), vs[..i]) == Ok(parts)
    {
      ElemsNext(s, p.(tag := None), vs, i);
      var built := MakeField(s, p.(tag := None), vs[i]);
      if built.Fail? {
        BuildElemsFails(s, p.(tag := None), vs, i + 1);
        return built;
      }
      parts := parts + [built.value];
      i := i + 1;
    }
    assert vs[..i] == vs;
    var e := MakeHeader(p, true, SequenceTag(p), EStruct(parts));
    r := Ok(e);
  }

  /** Marshals into a buffer of exactly the announced size. */
  method BerMarshalWithParams(s: Schema, p: Params, v: Value) returns (r: Result<seq<byte>>)
    requires WordSized(v)
    ensures r == Marshal(s, p, v)
  {
    var e := MakeField(s, p, v);
    if e.Fail? {
      return Fail(e.failure);
    }
    BuildWritable(s, p, v);
    var b := new byte[Len(e.value)](_ => 0);
    Encode(e.value, b, 0);
    assert b[..] == Octs(e.value);
    r := Ok(b[..]);
  }
}
