/**
 * The unmarshaller. Parse is the specification: a function from the target as it was to the target
 * as it is left; ParseField is the loop code that computes it. Both terminate on every input.
 */
module BerUnmarshal {
  import opened Bytes
  import opened Results
  import opened BerHeader
  import opened BerScalars
  import opened BerTypes

  /** The header of bytes, which must also hold the announced contents. */
  function Start(bytes: seq<byte>): (r: Result<Header>)
    ensures r.Ok? ==> 2 <= r.value.size <= |bytes| && r.value.size + r.value.tal.len <= |bytes|
  {
    var h :- ParseHeader(bytes);
    if h.size + h.tal.len > |bytes| then Fail(Error) else Ok(h)
  }

  /** The first alternative carrying the tag; alternatives without a tag are passed over. */
  function FindAlt(alts: seq<Field>, from: nat, tag: nat): (r: Result<nat>)
    ensures r.Ok? ==> from <= r.value < |alts| && alts[r.value].params.tag == Some(tag)
    decreases |alts| - from
  {
    if from >= |alts| then Fail(Error)
    else if alts[from].params.tag == Some(tag) then Ok(from)
    else FindAlt(alts, from + 1, tag)
  }

  /** The first field from `from` on carrying the tag; a field without a tag is dereferenced and panics. */
  function FindField(fs: seq<Field>, from: nat, tag: nat): (r: Result<nat>)
    ensures r.Ok? ==> from <= r.value < |fs| && fs[r.value].params.tag == Some(tag)
    decreases |fs| - from
  {
    if from >= |fs| then Fail(Error)
    else if fs[from].params.tag.None? then Fail(Panic)
    else if fs[from].params.tag.value == tag then Ok(from)
    else FindField(fs, from + 1, tag)
  }

  /** The current members of a struct or choice target. */
  function Members(t: Value, fs: seq<Field>): (vs: seq<Value>)
    ensures |vs| == |fs|
  {
    if t.VStruct? && |t.fields| == |fs| then t.fields
    else if t.VChoice? && |t.alts| == |fs| then t.alts
    else Zeros(fs)
  }

  function Parse(s: Schema, p: Params, t: Value, bytes: seq<byte>): Result<Value>
    decreases s, 0
  {
    if s.SPtr? then
      var v :- Parse(s.elem, p, Zero(s.elem), bytes);
      Ok(VPtr(v))
    else
      var h :- Start(bytes);
      var content := bytes[h.size..];
      if s.SWrap? then
        var v :- Parse(s.elem, p, if t.VWrap? then t.inner else Zero(s.elem), bytes);
        Ok(VWrap(v))
      else if s.SSlice? then
        var parts :- Split(bytes, h.size);
        var vs :- ParseElems(s.elem, p, parts);
        Ok(VSlice(vs))
      else if s.SStruct? then
        if s.fields == [] then Fail(Panic)
        else
          var vs :- ParseMembers(s.fields, p.isSet, (Members(t, s.fields), 0), bytes, h.size);
          Ok(VStruct(vs))
      else if s.SChoice? then
        var at :- ChoiceStart(p, h, bytes);
        ParseAlt(s.alts, Members(t, s.alts), at.0, bytes[at.1..])
      else ParsePrimitive(s, content)
  }

  /** The value of contents octets, which run to the end of the input. */
  function ParsePrimitive(s: Schema, content: seq<byte>): Result<Value>
    requires Primitive(s)
  {
    match s
    case SBits =>
      if content == [] then Fail(Panic) else Ok(VBits(content[1..], ParsedBitLength(|content|, content[0])))
    case SOctets => Ok(VOctets(content))
    case SString => Ok(VString(content))
    case SBool => if content == [] then Fail(Panic) else Ok(VBool(content[0] != 0))
    case _ =>
      var i :- ParseInt(content);
      Ok(VInt(i))
  }

  /** The tag a choice is selected by and where its alternative is taken to begin: a tagged
      choice is selected by the inner header, and resumes at the size of that inner header. */
  function ChoiceStart(p: Params, h: Header, bytes: seq<byte>): (r: Result<(nat, nat)>)
    requires h.size <= |bytes|
    ensures r.Ok? ==> r.value.1 <= |bytes|
  {
    if p.tag.None? then Ok((h.tal.tagNumber, 0))
    else
      var inner :- ParseHeader(bytes[h.size..]);
      if inner.size + inner.tal.len > |bytes| then Fail(Error) else Ok((inner.tal.tagNumber, inner.size))
  }

  /** Parses the alternative carrying the tag; the other alternatives of the target stay as they are. */
  function ParseAlt(alts: seq<Field>, members: seq<Value>, tag: nat, bytes: seq<byte>): Result<Value>
    requires |members| == |alts|
    decreases alts, 0
  {
    var k :- FindAlt(alts, 0, tag);
    var f := alts[k];
    assert f.schema < f;
    var v :- Parse(f.schema, f.params, members[k], bytes);
    Ok(VChoice(k + 1, members[k := v]))
  }

  /** One turn of the struct loops: looks the tag up (a set from the first field, a sequence from field
      current on) and fills that field of the target; also the field to go on from. */
  function PlaceMember(fs: seq<Field>, isSet: bool, st: (seq<Value>, nat), tag: nat, m: seq<byte>)
    : (r: Result<(seq<Value>, nat)>)
    requires |st.0| == |fs|
    ensures r.Ok? ==> |r.value.0| == |fs|
    decreases fs, 0
  {
    var k :- FindField(fs, if isSet then 0 else st.1, tag);
    var f := fs[k];
    assert f.schema < f;
    var v :- Parse(f.schema, f.params, st.0[k], m);
    Ok((st.0[k := v], k + 1))
  }

  /** The struct loops from offset on. */
  function ParseMembers(fs: seq<Field>, isSet: bool, st: (seq<Value>, nat), bytes: seq<byte>, offset: nat)
    : (r: Result<seq<Value>>)
    requires |st.0| == |fs| && offset <= |bytes|
    ensures r.Ok? ==> |r.value| == |fs|
    decreases fs, 1 + |bytes| - offset
  {
    if offset >= |bytes| then Ok(st.0)
    else
      var h :- Start(bytes[offset..]);
      var next := offset + h.size + h.tal.len;
      var placed :- PlaceMember(fs, isSet, st, h.tal.tagNumber, bytes[offset..next]);
      ParseMembers(fs, isSet, placed, bytes, next)
  }

  /** The elements of a slice from offset on, each with its header. */
  function Split(bytes: seq<byte>, offset: nat): Result<seq<seq<byte>>>
    requires offset <= |bytes|
    decreases |bytes| - offset
  {
    if offset >= |bytes| then Ok([])
    else
      var h :- Start(bytes[offset..]);
      var next := offset + h.size + h.tal.len;
      var rest :- Split(bytes, next);
      Ok([bytes[offset..next]] + rest)
  }

  function ParseElems(e: Schema, p: Params, parts: seq<seq<byte>>): (r: Result<seq<Value>>)
    ensures r.Ok? ==> |r.value| == |parts|
    decreases e, 1 + |parts|
  {
    if parts == [] then Ok([])
    else
      var n := |parts| - 1;
      var before :- ParseElems(e, p, parts[..n]);
      var last :- Parse(e, p, Zero(e), parts[n]);
      Ok(before + [last])
  }

  function Unmarshal(s: Schema, p: Params, bytes: seq<byte>): Result<Value> {
    Parse(s, p, Zero(s), bytes)
  }

  // ---------------------------------------------------------------- the loops

  method FindTag(fs: seq<Field>, from: nat, tag: nat) returns (r: Result<nat>)
    ensures r == FindField(fs, from, tag)
  {
    var current := from;
    while current < |fs|
      invariant from <= current
      invariant FindField(fs, from, tag) == FindField(fs, current, tag)
    {
      if fs[current].params.tag.None? {
        return Fail(Panic);
      }
      if fs[current].params.tag.value == tag {
        return Ok(current);
      }
      current := current + 1;
    }
    r := Fail(Error);
  }

  method FindAlternative(alts: seq<Field>, tag: nat) returns (r: Result<nat>)
    ensures r == FindAlt(alts, 0, tag)
  {
    for i := 0 to |alts|
      invariant FindAlt(alts, 0, tag) == FindAlt(alts, i, tag)
    {
      if alts[i].params.tag == Some(tag) {
        return Ok(i);
      }
    }
    r := Fail(Error);
  }

  method ParseStart(bytes: seq<byte>) returns (r: Result<Header>)
    ensures r == Start(bytes)
  {
    r := ParseTagAndLength(bytes);
    if r.Ok? && r.value.size + r.value.tal.len > |bytes| {
      r := Fail(Error);
    }
  }

  method ParseField(s: Schema, p: Params, t: Value, bytes: seq<byte>) returns (r: Result<Value>)
    ensures r == Parse(s, p, t, bytes)
    decreases s, 0
  {
    if s.SPtr? {
      var v := ParseField(s.elem, p, Zero(s.elem), bytes);
      return if v.Ok? then Ok(VPtr(v.value)) else v;
    }
    var start := ParseStart(bytes);
    if start.Fail? {
      return Fail(start.failure);
    }
    var h := start.value;
    var content := bytes[h.size..];
    if s.SWrap? {
      var v := ParseField(s.elem, p, if t.VWrap? then t.inner else Zero(s.elem), bytes);
      r := if v.Ok? then Ok(VWrap(v.value)) else v;
    } else if s.SSlice? {
      r := ParseSlice(s.elem, p, bytes, h.size);
    } else if s.SStruct? {
      if s.fields == [] {
        return Fail(Panic);
      }
      var vs := ParseStruct(s.fields, p.isSet, Members(t, s.fields), bytes, h.size);
      r := if vs.Ok? then Ok(VStruct(vs.value)) else Fail(vs.failure);
    } else if s.SChoice? {
      r := ParseChoice(s.alts, p, Members(t, s.alts), bytes, h);
    } else {
      r := ParseContents(s, content);
    }
  }

  method ParseContents(s: Schema, content: seq<byte>) returns (r: Result<Value>)
    requires Primitive(s)
    ensures r == ParsePrimitive(s, content)
  {
    if s.SInt? || s.SEnumerated? {
      var i := ParseInt64(content);
      r := if i.Ok? then Ok(VInt(i.value)) else Fail(i.failure);
    } else if s.SOctets? {
      r := Ok(VOctets(content));
    } else if s.SString? {
      r := Ok(VString(content));
    } else if content == [] {
      r := Fail(Panic);
    } else if s.SBits? {
      r := Ok(VBits(content[1..], ParsedBitLength(|content|, content[0])));
    } else {
      r := Ok(VBool(content[0] != 0));
    }
  }

  method ParseChoice(alts: seq<Field>, p: Params, members: seq<Value>, bytes: seq<byte>, h: Header) returns (r: Result<Value>)
    requires |members| == |alts| && h.size <= |bytes|
    ensures r == var at := ChoiceStart(p, h, bytes);
                 if at.Fail? then Fail(at.failure) else ParseAlt(alts, members, at.value.0, bytes[at.value.1..])
    decreases alts, 1
  {
    var tag, offset := h.tal.tagNumber, 0;
    if p.tag.Some? {
      var inner := ParseTagAndLength(bytes[h.size..]);
      if inner.Fail? {
        return Fail(inner.failure);
      }
      if inner.value.size + inner.value.tal.len > |bytes| {
        return Fail(Error);
      }
      tag, offset := inner.value.tal.tagNumber, offset + inner.value.size;
    }
    var k := FindAlternative(alts, tag);
    if k.Fail? {
      return Fail(k.failure);
    }
    var f := alts[k.value];
    assert f.schema < f;
    var v := ParseField(f.schema, f.params, members[k.value], bytes[offset..]);
    r := if v.Ok? then Ok(VChoice(k.value + 1, members[k.value := v.value])) else v;
  }

  /** One turn of the struct loops. */
  lemma MembersTurn(fs: seq<Field>, isSet: bool, st: (seq<Value>, nat), bytes: seq<byte>, offset: nat)
    requires |st.0| == |fs| && offset <= |bytes|
    ensures ParseMembers(fs, isSet, st, bytes, offset) ==
            if offset == |bytes| then Ok(st.0)
            else
              var h := Start(bytes[offset..]);
              if h.Fail? then Fail(h.failure)
              else
                var next := offset + h.value.size + h.value.tal.len;
                var placed := PlaceMember(fs, isSet, st, h.value.tal.tagNumber, bytes[offset..next]);
                if placed.Fail? then Fail(placed.failure) else ParseMembers(fs, isSet, placed.value, bytes, next)
  {
  }

  /** Both struct loops: offset walks over the members, current over the fields of a sequence. */
  method ParseStruct(fs: seq<Field>, isSet: bool, t0: seq<Value>, bytes: seq<byte>, off: nat) returns (r: Result<seq<Value>>)
    requires |t0| == |fs| && off <= |bytes|
    ensures r == ParseMembers(fs, isSet, (t0, 0), bytes, off)
    decreases fs, 1
  {
    hide ParseMembers, FindField, Parse;
    var t := t0;
    var offset := off;
    var current := 0;
    while offset < |bytes|
      invariant offset <= |bytes| && |t| == |fs|
      invariant ParseMembers(fs, isSet, (t0, 0), bytes, off) == ParseMembers(fs, isSet, (t, current), bytes, offset)
    {
      MembersTurn(fs, isSet, (t, current), bytes, offset);
      var h := ParseStart(bytes[offset..]);
      if h.Fail? {
        return Fail(h.failure);
      }
      var next := offset + h.value.size + h.value.tal.len;
      var k := FindTag(fs, if isSet then 0 else current, h.value.tal.tagNumber);
      if k.Fail? {
        return Fail(k.failure);
      }
      var f := fs[k.value];
      assert f.schema < f;
      var v := ParseField(f.schema, f.params, t[k.value], bytes[offset..next]);
      if v.Fail? {
        return Fail(v.failure);
      }
      t := t[k.value := v.value];
      current := k.value + 1;
      offset := next;
    }
    MembersTurn(fs, isSet, (t, current), bytes, offset);
    r := Ok(t);
  }

  method ParseSlice(e: Schema, p: Params, bytes: seq<byte>, off: nat) returns (r: Result<Value>)
    requires off <= |bytes|
    ensures r == var parts := Split(bytes, off);
                 if parts.Fail? then Fail(parts.failure)
                 else var vs := ParseElems(e, p, parts.value);
                      if vs.Fail? then Fail(vs.failure) else Ok(VSlice(vs.value))
    decreases e, 1
  {
    hide Parse, ParseElems, Split;
    NoElems(e, p);
    var split := SplitElements(bytes, off);
    if split.Fail? {
      return Fail(split.failure);
    }
    var parts := split.value;
    var vs: seq<Value> := [];
    var i := 0;
    assert parts[..0] == [];
    while i < |parts|
      invariant 0 <= i <= |parts|
      invariant ParseElems(e, p, parts[..i]) == Ok(vs)
    {
      ParseElemsNext(e, p, parts, i);
      var v := ParseField(e, p, Zero(e), parts[i]);
      if v.Fail? {
        ParseElemsFails(e, p, parts, i + 1);
        return v;
      }
      vs := vs + [v.value];
      i := i + 1;
    }
    assert parts[..i] == parts;
    r := Ok(VSlice(vs));
  }

  method SplitElements(bytes: seq<byte>, off: nat) returns (r: Result<seq<seq<byte>>>)
    requires off <= |bytes|
    ensures r == Split(bytes, off)
  {
    var parts: seq<seq<byte>> := [];
    var offset := off;
    assert forall rest: seq<seq<byte>> :: parts + rest == rest;
    while offset < |bytes|
      invariant offset <= |bytes|
      invariant Split(bytes, offset).Fail? ==> Split(bytes, off) == Split(bytes, offset)
      invariant Split(bytes, offset).Ok? ==> Split(bytes, off) == Ok(parts + Split(bytes, offset).value)
    {
      var h := ParseStart(bytes[offset..]);
      if h.Fail? {
        return Fail(h.failure);
      }
      var next := offset + h.value.size + h.value.tal.len;
      assert forall rest :: parts + ([bytes[offset..next]] + rest) == parts + [bytes[offset..next]] + rest;
      parts := parts + [bytes[offset..next]];
      offset := next;
    }
    assert parts + [] == parts;
    r := Ok(parts);
  }

  lemma NoElems(e: Schema, p: Params)
    ensures ParseElems(e, p, []) == Ok([])
  {
  }

  lemma ParseElemsNext(e: Schema, p: Params, parts: seq<seq<byte>>, i: nat)
    requires i < |parts|
    ensures ParseElems(e, p, parts[..i + 1]) ==
            var before, last := ParseElems(e, p, parts[..i]), Parse(e, p, Zero(e), parts[i]);
            if before.Fail? then before else if last.Fail? then Fail(last.failure) else Ok(before.value + [last.value])
  {
    hide Parse;
    assert parts[..i + 1][..i] == parts[..i];
  }

  lemma {:induction false} ParseElemsFails(e: Schema, p: Params, parts: seq<seq<byte>>, k: nat)
    requires k <= |parts| && ParseElems(e, p, parts[..k]).Fail?
    ensures ParseElems(e, p, parts) == ParseElems(e, p, parts[..k])
  {
    if k == |parts| {
      assert parts[..k] == parts;
    } else {
      assert parts[..|parts| - 1][..k] == parts[..k];
      ParseElemsFails(e, p, parts[..|parts| - 1], k);
    }
  }
}
