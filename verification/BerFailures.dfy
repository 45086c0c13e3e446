/** What the codec refuses, by which kind of failure, and which alternatives and fields a tag leads to. */
module BerFailures {
  import opened Bytes
  import opened Results
  import opened BerHeader
  import opened BerTypes
  import opened BerMarshal
  import opened BerUnmarshal
  import opened BerMembers

  // ---------------------------------------------------------------- encoding

  /** A nil slice is written as an empty one, and a struct type without fields can be neither written nor read. */
  lemma NothingInside(e: Schema, p: Params, t: Value, bytes: seq<byte>)
    ensures Marshal(SSlice(e), p, VNil) == Marshal(SSlice(e), p, VSlice([]))
    ensures Marshal(SStruct([]), p, VStruct([])) == Fail(Panic)
    ensures Start(bytes).Ok? ==> Parse(SStruct([]), p, t, bytes) == Fail(Panic)
  {
    hide Start, Octs, Finish;
  }

  /** A nil pointer and a choice without a choice are errors; a choice of a number that is no alternative panics, and so does
      a tagged choice whose alternative cannot be encoded, for whatever reason. */
  lemma RefusedValues(s: Schema, p: Params, v: Value)
    ensures s.SPtr? && v.VNil? ==> Marshal(s, p, v) == Fail(Error)
    ensures s.SChoice? && v.VChoice? && |v.alts| == |s.alts| && v.present == 0 ==> Marshal(s, p, v) == Fail(Error)
    ensures s.SChoice? && v.VChoice? && |v.alts| == |s.alts| && !(0 <= v.present <= |s.alts|) ==> Marshal(s, p, v) == Fail(Panic)
    ensures s.SChoice? && v.VChoice? && |v.alts| == |s.alts| && 1 <= v.present <= |s.alts| ==>
              var alt := s.alts[v.present - 1];
              var inner := Marshal(alt.schema, alt.params, v.alts[v.present - 1]);
              if p.tag.None? then Marshal(s, p, v) == inner
              else (inner.Fail? ==> Marshal(s, p, v) == Fail(Panic)) && (inner.Ok? ==> Marshal(s, p, v).Ok?)
  {
    hide Octs, Finish, BuildFields, BuildElems;
  }

  /** The first field that cannot be encoded decides how a struct fails: an optional field that cannot be nil panics. */
  lemma FirstFailureDecides(fs: seq<Field>, p: Params, vs: seq<Value>, k: nat)
    requires k < |fs| == |vs| && BuildFields(fs[..k], vs[..k]).Ok?
    ensures fs[k].params.optional && !Nillable(fs[k].schema) ==> Marshal(SStruct(fs), p, VStruct(vs)) == Fail(Panic)
    ensures !fs[k].params.optional && Marshal(fs[k].schema, fs[k].params, vs[k]).Fail? ==>
              Marshal(SStruct(fs), p, VStruct(vs)) == Marshal(fs[k].schema, fs[k].params, vs[k])
  {
    hide Octs, Finish;
    FieldsNext(fs, vs, k);
    var f := fs[k];
    if (f.params.optional && !Nillable(f.schema)) || (!f.params.optional && Marshal(f.schema, f.params, vs[k]).Fail?) {
      BuildFieldsFails(fs, vs, k + 1);
    }
  }

  // ---------------------------------------------------------------- tags

  /** The alternative decoded is the first that carries the tag; alternatives without a tag are passed over. */
  lemma {:induction false} AlternativeIff(alts: seq<Field>, from: nat, tag: nat, k: nat)
    ensures FindAlt(alts, from, tag) == Ok(k) <==>
            from <= k < |alts| && alts[k].params.tag == Some(tag) && forall j :: from <= j < k ==> alts[j].params.tag != Some(tag)
    ensures FindAlt(alts, from, tag).Fail? ==> FindAlt(alts, from, tag) == Fail(Error)
    decreases |alts| - from
  {
    if from < |alts| {
      AlternativeIff(alts, from + 1, tag, k);
    }
  }

  /** The field a member goes to is the first that carries its tag, with no field without a tag before it: one such field
      panics the decoder. */
  lemma {:induction false} FieldIff(fs: seq<Field>, from: nat, tag: nat, k: nat)
    ensures FindField(fs, from, tag) == Ok(k) <==>
            && from <= k < |fs| && fs[k].params.tag == Some(tag)
            && forall j :: from <= j < k ==> fs[j].params.tag.Some? && fs[j].params.tag != Some(tag)
    ensures (forall j :: from <= j < |fs| ==> fs[j].params.tag.Some? && fs[j].params.tag != Some(tag)) ==> FindField(fs, from, tag) == Fail(Error)
    ensures from <= k < |fs| && fs[k].params.tag.None? && (forall j :: from <= j < k ==> fs[j].params.tag.Some? && fs[j].params.tag != Some(tag)) ==>
              FindField(fs, from, tag) == Fail(Panic)
    decreases |fs| - from
  {
    if from < |fs| {
      FieldIff(fs, from + 1, tag, k);
    }
  }

  /** A struct whose first field has no tag, as an IP address with a prefix length is one, panics on every member. */
  lemma UntaggedFieldPanics(fs: seq<Field>, p: Params, t: Value, bytes: seq<byte>)
    requires fs != [] && fs[0].params.tag.None? && Start(bytes).Ok?
    ensures var h := Start(bytes).value;
            h.size < |bytes| && Start(bytes[h.size..]).Ok? ==> Parse(SStruct(fs), p, t, bytes) == Fail(Panic)
  {
    hide Start;
    var size := Start(bytes).value.size;
    var inner := Start(bytes[size..]);
    if inner.Ok? {
      assert FindField(fs, 0, inner.value.tal.tagNumber) == Fail(Panic);
      MembersTurn(fs, p.isSet, (Members(t, fs), 0), bytes, size);
    }
  }

  /** Decoding a choice fills the alternative found and leaves the others of the target as they were. */
  lemma OthersStay(alts: seq<Field>, p: Params, t: Value, bytes: seq<byte>)
    requires Parse(SChoice(alts), p, t, bytes).Ok?
    ensures var v := Parse(SChoice(alts), p, t, bytes).value;
            && v.VChoice? && 1 <= v.present <= |alts| == |v.alts|
            && forall j :: 0 <= j < |alts| && j != v.present - 1 ==> v.alts[j] == Members(t, alts)[j]
  {
    hide Start, ParseHeader;
  }

  /** A tagged choice is selected by the header inside, which may announce no more octets than the whole input has, and its
      alternative is read from the size of that inner header on. */
  lemma TaggedChoiceDecoded(alts: seq<Field>, p: Params, t: Value, bytes: seq<byte>)
    requires p.tag.Some? && Start(bytes).Ok?
    ensures var r, inner := Parse(SChoice(alts), p, t, bytes), ParseHeader(bytes[Start(bytes).value.size..]);
            if inner.Fail? then r == Fail(inner.failure)
            else if inner.value.size + inner.value.tal.len > |bytes| then r == Fail(Error)
            else
              var k := FindAlt(alts, 0, inner.value.tal.tagNumber);
              if k.Fail? then r == Fail(Error)
              else
                var read := Parse(alts[k.value].schema, alts[k.value].params, Members(t, alts)[k.value], bytes[inner.value.size..]);
                if read.Fail? then r == read else r == Ok(VChoice(k.value + 1, Members(t, alts)[k.value := read.value]))
  {
    hide Start, ParseHeader;
    var inner := ParseHeader(bytes[Start(bytes).value.size..]);
    if inner.Ok? {
      AlternativeIff(alts, 0, inner.value.tal.tagNumber, 0);
    }
  }

  // ---------------------------------------------------------------- announced lengths

  /** A struct is read to the end of the input: members behind its announced end are its members too. */
  lemma StructReadsOn(fs: seq<Field>, p: Params, t: Value, head: seq<byte>, ms: seq<seq<byte>>)
    requires fs != [] && AllTlv(ms) && Start(head + Concat(ms)).Ok? && Start(head + Concat(ms)).value.size == |head|
    ensures var r, whole := Parse(SStruct(fs), p, t, head + Concat(ms)), FoldMembers(fs, p.isSet, (Members(t, fs), 0), ms);
            r == if whole.Ok? then Ok(VStruct(whole.value.0)) else Fail(whole.failure)
  {
    hide Start, AllTlv, Concat, FoldMembers;
    assert (head + Concat(ms))[|head|..] == Concat(ms);
    ParseMembersIsFold(fs, p.isSet, (Members(t, fs), 0), head + Concat(ms), |head|, ms);
    hide ParseMembers;
  }

  /** So is a slice. */
  lemma SliceReadsOn(e: Schema, p: Params, t: Value, head: seq<byte>, ms: seq<seq<byte>>)
    requires AllTlv(ms) && Start(head + Concat(ms)).Ok? && Start(head + Concat(ms)).value.size == |head|
    ensures var r, vs := Parse(SSlice(e), p, t, head + Concat(ms)), ParseElems(e, p, ms);
            r == if vs.Ok? then Ok(VSlice(vs.value)) else Fail(vs.failure)
  {
    hide Start, AllTlv, Concat;
    assert (head + Concat(ms))[|head|..] == Concat(ms);
    SplitMembers(head + Concat(ms), |head|, ms);
    hide Split, ParseElems;
  }
}
