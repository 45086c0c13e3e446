/** Structs and slices come back exactly if each of their members does. */
module BerMemberwise {
  import opened Bytes
  import opened Results
  import opened BerHeader
  import BerHeaderLaws
  import opened BerTypes
  import opened BerMarshal
  import opened BerUnmarshal
  import opened BerMembers
  import opened BerRoundTrip
  import opened BerLimits
  import opened BerOrder

  // ---------------------------------------------------------------- lengths of structs

  /** The octets a field takes in a struct. */
  function FieldSize(f: Field, v: Value): nat {
    var m := Marshal(f.schema, f.params, v);
    if Absent(f, v) || m.Fail? then 0 else |m.value|
  }

  function SumSizes(fs: seq<Field>, vs: seq<Value>): nat
    requires |fs| == |vs|
  {
    if fs == [] then 0 else SumSizes(fs[..|fs| - 1], vs[..|fs| - 1]) + FieldSize(fs[|fs| - 1], vs[|fs| - 1])
  }

  lemma {:induction false} StructSize(fs: seq<Field>, vs: seq<Value>)
    requires |fs| == |vs| && BuildFields(fs, vs).Ok?
    ensures |AllOcts(BuildFields(fs, vs).value.0)| == SumSizes(fs, vs)
  {
    hide Build;
    if fs != [] {
      var n := |fs| - 1;
      StructSize(fs[..n], vs[..n]);
      var es := BuildFields(fs, vs).value.0;
      assert es[..n] == BuildFields(fs[..n], vs[..n]).value.0;
    }
  }

  /** Replacing one field changes the sum by the difference of its sizes. */
  lemma {:induction false} SumUpdated(fs: seq<Field>, vs: seq<Value>, k: nat, v: Value)
    requires |fs| == |vs| && k < |fs|
    ensures SumSizes(fs, vs[k := v]) + FieldSize(fs[k], vs[k]) == SumSizes(fs, vs) + FieldSize(fs[k], v)
  {
    hide FieldSize;
    var n := |fs| - 1;
    if k < n {
      SumUpdated(fs[..n], vs[..n], k, v);
      assert vs[k := v][..n] == vs[..n][k := v];
    } else {
      assert vs[k := v][..n] == vs[..n];
    }
  }

  predicate FieldBuilds(f: Field, v: Value) {
    (f.params.optional ==> Nillable(f.schema)) && (Absent(f, v) || Build(f.schema, f.params, v).Ok?)
  }

  lemma {:induction false} FieldsBuild(fs: seq<Field>, vs: seq<Value>)
    requires |fs| == |vs|
    ensures BuildFields(fs, vs).Ok? <==> forall k :: 0 <= k < |fs| ==> FieldBuilds(fs[k], vs[k])
    ensures BuildFields(fs, vs).Ok? ==> (BuildFields(fs, vs).value.1 <==> exists k :: 0 <= k < |fs| && !Absent(fs[k], vs[k]))
  {
    hide Build;
    if fs != [] {
      var n := |fs| - 1;
      FieldsBuild(fs[..n], vs[..n]);
      assert forall k :: 0 <= k < n ==> fs[k] == fs[..n][k] && vs[k] == vs[..n][k];
    }
  }

  lemma {:induction false} SizeAtMost(fs: seq<Field>, vs: seq<Value>, k: nat)
    requires |fs| == |vs| && k < |fs|
    ensures FieldSize(fs[k], vs[k]) <= SumSizes(fs, vs)
  {
    hide FieldSize;
    if k < |fs| - 1 {
      SizeAtMost(fs[..|fs| - 1], vs[..|fs| - 1], k);
    }
  }

  lemma AbsentSize(f: Field, v: Value)
    requires Absent(f, v)
    ensures FieldSize(f, v) == 0
  {
  }

  // ---------------------------------------------------------------- structs

  /** The encoding of a present field. */
  function Member(f: Field, v: Value): Result<seq<byte>> { Marshal(f.schema, f.params, v) }

  /** The field is absent, or encoded as one TLV under its own tag. */
  predicate Encoded(f: Field, v: Value) {
    && (f.params.optional ==> Nillable(f.schema))
    && (Absent(f, v) || (Member(f, v).Ok? && IsTlv(Member(f, v).value) && f.params.tag == Some(MemberTag(Member(f, v).value))))
  }

  /** The field is absent, or its encoding decodes to its value. */
  predicate Returns(f: Field, v: Value) {
    Absent(f, v) || (Member(f, v).Ok? && Parse(f.schema, f.params, Zero(f.schema), Member(f, v).value) == Ok(v))
  }

  /** What field k has become after the first n fields were read. */
  predicate FieldRead(f: Field, v: Value, t: Value) {
    if Absent(f, v) then t == Zero(f.schema)
    else Member(f, v).Ok? && Parse(f.schema, f.params, Zero(f.schema), Member(f, v).value) == Ok(t)
  }

  /** Reading the first n fields fails at one of them, or fills in what each of them decodes to. */
  predicate ReadTo(fs: seq<Field>, vs: seq<Value>, n: nat, r: Result<(seq<Value>, nat)>)
    requires n <= |fs| == |vs|
  {
    if r.Fail? then exists k :: 0 <= k < n && !Returns(fs[k], vs[k])
    else
      && |r.value.0| == |fs| && r.value.1 <= n
      && (forall k :: 0 <= k < n ==> FieldRead(fs[k], vs[k], r.value.0[k]))
      && (forall k :: n <= k < |fs| ==> r.value.0[k] == Zero(fs[k].schema))
  }

  /** What the struct loop makes of the members of the first n fields. */
  predicate PartlyRead(fs: seq<Field>, isSet: bool, vs: seq<Value>, n: nat)
    requires n <= |fs| == |vs|
  {
    var ms := Emitted(fs[..n], vs[..n]);
    AllTlv(ms) && ReadTo(fs, vs, n, FoldMembers(fs, isSet, (Zeros(fs), 0), ms))
  }

  lemma EmittedNext(fs: seq<Field>, vs: seq<Value>, n: nat)
    requires 0 < n <= |fs| == |vs| && Encoded(fs[n - 1], vs[n - 1])
    ensures Emitted(fs[..n], vs[..n]) == Emitted(fs[..n - 1], vs[..n - 1])
            + if Absent(fs[n - 1], vs[n - 1]) then [] else [Member(fs[n - 1], vs[n - 1]).value]
  {
    hide Marshal;
    assert fs[..n][..n - 1] == fs[..n - 1] && vs[..n][..n - 1] == vs[..n - 1];
  }

  /** One more field is placed, or refused by its own decoding. */
  lemma NextPlaced(fs: seq<Field>, isSet: bool, st: (seq<Value>, nat), k: nat, m: seq<byte>)
    requires |st.0| == |fs| && k < |fs| && st.1 <= k && DistinctTags(fs) && IsTlv(m) && fs[k].params.tag == Some(MemberTag(m))
    ensures var v := Parse(fs[k].schema, fs[k].params, st.0[k], m);
            PlaceMember(fs, isSet, st, MemberTag(m), m) == if v.Ok? then Ok((st.0[k := v.value], k + 1)) else Fail(v.failure)
  {
    FindsField(fs, if isSet then 0 else st.1, k);
    hide Parse;
  }

  lemma {:induction false} ReadSoFar(fs: seq<Field>, isSet: bool, vs: seq<Value>, n: nat)
    requires n <= |fs| == |vs| && DistinctTags(fs) && forall k :: 0 <= k < n ==> Encoded(fs[k], vs[k])
    ensures PartlyRead(fs, isSet, vs, n)
    decreases n
  {
    if n == 0 {
      forall k | 0 <= k < |fs| ensures Zeros(fs)[k] == Zero(fs[k].schema) { ZerosAt(fs, k); }
    } else {
      ReadSoFar(fs, isSet, vs, n - 1);
      EmittedNext(fs, vs, n);
      if !Absent(fs[n - 1], vs[n - 1]) {
        NextRead(fs, isSet, vs, n);
      } else {
        AbsentRead(fs, isSet, vs, n);
      }
    }
  }

  lemma AbsentRead(fs: seq<Field>, isSet: bool, vs: seq<Value>, n: nat)
    requires 0 < n <= |fs| == |vs| && PartlyRead(fs, isSet, vs, n - 1) && Absent(fs[n - 1], vs[n - 1])
    requires Emitted(fs[..n], vs[..n]) == Emitted(fs[..n - 1], vs[..n - 1])
    ensures PartlyRead(fs, isSet, vs, n)
  {
    hide Parse, Marshal, Emitted, Zeros, FoldMembers, Member;
  }

  lemma NextRead(fs: seq<Field>, isSet: bool, vs: seq<Value>, n: nat)
    requires 0 < n <= |fs| == |vs| && DistinctTags(fs) && PartlyRead(fs, isSet, vs, n - 1)
    requires Encoded(fs[n - 1], vs[n - 1]) && !Absent(fs[n - 1], vs[n - 1])
    requires Emitted(fs[..n], vs[..n]) == Emitted(fs[..n - 1], vs[..n - 1]) + [Member(fs[n - 1], vs[n - 1]).value]
    ensures PartlyRead(fs, isSet, vs, n)
  {
    var ms, m := Emitted(fs[..n - 1], vs[..n - 1]), Member(fs[n - 1], vs[n - 1]).value;
    hide Parse, Marshal, Emitted, Zeros, FoldMembers, Member, DistinctTags, PlaceMember, IsTlv, ReadTo;
    AllTlvSnoc(ms, m);
    FoldSnoc(fs, isSet, (Zeros(fs), 0), ms, m);
    var before := FoldMembers(fs, isSet, (Zeros(fs), 0), ms);
    if before.Ok? {
      PlacedRead(fs, isSet, vs, n, before.value, m);
    } else {
      StillFails(fs, vs, n, before);
    }
  }

  lemma StillFails(fs: seq<Field>, vs: seq<Value>, n: nat, r: Result<(seq<Value>, nat)>)
    requires 0 < n <= |fs| == |vs| && r.Fail? && ReadTo(fs, vs, n - 1, r)
    ensures ReadTo(fs, vs, n, r)
  {
    hide Returns;
  }

  lemma PlacedRead(fs: seq<Field>, isSet: bool, vs: seq<Value>, n: nat, st: (seq<Value>, nat), m: seq<byte>)
    requires 0 < n <= |fs| == |vs| == |st.0| && DistinctTags(fs) && ReadTo(fs, vs, n - 1, Ok(st)) && IsTlv(m)
    requires Encoded(fs[n - 1], vs[n - 1]) && !Absent(fs[n - 1], vs[n - 1]) && m == Member(fs[n - 1], vs[n - 1]).value
    ensures ReadTo(fs, vs, n, PlaceMember(fs, isSet, st, MemberTag(m), m))
  {
    hide Parse, Marshal, DistinctTags, PlaceMember, IsTlv;
    NextPlaced(fs, isSet, st, n - 1, m);
    hide Member, MemberTag;
  }

  /** The header of a struct with contents of len octets. */
  function StructHead(p: Params, len: nat): seq<byte> {
    HeaderOctets(TagAndLen(if p.tag.Some? then CLASS_CONTEXT else 0, true, if p.tag.Some? then p.tag.value else SequenceTag(p), len))
  }

  lemma StructMarshalled(fs: seq<Field>, p: Params, vs: seq<Value>)
    requires fs != [] && |fs| == |vs| && BuildFields(fs, vs).Ok? && BuildFields(fs, vs).value.1 && (p.tag.Some? ==> PlainTag(p))
    ensures var content := Concat(Emitted(fs, vs));
            && Marshal(SStruct(fs), p, VStruct(vs)) == Ok(StructHead(p, |content|) + content)
            && ContentSize(Build(SStruct(fs), p, VStruct(vs))) == |content|
  {
    hide HeaderOctets, BuildFields;
    EmittedConcat(fs, vs);
    var parts := EStruct(BuildFields(fs, vs).value.0);
    var head := StructHead(p, |Octs(parts)|);
    assert Build(SStruct(fs), p, VStruct(vs)) == Ok(EBer(EBytes(head), parts));
    assert Octs(EBer(EBytes(head), parts)) == head + Octs(parts);
  }

  /** Decoding members behind the header of a struct is the fold over them. */
  lemma StructUnmarshalled(fs: seq<Field>, p: Params, ms: seq<seq<byte>>)
    requires fs != [] && AllTlv(ms) && |Concat(ms)| < MAX_LENGTH && (p.tag.Some? ==> PlainTag(p))
    ensures var r := FoldMembers(fs, p.isSet, (Zeros(fs), 0), ms);
            Unmarshal(SStruct(fs), p, StructHead(p, |Concat(ms)|) + Concat(ms)) ==
            if r.Ok? then Ok(VStruct(r.value.0)) else Fail(r.failure)
  {
    hide HeaderOctets, ParseHeader, Start, FoldMembers, Concat, AllTlv, ParseMembers;
    var hdr := StructHead(p, |Concat(ms)|);
    var bytes := hdr + Concat(ms);
    StartOf(TagAndLen(if p.tag.Some? then CLASS_CONTEXT else 0, true, if p.tag.Some? then p.tag.value else SequenceTag(p), |Concat(ms)|), Concat(ms));
    assert bytes[|hdr|..] == Concat(ms);
    ParseMembersIsFold(fs, p.isSet, (Zeros(fs), 0), bytes, |hdr|, ms);
  }

  lemma EncodedBuilds(fs: seq<Field>, vs: seq<Value>)
    requires |fs| == |vs| && forall k :: 0 <= k < |fs| ==> Encoded(fs[k], vs[k])
    ensures BuildFields(fs, vs).Ok?
    ensures BuildFields(fs, vs).value.1 <==> exists k :: 0 <= k < |fs| && !Absent(fs[k], vs[k])
  {
    hide Build;
    FieldsBuild(fs, vs);
    forall k | 0 <= k < |fs| ensures FieldBuilds(fs[k], vs[k]) { assert Encoded(fs[k], vs[k]); }
  }

  /** What is read is the value exactly if every field returns. */
  lemma ReadIsValue(fs: seq<Field>, isSet: bool, vs: seq<Value>)
    requires |fs| == |vs| && PartlyRead(fs, isSet, vs, |fs|)
    requires forall k :: 0 <= k < |fs| ==> Encoded(fs[k], vs[k])
    ensures var r := FoldMembers(fs, isSet, (Zeros(fs), 0), Emitted(fs[..|fs|], vs[..|vs|]));
            (r.Ok? && r.value.0 == vs) <==> forall k :: 0 <= k < |fs| ==> Returns(fs[k], vs[k])
  {
    hide FoldMembers, Emitted, Zeros, Parse, Marshal;
    var r := FoldMembers(fs, isSet, (Zeros(fs), 0), Emitted(fs[..|fs|], vs[..|vs|]));
    if r.Ok? {
      forall k | 0 <= k < |fs|
        ensures r.value.0[k] == vs[k] <==> Returns(fs[k], vs[k])
      {
        assert FieldRead(fs[k], vs[k], r.value.0[k]) && Encoded(fs[k], vs[k]);
        hide Member;
      }
      if forall k :: 0 <= k < |fs| ==> Returns(fs[k], vs[k]) {
        assert r.value.0 == vs;
      }
    }
  }

  /** A struct of encoded fields with distinct tags comes back if and only if each of its present fields does. */
  lemma StructExact(fs: seq<Field>, p: Params, vs: seq<Value>)
    requires fs != [] && |fs| == |vs| && DistinctTags(fs) && (p.tag.Some? ==> PlainTag(p))
    requires forall k :: 0 <= k < |fs| ==> Encoded(fs[k], vs[k])
    requires exists k :: 0 <= k < |fs| && !Absent(fs[k], vs[k])
    requires ContentSize(Build(SStruct(fs), p, VStruct(vs))) < MAX_LENGTH
    ensures var m := Marshal(SStruct(fs), p, VStruct(vs));
            && m.Ok? && IsTlv(m.value) && (p.tag.Some? ==> MemberTag(m.value) == p.tag.value)
            && (Unmarshal(SStruct(fs), p, m.value) == Ok(VStruct(vs)) <==> forall k :: 0 <= k < |fs| ==> Returns(fs[k], vs[k]))
  {
    hide Encoded, Returns, Absent, Build, FoldMembers, Zeros, Emitted, Parse, Unmarshal, Marshal, DistinctTags, BuildFields, HeaderOctets, Concat, AllTlv;
    EncodedBuilds(fs, vs);
    StructMarshalled(fs, p, vs);
    ReadSoFar(fs, p.isSet, vs, |fs|);
    ReadIsValue(fs, p.isSet, vs);
    assert fs[..|fs|] == fs && vs[..|vs|] == vs;
    var ms := Emitted(fs, vs);
    AllRead(fs, p.isSet, vs);
    StructUnmarshalled(fs, p, ms);
    StructIsTlv(p, Concat(ms));
  }

  lemma AllRead(fs: seq<Field>, isSet: bool, vs: seq<Value>)
    requires |fs| == |vs| && PartlyRead(fs, isSet, vs, |fs|)
    ensures AllTlv(Emitted(fs, vs))
  {
    hide Emitted, FoldMembers;
    assert fs[..|fs|] == fs && vs[..|vs|] == vs;
  }

  lemma StructIsTlv(p: Params, content: seq<byte>)
    requires |content| < MAX_LENGTH && (p.tag.Some? ==> PlainTag(p))
    ensures var m := StructHead(p, |content|) + content; IsTlv(m) && (p.tag.Some? ==> MemberTag(m) == p.tag.value)
  {
    hide HeaderOctets, ParseHeader;
    StartOf(TagAndLen(if p.tag.Some? then CLASS_CONTEXT else 0, true, if p.tag.Some? then p.tag.value else SequenceTag(p), |content|), content);
  }

  // ---------------------------------------------------------------- sets in any order

  /** Some field carries the tag of the member. */
  predicate TagDeclared(fs: seq<Field>, m: seq<byte>)
    requires IsTlv(m)
  {
    exists k :: 0 <= k < |fs| && fs[k].params.tag == Some(MemberTag(m))
  }

  /** The members of a struct carry the tags of its fields, each once. */
  lemma {:induction false} EmittedTags(fs: seq<Field>, vs: seq<Value>)
    requires |fs| == |vs| && DistinctTags(fs) && AllTlv(Emitted(fs, vs)) && forall k :: 0 <= k < |fs| ==> Encoded(fs[k], vs[k])
    ensures DistinctMembers(Emitted(fs, vs))
    ensures forall i :: 0 <= i < |Emitted(fs, vs)| ==> TagDeclared(fs, Emitted(fs, vs)[i])
  {
    if fs != [] {
      var n := |fs| - 1;
      assert fs[..|fs|] == fs && vs[..|vs|] == vs;
      EmittedNext(fs, vs, |fs|);
      var ms, before := Emitted(fs, vs), Emitted(fs[..n], vs[..n]);
      hide Emitted, Marshal, IsTlv, TagDeclared;
      assert forall i :: 0 <= i < |before| ==> before[i] == ms[i];
      EmittedTags(fs[..n], vs[..n]);
      forall i | 0 <= i < |before| ensures TagDeclared(fs, before[i]) && MemberTag(before[i]) != TagOf(fs[n]) {
        EarlierTag(fs, before[i]);
      }
      if !Absent(fs[n], vs[n]) {
        OwnTag(fs, n, ms[|ms| - 1]);
      }
    }
  }

  function TagOf(f: Field): int { if f.params.tag.Some? then f.params.tag.value else -1 }

  lemma EarlierTag(fs: seq<Field>, m: seq<byte>)
    requires fs != [] && DistinctTags(fs) && IsTlv(m) && TagDeclared(fs[..|fs| - 1], m)
    ensures TagDeclared(fs, m) && MemberTag(m) != TagOf(fs[|fs| - 1])
  {
    hide IsTlv;
    var k :| 0 <= k < |fs| - 1 && fs[..|fs| - 1][k].params.tag == Some(MemberTag(m));
    assert fs[k].params.tag == Some(MemberTag(m));
  }

  lemma OwnTag(fs: seq<Field>, k: nat, m: seq<byte>)
    requires k < |fs| && IsTlv(m) && fs[k].params.tag == Some(MemberTag(m))
    ensures TagDeclared(fs, m)
  {
    hide IsTlv;
  }

  lemma SurvivingIsEncoded(f: Field, v: Value)
    requires FieldSurvives(f, v) && f.params.tag.Some? && (!Absent(f, v) ==> ContentSize(Build(f.schema, f.params, v)) < MAX_LENGTH)
    ensures Encoded(f, v) && Returns(f, v)
  {
    if !Absent(f, v) {
      hide Survives, Parse, Build, IsTlv, ParseHeader;
      MemberRoundTrip(f, v);
    }
  }

  /** A member is no longer than all of them. */
  lemma {:induction false} MemberFits(fs: seq<Field>, vs: seq<Value>, k: nat)
    requires |fs| == |vs| && k < |fs| && BuildFields(fs, vs).Ok? && !Absent(fs[k], vs[k])
    ensures ContentSize(Build(fs[k].schema, fs[k].params, vs[k])) <= |AllOcts(BuildFields(fs, vs).value.0)|
  {
    hide BuildFields, AllOcts;
    StructSize(fs, vs);
    SizeAtMost(fs, vs, k);
    FieldsBuild(fs, vs);
    assert FieldBuilds(fs[k], vs[k]);
    hide SumSizes;
    var e := Build(fs[k].schema, fs[k].params, vs[k]).value;
    hide Build;
    assert e.EBer? ==> |Octs(e)| == |Octs(e.tagAndLen)| + |Octs(e.value)|;
  }

  lemma SurvivingAreEncoded(fs: seq<Field>, vs: seq<Value>)
    requires |fs| == |vs| && DistinctTags(fs) && forall k :: 0 <= k < |fs| ==> FieldSurvives(fs[k], vs[k])
    requires BuildFields(fs, vs).Ok? && |AllOcts(BuildFields(fs, vs).value.0)| < MAX_LENGTH
    ensures forall k :: 0 <= k < |fs| ==> Encoded(fs[k], vs[k]) && Returns(fs[k], vs[k])
  {
    hide BuildFields, AllOcts, FieldSurvives, Encoded, Returns, Build, Absent;
    forall k | 0 <= k < |fs|
      ensures Encoded(fs[k], vs[k]) && Returns(fs[k], vs[k])
    {
      if !Absent(fs[k], vs[k]) {
        MemberFits(fs, vs, k);
      }
      SurvivingIsEncoded(fs[k], vs[k]);
    }
  }

  /** A surviving SET comes back from its member encodings in any order, behind the same header. */
  lemma SetReturnsInAnyOrder(fs: seq<Field>, p: Params, vs: seq<Value>, ms: seq<seq<byte>>)
    requires p.isSet && Survives(SStruct(fs), p, VStruct(vs)) && ContentSize(Build(SStruct(fs), p, VStruct(vs))) < MAX_LENGTH
    requires multiset(ms) == multiset(Emitted(fs, vs))
    ensures Marshal(SStruct(fs), p, VStruct(vs)) == Ok(StructHead(p, |Concat(ms)|) + Concat(Emitted(fs, vs)))
    ensures Unmarshal(SStruct(fs), p, StructHead(p, |Concat(ms)|) + Concat(ms)) == Ok(VStruct(vs))
  {
    FieldsEncode(fs, vs);
    hide Parse, Build, BuildFields, FieldSurvives, HeaderOctets, ParseHeader, IsTlv, Emitted, Concat, Unmarshal, Marshal, DistinctTags;
    var ms0 := Emitted(fs, vs);
    StructMarshalled(fs, p, vs);
    EmittedConcat(fs, vs);
    SurvivingAreEncoded(fs, vs);
    ReadSoFar(fs, true, vs, |fs|);
    AllRead(fs, true, vs);
    EmittedTags(fs, vs);
    PermutedTlvs(ms0, ms);
    PermutedLength(ms0, ms);
    RoundTrip(SStruct(fs), p, VStruct(vs));
    HeadAlone(p, |Concat(ms)|);
    SetDecodesInAnyOrder(fs, p, Zero(SStruct(fs)), StructHead(p, |Concat(ms)|), ms0, ms);
    UnmarshalIsParse(fs, p, StructHead(p, |Concat(ms)|) + Concat(ms0));
    UnmarshalIsParse(fs, p, StructHead(p, |Concat(ms)|) + Concat(ms));
  }

  lemma UnmarshalIsParse(fs: seq<Field>, p: Params, bytes: seq<byte>)
    ensures Unmarshal(SStruct(fs), p, bytes) == Parse(SStruct(fs), p, Zero(SStruct(fs)), bytes)
  {
    hide Parse;
  }

  lemma HeadAlone(p: Params, len: nat)
    requires len < MAX_LENGTH && (p.tag.Some? ==> PlainTag(p))
    ensures var r := ParseHeader(StructHead(p, len)); r.Ok? && r.value.size == |StructHead(p, len)| && r.value.tal.len == len
  {
    hide HeaderOctets, ParseHeader;
    var t := TagAndLen(if p.tag.Some? then CLASS_CONTEXT else 0, true, if p.tag.Some? then p.tag.value else SequenceTag(p), len);
    BerHeaderLaws.HeaderRoundTrip(t, []);
    assert HeaderOctets(t) + [] == HeaderOctets(t);
  }

  lemma PermutedTlvs(ms: seq<seq<byte>>, ms': seq<seq<byte>>)
    requires multiset(ms) == multiset(ms') && AllTlv(ms) && DistinctMembers(ms)
    ensures AllTlv(ms') && DistinctMembers(ms')
  {
    hide IsTlv;
    forall j | 0 <= j < |ms'| ensures IsTlv(ms'[j]) { var i := SameMember(ms', ms, j); }
    forall i, j | 0 <= i < j < |ms'|
      ensures MemberTag(ms'[i]) != MemberTag(ms'[j])
    {
      var a := SameMember(ms', ms, i);
      var b := SameMember(ms', ms, j);
      OccursOnce(ms, a);
      OccursTwice(ms', i, j);
    }
  }

  lemma OccursOnce(ms: seq<seq<byte>>, a: nat)
    requires AllTlv(ms) && DistinctMembers(ms) && a < |ms|
    ensures multiset(ms)[ms[a]] == 1
  {
    hide IsTlv;
    var before, after := ms[..a], ms[a + 1..];
    assert ms == before + [ms[a]] + after;
    assert forall k :: 0 <= k < |after| ==> after[k] == ms[a + 1 + k];
    assert ms[a] !in before && ms[a] !in after;
  }

  lemma OccursTwice(ms: seq<seq<byte>>, i: nat, j: nat)
    requires i < j < |ms|
    ensures ms[i] == ms[j] ==> multiset(ms)[ms[i]] >= 2
  {
    assert ms == ms[..j] + [ms[j]] + ms[j + 1..];
    assert ms[..j][i] == ms[i];
    assert multiset(ms[..j])[ms[i]] >= 1;
  }
}
