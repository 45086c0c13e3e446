/**
 * The order of members: a SET may be decoded in any order (section 8.11 of X.690), a SEQUENCE is
 * accepted exactly when its tags follow the declared order (section 8.9), which the single scan finds.
 */
module BerOrder {
  import opened Bytes
  import opened Results
  import opened BerHeader
  import opened BerHeaderLaws
  import opened BerTypes
  import opened BerUnmarshal
  import opened BerMembers
  import BerRoundTrip

  function MemberField(fs: seq<Field>, m: seq<byte>): Result<nat>
    requires IsTlv(m)
  {
    FindField(fs, 0, MemberTag(m))
  }

  /** What the field of a member becomes. */
  function Filling(fs: seq<Field>, t: seq<Value>, m: seq<byte>): Result<Value>
    requires |t| == |fs| && IsTlv(m)
  {
    var k :- MemberField(fs, m);
    Parse(fs[k].schema, fs[k].params, t[k], m)
  }

  predicate DistinctMembers(ms: seq<seq<byte>>)
    requires AllTlv(ms)
  {
    forall i, j :: 0 <= i < j < |ms| ==> MemberTag(ms[i]) != MemberTag(ms[j])
  }

  /** r is t with the field of every member filled in, and the other fields as they were. */
  predicate FilledBy(fs: seq<Field>, t: seq<Value>, ms: seq<seq<byte>>, r: seq<Value>)
    requires |t| == |fs| && AllTlv(ms)
  {
    && |r| == |fs|
    && (forall i :: 0 <= i < |ms| ==> Filling(fs, t, ms[i]).Ok? && r[MemberField(fs, ms[i]).value] == Filling(fs, t, ms[i]).value)
    && (forall k :: 0 <= k < |fs| && (forall i :: 0 <= i < |ms| ==> MemberField(fs, ms[i]) != Ok(k)) ==> r[k] == t[k])
  }

  /** Every member is acceptable to its field. */
  predicate AllFilling(fs: seq<Field>, t: seq<Value>, ms: seq<seq<byte>>)
    requires |t| == |fs| && AllTlv(ms)
  {
    forall i :: 0 <= i < |ms| ==> Filling(fs, t, ms[i]).Ok?
  }

  lemma AllFillingHead(fs: seq<Field>, t: seq<Value>, ms: seq<seq<byte>>)
    requires |t| == |fs| && AllTlv(ms) && ms != []
    ensures AllFilling(fs, t, ms) <==> Filling(fs, t, ms[0]).Ok? && AllFilling(fs, t, ms[1..])
  {
    if AllFilling(fs, t, ms[1..]) {
      forall i | 1 <= i < |ms|
        ensures Filling(fs, t, ms[i]).Ok?
      {
        assert ms[1..][i - 1] == ms[i];
      }
    }
  }

  /** A set whose members carry different tags: it is decoded iff each member is acceptable to its field, into the filled target. */
  lemma {:induction false} SetFold(fs: seq<Field>, st: (seq<Value>, nat), ms: seq<seq<byte>>)
    requires |st.0| == |fs| && AllTlv(ms) && DistinctMembers(ms)
    ensures var r := FoldMembers(fs, true, st, ms);
            && (r.Ok? <==> AllFilling(fs, st.0, ms))
            && (r.Ok? ==> FilledBy(fs, st.0, ms, r.value.0))
    decreases |ms|
  {
    if ms != [] {
      assert IsTlv(ms[0]);
      var placed := PlaceMember(fs, true, st, MemberTag(ms[0]), ms[0]);
      if placed.Ok? {
        assert DistinctMembers(ms[1..]);
        SetFold(fs, placed.value, ms[1..]);
        FirstPlaced(fs, st, ms, placed.value);
      } else {
        assert Filling(fs, st.0, ms[0]).Fail?;
      }
    }
  }

  lemma FirstPlaced(fs: seq<Field>, st: (seq<Value>, nat), ms: seq<seq<byte>>, placed: (seq<Value>, nat))
    requires |st.0| == |fs| && ms != [] && AllTlv(ms) && DistinctMembers(ms)
    requires PlaceMember(fs, true, st, MemberTag(ms[0]), ms[0]) == Ok(placed)
    ensures Filling(fs, st.0, ms[0]).Ok?
    ensures forall i :: 1 <= i < |ms| ==> Filling(fs, placed.0, ms[i]) == Filling(fs, st.0, ms[i])
    ensures forall r :: FilledBy(fs, placed.0, ms[1..], r) ==> FilledBy(fs, st.0, ms, r)
  {
    var k := MemberField(fs, ms[0]).value;
    forall i | 1 <= i < |ms|
      ensures MemberField(fs, ms[i]) != Ok(k)
      ensures Filling(fs, placed.0, ms[i]) == Filling(fs, st.0, ms[i])
    {
      assert MemberTag(ms[0]) != MemberTag(ms[i]);
    }
    forall r | FilledBy(fs, placed.0, ms[1..], r)
      ensures FilledBy(fs, st.0, ms, r)
    {
      assert forall i :: 0 <= i < |ms[1..]| ==> MemberField(fs, ms[1..][i]) != Ok(k);
      assert r[k] == placed.0[k];
      forall i | 0 <= i < |ms|
        ensures Filling(fs, st.0, ms[i]).Ok? && r[MemberField(fs, ms[i]).value] == Filling(fs, st.0, ms[i]).value
      {
        if i > 0 {
          assert ms[1..][i - 1] == ms[i];
        }
      }
      forall j | 0 <= j < |fs| && forall i :: 0 <= i < |ms| ==> MemberField(fs, ms[i]) != Ok(j)
        ensures r[j] == st.0[j]
      {
        assert j != k;
        assert forall i :: 0 <= i < |ms[1..]| ==> MemberField(fs, ms[1..][i]) != Ok(j);
      }
    }
  }

  /** The filled target is determined by the members, in whatever order. */
  lemma FilledByUnique(fs: seq<Field>, t: seq<Value>, ms: seq<seq<byte>>, ms': seq<seq<byte>>, r: seq<Value>, r': seq<Value>)
    requires |t| == |fs| && AllTlv(ms) && AllTlv(ms') && multiset(ms) == multiset(ms')
    requires FilledBy(fs, t, ms, r) && FilledBy(fs, t, ms', r')
    ensures r == r'
  {
    forall k | 0 <= k < |fs|
      ensures r[k] == r'[k]
    {
      if i :| 0 <= i < |ms| && MemberField(fs, ms[i]) == Ok(k) {
        var j := SameMember(ms, ms', i);
      } else {
        forall j | 0 <= j < |ms'|
          ensures MemberField(fs, ms'[j]) != Ok(k)
        {
          var i := SameMember(ms', ms, j);
        }
      }
    }
  }

  lemma SameMember(ms: seq<seq<byte>>, ms': seq<seq<byte>>, i: nat) returns (j: nat)
    requires multiset(ms) == multiset(ms') && i < |ms|
    ensures j < |ms'| && ms'[j] == ms[i]
  {
    assert ms[i] in multiset(ms');
    j :| 0 <= j < |ms'| && ms'[j] == ms[i];
  }

  lemma SameAcceptance(fs: seq<Field>, t: seq<Value>, ms: seq<seq<byte>>, ms': seq<seq<byte>>)
    requires |t| == |fs| && AllTlv(ms) && AllTlv(ms') && multiset(ms) == multiset(ms')
    requires AllFilling(fs, t, ms)
    ensures AllFilling(fs, t, ms')
  {
    forall j | 0 <= j < |ms'|
      ensures Filling(fs, t, ms'[j]).Ok?
    {
      var i := SameMember(ms', ms, j);
    }
  }

  /** Decoding outcomes agree when both fail or both yield the same value. */
  predicate SameOutcome<T(==)>(a: Result<T>, b: Result<T>) {
    (a.Ok? <==> b.Ok?) && (a.Ok? ==> a.value == b.value)
  }

  /** Decoding the members of a set in any order gives the same outcome. */
  lemma SetOrderIndependent(fs: seq<Field>, t: seq<Value>, hdr: seq<byte>, ms: seq<seq<byte>>, ms': seq<seq<byte>>)
    requires |t| == |fs| && AllTlv(ms) && AllTlv(ms') && multiset(ms) == multiset(ms')
    requires DistinctMembers(ms) && DistinctMembers(ms')
    ensures SameOutcome(ParseMembers(fs, true, (t, 0), hdr + Concat(ms), |hdr|),
                        ParseMembers(fs, true, (t, 0), hdr + Concat(ms'), |hdr|))
  {
    assert (hdr + Concat(ms))[|hdr|..] == Concat(ms) && (hdr + Concat(ms'))[|hdr|..] == Concat(ms');
    ParseMembersIsFold(fs, true, (t, 0), hdr + Concat(ms), |hdr|, ms);
    ParseMembersIsFold(fs, true, (t, 0), hdr + Concat(ms'), |hdr|, ms');
    SetFold(fs, (t, 0), ms);
    SetFold(fs, (t, 0), ms');
    var r, r' := FoldMembers(fs, true, (t, 0), ms), FoldMembers(fs, true, (t, 0), ms');
    if r.Ok? {
      SameAcceptance(fs, t, ms, ms');
      FilledByUnique(fs, t, ms, ms', r.value.0, r'.value.0);
    } else if r'.Ok? {
      SameAcceptance(fs, t, ms', ms);
    }
  }

  lemma WithoutMember(ms: seq<seq<byte>>, j: nat)
    requires j < |ms|
    ensures multiset(ms) == multiset{ms[j]} + multiset(ms[..j] + ms[j + 1..])
    ensures |Concat(ms)| == |ms[j]| + |Concat(ms[..j] + ms[j + 1..])|
  {
    assert ms == ms[..j] + ([ms[j]] + ms[j + 1..]);
    ConcatAppend(ms[..j], ms[j + 1..]);
    ConcatAppend([ms[j]], ms[j + 1..]);
    ConcatAppend(ms[..j], [ms[j]] + ms[j + 1..]);
    ConcatOne(ms[j]);
  }

  lemma TakeAway<T>(all: multiset<T>, one: multiset<T>, a: multiset<T>, b: multiset<T>)
    requires all == one + a && all == one + b
    ensures a == b
  {
    assert a == all - one && b == all - one;
  }

  lemma {:induction false} PermutedLength(ms: seq<seq<byte>>, ms': seq<seq<byte>>)
    requires multiset(ms) == multiset(ms')
    ensures |Concat(ms)| == |Concat(ms')|
    decreases |ms|
  {
    hide Concat;
    SameSize(ms, ms');
    if ms != [] {
      var j := SameMember(ms, ms', 0);
      var rest, rest' := ms[..0] + ms[1..], ms'[..j] + ms'[j + 1..];
      WithoutMember(ms, 0);
      WithoutMember(ms', j);
      TakeAway(multiset(ms), multiset{ms[0]}, multiset(rest), multiset(rest'));
      PermutedLength(rest, rest');
    }
  }

  lemma SameSize<T>(a: seq<T>, b: seq<T>)
    requires multiset(a) == multiset(b)
    ensures |a| == |b| && (a == [] <==> b == [])
  {
    assert |multiset(a)| == |a| && |multiset(b)| == |b|;
  }

  /** The same for the whole TLV of the set, whatever the target held. */
  lemma SetDecodesInAnyOrder(fs: seq<Field>, p: Params, t: Value, hdr: seq<byte>, ms: seq<seq<byte>>, ms': seq<seq<byte>>)
    requires p.isSet && AllTlv(ms) && AllTlv(ms') && multiset(ms) == multiset(ms')
    requires DistinctMembers(ms) && DistinctMembers(ms')
    requires ParseHeader(hdr).Ok? && ParseHeader(hdr).value.size == |hdr| && ParseHeader(hdr).value.tal.len == |Concat(ms)|
    ensures SameOutcome(Parse(SStruct(fs), p, t, hdr + Concat(ms)), Parse(SStruct(fs), p, t, hdr + Concat(ms')))
  {
    PermutedLength(ms, ms');
    HeaderLocal(hdr, Concat(ms));
    HeaderLocal(hdr, Concat(ms'));
    SetOrderIndependent(fs, Members(t, fs), hdr, ms, ms');
  }

  // ---------------------------------------------------------------- SEQUENCE

  /** Some choice of fields, from `from` on and in declaration order, carries the tags of the members. */
  predicate InOrder(fs: seq<Field>, from: nat, ms: seq<seq<byte>>, at: seq<nat>)
    requires AllTlv(ms)
  {
    && |at| == |ms|
    && (forall i :: 0 <= i < |at| ==> from <= at[i] < |fs| && fs[at[i]].params.tag == Some(MemberTag(ms[i])))
    && (forall i, j :: 0 <= i < j < |at| ==> at[i] < at[j])
  }

  ghost predicate TagsInOrder(fs: seq<Field>, from: nat, ms: seq<seq<byte>>)
    requires AllTlv(ms)
  {
    exists at :: InOrder(fs, from, ms, at)
  }

  /** Where tags are distinct the scan from any earlier field finds the one field that carries the tag. */
  lemma {:induction false} ScanFinds(fs: seq<Field>, from: nat, tag: nat)
    requires BerRoundTrip.DistinctTags(fs)
    ensures FindField(fs, from, tag).Ok? <==> exists k :: from <= k < |fs| && fs[k].params.tag == Some(tag)
    ensures FindField(fs, from, tag).Ok? ==> FindField(fs, 0, tag) == FindField(fs, from, tag)
    decreases |fs| - from
  {
    if k :| from <= k < |fs| && fs[k].params.tag == Some(tag) {
      BerRoundTrip.FindsField(fs, from, k);
      BerRoundTrip.FindsField(fs, 0, k);
    }
  }

  /** The single left-to-right scan of a sequence succeeds exactly on members in declared order that
      their fields accept, whatever the scan has passed already. */
  lemma {:induction false} SequenceFold(fs: seq<Field>, t: seq<Value>, st: (seq<Value>, nat), ms: seq<seq<byte>>)
    requires |st.0| == |t| == |fs| && AllTlv(ms) && BerRoundTrip.DistinctTags(fs)
    requires forall k :: st.1 <= k < |fs| ==> st.0[k] == t[k]
    ensures FoldMembers(fs, false, st, ms).Ok? <==>
            TagsInOrder(fs, st.1, ms) && AllFilling(fs, t, ms)
    decreases |ms|
  {
    hide TagsInOrder, InOrder, Filling, PlaceMember, AllFilling, IsTlv, BerRoundTrip.DistinctTags, MemberTag;
    if ms == [] {
      NoneInOrder(fs, t, st.1);
    } else {
      AllFillingHead(fs, t, ms);
      var placed := PlaceMember(fs, false, st, MemberTag(ms[0]), ms[0]);
      if placed.Ok? {
        FirstTaken(fs, t, st, ms, placed.value);
        SequenceFold(fs, t, placed.value, ms[1..]);
        FirstInOrder(fs, st.1, ms, placed.value.1 - 1);
      } else {
        FirstRefused(fs, t, st, ms);
      }
    }
  }

  lemma NoneInOrder(fs: seq<Field>, t: seq<Value>, from: nat)
    requires |t| == |fs|
    ensures TagsInOrder(fs, from, []) && AllFilling(fs, t, [])
  {
    assert InOrder(fs, from, [], []);
  }

  lemma FirstTaken(fs: seq<Field>, t: seq<Value>, st: (seq<Value>, nat), ms: seq<seq<byte>>, placed: (seq<Value>, nat))
    requires |st.0| == |t| == |fs| && ms != [] && AllTlv(ms) && BerRoundTrip.DistinctTags(fs)
    requires forall k :: st.1 <= k < |fs| ==> st.0[k] == t[k]
    requires PlaceMember(fs, false, st, MemberTag(ms[0]), ms[0]) == Ok(placed)
    ensures Filling(fs, t, ms[0]).Ok?
    ensures st.1 < placed.1 <= |fs| == |placed.0| && fs[placed.1 - 1].params.tag == Some(MemberTag(ms[0]))
    ensures forall k :: placed.1 <= k < |fs| ==> placed.0[k] == t[k]
  {
    hide IsTlv;
    ScanFinds(fs, st.1, MemberTag(ms[0]));
  }

  lemma FirstRefused(fs: seq<Field>, t: seq<Value>, st: (seq<Value>, nat), ms: seq<seq<byte>>)
    requires |st.0| == |t| == |fs| && ms != [] && AllTlv(ms) && BerRoundTrip.DistinctTags(fs)
    requires forall k :: st.1 <= k < |fs| ==> st.0[k] == t[k]
    requires PlaceMember(fs, false, st, MemberTag(ms[0]), ms[0]).Fail?
    ensures TagsInOrder(fs, st.1, ms) ==> Filling(fs, t, ms[0]).Fail?
  {
    ScanFinds(fs, st.1, MemberTag(ms[0]));
    if at :| InOrder(fs, st.1, ms, at) {
      assert fs[at[0]].params.tag == Some(MemberTag(ms[0]));
    }
  }

  lemma FirstInOrder(fs: seq<Field>, from: nat, ms: seq<seq<byte>>, k: nat)
    requires ms != [] && AllTlv(ms) && BerRoundTrip.DistinctTags(fs)
    requires from <= k < |fs| && fs[k].params.tag == Some(MemberTag(ms[0]))
    ensures TagsInOrder(fs, from, ms) <==> TagsInOrder(fs, k + 1, ms[1..])
  {
    hide IsTlv;
    if at :| InOrder(fs, from, ms, at) {
      TailInOrder(fs, from, ms, k, at);
    }
    var next, rest := k + 1, ms[1..];
    if at :| InOrder(fs, next, rest, at) {
      WholeInOrder(fs, from, ms, k, at);
    }
  }

  lemma WholeInOrder(fs: seq<Field>, from: nat, ms: seq<seq<byte>>, k: nat, at: seq<nat>)
    requires ms != [] && AllTlv(ms) && from <= k < |fs| && fs[k].params.tag == Some(MemberTag(ms[0]))
    requires InOrder(fs, k + 1, ms[1..], at)
    ensures InOrder(fs, from, ms, [k] + at)
  {
    hide IsTlv;
    var whole := [k] + at;
    forall i | 0 <= i < |whole|
      ensures from <= whole[i] < |fs| && fs[whole[i]].params.tag == Some(MemberTag(ms[i]))
    {
      if i > 0 {
        assert whole[i] == at[i - 1] && ms[i] == ms[1..][i - 1];
      }
    }
  }

  lemma TailInOrder(fs: seq<Field>, from: nat, ms: seq<seq<byte>>, k: nat, at: seq<nat>)
    requires ms != [] && AllTlv(ms) && BerRoundTrip.DistinctTags(fs)
    requires k < |fs| && fs[k].params.tag == Some(MemberTag(ms[0])) && InOrder(fs, from, ms, at)
    ensures InOrder(fs, k + 1, ms[1..], at[1..])
  {
    hide IsTlv;
    assert fs[at[0]].params.tag == fs[k].params.tag;
    assert at[0] == k;
  }

  /** Members a sequence accepts fill the target as they would fill that of a set. */
  lemma {:induction false} SequenceIsSet(fs: seq<Field>, st: (seq<Value>, nat), ms: seq<seq<byte>>)
    requires |st.0| == |fs| && AllTlv(ms) && BerRoundTrip.DistinctTags(fs) && FoldMembers(fs, false, st, ms).Ok?
    ensures FoldMembers(fs, true, st, ms) == FoldMembers(fs, false, st, ms)
    decreases |ms|
  {
    hide Parse;
    if ms != [] {
      assert IsTlv(ms[0]);
      ScanFinds(fs, st.1, MemberTag(ms[0]));
      SequenceIsSet(fs, PlaceMember(fs, false, st, MemberTag(ms[0]), ms[0]).value, ms[1..]);
    }
  }

  lemma InOrderDistinct(fs: seq<Field>, ms: seq<seq<byte>>)
    requires AllTlv(ms) && BerRoundTrip.DistinctTags(fs) && TagsInOrder(fs, 0, ms)
    ensures DistinctMembers(ms)
  {
    hide IsTlv;
    var at :| InOrder(fs, 0, ms, at);
    forall i, j | 0 <= i < j < |ms| ensures MemberTag(ms[i]) != MemberTag(ms[j]) {
      assert at[i] < at[j];
    }
  }

  /** A sequence is decoded iff its tags are a subsequence of the declared tags and each member is acceptable to its
      field; the result is the target with the field of every member filled in and the others as they were. */
  lemma SequenceAccepts(fs: seq<Field>, t: seq<Value>, hdr: seq<byte>, ms: seq<seq<byte>>)
    requires |t| == |fs| && AllTlv(ms) && BerRoundTrip.DistinctTags(fs)
    ensures var r := ParseMembers(fs, false, (t, 0), hdr + Concat(ms), |hdr|);
            && (r.Ok? <==> TagsInOrder(fs, 0, ms) && AllFilling(fs, t, ms))
            && (r.Ok? ==> FilledBy(fs, t, ms, r.value))
  {
    hide Parse, Filling;
    assert (hdr + Concat(ms))[|hdr|..] == Concat(ms);
    ParseMembersIsFold(fs, false, (t, 0), hdr + Concat(ms), |hdr|, ms);
    SequenceFold(fs, t, (t, 0), ms);
    if FoldMembers(fs, false, (t, 0), ms).Ok? {
      InOrderDistinct(fs, ms);
      SequenceIsSet(fs, (t, 0), ms);
      SetFold(fs, (t, 0), ms);
    }
  }
}
