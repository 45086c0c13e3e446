/** The struct and slice loops seen as folds over the list of member encodings. */
module BerMembers {
  import opened Bytes
  import opened Results
  import opened BerHeader
  import opened BerHeaderLaws
  import opened BerTypes
  import opened BerUnmarshal

  predicate AllTlv(ms: seq<seq<byte>>) {
    forall k :: 0 <= k < |ms| ==> IsTlv(ms[k])
  }

  lemma AllTlvSnoc(ms: seq<seq<byte>>, m: seq<byte>)
    requires AllTlv(ms) && IsTlv(m)
    ensures AllTlv(ms + [m])
  {
  }

  function MemberTag(m: seq<byte>): nat
    requires IsTlv(m)
  {
    ParseHeader(m).value.tal.tagNumber
  }

  /** What the turns of the struct loop make of a list of members. */
  function FoldMembers(fs: seq<Field>, isSet: bool, st: (seq<Value>, nat), ms: seq<seq<byte>>): (r: Result<(seq<Value>, nat)>)
    requires |st.0| == |fs| && AllTlv(ms)
    ensures r.Ok? ==> |r.value.0| == |fs|
    decreases |ms|
  {
    if ms == [] then Ok(st)
    else
      var placed :- PlaceMember(fs, isSet, st, MemberTag(ms[0]), ms[0]);
      FoldMembers(fs, isSet, placed, ms[1..])
  }

  /** The last member is placed after all the others. */
  lemma {:induction false} FoldSnoc(fs: seq<Field>, isSet: bool, st: (seq<Value>, nat), ms: seq<seq<byte>>, last: seq<byte>)
    requires |st.0| == |fs| && AllTlv(ms) && IsTlv(last)
    ensures var before := FoldMembers(fs, isSet, st, ms);
            FoldMembers(fs, isSet, st, ms + [last]) ==
            if before.Ok? then PlaceMember(fs, isSet, before.value, MemberTag(last), last) else before
    decreases |ms|
  {
    if ms == [] {
      assert ms + [last] == [last];
      assert [last][1..] == [];
    } else {
      assert (ms + [last])[1..] == ms[1..] + [last];
      var placed := PlaceMember(fs, isSet, st, MemberTag(ms[0]), ms[0]);
      if placed.Ok? {
        FoldSnoc(fs, isSet, placed.value, ms[1..], last);
      }
    }
  }

  /** A member in front of other data starts with its own header and is as long as it says. */
  lemma MemberAhead(m: seq<byte>, rest: seq<byte>)
    requires IsTlv(m)
    ensures Start(m + rest) == ParseHeader(m)
    ensures (m + rest)[..|m|] == m
  {
    HeaderLocal(m, rest);
  }

  lemma AheadOfOthers(ms: seq<seq<byte>>)
    requires ms != []
    ensures Concat(ms) == ms[0] + Concat(ms[1..])
  {
    assert ms == [ms[0]] + ms[1..];
    ConcatAppend([ms[0]], ms[1..]);
    ConcatOne(ms[0]);
  }

  lemma FirstMember(bytes: seq<byte>, offset: nat, ms: seq<seq<byte>>)
    requires AllTlv(ms) && ms != [] && offset <= |bytes| && bytes[offset..] == Concat(ms)
    ensures offset + |ms[0]| <= |bytes|
    ensures Start(bytes[offset..]) == ParseHeader(ms[0])
    ensures bytes[offset..offset + |ms[0]|] == ms[0]
    ensures bytes[offset + |ms[0]|..] == Concat(ms[1..])
  {
    AheadOfOthers(ms);
    hide ParseHeader, Start, Concat, IsTlv;
    MemberAhead(ms[0], Concat(ms[1..]));
    assert |bytes[offset..]| == |ms[0]| + |Concat(ms[1..])|;
    assert bytes[offset..offset + |ms[0]|] == bytes[offset..][..|ms[0]|];
    assert bytes[offset + |ms[0]|..] == bytes[offset..][|ms[0]|..];
  }

  lemma Turn(fs: seq<Field>, isSet: bool, st: (seq<Value>, nat), bytes: seq<byte>, offset: nat, m: seq<byte>)
    requires |st.0| == |fs| && IsTlv(m) && offset + |m| <= |bytes|
    requires bytes[offset..offset + |m|] == m && Start(bytes[offset..]) == ParseHeader(m)
    ensures var placed := PlaceMember(fs, isSet, st, MemberTag(m), m);
            ParseMembers(fs, isSet, st, bytes, offset) ==
            if placed.Ok? then ParseMembers(fs, isSet, placed.value, bytes, offset + |m|) else Fail(placed.failure)
  {
  }

  lemma NoMembers(fs: seq<Field>, isSet: bool, st: (seq<Value>, nat), bytes: seq<byte>, offset: nat)
    requires |st.0| == |fs| && offset <= |bytes| && bytes[offset..] == Concat([])
    ensures ParseMembers(fs, isSet, st, bytes, offset) == Ok(st.0)
  {
    assert |bytes[offset..]| == 0;
  }

  /** The struct loop over a concatenation of members is the fold over them. */
  lemma {:induction false} ParseMembersIsFold(
    fs: seq<Field>, isSet: bool, st: (seq<Value>, nat), bytes: seq<byte>, offset: nat, ms: seq<seq<byte>>)
    requires |st.0| == |fs| && AllTlv(ms) && offset <= |bytes| && bytes[offset..] == Concat(ms)
    ensures var whole := FoldMembers(fs, isSet, st, ms);
            ParseMembers(fs, isSet, st, bytes, offset) ==
            if whole.Ok? then Ok(whole.value.0) else Fail(whole.failure)
    decreases |ms|
  {
    hide Concat, Start, ParseHeader, IsTlv, PlaceMember, ParseMembers;
    if ms == [] {
      NoMembers(fs, isSet, st, bytes, offset);
    } else {
      FirstMember(bytes, offset, ms);
      assert IsTlv(ms[0]);
      Turn(fs, isSet, st, bytes, offset, ms[0]);
      var placed := PlaceMember(fs, isSet, st, MemberTag(ms[0]), ms[0]);
      if placed.Ok? {
        ParseMembersIsFold(fs, isSet, placed.value, bytes, offset + |ms[0]|, ms[1..]);
      }
    }
  }

  lemma SplitTurn(bytes: seq<byte>, offset: nat, ms: seq<seq<byte>>)
    requires AllTlv(ms) && ms != [] && offset + |ms[0]| <= |bytes|
    requires bytes[offset..offset + |ms[0]|] == ms[0] && Start(bytes[offset..]) == ParseHeader(ms[0])
    requires Split(bytes, offset + |ms[0]|) == Ok(ms[1..])
    ensures Split(bytes, offset) == Ok(ms)
  {
    assert IsTlv(ms[0]);
    assert [ms[0]] + ms[1..] == ms;
  }

  lemma NothingToSplit(bytes: seq<byte>, offset: nat)
    requires offset <= |bytes| && bytes[offset..] == Concat([])
    ensures Split(bytes, offset) == Ok([])
  {
    assert |bytes[offset..]| == 0;
  }

  /** The slice loop cuts a concatenation back into its members. */
  lemma {:induction false} SplitMembers(bytes: seq<byte>, offset: nat, ms: seq<seq<byte>>)
    requires AllTlv(ms) && offset <= |bytes| && bytes[offset..] == Concat(ms)
    ensures Split(bytes, offset) == Ok(ms)
    decreases |ms|
  {
    hide Concat, Start, ParseHeader, IsTlv, Split;
    if ms == [] {
      NothingToSplit(bytes, offset);
    } else {
      FirstMember(bytes, offset, ms);
      var next := offset + |ms[0]|;
      SplitMembers(bytes, next, ms[1..]);
      SplitTurn(bytes, offset, ms);
    }
  }
}
