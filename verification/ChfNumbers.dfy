/** Which records of a run carry a partial record number. */
module ChfNumbers {
  import opened ChfRecordTypes
  import opened ChfLifecycle
  import opened ChfLifecycleEffects
  import opened ChfSessionOrder

  predicate HasNumber(r: RecordData) { r.sequenceNumber.Some? }

  /** The operation is an update that reaches a record. */
  predicate Reaches(st: UeState, op: Operation)
    requires Consistent(st)
  {
    op.Updating? && op.session in st.cdr && SplitLengths(Current(st, op.session), AllConverted(op.reports)).Ok?
  }

  predicate Splits(st: UeState, op: Operation)
    requires Consistent(st)
  {
    Reaches(st, op) && SplitLengths(Current(st, op.session), AllConverted(op.reports)).value > 65535
  }

  /** The operation is a partial update whose record could be dumped. */
  predicate GivesNumber(st: UeState, op: Operation)
    requires Consistent(st)
  {
    && Reaches(st, op) && op.partial
    && var length := SplitLengths(Current(st, op.session), AllConverted(op.reports)).value;
       Partial(WithUsage(st, op.session, AllConverted(op.reports), length), op.session, 0).1 == Accepted
  }

  /** The record an update works on, by its place in the list. */
  function WorkedOn(st: UeState, op: Operation): nat
    requires Consistent(st) && Reaches(st, op)
  {
    if Splits(st, op) then |st.records| else st.cdr[op.session]
  }

  /** Record k has a number after the operation: it had one, or the operation gives it one, or it takes over from a record
      that had one. */
  predicate NumberedAfter(st: UeState, op: Operation, k: nat)
    requires Consistent(st)
  {
    || (k < |st.records| && HasNumber(st.records[k]))
    || (GivesNumber(st, op) && k == WorkedOn(st, op))
    || (Splits(st, op) && k == |st.records| && HasNumber(Current(st, op.session)))
  }

  lemma CreateNumbers(st: UeState, session: string, opening: Opening, n: int, us: seq<Usage>)
    requires Consistent(st)
    ensures var st' := Create(st, session, opening, n, us);
            |st'.records| == |st.records| + 1 && st'.records[..|st.records|] == st.records && !HasNumber(st'.records[|st.records|])
  {
    UsageKeepsClosing(Opened(opening, n), us);
    hide AddUsage;
  }

  lemma ReleaseNumbers(st: UeState, session: string, us: seq<Usage>, k: nat)
    requires Consistent(st) && k < |st.records|
    ensures var st' := Release(st, session, us).0;
            |st'.records| == |st.records| && (HasNumber(st'.records[k]) <==> HasNumber(st.records[k]))
  {
    hide DumpRecords, AddUsage;
    if session in st.cdr {
      UsageKeepsClosing(Current(st, session), us);
    }
  }

  lemma UsageNumbers(st: UeState, session: string, us: seq<Usage>, length: nat, k: nat)
    requires Consistent(st) && session in st.cdr
    ensures var st' := WithUsage(st, session, us, length);
            && |st'.records| == |st.records| + (if length > 65535 then 1 else 0)
            && st'.cdr[session] == (if length > 65535 then |st.records| else st.cdr[session])
            && (k < |st.records| ==> (HasNumber(st'.records[k]) <==> HasNumber(st.records[k])))
            && (length > 65535 ==> (HasNumber(st'.records[|st.records|]) <==> HasNumber(Current(st, session))))
  {
    var st1 := if length > 65535 then SplitRecord(st, session) else st;
    UsageKeepsClosing(Current(st1, session), us);
    hide AddUsage;
  }

  lemma PartialNumbers(st: UeState, session: string, k: nat)
    requires Consistent(st) && session in st.cdr && k < |st.records|
    ensures var (st', reply) := Partial(st, session, 0);
            && |st'.records| == |st.records|
            && (HasNumber(st'.records[k]) <==> HasNumber(st.records[k]) || (reply == Accepted && k == st.cdr[session]))
  {
    hide DumpRecords;
  }

  lemma UpdateNumbers(st: UeState, op: Operation, k: nat)
    requires Consistent(st) && op.Updating? && k < |Perform(st, op).records|
    ensures HasNumber(Perform(st, op).records[k]) <==> NumberedAfter(st, op, k)
  {
    hide SplitLengths, WithUsage, Partial, DumpRecords, AllConverted, HasNumber, Current;
    var us := AllConverted(op.reports);
    if Reaches(st, op) {
      var length := SplitLengths(Current(st, op.session), us).value;
      UsageNumbers(st, op.session, us, length, k);
      var st1 := WithUsage(st, op.session, us, length);
      if op.partial && k < |st1.records| {
        PartialNumbers(st1, op.session, k);
      } else if op.partial {
        PartialNumbers(st1, op.session, st1.cdr[op.session]);
      }
    }
  }

  /** One operation: exactly these records have a number afterwards. */
  lemma OperationNumbers(st: UeState, op: Operation, k: nat)
    requires Consistent(st) && k < |Perform(st, op).records|
    ensures HasNumber(Perform(st, op).records[k]) <==> NumberedAfter(st, op, k)
  {
    hide HasNumber, Update, Release, Create, NumberedAfter, AllConverted;
    match op
    case Creating(s, opening, n, rs) =>
      CreateNumbers(st, s, opening, n, AllConverted(rs));
      NotUpdating(st, op, k);
    case Updating(_, _, _) =>
      UpdateNumbers(st, op, k);
    case Releasing(s, rs) =>
      ReleaseSize(st, s, AllConverted(rs));
      ReleaseNumbers(st, s, AllConverted(rs), k);
      NotUpdating(st, op, k);
  }

  lemma NotUpdating(st: UeState, op: Operation, k: nat)
    requires Consistent(st) && !op.Updating?
    ensures NumberedAfter(st, op, k) <==> k < |st.records| && HasNumber(st.records[k])
  {
  }

  // ---------------------------------------------------------------- runs

  /** Operation i of the run is a partial update of the session whose record could be dumped. */
  ghost predicate NumberedAt(ops: seq<Operation>, session: string, i: nat) {
    i < |ops| && ops[i].session == session && GivesNumber(Run(ops[..i]), ops[i])
  }

  lemma NumberedEarlier(ops: seq<Operation>, session: string, i: nat)
    requires ops != [] && NumberedAt(ops[..|ops| - 1], session, i)
    ensures NumberedAt(ops, session, i)
  {
    hide GivesNumber, Run;
    assert ops[..|ops| - 1][..i] == ops[..i];
  }

  lemma OwnersGrow(ops: seq<Operation>)
    requires ops != []
    ensures var init, op := ops[..|ops| - 1], ops[|ops| - 1];
            && |Owners(init)| == |Run(init).records| && |Owners(ops)| == |Run(ops).records|
            && Owners(init) <= Owners(ops)
            && (|Run(ops).records| > |Run(init).records| ==> Owners(ops) == Owners(init) + [op.session])
  {
    hide Perform;
    RunPoints(ops);
    RunPoints(ops[..|ops| - 1]);
  }

  /** Over every run a record carries a number only if a partial update of the session it was opened for came before. */
  lemma {:induction false} NumbersAreGiven(ops: seq<Operation>, k: nat)
    requires k < |Run(ops).records| && HasNumber(Run(ops).records[k])
    ensures k < |Owners(ops)| && exists i: nat :: NumberedAt(ops, Owners(ops)[k], i)
  {
    hide HasNumber, Perform, Partial, WithUsage, SplitLengths, Owners, Current, NumberedAt, AllConverted;
    if ops != [] {
      var init, op := ops[..|ops| - 1], ops[|ops| - 1];
      var st := Run(init);
      OwnersGrow(ops);
      OperationNumbers(st, op, k);
      RunPoints(init);
      if k < |st.records| && HasNumber(st.records[k]) {
        NumbersAreGiven(init, k);
        var i: nat :| NumberedAt(init, Owners(init)[k], i);
        NumberedEarlier(ops, Owners(ops)[k], i);
      } else if GivesNumber(st, op) && k == WorkedOn(st, op) {
        GivenNow(ops, k);
      } else {
        CarriedOver(init, op);
        NumbersAreGiven(init, st.cdr[op.session]);
        var i: nat :| NumberedAt(init, op.session, i);
        NumberedEarlier(ops, op.session, i);
        CarriedOwner(ops, k);
      }
    }
  }

  lemma GivenNow(ops: seq<Operation>, k: nat)
    requires ops != [] && var st, op := Run(ops[..|ops| - 1]), ops[|ops| - 1]; GivesNumber(st, op) && k == WorkedOn(st, op)
    requires k < |Run(ops).records|
    ensures k < |Owners(ops)| && Owners(ops)[k] == ops[|ops| - 1].session && NumberedAt(ops, Owners(ops)[k], |ops| - 1)
  {
    hide Perform, Owners, SplitLengths, Partial, WithUsage;
    OwnersGrow(ops);
    RunPoints(ops[..|ops| - 1]);
  }

  /** A record that is split points its session at a record of its own. */
  lemma CarriedOver(init: seq<Operation>, op: Operation)
    requires Splits(Run(init), op)
    ensures op.session in Run(init).cdr && Run(init).cdr[op.session] < |Run(init).records| == |Owners(init)|
    ensures Owners(init)[Run(init).cdr[op.session]] == op.session
    ensures Current(Run(init), op.session) == Run(init).records[Run(init).cdr[op.session]]
  {
    hide Owners, Run, SplitLengths;
    RunPoints(init);
  }

  lemma CarriedOwner(ops: seq<Operation>, k: nat)
    requires ops != [] && k == |Run(ops[..|ops| - 1]).records| < |Run(ops).records|
    ensures k < |Owners(ops)| && Owners(ops)[k] == ops[|ops| - 1].session
  {
    hide Owners, Run;
    OwnersGrow(ops);
  }
}
