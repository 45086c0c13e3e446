# Verification of the charging function

This project models the route of a charging request through the 5G charging function (CHF), from reserving money
to octets on disk, and proves what that route keeps. Nothing here was executed: the Dafny verifier is the only judge.
`dafny verify dfyconfig.toml` checks everything.

1. **BER codec** (`Ber*.dfy`). A schema (Go types with their parsed `ber` tags) and a value become a tree of encoders,
   and the tree is written into one buffer; a schema-driven parser reads it back into a target value. The methods
   follow the Go loops (growing and patching the header, writing into `dst`, the struct, set, choice and slice loops)
   and are proved equal to pure functions on octet strings. The laws are about those functions.
2. **Quota protocol** (`Charging.dfy`, `Reservation*.dfy`, `Decimals.dfy`). The mutable UE context, the store of
   accounts, and the nested loops of session charging with reservation. Every request to a peer is either
   processed and answered or not processed (`Peers`); 32- and 64-bit wrap-around is explicit. The method over maps is
   proved to act on each rating group as a fold over that group's own reports. `ReservationSteps` says what one report
   does, case by case and in plain numbers, and the laws are about the fold.
3. **CDR files and records** (`CdrFile*.dfy`, `CdrDump.dfy`, `Chf*.dfy`, `SplitBound.dfy`). The file printer and
   parser, and the heap of charging records shared between the UE's list and its map of sessions. The object methods
   are proved to refine transitions on values (`ChfLifecycle`), and the laws are about runs of those transitions.
   `ChfProcessor` puts reservation and records together.

Results worth knowing to a maintainer:

- What the marshaller writes is stated in octets as well as by what comes back, since the decoder ignores classes and
  universal tags: the identifier octet of every encoding (`BerIdentifiers.FirstOctetWritten`), whole usage items and the
  start of records (`ChfRecordOctets`), and every field of a CDR file (`CdrFileLayout`).
- Exactly which scalars survive the codec: short negative integers, nil octet strings and bit strings whose length is a
  multiple of 8 do not (`BerLimits.ScalarExact`). A struct or slice survives exactly if its members do
  (`BerMemberwise.StructExact`, `BerTaggedSlice.SliceExact`).
- A tagged CHOICE of any value that survives by itself, under tags up to 30, survives exactly when its two headers are
  equally long, which the length of its contents decides; the one exception is a primitive alternative with tag 1 and
  126 or 127 octets (`BerTaggedAlternative.TaggedChoiceLowTags`). A record whose consumer has a domain name of 253 to
  255 characters does not come back (`ChfConsumer.NamedRecord`, `LongNameLost`).
- Elements of a tagged slice of CHOICE are decoded under a tag they were not encoded with. Numbers and booleans (under
  tags up to 30) never come back from one (`BerTaggedSlice.TaggedSliceWithNumber`), nor do strings shorter than 256
  octets; longer strings do only where their length and leading octets happen to read as headers
  (`BerTaggedSlice.TaggedSliceOfOctets`, with one that does and one that does not).
- Where the rating function does not answer the first request for the unit cost of a reserve step, the step goes on with
  a unit cost of 1: ten units at a tariff of 5 are charged 10 (`ReservationSafety.AccountPriceIff`, `ChargedAtOne`).
- A report without requested units always settles, and a settlement leaves the group in reserve mode only if it refunds
  something: otherwise the next plain request is granted nothing until a recharge (`ReservationSteps.UsageSettled`,
  `NextReport`). Usage reported with a request for no volume in reserve mode is not charged at all
  (`ReservationSteps.NothingAsked`).
- An IP address with a prefix length makes the decoder panic: its fields have no tags
  (`BerFailures.UntaggedFieldPanics`).
- The rating function is asked about the requested quota and not about what the account granted, so a grant that comes
  with TERMINATE is not covered by the reservation where the unit cost was learned and the price fits 32 bits
  (`ReservationSafety.TerminateUncovered`); where it was not learned it can be (`ReservationSolvency.TerminateCovered`).
  In all cases the grant is covered if and only if its own price is (`ReservationSafety.StepCoveredIff`). A subscriber
  who uses exactly what was granted ends overdrawn if and only if the granted units cost more than what the usage left of
  balance and reservation (`ReservationSolvency.GrantOverdrawsIff`); over whole runs, tariff changes among them, staying
  solvent is the same as never being granted more and never being repriced beyond the funds
  (`ReservationSolvency.RunSolventIff`).
- The 16-bit length in a CDR header can be wrong in several ways. The split threshold leaves records of up to 65537 octets
  (`ChfRecordLaws.RecordOutgrowsHeader`), though only with the first usage of a record (`SplitBound.UnsplitFits`). The
  record that takes over at a split takes all of the usage, however long (`ChfUpdateLength.SplitStillTooLong`). Closing a
  partial record adds three octets, and a release never splits. `ChfUpdateLength.UpdateLength` and `ReleaseLength` give
  the length, and so the exact condition, for every update and release.
- The reservation is made before the records are looked at: a request whose record is refused has still moved money
  (`ChfProcessor.ChargingDataUpdate`).
- References of two sessions can only meet if one consumer name is the other followed by digits that start a number
  (`ChfSessionIds.NamesCanMeetIff`).
- The announced length of a struct or slice only has to be there: the decoder reads members to the end of its input
  (`BerFailures.StructReadsOn`).
- Partial records always carry number 1 (`ChfLifecycleEffects.PartialNumbersStayOne`), and a release overwrites the file
  with the released record alone (`ChfLifecycleEffects.ReleaseFile`).
- An overdrawn balance is reported as zero (`Decimals.OverdrawnReportedAsZero`).
- X.690 section 8.6 asks for 0 unused bits where a bit string ends on an octet; the code writes 8. The model
  follows the code.

In Go, `bytes[lo:hi]` beyond the length but within the capacity does not panic; the model treats it as a panic. What
`os.ReadFile` returns has at least 512 octets of capacity, so a small CDR file cut off inside its last CDR still decodes,
with that CDR padded with zeros, where the model panics. Where a Go panic would end the request, results are
`Fail(Panic)` or `Crashed`.

## Model

| member | source | states |
|---|---|---|
| BerHeader.AppendTagAndLen | cdr/asn/ber_marshal.go:104-157 | growing and patching the buffer from the right gives identifier octets (low or high form) followed by length octets (short or long form) |
| BerHeader.ParseTagAndLength | cdr/asn/ber_unmarshal.go:9-57 | the scanning loops compute the header, its size and the error cases of the specification; a header takes at least two octets |
| BerHeaderLaws.HeaderRoundTrip | cdr/asn/ber_marshal.go:104-157 | parsing a written header followed by any octets returns it with its exact size if the tag is below 2^63 and the length below 2^24, and an error otherwise |
| BerHeaderLaws.HeaderLocal | cdr/asn/ber_unmarshal.go:9-57 | a header that parses is not affected by the octets behind it |
| BerScalars.Int64Len | cdr/asn/ber_marshal.go:78-92 | the two shifting loops compute the length of the specification for both signs |
| BerScalars.IntLenIsLeast | cdr/asn/ber_marshal.go:78-92 | that length is the least number of octets whose two's complement range holds the number |
| BerScalars.Int64Encode | cdr/asn/ber_marshal.go:94-102 | exactly that many two's complement octets are written at the start position and nothing else changes |
| BerScalars.ParseInt64 | cdr/asn/ber_unmarshal.go:65-77 | accumulating octets in a 64-bit word gives their big-endian number, wrapped; more than eight are an error |
| BerScalars.IntDecoded | cdr/asn/ber_unmarshal.go:65-77 | decoding the minimal encoding of i gives i if it is non-negative or takes eight octets, else i + 256^n |
| BerScalars.IntRoundTrip | cdr/asn/ber_unmarshal.go:65-77 | integers survive if and only if they are non-negative or below -2^55 |
| BerScalars.BitLengthRoundTrip | cdr/asn/ber_marshal.go:161-169 | a bit length survives if and only if the string has one octet more than its whole octets, or is empty at the top of the word |
| BerMarshal.Encode | cdr/asn/ber_marshal.go:15-74 | every encoder writes exactly its octets from its start position and leaves the rest of the buffer as it was |
| BerMarshal.MakeField | cdr/asn/ber_marshal.go:174-350 | the recursive construction yields the encoder tree of the specification, with the same errors and panics |
| BerIdentifiers.FirstOctetWritten | cdr/asn/ber_marshal.go:174-350 | the first octet of every encoding: 0x30 or 0x31 for an untagged sequence or set, 0x01 to 0x04 and 0x0a for primitives, the string type's number, 0x80 or 0xa0 plus the tag under a context tag |
| BerIdentifiers.ShortPrimitive | cdr/asn/ber_marshal.go:15-74 | a primitive value of at most 127 contents octets in octets: identifier, length, and contents such as 0xff for true |
| BerIdentifiers.ExplicitWraps | cdr/asn/ber_marshal.go:335-342 | an explicit tag wraps the whole untagged encoding in a constructed context header |
| BerIdentifiers.PrimitiveDecoded | cdr/asn/ber_unmarshal.go:98-172 | what any octets with a low tag decode to as a primitive, whatever their class and tag: the value, or the error or panic |
| BerFailures.RefusedValues | cdr/asn/ber_marshal.go:230-262 | nil pointers and choices of nothing are errors, choices out of range panic, and so does every failure inside a tagged choice |
| BerFailures.FirstFailureDecides | cdr/asn/ber_marshal.go:277-304 | the first field that cannot be encoded decides how a struct fails |
| BerFailures.AlternativeIff | cdr/asn/ber_unmarshal.go:191-206 | the alternative decoded is the first with the tag, and its absence an error |
| BerFailures.FieldIff | cdr/asn/ber_unmarshal.go:214-279 | a member goes to the first field with its tag; a field without a tag met on the way panics |
| BerFailures.UntaggedFieldPanics | cdr/cdrType/IPBinV6AddressWithPrefixLength.go:5-8 | a struct whose first field has no tag cannot be decoded |
| BerFailures.TaggedChoiceDecoded | cdr/asn/ber_unmarshal.go:181-206 | a tagged choice is selected by the header inside, bounded by the whole input, and read from that header's size on |
| BerFailures.StructReadsOn | cdr/asn/ber_unmarshal.go:211-279 | members behind the announced end of a struct are its members too |
| BerFailures.SliceReadsOn | cdr/asn/ber_unmarshal.go:284-306 | elements behind the announced end of a slice are its elements too |
| BerFailures.OthersStay | cdr/asn/ber_unmarshal.go:191-206 | decoding a choice leaves the alternatives not chosen as the target held them |
| BerMarshal.MakeStruct | cdr/asn/ber_marshal.go:267-304 | the field loop leaves out absent optional fields and panics when nothing was emitted |
| BerMarshal.BerMarshalWithParams | cdr/asn/ber_marshal.go:359-367 | the buffer of the announced size ends up as the concatenation of headers and contents of the whole tree |
| BerUnmarshal.ParseField | cdr/asn/ber_unmarshal.go:86-314 | the decoder's recursion and loops compute the specification and terminate on every input |
| BerUnmarshal.ParseStruct | cdr/asn/ber_unmarshal.go:211-279 | the sequence and set loops over offset and current field equal the member-by-member specification |
| BerUnmarshal.ParseChoice | cdr/asn/ber_unmarshal.go:173-206 | a tagged choice is selected by the inner header and resumed at the inner header's size |
| BerUnmarshal.SplitElements | cdr/asn/ber_unmarshal.go:284-296 | a slice is cut at the announced lengths |
| BerMembers.ParseMembersIsFold | cdr/asn/ber_unmarshal.go:211-279 | over a concatenation of TLVs the struct loops are a fold over the list of members |
| BerMembers.SplitMembers | cdr/asn/ber_unmarshal.go:284-296 | cutting a concatenation of TLVs gives back its parts |
| BerRoundTrip.Encodes | cdr/asn/ber_marshal.go:174-350 | surviving values are always encoded, as one TLV under their own tag |
| BerRoundTrip.RoundTrip | cdr/asn/ber_unmarshal.go:86-314 | for every schema and every value that meets the side conditions, unmarshalling the marshalled octets gives back the value, absent fields absent |
| BerRoundTrip.ParseIgnoresTag | cdr/asn/ber_unmarshal.go:173-190 | only a CHOICE, possibly behind pointers, wrappers or slices, looks at the tag it is decoded under |
| BerOrder.SetOrderIndependent | cdr/asn/ber_unmarshal.go:250-279 | members of a set with distinct tags give the same outcome in every order |
| BerOrder.SetDecodesInAnyOrder | cdr/asn/ber_unmarshal.go:250-279 | the same for the whole TLV of a set, whatever the target held before |
| BerOrder.SequenceAccepts | cdr/asn/ber_unmarshal.go:214-249 | a sequence decodes if and only if its tags are a subsequence of the declared tags and each member suits its field, and then to the target with exactly those fields filled in: the greedy scan misses nothing |
| BerMemberwise.SetReturnsInAnyOrder | cdr/asn/ber_unmarshal.go:250-279 | a surviving set comes back from its member encodings in every order |
| BerMemberwise.StructExact | cdr/asn/ber_unmarshal.go:211-279 | a struct of encoded fields comes back if and only if each present field does |
| BerLimits.ScalarExact | cdr/asn/ber_unmarshal.go:98-172 | primitive values, tagged or not, come back if and only if they are recoverable |
| BerLimits.EmittedOrPanic | cdr/asn/ber_marshal.go:277-333 | a struct of surviving fields is encoded if and only if a field is emitted, and panics otherwise |
| BerLimits.ExplicitNeverRecovered | cdr/asn/ber_marshal.go:335-342 | an octet string under an explicit tag always comes back with its own header in front |
| BerTaggedAlternative.VerbatimExact | cdr/asn/ber_unmarshal.go:181-206 | under tags of any size, a tagged choice whose contents are taken as they are (strings, bit strings), behind any pointers and wrappers, comes back if and only if the header misread at the inner size is as long as the outer header |
| BerTaggedAlternative.TaggedChoiceLowTags | cdr/asn/ber_unmarshal.go:181-206 | under tags up to 30, a tagged choice of a surviving value of any type is always encoded, and comes back if and only if its length is not one at which the outer header is longer, or it is primitive with inner tag 1 and 126 or 127 octets |
| BerTaggedSlice.SliceExact | cdr/asn/ber_unmarshal.go:284-306 | a tagged slice of encoded elements comes back if and only if each element does under the tag of the slice |
| BerTaggedSlice.ElementExact | cdr/asn/ber_unmarshal.go:300 | a choice of a string as element comes back if and only if the string opens with a header under its own tag and that header and the one found behind it are together as long as the element's own |
| BerTaggedSlice.TaggedSliceOfOctets | cdr/asn/ber_unmarshal.go:300 | with tags up to 30 that is a condition on the length, at least 256, and the two or three leading octets of every element |
| BerTaggedSlice.SliceReturnsByAccident | cdr/asn/ber_unmarshal.go:300 | such an element of 256 octets that comes back |
| BerTaggedSlice.SliceLost | cdr/asn/ber_unmarshal.go:300 | and one of 255 octets that does not |
| BerTaggedSlice.TaggedSliceWithNumber | cdr/asn/ber_unmarshal.go:300 | with an integer, an enumerated value or a boolean (as an alternative with a tag up to 30) among the elements a tagged slice never comes back |
| BerTaggedSlice.TaggedSliceOfChoiceFails | cdr/asn/ber_unmarshal.go:300 | for alternatives of any type, a slice whose first element has at most one octet of contents does not decode |
| ChfConsumer.ConsumerReturnsIff | internal/sbi/processor/cdr.go:125-182 | a consumer with any text addresses and domain name comes back if and only if their lengths avoid those at which the header around the CHOICE is longer |
| ChfConsumer.RecordReturnsIff | internal/sbi/processor/cdr.go:24-252 | the same for a whole record with such a consumer |
| ChfConsumer.NamedRecord | internal/sbi/processor/cdr.go:143-148 | for a domain name alone: every length but 253 to 255 and 65532 to 65535 |
| ChfConsumer.LongNameLost | internal/sbi/processor/cdr.go:143-148 | a record the code can build that does not come back |
| ChfConsumer.NodeAddressOfIp | cdr/cdrType/NodeAddress.go:13-17 | a node address that holds an IP address, a choice within a choice, comes back if and only if its two headers are equally long |
| ChfConsumer.AddressListLost | cdr/cdrType/PDUAddress.go:12 | a list of addresses under a tag never comes back |
| CdrFileTypes.PackUnpackTime | cdr/cdrFile/cdrFile.go:205-211 | packing the seven unpacked fields of any 32-bit time stamp gives back the word |
| CdrFileTypes.UnpackPackTime | cdr/cdrFile/cdrFile.go:424-432 | fields within their widths survive the shifts and ORs |
| CdrFileCodec.CdrFile.Encoding | cdr/cdrFile/cdrFile.go:357-395 | the appending writers produce header octets followed by the concatenated CDRs |
| CdrFileCodec.CdrFile.Decoding | cdr/cdrFile/cdrFile.go:397-542 | the header is replaced and the decoded CDRs are appended, by an invariant on the moving tail |
| CdrFileLayout.HeaderLayout | cdr/cdrFile/cdrFile.go:205-355 | the offset of every field of a file of canonical header, numbers most significant octet first, time stamps bit by bit |
| CdrFileLayout.RestIgnored | cdr/cdrFile/cdrFile.go:397-542 | what follows the last CDR announced does not change what a file decodes to |
| CdrFileLayout.CdrLayout | cdr/cdrFile/cdrFile.go:357-395 | the octets of a CDR with its header |
| CdrFileLaws.FileRoundTrip | cdr/cdrFile/cdrFile.go:397-542 | an encoded file below 2^32 octets decodes to itself if and only if it is canonical, its variable parts fit the 16-bit positions, and its low extension is where the decoder looks |
| CdrFileLaws.DecodedIsCanonical | cdr/cdrFile/cdrFile.go:397-542 | whatever decodes has all fields within their widths and consistent lengths |
| CdrFileLaws.Reencoded | cdr/cdrFile/cdrFile.go:397-540 | re-encoding a decoded file gives exactly the octets consumed if and only if the low extension was read from its own place |
| CdrDump.DumpCdrFile | internal/sbi/processor/cdr.go:314-355 | the loop writes the file of the specification: one CDR per record, empty where marshalling failed, length accumulated in 32 bits |
| CdrFileLayout.DumpedOctets | internal/sbi/processor/cdr.go:314-355 | a dumped file is its length, header length 52, zeros and the count, and before each record its 16-bit length, 0 and 0x20 for the basic encoding rules |
| CdrDump.DumpedParts | internal/sbi/processor/cdr.go:330-346 | a record refused by the marshaller leaves an empty CDR, one that panics it takes the dump with it |
| CdrDump.LengthAnnounced | internal/sbi/processor/cdr.go:322-346 | the accumulated file length is the size of the file as long as that fits 32 bits |
| CdrDump.DumpReadableIff | internal/sbi/processor/cdr.go:336 | a dumped file below 2^32 octets gives back its octet strings if and only if none is longer than 65535 |
| CdrDump.EndToEnd | internal/sbi/processor/cdr.go:314-355 | records that meet the codec's conditions and take at most 65535 octets come back from the decoded file, all and in order |
| Reservation.AccountStore.HandleCCR | pkg/abmf/abmf.go:110-236 | one account is read, changed and written back: balance and answer of each action in words, the remaining balance of a debit; no other account changes, and none if the request is not processed |
| Reservation.ChfUe.FindRatingGroup | internal/context/ue_context.go:51-58 | the search finds a rating group exactly if it is listed |
| Reservation.ChfUe.NotifyRecharge | internal/sbi/processor/converged_charging.go:38-60 | a recharge sets the mode of its group and nothing else |
| Reservation.ChfUe.ScanContainers | internal/sbi/processor/converged_charging.go:533-569 | the loops over containers and triggers give credit control, FINAL, the 32-bit volume and the partial flag |
| Reservation.ChfUe.ReserveBranch | internal/sbi/processor/converged_charging.go:605-731 | charge, debit if used up, grant: the group becomes that of the specification, other groups stay |
| Reservation.ChfUe.DebitBranch | internal/sbi/processor/converged_charging.go:732-797 | price, refund or debit the difference, clear the reservation; other groups stay |
| Reservation.ChfUe.SessionChargingReservation | internal/sbi/processor/converged_charging.go:475-804 | every rating group ends as if only its own reports had been handled, answers are its own, no group is listed twice, and a group whose last report requests nothing, answered, is left with nothing reserved |
| ReservationSteps.UsageSettled | internal/sbi/processor/converged_charging.go:574-797 | an online report that requests nothing, or no volume under FINAL, or finds debit mode, and is answered: charged the 32-bit price of its online volume at the account's unit cost, nothing reserved, the exact balance, reserve mode if and only if something was refunded |
| ReservationSteps.SettlementUnanswered | internal/sbi/processor/converged_charging.go:732-797 | unanswered it charges nothing, and changes the mode as far as the price was learned |
| ReservationSteps.ReservationLasts | internal/sbi/processor/converged_charging.go:605-731 | a request for a volume under FINAL, or in a new or reserving group, with reservation left: usage taken off it, account not asked, units bought by the requested quota |
| ReservationSteps.ReservationRenewed | internal/sbi/processor/converged_charging.go:621-731 | with nothing left: what the account gives, the new reservation, TERMINATE and debit mode exactly if it cannot pay |
| ReservationSteps.AccountUnanswered | internal/sbi/processor/converged_charging.go:621-640 | without an account's answer the usage is charged and nothing else happens |
| ReservationSteps.NothingAsked | internal/sbi/processor/converged_charging.go:605-610 | usage that comes with a request for no volume in reserve mode is neither charged nor answered |
| ReservationSteps.NotOnline | internal/sbi/processor/converged_charging.go:515-572 | a report without online containers only makes its group known |
| ReservationSteps.OneOfThree | internal/sbi/processor/converged_charging.go:574-604 | every online report ends its reservation or continues it, or finds a group without a mode |
| ReservationSteps.ModeStays | internal/sbi/processor/converged_charging.go:475-804 | over every run no handled group is without a mode |
| ReservationSteps.NextReport | internal/sbi/processor/converged_charging.go:760-764 | after a settlement a plain request is granted what its price buys if something was refunded, and settled with nothing granted otherwise |
| ReservationSteps.RequestSettles | internal/sbi/processor/converged_charging.go:475-804 | a request whose last report on a group is such a settlement leaves nothing reserved for it and answers with no units |
| ReservationLaws.UpdateDebitMoves | pkg/abmf/abmf.go:155-178 | a debit moves money between account and reservation without loss, whatever wraps |
| ReservationLaws.ReportConserves | internal/sbi/processor/converged_charging.go:515-801 | one report lowers balance plus reservation by exactly the price charged, modulo 2^64 |
| ReservationLaws.RunConserves | internal/sbi/processor/converged_charging.go:475-804 | over every run of requests, recharges and tariff changes, balance + reservation + charged is one 64-bit constant |
| ReservationExact.RunExact | internal/sbi/processor/converged_charging.go:475-804 | in plain integers, if the initial bounds leave 2^32 of room per report |
| ReservationSafety.ChargedIsPrice | internal/sbi/processor/converged_charging.go:604-784 | a report charges the 32-bit price of its volume exactly if it reaches a charging line: at the account's unit cost where it ends the reservation or learned that cost, at 1 elsewhere |
| ReservationSafety.RequestCharges | internal/sbi/processor/converged_charging.go:604-784 | what a request charges a group is the sum of those prices, and the unit cost of its account is the same throughout |
| ReservationSafety.AccountPriceIff | internal/sbi/processor/converged_charging.go:451-472 | a report that charges is charged at the account's unit cost if and only if it ends the reservation, its first request for the unit cost is answered with a positive one, or that cost is 1 |
| ReservationSafety.ChargedAtOne | internal/sbi/processor/converged_charging.go:459-463 | at a tariff of 5, ten units are charged 10 where the rating function does not answer |
| ReservationSafety.Settlement | internal/sbi/processor/converged_charging.go:732-797 | after a completed debit step nothing is reserved and the balance is the initial balance less everything charged, exactly if and only if that fits 64 bits |
| ReservationSafety.DebitSafe | pkg/abmf/abmf.go:155-178 | TERMINATE exactly if the request exceeds the balance, leaving it empty; and exactly when the balance ends non-negative |
| ReservationSafety.StepDebitCovered | internal/sbi/processor/converged_charging.go:613-672 | a step with an account debit and no TERMINATE reserves exactly the requested quota, which covers the grant even under 32-bit wrap-around |
| ReservationSafety.StepCoveredIff | internal/sbi/processor/converged_charging.go:613-672 | whatever wraps and whichever peers answer, the grant is covered if and only if what is left of the reservation, or else that and the account, pays for the granted units; TERMINATE means the requested quota exceeds the reservation |
| ReservationSafety.TerminateUncovered | internal/sbi/processor/converged_charging.go:645-672 | where the unit cost was learned and the price fits 32 bits, the requested units are granted in full and a grant with TERMINATE is not covered |
| ReservationSolvency.TerminateCovered | internal/sbi/processor/converged_charging.go:459-463 | a grant with TERMINATE that is covered, as its unit cost was not learned |
| ReservationSafety.OwnReportsOnly | internal/sbi/processor/converged_charging.go:515-801 | a rating group only sees its own reports |
| ReservationSafety.GroupsIndependent | internal/sbi/processor/converged_charging.go:515-801 | requests that agree on a group's own reports do the same to it |
| ReservationSafety.SwapNeighbours | internal/sbi/processor/converged_charging.go:515-801 | swapping neighbouring reports on different groups changes no group |
| ReservationSafety.PartialIff | internal/sbi/processor/converged_charging.go:545-579 | a partial record is asked for exactly if the last trigger is not FINAL and the last report under credit control requests units |
| ReservationSafety.PartialDependsOnOrder | internal/sbi/processor/converged_charging.go:545-579 | that decision does depend on the order of the groups |
| ReservationSafety.AnswersCounted | internal/sbi/processor/converged_charging.go:799-800 | the request number of a group grows by its number of answers, in 32 bits |
| ReservationRuns.Serve | internal/sbi/processor/converged_charging.go:38-804 | serving any sequence of requests, recharges and tariff changes takes every rating group through the run of the laws, and so keeps its money |
| ReservationSolvency.ReportSolvent | internal/sbi/processor/converged_charging.go:604-796 | a report within the granted units that asks for no more than balance and reservation keeps the account non-negative and the outstanding grant paid for |
| ReservationSolvency.RunSolvent | internal/sbi/processor/converged_charging.go:475-804 | the same over every run of such requests, recharges, and tariff changes at which the granted units stay paid for |
| ReservationSolvency.RunSolventIff | internal/sbi/processor/converged_charging.go:475-804 | over every run within the grants, the subscriber stays solvent throughout if and only if no answered request is granted units that cost more than the funds left after its usage, and no tariff change makes the outstanding units cost more than the funds |
| ReservationSolvency.GrantOverdrawsIff | internal/sbi/processor/converged_charging.go:613-796 | after a grant and a settlement of exactly the granted units the balance is what the usage left of the funds less the price of the granted units, so it is negative if and only if they cost more; this holds for wrapped prices and unlearned unit costs too |
| ReservationSolvency.GrantOverdraws | internal/sbi/processor/converged_charging.go:645-672 | a run in which it is |
| Decimals.BalanceStored | pkg/abmf/abmf.go:141-146 | a balance written to the store as a decimal string reads back unchanged |
| Decimals.PositiveBalanceReported | pkg/abmf/abmf.go:184-206 | a positive balance is reported as its leading digit and a power of ten that bracket it |
| Decimals.EmptyReportedAsZero | pkg/abmf/abmf.go:184-206 | an empty account is reported as zero |
| Decimals.OverdrawnReportedAsZero | pkg/abmf/abmf.go:184-206 | a negative balance above -10^18 is reported as zero, one below has no defined report |
| Decimals.TariffRead | pkg/rf/rating.go:109-124 | a tariff with a fraction reads as whole * 10^exponent + fraction if and only if that fits 64 bits, and as zero otherwise |
| Decimals.WholeTariffRead | pkg/rf/rating.go:109-124 | a tariff without a dot has exponent 0 and its own value, or zero where it is no number or does not fit |
| ChfRecordTypes.MultiUnitUsageToCdr | cdr/cdrConvert/sbiToCdr.go:14-36 | reports are converted one by one and in order |
| ChfRecordTypes.UsedUnitContainerToCdr | cdr/cdrConvert/sbiToCdr.go:40-66 | containers are converted one by one and in order, field by field |
| ChfRecordOctets.ContainerOctets | cdr/cdrType/UsedUnitContainer.go:5-26 | a container in octets: total, uplink and downlink volume, service specific units and local number under tags 4, 5, 6, 7 and 9 |
| ChfRecordOctets.UsageOctets | cdr/cdrType/MultipleUnitUsage.go:5-12 | a usage item in octets: an untagged sequence of rating group, containers and UPF under tags 0, 1 and 2 |
| ChfRecordOctets.ListOctetsStart | internal/sbi/processor/converged_charging.go:287-296 | the list of usage on its own is a sequence, 0x30, of its items in order |
| ChfRecordOctets.RecordWritten | cdr/cdrType/CHFRecord.go:14 | a record begins with 0xbf 0x81 0x48 and holds its present fields in order |
| ChfRecordOctets.RecordLayout | cdr/cdrType/ChargingRecord.go:7-39 | what stands under each tag of a record, such as 200 under 0 and the closing cause under 9 |
| ChfRecordLaws.RecordSurvives | cdr/cdrType/ChargingRecord.go:7-39 | records of readable numbers whose other parts survive meet all side conditions of the codec |
| ChfRecordLaws.RecordOutgrowsHeader | internal/sbi/processor/converged_charging.go:297 | some unsplit update leaves a record of 65537 octets |
| SplitBound.UpdatedLength | internal/sbi/processor/cdr.go:264-268 | the exact length of a record after its list grew, from the sizes of fields and length octets |
| SplitBound.UnsplitBound | internal/sbi/processor/converged_charging.go:272-312 | an unsplit record ends at most two octets beyond the sum compared, and within 16 bits if its contents had 256 octets |
| SplitBound.UnsplitFits | internal/sbi/processor/cdr.go:336 | for every unsplit update, the 16-bit length is exact if and only if the record already had a list or the record's own length octets leave room |
| ChfRecords.UpdateCDR | internal/sbi/processor/cdr.go:254-276 | the converted usage is appended to this record's list; a missing record is an error |
| ChfRecords.CloseCDR | internal/sbi/processor/cdr.go:278-312 | the cause becomes 1 or 0 and nothing else changes |
| ChfRecords.UeRecords.OpenCDR | internal/sbi/processor/cdr.go:24-252 | the local number is counted up even when the request is refused; a new record is a new object without usage or partial number, of cause 0, with that number, the request's opening and the octets of the session reference |
| ChfRecords.UeRecords.Reopen | internal/sbi/processor/cdr.go:38-52 | the same record goes on under the number after the stored one |
| ChfRecords.UeRecords.SplitOff | internal/sbi/processor/converged_charging.go:297-312 | a fresh copy with an empty list takes the session over and the old record stays as it was |
| ChfRecords.UeRecords.ChargingDataCreate | internal/sbi/processor/converged_charging.go:153-237 | list, map and counters become those of the specification; the session points at a new record as it was opened, holding the reports of the request one by one |
| ChfRecords.UeRecords.ChargingDataUpdate | internal/sbi/processor/converged_charging.go:272-357 | the record handling of an update: split, usage, partial closing and dumping on shared objects refine the transition on values, for every reply |
| ChfRecords.UeRecords.ChargingDataRelease | internal/sbi/processor/converged_charging.go:390-415 | the record handling of a release refines its transition |
| ChfProcessor.ChargingDataUpdate | internal/sbi/processor/converged_charging.go:239-369 | an update of an unknown session touches nothing; otherwise the reservation sees each report's own group, request, peers and total volumes, its partial flag drives the record handling, the record then holds every container field by field, and a refused record does not undo the reservation |
| ChfProcessor.ChargingDataRelease | internal/sbi/processor/converged_charging.go:371-418 | a release makes the same reservation first, also for an unknown session, and then records every container and closes the record |
| ChfProcessor.SettledByContainers | internal/sbi/processor/converged_charging.go:565 | the only report on a group settles at the price of the total volumes of its own online containers, modulo 2^32 |
| ChfProcessor.UpdateRecords | internal/sbi/processor/converged_charging.go:317-349 | an accepted update has recorded each report's rating group, UPF and containers, field by field and in order |
| ChfLifecycleLaws.UsageConserved | internal/sbi/processor/converged_charging.go:199-401 | over every run, the usage in all records of a UE is, as a multiset, exactly the usage taken |
| ChfSessionOrder.SessionUsageInOrder | internal/sbi/processor/converged_charging.go:297-349 | over every run, a session's usage across all records it was split over is what was taken for it, in order, and the session points at its last record |
| ChfLifecycleEffects.UpdateTouches | internal/sbi/processor/converged_charging.go:297-349 | an update changes the current record alone, or leaves all records as they were and adds one |
| ChfLifecycleEffects.PlainUpdateLength | internal/sbi/processor/converged_charging.go:272-317 | the length bound and the exact condition on the 16-bit length for a whole plain update that does not split |
| ChfUpdateLength.UpdateLength | internal/sbi/processor/converged_charging.go:272-357 | after any accepted update, split or not, partial or not, the current record is as long as its field sizes before the update say, and its 16-bit length is exact if and only if that is at most 65535 |
| ChfUpdateLength.ReleaseLength | internal/sbi/processor/converged_charging.go:390-415 | the same for a release |
| ChfUpdateLength.SplitStillTooLong | internal/sbi/processor/converged_charging.go:297-312 | a split whose new record is longer than 65535 octets |
| ChfLifecycleEffects.PartialNumbersStayOne | internal/sbi/processor/cdr.go:48-50 | over every run, records close with cause 0 or 1 and partial records carry number 1 |
| ChfNumbers.OperationNumbers | internal/sbi/processor/cdr.go:38-52 | after an operation a record carries a number exactly if it had one, was given one by a partial update, or took over from a record that had one |
| ChfNumbers.NumbersAreGiven | internal/sbi/processor/cdr.go:38-52 | over every run a record carries a number only if a partial update of the session it was opened for came before |
| ChfLifecycleEffects.PartialUpdateWrites | internal/sbi/processor/converged_charging.go:322-348 | an accepted partial update leaves its record closed with cause 1 and numbered, with its opening and local number, which a split record takes over |
| ChfLifecycleEffects.ReleasedRun | internal/sbi/processor/converged_charging.go:390-407 | after any run, a release closes its record normally with the last usage, leaves every other record alone, and all usage is in the records |
| ChfLifecycleEffects.UpdateFile | internal/sbi/processor/converged_charging.go:351-357 | after an accepted update the file decodes to all records of the UE, in order |
| ChfLifecycleEffects.ReleaseFile | internal/sbi/processor/converged_charging.go:408-414 | after an accepted release the file decodes to the released record alone |
| ChfLifecycleEffects.PartialFile | internal/sbi/processor/converged_charging.go:322-340 | a partial record is written alone, closed and not yet numbered anew |
| ChfLifecycleEffects.UpdateReplies | internal/sbi/processor/converged_charging.go:239-369 | which reply an update gets, from what the marshaller makes of record and usage |
| ChfLifecycleEffects.ReleaseReplies | internal/sbi/processor/converged_charging.go:371-418 | which reply a release gets |
| ChfSessionIds.SessionIdReads | internal/sbi/processor/converged_charging.go:186-189 | a reference is subscriber, consumer name and record number in decimal digits |
| ChfSessionIds.SessionIdsDistinct | internal/sbi/processor/converged_charging.go:186-189 | for one consumer name, session references are equal exactly if the record numbers are |
| ChfSessionIds.SessionIdsMeetIff | internal/sbi/processor/converged_charging.go:186-189 | across names they are equal exactly if the longer name is the shorter one and the rest of it with its number spells the other number |
| ChfSessionIds.NamesCanMeetIff | internal/sbi/processor/converged_charging.go:186-189 | two different names can get one reference exactly if one is the other followed by digits that start a number |
| ChfSessionIds.SessionIdsCollide | internal/sbi/processor/converged_charging.go:186-189 | a pair that does |

## Left out

- BerRoundTrip.RoundTrip: exact conditions, necessary as well as sufficient, are proved for scalars, explicit octet strings, empty structs, structs member by member, and tagged choices: of every alternative under tags up to 30, of strings and bit strings under every tag. For tagged choices of numbers or constructed alternatives under tags above 30, which no tagged choice of the record types has, only sufficiency is proved.
- BerTaggedSlice.TaggedSliceOfOctets: the condition on lengths and leading octets is spelled out for tags up to 30; ElementExact holds for every tag.
- BerTaggedSlice.TaggedSliceOfChoiceFails: elements that are bit strings or constructed and have longer contents are not classified.
- BerHeader.ParseTagAndLength: a length field that runs past the slice is a panic, also where Go would read on within spare capacity.
- CdrFileCodec.CdrFile.Decoding: so is a CDR that runs past the end of the file, also where the buffer read has the capacity for it.
- NULL, OBJECT IDENTIFIER, open types and interface values: not part of the model.
- Parsing of `ber` tag strings and Go reflection: schemas start already parsed; a 64-bit number stored into a narrower Go integer would be truncated, which no record type does.
- ChfRecordTypes.RECORD_FIELDS: lists the fields the charging function sets; fields it never sets are absent in every record and emit nothing. Consumer, session and registration parts are arbitrary values of their schemas.
- ChfRecords.UeRecords.OpenCDR: the opening of a record is a parameter: PLMN and time stamp conversion, supi prefixes and the mandatory-field checks only decide whether there is one.
- Copying a record through JSON at a split: a fresh copy with equal contents.
- ChfRecords.UeRecords.ChargingDataCreate: the checks on the request only decide whether there is an opening, and the response body is left out; creating a session makes no reservation.
- Locks and concurrent requests: operations on one UE run one after the other; lookups of the UE by supi are left out.
- File system, FTP, MongoDB and Diameter transport: octet strings, a map of accounts and a choice per request; store and file writes succeed.
- Charging.Account: holds the unit cost the code computes from the tariff; its sign convention and `math.Pow10` beyond 64 bits are left out.
- Thresholds, validity times, triggers in the answer and float rates: no effect on amounts or records.
- SHA-256 file names, clocks, NRF registration, OAuth, configuration, routing, logging and metrics.
