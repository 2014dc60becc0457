# Models and proofs of a challenge repository

Dafny models of the repository's seven algorithmic cores, and proofs of what they do. Each module is
one component. Code that works in place is modelled by classes and by methods over fields, arrays
and loops; each such method is proved to compute a function of its inputs, and lemmas then say what
that function means.

**Machine-code layer of the assembler** (`McModel`, `McEager`, `McPlaces`, `McSection`, `McFixup`,
`McValues`, `McRank`, `McRelax`, `McTrace`, `McPatch`, `McAssembler`, `McBundle`, `McImage`,
`McWriter`, `McObject`, `McBytes`, `McX86Fixup`, `McX86Object`, `McNops`, `McNopCode`, `McShift`,
`McBothBases`). Fragment offsets are computed
lazily and cached, one last valid fragment a section; relaxation runs in nested fixpoint loops and
leaves the cache stale past the first resized fragment until it is invalidated. `McEager.Eager` is
the layout with nothing cached, and is the only one there is (`IsLayoutUnique`). The invariant
`MCSection.Valid` says what is cached at any time, stale or not: the layout `Mixed` of the fragments
as they were when each was laid out and when the next one was. Where none has changed since, that is
eager layout. `McTrace` is relaxation as a machine of single turns over such states, and the methods
are proved to run it. The target backend is a record of functions: relaxing an instruction lowers
some rank, and a nop writer that succeeds writes as many bytes as asked. The main results are
`MCAssembler.Layout` (the loops end, nothing needs relaxing under the final layout, and the
fragments are the ones given with their instructions relaxed), `LayoutAtBothBases` (another base
address leads through the same states to the same contents), `EmissionMatchesLayout`, `BundlesKept`
and `McObject.Finish`, which joins layout, fixups and writing for a whole file. `FinishX86` is what
that comes to on x86: every jump the relaxation left short leads to its label, from the byte that
stands in the file. `McPlaces`, `McValues` and `McBytes` say what layout, fixups and the finished file
come to, fragment kind by fragment kind, in terms of places and bytes and not of the functions that
compute them; `McNopCode` decodes the nops.

**Streamer and symbol context** (`McHeld`, `McStreamer`, `McContext`). `McHeld.Held` is what a
fragment holds: its bytes, the instructions in them and where, and the bundle groups merged into it.
The streamer keeps a list of these for its fragments, which `MCELFStreamer.Valid` ties to the real
bytes and fixups; each emitting method says what the list is afterwards, in every bundling and
relaxation mode. `MCELFStreamer.Run` is about any run of directives, and `BundlesHold` about the
point of bundling: when everything is relaxed, no instruction of the laid-out section crosses a
bundle boundary. The context hands out names; `MCContext.Run` states uniqueness for any run.

**Sign-in client and server** (`SignInCipher`, `SignInWords`, `SignInServer`, `SignInMachine`,
`SignInSteps`, `SignInListings`, `SignInCompare`, `SignInValidators`, `SignInTheorem`,
`SignInNumbers`, `SignInAccepts`, `SignInProtocol`, `SignInFrames`). The cipher is written once over a record of word operations; the C functions are
loops, and the x86 listings are lists of instructions of a small-step machine, as they stand in the
source. The listings stop when the running sum meets a sentinel; that this is the 32nd round and no
earlier one follows from the low five bits of the sum. `ClientAgreesWithServer` joins the listing of
slot 13, its four cipher calls and its byte comparison with the check in C. `SignInNumbers` and
`SignInAccepts` are the cipher and the check once more, on plain numbers with integer arithmetic only.
The protocol is a state machine over the reads and writes of both sides on two byte channels;
`SignInFrames` is what a call puts on them and what it changes, byte by byte.

**Blowfish** (`BlowfishCipher`, `BlowfishEngine`, `BlowfishWords`, `BlowfishNumbers`,
`BlowfishSchedule`), **AES** (`AesCipher`, `AesBytes`, `AesField`, `AesRounds`, `AesMethods`,
`AesStream`), **knapsack** (`Knapsack`) and **CRC-32** (`Crc32`).

The ciphers and the CRC are proved over any type of words whose operations obey a few laws, and the
laws are then proved of 8-bit and 32-bit words. What they compute is said a second time, apart from
those operations: Blowfish in integer arithmetic (`BlowfishNumbers.EncryptsNumbers`), with the
tables of a key as the only ones that are linked by the cipher (`BlowfishSchedule.OnlyTables`), and
AES byte by byte in the field of section 4.2 of FIPS 197 (`AesRounds.Encrypts`), whose product
`AesField` proves a commutative ring with the inverses that the substitution table holds. `Words32`
holds the numbers of 32-bit words, `Arith` holds facts about division, `Euclid` those about the
greatest common divisor.

What the proofs found: the lemma that says exactly when, and an input.

- `LabelsOfNewFragment`, `LabelNamesPadding`: a label waiting for a bundle group names offset 0 of a
  new fragment. When the group must end with its bundle and is smaller than it, that is the padding
  and not the group.
- `LabelBetween`: with every relaxation done, a label between two instructions of a group names the
  first of them and not the second.
- `FixupNamesItsByte`, `FixupWrapsAround`: fixup offsets are 32 bits wide, so a fixup names its byte
  if and only if that byte lies below 2^32.
- `FieldReadsBack`, `AcceptedButMisread`: the range check before a value is stored on x86 lets one
  bit more through than the field holds, so that a distance of 2^31 in four bytes is read back as
  -2^31. `JumpLands` says when a reference leads to its label; the short jumps always do.
- `GetOrCreateSymbol`, `LookupOfTakenName`: a symbol gets another name than the one looked up when a
  temporary symbol took that name before. Such names have the private prefix, which makes the symbol
  temporary too, so that the assertion in the loop does not object.
- `ShiftsAreSwapped`, `ShiftsDiffer`: the two row shifts of AES are exchanged, and a shift is that of
  FIPS 197 only where rows 1 and 3 repeat after two columns. `BlockOfBytesBack` holds all the same.
  The cipher also always runs ten rounds, whatever the key size.
- `RaggedText`, `OneByteComesOutAsSixteen`: decrypting a ciphertext that is no whole number of
  blocks gives a longer text.
- `MessageBack`, `EveryMessageBack`, `SomeKeyLosesAMessage`: the knapsack generator does not force q
  above the sum of the private key.
- `CallOutcome`, `SlotOutOfRange`: a request outside the client's limits makes the client close the
  connection and exit. The call returns all the same, with the server's own buffer; a write after
  the close may end the server.

## Model

| member | source | states |
|---|---|---|
| McSection.MCSection.constructor | Reverse/client/docker/keystone/llvm/lib/MC/MCAssembler.cpp:698-717 | a section starts with nothing cached; an empty one gets a dummy data fragment |
| McSection.MCSection.ComputeFragmentSize | Reverse/client/docker/keystone/llvm/lib/MC/MCAssembler.cpp:265-346 | the size, or its absence, is the one of the layout, whatever is cached; for a fragment already valid the cache is untouched |
| McSection.MCSection.GrowSize | Reverse/client/docker/keystone/llvm/lib/MC/MCAssembler.cpp:294-297 | the loop that grows a padding by the alignment finds the first size the minimum nop size divides, if there is one |
| McNops.GrowthEndsOrNever | Reverse/client/docker/keystone/llvm/lib/MC/MCAssembler.cpp:294-297 | that loop ends if and only if the greatest common divisor of alignment and minimum nop size divides the padding, and then within as many steps as the nop size; otherwise it never ends |
| McNops.OddPadding | Reverse/client/docker/keystone/llvm/lib/MC/MCAssembler.cpp:294-297 | an input for which it never ends: nops of two bytes, alignment 4, padding 1 |
| McEager.AlignmentRoundsUp | Reverse/client/docker/keystone/llvm/lib/MC/MCAssembler.cpp:291-291 | the alignment padding reaches a multiple of the alignment and is what rounding up by division adds |
| McSection.MCSection.ComputeAlignSize | Reverse/client/docker/keystone/llvm/lib/MC/MCAssembler.cpp:285-301 | alignment size from the lazily computed offset equals the one of the layout; what that is, `AfterAlign` says |
| McPlaces.AfterAlign | Reverse/client/docker/keystone/llvm/lib/MC/MCAssembler.cpp:285-301 | in the layout, what follows an alignment starts at the least multiple of it not below where the alignment stands, past as many more as nops of the minimum size need, if that is no more than the maximum further on; otherwise where the alignment stands |
| McPlaces.AfterAlignByByte | Reverse/client/docker/keystone/llvm/lib/MC/MCAssembler.cpp:285-301 | with nops of one byte: at the least multiple, or right where the alignment stands |
| McPlaces.FirstAtBase | Reverse/client/docker/keystone/llvm/lib/MC/MCAssembler.cpp:364-372 | the first fragment starts at the base address |
| McPlaces.AfterOrg | Reverse/client/docker/keystone/llvm/lib/MC/MCAssembler.cpp:303-335 | what follows an `.org` starts at the location it names, and nothing follows if that lies behind the `.org` or 2^30 bytes or more ahead |
| McPlaces.AfterLostOrg | Reverse/client/docker/keystone/llvm/lib/MC/MCAssembler.cpp:303-321 | nothing follows an `.org` whose location has no value |
| McPlaces.AfterOthers | Reverse/client/docker/keystone/llvm/lib/MC/MCAssembler.cpp:265-284 | what follows any other fragment starts as many bytes further on as it holds, or as it counts, or 4 |
| McSection.MCSection.ComputeOrgSize | Reverse/client/docker/keystone/llvm/lib/MC/MCAssembler.cpp:303-335 | `.org` size from lazy offsets equals the one of the layout, with all three error exits |
| McSection.MCSection.GetOrgLocation | Reverse/client/docker/keystone/llvm/lib/MC/MCAssembler.cpp:317-326 | the location a constant or an earlier label gives |
| McSection.MCSection.LayoutFragment | Reverse/client/docker/keystone/llvm/lib/MC/MCAssembler.cpp:348-373 | lays out exactly the next fragment, never a valid one, and extends the cache if and only if the layout reaches it |
| McSection.MCSection.NextStart | Reverse/client/docker/keystone/llvm/lib/MC/MCAssembler.cpp:364-372 | the start is the end of the predecessor or the base address |
| McSection.MCSection.PadToBundle | Reverse/client/docker/keystone/llvm/lib/MC/MCAssembler.cpp:402-427 | the cached padding and offset are those of the layout; a stop means a fragment that does not fit its bundle |
| McSection.MCSection.EnsureValid | Reverse/client/docker/keystone/llvm/lib/MC/MCFragment.cpp:62-82 | what is cached is at all times the layout of the fragments as they were when laid out and passed over, also in the middle of a pass; asking for a fragment extends it just so far, and succeeds if and only if the layout reaches the fragment |
| McSection.MCSection.GetFragmentOffset | Reverse/client/docker/keystone/llvm/lib/MC/MCFragment.cpp:84-98 | the offset, or its absence, is the one of the layout, and the cache reaches just as far as asked |
| McSection.MCSection.LayoutAll | Reverse/client/docker/keystone/llvm/lib/MC/MCAssembler.cpp:930-936 | afterwards the whole of the layout is cached |
| McSection.MCSection.GetSectionAddressSize | Reverse/client/docker/keystone/llvm/lib/MC/MCFragment.cpp:204-210 | end of the last fragment, base address included; what cannot be computed counts as 0 |
| McSection.MCSection.Resize | Reverse/client/docker/keystone/llvm/lib/MC/MCAssembler.cpp:841-844 | the new contents are stored; the cache stays what it was, and counts the old contents where it had laid them out or passed over them, the new ones elsewhere |
| McSection.MCSection.Patch | Reverse/client/docker/keystone/llvm/lib/MC/MCAssembler.cpp:752-766 | other bytes, no more and no fewer, leave the layout and everything cached right |
| McSection.MCSection.InvalidateFragmentsFrom | Reverse/client/docker/keystone/llvm/lib/MC/MCFragment.cpp:52-60 | dropping the cache from the first resized fragment on makes all of it eager layout again |
| McEager.EagerIsLayout | Reverse/client/docker/keystone/llvm/lib/MC/MCAssembler.cpp:364-373 | eager layout puts each fragment at base plus the sizes and paddings before it, and stops only at a fragment without a size |
| McEager.IsLayoutUnique | Reverse/client/docker/keystone/llvm/lib/MC/MCAssembler.cpp:364-373 | there is no other such layout |
| McEager.MixedUnique | Reverse/client/docker/keystone/llvm/lib/MC/MCAssembler.cpp:364-373 | nor is there another one for fragments laid out in one state and passed over in another |
| McEager.SameUpTo | Reverse/client/docker/keystone/llvm/lib/MC/MCAssembler.cpp:908-915 | sections that agree on their first fragments, the last of them perhaps of another size, are laid out alike up to there |
| McEager.NoErrorWhereItFits | Reverse/client/docker/keystone/llvm/lib/MC/MCAssembler.cpp:402-421 | a fragment of 1 byte up to a bundle of at most 256 bytes takes no error exit, wherever it starts |
| McAssembler.MCAssembler.constructor | Reverse/client/docker/keystone/llvm/lib/MC/MCAssembler.cpp:698-717 | all sections made, none laid out, no relaxation pending |
| McAssembler.MCAssembler.GetLabelOffset | Reverse/client/docker/keystone/llvm/lib/MC/MCFragment.cpp:101-115 | the offset of the label's fragment in the layout as cached, stale or not; the cache reaches just as far as asked |
| McAssembler.MCAssembler.GetSymbolOffset | Reverse/client/docker/keystone/llvm/lib/MC/MCFragment.cpp:117-165 | labels, and variables as constant plus label minus label, with the error exit and the exit that leaves the value unset |
| McAssembler.MCAssembler.AddSymA | Reverse/client/docker/keystone/llvm/lib/MC/MCAssembler.cpp:165-224 | first symbol added, resolver and error exits included, and the initial verdict on whether the fixup is resolved |
| McAssembler.MCAssembler.SubtractSymB | Reverse/client/docker/keystone/llvm/lib/MC/MCAssembler.cpp:226-236 | second symbol subtracted when it is defined |
| McAssembler.MCAssembler.GetRawValue | Reverse/client/docker/keystone/llvm/lib/MC/MCAssembler.cpp:243-255 | pc subtracted, aligned down where the fixup kind asks for it |
| McValues.SymbolWorth | Reverse/client/docker/keystone/llvm/lib/MC/MCFragment.cpp:101-165 | a label is worth the place of its fragment plus its own offset; a variable its constant, plus one label, less another |
| McValues.FixupWorth | Reverse/client/docker/keystone/llvm/lib/MC/MCAssembler.cpp:165-255 | a fixup is worth its constant, plus the first symbol, less the second if it is defined, less the place it counts from: the fixup, or the multiple of four at or below it |
| McValues.ResolverWorth | Reverse/client/docker/keystone/llvm/lib/MC/MCAssembler.cpp:204-218 | the value a resolver gives takes the place of an undefined symbol and of the constant, and the fixup counts as resolved |
| McValues.MissingSymbol | Reverse/client/docker/keystone/llvm/lib/MC/MCAssembler.cpp:215-224 | an undefined symbol that nothing resolves is an error |
| McValues.ResolvedWhen | Reverse/client/docker/keystone/llvm/lib/MC/MCAssembler.cpp:165-191 | exactly which fixups count as resolved before the layout is looked at |
| McValues.EvaluatedValue | Reverse/client/docker/keystone/llvm/lib/MC/MCAssembler.cpp:257-262 | the backend is shown that value modulo 2^64, with the verdict |
| McAssembler.MCAssembler.EvaluateFixup | Reverse/client/docker/keystone/llvm/lib/MC/MCAssembler.cpp:147-263 | value, resolution and error are those of the fixup under the layout as cached, stale or not; it asks for the symbols and the fragment up to the first error |
| McAssembler.MCAssembler.FixupNeedsRelaxation | Reverse/client/docker/keystone/llvm/lib/MC/MCAssembler.cpp:785-799 | yes if the fixup overflows under the layout as cached, and only if it does or its value is one the code reads unset; errors say no |
| McAssembler.MCAssembler.FragmentNeedsRelaxation | Reverse/client/docker/keystone/llvm/lib/MC/MCAssembler.cpp:801-815 | yes at the first fixup that overflows, or may, under the layout as cached; no only if none overflows |
| McAssembler.MCAssembler.RelaxInstruction | Reverse/client/docker/keystone/llvm/lib/MC/MCAssembler.cpp:817-847 | one turn of the machine in `McTrace`: either only the cache reaches further, or exactly this fragment, which overflowed or may have, gets the encoding of the relaxed instruction |
| McAssembler.MCAssembler.RelaxFragment | Reverse/client/docker/keystone/llvm/lib/MC/MCAssembler.cpp:885-907 | the same for a fragment of any kind; a turn that relaxes lowers the total rank |
| McAssembler.MCAssembler.RelaxSection | Reverse/client/docker/keystone/llvm/lib/MC/MCAssembler.cpp:879-910 | one pass: the turns of the section in order, nothing else changed; returns the first fragment relaxed, up to which the cache is still right; a relaxation comes with a fragment that overflows, or may, at the start |
| McAssembler.MCAssembler.LayoutSectionOnce | Reverse/client/docker/keystone/llvm/lib/MC/MCAssembler.cpp:875-916 | the same, and the cache is eager layout everywhere again; if it relaxed nothing, nothing in the section needs it |
| McAssembler.MCAssembler.LayoutSection | Reverse/client/docker/keystone/llvm/lib/MC/MCAssembler.cpp:922-923 | one section is run to its own fixpoint; the loop ends |
| McAssembler.MCAssembler.LayoutOnce | Reverse/client/docker/keystone/llvm/lib/MC/MCAssembler.cpp:918-928 | each section is run to its own fixpoint; the file is the one before with instructions relaxed; if no pass relaxed, no section needs relaxing |
| McAssembler.MCAssembler.RelaxAll | Reverse/client/docker/keystone/llvm/lib/MC/MCAssembler.cpp:720-721 | the outer loop ends; the file is the one before with instructions relaxed step by step, and none needs it any more; all of it is one run of the machine in `McTrace` |
| McAssembler.MCAssembler.FinishLayout | Reverse/client/docker/keystone/llvm/lib/MC/MCAssembler.cpp:930-936 | every section is cached as far as its eager layout goes |
| McAssembler.MCAssembler.Layout | Reverse/client/docker/keystone/llvm/lib/MC/MCAssembler.cpp:692-728 | the nested loops end, for every backend that lowers a rank; every fragment is the one given after zero or more relaxations of its instruction, each of one that may need it; at the end none needs relaxing under the final layout, and every section is valid and in place as far as its eager layout goes; the contents are those a complete run of the machine ends with |
| McTrace.TurnDecides | Reverse/client/docker/keystone/llvm/lib/MC/MCAssembler.cpp:801-815 | a fragment a turn leaves as it is does not need relaxing under the cache of that moment, and one it relaxes may |
| McTrace.RunsAgree | Reverse/client/docker/keystone/llvm/lib/MC/MCAssembler.cpp:875-928 | relaxation from a given file is one run, which ends with one contents, as long as no value is read unset |
| McRelax.OthersUnchanged | Reverse/client/docker/keystone/llvm/lib/MC/MCAssembler.cpp:879-907 | a file relaxed step by step has the sections and fragments it had, and every fragment that is not relaxable, or cannot need it, is as it was |
| McRelax.RelaxedCode | Reverse/client/docker/keystone/llvm/lib/MC/MCAssembler.cpp:829-846 | a relaxable fragment holds its instruction relaxed some number of times in turn, each time because it may need it, and the encoding of the result |
| McAssembler.MCAssembler.HandleFixup | Reverse/client/docker/keystone/llvm/lib/MC/MCAssembler.cpp:662-690 | the value to store for a fixup under the final layout: as evaluated when resolved, else as the object writer adjusts it; both error exits |
| McValues.StoredValue | Reverse/client/docker/keystone/llvm/lib/MC/MCAssembler.cpp:662-690 | the value stored is the one evaluated if the fixup is resolved, else what the object writer makes of it; a subtracted symbol with a modifier is refused |
| McAssembler.MCAssembler.PatchFragment | Reverse/client/docker/keystone/llvm/lib/MC/MCAssembler.cpp:750-766 | the fixups of a fragment are applied one after the other, each with its value under the layout, up to the first that cannot be |
| McAssembler.MCAssembler.ApplyFixups | Reverse/client/docker/keystone/llvm/lib/MC/MCAssembler.cpp:738-770 | every fixup of the file is applied once, with its value under the final layout, which stays as it is; or one of them cannot be applied |
| McRank.RelaxedRankDrops | Reverse/client/docker/keystone/llvm/lib/MC/MCAssembler.cpp:829-846 | relaxing one instruction anywhere lowers the summed rank of the file |
| McShift.TruncationHarmless | Reverse/client/docker/keystone/llvm/lib/MC/MCAssembler.cpp:287-291 | the 32-bit offset gives the same padding for every alignment up to 2^32 |
| McShift.LayoutMoved | Reverse/client/docker/keystone/llvm/lib/MC/MCAssembler.cpp:285-373 | moving the base by a multiple of every alignment and of the bundle size moves all offsets by as much and keeps every size and padding, also after an `.org` that counts from a label |
| McShift.MixedMoved | Reverse/client/docker/keystone/llvm/lib/MC/MCAssembler.cpp:285-373 | so it does what a stale cache holds in the middle of a pass |
| McShift.RawValueMoved | Reverse/client/docker/keystone/llvm/lib/MC/MCAssembler.cpp:193-255 | the value of a fixup moves by the base drift of its symbols less that of the pc |
| McShift.BalancedKinds | Reverse/client/docker/keystone/llvm/lib/MC/MCAssembler.cpp:171-191 | a pc-relative reference to a label, and an absolute constant, do not drift |
| McShift.DecisionMoved | Reverse/client/docker/keystone/llvm/lib/MC/MCAssembler.cpp:785-815 | a fragment whose fixups do not drift needs relaxing at the one base if and only if it does at the other |
| McShift.FixpointMoved | Reverse/client/docker/keystone/llvm/lib/MC/MCAssembler.cpp:918-928 | a file is a relaxation fixpoint at one base if and only if it is at the other, and the layouts differ by the move only |
| McShift.RunMoved | Reverse/client/docker/keystone/llvm/lib/MC/MCAssembler.cpp:875-928 | the runs of relaxation at the one base are the runs at the other, state by state, stale caches included |
| McShift.SameAtBothBases | Reverse/client/docker/keystone/llvm/lib/MC/MCAssembler.cpp:875-928 | two complete runs from the same file, one at each base, are the same, end with the same contents, and lay them out the move apart |
| McBothBases.StartsWithin | Reverse/client/docker/keystone/llvm/lib/MC/MCAssembler.cpp:285-373 | in every state relaxation can get to, every fragment is laid out, no further on than the most bytes those before it may ever take |
| McBothBases.TameIsCalm | Reverse/client/docker/keystone/llvm/lib/MC/MCAssembler.cpp:875-928 | so that in every such state no value is read unset, and the next turn is the same at both bases |
| McBothBases.SameFromTheStart | Reverse/client/docker/keystone/llvm/lib/MC/MCAssembler.cpp:875-928 | the same of two complete runs, asked of the file at its start only: alignments and bundles divide the move, labels lie in fragments, there is room, and the instructions that may come up have short encodings whose fixups do not drift |
| McBothBases.LayoutAtBothBases | Reverse/client/docker/keystone/llvm/lib/MC/MCAssembler.cpp:692-728 | one file made and laid out at both bases: the same contents, and every fragment the move further on |
| McModel.MaskIsMod | Reverse/client/docker/keystone/llvm/lib/MC/MCFragment.cpp:227-228 | masking by a power of two less one is the remainder |
| McBundle.PaddingIsLeast | Reverse/client/docker/keystone/llvm/lib/MC/MCFragment.cpp:221-260 | the padding keeps the fragment in one bundle, or ends it with the bundle, and no smaller one does |
| McBundle.PaddedOrError | Reverse/client/docker/keystone/llvm/lib/MC/MCAssembler.cpp:402-427 | the layout pads by that least padding if it is at most 255, and is in error otherwise |
| McBundle.NoPadding | Reverse/client/docker/keystone/llvm/lib/MC/MCAssembler.cpp:402-427 | no padding with bundling off or before a fragment without instructions; a fragment larger than a bundle is an error |
| McBundle.PiecesAreThePadding | Reverse/client/docker/keystone/llvm/lib/MC/MCAssembler.cpp:440-470 | the nops are written in pieces that add up to the padding, none of which crosses a boundary |
| McBundle.BundlesKept | Reverse/client/docker/keystone/llvm/lib/MC/MCAssembler.cpp:402-427 | in the layout of a section an instruction fragment crosses a boundary if and only if it is larger than a bundle; the others sit behind the least padding that works |
| McImage.BodyLength | Reverse/client/docker/keystone/llvm/lib/MC/MCAssembler.cpp:496-603 | a fragment that can be written fills exactly its size |
| McImage.PaddingLength | Reverse/client/docker/keystone/llvm/lib/MC/MCAssembler.cpp:440-470 | the padding written is as long as the padding laid out |
| McImage.WritingStopsWithLayout | Reverse/client/docker/keystone/llvm/lib/MC/MCAssembler.cpp:481-487 | a section whose layout stops early stops being written at the same fragment |
| McImage.EmissionMatchesLayout | Reverse/client/docker/keystone/llvm/lib/MC/MCAssembler.cpp:651-659 | each fragment's contents stand at its offset less the base address, and the section is as long as the end of its last fragment less the base |
| McWriter.MCObjectWriter.WriteFill | Reverse/client/docker/keystone/llvm/lib/MC/MCAssembler.cpp:548-565 | chunks of 16, 8, 4, 2 and 1 make up exactly the fill |
| McWriter.MCObjectWriter.WriteFragmentPadding | Reverse/client/docker/keystone/llvm/lib/MC/MCAssembler.cpp:440-470 | writes the pieces of the padding, or fails when the backend cannot |
| McWriter.MCObjectWriter.WriteBody | Reverse/client/docker/keystone/llvm/lib/MC/MCAssembler.cpp:496-600 | the bytes of each fragment kind, and each fatal error; what the bytes are, `KindsInFile` says |
| McWriter.MCObjectWriter.WriteFragment | Reverse/client/docker/keystone/llvm/lib/MC/MCAssembler.cpp:473-604 | padding and contents of the laid-out size; a remembered error writes nothing; a fragment without a size sets it |
| McWriter.MCObjectWriter.WriteSectionData | Reverse/client/docker/keystone/llvm/lib/MC/MCAssembler.cpp:606-660 | the output grows by the image of the section, or the section has no image and an error says so |
| McNops.X86WriteNopData | Reverse/client/docker/keystone/llvm/lib/Target/X86/MCTargetDesc/X86AsmBackend.cpp:307-368 | writes exactly the bytes asked for, with or without long nops: instructions from the two tables, each as long as allowed, with prefixes past ten bytes |
| McNopCode.SequenceDoesNothing | Reverse/client/docker/keystone/llvm/lib/Target/X86/MCTargetDesc/X86AsmBackend.cpp:308-366 | by the x86 encoding what it writes is instructions without effect, one after the other |
| McObject.WriteObject | Reverse/client/docker/keystone/llvm/lib/MC/ELFObjectWriter.cpp:1118-1159 | sections in order, each after zeros to its alignment, up to the first that has no image |
| McObject.SectionAligned | Reverse/client/docker/keystone/llvm/lib/MC/ELFObjectWriter.cpp:1121-1124 | every section starts at a multiple of its alignment |
| McObject.SectionStands | Reverse/client/docker/keystone/llvm/lib/MC/ELFObjectWriter.cpp:1121-1127 | its image stands there in the finished file |
| McObject.FragmentStands | Reverse/client/docker/keystone/llvm/lib/MC/MCAssembler.cpp:651-659 | in the finished file the contents of each fragment stand at the start of the section plus the offset less the base |
| McBytes.KindsInFile | Reverse/client/docker/keystone/llvm/lib/MC/MCAssembler.cpp:496-604 | in the finished file, position by position: every byte of a fill or an `.org` is its byte, each unit of an alignment without nops reads back in the byte order of the backend as the value modulo 256^size, an alignment with nops is what the backend writes, the four bytes of a table entry read back as the index, and every other fragment stands there byte for byte |
| McBytes.PaddingInImage | Reverse/client/docker/keystone/llvm/lib/MC/MCAssembler.cpp:440-470 | in the image of a section the bytes before an instruction are nops of the backend, in two runs where they reach over a bundle boundary |
| McBytes.GapsAreZero | Reverse/client/docker/keystone/llvm/lib/MC/ELFObjectWriter.cpp:1118-1127 | between two sections there are zeros, fewer than the alignment; the file ends with the last section |
| McObject.Finish | Reverse/client/docker/keystone/llvm/lib/MC/MCAssembler.cpp:773-783 | from any file: relaxation ends with nothing left to relax, every fixup is applied with its value under that layout, and the file written holds every fragment so patched where the layout puts it; or a fixup cannot be applied and nothing is written, or a section cannot be written |
| McX86Fixup.X86ApplyFixup | Reverse/client/docker/keystone/llvm/lib/Target/X86/MCTargetDesc/X86AsmBackend.cpp:109-130 | byte by byte, the field becomes the value in little-endian order and nothing around it changes, unless it leaves the fragment or is out of range |
| McX86Fixup.FieldReadsBack | Reverse/client/docker/keystone/llvm/lib/Target/X86/MCTargetDesc/X86AsmBackend.cpp:116-129 | sign extension of the field gives back the value if and only if it fits the field as a signed number, for 1, 2, 4 and 8 bytes |
| McX86Fixup.AcceptedButMisread | Reverse/client/docker/keystone/llvm/lib/Target/X86/MCTargetDesc/X86AsmBackend.cpp:122-126 | a value the check lets through that is read back as another: 2^31 in four bytes |
| McX86Fixup.FieldKept | Reverse/client/docker/keystone/llvm/lib/MC/MCAssembler.cpp:757-766 | what a fixup puts into its field is there after all fixups, if no later one writes into it |
| McX86Fixup.FixupInFile | Reverse/client/docker/keystone/llvm/lib/MC/MCAssembler.cpp:738-783 | in the finished file the bytes a fixup names are its value under the final layout |
| McX86Fixup.JumpLands | Reverse/client/docker/keystone/llvm/lib/MC/MCAssembler.cpp:193-255 | the bytes stored for a pc-relative reference to a label of the section lead to that label, modulo 2^64, if and only if the distance fits the field as a signed number |
| McX86Fixup.ShortJumpInFile | Reverse/client/docker/keystone/llvm/lib/Target/X86/MCTargetDesc/X86AsmBackend.cpp:279-285 | a jump that does not need relaxing under the layout leads to its label from the byte standing at its field, once its fragment is patched and written where the layout puts it |
| McX86Object.FinishX86 | Reverse/client/docker/keystone/llvm/lib/MC/MCAssembler.cpp:692-783 | from any file for x86: once it is written, every jump that relaxation left in its short form leads to its label, from the byte of the file that stands at its field |
| McHeld.RebaseTwice | Reverse/client/docker/keystone/llvm/lib/MC/MCELFStreamer.cpp:82-86 | rebasing twice, with 32-bit wrap, is rebasing by the sum |
| McHeld.FixupNamesItsByte | Reverse/client/docker/keystone/llvm/lib/MC/MCELFStreamer.cpp:552-558 | a fixup names the byte of its instruction if and only if that byte lies below 2^32; its kind and value stay |
| McHeld.FixupWrapsAround | Reverse/client/docker/keystone/llvm/lib/MC/MCELFStreamer.cpp:552-558 | a fixup of an instruction at 2^32 names byte 0 |
| McHeld.MergePlaces | Reverse/client/docker/keystone/llvm/lib/MC/MCELFStreamer.cpp:54-78 | the padding written before a merged group places the group as its bundle asks |
| McHeld.MergeRefused | Reverse/client/docker/keystone/llvm/lib/MC/MCELFStreamer.cpp:54-78 | the padding is the least that places the group, or refused if a byte cannot hold it or the group is larger than a bundle |
| McHeld.LabelsOfNewFragment | Reverse/client/docker/keystone/llvm/lib/MC/MCELFStreamer.cpp:80-80 | labels waiting for a group that gets a fragment of its own name its first byte unless the group must end with its bundle and is smaller: then they name the padding |
| McHeld.LabelNamesPadding | Reverse/client/docker/keystone/llvm/lib/MC/MCELFStreamer.cpp:80-80 | a group of one byte, bundles of 16: the label names offset 0, the instruction stands at 15 |
| McStreamer.EncodedFragment.AppendInstruction | Reverse/client/docker/keystone/llvm/lib/MC/MCELFStreamer.cpp:552-558 | appends the bytes, the rebased fixups and nothing else; every earlier instruction stays where it was |
| McStreamer.MoveFixups | Reverse/client/docker/keystone/llvm/lib/MC/MCELFStreamer.cpp:82-86 | every fixup of the group is rebased by the end of the fragment |
| McStreamer.PadForMerge | Reverse/client/docker/keystone/llvm/lib/MC/MCELFStreamer.cpp:54-78 | the padding, with both fatal errors |
| McStreamer.AppendGroup | Reverse/client/docker/keystone/llvm/lib/MC/MCELFStreamer.cpp:82-88 | all instructions of the group follow at the end with their fixups, and the group is recorded where it stands |
| McStreamer.MCELFStreamer.FlushPendingLabels | Reverse/client/docker/keystone/llvm/lib/MC/MCObjectStreamer.cpp:42-56 | every waiting label is bound to the place given |
| McStreamer.MCELFStreamer.GetOrCreateDataFragment | Reverse/client/docker/keystone/llvm/lib/MC/MCObjectStreamer.cpp:105-115 | the last data fragment, or a new empty one where bundling forbids it; the others as they were |
| McStreamer.MCELFStreamer.MergeFragment | Reverse/client/docker/keystone/llvm/lib/MC/MCELFStreamer.cpp:50-89 | the fragment holds what it held, then the padding, then the group with its instructions; labels name the first byte of the group, and all fixups still name their bytes |
| McStreamer.MCELFStreamer.EmitInstToData | Reverse/client/docker/keystone/llvm/lib/MC/MCELFStreamer.cpp:478-566 | in every bundling and relaxation mode: what all fragments and the open group hold afterwards, byte by byte; exactly this instruction is added, last, behind the padding due and no other byte, and nothing else moves; where waiting labels go; fatal if and only if it cannot be merged |
| McStreamer.MCELFStreamer.InstructionNamed | Reverse/client/docker/keystone/llvm/lib/MC/MCELFStreamer.cpp:552-566 | the labels an instruction binds name its first byte, in every mode, and it is what the fragment ends with |
| McStreamer.MCELFStreamer.EmitInstToFragment | Reverse/client/docker/keystone/llvm/lib/MC/MCObjectStreamer.cpp:285-302 | a fragment of its own for the instruction, which waiting labels name |
| McStreamer.MCELFStreamer.EmitInstruction | Reverse/client/docker/keystone/llvm/lib/MC/MCObjectStreamer.cpp:245-283 | the instruction as given, or fully relaxed where the mode asks; the relaxation loop ends; what all fragments and the open group hold afterwards, where waiting labels go, and when it is fatal |
| McStreamer.RelaxedOut | Reverse/client/docker/keystone/llvm/lib/MC/MCObjectStreamer.cpp:272-283 | fully relaxed means relaxed in turn for as long as the instruction may need it, and no longer |
| McStreamer.MCELFStreamer.EmitLabel | Reverse/client/docker/keystone/llvm/lib/MC/MCObjectStreamer.cpp:172-188 | bound to the end of the data fragment, or kept waiting |
| McStreamer.MCELFStreamer.EmitBytes | Reverse/client/docker/keystone/llvm/lib/MC/MCObjectStreamer.cpp:428-434 | the bytes follow at the end of the data fragment, waiting labels name the first of them, and nothing else changes |
| McStreamer.MCELFStreamer.EmitBundleAlignMode | Reverse/client/docker/keystone/llvm/lib/MC/MCELFStreamer.cpp:568-576 | a power of two, never changed once set |
| McStreamer.MCELFStreamer.EmitBundleLock | Reverse/client/docker/keystone/llvm/lib/MC/MCELFStreamer.cpp:578-597 | nests, and never forgets align_to_end |
| McStreamer.MCELFStreamer.CloseGroup | Reverse/client/docker/keystone/llvm/lib/MC/MCELFStreamer.cpp:622-624 | the current data fragment, or a new one, holds what it held, the padding and the open group; labels name the place of the group; fatal if and only if it cannot be merged |
| McStreamer.MCELFStreamer.EmitBundleUnlock | Reverse/client/docker/keystone/llvm/lib/MC/MCELFStreamer.cpp:599-631 | the last lock merges the group and leaves the section unlocked; what all fragments hold after any unlock; where waiting labels go; all error exits, each if and only if |
| McStreamer.MCELFStreamer.GroupNamed | Reverse/client/docker/keystone/llvm/lib/MC/MCELFStreamer.cpp:80-80 | the group is what the fragment ends with, and labels bound by it name its first byte, but for the one case of `LabelsOfNewFragment` |
| McStreamer.MCELFStreamer.LabelBetween | Reverse/client/docker/keystone/llvm/lib/MC/MCObjectStreamer.cpp:172-188 | a label between two instructions of a group waits for the end of the group, and then names the first of them |
| McStreamer.MCELFStreamer.Run | Reverse/client/docker/keystone/llvm/lib/MC/MCELFStreamer.cpp:478-631 | over any run of directives every instruction given comes out once, in order and relaxed as the mode asks; no byte, instruction or group that is there moves; once bundling is on, every instruction stays part of a well-placed group |
| McHeld.NoInstructionCrosses | Reverse/client/docker/keystone/llvm/lib/MC/MCELFStreamer.cpp:54-78 | in the layout of a section no instruction of such a fragment crosses a bundle boundary, however large the fragment |
| McStreamer.MCELFStreamer.BundlesHold | Reverse/client/docker/keystone/llvm/lib/MC/MCAssembler.cpp:402-427 | so with every relaxation done and bundling on from the first instruction on, after any run, no instruction of the section laid out crosses one |
| McContext.DecimalInjective | Reverse/client/docker/keystone/llvm/lib/MC/MCContext.cpp:194-194 | different counters print differently |
| McContext.DecimalReads | Reverse/client/docker/keystone/llvm/lib/MC/MCContext.cpp:194-194 | a counter is printed in decimal digits, without a leading zero |
| McContext.FewNamesLeaveRoom | Reverse/client/docker/keystone/llvm/lib/MC/MCContext.cpp:191-205 | with fewer than 2^32 names in use a free one exists |
| McContext.FindName | Reverse/client/docker/keystone/llvm/lib/MC/MCContext.cpp:188-205 | the loop ends whenever a free name exists, with the first free one, the counter wrapping at 2^32 |
| McContext.MCContext.ClaimName | Reverse/client/docker/keystone/llvm/lib/MC/MCContext.cpp:188-201 | a name nobody used, then marked as used; other counters untouched |
| McContext.MCContext.CreateSymbol | Reverse/client/docker/keystone/llvm/lib/MC/MCContext.cpp:177-206 | different symbols keep different names; the symbol has the name asked for if and only if it was free and no suffix was demanded, else that name with the first free counter |
| McContext.MCContext.GetOrCreateSymbol | Reverse/client/docker/keystone/llvm/lib/MC/MCContext.cpp:110-121 | the symbol made at the first look-up; its own name if and only if that was free |
| McContext.MCContext.CreateTempSymbol | Reverse/client/docker/keystone/llvm/lib/MC/MCContext.cpp:208-213 | a fresh symbol with a name nobody used, the private prefix and the name asked for or that with a counter |
| McContext.MCContext.Run | Reverse/client/docker/keystone/llvm/lib/MC/MCContext.cpp:110-213 | over any run of look-ups and creations two results are the same symbol if and only if both steps look up the same name, and different symbols never share a name |
| McContext.LookupOfTakenName | Reverse/client/docker/keystone/llvm/lib/MC/MCContext.cpp:110-213 | a temporary symbol is named .L0, and the look-up of .L0 then gives a symbol named .L00 |
| SignInCipher.BlocksUndo | Reverse/client/server.c:11-38 | encryption and decryption undo each other in both directions, for every key and block |
| SignInWords.SumsMeetTheSentinelsLast | Reverse/client/server.c:224-306 | the sum is 0xC6EF3720 after 32 rounds and after no fewer, and is 0 again only then |
| SignInWords.AluArithmetic | Reverse/client/server.c:241-285 | the arithmetic of the listings, with the negated constant, is that of the C code modulo 2^32 |
| SignInServer.MyEncrypt | Reverse/client/server.c:11-23 | the eight bytes in place become the encrypted block, which is the one of `EncryptsNumbers`; nothing around them changes |
| SignInServer.MyDecrypt | Reverse/client/server.c:25-38 | the eight bytes in place become the decrypted block, which is the one of `DecryptsNumbers`, from the sum of 32 deltas down; nothing around them changes |
| SignInNumbers.SumsOfWords | Reverse/client/server.c:13-36 | sums and differences of words are those of the numbers modulo 2^32 |
| SignInNumbers.ShiftsOfWords | Reverse/client/server.c:17-35 | shifting left by 4 is times 16 modulo 2^32, right by 5 and 11 division by 32 and 2048, and the mask 3 the remainder by 4 |
| SignInNumbers.XorOfWords | Reverse/client/server.c:17-35 | the exclusive or of words is that of the numbers, binary digit by digit |
| SignInNumbers.BytesOfWords | Reverse/client/server.c:13-14 | four bytes are the little-endian number |
| SignInNumbers.EncryptsNumbers | Reverse/client/server.c:11-23 | encryption, on plain numbers: 32 rounds in integer arithmetic with the constant 0x9E3779B9, on the two little-endian numbers of the block and the four of the key |
| SignInNumbers.DecryptsNumbers | Reverse/client/server.c:25-38 | decryption gives the block that those rounds take to the one given |
| SignInListings.EncryptListingRuns | Reverse/client/server.c:224-263 | the listing, from first instruction to return, encrypts the block in memory as the C function does |
| SignInListings.DecryptListingRuns | Reverse/client/server.c:267-306 | the listing decrypts the block in memory as the C function does |
| SignInTheorem.EncryptListingIsMyEncrypt | Reverse/client/server.c:224-263 | on 32-bit words, for every block and key: it ends, returns, and changed memory exactly as `myencrypt` |
| SignInTheorem.DecryptListingIsMyDecrypt | Reverse/client/server.c:267-306 | on 32-bit words, for every block and key: it ends, returns, and changed memory exactly as `mydecrypt` |
| SignInCompare.CompareListingRuns | Reverse/client/server.c:162-169 | the repeated comparison sets AL to 1 if and only if all bytes agree |
| SignInCompare.ValidateListingRuns | Reverse/client/server.c:310-336 | two blocks encrypted, two decrypted, and compared |
| SignInValidators.ValidatorsAgree | Reverse/client/server.c:384-393 | the server's inverse transform of the answer is the data if and only if the client's transform of the data is the answer |
| SignInValidators.TransformAnswer | Reverse/client/server.c:386-389 | two blocks decrypted and two encrypted in place |
| SignInValidators.RunValidation | Reverse/client/server.c:376-393 | the verdict of the server's check |
| SignInTheorem.ClientAgreesWithServer | Reverse/client/server.c:310-393 | the client's machine code returns 1 if and only if the server's check accepts, for every data, answer and key |
| SignInAccepts.AcceptedNumbers | Reverse/client/server.c:376-393 | what the check accepts, on plain numbers: the rounds lead from the data to the first half of the answer, and from its second half to the data |
| SignInProtocol.Int32RoundTrip | Reverse/client/server.c:71-72 | a signed 32-bit integer survives the wire |
| SignInFrames.IntegerBytes | Reverse/client/server.c:71-72 | its four bytes are the number modulo 2^32, least significant first |
| SignInFrames.Frame | Reverse/client/server.c:61-128 | what a call puts on the wire, byte by byte: the buffer, the operation 0 to 3, the index, and for NEW the length and the code |
| SignInFrames.AcceptedExactly | Reverse/client/client.c:125-141 | the client accepts slots 0 to 499 and at most 255 bytes of code |
| SignInFrames.Effects | Reverse/client/client.c:125-153 | the client takes over the buffer; NEW puts its bytes at the start of the slot and leaves the rest of it, DEL fills it with 0xC3, and no other slot changes |
| SignInFrames.ExecEffect | Reverse/client/client.c:156-169 | EXEC runs what stands in the slot, with the buffer of the server |
| SignInProtocol.StepKeeps | Reverse/client/client.c:69-101 | every step of either side keeps the state of the call, or ends it with equal buffers and empty channels, or with the server back from a call the client broke off |
| SignInProtocol.CallGoesOn | Reverse/client/client.c:69-101 | no deadlock: until the call is over one of the two can go on, also when the client has quit |
| SignInProtocol.StepsRunOut | Reverse/client/client.c:69-101 | a call takes finitely many steps |
| SignInProtocol.NoReadAfterReply | Reverse/client/client.c:181-191 | a client that has replied finds nothing to read |
| SignInProtocol.CallOutcome | Reverse/client/server.c:97-128 | every complete run of a call ends within 13 steps, with equal buffers and empty channels if and only if the index is 0..499 and the length 0..255; otherwise, and only then, the client has quit and the server, unless a write to the closed connection ended it, is back with its own buffer |
| SignInProtocol.SlotOutOfRange | Reverse/client/client.c:125-141 | a call with index 500 ends that way |
| SignInProtocol.LockStep | Reverse/client/server.c:97-128 | over any sequence of calls, after each of them: both channels empty, equal buffers, the client's memory is the fold of the effects so far, and one reply was sent a call, the last one after EXIT included |
| SignInProtocol.SessionCutOff | Reverse/client/client.c:171-179 | the first refused call of a sequence ends it: the client quits with the effects so far, without a reply and without an effect of that call |
| BlowfishCipher.CryptBack | PPC/PEShellcode/solution/task_blowfish.cpp:152-189 | with the table reversed the cipher undoes itself, for any boxes |
| BlowfishCipher.WordsAreABlock | PPC/PEShellcode/solution/task_blowfish.cpp:152-209 | `Sub_Key_Encrypt` on two words is `Process_Block` on their big-endian bytes |
| BlowfishCipher.BytesBack | PPC/PEShellcode/solution/task_blowfish.cpp:86-150 | decryption restores data of any length, ragged tail included |
| BlowfishCipher.ScheduleOfPrefix | PPC/PEShellcode/solution/task_blowfish.cpp:43-81 | the tables depend on the first 72 bytes of the repeated key only |
| BlowfishCipher.DoubledKey | PPC/PEShellcode/solution/task_blowfish.cpp:43-81 | a key and the key written twice give the same tables |
| BlowfishEngineModule.BlowfishEngine.constructor | PPC/PEShellcode/solution/task_blowfish.cpp:17-22 | tables of the right sizes, and no key |
| BlowfishEngineModule.BlowfishEngine.SubKeyEncrypt | PPC/PEShellcode/solution/task_blowfish.cpp:191-209 | the unrolled rounds compute the cipher with the table as it is, which on 32-bit words is the one of `EncryptsNumbers` |
| BlowfishEngineModule.BlowfishEngine.ProcessBlock | PPC/PEShellcode/solution/task_blowfish.cpp:152-189 | the eight bytes become the cipher of the block, which on 32-bit words is the one of `EncryptsNumbers`, also in place |
| BlowfishEngineModule.BlowfishEngine.MixInKey | PPC/PEShellcode/solution/task_blowfish.cpp:43-56 | the cyclically repeated key goes into the first table |
| BlowfishEngineModule.BlowfishEngine.FillTables | PPC/PEShellcode/solution/task_blowfish.cpp:58-71 | the table read is the table overwritten, pair by pair, and the second one ends as its mirror |
| BlowfishEngineModule.BlowfishEngine.FillBoxes | PPC/PEShellcode/solution/task_blowfish.cpp:73-81 | the boxes are overwritten while they are used |
| BlowfishEngineModule.BlowfishEngine.SubmitKey | PPC/PEShellcode/solution/task_blowfish.cpp:30-84 | the tables of the key, the second one the first reversed; reset by no key or an empty one |
| BlowfishEngineModule.BlowfishEngine.CryptBuffer | PPC/PEShellcode/solution/task_blowfish.cpp:94-111 | full blocks go through the cipher, the tail is copied, the rest of the target stays; source and target may be one |
| BlowfishEngineModule.BlowfishEngine.Encrypt | PPC/PEShellcode/solution/task_blowfish.cpp:86-117 | keyed and unkeyed, in place or not, with the count returned |
| BlowfishEngineModule.BlowfishEngine.Decrypt | PPC/PEShellcode/solution/task_blowfish.cpp:119-150 | likewise, with the mirrored table |
| BlowfishEngineModule.BlowfishEngine.DecryptRestores | PPC/PEShellcode/solution/task_blowfish.cpp:86-150 | while keyed, decryption takes back what encryption did to any data, and the other way round |
| BlowfishWords.KeyedEngineRestores | PPC/PEShellcode/solution/task_blowfish.cpp:86-150 | on 32-bit words and the tables of the code, for every nonempty key |
| BlowfishNumbers.OperationsOnWords | PPC/PEShellcode/solution/task_blowfish.cpp:166-173 | a sum of words is that of the numbers modulo 2^32, an exclusive or that of their binary digits |
| BlowfishNumbers.BytesOfWord | PPC/PEShellcode/solution/task_blowfish.cpp:152-171 | byte i of a word is its number divided by 256^(3-i), modulo 256 |
| BlowfishNumbers.MixIs | PPC/PEShellcode/solution/task_blowfish.cpp:169-171 | the mixed word is, modulo 2^32, the sum of the entry of box 3 and the exclusive or of the entry of box 2 with the sum of the entries of boxes 0 and 1 |
| BlowfishNumbers.CryptIs | PPC/PEShellcode/solution/task_blowfish.cpp:166-209 | the rounds with the halves exchanged are the unrolled loop, on plain numbers |
| BlowfishNumbers.EncryptsNumbers | PPC/PEShellcode/solution/task_blowfish.cpp:86-189 | for data of any length and any tables: every full block comes out as the cipher, in integer arithmetic, on the two big-endian numbers in it; the tail is copied |
| BlowfishSchedule.ScheduleInNumbers | PPC/PEShellcode/solution/task_blowfish.cpp:43-81 | each pair of words that the tables of a key hold is the pair before it, encrypted with the tables as they were when only the pairs so far were written; the first one comes from two zeros, and the table starts from its constants with the big-endian words of the repeated key |
| BlowfishSchedule.OnlyTables | PPC/PEShellcode/solution/task_blowfish.cpp:43-81 | no other tables are linked this way |
| BlowfishSchedule.BoxEntries | PPC/PEShellcode/solution/task_blowfish.cpp:217-1022 | where each entry of the boxes stands among the constants |
| AesBytes.SubThenInv | Crypto/miaES/std.py:38-74 | the inverse table inverts the table |
| AesBytes.InvThenSub | Crypto/miaES/std.py:38-74 | and the table inverts the inverse table |
| AesBytes.XTimeLinear | Crypto/miaES/std.py:95-95 | doubling is linear; what it is, `Doubling` says |
| AesBytes.FieldLaws | Crypto/miaES/std.py:38-95 | bytes satisfy all laws the proofs rest on |
| AesField.Doubling | Crypto/miaES/std.py:95-95 | doubling is multiplication by x modulo x^8 + x^4 + x^3 + x + 1 |
| AesField.Ring | Crypto/miaES/std.py:95-95 | that product of bytes is commutative and associative, distributes over exclusive or, and has the unit 1 |
| AesField.OnlyInverse | Crypto/miaES/std.py:38-55 | a byte has at most one inverse under it |
| AesField.SubIsAffine | Crypto/miaES/std.py:38-55 | the substitution table holds the affine image of the inverse, and of 0 for 0 |
| AesField.MixIsMatrix | Crypto/miaES/std.py:98-105 | a mixed column is its product with the matrix 2 3 1 1 |
| AesField.ConstantsArePowers | Crypto/miaES/std.py:135-140 | the round constants from 1 to 31 are the powers of x |
| AesRounds.RoundIs | Crypto/miaES/std.py:210-214 | a round, byte by byte: a row of the matrix on four substituted bytes, each from its own column, and the key |
| AesRounds.StateIs | Crypto/miaES/std.py:201-219 | the ten rounds, byte by byte, with any eleven round keys |
| AesRounds.KeysAre | Crypto/miaES/std.py:129-173 | the round keys, byte by byte |
| AesRounds.Encrypts | Crypto/miaES/std.py:201-223 | what encryption makes of a block with a key of 16, 24 or 32 bytes: all of that in the field, with no table |
| AesCipher.MixBack | Crypto/miaES/std.py:98-123 | inverse column mixing takes mixing back, for any linear doubling |
| AesCipher.MixForth | Crypto/miaES/std.py:98-123 | and mixing takes inverse mixing back |
| AesCipher.ShiftBack | Crypto/miaES/std.py:82-92 | the two row shifts undo each other |
| AesCipher.ShiftsAreSwapped | Crypto/miaES/std.py:82-92 | rows move the way sections 5.1.2 and 5.3.1 of FIPS 197 give to the opposite operation |
| AesCipher.ShiftsDiffer | Crypto/miaES/std.py:82-92 | a shift is that of the standard if and only if rows 1 and 3 repeat after two columns |
| AesCipher.StateBack | Crypto/miaES/std.py:176-223 | decryption takes encryption back with any eleven round keys |
| AesCipher.BlockBack | Crypto/miaES/std.py:129-223 | and with the expanded key of 16, 24 or 32 bytes |
| AesMethods.ShiftRows | Crypto/miaES/std.py:82-85 | in place, byte j of column i becomes byte j of column i - j |
| AesMethods.InvShiftRows | Crypto/miaES/std.py:88-91 | in place, byte j of column i becomes byte j of column i + j |
| AesMethods.MixSingleColumn | Crypto/miaES/std.py:98-105 | in place, column by column; the saved first byte is the one used |
| AesMethods.MixColumns | Crypto/miaES/std.py:108-110 | in place, every column is mixed and none is touched twice |
| AesMethods.InvMixColumns | Crypto/miaES/std.py:113-123 | in place, every column is corrected first and then all are mixed: the inverse of mixing by `MixBack` and `MixForth` |
| AesMethods.ExpandKey | Crypto/miaES/std.py:129-173 | always eleven round keys, column by column as section 5.2 of FIPS 197 defines them |
| AesMethods.EncryptRounds | Crypto/miaES/std.py:210-215 | the loop over the matrices computes the nine middle rounds, whichever matrix is new and whichever is changed in place |
| AesMethods.DecryptRounds | Crypto/miaES/std.py:185-190 | the loop backwards over the round keys, starting from a matrix it shifts in place |
| AesMethods.Encrypt | Crypto/miaES/std.py:201-223 | expanding the key and running ten rounds on matrices is the cipher of `AesRounds.Encrypts`, which `BlockBack` inverts |
| AesMethods.Decrypt | Crypto/miaES/std.py:176-198 | likewise for the rounds run backwards, which invert it |
| AesStream.BlockOfBytesBack | Crypto/miaES/std.py:129-223 | for every 16-byte block and key of 16, 24 or 32 bytes, `decrypt` inverts `encrypt` |
| AesStream.StreamedAt | Crypto/miaES/std.py:233-252 | byte j meets byte j mod 16 of the j / 16 + 1 times encrypted iv, as in section 6.4 of NIST SP 800-38A |
| AesStream.BlockAt | Crypto/miaES/std.py:233-252 | byte i of block q, for a text of any length: a last block of n bytes meets the stream with byte i mod n |
| AesStream.StreamedTwice | Crypto/miaES/std.py:233-252 | the mode undoes itself on whole blocks |
| AesStream.RaggedText | Crypto/miaES/std.py:245-252 | a ragged ciphertext comes out rounded up to whole blocks |
| AesStream.OneByteComesOutAsSixteen | Crypto/miaES/std.py:245-252 | a ciphertext of one byte comes out as sixteen |
| AesStream.UnpadPadded | Crypto/miaES/std.py:226-237 | unpadding takes padding back, for every length |
| AesStream.PaddedAt | Crypto/miaES/std.py:236-237 | the text, then zeros, then how many bytes were added: 1 to 16 |
| AesStream.UnpadDrops | Crypto/miaES/std.py:226-230 | what unpadding leaves, for any text: as many bytes less as the last one says, none if that is 0 or more than there are |
| AesStream.MessageBack | Crypto/miaES/std.py:226-252 | the message comes back for every length and iv and any block function |
| AesStream.RunStream | Crypto/miaES/std.py:238-243 | the loop computes the mode, for any length |
| AesStream.ThereAndBack | Crypto/miaES/std.py:226-252 | the two methods and `unpad`, one after the other, return the message |
| Knapsack.BinBack | Crypto/lattice/task.py:30-35 | reading the binary text of a number gives the number |
| Knapsack.ParsesAs | Crypto/lattice/task.py:35-35 | a text is read if and only if it is a nonempty string of bits, and then as the sum of its digits times powers of two |
| Knapsack.BinIs | Crypto/lattice/task.py:30-30 | the text of a number is binary, has its value, and no leading zero |
| Knapsack.PowersOfFour | Crypto/lattice/task.py:8-12 | the bounds of the draws are powers of four |
| Knapsack.OneMoreDigit | Crypto/lattice/task.py:24-30 | a digit more adds its key as often as the digit says |
| Knapsack.InvertIsInverse | Crypto/lattice/task.py:34-34 | an inverse is found if and only if one exists |
| Knapsack.SumStaysBelow | Crypto/lattice/task.py:8-12 | the running sum stays below 4^(n+i) |
| Knapsack.DrawPrivateKey | Crypto/lattice/task.py:8-12 | every range drawn from is nonempty; element i lies between the running sum and 4^(n+i) |
| Knapsack.GenKey | Crypto/lattice/task.py:7-21 | every possible result is a key of this shape, and superincreasing |
| Knapsack.Encrypt | Crypto/lattice/task.py:24-30 | the weighted sum in binary, and which error comes first |
| Knapsack.Decrypt | Crypto/lattice/task.py:33-44 | the greedy loop, with both error exits |
| Knapsack.GreedyFinds | Crypto/lattice/task.py:38-43 | the greedy choice recovers the subset of a superincreasing key |
| Knapsack.GreedyTakesAtMost | Crypto/lattice/task.py:38-43 | for any key, what it takes never exceeds the number |
| Knapsack.Unmasked | Crypto/lattice/task.py:20-35 | multiplying by the inverse lays the private sum modulo q bare |
| Knapsack.MessageBack | Crypto/lattice/task.py:24-44 | a message comes back if and only if its private subset sum is below q; a short one with zeros after it |
| Knapsack.EveryMessageBack | Crypto/lattice/task.py:7-44 | a key serves every message if and only if q exceeds the private key sum |
| Knapsack.SomeKeyLosesAMessage | Crypto/lattice/task.py:14-14 | a key the generator can return that turns 11 into 00 |
| Crc32.TableEntry | Reverse/segments/segments.c:8-42 | each of the 256 table entries is its index divided bit by bit by 0xEDB88320 |
| Crc32.LookupStep | Reverse/segments/segments.c:51-51 | one lookup is eight bits of the division |
| Crc32.Func2 | Reverse/segments/segments.c:6-54 | the loop computes the bit-at-a-time checksum of every byte string |
| Crc32.CrcAffine | Reverse/segments/segments.c:6-54 | for strings of equal length the checksum of their exclusive or is the exclusive or of their checksums |

## Left out

- 64-bit wrap-around of fragment offsets and sizes: offsets are unbounded, and 2^64 - 1 means "not laid out".
- 32-bit wrap-around of an alignment size while it grows: a growth that would never end is a fragment without a size.
- `.org` to a later label or to another section, which would make the offset computation recurse.
- LEB fragments: relaxing them can shrink as well as grow, so no rank covers them.
- Expression evaluation and parsing: a fixup holds its relocatable value, a variable its constant and labels.
- What the object writer records of a relocation: `recordRelocation` is the function that adjusts the value (MCAssembler.cpp:683-684). On x86 the width of a field is a function of the fixup kind.
- McX86Fixup.X86ApplyFixup: adds the offset and the size of a field without 32-bit wrap-around.
- McX86Fixup.FixupInFile: says nothing of a field that a later fixup of the fragment writes into.
- Virtual sections, their order in the layout, and the object file past line 1159 of ELFObjectWriter.cpp, which is not reached.
- The weak-symbol and section rules of the object writer: `isWeak` is a function of the symbol.
- The map from sections to last valid fragments: it is a field of each section.
- McAssembler.MCAssembler.EvaluateFixup: says nothing of the value where the code reads a variable it has not set; any value may come out there.
- McAssembler.MCAssembler.Layout: the conclusions about the final layout hold for files whose instructions fit their bundles, also after relaxing; with bundling off that is every file. Without it, fragments may be marked valid without their padding.
- McBundle.PaddingIsLeast: fragments of 1 byte up to the bundle size, as an empty fragment needs no place.
- McPlaces.AfterAlign: alignments are powers of two up to 2^32, as an unsigned 32-bit one that is a power of two is.
- McBytes.PaddingInImage: sections whose instructions fit their bundles; with bundling off that is every section.
- McShift.LayoutMoved: alignments are powers of two up to 2^32, and an `.org` counts from a label: one to a constant stays where it is. So it is for the results built on it.
- McBothBases.SameFromTheStart: files without `.org`, whose layout may stop at one that would go back, and nops of one byte, as they are here.
- The streamer works on one section: no section switching, data with expressions, TLS marking or encoder errors.
- McStreamer.MCELFStreamer.EmitBundleAlignMode: powers up to 30, as the code asserts.
- Symbols of sections, which share names on purpose.
- McContext.MCContext.Run: at most 2^32 names in all, so that a free one exists; `FindName` ends exactly when one does.
- Sockets, short reads and writes: a read waits for all its bytes or finds the connection closed; a write to a closed connection goes unread or ends the server.
- Assembling the listings, their bytes in the slots, and self-modification: the machine runs instructions, kept apart from memory.
- The built-in slots 400 and 402, the input and output of slots 10 and 14, and the files behind the flag.
- What EXEC does is a parameter of the protocol that keeps the shape of the client's memory.
- Blowfish: buffers that overlap in part, negative lengths, and the reset in the destructor; `unsigned long` has 32 bits, as on Windows.
- AES: other sizes of key, block or iv than the script allows; the loops of `xor_key_list` change only their own variable.
- AesMethods.ExpandKey: no claim that ten rounds suit longer keys.
- Knapsack: the loop that draws r until it is coprime to q ends with probability 1 only, and is one draw; digits and numbers are read without the signs, spaces and underscores Python also takes.
- The remaining challenges of the repository: network clients, library calls and easy arithmetic.
