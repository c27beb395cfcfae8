# OpenSSH as a library: a verified model

The repository is OpenSSH 6.2 on its way to becoming a library. This project models the parts of it
whose correctness spans many functions, many messages or whole runs, and proves what they are for.

* **Buffers** (`Wire`, `WireStrings`): the encodings of section 5 of RFC 4251 as `sshbuf` writes and
  reads them, with its size limits.
* **Key revocation lists** (`SerialTree`, `KrlParse`, `KrlGenerate`, `KrlBlob`, `KrlIndex`,
  `KrlRoundTrip`): the tree of coalesced serial ranges, the encoder that picks list, range or bitmap
  sections, the parser, the index that answers queries, and all of it put together.
* **Channels** (`Channel`, `ChannelPair`): the flow control of section 5.2 of RFC 4254 as two ends that
  exchange messages, over every interleaving of their handlers.
* **The CRC compensation detector** (`Crc32`, `Deattack`, `DeattackPacket`): the table-driven CRC against division bit by
  bit, and the hash-table scan against the pairwise one.
* **Two-party agreement** (`Congruence`, `ModExp`, `Schnorr`, `Jpake`, `KexNegotiate`, `KexDerive`,
  `KexExchange`): J-PAKE with its Schnorr proofs, and the SSH2 key exchange of sections 7 and 8 of RFC 4253 from KEXINIT
  to NEWKEYS, with rekeying.
* **Authentication with several methods** (`Auth2Lists`, `Auth2`, `Auth2Fatal`): the AuthenticationMethods
  lists and the state machine around them.
* **Smaller cores**: wildcard patterns and name lists (`Match`), certificates (`Cert`, `CertNumbers`), the
  choice of a Diffie-Hellman group (`DhChoose`), and complete transfers from short ones (`Atomicio`).

Code that the source runs in place or in loops is a class or a method here, proved against a function of
its inputs or of the old state; what the source promises is then proved of that function, mostly as
lemmas over all inputs, all runs or all reachable states. `dafny verify dfyconfig.toml` checks everything.

## Where the code does less than it seems to promise

Each of these is proved, with the exact condition under which the code does meet the promise.

* A number of exactly 8192 bits can be written but not read (`Wire.BignumRoundTrip`).
* A revocation list cannot be read back, although writing it succeeds, when its serials need two range
  sections in a row or a bitmap of exactly 8192 bits, or when it has two CAs (`KrlBlob.LostSerials`,
  `KrlBlob.LostCa`). With a longer bitmap writing fails. A bitmap gap above INT_MAX ends the writer early,
  which counts as success: a list of 34087044 pairs of serials is written and read without an error and
  then revokes nothing (`KrlGenerate.PairsFate`, `KrlRoundTrip.SilentLoss`). Writing succeeds exactly as
  `KrlGenerate.RevokedCertsGenerate` and `KrlBlob.ToBlob` say, and the list that is read answers like the
  one in memory exactly when there is at most one CA, whose serials are representable
  (`KrlBlob.BlobRoundTrip`, `KrlRoundTrip.RoundTrip`).
* Extended data that a channel has no use for is dropped, and buffered data is thrown away when a write
  fails, without giving the window back; either can stall the direction for good
  (`ChannelPair.LeakDeadlocks`, `ChannelPair.ResetDeadlocks`). A stalled direction moves again exactly when
  enough of the window is left (`ChannelPair.StalledMovesIff`).
* A pattern that ends in two asterisks wants one more character than its meaning says
  (`Match.CompleteIff`).
* `match_list` reports the position after the first item when the match is the last of several items
  (`Match.NextIsAfterChosen`).
* An AuthenticationMethods element such as `publickey:x` passes validation and makes the server die when
  the method succeeds (`Auth2.SubmethodDies`). For one list some run ends so exactly when such an element
  comes after elements that can be passed, with `none` named at most once up to it
  (`Auth2Fatal.FatalRunExists`); without such elements none does, whatever the lists (`Auth2.NeverFatal`).
* `sshkey_certify` reports success with an unfinished certificate exactly when an RSA modulus has more than
  8192 bits and the exponent has not (`Cert.Certify`).
* `sshkey_from_blob` does not notice numbers that are missing: after the name of an RSA or DSA key it
  accepts exactly the blobs of at most as many numbers as the key has, and reads the others as zero
  (`CertNumbers.PlainNumbers`, `CertNumbers.TruncatedBlob`); in a certificate the fields are then read from
  where the numbers end (`CertNumbers.CertNumbers`), which in version 01 the serial number decides
  (`CertNumbers.SerialEndsNumbers`, `CertNumbers.ShortCertExists`).
* The detector of CRC compensation attacks overlooks a passing block after 32 other repeats; it then
  reports too many repeats (`Deattack.ScanVerdict`, with such packets in `DeattackPacket.DetectOverlooks`).
* `choose_dh` passes over a prime of exactly the wanted size when a larger one comes before it
  (`DhChoose.WantedIsChosenIff`, `DhChoose.WantedIsPassedOver`).
* `atomiciov6` stops at once when its first entry is empty (`Atomicio.Atomiciov`).

## Model

| member | source | states |
|---|---|---|
| Wire.BigEndianRoundTrip | ssh/sshbuf-getput-basic.c:279-300 | big-endian bytes of a number that fits give the number back |
| Wire.U32RoundTrip | ssh/sshbuf-getput-basic.c:54-64 | a 32-bit word is read back and what follows is left |
| Wire.U64RoundTrip | ssh/sshbuf-getput-basic.c:41-51 | a 64-bit word is read back and what follows is left |
| Wire.StringRoundTrip | ssh/sshbuf-getput-basic.c:327-341 | a length-prefixed string is read back and what follows is left |
| Wire.CStringRoundTrip | ssh/sshbuf-getput-basic.c:160-193 | a string without NUL is read back as a C string |
| Wire.BignumRoundTrip | ssh/sshbuf-getput-crypto.c:149-168 | every number that can be written is read back, except exactly those of 8192 bits |
| Wire.BignumBodyLength | ssh/sshbuf-getput-crypto.c:159-162 | a zero byte is prefixed exactly when the top bit of the first byte is set |
| WireStrings.PutStrings | ssh/key.c:2073-2077 | putting strings one after another yields their concatenated encodings, or fails exactly when they do not fit |
| WireStrings.StringsInjective | ssh/sshbuf-getput-basic.c:327-341 | lists of as many strings with equal encodings are equal |
| SerialTree.FindFindsOverlap | ssh/krl.c:101-107 | although overlap counts as equality, search in any tree of disjoint ranges finds an overlapping node exactly when one exists |
| SerialTree.NFindSpec | ssh/krl.c:243-246 | RB_NFIND returns an overlapping range or the first range above the key, for every tree shape |
| SerialTree.NFindClear | ssh/krl.c:245-247 | when the node found does not compare equal, nothing in the tree overlaps |
| SerialTree.InsertPosSpec | ssh/krl.c:247-258 | a range that overlaps nothing is inserted between its neighbours |
| SerialTree.InsertRangeSpec | ssh/krl.c:236-307 | the new range list is canonical and denotes the old set together with lo..hi |
| SerialTree.CanonicalUnique | ssh/krl.c:236-307 | a set of serials has exactly one sorted, disjoint, non-adjacent range list |
| SerialTree.RevokedSerials.Insert | ssh/krl.c:236-307 | insertion into a tree of any shape yields the canonical list of the old set united with lo..hi, edges 0 and 2^64-1 included |
| SerialTree.RevokedSerials.Place | ssh/krl.c:243-270 | adding a node or growing the overlapping one covers exactly the old ranges and lo..hi |
| SerialTree.RevokedSerials.CoalescePredecessors | ssh/krl.c:277-290 | predecessors that overlap or abut are merged and the rest lie below with a gap |
| SerialTree.RevokedSerials.CoalesceSuccessors | ssh/krl.c:291-304 | successors that overlap or abut are merged and the rest lie above with a gap |
| KrlParse.ParseListLoop | ssh/krl.c:783-791 | the loop over a serial list computes its meaning |
| KrlParse.ParseBitsLoop | ssh/krl.c:813-824 | the loop over a bitmap revokes the serials of its set bits |
| KrlParse.ParseKeyIdsLoop | ssh/krl.c:828-839 | the loop over key IDs adds each of them |
| KrlParse.ParseRevokedCerts | ssh/krl.c:756-860 | parsing a certificate section computes the function ParseCerts, errors included |
| KrlParse.ParseEncoded | ssh/krl.c:775-850 | reading encoded sections is applying them one by one, whatever follows |
| KrlParse.ParseListBody | ssh/krl.c:783-791 | the list of the serials of ranges is read back as those ranges |
| KrlParse.ParseBitsSpec | ssh/krl.c:813-824 | a bitmap denotes exactly the serials whose bits are set, and fails only for serial 0 or beyond 2^64-1 |
| KrlParse.ParseKeyIdBody | ssh/krl.c:828-839 | written key IDs are read back as the set of them |
| KrlGenerate.ChoiceBounds | ssh/krl.c:422-496 | a list run holds at most 2 serials and a bitmap run at most 208 |
| KrlGenerate.AppendRun | ssh/krl.c:587-613 | a run goes into the open section as list entries, a range or bits of the bitmap, and this fails exactly when the section would not fit or a bit is beyond INT_MAX |
| KrlGenerate.FlushSection | ssh/krl.c:549-562 | the finished section is appended, or the put fails exactly when the bitmap has more than 8192 bits or the buffer is full |
| KrlGenerate.CloseSection | ssh/krl.c:542-563 | the open section is finished before the next run exactly when the choice says so, and this fails exactly when it cannot be put |
| KrlGenerate.WriteRange | ssh/krl.c:525-615 | one iteration gives up, fails or goes on, each exactly under its condition, and goes on with the sections and the open section of the specification |
| KrlGenerate.WriteRanges | ssh/krl.c:524-615 | so does the whole loop, for every mix of lists, ranges and bitmaps |
| KrlGenerate.GenerateSerials | ssh/krl.c:524-632 | writing succeeds exactly when every finished bitmap has at most 8192 bits, no bit is beyond INT_MAX and the output fits, and writes exactly the sections of the specification |
| KrlGenerate.GenerateStrings | ssh/krl.c:635-646 | a section of strings holds them in order, and fails exactly when it does not fit |
| KrlGenerate.SucceedsIff | ssh/krl.c:524-632 | the conditions of all iterations together are: small bitmaps, and output that fits |
| KrlGenerate.EmitBits | ssh/krl.c:600-611 | a bitmap has as many bits as the serials it spans, so that it can be put exactly below 8193 |
| KrlGenerate.SerialsDenote | ssh/krl.c:524-632 | the sections of the serials denote them, or are refused, or when the writer gave up denote only ranges from the start |
| KrlGenerate.RevokedCertsGenerate | ssh/krl.c:500-654 | it succeeds exactly when CA blob, serials and key IDs fit, and appends exactly the section of the specification |
| KrlGenerate.CertSectionsDenote | ssh/krl.c:500-654 | what is written denotes the same serials and key IDs if and only if no range section follows another and every bitmap stays below 8192 bits; otherwise it is refused, or cut short where the writer gave up |
| KrlGenerate.ParseGenerated | ssh/krl.c:756-860 | the parser reads the generated section as the application of its subsections |
| KrlGenerate.HeaderIsNoSection | ssh/krl.c:685-692 | the header of another CA is never taken for a subsection |
| KrlGenerate.TwoRangesAreLost | ssh/krl.c:542-570 | two long runs far apart are written to the end as two range sections, with success, and are not representable |
| KrlGenerate.PairsFate | ssh/krl.c:524-632 | pairs of serials at a distance of 63: up to 130 are read back, 131 are written and refused when read, more fail to be written, and from 34087044 on the writer reports success with nothing written |
| KrlGenerate.WideBitmapIsLost | ssh/krl.c:549-562 | so is a set of serials that becomes a bitmap of exactly 8192 bits |
| KrlBlob.ReadBlob | ssh/krl.c:865-1070 | reading header and sections is loading the sections one by one |
| KrlBlob.TwoCas | ssh/krl.c:685-692 | a certificate section that goes on with a second CA is refused |
| KrlBlob.OneCa | ssh/krl.c:685-692 | the section of one CA is read back as itself exactly when its serials are representable, and otherwise refused or cut short |
| KrlBlob.WriteCerts | ssh/krl.c:685-692 | writing the certificate sections succeeds exactly when each CA fits and all of them do, with exactly the sections of the specification |
| KrlBlob.CaSectionsRead | ssh/krl.c:685-692 | the certificate sections are read back as written exactly for at most one CA with representable serials |
| KrlBlob.WriteStrings | ssh/krl.c:694-717 | explicit keys and key hashes are appended, or do not fit |
| KrlBlob.BlobSectionRead | ssh/krl.c:694-717 | they are read back as the sets of them |
| KrlBlob.ToBlob | ssh/krl.c:656-742 | an unsigned list is written exactly when all parts and the whole fit, as exactly the blob of the specification |
| KrlBlob.BlobRoundTrip | ssh/krl.c:656-1070 | a list that is written is read back as itself if and only if it has at most one CA, whose serials are representable; otherwise it is refused or its serials are cut short, with everything else intact |
| KrlBlob.RefusedAreLost | ssh/krl.c:656-1070 | every list of one CA whose serials fit without being representable, and are written to the end, is written with success and refused when read |
| KrlBlob.LostSerials | ssh/krl.c:656-1070 | two range sections in a row and a bitmap of 8192 bits are such serials |
| KrlBlob.UnwrittenAreLost | ssh/krl.c:600-604 | serials for which the writer gives up before its first section are lost in silence: the list is written and read, and says nothing of them |
| KrlBlob.LostCa | ssh/krl.c:685-692 | any list of two CAs with one serial each is written with success and refused when read |
| KrlIndex.BlobCmpOrder | ssh/krl.c:115-126 | blob_cmp tells all blobs apart and is antisymmetric |
| KrlIndex.BlobCmpIsBefore | ssh/krl.c:115-126 | it is the dictionary order of byte strings |
| KrlIndex.BlobCmpTransitive | ssh/krl.c:115-126 | and transitive, so a strict total order |
| KrlIndex.HasBlobFindsMember | ssh/krl.c:115-126 | search in any ordered tree of blobs finds exactly its members |
| KrlIndex.InsertBlobKeepsOrder | ssh/krl.c:353-374 | RB_INSERT keeps the tree ordered and adds exactly the blob |
| KrlIndex.RotationsKeepOrder | ssh/krl.c:353-374 | so do the rotations of its rebalancing, with the members unchanged |
| KrlIndex.ApplyDenotes | ssh/krl.c:310-396 | each revocation adds exactly what it revokes |
| KrlIndex.RunDenotes | ssh/krl.c:310-413 | after any sequence of revocations the index denotes exactly the revoked keys |
| KrlIndex.RunStored | ssh/krl.c:310-350 | under every CA of the index something is revoked, its ranges are canonical and serial 0 is never among them |
| KrlIndex.ApplyHolds | ssh/krl.c:310-396 | every revocation, with RB_INSERT into the trees of blobs and key IDs, leaves ordered trees that hold exactly the new index |
| KrlIndex.SearchDenotes | ssh/krl.c:1073-1140 | is_key_revoked finds exactly what the index denotes, in trees of any shape |
| KrlIndex.CheckKeyCorrect | ssh/krl.c:1142-1157 | a key is reported revoked if and only if some revocation covers it or the CA key of its certificate |
| KrlIndex.RevokeKeyIsReported | ssh/krl.c:398-413 | a key once revoked is reported, whatever is revoked before or after |
| KrlRoundTrip.RunIsValid | ssh/krl.c:310-413 | whatever was revoked, the list in memory is one that the writer expects |
| KrlRoundTrip.RoundTrip | ssh/krl.c:310-1070 | after any revocations, the list that is written and read says the same of every key if and only if it has at most one CA, whose serials are representable; otherwise it is refused, or misses every certificate with some serial that was revoked, unless its key or hash is itself listed |
| KrlRoundTrip.SilentLoss | ssh/krl.c:310-1070 | that second case happens: so many pairs of serials are revoked, written and read without an error, and what is read revokes nothing |
| KrlRoundTrip.ChecksAgree | ssh/krl.c:1142-1157 | then ssh_krl_check_key on the list that was read reports exactly what was revoked, in trees of any shape |
| Channel.ChannelObject.HandleWfd | ssh/channels.c:1721-1808 | written bytes leave the output buffer and are counted as consumed, so that window, consumed and buffered bytes keep their sum; a failed write empties and closes the output end |
| Channel.ChannelObject.HandleEfd | ssh/channels.c:1810-1862 | the extended descriptor is written, read, ignored or closed, with the sum of window, consumed and buffered bytes kept |
| Channel.ChannelObject.CheckWindowInPlace | ssh/channels.c:1865-1890 | consumed bytes are given back in one adjust exactly when the window is low, with the sum kept |
| Channel.ChannelObject.PollInputInPlace | ssh/channels.c:2282-2357 | at most window and packet size bytes are sent, or end of file once drained; what leaves the buffer is what the remote window shrinks by |
| Channel.PollInputKeeps | ssh/channels.c:2282-2357 | what is sent leaves the buffer, the remote window shrinks by as much, and window, consumed and buffered bytes keep their sum |
| Channel.ChannelObject.PollExtendedInPlace | ssh/channels.c:2358-2382 | extended data is sent within window and packet size and never after end of file; what leaves the buffer is what the remote window shrinks by |
| Channel.ChannelObject.OutputPollInPlace | ssh/channels.c:2248-2385 | both polls for an open channel that is not closing, with the same accounts |
| Channel.OutputPollKeeps | ssh/channels.c:2248-2385 | so it is for both polls together |
| Channel.ChannelObject.InputDataInPlace | ssh/channels.c:2391-2459 | data takes window and goes to the output buffer, or counts as consumed when the output end is closed, with the sum kept |
| Channel.ChannelObject.InputExtendedDataInPlace | ssh/channels.c:2462-2512 | extended data takes window, or is dropped without touching it, with the sum kept |
| Channel.ChannelObject.InputWindowAdjustInPlace | ssh/channels.c:2722-2746 | an adjust widens the remote window modulo 2^32 |
| Channel.ChannelObject.InputEofInPlace | ssh/channels.c:2515-2539 | end of file lets the output drain and then closes it |
| ChannelPair.RunKeepsInv | ssh/channels.c:1677-1890 | every interleaving of handlers at both ends keeps the invariant in both directions |
| ChannelPair.WindowConservation | ssh/channels.c:1865-1890 | in every run the receiver's window is the sender's plus data and adjusts in flight plus dropped data, and window, consumed and buffered bytes add up to the maximum |
| ChannelPair.NothingWraps | ssh/channels.c:2423-2459 | no window arithmetic wraps and no message exceeds the window, so the branch for too much data is never taken |
| ChannelPair.StreamIntegrity | ssh/channels.c:1677-1808 | bytes read at one end are the bytes written at the other, then buffered, in flight and unsent bytes, in order |
| ChannelPair.DeliveredAtEof | ssh/nchan.c:215-235 | an output end that closed after end of file has delivered everything |
| ChannelPair.NothingAfterEof | ssh/channels.c:2462-2512 | no data follows an end of file |
| ChannelPair.PacketsFit | ssh/channels.c:2282-2382 | in every run no message carries more than the packet size its receiver offered |
| ChannelPair.NoDeadlock | ssh/channels.c:1865-1890 | a direction without window and with nothing in flight can write or sends an adjust, if no window was lost |
| ChannelPair.StalledMovesIff | ssh/channels.c:1865-1890 | a stalled direction moves again if and only if enough of its window was not lost |
| ChannelPair.LeakDeadlocks | ssh/channels.c:2462-2512 | a run in which dropped extended data leaves a direction dead |
| ChannelPair.ResetDeadlocks | ssh/channels.c:1768-1786 | a run in which a failed write leaves a direction dead |
| Crc32.TableIsShift8 | ssh/crc32.c:30-95 | every table entry is eight steps of division by the reflected polynomial 0xEDB88320 |
| Crc32.SshCrc32 | ssh/crc32.c:97-106 | the table loop computes the remainder of the division bit by bit, from zero and without complement |
| Crc32.StepDivides | ssh/crc32.c:97-106 | one table step is eight steps of the division |
| Crc32.DivideLinear | ssh/crc32.c:97-106 | the CRC of the exclusive or of buffers of one length is the exclusive or of their CRCs |
| Crc32.Shift8Zero | ssh/crc32.c:97-106 | the division never turns a nonzero remainder into zero |
| Deattack.UpdateIsShift32 | ssh/deattack.c:69-74 | crc_update is 32 steps of the division of the whole word |
| Deattack.UpdateLinear | ssh/deattack.c:69-74 | crc_update is linear in both arguments |
| Deattack.CheckCrcLoop | ssh/deattack.c:76-94 | check_crc is a function of the positions of the block alone |
| Deattack.MaskCrcLinear | ssh/deattack.c:76-94 | and linear in them |
| Deattack.LoneBlockFails | ssh/deattack.c:76-94 | a block that occurs once never passes |
| Deattack.AttackIffSomeBlockPasses | ssh/deattack.c:131-143 | looking only at repeated blocks misses nothing: a packet is reported exactly when some block passes |
| Deattack.Earlier | ssh/deattack.c:133-140 | the inner pairwise loop finds an earlier equal block exactly when there is one |
| Deattack.PairwiseScan | ssh/deattack.c:131-143 | short packets are reported exactly when a repeated block passes |
| Deattack.ChainEnds | ssh/deattack.c:147-157 | a free slot always remains, so no probe goes all the way round |
| Deattack.NoRepeat | ssh/deattack.c:147-157 | reaching a free slot means that no earlier block is equal |
| Deattack.Probe | ssh/deattack.c:147-157 | the probe loop ends, on an equal block if there is one and on a free slot otherwise |
| Deattack.Store | ssh/deattack.c:158 | storing the index keeps every earlier block findable and every index below the unused mark |
| Deattack.HashScan | ssh/deattack.c:144-160 | the whole scan computes its specification Scan |
| Deattack.ScanVerdict | ssh/deattack.c:144-160 | for every packet: an attack exactly when one of the first 32 repeats passes, otherwise too many repeats exactly when there are more than 32 |
| DeattackPacket.AttackIsOverlooked | ssh/deattack.c:144-160 | for any three blocks a packet that holds a passing repeat, for which the scan reports too many repeats instead |
| DeattackPacket.OnlyBPasses | ssh/deattack.c:76-94 | a block at the coefficients of the polynomial passes check_crc, and one at 33 positions in a row does not |
| DeattackPacket.DetectOverlooks | ssh/deattack.c:104-161 | so does detect_attack on its bytes |
| Deattack.ScanRefinesPairwise | ssh/deattack.c:131-160 | with at most 32 repeats the hash-table scan reports exactly what the pairwise comparison does |
| Deattack.DeattackCtx.constructor | ssh/deattack.c:96-101 | no table yet, 4096 entries to begin with |
| Deattack.DeattackCtx.Grow | ssh/deattack.c:113-129 | the table has 4096, 16384 or 65536 entries, at least 3/2 of the blocks, and shrinks never |
| Deattack.DeattackCtx.DetectAttack | ssh/deattack.c:104-161 | the verdict depends on the packet alone, or is an error when an allocation that is needed fails |
| ModExp.ExponentsModQ | ssh/jpake.c:281-312 | exponents count modulo the order of the base |
| ModExp.IsUnique | ssh/jpake.c:281-312 | a reduced power is determined by its exponent modulo the order |
| Schnorr.SignedVerifies | ssh/schnorr.c:123-398 | for every generator of order q, signing succeeds exactly for a public value above 1, and the proof made is accepted |
| Schnorr.Equation | ssh/schnorr.c:181-190 | g^r * (g^x)^h is g^v despite the reductions modulo q |
| Schnorr.Verify | ssh/schnorr.c:258-398 | an accepted public value lies strictly between 1 and p and in the subgroup of order q |
| Jpake.SameGenerator | ssh/jpake.c:374-386 | a step-2 proof is checked with the generator it was made with |
| Jpake.SecondIsPower | ssh/jpake.c:281-305 | the step-2 value is g^((x1+x3+x4)*x2*s) although the exponent is reduced |
| Jpake.KeyIsPower | ssh/jpake.c:388-411 | raising to q - x*s takes the x2*x4*s away |
| Jpake.Step1Succeeds | ssh/jpake.c:189-239 | step 1 succeeds exactly when neither public value is 1, with proofs that verify |
| Jpake.Step2Succeeds | ssh/jpake.c:242-318 | step 2 on an honest message succeeds exactly when its value is not 1, with a proof that verifies |
| Jpake.KeyConfirmSucceeds | ssh/jpake.c:348-416 | key confirmation on honest messages yields the key and its confirmation hash |
| Jpake.Agreement | ssh/jpake.c:189-451 | for all private values, secrets and random exponents the run completes exactly when none of the six values sent is 1, and then both sides hold g^((x1+x3)*x2*x4*s) mod p and accept each other |
| Jpake.ConfirmationBinds | ssh/jpake.c:422-451 | a confirmation for another key, identifier or session is accepted only if the hash collides on the two very inputs |
| Match.MatchPattern | ssh/match.c:52-108 | match_pattern terminates and decides the declarative meaning of the tightened pattern |
| Match.MatchStar | ssh/match.c:60-91 | so do its loops after an asterisk |
| Match.MatchIsSound | ssh/match.c:52-108 | whatever it accepts, the pattern matches |
| Match.CompleteIff | ssh/match.c:52-108 | it agrees with the meaning of the pattern on all strings if and only if the pattern does not end in two asterisks |
| Match.CopySub | ssh/match.c:139-150 | the inner loop copies the item up to its comma in the wanted case, or stops at 1023 characters |
| Match.MatchPatternList | ssh/match.c:117-169 | -1 exactly for a matching negated item, then 0 for an item too long, then 1 exactly for a matching item |
| Match.ListOfShortItems | ssh/match.c:117-169 | the same without the middle case when all items are short |
| Match.SubsOfJoin | ssh/match.c:127-150 | the items of a list are those it was joined from |
| Match.ReadProposals | ssh/match.c:254-261 | the server's items count up to the first empty one and at most 40 |
| Match.MatchList | ssh/match.c:240-282 | the first item of the client that is among those, and the position to go on from |
| Match.NextIsAfterChosen | ssh/match.c:266-278 | that position is after the match if and only if the match is the first item or a comma follows it |
| KexNegotiate.Prop2Buf | ssh/kex.c:127-151 | a proposal is written as cookie, ten strings and trailer, or does not fit |
| KexNegotiate.ReadNamesLoop | ssh/kex.c:172-176 | the loop reads the next strings of the buffer |
| KexNegotiate.Buf2PropLoop | ssh/kex.c:154-192 | kex_buf2prop computes the function Buf2Prop, errors included |
| KexNegotiate.ProposalRoundTrip | ssh/kex.c:127-192 | what is proposed is what the peer reads, whatever the cookie |
| KexNegotiate.NeedLoop | ssh/kex.c:617-630 | the loop takes the maximum over both directions |
| KexNegotiate.ChooseLoop | ssh/kex.c:578-616 | the loop over the directions and what follows compute the function Choose |
| KexNegotiate.ChooseConfLoop | ssh/kex.c:548-641 | kex_choose_conf computes the function ChooseConf, errors included |
| KexNegotiate.ChooseAgrees | ssh/kex.c:548-641 | for any two proposals both sides fail or both choose the same, with directions mirrored |
| KexNegotiate.NegotiationAgrees | ssh/kex.c:548-641 | the same for any two KEXINIT payloads, malformed ones included |
| KexNegotiate.ChoiceIsClientsFirst | ssh/kex.c:436-522 | every name, that of the host key included, is in the client's list and among the server's, and no earlier one of the client's is; sizes and types are those of the tables, with a MAC exactly for ciphers that do not authenticate |
| KexNegotiate.NeedIsLargest | ssh/kex.c:617-630 | the key material asked for is the largest of all key, block, IV and MAC key sizes |
| KexDerive.TranscriptInjective | ssh/kexdh.c:59-71 | exchanges that differ anywhere are hashed from different bytes |
| KexDerive.EncodeIsStrings | ssh/kexdh.c:59-71 | the hashed encoding is eight strings, with the KEXINIT headers restored |
| KexDerive.DeriveKey | ssh/kex.c:643-706 | derive_key computes the expansion of K1, or fails exactly when the secret cannot be encoded |
| KexDerive.DerivedKeyShape | ssh/kex.c:665-692 | a key is long enough, starts with the hash with its letter, and every later block hashes all blocks before it |
| KexExchange.SameSecret | ssh/kexdhc.c:140-150 | both sides compute the same shared secret |
| KexExchange.ReplyIsDelivered | ssh/kexdhs.c:185-189 | the reply is read as it was written, exactly when blob and signature fit and the public value has not exactly 8192 bits |
| KexExchange.OrderIsIndifferent | ssh/kex.c:287-336 | whether both sides send KEXINIT or one answers the other's, they end in the same states |
| KexExchange.OpeningAgrees | ssh/kex.c:254-336 | after the KEXINITs, in any order, both sides hold each other's payload and mirrored configurations |
| KexExchange.OpeningSucceeds | ssh/kex.c:254-336 | this succeeds exactly when the proposals have a common choice everywhere |
| KexExchange.DeriveAgrees | ssh/kex.c:709-734 | the keys one side sends with are those the other receives with |
| KexExchange.ReplyAgrees | ssh/kexdhs.c:83-210 | both sides compute one transcript and hash, the signature is accepted, and keys and session identifier agree |
| KexExchange.ClosingAgrees | ssh/kexdhc.c:89-203 | after an honest negotiation the exchange completes exactly when keys and hash can be made and the two messages can be written and read |
| KexExchange.ExchangeAgrees | ssh/kexdhc.c:89-203 | an honest exchange or rekey succeeds exactly when negotiation and keys allow it, and a session identifier once set stays |
| KexExchange.ExchangesAgree | ssh/kexdhc.c:172-184 | over any number of exchanges the session identifier is the first hash and the keys agree |
| KexExchange.SameHashSameExchange | ssh/kexdh.c:59-71 | if the hash that the client checked is the one a server signed, they saw the same versions, KEXINITs, host key, public values and secret, or the hash collides on the two very encodings |
| KexExchange.AcceptedMeansAgreed | ssh/kexdhc.c:89-203 | for a client and a server in any states: if the client accepts a reply whose hash this server signed, their keys and sessions agree, or the hash collides |
| KexExchange.PreparedAgree | ssh/kex.c:287-336 | so it is for any client and server that went through kex_input_kexinit on whatever packets |
| KexExchange.KeysHaveTheirLetters | ssh/kex.c:718-732 | the six keys start with the hashes for A to F, each in its direction |
| KexExchange.KexObject.SendKexinitInPlace | ssh/kex.c:254-284 | a new cookie in the own buffer, once per exchange; failing leaves all but the done flag alone |
| KexExchange.KexObject.InputKexinitInPlace | ssh/kex.c:287-336 | the peer's payload is kept and checked, and the algorithms are chosen; failing keeps keys, configuration and session |
| KexExchange.KexObject.StartDhInPlace | ssh/kexdhc.c:48-87 | a valid key pair in the group of the method, or nothing changes |
| KexExchange.KexObject.DeriveKeysInPlace | ssh/kex.c:709-734 | six keys, assigned by direction |
| KexExchange.KexObject.SaveSessionInPlace | ssh/kexdhs.c:166-175 | the session identifier is set once |
| KexExchange.KexObject.FinishInPlace | ssh/kexdhc.c:172-190 | session identifier and keys, with everything else kept |
| KexExchange.KexObject.ServerReplyInPlace | ssh/kexdhs.c:83-210 | the server's half of the exchange: the private key is gone, an existing session identifier and the KEXINITs stay, and failing keeps the configuration |
| KexExchange.KexObject.ClientFinishInPlace | ssh/kexdhc.c:89-203 | the client's half of the exchange, with the same kept |
| KexExchange.KexObject.InputNewkeysInPlace | ssh/kex.c:235-252 | the exchange is done and the peer's payload forgotten |
| Auth2Lists.StartsWithFirst | ssh/auth2.c:517-542 | the comparison of characters is a comparison with the first element of the list |
| Auth2Lists.MethodAllowed | ssh/auth2.c:365-383 | some list starts with the method, or none is configured |
| Auth2Lists.RemainderIsRest | ssh/auth2.c:549-567 | remove_method takes exactly the first element away |
| Auth2Lists.UpdateListsLoop | ssh/auth2.c:575-598 | the loop over the lists computes the function UpdateLists, stopping at a completed list |
| Auth2Lists.FoundIff | ssh/auth2.c:575-598 | the method is found exactly when it hits the first element of some list |
| Auth2Lists.MethodsValidLoop | ssh/auth2.c:437-477 | a list is valid exactly when every element names a known, and if wanted enabled, method |
| Auth2Lists.SetupLists | ssh/auth2.c:486-515 | exactly the lists without disabled methods are kept |
| Auth2Lists.SetupIsConfigured | ssh/auth2.c:486-515 | a kept list is a configured and valid one, and the other way round |
| Auth2.Authctxt.FinishInPlace | ssh/auth2.c:297-358 | userauth_finish computes the function Finish; whatever the outcome, the user and the number of lists stay, failures grow by at most one, and success needs a valid user |
| Auth2.Authctxt.NextDeviceLoop | ssh/auth2-chall.c:111-142 | the next device that the client names and the lists allow |
| Auth2.Authctxt.FindDeviceLoop | ssh/auth2-chall.c:126-133 | the last allowed device that the wanted name is a prefix of |
| Auth2.Authctxt.ChallengeStartInPlace | ssh/auth2-chall.c:177-206 | a conversation is postponed, or dropped when no device starts |
| Auth2.Authctxt.InputRequestInPlace | ssh/auth2.c:218-295 | input_userauth_request computes the function InputRequest; after the first request user and service never change |
| Auth2.Authctxt.InputResponseInPlace | ssh/auth2-chall.c:244-315 | input_userauth_info_response computes the function InputResponse, keeping the user |
| Auth2.UpdateProgress | ssh/auth2.c:575-598 | a success moves every list it hits one element on, and a completed list was gone through in order |
| Auth2.RunKeepsInv | ssh/auth2.c:218-358 | every reachable context satisfies the invariant |
| Auth2.SuccessIsEarned | ssh/auth2.c:297-358 | success in any run means a user that exists and asks for ssh-connection, nothing postponed, one user and service throughout, only methods that root may use for root, and successes that cover all elements of some enabled configured list in order |
| Auth2.TriesAreLimited | ssh/auth2.c:339-346 | no run goes on after max_authtries failures |
| Auth2.ListsAreSuffixes | ssh/auth2.c:549-598 | every list is at all times a configured list from one of its elements on |
| Auth2.NeverFatal | ssh/auth2.c:594-596 | the fatal error is unreachable in every run if only keyboard-interactive elements have submethods |
| Auth2.SubmethodDies | ssh/auth2.c:594-596 | it is reached at once when the only list starts with a submethod of another method |
| Auth2.FatalIff | ssh/auth2.c:575-598 | in any context a success is fatal if and only if no list starts with its method |
| Auth2Fatal.FatalRunExists | ssh/auth2.c:575-598 | for one enabled list, an ordinary user and enough tries, some run ends in the fatal error if and only if an element with a submethod of another method than keyboard-interactive, one that can succeed, comes after elements that can be passed, with `none` named at most once up to it |
| Auth2Fatal.FatalIsReached | ssh/auth2.c:575-598 | a run that ends so, of any user, has passed every element before such a one, and called `none` at most once |
| Auth2Fatal.PassAll | ssh/auth2.c:297-358 | elements that can be passed, with devices for keyboard-interactive and at most one `none`, are passed in some run |
| Auth2Fatal.RunWins | ssh/auth2-none.c:45-59 | in every run `none` succeeds at most once, and only where empty passwords are permitted |
| Cert.NameRoundTrip | ssh/key.c:44-136 | the name of every key type and certificate form leads back to it |
| Cert.PubRoundTrip | ssh/key.c:1669-1751 | the public part of every key is read back and what follows is left |
| Cert.PlainRoundTrip | ssh/key.c:529-583 | the blob of a plain key is read back as the key |
| Cert.NumbersMayBeMissing | ssh/key.c:1676-1683 | a blob that ends before its numbers is read as a key with zero numbers |
| CertNumbers.PlainNumbers | ssh/key.c:1669-1706 | after the name of an RSA or DSA key a blob is accepted if and only if it is at most as many numbers as the key has, read as those and zeros |
| CertNumbers.TruncatedBlob | ssh/key.c:1669-1706 | a blob with only the first numbers of a key is read as that key if and only if the others are zero |
| CertNumbers.PlainReadBack | ssh/key.c:529-583 | the blob written for any plain key is read back if and only if none of its numbers has exactly 8192 bits and its point is valid, and refused otherwise |
| CertNumbers.CertNumbers | ssh/key.c:1669-1764 | a certificate is accepted if and only if at most as many numbers as the key has are followed by the rest of a certificate, and by no further number when there are fewer |
| CertNumbers.ShortCert | ssh/key.c:1669-1764 | a certificate signed over fewer numbers is accepted for the key with zeros exactly when it is acceptable and verified, if its fields do not start with a number |
| CertNumbers.SerialEndsNumbers | ssh/key.c:1531-1547 | in version 01 the fields do not start with a number if and only if the high half of the serial is above what follows or 1024, or the next bit of a serial with a high half is set |
| CertNumbers.KindIsNumber | ssh/key.c:1531-1547 | in version 00 the fields of a user or host certificate always start with what reads as a number |
| CertNumbers.ShortCertExists | ssh/key.c:1643-1782 | a host certificate signed without any number is accepted for the RSA key of zeros |
| Cert.ReadPrincipalsLoop | ssh/key.c:1565-1586 | the loop reads C strings, at most 256 |
| Cert.PrincipalsRoundTrip | ssh/key.c:1565-1586 | written principals are read back exactly when there are at most 256 |
| Cert.ValidateOptions | ssh/key.c:1593-1615 | the options are pairs of strings |
| Cert.FieldsRoundTrip | ssh/key.c:1531-1547 | the fields are read back; version 00 loses serial and extensions |
| Cert.SignedVerifies | ssh/key.c:1784-1835 | what is signed, at most 1 MiB, is accepted by sshkey_verify |
| Cert.CertParsed | ssh/key.c:1510-1641 | the signature is checked over exactly the signed prefix and no bytes are left |
| Cert.CertRoundTrip | ssh/key.c:1643-1782 | a certificate is read back with every field its form carries if and only if its type is user or host, it has at most 256 principals, its options are well formed and its signature, over at most 1 MiB, is accepted |
| Cert.AcceptedIsSigned | ssh/key.c:1549-1630 | whatever the blob, an accepted certificate ends in a nonempty signature of its authority over all bytes before it, at most 1 MiB, and states something acceptable |
| Cert.Certify | ssh/key.c:2000-2119 | it succeeds if and only if everything fits with at most 1 MiB to sign, or the RSA modulus has more than 8192 bits and the exponent has not; then an unfinished certificate is left, else one that sshkey_from_blob reads back as issued exactly when the parser accepts what it states |
| DhChoose.FirstPass | ssh/dh.c:157-176 | the best size is the largest if all are below the wanted one, the wanted one exactly when it comes before everything larger, and otherwise the least above it; all lines of that size are counted |
| DhChoose.BestIsUnique | ssh/dh.c:157-176 | that determines the size |
| DhChoose.WantedIsChosenIff | ssh/dh.c:157-176 | a prime of the wanted size is chosen if and only if no larger one comes before it |
| DhChoose.WantedIsPassedOver | ssh/dh.c:157-176 | it is passed over in a file that starts with a larger one |
| DhChoose.SecondPass | ssh/dh.c:185-199 | the second pass stops on the line that exactly `which` best lines precede, or finds too few |
| DhChoose.ChooseDh | ssh/dh.c:141-207 | on one file the choice is exactly the line that the random number picks among the best; the fixed group is taken only when no line is admissible |
| DhChoose.EveryLineHasItsNumber | ssh/dh.c:185-199 | different best lines have different numbers below the count |
| Atomicio.Advance | ssh/atomicio.c:121-138 | complete entries are skipped and the partial one is cut, so that exactly the moved bytes are gone; it fails exactly when more was reported than offered |
| Atomicio.TransferLoop | ssh/atomicio.c:106-145 | the vector behaves as one buffer, and what the loop hands over is a prefix of it, in order |
| Atomicio.Atomiciov | ssh/atomicio.c:87-146 | atomiciov6 on every schedule hands over a prefix of the bytes, all of them on completion, with an empty first entry ending it at once |
| Atomicio.SentInOrder | ssh/atomicio.c:106-145 | bytes are moved once and in order, all of them on completion, and as many as the position says otherwise |
| Atomicio.FaultIff | ssh/atomicio.c:129-133 | the branch that should not happen is taken if and only if a call reports more than it was offered |

## Left out

- Signature sections of revocation lists, and signing them: the hard part is the set of serials.
- Closing a channel (CLOSE and EOW messages), datagram channels, filters, SSH1 modes, SOCKS and X11 decoding, locally inserted output, listeners and connection set-up: `ChannelPair` lets an end start closing at any time and then stops its handlers as the source does.
- ChannelPair.NoDeadlock: is stated for runs in which no window was lost; `ChannelPair.StalledMovesIff` gives the exact condition.
- The order of errors in a failed negotiation: the two sides go through the directions in opposite order, so both fail but may name different errors.
- first_kex_follows, roaming, the elliptic-curve and group-exchange methods, compat flags other than SSH_BUG_HMAC and SSH_BUG_DERIVEKEY.
- Hashing, signing, elliptic-curve arithmetic and the tables of ciphers, MACs and key exchange methods: parameters, with the laws that are needed as hypotheses.
- Random numbers, descriptors, password lookup and the verdicts of authentication methods: parameters or events.
- Memory allocation failures, except where a handler decides something on them (`Deattack.DeattackCtx.DetectAttack`).
- The mask `& (n - 1)` of the hash table is written as a remainder, its sizes being powers of two, and crc_update is modelled for a little-endian host.
- GSSAPI, Kerberos and the privilege separation monitor.
- Auth2.NeverFatal: is a sufficient condition for any number of lists; `Auth2Fatal.FatalRunExists` is exact for one list and `Auth2.FatalIff` for each context.
- Malformed INFO_RESPONSE messages, which are fatal.
- Cert.Certify: treats the puts of one group of fields as a single put, since they fail together.
- parse_prime and the text of the moduli file: a line is the size it yields.
- atomicio6 and the functions of ssh/match.c for hosts and users: they would only add easy members.
