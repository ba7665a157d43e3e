# A verified model of the ZeroTier node core

This project models the hard parts of `node/` in Dafny and proves what they are for: authenticated encryption, the
credential state machine and the hash table under it, the credential wire format, the dictionary, multipath bonding and IP
prefixes. The clusters are independent of one another; files that share a prefix belong together.

**AES-GMAC-SIV** (`MachineWords`, `GcmField`, `CarrylessProduct`, `HoleyMul`, `GfMul`, `PclmulGhash`, `BlockCiphers`,
`GhashSpec`, `LengthBlocks`, `GmacStream`, `CtrSpec`, `CtrStream`, `GmacSiv`, `AesTables`, `AesColumns`, `AesSoftware`,
`GmacKnownAnswers`, `AesKnownAnswers`).
`GcmField.Mul` is the multiplication of section 6.3 of NIST SP 800-38D, one bit at a time; it is shown to be a commutative,
associative, distributive product with the unit the standard names. Against it stand the two implementations: `s_gfmul`, which
multiplies integers with holes between their bits, recombines by Karatsuba's rule and reduces by shifts, and the PCLMULQDQ code
with its four-block aggregation. `Gmac` and `Ctr` are the streaming objects, with their partial blocks and both code paths;
their contracts speak of the whole input so far, so no chunking shows. `GmacSiv` composes them, and `RoundTrip` is the round
trip of the mode for every chunking on either side and either code path on either side. The block cipher is any pair of inverse
permutations there; `AesSoftware` shows that the table-driven AES is one, from the literal tables and the key schedules of
`p_initSW`.

**Credentials** (`Credentials`, `Memberships`, `HashTables`, `Options`). `Credentials` is the state machine over credentials,
revocations, certificates of membership and cleaning, with signatures as an oracle. `Memberships` is the object, proved to take
exactly these steps. `HashTables` is the chained hash table on the heap, refining a finite map across growth, with its iterator;
`AddToTable` and `CleanHashtable` in `Memberships` take the steps of the state machine on it.

**Wire format** (`Buffers`, `Lists`, `RuleWire`, `CapabilityWire`, `MembershipWire`, `CertificateWire`, `CredentialPackets`,
`CredentialPush`, `CredentialReceiver`). Printers and parsers of every kind of credential, errors included; `pushCredentials`,
which cuts a configuration into packets; and the receiving handler, which hands credentials over while it parses. `PushToPeer`
runs the one against the other.

**Dictionary** (`Dictionaries`), **bonding** (`Bonds`, `RoundRobin`, `ActiveBackups`) and **prefixes** (`Inet4`, `Inet6`) each
refine a simple reference: an association list; the set of chosen slots, a formula and a sorted queue; "the first n bits agree".

Results worth knowing, because the code does not do what one might expect:

- An interleaved `clean` can break the convergence of credentials (`CleaningBreaksConvergence` gives two runs). `ConvergenceIff`
  says exactly when: all orders of the same events agree under a configuration if and only if no unrevoked credential is in its
  window, or every clean finds the newest unrevoked credential in its own window.
- A revocation of any other credential can lower the threshold for certificates of membership (`ComThresholdFalls`), and a
  revoked certificate is then accepted after all (`ComLetInAgain` gives the run). No order of a set of events ever lowers it if
  and only if no good revocation of a tag, capability or certificate of ownership lies below a good revocation of something else
  (`ComThresholdIff`).
- The AES-NI counter mode adds in 64 bits, the software one in 32; they agree exactly while the low 32 bits do not wrap
  (`CountersAgree`), which clearing the top bit of the tag's counter guarantees up to 2^31 bytes (`SivUnwrapped`).
- The length GMAC hashes is counted in 32 bits. The tag is that of NIST SP 800-38D if and only if the hash key takes the two
  length blocks to one product (`Gmac.Finish`, `CountingAgrees`); for an invertible key, if and only if the length blocks are the
  same, which they are for n bytes exactly when n mod 2^61 is below 2^32 (`CountingAgreesFor`, `SameLengthBlock`); 2^32 bytes is
  the first length at which they differ (`WrapsAt`).
- A capability comes back whole if and only if its rule addresses have 40 bits, its PRIORITY rules name no QoS bucket, which is
  never sent, and no custody slot behind the first empty one is used (`WholeCapability`). One with a chain length outside 1 to 7
  is printed but refused by the parser (`CapabilityRoundTrip`), and so is a certificate of membership whose qualifiers are out of
  order (`ComRoundTrip`).
- With 65536 packets per link or more the 16-bit counter never gets there, and round robin stays on its first path (`Stripe`).
- A path without any handicap that names a failover link gives the paths of that link a negative score, which as a 32-bit number
  beats every ordinary one (`InheritedScores`).
- An IPv6 prefix with host bits set contains no address at all, not even itself (`Inet6.ContainsOrMatches`).
- Assigning a hash table to itself empties it (`Assign`).

Methods that change objects are proved against functions of the state before; where the loops of a method need it they are
split into methods of their own. `hide` keeps definitions out of proofs that do not need them.

## Model

| member | source | states |
|---|---|---|
| GcmField.MulOne | node/AES.cpp:48-105 | the reference product of section 6.3 of NIST SP 800-38D has the unit with only the leading bit set |
| GcmField.MulCommutes | node/AES.cpp:48-105 | the reference product commutes, for all blocks |
| GcmField.MulAssociates | node/AES.cpp:48-105 | the reference product is associative, for all blocks |
| GcmField.MulDistributes | node/AES.cpp:48-105 | the reference product distributes over addition |
| HoleyMul.TimesColumn | node/AES.cpp:30-46 | multiplying integers of at most eight spaced bits never carries from one nibble to the next, and the parity of each column is the carry-less product |
| HoleyMul.Bmul32IsWordProduct | node/AES.cpp:30-46 | the sixteen masked integer products of s_bmul32 make the exact 32 by 32 carry-less product |
| GfMul.Karatsuba64IsProduct | node/AES.cpp:57-79 | three 32-bit products recombine to the 64 by 64 carry-less product |
| GfMul.Product128IsProduct | node/AES.cpp:57-95 | nine 32-bit products recombine to the 256-bit product |
| GfMul.ReduceWordsIsReduce | node/AES.cpp:96-102 | the shift and xor lines reduce modulo x^128 + x^7 + x^2 + x + 1 |
| GfMul.ReducedProductIsMul | node/AES.cpp:96-102 | reducing the product, moved up by one because bits are reflected, gives the field product |
| GfMul.GfMulIsMul | node/AES.cpp:48-105 | the whole computation is the field product, for all 128-bit arguments |
| GfMul.GfMulInPlace | node/AES.cpp:48-105 | s_gfmul leaves in y0 and y1 the field product in network byte order |
| PclmulGhash.FoldLanesIsReduceWords | node/AES_aesni.cpp:48-50 | the 32-bit lane shifts of the accelerated reduction do what the 64-bit ones do |
| PclmulGhash.GmacPclmul128IsMul | node/AES_aesni.cpp:31-52 | the accelerated multiplication is the field product, for all arguments |
| PclmulGhash.GmacPclmul128IsAbsorb | node/AES_aesni.cpp:270-274 | one accelerated block step is one GHASH step |
| PclmulGhash.AbsorbFourIsSum | node/AES_aesni.cpp:244-267 | the aggregated step, with one Karatsuba middle term and one reduction for four blocks, is a sum of four field products |
| PclmulGhash.HashPowersAre | node/AES_aesni.cpp:608-615 | the key setup computes h, h^2, h^3 and h^4 |
| PclmulGhash.FourAbsorbs | node/AES_aesni.cpp:244-267 | four GHASH steps are that sum of products by powers |
| PclmulGhash.AbsorbFourIsFourAbsorbs | node/AES_aesni.cpp:233-268 | so one aggregated step is four GHASH steps, for every state and every four blocks |
| GhashSpec.GhashConcat | node/AES.cpp:109-164 | GHASH of a concatenation continues from the GHASH of its first part |
| GhashSpec.StreamPush | node/AES.cpp:109-164 | one more byte keeps "y is GHASH of all whole blocks, the rest waits", and the sixteenth is absorbed |
| GmacStream.AbsorbWords | node/AES.cpp:150-156 | one block xored into the two words and multiplied is one GHASH step |
| GmacStream.BitCount | node/AES.cpp:196 | shifting the 64-bit length by three is counting bits |
| GmacStream.Gmac.Fill | node/AES.cpp:132-148 | the waiting bytes grow to a block, which then is all that is left to absorb |
| GmacStream.Gmac.AbsorbBlocks | node/AES.cpp:150-156 | whole blocks are absorbed one by one, fewer than sixteen bytes stay |
| GmacStream.Gmac.AbsorbGroups | node/AES_aesni.cpp:233-268 | groups of four blocks keep the same invariant, fewer than 64 bytes stay |
| GmacStream.Gmac.AbsorbSingles | node/AES_aesni.cpp:270-274 | then single blocks |
| GmacStream.Gmac.Keep | node/AES_aesni.cpp:278-282 | the rest is kept for later |
| GmacStream.Gmac.Init | node/AES.hpp:186-211 | a fresh stream: no data yet, the IV followed by a counter of one |
| GmacStream.Gmac.UpdateSoftware | node/AES.cpp:109-164 | the stream invariant holds of the data so far followed by the input, whatever the lengths |
| GmacStream.Gmac.UpdateAesNi | node/AES_aesni.cpp:214-283 | the same of the accelerated update: aggregated groups refine single blocks |
| GmacStream.Gmac.Update | node/AES.cpp:109-164 | either path: only the concatenated input counts |
| GmacStream.Gmac.FinishSoftware | node/AES.cpp:166-210 | the tag is GHASH over the zero-padded data and its bit length, encrypted as section 6.4 of NIST SP 800-38D has it, below 2^32 bytes |
| GmacStream.Gmac.FinishAesNi | node/AES_aesni.cpp:288-355 | the same tag from the accelerated finish |
| GmacStream.Gmac.Finish | node/AES.cpp:166-210 | the tag as a function of key, IV and all data; it is the tag of NIST SP 800-38D exactly when the key takes the 32-bit count and the true length to the same product |
| LengthBlocks.CountingAgrees | node/AES.cpp:196 | a tag that hashes another count is the tag of the standard if and only if the hash key takes the sum of the two length blocks to zero |
| LengthBlocks.CountingAgreesFor | node/AES.cpp:196 | for an invertible hash key, if and only if the length blocks are the same |
| LengthBlocks.SameLengthBlock | node/AES.hpp:238 | a 32-bit count of n bytes makes the same length block if and only if n mod 2^61 is below 2^32 |
| LengthBlocks.WrapsAt | node/AES.cpp:112-196 | at 2^32 bytes the tags differ for every invertible hash key |
| GmacStream.StreamEnd | node/AES.cpp:187-194 | the padded last block makes the streamed hash the one-shot hash |
| GhashSpec.PaddedIs | node/AES.cpp:187-194 | padding is the fewest zero bytes that fill the last block |
| GmacKnownAnswers.KnownTag | node/AES.cpp:109-210 | a published GMAC tag, for any cipher that gives the two published blocks of its key |
| CtrSpec.CtrTwice | node/AES.cpp:214-450 | counter mode undoes itself, with either counter |
| CtrSpec.CountersAgree | node/AES_aesni.cpp:362-556 | 64-bit and 32-bit counting give the same blocks up to block n if and only if the low 32 bits do not wrap before it |
| CtrSpec.CounterIs32 | node/AES.cpp:234-430 | counting on in the last four bytes is one block per step of a 32-bit counter |
| CtrSpec.CounterIsSum | node/AES.cpp:234-430 | counter block k is the first one with k added to its last four bytes modulo 2^32 |
| CtrSpec.SameOutput | node/AES_aesni.cpp:362-556 | then both counters give the same output |
| CtrSpec.TopBitClearUnwrapped | node/AES.hpp:416-418 | with the top bit clear they do not wrap within 2^31 blocks |
| CtrStream.Ctr.Init | node/AES.hpp:265-271 | a fresh stream at a counter |
| CtrStream.Ctr.CryptSoftware | node/AES.cpp:214-438 | after any chunk the output, with the tail still to be ciphered, is that of all data so far; nothing behind it is written |
| CtrStream.Ctr.CryptAesNi | node/AES_aesni.cpp:362-556 | the same for the accelerated path with its 64-bit counter, carries included |
| CtrStream.Ctr.Crypt | node/AES.cpp:214-438 | either path: the output depends on the concatenated input only |
| CtrStream.Ctr.Fill | node/AES.cpp:236-258 | a begun block is completed byte by byte and ciphered when it is full |
| CtrStream.Ctr.CryptBlocks | node/AES.cpp:260-430 | whole blocks of the software path, each with its own counter |
| CtrStream.Ctr.WriteMixed | node/AES.cpp:408-423 | a block of output is input and key stream mixed byte by byte |
| CtrStream.Ctr.CryptGroups | node/AES_aesni.cpp:443-524 | four counters at a time are four single steps |
| CtrStream.Ctr.CryptSingles | node/AES_aesni.cpp:526-546 | the remaining whole blocks of the accelerated path |
| CtrStream.Ctr.CopyTail | node/AES_aesni.cpp:548-553 | the last bytes wait in the output, unciphered |
| CtrStream.Ctr.Finish | node/AES.cpp:440-450 | the finished output is one-shot counter mode with the counter of its path, and that of section 6.5 of NIST SP 800-38A with a 32-bit counter where that does not wrap |
| GmacSiv.SivUnwrapped | node/AES.hpp:416-418 | the counter of a tag with its top bit cleared does not wrap within the limit of 2^31 bytes |
| GmacSiv.CtrStartBytes | node/AES.hpp:416-418 | the initial counter block is the tag byte for byte, but for the top bit of byte 12 |
| GmacSiv.TagInBytes | node/AES.hpp:394-415 | the tag enciphers the IV and the two halves of the GMAC tag added byte by byte, with the nonce written out |
| GmacSiv.FirstBlock | node/AES.hpp:416-433 | the first sixteen bytes of output in terms of the bytes of the tag |
| GmacSiv.EveryByte | node/AES.hpp:416-433 | every byte of output: the counter of its block is the number of the block added to the last four bytes of the tag without their top bit |
| GmacSiv.TagOpens | node/AES.hpp:394-420 | decrypting a tag gives back the IV and the MAC it was made of |
| GmacSiv.ComparisonIsGenuine | node/AES.hpp:526-534 | comparing the MAC half of the opened tag accepts exactly the tags a sender would have made for this plaintext |
| GmacSiv.Encryptor.Aad | node/AES.hpp:368-379 | the associated data enters GMAC padded to whole blocks |
| GmacSiv.Encryptor.Finish1 | node/AES.hpp:394-420 | the tag encrypts the IV and the folded GMAC, and counter mode starts at it |
| GmacSiv.Encryptor.Update2 | node/AES.hpp:430-433 | the second pass ciphers what it is given |
| GmacSiv.Encryptor.Finish2 | node/AES.hpp:443-447 | the output is the ciphertext of the second pass |
| GmacSiv.Decryptor.Init | node/AES.hpp:475-490 | the opened tag starts both GMAC and counter mode |
| GmacSiv.Decryptor.Update | node/AES.hpp:515-519 | decryption of the chunks so far |
| GmacSiv.Decryptor.Finish | node/AES.hpp:526-534 | true exactly when the GMAC of the plaintext matches the opened tag |
| GmacSiv.Seal | node/AES.hpp:346-447 | tag and ciphertext are functions of the keys, IV, associated data and plaintext, for independent chunkings of the passes; the first block of ciphertext in terms of the bytes of the tag |
| GmacSiv.Open | node/AES.hpp:475-534 | for any tag and ciphertext: the decryption, accepted if and only if it is genuine |
| GmacSiv.RoundTrip | node/AES.hpp:346-534 | what was sealed opens to the plaintext and is accepted, whatever the chunkings and code paths |
| AesTables.SubIsAffineInverse | node/AES.cpp:470-485 | the literal S-box is the affine map of the inverse in GF(2^8) |
| AesTables.InvSubOfSub | node/AES.cpp:470-509 | the literal inverse S-box undoes the S-box |
| AesTables.SubOfInvSub | node/AES.cpp:470-509 | and the other way round |
| AesTables.Te0IsMixSub | node/AES.cpp:454-469 | every word of Te0 is the mixed column of a substituted byte |
| AesTables.Te4Repeats | node/AES.cpp:470-485 | every word of Te4 is four times the substituted byte |
| AesTables.Te4LastIs | node/AES.cpp:564-570 | the masked look-up in Te4 is the substituted byte |
| AesTables.Td0IsInvMixInvSub | node/AES.cpp:486-501 | every word of Td0 is the inverse mixed column of an inversely substituted byte |
| AesColumns.MixColumnInverse | node/AES.cpp:573-720 | InvMixColumns and MixColumns are inverse, for every column |
| AesColumns.InvMixColumnLinear | node/AES.cpp:564-570 | InvMixColumns is linear, which moves it past the round keys |
| AesSoftware.ShiftRowsInverse | node/AES.cpp:573-720 | the two row shifts are inverse |
| AesSoftware.InverseRounds | node/AES.cpp:573-720 | the inverse cipher runs back through the states of the cipher |
| AesSoftware.ForwardRounds | node/AES.cpp:573-720 | and the cipher through those of the inverse cipher |
| AesSoftware.TeRoundIs | node/AES.cpp:573-647 | a round of table look-ups is SubBytes, ShiftRows, MixColumns and the round key; the last one lacks MixColumns |
| AesSoftware.TdRoundIs | node/AES.cpp:649-720 | a decryption round of table look-ups is the round of the equivalent inverse cipher |
| AesSoftware.TdOfTe4Is | node/AES.cpp:564-570 | looking a substituted byte up for decryption leaves the inverse mixed column |
| AesSoftware.TePickIs | node/AES.cpp:526-536 | the masked look-ups of the key schedule substitute the bytes of a word |
| AesSoftware.CipherInverse | node/AES.cpp:573-720 | the cipher and the inverse cipher of FIPS 197 are inverse for every schedule |
| AesSoftware.EncryptSoftwareIsCipher | node/AES.cpp:573-647 | the table-driven rounds are the cipher of FIPS 197 |
| AesSoftware.DecryptSoftwareIsInvCipher | node/AES.cpp:649-720 | the table-driven decryption with the transformed schedule is the equivalent inverse cipher of section 5.3.5 of FIPS 197 |
| AesSoftware.DecryptInvertsEncrypt | node/AES.cpp:512-720 | decryption inverts encryption and encryption decryption, for every block |
| AesSoftware.RconArePowers | node/AES.cpp:510 | the round constants are successive powers of x |
| AesSoftware.RotatedHalf | node/AES.cpp:525-531 | four words of the schedule with rotation and round constant |
| AesSoftware.PlainHalf | node/AES.cpp:535-539 | four words without |
| AesSoftware.SwapRound | node/AES.cpp:550-563 | two round keys change places, the others stay |
| AesSoftware.ExpandKey | node/AES.cpp:514-540 | the loop fills the schedule of section 5.2 of FIPS 197 |
| AesSoftware.ReverseRounds | node/AES.cpp:550-563 | the swaps reverse the order of the round keys |
| AesSoftware.TransformRound | node/AES.cpp:564-570 | one inner round key is replaced by its inverse mixed columns, the others stay |
| AesSoftware.InvertSchedule | node/AES.cpp:545-570 | both together make the schedule of the equivalent inverse cipher |
| AesSoftware.AesIsBlockCipher | node/AES.cpp:512-720 | with such schedules AES is a block cipher with its inverse, as the modes require |
| AesSoftware.InitSoftware | node/AES.cpp:512-571 | for every key the two schedules make the AES of FIPS 197 and its inverse |
| AesKnownAnswers.FirstKeyAddition | node/AES.cpp:580-583 | before the first round each word of the block has been added to the word of the key with the same index |
| AesKnownAnswers.NextRoundKey | node/AES.cpp:522-540 | every round key from the two before it, four words at a time |
| AesKnownAnswers.KnownAnswer | node/AES.cpp:512-647 | the known answer of appendix C.3 of FIPS 197, from the key to the ciphertext |
| Credentials.KeysDistinct | node/Membership.hpp:170-174 | revocation keys of different types or ids differ |
| Credentials.KeyParts | node/Membership.hpp:170-174 | the upper half of a key is the type of the credential, the lower half its identifier |
| Credentials.InWindowMeans | node/Membership.hpp:220-228 | a window reaches the maximum difference to either side of the timestamp of the configuration |
| Credentials.RevokedIff | node/Membership.cpp:178-212 | in every run a credential counts as revoked exactly when a good revocation at or above its timestamp was added |
| Credentials.HeldIsGood | node/Membership.cpp:130-163 | what is held was added and verified, in every run |
| Credentials.HeldOrRevoked | node/Membership.cpp:130-163 | a good credential is revoked or one at least as new is held |
| Credentials.NewestOfAll | node/Membership.cpp:178-212 | revocations cover everything older, so the newest unrevoked credential is the newest of all good ones |
| Credentials.NewestHeld | node/Membership.cpp:130-219 | once added, the newest unrevoked credential is held for as long as every clean finds it in its window |
| Credentials.VisibleIff | node/Membership.hpp:128-132 | for settled events a lookup returns exactly the newest unrevoked good credential in the window |
| Credentials.NoCleanSettled | node/Membership.cpp:214-219 | runs without cleaning are settled |
| Credentials.Convergence | node/Membership.cpp:130-212 | any two orders of the same settled events, cleans and repetitions included, show the same credential |
| Credentials.ConvergenceIff | node/Membership.cpp:130-219 | all orders of the same events show the same credential under a configuration if and only if no unrevoked one is in its window or no clean drops the newest |
| Credentials.CleaningBreaksConvergence | node/Membership.cpp:214-219 | otherwise they need not: two runs of the same three events that differ |
| Credentials.RevocationIsPermanent | node/Membership.cpp:178-219 | after an accepted revocation nothing at or below its threshold is ever visible, with cleans or without |
| Credentials.CleanKeepsLookups | node/Membership.cpp:214-219 | cleaning under a configuration changes no lookup under it |
| Credentials.ComThresholdFalls | node/Membership.cpp:188-206 | exactly which step lowers the threshold for certificates of membership |
| Credentials.ComThresholdIff | node/Membership.cpp:178-212 | no order of the same events ever lowers it if and only if no good revocation of a tag, capability or certificate of ownership lies below one of something else |
| Credentials.ComLetInAgain | node/Membership.cpp:99-206 | the run in which a certificate shut out by a revocation is accepted after another revocation |
| Credentials.ComNeverOlder | node/Membership.cpp:100-128 | the certificate of membership held never gets older |
| Credentials.ComAfter | node/Membership.cpp:99-128 | a step takes up a certificate of membership if and only if it is verified, above the threshold and not older than the one held |
| Credentials.ComIsGood | node/Membership.cpp:99-128 | in every run the certificate held is the empty one, or was added and verified |
| Credentials.ComHeld | node/Membership.cpp:99-128 | a verified certificate that was added is followed by one at least as new, unless the threshold covered it then |
| Credentials.CredentialAnswers | node/Membership.cpp:130-163 | each answer exactly: redundant for the same, deferred for an unknown signer past the checks, new if and only if the state changes |
| Credentials.ComAnswers | node/Membership.cpp:99-128 | the same for certificates of membership |
| Credentials.RevocationAnswers | node/Membership.cpp:178-212 | a revocation is new if and only if it raises a threshold, rejected if invalid or of another type, deferred if its signer is unknown |
| Memberships.Membership.AddTo | node/Membership.cpp:130-163 | the shared adder takes the step of the state machine and answers with its outcome |
| Memberships.Membership.AddCredential | node/Membership.cpp:165-176 | the three overloads, each on its table |
| Memberships.Membership.AddCom | node/Membership.cpp:99-128 | the overload for certificates of membership: which certificate is held afterwards and each answer, in terms of timestamps, threshold and verdict |
| Memberships.Membership.AddRevocation | node/Membership.cpp:178-212 | the overload for revocations, by type |
| Memberships.Membership.CleanTable | node/Membership.hpp:230-240 | erasing while visiting keeps exactly the valid entries |
| Memberships.Membership.Clean | node/Membership.cpp:214-219 | all three tables |
| Memberships.Membership.GetTag | node/Membership.hpp:128-132 | the tag that is visible, if any |
| Memberships.Membership.HasCertificateOfOwnershipFor | node/Membership.hpp:108-119 | true exactly when a visible certificate owns the resource or the member emulates its address |
| Memberships.IsInside | node/Membership.hpp:184-197 | the own address is among the static ones and shares its first bytes with the resource |
| Memberships.IsV6NdpEmulated | node/Membership.hpp:180-217 | one of the two own addresses is assigned and shares its first 40 or 88 bits with the resource |
| Memberships.AddToTable | node/Membership.cpp:130-163 | the shared adder on hash tables: the table afterwards is that of the step of the state machine, and the answer its outcome |
| Memberships.CleanHashtable | node/Membership.hpp:230-240 | erasing what the iterator just returned leaves in the hash table exactly what the state machine keeps |
| Memberships.CapabilityIterator.Next | node/Membership.hpp:263-285 | every visible capability once, passing over invisible ones only |
| HashTables.Hashtable.Find | node/Hashtable.hpp:225-240 | the node of a key, or none |
| HashTables.Hashtable.Get | node/Hashtable.hpp:248-259 | the map's value of a key |
| HashTables.Hashtable.Set | node/Hashtable.hpp:309-333 | the map with the key updated, across growth, and exactly when the table grows |
| HashTables.Hashtable.Index | node/Hashtable.hpp:339-362 | the entry of a key, made when missing, and exactly when the table grows |
| HashTables.Hashtable.Insert | node/Hashtable.hpp:323-332 | a new node at the head of its chain |
| HashTables.Hashtable.Erase | node/Hashtable.hpp:281-303 | the map without the key, and which chain lost which node |
| HashTables.Hashtable.Unlink | node/Hashtable.hpp:287-298 | a node leaves its chain, at the head or behind another |
| HashTables.Hashtable.Clear | node/Hashtable.hpp:150-164 | the empty map |
| HashTables.Hashtable.Grow | node/Hashtable.hpp:402-424 | the same nodes in twice the buckets; after a failed allocation everything as before |
| HashTables.Hashtable.MoveBucket | node/Hashtable.hpp:410-419 | the nodes of one bucket move to the heads of their new chains |
| HashTables.Hashtable.Copy | node/Hashtable.hpp:107-124 | a copy in fresh memory with the same contents |
| HashTables.Hashtable.Assign | node/Hashtable.hpp:132-145 | the contents of the other table; a table assigned to itself is empty |
| HashTables.Iterator.Next | node/Hashtable.hpp:70-84 | one pending entry, which is pending no longer; none only when nothing is pending |
| HashTables.Iterator.EraseSeen | node/Hashtable.hpp:56-91 | erasing an entry already returned disturbs nothing that is pending |
| HashTables.Entries | node/Hashtable.hpp:207-218 | a full iteration yields every entry exactly once, as many as the size field says |
| HashTables.EraseUnless | node/Membership.hpp:230-240 | iterating and erasing what was just returned leaves exactly what the test keeps |
| Dictionaries.UnescapeEscape | node/Dictionary.hpp:179-216 | reading undoes the escaping, for every byte string |
| Dictionaries.FindIsLookup | node/Dictionary.hpp:154-247 | searching the text of a list of entries finds the first entry of the key |
| Dictionaries.ScanIsFind | node/Dictionary.hpp:166-241 | for a key without line ends the scan, which goes on where the comparison stopped, finds the first line of the key |
| Dictionaries.FirstAddWins | node/Dictionary.hpp:332-415 | a later entry of the same key is not seen |
| Dictionaries.AppendedIsText | node/Dictionary.hpp:332-415 | appending a line is appending an entry |
| Dictionaries.Dictionary.Load | node/Dictionary.hpp:92-107 | the text cut to the capacity, and whether it fitted |
| Dictionaries.Dictionary.Search | node/Dictionary.hpp:166-241 | for every C string: the walk stops at the value, or the scan of the text finds none |
| Dictionaries.Dictionary.CopyValue | node/Dictionary.hpp:179-219 | the value is unescaped and cut to the destination, with a NUL behind it |
| Dictionaries.Dictionary.Get | node/Dictionary.hpp:154-247 | for every C string: what the scan finds, cut to destlen - 1 bytes, or -1 |
| Dictionaries.Dictionary.Add | node/Dictionary.hpp:332-415 | a line more if it fits; if not, no lookup changes |
| Dictionaries.Dictionary.Compare | node/Dictionary.hpp:167-177 | how much of the key stands at a line |
| Dictionaries.Dictionary.SkipToEnd | node/Dictionary.hpp:222-241 | the end of the line |
| Dictionaries.Dictionary.AddValue | node/Dictionary.hpp:366-410 | the escaped value is written, or everything is taken back |
| Dictionaries.AddsThenGet | node/Dictionary.hpp:154-415 | after any adds, get returns the first accepted value of the key |
| Bonds.Bond.AddPathToBond | node/Bond.cpp:356-362 | one index mapped, one path flagged |
| Bonds.AddressPreference | node/Bond.hpp:1270-1289 | which preferences allow and prefer a path, for either address family |
| Bonds.Bond.ClearMap | node/Bond.cpp:1107-1111 | no slot flagged, no entry mapped |
| Bonds.Bond.LinkGroup | node/Bond.cpp:1113-1122 | the slots on one link, in order |
| Bonds.Bond.AddMatching | node/Bond.cpp:1132-1143 | the loop over one link: every slot that matches gets the next index |
| Bonds.Bond.AddPrimaries | node/Bond.cpp:1174-1203 | preferred paths first, any usable path if there is none |
| Bonds.Bond.AddLink | node/Bond.cpp:1128-1204 | the slots of one link that its address preference chooses |
| Bonds.Bond.Rebuild | node/Bond.cpp:1101-1210 | the map is injective with the sentinel behind it, its image is the flagged slots, all usable, and exactly the chosen ones |
| Bonds.ChosenCases | node/Bond.cpp:1128-1204 | the choice case by case: spares, links without a preference between address types, and links with one |
| Bonds.Bond.SearchNext | node/Bond.cpp:404-413 | the search finds the cyclically first usable index, at the least distance |
| Bonds.Bond.NextStripe | node/Bond.cpp:398-415 | the end of a stripe |
| Bonds.Bond.NextRoundRobin | node/Bond.cpp:388-418 | one packet of the striping, for every state, with a packet counter of 16 bits; at the end of a stripe the new index is the cyclically first usable one after the old, which stays exactly when no other is usable |
| Bonds.Bond.Stripe | node/Bond.cpp:388-418 | after a rebuild packet k goes to index (1 + k / (L + 1)) mod n; for L of 65536 and more all go to the first path |
| RoundRobin.Schedule | node/Bond.cpp:388-418 | the state after k packets in closed form |
| RoundRobin.Profile | node/Bond.cpp:388-418 | how many packets every path has had |
| RoundRobin.Fair | node/Bond.cpp:388-418 | no path is ever more than L + 1 packets ahead of another |
| ActiveBackups.ActiveBackup.DequeueNext | node/Bond.cpp:1471-1484 | the front of the queue becomes active |
| ActiveBackups.ActiveBackup.ForciblyRotateLink | node/Bond.cpp:1486-1496 | the same on request, with nothing changed when nothing is queued |
| ActiveBackups.ActiveBackup.SelectPrimary | node/Bond.cpp:1555-1585 | an eligible path on a primary link: the first preferred one, or without one the last other |
| ActiveBackups.ActiveBackup.SelectActive | node/Bond.cpp:1505-1606 | which path is selected in each mode, and that nothing is selected only when nothing could be |
| ActiveBackups.Conversions | node/Bond.hpp:1359 | conversions between int and the 32-bit score are the two's complement |
| ActiveBackups.QualityOrder | node/Bond.cpp:1704-1733 | primary paths outscore preferred ones and those the others, and quality decides within a class; when optimizing primary counts for nothing |
| ActiveBackups.QualityScores | node/Bond.cpp:1704-1733 | the scores themselves |
| ActiveBackups.OwnScores | node/Bond.cpp:1654-1666 | the score of a path that inherited nothing, by class, and the handicap it passes on |
| ActiveBackups.BacksMeans | node/Bond.cpp:1667-1672 | a path backs another if it is on the link that the link of the other names |
| ActiveBackups.InheritedScores | node/Bond.cpp:1673-1679 | what a backup inherits; it is less than the handicap of the path it backs if and only if that is at least 10, or 11 for a path that is not preferred |
| ActiveBackups.InstructedMeans | node/Bond.cpp:1654-1682 | only the slot itself and those on its failover link get another score |
| ActiveBackups.ActiveBackup.PruneQueue | node/Bond.cpp:1613-1632 | the queue is the usable entries of before, in their order |
| ActiveBackups.ActiveBackup.Enqueue | node/Bond.cpp:1683-1697 | a slot is queued, flagged and mapped to bonded index 0, unless its path is active or queued already; then nothing changes |
| ActiveBackups.GatheredMeans | node/Bond.cpp:1613-1748 | who is queued: the usable ones of before, and candidates whose path neither the active slot nor another queued one has; every candidate is represented |
| ActiveBackups.ActiveBackup.ScoreOwn | node/Bond.cpp:1654-1666 | the score of a path that has not inherited one |
| ActiveBackups.ActiveBackup.ScorePath | node/Bond.cpp:1654-1682 | the scores of all slots after one path has passed its score on |
| ActiveBackups.ActiveBackup.PassOn | node/Bond.cpp:1671-1682 | every path on the failover link inherits, in 32-bit arithmetic |
| ActiveBackups.ActiveBackup.ScoreByInstructions | node/Bond.cpp:1636-1699 | the scores of the user's instructions, and every candidate is active or queued |
| ActiveBackups.ActiveBackup.ScoreByQuality | node/Bond.cpp:1704-1748 | quality plus handicap, and every candidate is active or queued |
| ActiveBackups.ActiveBackup.SortQueue | node/Bond.cpp:1749-1753 | highest score first, the same entries |
| ActiveBackups.ActiveBackup.BuildQueue | node/Bond.cpp:1613-1753 | exactly who is queued and flagged, every candidate is active or queued, and the queue is sorted |
| ActiveBackups.FrontIsBest | node/Bond.cpp:1749-1774 | the front of a sorted queue has the highest score |
| ActiveBackups.ActiveBackup.SwitchToFront | node/Bond.cpp:1765-1774 | a switch picks a usable path of maximal score among those queued |
| ActiveBackups.SwitchesMean | node/Bond.cpp:1785-1835 | when a usable active path is left, and that the new one is then primary, or better |
| ActiveBackups.SwitchesIff | node/Bond.cpp:1785-1835 | when a switch must happen, for each policy |
| ActiveBackups.FailedLeft | node/Bond.cpp:1765-1835 | a failed path always gives way to the front of the queue, and that one only to what the policy wants without waiting |
| ActiveBackups.UsableLeft | node/Bond.cpp:1765-1835 | the whole task abandons a usable active path exactly when the policy says so of the front of the sorted queue |
| ActiveBackups.ActiveBackup.Reselect | node/Bond.cpp:1785-1835 | a switch to the best queued path exactly under the condition of the policy, otherwise no change |
| ActiveBackups.ActiveBackup.FailOver | node/Bond.cpp:1765-1835 | a failed active path is replaced by the best queued one, and the queue loses only that one |
| ActiveBackups.ActiveBackup.Process | node/Bond.cpp:1498-1836 | which path is selected in each mode; active path, queue and time of change afterwards, exactly, as a function of it and the sorted queue; past selection a run ends with a usable active path unless no other candidate exists |
| ActiveBackups.ActiveBackup.Continue | node/Bond.cpp:1613-1836 | what follows the selection of an active path: queue, failover and re-selection |
| Inet4.DownIsPrefix | node/InetAddress.cpp:336-343 | comparing shifted words is comparing leading bits |
| Inet4.ContainsIsPrefix | node/InetAddress.cpp:336-343 | a network contains the addresses that share its first bits |
| Inet4.MatchingPrefixBits | node/InetAddress.hpp:540-551 | the number of leading bits two addresses share |
| Inet4.LongestPrefix | node/InetAddress.hpp:540-551 | the shared prefixes are those up to that length |
| Inet4.ContainsOrMatches | node/InetAddress.hpp:535-576 | for 0 to 32 bits, contained exactly when at least that many bits match |
| Inet4.NetworkLaws | node/InetAddress.cpp:290-307 | for 1 to 31 bits the network is a network, its own network, and contains the address |
| Inet4.IsNetworkMeans | node/InetAddress.cpp:365-374 | for 1 to 31 bits a network is an address without host bits, which is its own network; nothing else is one |
| Inet6.NetmaskBytes | node/InetAddress.cpp:256-278 | the two shifted words are the mask of the first bits, byte by byte |
| Inet6.NetworkBytes | node/InetAddress.cpp:290-307 | the network is the address under that mask |
| Inet6.NetworkLaws | node/InetAddress.cpp:290-307 | the network has no host bits, is its own network and shares the first bits |
| Inet6.ContainsAddress | node/InetAddress.cpp:344-355 | the byte loop decides: the first bits agree, and the prefix itself has no host bits |
| Inet6.IsNetwork | node/InetAddress.cpp:375-394 | 1 to 127 bits and no host bits |
| Inet6.ByteMaskBits | node/InetAddress.cpp:344-355 | equal bytes under a mask are equal leading bits |
| Inet6.MatchingByteBits | node/InetAddress.hpp:557-570 | the bit loop finds the first difference of two bytes |
| Inet6.MatchingPrefixBits | node/InetAddress.hpp:552-573 | the length of the longest common prefix |
| Inet6.ContainsOrMatches | node/InetAddress.hpp:535-576 | containment is enough matching bits and no host bits in the prefix |
| Inet6.NetworkContains | node/InetAddress.cpp:290-397 | the network of an address is accepted as one, contains the address, and another exactly if it shares the bits |
| Buffers.TakePut | node/Buffer.hpp:186-256 | big-endian reading undoes big-endian writing |
| Buffers.PutTake | node/Buffer.hpp:186-256 | and the other way round |
| Buffers.Buffer.Append | node/Buffer.hpp:238-299 | the bytes are appended, or nothing changes and the bounds are reported |
| Buffers.Buffer.SetAt | node/Buffer.hpp:186-201 | an integer is overwritten in place |
| Lists.ReadAllUndoes | node/IncomingPacket.cpp:1104-1201 | a counted list of items is read back when each item is |
| RuleWire.LengthIsLength | node/Capability.hpp:180-292 | the length byte of every rule is the length of its field |
| RuleWire.FieldRoundTrip | node/Capability.hpp:187-383 | the field of a rule of every type is read back, wrapping integer ranges included |
| RuleWire.RuleRoundTrip | node/Capability.hpp:180-387 | a rule is read back and the reader stops behind its last byte |
| RuleWire.SameRule | node/Capability.hpp:195-199 | it is the same rule if and only if its address has 40 bits and a PRIORITY rule names no bucket |
| RuleWire.UnknownRuleSkipped | node/Capability.hpp:294-387 | a rule of a type that is unknown or has no field, with L bytes, is skipped by 2 + L |
| RuleWire.RulesRoundTrip | node/Capability.hpp:180-387 | lists of rules |
| RuleWire.SerializeRules | node/Capability.hpp:180-292 | the printer appends these bytes, or reports the bounds exactly when they do not fit |
| RuleWire.DeserializeRules | node/Capability.hpp:294-387 | the loop is the recursive reading, errors included |
| CapabilityWire.ChainRoundTrip | node/Capability.hpp:404-476 | the chain of custody up to its first empty slot is read back into new slots |
| CapabilityWire.SignatureRoundTrip | node/Capability.hpp:463-475 | a signature of 96 bytes with its kind and length is read back |
| CapabilityWire.OtherSignatures | node/Capability.hpp:463-475 | a signature of another kind is skipped by its length, and one of another length refused |
| CapabilityWire.ChainWithin | node/Capability.hpp:453-462 | no slot from the chain length on is ever written; where the chain would get there only its end is accepted |
| CapabilityWire.TailRoundTrip | node/Capability.hpp:448-484 | chain length, chain and extension field |
| CapabilityWire.CapabilityRoundTrip | node/Capability.hpp:389-484 | for every capability, suffix and offset: what the wire carries comes back and exactly its bytes are consumed, or the chain length is refused |
| CapabilityWire.WholeCapability | node/Capability.hpp:389-484 | exactly when that is the whole capability: whole rules, and nothing in custody behind the first empty slot |
| CapabilityWire.CapabilityLength | node/Membership.cpp:62 | no capability takes more than 2137 bytes |
| CapabilityWire.SerializeChain | node/Capability.hpp:404-417 | the loop appends the chain and its terminator |
| CapabilityWire.Serialize | node/Capability.hpp:389-426 | the printer |
| CapabilityWire.DeserializeChain | node/Capability.hpp:453-476 | the loop is the recursive reading of the chain |
| CapabilityWire.Deserialize | node/Capability.hpp:428-484 | the parser |
| MembershipWire.InOrderMeans | node/CertificateOfMembership.hpp:256-263 | the check along the list says that ids never go down |
| MembershipWire.ComRoundTrip | node/CertificateOfMembership.hpp:228-286 | a certificate of membership is read back exactly when its qualifiers are in order, and refused otherwise |
| MembershipWire.ComLength | node/CertificateOfMembership.hpp:228-241 | at most 296 bytes, the first of which is not zero |
| MembershipWire.Serialize | node/CertificateOfMembership.hpp:228-241 | the printer |
| MembershipWire.DeserializeQualifiers | node/CertificateOfMembership.hpp:254-275 | the loop is the recursive reading, errors included |
| MembershipWire.Deserialize | node/CertificateOfMembership.hpp:243-286 | the parser |
| CertificateWire.TagRoundTrip | node/Tag.hpp:121-183 | a tag is read back |
| CertificateWire.TagLength | node/Tag.hpp:121-145 | a tag takes 135 bytes |
| CertificateWire.SerializeTag | node/Tag.hpp:121-145 | the printer |
| CertificateWire.ThingsRoundTrip | node/CertificateOfOwnership.hpp:172-214 | up to sixteen things are read back |
| CertificateWire.CooRoundTrip | node/CertificateOfOwnership.hpp:161-238 | a certificate of ownership is read back, with the slots behind the count as new |
| CertificateWire.CooLength | node/CertificateOfOwnership.hpp:161-190 | at most 413 bytes |
| CertificateWire.SerializeCoo | node/CertificateOfOwnership.hpp:161-190 | the printer |
| CertificateWire.DeserializeThings | node/CertificateOfOwnership.hpp:208-214 | the loop reads sixteen things at most |
| CertificateWire.DeserializeCoo | node/CertificateOfOwnership.hpp:192-238 | the parser |
| CertificateWire.RevocationRoundTrip | node/Revocation.hpp:131-206 | a revocation is read back |
| CredentialPackets.CredentialRoundTrip | node/IncomingPacket.cpp:1104-1201 | every kind of credential that is sent is read back, or refused exactly for a chain length outside 1 to 7 |
| CredentialPackets.ComsRoundTrip | node/IncomingPacket.cpp:1084-1101 | certificates of membership up to the zero byte |
| CredentialPackets.PacketRoundTrip | node/IncomingPacket.cpp:1084-1201 | a packet is read whole and in it is found what it was loaded with |
| CredentialPush.Lengths | node/Membership.cpp:60-88 | every credential is shorter than what is reserved for it |
| CredentialPush.PushSome | node/Membership.cpp:60-66 | one counted loop: as many as leave room, the count in front, never over the limit, stopping only when full or done |
| CredentialPush.PushPacket | node/Membership.cpp:51-93 | one packet, below the limit, and progress whenever something is left |
| CredentialPush.PushCredentials | node/Membership.cpp:28-97 | it terminates, and the packets carry the configuration, each credential once and in order |
| CredentialPush.SelectFound | node/Membership.cpp:28-97 | what is found in the loads, kind by kind |
| CredentialPush.PushAndRead | node/Membership.cpp:28-97 | pushing and then reading gives back the configuration, kind by kind and in order |
| CredentialReceiver.AllHanded | node/IncomingPacket.cpp:1084-1201 | without deferrals every credential of a joined network is handed over, and trust means one was accepted |
| CredentialReceiver.HandedUntilDeferral | node/IncomingPacket.cpp:1084-1201 | the first deferral is the last credential handed over |
| CredentialReceiver.ComNetworkIs | node/CertificateOfMembership.hpp:169-177 | the first qualifier with id 1 names the network; without one it is 0 |
| CredentialReceiver.HandedMeans | node/IncomingPacket.cpp:1086-1201 | which network a credential goes to, kind by kind, and that this node must have joined it |
| CredentialReceiver.Receiver.Add | node/IncomingPacket.cpp:1113-1123 | one answer of a network, which may depend on all it was given before, and whether it means trust |
| CredentialReceiver.Receiver.HandCom | node/IncomingPacket.cpp:1086-1100 | a certificate of membership always looks its network up, unless it is empty |
| CredentialReceiver.Receiver.Hand | node/IncomingPacket.cpp:1109-1123 | another credential reuses the current network when it is its own, which changes nothing |
| CredentialReceiver.Receiver.ReceiveSections | node/IncomingPacket.cpp:1104-1201 | the sections in order; a packet that ends between two of them ends the handler early |
| CredentialReceiver.Receiver.ReceiveComs | node/IncomingPacket.cpp:1084-1101 | the loop over certificates of membership |
| CredentialReceiver.Receiver.ReceiveSection | node/IncomingPacket.cpp:1104-1124 | a counted loop |
| CredentialReceiver.Receiver.Receive | node/IncomingPacket.cpp:1069-1206 | handing over while reading is reading first and handing over afterwards, up to a deferral or an error |
| CredentialReceiver.PushToPeer | node/Membership.cpp:28-97 | a peer that defers nothing hands over exactly the configuration's credentials of joined networks, each once and in order |

## Left out

- Instructions, memory and machines: SIMD instructions are functions on words and lanes; the VAES and ARM variants, the unaligned and type-punned branches, big-endian machines and encryption in place over the input are not modelled.
- The key schedule of `p_init_aesni` is not modelled; the AES-NI modes take any block cipher with an inverse.
- GmacStream.Gmac.Update: a single call takes fewer than 2^32 bytes, as its unsigned length does.
- CtrStream.Ctr.Crypt: the total length stays below 2^32 bytes, as the unsigned length of the object does.
- GmacSiv.Seal: plaintexts of up to 2^31 bytes and one chunk of associated data, which is what the interface allows; both passes are given the same plaintext, which is the caller's duty.
- Signatures and the look-up of signers are an oracle with one fixed verdict per credential; elliptic curves, SHA-512 and Salsa20 are not part of this model.
- Timestamps are unbounded integers in the state machine; the subtraction of two timestamps near the ends of 64 bits is not modelled.
- Memberships.Membership.AddTo: credentials are equal when all their fields are; the comparison of padding bytes by memcmp is not modelled.
- The tables of the class `Membership` are finite maps; the adder and the cleaner are proved on hash tables as well, the other members of the class are not.
- HashTables.Hashtable.Copy: the buckets are walked with the cursor of the iterator; the order of copied chains is not stated.
- Dictionaries.AddsThenGet: keys are the legal ones of node/Dictionary.hpp:325, free of NUL, CR, LF and '='; Get and Add alone are modelled for every C string.
- Dictionaries.Dictionary.Get: the overloads for numbers, buffers and addresses only format values.
- Dictionaries.Dictionary.Add: values come with their length; the form that takes a C string cuts at its NUL first.
- Bonds.Bond.Rebuild: the order in which links come, which is that of their addresses in memory, is a parameter, and so is the link of a path; that no two entries of it are equal and every link in use is among them is what a map guarantees.
- Bonds.Bond.NextRoundRobin: the random choice for zero packets per link is a parameter, and so are all measured qualities: the estimation in floating point is not modelled.
- The refreshing of eligibility at the start of `curateBond`, flows, status reports, packet counters and path negotiation messages are not modelled.
- ActiveBackups.ActiveBackup.SortQueue: sorting is by insertion; std::sort leaves the order of equal scores open.
- ActiveBackups.ActiveBackup.Reselect: the threshold, which the code computes in floating point, is a parameter.
- Inet4.NetworkLaws: for no netmask bits the code shifts a 32-bit word by 32, which C++ leaves undefined; likewise for Inet6 networks without netmask bits. Netmask lengths beyond 32 and 128 are not modelled, and addresses of different families are never compared.
- RuleWire.FieldBytes: the part of a rule's union that its type selects is a value of its own; other bytes of the union are never printed.
- The forms of credentials that are signed rather than sent are not modelled.
- CredentialPush.PushSome: the sizes of objects in memory are those of a 64-bit machine without packing; the three loops of the code, which differ in the kind of credential, are one method here, and so are the four loops of the receiver.
- Credentials are values here; the objects the parsers fill are not shared. Positions are unbounded: they grow by less than 2^17 between two bounds checks, so no unsigned position wraps.
- CertificateWire.CooRoundTrip: at most sixteen things; a parsed count above sixteen is kept, as the code keeps it, but never printed.
- Compression, armouring and sending of packets, rate limits, locks, metrics and traces are not modelled.
