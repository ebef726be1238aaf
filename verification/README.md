# elpis-resolver: a verified model of its core

elpis-resolver is a recursive DNS resolver written in C.  This project models the parts of it
whose correctness is hardest to see from the code, in Dafny, and proves what each of them is
for.  `dafny verify dfyconfig.toml` checks everything.

The main results, hardest first:

* **TLS 1.3 client engine** (`TlsEngine`, `TlsFeed`, `TlsRun`, `TlsOrder`, `TlsInflow`).  For every sequence of
  feeds, writes, reads and closes: an open connection acted on the server's flight in order, all
  of it after the ServerHello came out of the AEAD, and its Finished was checked under the exchanged secret
  (`TlsOrder.OpenRun`); no nonce repeats under a key, no application data is accepted before
  the handshake is done, and after close_notify at most one fatal alert goes out (`TlsOrder.SafeRun`);
  all it acts on or hands out is the content of records in the bytes fed (`TlsInflow.RunAccounts`);
  how the network cuts the byte stream makes no difference (`TlsFeed.FeedSplit`).
* **Answers through the message cache** (`WireParse`, `Builder`, `Records`, `Mcache`, `AnswerPath`).  Whatever is
  done with a message builder, rollbacks included, every compressed name parses back
  (`Builder.Run`).  An answer that is composed, stored and served within any byte budget is read back as
  the same records, with TTLs decayed (`Mcache.ServedMeans`, and down to the client's buffer
  `AnswerPath.StoreAndServe`).
* **Denial of existence** (`Nsec`, `Nsec3`).  Both proof procedures are sound and complete against a
  zone given as a set of names (`Nsec.NxdomainSound`, `Nsec.NxdomainComplete`, `Nsec3.NxdomainSound`,
  `Nsec3.NxdomainComplete`, joined in `Nsec.Deny` and `Nsec3.Deny`), on the canonical order proved total and suffix-convex (`Names`).
* **Bignum arithmetic** (`Limbs`, `Bn`, `Montgomery`, `Modexp`).  `Modexp.ModExp` is a^e mod m; the 32-bit and
  64-bit Montgomery loops return the same number and never leave their machine words.
* **Shared cache** (`SwissTable`, `Cache`).  The open-addressing table with tombstones refines a map; eviction
  and budget rules hold over every sequence of operations (`Cache.Run`).
* **Poly1305 and ML-DSA** (`Poly1305`, `Mldsa`, `Ntt`, `NttRing`, `NttLoops`, `MldsaW`).  The tag is that of
  RFC 8439 for every chunking (`Poly1305.Authenticate`); the in-place transforms invert each other, turn
  multiplication modulo X^256 + 1 into entry-wise products (`NttRing.ProductPointwise`), and compute the
  verifier's w = A z - c t1 2^13 exactly and without overflow (`MldsaW.VerifierW`).
* **Timer heap, server statistics, name set** (`TimerHeap`, `Infra`, `Nameset`).

`Words`, `ModArith`, `Bytes` and `Limbs` hold shared definitions and number theory.  Code that updates
objects in place is modelled by classes and arrays; each method is proved against a
specification function or predicate, and the properties are proved of that.  Machine widths
are explicit: values of type `u32`, `u64`, `u128`, `i32` and `i64` carry the proof that they fit,
and wrap-around is written out where the code relies on it.

## Findings

Where the code does not meet what is said about it, the model follows the code and states when it does.

| code | input | exact condition |
|---|---|---|
| src/dnssec/nsec.c:100-135, NXDOMAIN from NSEC | zone {x, a.b.x}, NSEC at x, query b.x: an empty non-terminal is denied (`Nsec.EmptyNonTerminalDenied`) | a positive answer is a true NXDOMAIN if and only if no record has its owner or its next name at or below the query name (`Nsec.NxdomainExactly`) |
| src/dnssec/nsec.c:42-57, covering NSEC at a zone cut (section 4.1 of RFC 6840) | zone {x, b.x} cut at b.x, NSEC at b.x, query a.b.x: a name of the child is denied (`Nsec.ChildDenied`) | a positive answer holds for the children too if and only if no covering record is owned by a cut strictly above the query name (`Nsec.AbsentBelowCutsIff`) |
| src/crypto/bn.c:122-142, sum of two numbers | 2^(32*143) plus zero gives zero: the 144th limb is ignored (`Bn.AddLosesTop`) | the sum is exact if and only if both operands are below 2^(32*143) (`Bn.AddExactIff`) |
| src/crypto/mldsa.c:92-97, range in the comment of reduce32 | 2143289343 gives 6283008 (`Mldsa.Reduce32Ends`) | the range is [-6283009, 6283008], both ends reached (`Mldsa.Reduce32Ok`) |
| src/cache/mcache.c:441-482, dropping after `confirm` denials | 17 denials in a row with `confirm` 17: not dropped, the count saturates (`Mcache.NeverDropped`); the program itself passes 1 to 15 (src/conf.c:371), for which it is right (`Mcache.DropConfirmed`) | dropped if and only if denied, `confirm` is at most 16 and that many denials came in a row (`Mcache.DropIff`) |
| src/cache/infra.c:57-70, ageing after an hour, across the wrap of the 32-bit clock of seconds | timeouts at 2^32-20, 2^32-20 and 5: no hold after 25 s of silence (`Infra.LateHold`); claims at 2^32-100 and a second later: both granted (`Infra.ClaimTwice`) | the test agrees with the time elapsed if and only if the sum wraps exactly when the clock has (`Infra.DeadlineRightIff`); a second claim within ten seconds is refused if and only if the clock is more than an hour from wrapping or wrapped in between (`Infra.ClaimRefusedIff`) |
| src/cache/infra.c:339-357, relying on DNS over TLS within a time to live, across the same wrap | an answer at 2^32-100 good for 50 s, at time 10: relied on 110 s later (`Infra.StaleUse`) | when it is relied on, the time to live is not over if and only if the clock has not wrapped since the answer, or the deadline has too (`Infra.UseOnlyIf`) |

## Model

| member | source | states |
|---|---|---|
| `SwissTable.GroupByte` | src/cache/cache.c:77-83 | reading a sixteen-byte group that runs past the end of the control bytes sees the first bytes of the table again, thanks to the mirrored tail |
| `SwissTable.PlaceOk` | src/cache/cache.c:355-431 | filling a free slot whose earlier groups on the probe path are all full keeps every entry reachable from its home slot, no key twice, and updates the abstract map at exactly one key |
| `SwissTable.DropOk` | src/cache/cache.c:186-201 | turning a full slot into a tombstone (never into EMPTY) keeps every other entry reachable and takes exactly one key out of the map |
| `SwissTable.ReplaceOk` | src/cache/cache.c:366-383 | overwriting the entry of a slot by one with the same key keeps the table well formed and changes the map at that key only |
| `SwissTable.FreeSlotExists` | src/cache/cache.c:129-148 | a table with fewer live entries than slots has a slot that is not full |
| `Cache.Shard.constructor` | src/cache/cache.c:57-75 | a new shard is well formed, every counter is exact, and it stands for the empty map |
| `Cache.Shard.FindSlot` | src/cache/cache.c:85-127 | the probe finds the slot of a key exactly when some slot of the table holds it: stopping at the first group with an EMPTY byte never misses an entry |
| `Cache.Shard.FindFree` | src/cache/cache.c:129-148 | the first free slot on the probe path, with every group before it full; none exactly when the whole table is full |
| `Cache.Shard.Rehash` | src/cache/cache.c:150-184 | growing or cleaning rebuilds the table without tombstones; the map and all byte counts are the same as before |
| `Cache.Shard.SlotDrop` | src/cache/cache.c:186-201 | takes out one entry, leaves a tombstone, settles used, tombstone, byte and pin counters, and removes that key alone from the map |
| `Cache.Shard.EvictOne` | src/cache/cache.c:203-237 | the CLOCK sweep, at most two rounds: it fails exactly when every entry is pinned and unexpired; the victim is expired or unpinned, and a referenced unexpired victim is taken only when nothing was expired and every unpinned entry was referenced |
| `Cache.Shard.Lookup` | src/cache/cache.c:325-348 | a hit exactly when the map has the key, returning its value and setting the reference bit; the map does not change |
| `Cache.Shard.MakeRoom` | src/cache/cache.c:385-389 | the eviction loop only ever evicts evictable entries, stops as soon as the new entry fits, and otherwise leaves nothing evictable |
| `Cache.Shard.Grow` | src/cache/cache.c:401-411 | the load-factor check: afterwards there is a free slot, the map is unchanged and at most seven eighths of the slots are used or tombstones |
| `Cache.Shard.Insert` | src/cache/cache.c:355-431 | a present key is replaced; a new key goes in after evicting only evictable entries and only when the byte budget asks for it; an unpinned entry that gets in leaves the shard within budget; the one reason to refuse is an unpinned entry over budget with nothing evictable left |
| `Cache.Shard.Remove` | src/cache/cache.c:433-449 | removes the key if it is there, reports whether it was, and touches nothing else |
| `Cache.Shard.Flush` | src/cache/cache.c:451-465 | empties the shard, clears the tombstones and zeroes the counters |
| `Cache.Shard.Expire` | src/cache/cache.c:467-497 | the background sweep empties exactly the slots among the next `per` after the hand whose entry has expired, counts them, and leaves every other slot as it was |
| `Cache.Run` | src/cache/cache.c:355-497 | over every sequence of inserts, lookups, removals, flushes and sweeps from an empty shard, the table stays well formed, counters stay exact, whatever is held for a key is the value last put under it, and a key that was last put and is missing was refused (unpinned only), evictable at a later insert, or expired at a sweep; a pinned entry without expiry is never missing |
| `Cache.PinnedStays` | src/cache/cache.c:186-237 | a pinned entry that never expires gives no operation a reason to lose it |
| `Bn.Trim` | src/crypto/bn.c:33-37 | drops leading zero limbs without changing the number |
| `Bn.Cmp` | src/crypto/bn.c:48-60 | -1, 0 or 1 exactly as the numbers compare |
| `Bn.Bits` | src/crypto/bn.c:62-79 | the number lies in [2^(bits-1), 2^bits) |
| `Bn.Bit` | src/crypto/bn.c:81-87 | bit i of the number, zero beyond the limbs |
| `Bn.Add` | src/crypto/bn.c:122-142 | the sum; with an operand of 144 limbs the loop stops at limb 143, so the result is the sum of both operands modulo 2^(32*143) |
| `Bn.AddExactIff` | src/crypto/bn.c:122-142 | what Add returns is a + b if and only if both operands are below 2^(32*143) |
| `Bn.AddLosesTop` | src/crypto/bn.c:122-142 | a number of 144 limbs, 2^(32*143), plus zero: the code returns zero |
| `Bn.Sub` | src/crypto/bn.c:144-160 | the difference; below zero it wraps modulo 2^32 to the limb count of the longer operand |
| `Bn.MulRow` | src/crypto/bn.c:171-186 | one row of the schoolbook product adds a_i * b * 2^(32 i) modulo 2^(32*144), every partial sum within 64 bits |
| `Bn.Mul` | src/crypto/bn.c:162-192 | the product modulo 2^(32*144), exact when the limb counts add up to at most 144; the result may be an operand |
| `Bn.Shl1` | src/crypto/bn.c:194-207 | doubling; only a bit shifted out of limb 144 is lost |
| `Bn.ShiftIn` | src/crypto/bn.c:221-231 | one step of the long division keeps the remainder of the bits taken so far |
| `Bn.Mod` | src/crypto/bn.c:209-235 | the true remainder for every a and every positive m, also when the result is one of them |
| `Montgomery.AccumulateRow32` | src/crypto/bn.c:398-408 | t + a_i * b computed limb by limb, each product and running sum within 64 bits |
| `Montgomery.ReduceRow32` | src/crypto/bn.c:410-420 | adds the multiple of m that clears the lowest word and shifts down by exactly one word |
| `Montgomery.LowWordClears` | src/crypto/bn.c:410-412 | with inv = -1/m modulo the word, adding q * m makes the lowest word zero, so the shift loses nothing |
| `Montgomery.Cios32` | src/crypto/bn.c:376-431 | the 32-bit word loop: the result is below 2m and times 2^(32k) is congruent to a * b modulo m, with no intermediate value leaving its machine word |
| `Montgomery.Cios64` | src/crypto/bn.c:321-373 | the 64-bit word loop: below 2m and congruent to a * b after multiplying by 2^(64k), with every product and sum within 128 bits |
| `Modexp.MontMul32` | src/crypto/bn.c:376-431 | the 32-bit product after the one conditional subtraction is the Montgomery product |
| `Modexp.MontMul64` | src/crypto/bn.c:321-373 | the 64-bit path, with limbs packed in pairs and unpacked again, gives the Montgomery product |
| `Modexp.MontProductUnique` | src/crypto/bn.c:310-431 | for an odd modulus there is only one Montgomery product, so the two paths return the same number |
| `Modexp.MontMul` | src/crypto/bn.c:376-431 | whichever path is taken, the result is below m and equals a * b / 2^(32k) modulo m; operands may be the result and may be as large as m |
| `Modexp.NewtonStep` | src/crypto/bn.c:280-292 | x * (2 - a x) doubles the number of bits to which x inverts a |
| `Modexp.Inverse32` | src/crypto/bn.c:280-285 | five steps from 1 give the inverse of an odd word modulo 2^32 |
| `Modexp.Inverse64` | src/crypto/bn.c:287-292 | six steps give the inverse of an odd word modulo 2^64 |
| `Modexp.PowerOfTwoMod` | src/crypto/bn.c:299-306 | repeated doubling with subtraction computes 2^e modulo m, never overflowing the headroom |
| `Modexp.MontInit` | src/crypto/bn.c:261-308 | succeeds exactly for an odd modulus with at least one and at most 142 limbs, and then the context is right |
| `Modexp.MontTo` | src/crypto/bn.c:433-436 | the result is a * 2^(32k) modulo m |
| `Modexp.MontFrom` | src/crypto/bn.c:438-443 | out of Montgomery form: the number that went in, modulo m |
| `Modexp.SquareMultiply` | src/crypto/bn.c:465-469 | one exponent bit keeps the accumulator the power of the bits read so far |
| `Modexp.ModExp` | src/crypto/bn.c:445-471 | r = a^e mod m for every a and every e, e = 0 and m = 1 included |
| `Poly1305.ChunkVal` | src/crypto/poly1305.c:26-30 | the five 26-bit limbs read from a block stand for its sixteen bytes and the high bit |
| `Poly1305.ColumnsCong` | src/crypto/poly1305.c:32-41 | the five folded column sums stand for the product modulo 2^130 - 5 |
| `Poly1305.MulCarry` | src/crypto/poly1305.c:32-50 | multiply and carry: congruent to the product, limbs back in range, no sum or carry leaving its word |
| `Poly1305.KeyClamped` | src/crypto/poly1305.c:58-72 | the masked limbs of r are the clamped first sixteen key bytes of RFC 8439, section 2.5 |
| `Poly1305.Mac.Block` | src/crypto/poly1305.c:13-56 | one block keeps the accumulator congruent to the polynomial of the bytes absorbed |
| `Poly1305.Mac.Update` | src/crypto/poly1305.c:74-99 | absorbs the bytes, whatever was left in the partial block: only the concatenation of all updates matters |
| `Poly1305.CarryAll` | src/crypto/poly1305.c:116-120 | a full carry leaves 26-bit limbs and the same value modulo 2^130 - 5 |
| `Poly1305.SubtractOnce` | src/crypto/poly1305.c:122-136 | the conditional subtraction leaves the residue below 2^130 - 5 |
| `Poly1305.Pack` | src/crypto/poly1305.c:138-142 | five limbs become four words, the number modulo 2^128 |
| `Poly1305.AddPad` | src/crypto/poly1305.c:144-152 | adds the pad modulo 2^128 and writes the bytes |
| `Poly1305.Mac.Final` | src/crypto/poly1305.c:101-155 | the tag of the bytes absorbed, short last block included |
| `Poly1305.Authenticate` | src/crypto/poly1305.c:58-155 | for every key and every way of cutting the message into updates, the tag is the one defined in section 2.5 of RFC 8439 |
| `Mldsa.MontReduceOk` | src/crypto/mldsa.c:86-90 | for a strictly between -2^31 q and 2^31 q the result lies in (-q, q) and times 2^32 is congruent to a |
| `Mldsa.Reduce32Ok` | src/crypto/mldsa.c:93-97 | congruent to a and within [-6283009, 6283008] |
| `Mldsa.Reduce32Ends` | src/crypto/mldsa.c:92-97 | both ends are reached, so the upper bound in the comment is one too small |
| `Mldsa.Brv8` | src/crypto/mldsa.c:111-117 | the loop reverses the eight bits |
| `Mldsa.ZetaPower` | src/crypto/mldsa.c:119-141 | square and multiply gives zeta^e modulo q |
| `Mldsa.ZetasInit` | src/crypto/mldsa.c:119-141 | entry k of the table is zeta^brv8(k) in Montgomery form, centred |
| `Mldsa.ZPair` | src/crypto/mldsa.c:143-177 | the twiddle factor used by the inverse transform undoes the one used by the forward transform at the mirrored index |
| `Ntt.LayerUndone` | src/crypto/mldsa.c:143-177 | an inverse layer over a forward layer doubles every coefficient |
| `Ntt.LayerRedone` | src/crypto/mldsa.c:143-177 | a forward layer over an inverse layer doubles every coefficient |
| `Ntt.RoundTrip` | src/crypto/mldsa.c:143-177 | all inverse layers over all forward layers multiply every coefficient by 256 |
| `Ntt.RoundTripBack` | src/crypto/mldsa.c:143-177 | all forward layers over all inverse layers multiply every coefficient by 256 |
| `NttLoops.Butterflies` | src/crypto/mldsa.c:149-154 | the inner loop of ntt is one block of butterflies modulo q; coefficients grow by less than q and stay in 32 bits |
| `NttLoops.Forward` | src/crypto/mldsa.c:143-157 | the in-place transform equals the mathematical one modulo q, with coefficients below 9q |
| `NttLoops.Unbutterflies` | src/crypto/mldsa.c:166-172 | the inner loop of invntt_tomont is one block of inverse butterflies modulo q, coefficients at most doubling |
| `NttLoops.FinalScale` | src/crypto/mldsa.c:175-176 | the final factor is 2^24 modulo q after Montgomery reduction |
| `NttLoops.Inverse` | src/crypto/mldsa.c:159-177 | the in-place inverse equals the inverse layers times 2^24 modulo q, with coefficients in (-q, q) and no 32-bit overflow on the way |
| `NttLoops.ThereAndBack` | src/crypto/mldsa.c:143-177 | forth and back multiplies every coefficient by 2^32 modulo q |
| `NttLoops.Pointwise` | src/crypto/mldsa.c:183-191 | stored or accumulated products divided by 2^32 modulo q, bounded |
| `NttLoops.Subtract` | src/crypto/mldsa.c:193-198 | coefficient-wise difference without overflow |
| `NttLoops.ReduceAll` | src/crypto/mldsa.c:200-205 | every coefficient reduced to the centred range, same residues |
| `NttLoops.CaddqAll` | src/crypto/mldsa.c:207-212 | every coefficient moved to [0, q), same residues |
| `NttLoops.RowTimes` | src/crypto/mldsa.c:529-534 | one row of A times NTT(z): the dot product divided by 2^32, bounded by 7q |
| `NttLoops.ComputeRow` | src/crypto/mldsa.c:537-545 | one row of w: the transform of the result is the row of A NTT(z) - NTT(c) NTT(t1 2^13), coefficients end in [0, q), and nothing overflows 32 bits |
| `NttLoops.ComputeW` | src/crypto/mldsa.c:525-545 | all rows of w for all three parameter sets, with the transforms of z, c and t1 2^13 it is computed from |
| `NttRing.TransformEvaluates` | src/crypto/mldsa.c:143-157 | entry i of the transform is the polynomial evaluated at the i-th root of X^256 + 1 modulo q |
| `NttRing.RingMulIs` | src/crypto/mldsa.c:183-191 | the ring product used below is the textbook negacyclic convolution |
| `NttRing.ProductPointwise` | src/crypto/mldsa.c:183-191 | multiplying transforms entry by entry is multiplying polynomials modulo X^256 + 1 and q |
| `NttRing.TransformLinear` | src/crypto/mldsa.c:143-157 | the transform is linear modulo q |
| `NttRing.TransformInjective` | src/crypto/mldsa.c:143-177 | polynomials with the same transform are equal modulo q |
| `MldsaW.RowMeans` | src/crypto/mldsa.c:537-545 | a row that is right in the transform domain is right in the ring |
| `MldsaW.VerifierW` | src/crypto/mldsa.c:525-545 | w is A z - c t1 2^13 in the ring of polynomials modulo X^256 + 1 and q, for all three parameter sets, every coefficient the residue in [0, q) |
| `MldsaW.LeastUnique` | src/crypto/mldsa.c:525-545 | there is only one such w |
| `Names.LabelCount` | src/dns/name.c:26-106 | a name of n labels takes at least 2n + 1 bytes, so 255 bytes never hold more than 127 labels |
| `Names.WireEqIff` | src/dns/name.c:308-313 | comparing length and case-folded wire bytes is equality of the case-folded names: length bytes are never letters |
| `Names.NameEq` | src/dns/name.c:308-313 | the byte loop over two wire forms answers equality of the case-folded names |
| `Names.CommonIsLongest` | src/dns/name.c:396-413 | the number of shared trailing labels is that of the longest common suffix |
| `Names.CommonLabels` | src/dns/name.c:396-413 | the climbing loop computes the number of labels of the longest common suffix |
| `Names.LabelOffsets` | src/dns/name.c:467-474 | walking the length bytes of a wire form gives the offset of every label |
| `Names.CompareLabels` | src/dns/name.c:476-492 | one label of the canonical comparison: folded bytes, then lengths |
| `Names.CanonCmpWire` | src/dns/name.c:460-495 | the comparison over label offsets of two wire forms is the canonical order of section 6.1 of RFC 4034 |
| `Names.NameCmpTotal` | src/dns/name.c:460-495 | that order is antisymmetric, and equal exactly for the same name up to case |
| `Names.NameCmpTrans` | src/dns/name.c:460-495 | the canonical order is transitive |
| `Names.AncestorFirst` | src/dns/name.c:460-495 | a name sorts after every proper ancestor |
| `Names.SuffixConvex` | src/dns/name.c:460-495 | the names below one suffix are contiguous in the order |
| `NameText.ToText` | src/dns/name.c:241-279 | succeeds exactly when the escaped text and its NUL fit, and writes that text |
| `NameText.ReadText` | src/dns/name.c:151-239 | the reading loop, escapes included, refines its specification |
| `NameText.TextBack` | src/dns/name.c:151-279 | every valid name read back from its own text is that very name, for all label bytes |
| `NameText.FromTextSound` | src/dns/name.c:151-239 | whatever text is accepted gives a valid name at most two bytes longer than the text |
| `WireParse.NameParse` | src/dns/name.c:26-106 | the loop with its pointer, length and label limits returns what the recursive reading of the message returns, and the end offset of the name in place |
| `WireParse.DecParses` | src/dns/name.c:26-106 | an encoding (literal labels, then a strictly backward pointer to an encoding, or the root) parses to its name |
| `WireParse.DecFrame` | src/dns/name.c:26-106 | parsing a name depends only on the bytes of its own encoding |
| `WireParse.DecFold` | src/dns/name.c:26-106 | changing the case of label bytes changes the case of the parsed name and nothing else |
| `Nsec.ParseLoop` | src/dns/name.c:108-145 | the uncompressed parser loop refines its specification |
| `Nsec.ParseNoCompIff` | src/dns/name.c:108-145 | the uncompressed parser returns (n, e) exactly when the bytes start with the wire form of the valid name n, e bytes long |
| `Nsec.CoversOnWire` | src/dnssec/nsec.c:42-57 | reading the next name and comparing wire forms decides whether the record covers the name, the wrap at the end of the zone included |
| `Nsec.CeLabelsIsMax` | src/dnssec/nsec.c:78-98 | the closest-encloser label count is the maximum shared with any owner or next name |
| `Nsec.ClosestEncloserLabels` | src/dnssec/nsec.c:78-98 | the loop computes that maximum |
| `Nsec.ProvesNxdomain` | src/dnssec/nsec.c:100-135 | the procedure answers yes exactly when q is covered, unmatched, and the wildcard at the computed encloser is covered and unmatched |
| `Nsec.CoveredIsAbsent` | src/dnssec/nsec.c:37-57 | a name covered by a true NSEC, the wrapping last one included, owns no records in the zone |
| `Nsec.NeighbourShares` | src/dnssec/nsec.c:73-98 | any suffix q shares with a name of the zone it shares with the owner or the next name of the record that covers q |
| `Nsec.CeIsDeepest` | src/dnssec/nsec.c:73-98 | the computed encloser is the deepest ancestor of q that exists in the zone |
| `Nsec.NxdomainSound` | src/dnssec/nsec.c:100-135 | a positive answer from true records is right: q owns nothing, the encloser is the deepest existing one, the wildcard is not there |
| `Nsec.NxdomainExactly` | src/dnssec/nsec.c:100-135 | given a positive answer, q does not exist in any form if and only if no record has an owner or next name at or below q |
| `Nsec.EmptyNonTerminalDenied` | src/dnssec/nsec.c:100-135 | the zone with records at x and a.b.x: its true NSEC at x proves b.x absent, though b.x is an empty non-terminal |
| `Nsec.NxdomainComplete` | src/dnssec/nsec.c:100-135 | with the whole chain every name that does not exist in any form, and that no wildcard answers, is proved absent |
| `Nsec.AbsentBelowCutsIff` | src/dnssec/nsec.c:42-135 | given a positive answer, q is absent from the zone and from every possible child zone if and only if no record covering q is owned by a zone cut strictly above q |
| `Nsec.ChildDenied` | src/dnssec/nsec.c:42-135 | the zone x delegating b.x: the NSEC at the cut proves a.b.x absent, whatever the child holds |
| `Nsec.Deny` | src/dnssec/nsec.c:100-135 | the procedure judged against the zone: a yes is right, and with the whole chain there is a yes for every name that can be denied |
| `Nsec.DeniableMet` | src/dnssec/nsec.c:100-135 | the premises of completeness can be met: zone x, one record, query b.x |
| `Nsec3.PickParams` | src/dnssec/nsec3.c:251-260 | the parameters of the first record that parses, none exactly when none does |
| `Nsec3.CoveredByAny` | src/dnssec/nsec3.c:262-289 | yes exactly when some record with these parameters covers the hash; the opt-out flag is that of the first such record |
| `Nsec3.MatchedByAny` | src/dnssec/nsec3.c:291-318 | yes exactly when some record with these parameters matches the hash |
| `Nsec3.FindClosestEncloser` | src/dnssec/nsec3.c:206-249 | the deepest suffix of q, not above the zone, whose hash is matched |
| `Nsec3.ArcUnique` | src/dnssec/nsec3.c:187-195 | two arcs of one chain that cover the same hash are the same arc |
| `Nsec3.ProvesNxdomain` | src/dnssec/nsec3.c:320-358 | the answer is secure, opt-out or unproven exactly by matched encloser, covered next closer name and covered wildcard; an iteration count over the limit is unproven |
| `Nsec3.NxdomainSound` | src/dnssec/nsec3.c:320-358 | a positive answer from true records and a hash without collisions is right: the encloser is in the zone, nothing at or below the next closer name is, the wildcard is not, and the opt-out verdict is that of the chain for the arc over the next closer name, whichever record is met first |
| `Nsec3.NxdomainComplete` | src/dnssec/nsec3.c:320-358 | with the whole chain among the records, whatever else in the answer does not parse, every absent name that no wildcard answers has a proof under any record of the chain |
| `Nsec3.Deny` | src/dnssec/nsec3.c:320-358 | the procedure judged against the zone: a positive answer is right and is opt-out exactly when the arc over the next closer name is, and with the whole chain there is one for every name that can be denied, records that do not parse notwithstanding |
| `Nsec3.DeniableMet` | src/dnssec/nsec3.c:320-358 | the premises of completeness can be met: zone x, its one record, a record that does not parse, query b.x |
| `Builder.Bld.constructor` | src/dns/msg.c:343-360 | an empty builder over a buffer of the given size |
| `Builder.Bld.Mark` | src/dns/msg.c:362-368 | remembers length and table size |
| `Builder.Bld.Rollback` | src/dns/msg.c:370-377 | rolling back to any mark still valid gives the builder as it was then, still sound: no table entry and no pointer refers to bytes that are gone |
| `Builder.MarkKept` | src/dns/msg.c:362-377 | whatever is appended later, a mark stays good |
| `Builder.MarkBack` | src/dns/msg.c:362-377 | after a rollback, marks no later than the one rolled back to are still good |
| `Builder.Bld.Bytes` | src/dns/msg.c:379-401 | appends or, when it does not fit, changes nothing and sets the overflow flag |
| `Builder.Bld.Header` | src/dns/msg.c:403-412 | twelve header bytes with zero counts |
| `Builder.Bld.Register` | src/dns/msg.c:414-434 | registers the newly written suffixes while the table has room and the offset fits a pointer |
| `Builder.Bld.CtabFind` | src/dns/msg.c:436-447 | the first table entry equal up to case, if there is one |
| `Builder.Bld.LongestSuffix` | src/dns/msg.c:449-498 | the longest suffix of the name that is in the table |
| `Builder.CostLeast` | src/dns/msg.c:449-498 | no other listed suffix would give a shorter encoding |
| `Builder.CostWithin` | src/dns/msg.c:449-498 | compression never makes a name longer |
| `Builder.NameOnWire` | src/dns/msg.c:449-498 | appending a name compressed keeps the invariant: every name and table entry still decodes |
| `Builder.SuffixDecodes` | src/dns/msg.c:449-498 | each suffix of the new name decodes where it stands |
| `Builder.Bld.PutName` | src/dns/msg.c:449-498 | succeeds exactly when the compressed name fits, takes exactly that many bytes, leaves the bytes before it alone, and the parser reads it back as the name up to case |
| `Builder.Bld.PutRaw` | src/dns/msg.c:500-503 | the whole name, not offered to later names |
| `Builder.Bld.Question` | src/dns/msg.c:505-535 | question name in full, type and class, registered for compression, and counted |
| `Builder.Bld.RrBegin` | src/dns/msg.c:537-553 | succeeds exactly when owner and ten bytes fit; writes them, records where the TTL is, and returns where the length goes |
| `Builder.Bld.RrEnd` | src/dns/msg.c:555-567 | fills in the length of what was written since, or fails without change when it does not fit 16 bits |
| `Builder.Bld.Count` | src/dns/msg.c:569-580 | adjusts one section count within 16 bits or refuses |
| `Builder.Bld.Finish` | src/dns/msg.c:582-590 | puts the counts into the header and changes nothing else |
| `Builder.SoundDecodes` | src/dns/msg.c:343-590 | the invariant speaks of the very parser that reads messages |
| `Builder.Run` | src/dns/msg.c:343-590 | after any sequence of calls, with rollbacks to any mark still held, every name in the message and every table entry parses back to itself up to case |
| `Records.RrNext` | src/dns/msg.c:311-337 | one record: owner, fixed fields and data, or an error for anything that runs past the end |
| `Records.FixedBack` | src/dns/msg.c:311-337 | the ten fixed bytes written are the fields read |
| `Records.AppendRecord` | src/resolver/resolver.c:3196-3204 | one record is appended exactly when it fits, reads back from its slot, leaves all earlier records in place, and its TTL is tracked while there is room |
| `Records.AppendSection` | src/resolver/resolver.c:3189-3243 | a section holds exactly its records in order; it fails only when they would not fit uncompressed |
| `Records.Compose` | src/resolver/resolver.c:3177-3258 | the composed message holds question and all records in order with right counts, section offsets and TTL offsets; there is one whenever the answer fits in 65535 bytes without compression |
| `Mcache.CountTtls` | src/cache/mcache.c:332-343 | the sizing pass counts exactly the TTLs the filling pass keeps |
| `Mcache.FillTtls` | src/cache/mcache.c:390-407 | the filling pass keeps exactly the TTLs inside the blob whose offsets do not go backwards |
| `Mcache.Store` | src/cache/mcache.c:302-412 | when an entry is refused, skipped or kept, and every field of a kept one |
| `Mcache.ChooseFits` | src/cache/mcache.c:203-237 | what goes out is within budget and buffer unless header and question alone are not; truncation exactly when the part that must go out does not fit; a client that asked for DNSSEC loses the authority section only in a truncated message |
| `Mcache.PatchElsewhere` | src/cache/mcache.c:269-285 | bytes outside TTL fields are copied unchanged |
| `Mcache.PatchField` | src/cache/mcache.c:269-285 | each TTL field that survives holds the decayed TTL, or the stale TTL when it has run out |
| `Mcache.Entry.Patch` | src/cache/mcache.c:269-285 | the patching loop, which breaks off at the first TTL that was cut, does that in place |
| `Mcache.Entry.WantPrefetch` | src/cache/mcache.c:164-195 | a refresh is asked for exactly when the entry is near its end and the last request is long enough ago, and asking is remembered |
| `Mcache.Entry.Serve` | src/cache/mcache.c:129-296 | when nothing is served, and otherwise exactly which bytes, TTL, staleness and prefetch request |
| `Mcache.TruncationShown` | src/cache/mcache.c:243-252 | the TC bit is set when the message is truncated and otherwise as the caller had it; the response code is the stored one |
| `Mcache.CutAtBoundary` | src/cache/mcache.c:203-237 | for every budget the cut falls on a record boundary and the counts say how many records are left |
| `Mcache.ServedHeader` | src/cache/mcache.c:243-256 | the header reads back as the id, one question and the counts of what is kept |
| `Mcache.RecordsRead` | src/cache/mcache.c:258-285 | the records of a served message parse one after the other |
| `Mcache.ServedMeans` | src/cache/mcache.c:129-296 | composing, storing and serving: for every budget, elapsed time and spelling of the question, the message holds a prefix of the answer and each record reads back as it was put in, up to the case of its owner and with its TTL decayed |
| `Mcache.ServedDecayed` | src/cache/mcache.c:269-285 | for every answer that came out of a record list (at most 512 records, src/dns/rrlist.c:60) every record of the served message reads back with its TTL decayed: the 4096 TTL slots are enough |
| `Mcache.StoreAnswer` | src/cache/mcache.c:302-412 | storing a composed answer gives an entry for that answer, whenever the answer fits without compression |
| `AnswerPath.PlainNameReads` | src/dns/name.c:26-106 | a name written out in any case parses to that name up to case, ending where it was written to end |
| `AnswerPath.ServedQuestion` | src/cache/mcache.c:258-265 | the question of a served message parses as the question of the stored answer, in the spelling of the client |
| `AnswerPath.StoreAndServe` | src/cache/mcache.c:129-412 | composing, storing and serving into the buffer of the client: what lies there parses as a reply with the given id, one question equal to the one asked, and a prefix of the records of the answer with decayed TTLs, as many as the counts say; exactly when nothing is stored and nothing is served |
| `Mcache.Entry.RefreshOutcome` | src/cache/mcache.c:441-482 | failure count and denial count, each saturating at 15 in its nibble |
| `Mcache.CountsAfter` | src/cache/mcache.c:441-482 | after any history the nibbles are the number of refreshes and of denials in a row, capped at 15 |
| `Mcache.DropConfirmed` | src/cache/mcache.c:441-482 | for every number of confirmations the configuration lets through (1 to 15, src/conf.c:371) the entry is dropped exactly on that many denials in a row |
| `Mcache.NeverDropped` | src/cache/mcache.c:441-482 | seventeen denials in a row with seventeen asked for: not dropped |
| `Mcache.DropIff` | src/cache/mcache.c:441-482 | an entry is dropped exactly on the denial that completes `confirm` in a row, and never when more than 16 are asked for |
| `TlsRun.NonceInjective` | src/net/tls.c:301-309 | different 64-bit sequence numbers give different nonces under one IV |
| `TlsRun.SealedNumbered` | src/net/tls.c:342-373 | sealing a record under the next number keeps all numbers of an epoch distinct and in order |
| `TlsRun.PutOneView` | src/net/tls.c:342-373 | a record put on the queue is of the kind and content asked for, or nothing changes |
| `TlsRun.FailWrites` | src/net/tls.c:377-394 | a failure keeps the write history well formed: numbers in order within an epoch, and after close_notify nothing but one fatal alert |
| `TlsRun.KeyUpdateWrites` | src/net/tls.c:664-689 | a key update starts a new write epoch in which nothing has been sealed and keeps the write history well formed |
| `TlsRun.FeedWrites` | src/net/tls.c:1031-1068 | feeding any bytes keeps the write history well formed |
| `TlsFeed.FailEnds` | src/net/tls.c:377-394 | after a failure the engine is no longer active |
| `TlsFeed.StripPadding` | src/net/tls.c:886-890 | the loop finds the content type: the last byte that is not zero |
| `TlsFeed.HelloExtsLoop` | src/net/tls.c:437-472 | the extension loop of the ServerHello refines its specification: bad lengths, a version other than 1.3, another group and any extension that was not offered are refused |
| `TlsFeed.FeedSplit` | src/net/tls.c:1031-1068 | feeding a and then b is feeding both at once, for every state and every cut |
| `TlsFeed.Engine.constructor` | src/net/tls.c:906-914 | the engine after its ClientHello |
| `TlsFeed.Engine.PutChunks` | src/net/tls.c:342-373 | the chunking loop refines its specification, the full queue included |
| `TlsFeed.Engine.ActOn` | src/net/tls.c:757-795 | the loop over buffered handshake messages refines its specification, key-change straddling included |
| `TlsFeed.Engine.FeedBytes` | src/net/tls.c:1031-1068 | the reassembly loop refines its specification |
| `TlsOrder.HelloFlow` | src/net/tls.c:405-510 | after a ServerHello the traffic secrets are those of the X25519 exchange and the two hellos |
| `TlsOrder.FinishedFlow` | src/net/tls.c:588-660 | the handshake completes only on a Finished that is the HMAC of the transcript before it |
| `TlsOrder.MessageFlow` | src/net/tls.c:692-752 | any message in any state keeps the handshake history in order or fails |
| `TlsOrder.FeedFlow` | src/net/tls.c:1031-1068 | feeding any bytes keeps the handshake history in order or fails |
| `TlsOrder.RecordInflow` | src/net/tls.c:844-900 | a record adds handshake bytes in the clear only before there are keys, and everything else only from what the AEAD opened |
| `TlsOrder.RunOk` | src/net/tls.c:906-1123 | every state reachable from a fresh engine by any feeds, writes, reads and closes satisfies the invariant |
| `TlsOrder.OpenRun` | src/net/tls.c:588-752 | an open engine acted on the server flight in order, each message hashed once; all but the ServerHello came out of the AEAD; the Finished was verified under the exchanged secret |
| `TlsOrder.SafeRun` | src/net/tls.c:906-1123 | in every reachable state: no application data before the handshake is done, no nonce twice under one key, and after close_notify at most one fatal alert |
| `TlsInflow.RecordAccounts` | src/net/tls.c:844-900 | one record is accounted for: what it adds is its content, in the clear only before there are keys, otherwise opened by the AEAD |
| `TlsInflow.FeedAccounts` | src/net/tls.c:1031-1068 | feeding any bytes keeps the account: records stand one behind the other in the bytes fed |
| `TlsInflow.RunAccounts` | src/net/tls.c:906-1123 | over every run all handshake bytes acted on and all application data read or waiting are, in order, the contents of records found one behind the other in the bytes fed, each opened by the AEAD except the clear handshake ones |
| `TlsInflow.OpenAccounts` | src/net/tls.c:588-1123 | for an open engine: the ServerHello is the content of the clear records, the other messages of the server that of the sealed handshake records, and the data read or waiting that of the sealed application records |
| `TimerHeap.UpStep` | src/net/loop.c:91-100 | one step up leaves at most the new place out of order |
| `TimerHeap.DownStep` | src/net/loop.c:102-115 | one step down leaves at most the old place of the earliest child out of order |
| `TimerHeap.RootLeast` | src/net/loop.c:82-115 | the root of an ordered heap is the earliest deadline |
| `TimerHeap.Loop.Swap` | src/net/loop.c:82-89 | swaps two timers and their back indices |
| `TimerHeap.Loop.Up` | src/net/loop.c:91-100 | restores the order above a slot and keeps the set of timers |
| `TimerHeap.Loop.Down` | src/net/loop.c:102-115 | restores the order below a slot and keeps the set of timers |
| `TimerHeap.Loop.Add` | src/net/loop.c:117-139 | afterwards exactly t more is pending, at now + delay, whether or not it was pending before |
| `TimerHeap.Loop.Del` | src/net/loop.c:141-157 | afterwards exactly t less is pending |
| `TimerHeap.Loop.RunTimers` | src/net/loop.c:159-174 | with callbacks that add and delete any timers: each timer fired was due and the earliest pending one; at most 4097 fire; below that none due is left; and with callbacks that touch no timer only due ones are gone |
| `Infra.SmoothedOk` | src/cache/infra.c:134-160 | the smoothed RTT moves towards the sample and not past it, staying put exactly when the sample is less than 8 ms above; both figures stay in range |
| `Infra.TimeoutOk` | src/cache/infra.c:174-198 | a timeout keeps the record and the history of timeouts in step |
| `Infra.StepOk` | src/cache/infra.c:57-132 | every update, read-side ageing included, keeps the record in step with its history |
| `Infra.Run` | src/cache/infra.c:57-436 | every sequence of events keeps the record in step with its history |
| `Infra.RttInRange` | src/cache/infra.c:134-160 | in every reachable record the RTT figures are in range |
| `Infra.HeldOnlyIf` | src/cache/infra.c:174-227 | a server is held for a query class only after three timeouts since its last answer, one of that class, and one at least ten seconds into the silence by the 32-bit clock |
| `Infra.DeadlineRightIff` | src/cache/infra.c:57-424 | a wrapped deadline compared with the wrapped clock agrees with the time elapsed if and only if the sum wraps exactly when the clock has |
| `Infra.HoldRightIff` | src/cache/infra.c:174-198 | the test for ten seconds of silence passes before ten seconds have elapsed if and only if the sum wraps and the clock has not; it fails after ten seconds if and only if the clock has wrapped and the sum does not |
| `Infra.EarlyHold` | src/cache/infra.c:174-198 | a record on which the test alone passes at once |
| `Infra.HeldReally` | src/cache/infra.c:57-227 | over every run of a clock that only goes forward, a server is held only when two timeouts with no answer since really were ten seconds apart: where the test would pass early the ageing test has already reset the record |
| `Infra.LateHold` | src/cache/infra.c:57-198 | three timeouts over 25 seconds across the wrap of the clock, and no hold: the record was taken for aged |
| `Infra.UnavailableOnlyIf` | src/cache/infra.c:404-424 | DNS over TLS is given up only after more failures since it last worked than the last one allowed |
| `Infra.UseRightIff` | src/cache/infra.c:339-357 | while the deadline has not come, the time to live is not over if and only if the clock has not wrapped since the answer or the deadline has |
| `Infra.UseOnlyIf` | src/cache/infra.c:339-402 | DNS over TLS is relied on only after a success with no failure since; by the time elapsed it is within the time to live if and only if the clock has not wrapped since, or the deadline wrapped too |
| `Infra.StaleUse` | src/cache/infra.c:339-402 | a success good for 50 seconds, relied on 110 seconds later across the wrap of the clock |
| `Infra.ClaimAlone` | src/cache/infra.c:361-377 | for a claim granted more than an hour before the clock wraps: over every run of events in its ten seconds that do not end the test or lose the record, no other claim is granted and the mode is never a trial |
| `Infra.ClaimRefusedIff` | src/cache/infra.c:57-377 | of two claims less than ten seconds apart the second is refused if and only if the clock is more than an hour from wrapping or wrapped between them |
| `Infra.ClaimTwice` | src/cache/infra.c:57-377 | a claim a hundred seconds before the wrap, and another granted a second later |
| `Nameset.FindEnds` | src/nameset.c:17-28 | with an empty slot somewhere, the probe ends at the name or at an empty slot |
| `Nameset.FindTells` | src/nameset.c:17-28 | the probe ends at the name exactly when the table holds it |
| `Nameset.Stored` | src/nameset.c:65-70 | storing a name where the probe ended keeps every stored name reachable |
| `Nameset.NameSet.FindSlot` | src/nameset.c:17-28 | the probe loop computes that slot and tells membership |
| `Nameset.NameSet.Put` | src/nameset.c:53-76 | adds one name of the list, skipping those that do not parse and those already there; the byte area is never overrun |
| `Nameset.NameSet.constructor` | src/nameset.c:30-77 | the table stands for exactly the names of the list that parse, at most half full |
| `Nameset.NameSet.Match` | src/nameset.c:79-106 | the label count of the deepest listed suffix of q, 0 when there is none |

## Left out

- Mcache.ServedMeans: beyond 4096 records, which the record list excludes, TTLs would go out undecayed; `Mcache.ServedDecayed` is stated for what the list lets through.
- Infra.EarlyHold: shows the test of one function alone; `Infra.HeldReally` shows that no forward clock leads there.
- TlsOrder.OpenRun: the crypto primitives (X25519, HKDF, HMAC, AEAD, hash) are arbitrary functions; nothing is said about their strength.
- TlsOrder.SafeRun: nonces are distinct below 2^64 records in one epoch; the code has no guard that stops a key before its 64-bit counter wraps.
- Nsec3.NxdomainSound: assumes the hash does not collide on the zone and the ancestors of the query name; SHA-1, base32hex and the rdata parser n3_parse are not modelled, records come parsed.
- Records.Compose: the records come already sorted into sections, those hidden from the client left out; the composer calls question_raw on case-folded bytes; the model calls the builder's question on the folded name, which writes the same bytes.
- Infra.Run: the update's own clock and the caller's `now` are one clock in the model.
- TimerHeap.Loop.RunTimers: callbacks are scripts of additions and deletions; growth of the timer array is not modelled.
- Cache.Shard.Insert: byte counters and capacity are unbounded, allocation does not fail, and entries are values, so aliasing and freeing are not captured.
- Builder.Bld.Rollback: requires a mark that no rollback to an earlier point has invalidated, as its callers do.
- Sampling, hints, packing and hashing of ML-DSA: A, z, c and t1 come decoded, within the bounds their decoders guarantee.
- Locks, races between threads and the shard selection of the cache: one shard under its lock is modelled.
- SIMD group probing in the cache: the byte-wise meaning of a group probe is modelled.
- Allocation failure everywhere.
- elpis_msg_parse, skip_rr and EDNS option parsing: record iteration is modelled, the message scanner is not.
- The lookup and key comparison of the message cache, ECS scopes and the security status field.
- NSEC and NSEC3 proofs of NODATA, missing DS and insecure delegation, and the type bitmaps: they reuse the covering and matching proved here and add easier members.
- bn_from_bytes, bn_to_bytes, bn_addmod, bn_submod and bn_modinv_prime: easier members over the same operations.
- X25519, P-256, RSA, SHA-2, Keccak and the remaining primitives.
- TLS buffer memory layout, trimming, and the bytes of the ClientHello: the engine starts from a given ClientHello; wiping a secret is setting it to empty.
- EDNS, cookie, ECS and cost fields of the server statistics.
- The resolver state machine, networking, configuration and control channel.
