# A verified model of the disk encryption core

Dafny models of the parts of a Windows disk-encryption tool that carry its promises: the CRC and its combination, the
three block ciphers with their key schedules, XTS mode with its pipelined cores and cascades, the SHA-512 family up to
the random generator, the planner for the EFI partition, the MBR and EFI boot installers, and Base64.
`dafny verify dfyconfig.toml` checks all of it.

## What is proved

- **CRC-32** (`Crc32`). Table, byte loop and combination against a bit-by-bit definition, up to
  crc32_combine(crc32(A), crc32(B), |B|) = crc32(A ++ B). The loop without a zero guard ends exactly for non-zero first
  factors, and only such factors reach it.
- **Ciphers** (`AesField`, `AesSbox`, `AesRounds`, `Aes`, `Serpent`, `SerpentKeys`, `Twofish`, `TwofishKeys`). Decryption
  undoes encryption for every key and block; unrolled, bitsliced, table-driven and renaming forms equal plain ones; key
  setup fills the tables with the function they cache. `Fips197`, `SerpentReference` and `TwofishReference` have the
  ciphers and key schedules as their specifications write them, over cells, bits and the function h; the code computes
  them.
- **XTS** (`Tweaks`, `Xts`, `AesLanes`, `XtsCores`, `Cascades`, `XtsKey`, `XtsStandard`, `SealedFile`). One
  specification; the scalar loop and the AES-NI, ARM64 and Twofish loops all write exactly that, also in place. Sector
  numbers as bytes and distinct tweaks, the seven algorithms written out, round trip, splitting, locality, and the file
  whose ciphertext is overwritten with its salt.
- **Hashing** (`Sha512Core`, `Sha512Constants`, `Sha512Roots`, `Fips180`, `Hashing`, `Sha512`, `Hmac`, `Pbkdf2`, `Drbg`).
  Any cutting of a message gives the digest of the standard, from big-endian words to constants that are roots of primes;
  HMAC, PBKDF2 with a copied context, and a generator whose every run obeys its reseed limit.
- **Disks** (`GptLayout`, `DiskAccess`, `Mbr`, `MbrInstall`, `EfiBoot`). The ESP planner, the read-modify-write access,
  and two installers as state machines that never lose the boot code they replace; for every MBR operation, exactly
  when it succeeds.
- **Base64** (`Base64`). Sizes, round trip and the exact set of accepted texts.

`Wrappers`, `Words`, `Lookup`, `Schedule` and `Division` hold shared definitions.

## Where the code does less than it seems to promise

- The gap path of the ESP planner appends its entry to the end of the partition array instead of inserting it by offset
  as the shrink path does. `GptLayout.SortedUnlessInGap` shows that on ordinary disks the array is then never sorted;
  the partitions are disjoint all the same.
- `dc_restore_msft_boot` by itself deletes the renamed boot manager whenever the boot file is not recognised as ours,
  for instance after an interrupted copy. All its callers are guarded; `EfiBoot.UnguardedKeepsIff` says what the guard
  is worth. It and `dc_replace_msft_boot` report success whatever happened.
- The unaligned disk access moves one sector too many when a request ends with a sector, and is then refused at the end
  of the disk; `DiskAccess.ServedIff` has the exact condition.
- The size check of `b64_decode` does not bound its writes for valid texts with three or more trailing pads
  (`Base64.OnePastTheEnd`), unless the size wraps and every buffer is refused (`Base64.AllPads`);
  `Base64.SizeCheckBounds` has the exact condition.
- Removing the MBR loader zeroes the saved boot record before it writes it back: `MbrInstall.KeepsDuringRemoval` says
  at which of its writes it may be interrupted.
- On a disk of exactly loader size plus eight sectors without partitions an installation at the end puts the boot record
  on top of the loader (`MbrInstall.OverlaidDisk`, `MbrInstall.OnTopAccepted`).
- The end of a partition is computed in 32 bits. A protective entry ends in sector zero, and an installation at the end
  is placed inside it (`MbrInstall.ProtectiveIsNoPartition`, `MbrInstall.ClearIff`).
- `dc_find_conf` finds a configuration with room for its short form only (`MbrInstall.FoundButTooLong`).
- A replacement that stops between its move and its copy leaves no boot file, and then neither replace nor restore does
  anything (`EfiBoot.BringsBackIff`).
- `sha512_done` stores a 64-bit length: its padding is that of the standard exactly below 2^64 bits, as its comment says.

## How the model reads the code

- Macros and unrolled rounds are straight-line functions; loops, buffers and structures that change are methods, arrays
  and classes. A structure that is assigned as a whole (the HMAC context) is saved and restored as a value.
- Bitsliced, round and mode code is written over an arbitrary word or block type and instantiated, so that every vector
  type and every cipher is covered by one proof.
- AES instructions have the meaning FIPS 197 gives their steps. A buffer is an array of 16-byte blocks.
- Device and file operations, the outcome of the file system shrink, the file system recognition on a boot record and the
  loader resources are parameters.

## Model

| member | source | states |
|---|---|---|
| `Crc32.TableEntry` | DCrypt/crypto_lib/crc32.c:12-56 | every entry of the 256-word table is eight single-bit steps of its index |
| `Crc32.TableStepIsEightSteps` | DCrypt/crypto_lib/crc32.c:62-64 | one table-driven byte step is eight reflected polynomial steps of the register, for every register and byte |
| `Crc32.StepXor` | DCrypt/crypto_lib/crc32.c:76-91 | the one-bit step is linear over exclusive or |
| `Crc32.StepNonzero` | DCrypt/crypto_lib/crc32.c:76-91 | multiplication by x never takes a non-zero word to zero, so no power of x is zero |
| `Crc32.RegisterAffine` | DCrypt/crypto_lib/crc32.c:58-66 | a difference in the register passes through a message as a plain multiplication by x^8n: the CRC is affine |
| `Crc32.ChecksumConcat` | DCrypt/crypto_lib/crc32.c:58-66 | the CRC of a concatenation from the CRCs of its parts and the length of the second one |
| `Crc32.Crc32` | DCrypt/crypto_lib/crc32.c:58-66 | the pointer loop computes the bit-by-bit CRC of its bytes |
| `Crc32.Crc32Indexed` | DCrypt/crypto/crc32.c:79-88 | the other version of the loop computes the same CRC |
| `Crc32.MulOne` | DCrypt/crypto_lib/crc32.c:76-91 | the unit of the product modulo the polynomial |
| `Crc32.MulStepLeft` | DCrypt/crypto_lib/crc32.c:76-91 | the product commutes with the one-bit step in its left factor |
| `Crc32.MulXPow` | DCrypt/crypto_lib/crc32.c:93-108 | multiplying by x^n is n one-bit steps |
| `Crc32.XPowAdd` | DCrypt/crypto_lib/crc32.c:93-108 | powers of x multiply by adding exponents |
| `Crc32.UnguardedLoopTerminatesIff` | DCrypt/crypto_lib/crc32.c:76-91 | the loop without a zero guard leaves for a first factor if and only if that factor is not zero |
| `Crc32.MultModP` | DCrypt/crypto_lib/crc32.c:76-91 | the unguarded loop ends and yields the product modulo the polynomial for every non-zero first factor |
| `Crc32.MultModPGuarded` | DCrypt/crypto/crc32.c:93-112 | the guarded version computes the product for all factors, hence agrees with the unguarded one wherever that one ends |
| `Crc32.X2nModP` | DCrypt/crypto_lib/crc32.c:93-108 | square-and-multiply yields x^(n * 2^k) for all n and k, and its own products all terminate |
| `Crc32.Crc32Combine` | DCrypt/crypto_lib/crc32.c:110-116 | combining multiplies the first CRC by x^(8 len2); the unguarded product it relies on terminates |
| `Crc32.CombineIsConcat` | DCrypt/crypto_lib/crc32.c:110-116 | for all byte strings, combining their CRCs gives the CRC of their concatenation |
| `Crc32.Residue` | DCrypt/crypto_lib/crc32.c:58-66 | a string followed by its own CRC, little-endian, has the CRC 0x2144DF1C, which fixes starting value and final complement |
| `AesField.GMul` | DCrypt/crypto_lib/aes_key.c:54-64 | the shift-and-add loop is multiplication in GF(2^8), for all factors |
| `AesField.GfMulXor` | DCrypt/crypto_lib/aes_key.c:54-64 | the field product distributes over exclusive or |
| `AesField.InvSboxSbox` | DCrypt/crypto_lib/aes_key.c:22-47 | the inverse S-box undoes the S-box on all 256 bytes |
| `AesSbox.SboxIsAffineOfInverse` | DCrypt/crypto_lib/aes_key.c:22-47 | every entry of the S-box is the affine map of the field inverse of its index, section 5.1.1 of FIPS 197 |
| `AesSbox.InverseUnique` | DCrypt/crypto_lib/aes_key.c:22-64 | a byte has one inverse in the field only |
| `AesField.UnmixColumnXor` | DCrypt/crypto_lib/aes_key.c:80-92 | InvMixColumns is linear over exclusive or |
| `AesField.UnmixMixColumn` | DCrypt/crypto_lib/aes_key.c:80-92 | InvMixColumns undoes MixColumns on every column |
| `Aes.InvMixColumn` | DCrypt/crypto_lib/aes_key.c:80-92 | inv_mix_column on a packed word is InvMixColumns on its four bytes |
| `Aes.Expand` | DCrypt/crypto_lib/aes_key.c:101-115 | the loop over enc_key fills it with the 60 words of the FIPS 197 key expansion |
| `Aes.Invert` | DCrypt/crypto_lib/aes_key.c:117-124 | dec_key gets the groups in reverse order, with inv_mix_column run on all but the first and the last |
| `Aes.ScheduledKey.SetKey` | DCrypt/crypto_lib/aes_key.c:94-125 | both schedules after aes256_set_key, for every 32-byte key |
| `Aes.InverseSchedule` | DCrypt/crypto_lib/aes_key.c:117-124 | for any expanded key the transformed schedule is the schedule of the equivalent inverse cipher |
| `Aes.AesIsLawful` | DCrypt/crypto_lib/xts_aes_ce.c:30-118 | the AES transformations satisfy the laws the equivalent inverse cipher rests on: S-box and MixColumns invertible, InvMixColumns linear |
| `AesRounds.DecryptCeInverse` | DCrypt/crypto_lib/xts_aes_ce.c:34-118 | over any lawful transformations, 14 rounds of AESD and AESIMC under the inverse schedule undo 14 rounds of AESE and AESMC |
| `AesRounds.NiIsCe` | DCrypt/crypto_lib/xts_aes_ni.c:60-77 | grouping the same rounds as AESENC and AESDEC gives the same block transforms |
| `Aes.DecryptInverse` | DCrypt/crypto_lib/xts_aes_ce.c:34-118 | for every 256-bit key and block, the block decryption with dec_key undoes the encryption with enc_key |
| `Fips197.ShiftRowsAt` | DCrypt/crypto_lib/xts_aes_ce.c:30-38 | row r of the state moves r columns to the left, by index |
| `Fips197.KeyWordIs` | DCrypt/crypto_lib/aes_key.c:101-115 | every word of enc_key is that of section 5.2 of FIPS 197, written over bytes |
| `Fips197.EncryptIsCipher` | DCrypt/crypto_lib/xts_aes_ce.c:34-76 | the fourteen rounds of AESE and AESMC under enc_key are the cipher of section 5.1 of FIPS 197, cell by cell, for every key and block |
| `AesLanes.Encrypt8IsEight` | DCrypt/crypto_lib/xts_aes_ni.c:81-106 | eight interleaved copies of the encryption rounds are eight independent blocks |
| `AesLanes.Decrypt8IsEight` | DCrypt/crypto_lib/xts_aes_ni.c:81-106 | the same for decryption |
| `AesLanes.Encrypt4IsFour` | DCrypt/crypto_lib/xts_aes_ce.c:186-227 | four inlined copies of the encryption rounds are four independent blocks |
| `AesLanes.Decrypt4IsFour` | DCrypt/crypto_lib/xts_aes_ce.c:293-334 | the same for decryption |
| `Serpent.SboxBits` | DCrypt/crypto_lib/serpent_sboxes.h:35-442 | on one bit lane each forward gate sequence is the S-box table of the cipher, and the inverse sequence undoes it |
| `Serpent.SboxLanes` | DCrypt/crypto_lib/serpent_sboxes.h:35-442 | a gate sequence acts on every bit lane by itself, for any word type |
| `Serpent.SboxInverse` | DCrypt/crypto_lib/serpent_sboxes.h:35-442 | each inverse gate sequence undoes its forward one on all lanes |
| `Serpent.LtInverse` | DCrypt/crypto_lib/serpent_sboxes.h:444-476 | SB_ILT undoes SB_LT |
| `Serpent.EncryptIsLoop` | DCrypt/crypto_lib/serpent.c:109-142 | the unrolled schedule is the plain loop over 31 rounds and the final one |
| `Serpent.DecryptInverse` | DCrypt/crypto_lib/serpent.c:109-176 | over any bitwise and linear word operations, the unrolled decryption undoes the unrolled encryption |
| `Serpent.WordsAreBitwise` | DCrypt/crypto_lib/serpent.c:31-37 | 32-bit words are 32 independent lanes determined by their bits |
| `Serpent.WordsAreLinear` | DCrypt/crypto_lib/serpent.c:31-37 | the rotations and exclusive ors the linear transform is undone with |
| `Serpent.WordDecryptInverse` | DCrypt/crypto_lib/serpent.c:109-176 | serpent256_decrypt undoes serpent256_encrypt for every expanded key and block |
| `SerpentReference.LtBits` | DCrypt/crypto_lib/serpent_sboxes.h:444-458 | SB_LT as equations between bits |
| `SerpentReference.EncryptIsCipher` | DCrypt/crypto_lib/serpent.c:109-142 | over every word type the unrolled encryption is the cipher of the specification on 32 nibbles: tables, bit equations, and two key additions in the last round |
| `SerpentReference.WordEncryptIsCipher` | DCrypt/crypto_lib/serpent.c:109-142 | serpent256_encrypt is that cipher for every expanded key and block |
| `SerpentKeys.FillPrekeys` | DCrypt/crypto_lib/serpent.c:76-81 | the work array holds the affine prekey recurrence |
| `SerpentKeys.FillRoundKeys` | DCrypt/crypto_lib/serpent.c:83-104 | round key g is S-box (3 - g) mod 8 of four prekeys, through the switch of the code |
| `SerpentKeys.SetKey` | DCrypt/crypto_lib/serpent.c:69-107 | the 132 words of the expanded key, for every 32-byte key |
| `SerpentReference.NextWord` | DCrypt/crypto_lib/serpent.c:76-81 | the prekey recurrence with its four taps, constant and rotation written out |
| `SerpentReference.PhiIsGolden` | DCrypt/crypto_lib/serpent.c:20-20 | the constant of the recurrence is the fraction of the golden ratio |
| `SerpentReference.KeyWordsAreNumbers` | DCrypt/crypto_lib/serpent.c:69-81 | the first eight words are the little-endian numbers of the key |
| `SerpentReference.RoundKeyNibbles` | DCrypt/crypto_lib/serpent.c:83-104 | every round key is table number (3 - g) mod 8 on the nibbles of four prekeys |
| `Twofish.RoundInverse` | DCrypt/crypto_lib/twofish.c:399-421 | a decryption round undoes the encryption round with the same number |
| `Twofish.DecryptInverse` | DCrypt/crypto_lib/twofish.c:423-475 | decryption undoes encryption for every key schedule and block |
| `Twofish.EncryptIsTextbook` | DCrypt/crypto_lib/twofish.c:423-448 | renaming the halves instead of swapping them computes the textbook Feistel network |
| `TwofishReference.EncryptIsCipher` | DCrypt/crypto_lib/twofish.c:329-448 | under the key structure of any key the encryption is the cipher of the specification, written with h, the rotation by 8, the pseudo-Hadamard sums and the subkeys K_0 to K_39 |
| `Twofish.EncRounds4IsFour` | DCrypt/crypto_lib/xts_twofish.c:61-98 | ENCRYPT_16 on four interleaved blocks is the sixteen rounds on each of them |
| `Twofish.DecRounds4IsFour` | DCrypt/crypto_lib/xts_twofish.c:74-108 | DECRYPT_16 likewise |
| `TwofishKeys.G1IsH` | DCrypt/crypto_lib/twofish.c:307-327 | table lookups by the four bytes of a word are h of the word, if the tables are the key-dependent ones |
| `TwofishKeys.G2IsRotatedG1` | DCrypt/crypto_lib/twofish.c:396-397 | G2(X) is G1(X <<< 8) |
| `TwofishKeys.ExpandedTables` | DCrypt/crypto_lib/twofish.c:329-397 | after key setup G1(X) = h(X, S) and G2(X) = h(X <<< 8, S) for every key and word |
| `TwofishKeys.GfMulRs` | DCrypt/crypto_lib/twofish.c:290-305 | the reducing loop is the product modulo the Reed-Solomon polynomial |
| `TwofishKeys.RsProductXor` | DCrypt/crypto_lib/twofish.c:290-305 | the product is linear in its first factor |
| `TwofishKeys.RsProductTimesX` | DCrypt/crypto_lib/twofish.c:290-305 | multiplying a factor by x modulo the polynomial multiplies the product by x |
| `TwofishKeys.RsProductUnit` | DCrypt/crypto_lib/twofish.c:290-305 | one is the unit of the product and two is x |
| `TwofishKeys.RepeatIsProduct` | DCrypt/crypto_lib/twofish.c:377-378 | the repeated byte of the model is the product with 0x01010101 of the code |
| `TwofishKeys.ReedSolomon` | DCrypt/crypto_lib/twofish.c:338-347 | the S vector of the key, in reverse order, from the Reed-Solomon matrix |
| `TwofishReference.KeyNumbers` | DCrypt/crypto_lib/twofish.c:329-337 | the words of Me and Mo are the little-endian numbers of the key |
| `TwofishReference.SBytes` | DCrypt/crypto_lib/twofish.c:338-347 | row r of the matrix product is byte r of its word |
| `TwofishReference.ColumnsArePowers` | DCrypt/crypto_lib/twofish.c:269-274 | the columns of the Reed-Solomon matrix are the powers of x modulo the generator polynomial of the code |
| `TwofishReference.GeneratorIs` | DCrypt/crypto_lib/twofish.c:269-274 | whose coefficient is 2 + 1/2 in its field |
| `TwofishKeys.ScheduledKey.FillTables` | DCrypt/crypto_lib/twofish.c:350-373 | the four tables in memory are the key-dependent S-boxes folded into the MDS columns |
| `TwofishKeys.ScheduledKey.FillSubkeys` | DCrypt/crypto_lib/twofish.c:375-387 | the subkey pairs, the first four as whitening words |
| `TwofishKeys.ScheduledKey.SetKey` | DCrypt/crypto_lib/twofish.c:329-393 | tables, whitening words and subkeys after twofish256_set_key |
| `Tweaks.MulAlphaCeForm` | DCrypt/crypto_lib/xts_aes_ce.c:131-135 | the tweak step of the ARM64 core is the scalar one |
| `Tweaks.MulAlphaNiForm` | DCrypt/crypto_lib/xts_aes_ni.c:44-58 | the tweak step on a vector register is the scalar one |
| `Tweaks.MulAlphaIsTimesX` | DCrypt/crypto_lib/xts_fast.c:81-84 | the step on two 64-bit halves is multiplication by x modulo x^128 + x^7 + x^2 + x + 1 |
| `Xts.CryptScalar` | DCrypt/crypto_lib/xts_fast.c:53-87 | the scalar sector loop writes exactly the XTS transform of the old input, in place or not, for every offset and positive number of sectors |
| `Xts.CryptPipelined` | DCrypt/crypto_lib/xts_aes_ni.c:108-175 | the loop that derives the next tweak early and works in groups of 4 or 8 writes exactly the same blocks, in place or not |
| `Xts.NiIsGroup` | DCrypt/crypto_lib/xts_aes_ni.c:127-163 | dropping seven tweaks before the rounds and rebuilding them afterwards treats every block under its own tweak |
| `Xts.CeIsGroup` | DCrypt/crypto_lib/xts_aes_ce.c:172-232 | the four-block pass of the ARM64 core does |
| `Xts.AdvanceMore` | DCrypt/crypto_lib/xts_fast.c:81-84 | advancing a tweak in two goes is advancing it by the sum |
| `Xts.RoundTrip` | DCrypt/crypto_lib/xts_fast.c:53-87 | over any block cipher and its inverse, decrypting an encrypted run of sectors gives it back |
| `Xts.CallsSplit` | DCrypt/crypto_lib/xts_fast.c:53-87 | one call over two runs is two calls, the second at the offset where the first one ends |
| `XtsCores.AesInverse` | DCrypt/crypto_lib/aes_key.c:94-125 | AES on buffer blocks under a schedule of aes256_set_key is a cipher with its inverse |
| `XtsCores.IndexBytes` | DCrypt/crypto_lib/xts_fast.c:61-66 | the block that is encrypted for a tweak is the sector number in little-endian bytes and eight zeros |
| `XtsCores.SectorTweaksDiffer` | DCrypt/crypto_lib/xts_fast.c:61-67 | under every cipher, different 64-bit sector numbers have different first tweaks |
| `XtsCores.TweakIsNumber` | DCrypt/crypto_lib/xts_fast.c:66-72 | a tweak is the little-endian 128-bit number of the encrypted block, and adds its words |
| `Xts.SameSectorTweaks` | DCrypt/crypto_lib/xts_aes_ni.c:60-77 | only the values of the sector tweaks matter, not the routine that derives them |
| `XtsCores.NiSectorTweaks` | DCrypt/crypto_lib/xts_aes_ni.c:60-77 | the tweaks of aes256_ni_encrypt_block are those of the block encryption |
| `XtsCores.TwofishIsGroup` | DCrypt/crypto_lib/xts_twofish.c:146-183 | adding tweak and whitening in one go and running four blocks interleaved is XTS block by block |
| `XtsCores.AesNiEncrypt` | DCrypt/crypto_lib/xts_aes_ni.c:177-180 | the AES-NI routine, tweaks included, computes the scalar specification |
| `XtsCores.AesNiDecrypt` | DCrypt/crypto_lib/xts_aes_ni.c:182-185 | the AES-NI routine, tweaks included, computes the scalar specification of decryption |
| `XtsCores.AesCeEncrypt` | DCrypt/crypto_lib/xts_aes_ce.c:140-244 | the ARM64 routine computes the scalar specification |
| `XtsCores.AesCeDecrypt` | DCrypt/crypto_lib/xts_aes_ce.c:247-351 | the ARM64 routine computes the scalar specification of decryption |
| `XtsCores.TwofishEncrypt` | DCrypt/crypto_lib/xts_twofish.c:149-186 | the four-way Twofish routine computes the scalar specification |
| `XtsCores.TwofishDecrypt` | DCrypt/crypto_lib/xts_twofish.c:188-226 | the four-way Twofish routine computes the scalar specification of decryption |
| `Cascades.CascadeUndone` | DCrypt/crypto_lib/xts_fast.c:172-220 | passes undone in reverse order give back the data, for any number of passes |
| `Cascades.CascadeSplits` | DCrypt/crypto_lib/xts_fast.c:172-220 | cascades split at sector boundaries like single passes |
| `Cascades.UncascadeSplits` | DCrypt/dcapi/dc_header.c:253-258 | decryption cascades split at sector boundaries |
| `Cascades.SealedBlocksDiffer` | DCrypt/crypto_lib/xts_fast.c:53-87 | two texts have the same ciphertext block exactly where they agree |
| `Cascades.UncascadeIsLocal` | DCrypt/crypto_lib/xts_fast.c:53-87 | a decrypted block depends on its own ciphertext block alone |
| `Cascades.SaltedTailSurvives` | DCrypt/dcapi/tpm_sup.c:1586-1599 | whatever overwrites the first ciphertext blocks, decryption gives back everything behind them |
| `XtsKey.BackUndoesForth` | DCrypt/crypto_lib/xts_fast.c:224-291 | for every algorithm and key, each pass is undone under its own key slices |
| `XtsKey.DecryptUndoesEncrypt` | DCrypt/crypto_lib/xts_fast.c:172-291 | after key setup with any algorithm, decrypt(encrypt(data)) = data for all data and offsets |
| `XtsKey.SlicesTile` | DCrypt/crypto_lib/xts_fast.c:224-291 | every byte of the key material serves exactly one pass, for its data or for its tweaks, and no pass reaches beyond the end |
| `XtsKey.PassNeedsItsBytes` | DCrypt/crypto_lib/xts_fast.c:224-291 | a pass depends on no other byte of the key |
| `XtsKey.XtsKey.SetKey` | DCrypt/crypto_lib/xts_fast.c:224-291 | which slices fill which schedules for the seven algorithms; an unknown one is refused and changes nothing |
| `XtsKey.Seal` | DCrypt/crypto_lib/xts_fast.c:89-97 | one encryption pass gives the same result on every core |
| `XtsKey.Open` | DCrypt/crypto_lib/xts_fast.c:89-97 | one decryption pass gives the same result on every core |
| `XtsKey.XtsKey.Encrypt` | DCrypt/crypto_lib/xts_fast.c:172-220 | xts_encrypt writes the cascade of the selected algorithm over the old input, in place or not |
| `XtsKey.XtsKey.Decrypt` | DCrypt/crypto_lib/xts_fast.c:172-220 | xts_decrypt writes the reverse cascade |
| `XtsStandard.SingleIs` | DCrypt/crypto_lib/xts_fast.c:228-248 | the three single algorithms with their key bytes |
| `XtsStandard.AesTwofishIs` | DCrypt/crypto_lib/xts_fast.c:249-257 | the cascade written out: Twofish under key bytes 0 and 64, then AES under 32 and 96 |
| `XtsStandard.TwofishSerpentIs` | DCrypt/crypto_lib/xts_fast.c:258-266 | Serpent under key bytes 0 and 64, then Twofish under 32 and 96 |
| `XtsStandard.SerpentAesIs` | DCrypt/crypto_lib/xts_fast.c:267-275 | AES under key bytes 0 and 64, then Serpent under 32 and 96 |
| `XtsStandard.AesTwofishSerpentIs` | DCrypt/crypto_lib/xts_fast.c:276-286 | Serpent under key bytes 0 and 96, Twofish under 32 and 128, then AES under 64 and 160 |
| `XtsStandard.StateIsBytes` | DCrypt/crypto_lib/xts_aes_ce.c:34-40 | byte 4c + r of a block is row r, column c of the AES state |
| `XtsStandard.AesIsFips` | DCrypt/crypto_lib/aes_key.c:94-125 | AES on a block of a buffer is the cipher of FIPS 197 for every key |
| `XtsStandard.SerpentIsSpecified` | DCrypt/crypto_lib/serpent.c:109-142 | Serpent on a block is the cipher of its specification |
| `XtsStandard.TwofishIsSpecified` | DCrypt/crypto_lib/twofish.c:423-448 | Twofish on a block is the cipher of its specification for every key |
| `SealedFile.SealedFileOpens` | DCrypt/dcapi/tpm_sup.c:1570-1705 | a backup file sealed and overwritten with its 64-byte salt opens to the original from byte 64 on, and its signature and CRC checks pass, for every algorithm and key |
| `SealedFile.CoveredIs` | DCrypt/dcapi/tpm_sup.c:1570-1571 | the checksum covers the last 952 of the 1024 bytes |
| `SealedFile.MagicIs` | DCrypt/dcapi/tpm_sup.c:67-67 | the signature spells DCBK |
| `SealedFile.HeaderTail` | DCrypt/dcapi/dc_header.c:253-258 | 2048 bytes decrypted at offset 0 and the tail at offset 2048 are one decryption |
| `Sha512Core.EightRoundsAreRounds` | DCrypt/crypto_lib/sha512.c:86-101 | eight rounds with rotating register names are eight textbook rounds |
| `Sha512Core.FillSchedule` | DCrypt/crypto_lib/sha512.c:75-83 | the work array holds the message schedule of FIPS 180-4 |
| `Sha512Core.Compress` | DCrypt/crypto_lib/sha512.c:67-105 | the compression of the code is the textbook one over any word operations |
| `Sha512Core.CodeIsFips` | DCrypt/crypto_lib/sha512.c:57-64 | the rewritten Ch and Maj agree with the standard on all words |
| `Sha512.CompressBlock` | DCrypt/crypto_lib/sha512.c:67-114 | sha512_compress on 128 bytes is the compression of FIPS 180-4, written out over 64-bit words |
| `Sha512.WordsAreValues` | DCrypt/crypto_lib/sha512.c:75-78 | the sixteen words are the big-endian numbers of the block |
| `Sha512.DigestIsFips` | DCrypt/crypto_lib/sha512.c:199-203 | the digest is the eight words as big-endian numbers, in order |
| `Fips180.CompressedIsNextHash` | DCrypt/crypto_lib/sha512.c:57-105 | the model of the compression is section 6.4.2 of FIPS 180-4 with every rotation, shift and sum written out |
| `Sha512Roots.ConstantsAreRoots` | DCrypt/crypto_lib/sha512.c:33-54 | each round constant is the 64-bit fraction of the cube root of its prime |
| `Sha512Roots.InitialAreRoots` | DCrypt/crypto_lib/sha512.c:122-129 | the initial hash value has the fractions of the square roots of the first eight primes |
| `Sha512Roots.PrimesInOrder` | DCrypt/crypto_lib/sha512.c:33-54 | these primes are the first eighty, none left out |
| `Hashing.PaddingAgrees` | DCrypt/crypto_lib/sha512.c:172-197 | the padding of sha512_done is the one of FIPS 180-4 section 5.1.2 exactly for messages under 2^64 bits |
| `Hashing.CodeHashIsHash` | DCrypt/crypto_lib/sha512.c:165-204 | for those messages the digest is the fold of the standard over the padded message |
| `Hashing.WholeBlocks` | DCrypt/crypto_lib/sha512.c:172-197 | both paddings fill whole blocks and have the same length |
| `Hashing.FoldSplit` | DCrypt/crypto_lib/sha512.c:137-160 | folding splits at block boundaries |
| `Hashing.CompleteBlock` | DCrypt/crypto_lib/sha512.c:146-159 | bytes that complete a block are compressed with what was held back |
| `Hashing.Context.Init` | DCrypt/crypto_lib/sha512.c:118-130 | a context that stands for the empty message |
| `Hashing.Context.Update` | DCrypt/crypto_lib/sha512.c:133-162 | whatever the cutting into calls, the context stands for the whole message, with curlen below 128 between calls |
| `Hashing.Context.Done` | DCrypt/crypto_lib/sha512.c:165-204 | the digest of the message absorbed so far |
| `Hmac.HmacContext.Init` | DCrypt/crypto_lib/sha512_hmac.c:19-43 | a context keyed as RFC 2104 asks, long keys hashed first |
| `Hmac.HmacContext.Update` | DCrypt/crypto_lib/sha512_hmac.c:45-48 | text added in any cutting |
| `Hmac.HmacContext.Done` | DCrypt/crypto_lib/sha512_hmac.c:50-69 | the HMAC of key and text |
| `Hmac.HmacContext.Restore` | DCrypt/crypto_lib/sha512_pkcs5_2.c:38-38 | the structure assignment yields a context in the saved state, key and text included |
| `Hmac.HmacOnce` | DCrypt/crypto_lib/sha512_hmac.c:71-80 | the one-shot function is HMAC |
| `Hmac.HmacIs` | DCrypt/crypto_lib/sha512_hmac.c:16-69 | RFC 2104 with its pads written out, for keys of any length |
| `Hmac.HmacIsStandard` | DCrypt/crypto_lib/sha512_hmac.c:19-80 | under 2^64 bits this is HMAC over the hash of the standard |
| `Pbkdf2.Call` | DCrypt/crypto_lib/sha512_pkcs5_2.c:38-49 | a call of the pseudo-random function from a copied context is HMAC of the concatenated parts |
| `Pbkdf2.Block` | DCrypt/crypto_lib/sha512_pkcs5_2.c:30-54 | one block is F of RFC 8018 section 5.2; a count below one acts as one |
| `Pbkdf2.Derive` | DCrypt/crypto_lib/sha512_pkcs5_2.c:17-63 | the buffer holds the derived key of RFC 8018 section 5.2 for all passwords, salts, counts and lengths |
| `Pbkdf2.ShorterIsPrefix` | DCrypt/crypto_lib/sha512_pkcs5_2.c:30-59 | a shorter derived key is a prefix of a longer one |
| `Pbkdf2.DerivedKeyIsStandard` | DCrypt/crypto_lib/sha512_pkcs5_2.c:17-63 | below 2^64 bits it is the key of the standards down to FIPS 180-4 |
| `Sha512.DeriveKey` | DCrypt/crypto_lib/sha512_pkcs5_2.c:17-63 | sha512_pkcs5_2 fills the buffer with PBKDF2 over HMAC-SHA-512 of the standards for every password and salt below 2^64 bits |
| `Drbg.CounterCounts` | DCrypt/crypto_lib/sha512_hmac_drbg.c:67-139 | over every run the counter is one more than the generates since the last accepted seeding |
| `Drbg.AtMost128` | DCrypt/crypto_lib/sha512_hmac_drbg.c:108-139 | over every run no more than 128 generates succeed after an instantiate or reseed |
| `Drbg.Exactly128` | DCrypt/crypto_lib/sha512_hmac_drbg.h:21-21 | the bound is met: 128 in a row succeed and the next one is refused |
| `Drbg.UpdateIs` | DCrypt/crypto_lib/sha512_hmac_drbg.c:38-66 | the update of SP 800-90A with its separators written out |
| `Drbg.LimitsAre` | DCrypt/crypto_lib/sha512_hmac_drbg.h:14-21 | the limits of the three calls as numbers |
| `Drbg.Generator.Update` | DCrypt/crypto_lib/sha512_hmac_drbg.c:33-65 | drbg_update on parts is HMAC_DRBG_Update on their concatenation, one pass when it is empty |
| `Drbg.Generator.Instantiate` | DCrypt/crypto_lib/sha512_hmac_drbg.c:67-87 | refines SP 800-90A on entropy and personalisation; rejected calls change nothing |
| `Drbg.Generator.Reseed` | DCrypt/crypto_lib/sha512_hmac_drbg.c:89-106 | refines SP 800-90A on entropy and additional input; rejected calls change nothing |
| `Drbg.Generator.Generate` | DCrypt/crypto_lib/sha512_hmac_drbg.c:108-139 | the output is the leftmost bytes of the chained blocks, and the new state is that of section 10.1.2.5; rejected calls change neither state nor buffer |
| `GptLayout.AlignmentLoss` | DCrypt/dcapi/gpt_sup.c:760-767 | aligning down twice costs at most 2 MB less two bytes |
| `GptLayout.SlackIsTight` | DCrypt/dcapi/gpt_sup.c:691-698 | and that much does occur, so the 2 MB slack is needed |
| `GptLayout.Boundaries` | DCrypt/dcapi/gpt_sup.c:495-496 | alignment is to multiples of 1048576, the lowest above or the highest below |
| `GptLayout.TailIs` | DCrypt/dcapi/gpt_sup.c:483-501 | the place at the end is the lowest boundary behind 34 sectors and all partitions in use |
| `GptLayout.ShrinkPlanSound` | DCrypt/dcapi/gpt_sup.c:691-847 | when the gap does not do, the OS partition strictly shrinks, never below the shrunk file system, and the ESP ends before the next partition: the re-checks cannot fail |
| `GptLayout.ShrinkLeavesRoom` | DCrypt/dcapi/gpt_sup.c:691-795 | a partition larger than the space asked of its file system keeps a positive length: the test for a partition that is too small cannot fail behind a shrink that succeeded |
| `GptLayout.NeedSpaceIs` | DCrypt/dcapi/gpt_sup.c:692-698 | how much the file system is asked to give up: the ESP and 2 MB, less a gap of up to 2 MB |
| `GptLayout.Drive.FindFreeSpace` | DCrypt/dcapi/gpt_sup.c:450-512 | the lowest boundary behind 34 sectors and all partitions in use; space is found exactly when the request ends 33 sectors before the end of the disk |
| `GptLayout.Drive.CreatePartition` | DCrypt/dcapi/gpt_sup.c:161-317 | the new entry is appended to the array, exactly when it fits into the usable area and a slot is free |
| `GptLayout.Drive.NextBehind` | DCrypt/dcapi/gpt_sup.c:655-680 | the lowest start of a partition behind the OS partition, or the 33rd sector from the end of the disk, whichever is lower |
| `GptLayout.Drive.InsertSorted` | DCrypt/dcapi/gpt_sup.c:927-960 | the entry goes before the first one that starts behind it, the others shifted by one |
| `GptLayout.Drive.ShrinkAndInsert` | DCrypt/dcapi/gpt_sup.c:756-985 | the shrink path yields a sorted layout exactly when the ESP starts behind the start of the OS partition, and changes nothing otherwise |
| `GptLayout.Drive.CreateEsp` | DCrypt/dcapi/gpt_sup.c:582-1064 | exactly when an ESP is created, on which path, and the whole new layout: disjoint always, sorted on the tail and shrink paths |
| `GptLayout.AppendInGap` | DCrypt/dcapi/gpt_sup.c:671-688 | on the gap path the layout stays disjoint, and is sorted if and only if no partition follows the OS partition |
| `GptLayout.SortedUnlessInGap` | DCrypt/dcapi/gpt_sup.c:603-688 | on a disk whose partitions lie behind the GPT header the new array is sorted if and only if the end of the disk takes the ESP or the gap behind the OS partition does not, both known before the call |
| `GptLayout.AppendedOutOfOrder` | DCrypt/dcapi/gpt_sup.c:671-688 | a disk on which the gap path leaves the array out of order |
| `GptLayout.InsertAfterShrink` | DCrypt/dcapi/gpt_sup.c:927-960 | shrinking and inserting keeps a sorted layout sorted |
| `DiskAccess.SpanBounds` | DCrypt/dcapi/misc.c:358-367 | what the device moves is whole sectors around the request, at most one sector too many |
| `DiskAccess.ServedIff` | DCrypt/dcapi/misc.c:416-425 | a request inside the disk is served if and only if it is made of whole sectors or ends before the end of the disk |
| `DiskAccess.RefusedAtTheEnd` | DCrypt/dcapi/misc.c:416-425 | the last byte of a disk is a request that is refused |
| `DiskAccess.Device.Read` | DCrypt/dcapi/misc.c:358-406 | the requested bytes, exactly when the span lies on the disk |
| `DiskAccess.Device.Write` | DCrypt/dcapi/misc.c:408-467 | only the requested bytes change; a refused write changes none |
| `Mbr.FindConf` | DCrypt/dcapi/mbrinst.c:95-111 | the first occurrence of the signature with room behind it; none is found if and only if there is none |
| `Mbr.ConfStays` | DCrypt/dcapi/mbrinst.c:95-111 | changes behind the signature do not move the search |
| `Mbr.ConfigLayout` | DCrypt/_include_/bootloader.h:57-96 | the offsets of the configuration are those of the packed structure |
| `Mbr.SignaturesAre` | DCrypt/dcapi/mbrinst.c:33-34 | the signatures are the numbers of the headers |
| `Mbr.FreeSpace` | DCrypt/dcapi/mbrinst.c:544-555 | lowest start and highest end of the partitions in use |
| `Mbr.PointerFound` | DCrypt/dcapi/mbrinst.c:581-582 | the loader pointer written into the boot record is the one read back |
| `MbrInstall.LoaderPointer` | DCrypt/dcapi/mbrinst.c:671-695 | status, offset and size of the loader from the boot record |
| `MbrInstall.Install` | DCrypt/dcapi/mbrinst.c:470-600 | exactly when an installation succeeds and which error it gives otherwise; every byte it writes; it saves the boot code, keeps the partition data, places a readable loader clear of every partition and touches nothing else, on every disk but one of exactly loader size plus eight sectors, where it puts the boot record on top of the loader; after each of its writes the boot code is in place or saved; a failed one changes nothing |
| `MbrInstall.PreparedBytes` | DCrypt/dcapi/mbrinst.c:571-577 | the loader written is the resource but for the saved boot record and the flag of a small loader |
| `MbrInstall.ImageBytes` | DCrypt/dcapi/mbrinst.c:513-523 | the image is the resource with zeros up to the end of its last sector |
| `MbrInstall.NewRecordBytes` | DCrypt/dcapi/mbrinst.c:578-582 | the boot record written is ours byte for byte but for pointer and partition data |
| `MbrInstall.ReachableIff` | DCrypt/dcapi/mbrinst.c:557-586 | when the write of the loader can succeed, at the end of the disk and at its beginning |
| `MbrInstall.RoomIsClear` | DCrypt/dcapi/mbrinst.c:544-570 | the space the checks accept lies before every partition in use or behind its 32-bit end |
| `MbrInstall.ClearIff` | DCrypt/dcapi/mbrinst.c:552-568 | behind the 32-bit end of a partition every loader is clear of it if and only if its last sector fits 32 bits |
| `MbrInstall.ProtectiveIsNoPartition` | DCrypt/dcapi/mbrinst.c:552-568 | a protective entry over all sectors ends in sector zero: every disk has room at its end, inside that partition |
| `MbrInstall.OnTopAccepted` | DCrypt/dcapi/mbrinst.c:557-570 | on a disk of exactly loader size plus eight sectors the checks pass if and only if no partition in use ends behind sector zero |
| `MbrInstall.OverlaidDisk` | DCrypt/dcapi/mbrinst.c:557-590 | a disk of ten sectors on which an installation succeeds and overwrites its own loader |
| `MbrInstall.GetConfig` | DCrypt/dcapi/mbrinst.c:697-784 | exactly when a configuration is found and which error is given otherwise; the configuration block of the loader, zeros behind a short one |
| `MbrInstall.SetConfig` | DCrypt/dcapi/mbrinst.c:790-901 | exactly when a configuration is written, which is whenever it can be read; the settings written are the settings read afterwards; version, signature and saved boot record stay |
| `MbrInstall.ReadableIff` | DCrypt/dcapi/mbrinst.c:763-766 | a loader can be read if and only if it lies on the disk and is made of whole sectors or ends before the disk does |
| `MbrInstall.ReconfiguredConfig` | DCrypt/dcapi/mbrinst.c:861-875 | after any new configuration the search finds the same place and the same saved boot record |
| `MbrInstall.ReconfiguredArrives` | DCrypt/dcapi/mbrinst.c:861-875 | every setting of the new configuration arrives in the loader, and no byte outside the configuration changes |
| `MbrInstall.WrittenIsRead` | DCrypt/dcapi/mbrinst.c:855-901 | reading after writing: whoever reads the configuration from the disk finds the settings written, and nothing else on the disk has changed |
| `MbrInstall.Uninstall` | DCrypt/dcapi/mbrinst.c:992-1052 | exactly when a removal succeeds, with a readable loader and a configuration or a stock record, and which error it gives otherwise; the saved boot code with the present partition data, nothing touched outside the loader, and the disk after every write |
| `MbrInstall.WritesKeep` | DCrypt/dcapi/mbrinst.c:584-590 | after the first write of an installation the boot code is in place, after the second it is saved |
| `MbrInstall.KeepsDuringRemoval` | DCrypt/dcapi/mbrinst.c:1037-1044 | between the writes of a removal the boot code can be had back if and only if a configuration that holds it is found behind the zeros |
| `MbrInstall.KeepsUntilConfig` | DCrypt/dcapi/mbrinst.c:1037-1044 | in a loader with one signature: if and only if the zeros have not reached it |
| `MbrInstall.RemovalHasAGap` | DCrypt/dcapi/mbrinst.c:1037-1044 | so the removal of such a loader passes through a state in which the boot code is nowhere |
| `MbrInstall.CopyFitsIff` | DCrypt/dcapi/mbrinst.c:774-778 | when the copy of the configuration stays inside the loader |
| `MbrInstall.FoundButTooLong` | DCrypt/dcapi/mbrinst.c:95-111 | a loader of two sectors in which the configuration is found and its copy does not fit |
| `MbrInstall.Update` | DCrypt/dcapi/mbrinst.c:1079-1104 | exactly when an update succeeds: with a readable configuration and room for the new loader at the end or the beginning; it is a run of removal, installation and reconfiguration, after which the settings read before are read from the new loader; wherever it fails the boot code is in place or saved |
| `MbrInstall.IsSmallIs` | DCrypt/dcapi/mbrinst.c:1092-1096 | the small loader is chosen by bit 5 of the options |
| `MbrInstall.EditedKeeps` | DCrypt/dcapi/mbrinst.c:671-695 | edits by others that keep clear of boot code and loader do no harm |
| `MbrInstall.RunKeeps` | DCrypt/dcapi/mbrinst.c:470-1104 | at the end of every run the original boot code is in place or saved in the loader |
| `MbrInstall.RunRemovable` | DCrypt/dcapi/mbrinst.c:470-1104 | every run keeps the loader readable wherever it leaves our boot code in place |
| `MbrInstall.RemovalRestores` | DCrypt/dcapi/mbrinst.c:992-1052 | after any run that leaves our boot code in place, removal succeeds and restores the original boot code with the current partition data |
| `EfiBoot.NextKeepsInv` | DCrypt/dcapi/efiinst.c:406-433 | every single look, delete, move, copy, stop or Windows update, the second look of the restore and the deletion behind it included, keeps a genuine boot manager in place or renamed |
| `EfiBoot.RunKeeps` | DCrypt/dcapi/efiinst.c:986-1059 | at every point of every run a genuine boot manager exists in bootmgfw.efi or its renamed copy |
| `EfiBoot.RestorePutsBack` | DCrypt/dcapi/efiinst.c:1119-1139 | a restore that gets to its end, by the move or by the deletion of the copy, has the genuine boot manager in its place |
| `EfiBoot.UnguardedKeepsIff` | DCrypt/dcapi/efiinst.c:1023-1059 | without its guard the restore keeps a genuine boot manager if and only if the boot file is missing or bears the mark of either loader |
| `EfiBoot.UnguardedLoses` | DCrypt/dcapi/efiinst.c:1048-1051 | a run after which the restore without its guard loses the boot manager |
| `EfiBoot.BringsBackIff` | DCrypt/dcapi/efiinst.c:986-1059 | from any state a run can stop in, the tool can put the boot manager back by itself if and only if there is a boot file at all |
| `EfiBoot.StoppedBeforeCopy` | DCrypt/dcapi/efiinst.c:1003-1013 | a run that stops between move and copy leaves no boot file |
| `EfiBoot.Esp.Replace` | DCrypt/dcapi/efiinst.c:986-1021 | the replacement as steps of the machine, and its result when every call succeeds |
| `EfiBoot.Esp.Restore` | DCrypt/dcapi/efiinst.c:1119-1139 | guard and restore, each with a look of its own and a Windows update between them or not, as steps of the machine, and the result when every call succeeds |
| `Base64.AlphabetInverted` | DCrypt/driver/base64.c:25-97 | the decoding table inverts the alphabet |
| `Base64.ValidIsAlphabet` | DCrypt/driver/base64.c:99-110 | the accepted characters are the alphabet and the padding |
| `Base64.EncodedFits` | DCrypt/driver/base64.c:12-23 | the encoding has exactly b64_encoded_size characters |
| `Base64.DecodedSizeBack` | DCrypt/driver/base64.c:58-77 | b64_decoded_size of an encoding is the length of the string |
| `Base64.RoundTrip` | DCrypt/driver/base64.c:112-146 | decoding an encoding gives the string back, in all three padding cases |
| `Base64.EncodedAccepted` | DCrypt/driver/base64.c:112-146 | the decoder accepts every encoding into a buffer of b64_decoded_size |
| `Base64.Encode` | DCrypt/driver/base64.c:27-56 | the loop writes the RFC 4648 encoding; only an empty input is refused |
| `Base64.Vectors` | DCrypt/driver/base64.c:25-56 | the test vectors of RFC 4648 with two, one and no pads |
| `Base64.CountDecoded` | DCrypt/driver/base64.c:58-77 | the backward loop counts the trailing padding |
| `Base64.FitsIff` | DCrypt/driver/base64.c:131-143 | the extent of the writes of the decoding loop, for every text |
| `Base64.SizeCheckBounds` | DCrypt/driver/base64.c:120-124 | the checks bound those writes if and only if the text has at most two trailing pads or is refused for every buffer, being invalid or of a size that wraps |
| `Base64.AllPads` | DCrypt/driver/base64.c:58-77 | padding alone: its size wraps and no buffer is accepted |
| `Base64.OnePastTheEnd` | DCrypt/driver/base64.c:120-143 | a text that is accepted into an empty buffer and of which a byte is written |
| `Base64.PadInside` | DCrypt/driver/base64.c:120-143 | padding inside the last group alone does no harm |
| `Base64.Decode` | DCrypt/driver/base64.c:112-146 | exactly which texts are accepted, every byte of the buffer afterwards, the decoded bytes of well padded texts, and no change on refusal |

## Left out

- Serpent on vector registers: its round schedule lives in files that are not part of this model; the gate sequences are proved for every word type.
- Core selection, processor probes, preserving vector state and wiping of secrets: no functional result.
- TwofishKeys: the contents of the q and MDS tables are a parameter; the results hold for any tables.
- Base64: the alphabet and its inverse are written as ranges, not as the literal tables.
- Wrong passwords for a sealed file: that a wrong algorithm or key does not pass the checks by accident is not a theorem.
- MbrInstall.Install: the loader resource is well formed.
- MbrInstall.SetConfig: the copy of the configuration found in the loader is required to stay inside it; outside, the code writes past its buffer.
- MbrInstall.GetConfig: likewise for the copy out of the loader.
- MbrInstall.Update: not where the new loader would be put on top of its boot record (`MbrInstall.OnTopAccepted`); interruptions inside its removal are those of `MbrInstall.KeepsDuringRemoval`.
- GptLayout.Drive.CreateEsp: fewer than 128 entries; the choice of the OS partition and the formatting of the new one are not modelled.
- Base64.Decode: a call that writes past its buffer has no result; the contract excludes it, and nothing else, and `Base64.SizeCheckBounds` says when it occurs.
- Xts.CryptScalar: input and output are the same buffer or different ones; buffers that overlap in part are not modelled.
- Hashing.Context.Update: the machine calls its compression as a function; `Sha512.CompressBlock` shows that the code computes that function for SHA-512.
- Drbg: a NULL context, and the unsigned wrap of the counter, which the limit keeps out of reach.
- Failing device reads and writes inside the disk, other than refusal beyond its end.
- TPM commands, volume headers beyond the split and the salt, key files, ISO and removable media, user interface, drivers and registry.
