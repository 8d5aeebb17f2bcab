# A Dafny model of the sensor helpers, the MFS record store and the OS library pools, factory and pipes

This project models four small, sequential parts of a ChibiOS-based code base and proves properties of them.

1. **Sensor-side integer helpers** of the SPI/USB sensor test program (`testhal/STM32/multi/SPI_USB/main.c`):
   - the MS56XX barometer's PROM CRC-4 and the PROM check that uses it (module `Crc4`, file `crc4.dfy`);
   - the SPI CFG1 prescaler search (module `SpiConfig`, `spi_cfg.dfy`);
   - big-endian assembly of the PROM words, the 24-bit ADC samples and the accelerometer axes, the PROM read command, and the memory-test pattern (module `SensorWords`, `sensor_words.dfy`).
2. **The Managed Flash Storage (MFS) record store** as test 2.1 of `test/mfs/source/test/mfs_test_sequence_002.c` pins it down (module `Mfs`, `mfs_store.dfy`). It is a state machine over a current bank, a generation counter, `used_space`, the records and at most one open transaction. Write, erase, read, start/commit/rollback of a transaction, remount and garbage collection are pure transition functions.
3. **Memory pools and guarded memory pools** of the OS library, as tests 5.1–5.3 (`oslib_test_sequence_005.c`) and 3.1–3.2 (`oslib_test_sequence_003.c`) observe them (module `Pools`, `pools.dfy`).
4. **The object factory's named, reference-counted registry**, as the dynamic pipe factory test 5.6 observes it (module `Factory`, `factory.dfy`). Also **pipes as a ring buffer** of counts and offsets, as the pipe assertions of `oslib_test_sequence_003.c` observe them (module `Pipes`, `pipes.dfy`).

Shared types live in module `Common` (`common.dfy`): `Option`, which plays the role of a NULL pointer, the `Byte` subset type, and the division-uniqueness lemma.

Representation choices:
- The CRC register and PROM words are 16-bit quantities. They are held as their two bytes, `Word16(hi, lo)`, with the bit operations on `bv8`. `Crc4.Value` gives the `uint16_t` value, and `Crc4.RoundValue` states a round in those terms: bit 15 tested, shift left by one truncated to 16 bits, taps applied.
- C shifts and ors that combine non-overlapping fields are written as arithmetic: `b << 8 | c` is `b * 256 + c`.
- The `(int16_t)` cast is modelled as two's complement.
- C's division of a signed value by 16 truncates toward zero, unlike Dafny's `/`, so it is written out (`SensorWords.DivTrunc16`).
- The `uint32_t` wrap-around of the memory-test pattern and of the MFS generation counter is written out as `% 0x1_0000_0000`.
- The SPI kernel clock `STM32_SPI3CLK` is a board build-time constant, so `GetSpiCfg1` takes it as a parameter.
- `SPI_CFG1_MBR_0` (bit 28) and the DSIZE field (bits 4..0) follow the STM32H7 CFG1 register layout.

The model keeps `usedSpace` equal to the space the live records take: a header of `headerSize` bytes plus the data for each record. The test fixes this accounting. After the transaction has erased record 1 and replaced record 2, garbage collection copies only the live records. Yet the test asserts that `used_space` is unchanged after collection (`mfs_test_sequence_002.c:292`). That holds only if `used_space` already counted just the live records.

A stored record is never empty, because a record of length 0 is MFS's erase tombstone. So `Mfs.Write` requires data of at least one byte, and the store's invariant keeps every present record non-empty.

## Model

| member | source | states |
|---|---|---|
| Crc4.ComputeCrc4 | testhal/STM32/multi/SPI_USB/main.c:135-158 | The routine as written picks the high byte of word `cnt >> 1` when `cnt` is even and the low byte when it is odd, for 16 bytes. It does eight rounds per byte, and the result equals the checksum `Crc4Of` of the eight words, a value in 0..15. |
| Crc4.EightRounds | testhal/STM32/multi/SPI_USB/main.c:148-154 | The count-down inner loop from 8 to 1 applies exactly eight rounds to the register. |
| Crc4.Crc4Of | testhal/STM32/multi/SPI_USB/main.c:157 | The checksum is at most 0xF for every input. |
| Crc4.RoundValue | testhal/STM32/multi/SPI_USB/main.c:149-153 | One round shifts the 16-bit register left by one, with the value becoming `2 * v mod 2^16`. It applies the 0x3000 taps exactly when `v >= 0x8000` before the shift. |
| Crc4.TopBitValue | testhal/STM32/multi/SPI_USB/main.c:149 | The `n_rem & 0x8000` test holds exactly when the register's value is at least 0x8000. |
| Crc4.NibbleValue | testhal/STM32/multi/SPI_USB/main.c:157 | `(n_rem >> 12) & 0xF` is the register's value divided by 0x1000. |
| Crc4.RegisterLinear | testhal/STM32/multi/SPI_USB/main.c:140-155 | Folding the xor of two byte streams into the xor of two start values gives the xor of the two registers. |
| Crc4.Crc4Linear | testhal/STM32/multi/SPI_USB/main.c:135-158 | The checksum of `p xor e` is the checksum of `p` xor the checksum of `e`. This holds for every PROM `p` and every error pattern `e`. |
| Crc4.CorruptionVerdict | testhal/STM32/multi/SPI_USB/main.c:168-185 | Take a PROM whose stored nibble matches its checksum, and corrupt it by a pattern `e` that leaves word 7's low byte alone. If the result is not blank, it passes the check exactly when `e`'s own checksum is 0. |
| Crc4.CorruptionCaught | testhal/STM32/multi/SPI_USB/main.c:168-185 | The same for every correctly sealed PROM. A corruption that spares the stored checksum byte goes unnoticed exactly when its pattern's checksum is 0. Corruptions of the stored nibble itself are covered by `DamagedNibbleFails`, and of bits 4..7 of that byte by `ReservedBitsIgnored`. |
| Crc4.BlankCrc | testhal/STM32/multi/SPI_USB/main.c:168-177 | An all-zero PROM has checksum 0, so it would pass the check if the check were applied. The all-zero skip at lines 175-177 means the check is never applied to it. |
| Crc4.Masked | testhal/STM32/multi/SPI_USB/main.c:183 | Masking word 7 with 0xff00 keeps words 0..6 and word 7's high byte, and clears its low byte. |
| Crc4.ValidateProm | testhal/STM32/multi/SPI_USB/main.c:168-185 | An all-zero PROM returns early: the words are kept and `crc_ok` keeps its previous value. Otherwise word 7 is left masked. |
| Crc4.Seal | testhal/STM32/multi/SPI_USB/main.c:180-185 | A correctly programmed PROM (reference definition) carries the checksum of its masked words in the low nibble of word 7, and masks to the same words. |
| Crc4.ValidateVerdict | testhal/STM32/multi/SPI_USB/main.c:180-185 | For a non-blank PROM, `crc_ok` holds exactly when the stored nibble equals that of the sealed copy. |
| Crc4.SealedPromPasses | testhal/STM32/multi/SPI_USB/main.c:180-185 | Round trip: validating a sealed PROM sets `crc_ok` (or leaves it unchanged if the sealed PROM is blank). |
| Crc4.DamagedNibbleFails | testhal/STM32/multi/SPI_USB/main.c:180-185 | Flipping any non-empty set of bits of the stored nibble of a correctly sealed PROM makes the check fail, and the damaged PROM is never blank. With ReservedBitsIgnored this covers every PROM that passes. |
| Crc4.ReservedBitsIgnored | testhal/STM32/multi/SPI_USB/main.c:180-183 | Bits 4..7 of word 7 take no part in the verdict. |
| SpiConfig.GetSpiCfg1 | testhal/STM32/multi/SPI_USB/main.c:95-110 | The returned word fits in 32 bits. Its MBR field is the divider index of the specification `DividerIndex`, its DSIZE field is 7 (8-bit frames) whatever the speed, and it has no other bits. |
| SpiConfig.DividerIndex | testhal/STM32/multi/SPI_USB/main.c:99-104 | The index is at most 7. It is the least `i` with `clock >> i <= bus_speed`, or 7 if there is none up to 7. |
| SpiConfig.PackedFields | testhal/STM32/multi/SPI_USB/main.c:109 | The word `i * MBR_0` or-ed with `DSIZE_VALUE(7)` holds `i` in bits 30..28 and 7 in bits 4..0. |
| SpiConfig.ShrIsDivision | testhal/STM32/multi/SPI_USB/main.c:102 | Halving `i` times is division by `2^i`. |
| SpiConfig.DividerMeetsBusSpeed | testhal/STM32/multi/SPI_USB/main.c:99-104 | If a divider up to 2^7 brings the clock to the bus speed, the chosen one does. A non-zero index means the next smaller divider would be too fast. |
| SpiConfig.DividerAntitone | testhal/STM32/multi/SPI_USB/main.c:99-104 | A faster bus speed never selects a larger divider. |
| SpiConfig.SlowClockUndivided | testhal/STM32/multi/SPI_USB/main.c:101 | A clock already at or below the bus speed is not divided. |
| SensorWords.PromCommand | testhal/STM32/multi/SPI_USB/main.c:125-126 | The PROM read command for word `w` is even, lies in 0xA0..0xAE, and gives back `w`. |
| SensorWords.WordOf | testhal/STM32/multi/SPI_USB/main.c:129 | The word assembled from two received bytes is below 2^16, with the first byte as its high byte and the second as its low byte. The accelerometer read at lines 253-255 assembles its raw readings the same way. |
| SensorWords.PromWordIsCrcWord | testhal/STM32/multi/SPI_USB/main.c:129 | The assembled PROM word is the value of the 16-bit word the checksum reads. |
| SensorWords.AdcSample | testhal/STM32/multi/SPI_USB/main.c:193 | The ADC sample is below 2^24, and its three bytes, most significant first, are the bytes received. |
| SensorWords.BigEndianRoundTrip | testhal/STM32/multi/SPI_USB/main.c:129 | Encoding the decoded value of a byte string gives back the bytes. |
| SensorWords.ToBigEndianRoundTrip | testhal/STM32/multi/SPI_USB/main.c:193 | Decoding the `k`-byte encoding of a value below 256^k gives back the value. |
| SensorWords.BigEndianInjective | testhal/STM32/multi/SPI_USB/main.c:193 | Different byte strings of one length assemble to different values. |
| SensorWords.Int16 | testhal/STM32/multi/SPI_USB/main.c:253-255 | The `(int16_t)` cast gives a value in -32768..32767 that is congruent to the raw word modulo 2^16. |
| SensorWords.Int16RoundTrip | testhal/STM32/multi/SPI_USB/main.c:253-255 | The cast inverts the 16-bit pattern of a signed value. |
| SensorWords.Uint16RoundTrip | testhal/STM32/multi/SPI_USB/main.c:253-255 | The 16-bit pattern inverts the cast. |
| SensorWords.DivTrunc16 | testhal/STM32/multi/SPI_USB/main.c:257-259 | Division by 16 truncates toward zero: the quotient is the floor for non-negative values and the ceiling for negative ones. |
| SensorWords.DivTrunc16Odd | testhal/STM32/multi/SPI_USB/main.c:257-259 | Negating the reading negates the quotient. |
| SensorWords.AccelAxis | testhal/STM32/multi/SPI_USB/main.c:253-259 | Each axis in milli-g lies in -2048..2047 and is the signed reading divided by 16, truncated toward zero. |
| SensorWords.AccelAxisExtremes | testhal/STM32/multi/SPI_USB/main.c:253-259 | Both ends of the range are reached (0x8000 gives -2048, 0x7FFF gives 2047), and 0xFFFF gives 0, not -1. |
| SensorWords.TestValue | testhal/STM32/multi/SPI_USB/main.c:315-318 | The pattern is a `uint32_t`, below 2^32. |
| SensorWords.TestValueNoWrap | testhal/STM32/multi/SPI_USB/main.c:310-318 | Within 500 chunks of 256 words the pattern never wraps around. |
| SensorWords.TestValueInjective | testhal/STM32/multi/SPI_USB/main.c:310-318 | Every word of the test memory has a different pattern, so a word moved to another place is always detected. |
| Mfs.Fresh | test/mfs/source/test/mfs_test_sequence_002.c:85-89 | A freshly erased and started store is on bank 0, holds no record (every read is `NotFound`) and uses no space. |
| Mfs.Read | test/mfs/source/test/mfs_test_sequence_002.c:121-129 | A read succeeds exactly when the record is present, through the open transaction if there is one, and then returns exactly the stored bytes (the test compares size and contents). Otherwise it is `NotFound`. |
| Mfs.Write | test/mfs/source/test/mfs_test_sequence_002.c:105-110 | The data must not be empty. Data over the maximum is `TooLarge`. With no transaction the write fails exactly when the live records would not fit the bank. Inside one it fails exactly when the reservation is exhausted, and it changes nothing durable. A successful write replaces just that record and keeps bank and counter. |
| Mfs.Erase | test/mfs/source/test/mfs_test_sequence_002.c:151-152 | An absent record is `NotFound`. With no transaction an erase of a present record succeeds. Inside one it is charged to the reservation and changes nothing durable. A successful erase removes just that record. |
| Mfs.StartTransaction | test/mfs/source/test/mfs_test_sequence_002.c:139-140 | A second transaction is `AlreadyOpen`. Otherwise the start fails exactly when the reservation does not fit the free space. It changes neither the records nor anything durable. |
| Mfs.Commit | test/mfs/source/test/mfs_test_sequence_002.c:168-173 | Commit without a transaction is `NotOpen`. Otherwise the transaction's view becomes the store's records, and bank and counter stay. |
| Mfs.Rollback | test/mfs/source/test/mfs_test_sequence_002.c:305-310 | Rollback without a transaction is `NotOpen`. Otherwise the durable store is as it was. |
| Mfs.Remount | test/mfs/source/test/mfs_test_sequence_002.c:216-217 | Remounting keeps everything durable and drops an uncommitted transaction. |
| Mfs.GarbageCollect | test/mfs/source/test/mfs_test_sequence_002.c:259-292 | Refused exactly when a transaction is open. Otherwise no read changes, the bank switches, the counter grows by one modulo 2^32, and `used_space` stays. |
| Mfs.ReadAfterWrite | test/mfs/source/test/mfs_test_sequence_002.c:105-129 | A successful write reads back, and every other id reads as before. |
| Mfs.ReadAfterErase | test/mfs/source/test/mfs_test_sequence_002.c:151-187 | A successful erase makes the id `NotFound`, and every other id reads as before. |
| Mfs.WriteSpaceAccounting | test/mfs/source/test/mfs_test_sequence_002.c:105-110 | With no transaction, `OutOfSpace` happens exactly when the used space, less the replaced record, plus the new record exceeds the bank. Otherwise that is the new used space. |
| Mfs.RemountIdentity | test/mfs/source/test/mfs_test_sequence_002.c:216-249 | Remounting a store with no open transaction changes nothing: reads, bank, counter and `used_space`. |
| Mfs.CommitDurable | test/mfs/source/test/mfs_test_sequence_002.c:168-249 | Every read seen inside the transaction is seen after commit and remount. |
| Mfs.StepsInTransaction | test/mfs/source/test/mfs_test_sequence_002.c:151-159 | Any sequence of writes and erases inside a transaction leaves the durable store untouched. |
| Mfs.CrashBeforeCommit | test/mfs/source/test/mfs_test_sequence_002.c:139-159 | Power lost before the commit: remounting gives exactly the store from before the transaction. |
| Mfs.RollbackRestores | test/mfs/source/test/mfs_test_sequence_002.c:305-310 | After any operations, a rollback restores every read of the store from before the transaction. |
| Mfs.GarbageCollectKeepsContent | test/mfs/source/test/mfs_test_sequence_002.c:259-292 | Garbage collection succeeds with no transaction open and changes no read. A second collection succeeds, returns to the first bank and keeps the content. |
| Mfs.Pattern1 | test/mfs/source/test/mfs_test_sequence_002.c:45-47 | Pattern 1 is the 16 bytes 0..15. |
| Mfs.Pattern2 | test/mfs/source/test/mfs_test_sequence_002.c:49-52 | Pattern 2 is the 32 bytes 15..0 then 0..15. |
| Mfs.TestWrites | test/mfs/source/test/mfs_test_sequence_002.c:99-131 | Steps 1-2: on an erased store, writing ids 1, 2 and 3 with pattern 1 succeeds and each reads back. |
| Mfs.TestTransaction | test/mfs/source/test/mfs_test_sequence_002.c:133-208 | Steps 3-6: the transaction (3 records, 1024 bytes) opens. Inside it, id 3 reads pattern 1. Erasing id 1 and writing pattern 2 to id 2 succeed. After the commit, id 1 is `NotFound`, id 2 holds pattern 2 and id 3 pattern 1, on bank 0 with the counter unchanged. |
| Mfs.TestRemountAndCollect | test/mfs/source/test/mfs_test_sequence_002.c:210-294 | Steps 7-10: after remount the same reads hold, with the same bank, counter and `used_space`. After garbage collection they hold again, on bank 1, with the saved counter equal to the new one minus 1 (as `uint32_t`) and the same `used_space`. |
| Pools.Init | test/oslib/source/test/oslib_test_sequence_005.c:93 | Object initialisation leaves the pool empty, with or without a provider as given. |
| Pools.Free | test/oslib/source/test/oslib_test_sequence_005.c:121-126 | Freeing adds exactly that object to the pool's free objects. |
| Pools.LoadArray | test/oslib/source/test/oslib_test_sequence_005.c:99-103 | Loading an array adds exactly its objects: the free objects grow by the array, as a multiset and in number. |
| Pools.Alloc | test/oslib/source/test/oslib_test_sequence_005.c:106-149 | A non-empty pool hands out one of its free objects, which leaves the pool. An empty pool without a provider yields NULL and stays as it was. With a provider, it yields what the provider returns. |
| Pools.AllocManySucceeds | test/oslib/source/test/oslib_test_sequence_005.c:106-111 | Up to as many allocations as the pool holds all succeed. The objects handed out, together with those left, are exactly the pool's objects. |
| Pools.EmptyPoolYieldsNull | test/oslib/source/test/oslib_test_sequence_005.c:114-118 | An empty pool without a provider yields NULL and stays empty. |
| Pools.NullProviderYieldsNull | test/oslib/source/test/oslib_test_sequence_005.c:145-150 | A provider that returns NULL makes an empty pool yield NULL. |
| Pools.LoadThenDrain | test/oslib/source/test/oslib_test_sequence_005.c:99-118 | Loading N objects into an empty pool gives N successful allocations that hand out exactly those objects, and then NULL. |
| Pools.PoolTest | test/oslib/source/test/oslib_test_sequence_005.c:96-152 | Test 5.1: load N, N successes, NULL; free N, N successes, NULL; a NULL provider yields NULL. Test 3.1 in `oslib_test_sequence_003.c` (lines 95-149) asserts the same. |
| Pools.GuardedInit | test/oslib/source/test/oslib_test_sequence_005.c:189 | Object initialisation leaves the guarded pool empty, with a semaphore count of 0 and no provider. |
| Pools.GuardedFree | test/oslib/source/test/oslib_test_sequence_005.c:219-224 | Freeing into a guarded pool adds the object to its free objects and signals its semaphore. The count stays equal to the number of free objects and grows by one. |
| Pools.GuardedLoadArray | test/oslib/source/test/oslib_test_sequence_005.c:195-200 | Loading N objects adds exactly those objects to the free ones and raises the count by N. |
| Pools.GuardedAlloc | test/oslib/source/test/oslib_test_sequence_005.c:203-214 | An allocation succeeds exactly when the count is positive. It then hands out one of the free objects, which leaves the free objects, and counts down. Otherwise it yields NULL and changes nothing. |
| Pools.GuardedAllocManySucceeds | test/oslib/source/test/oslib_test_sequence_005.c:203-208 | Up to `count` immediate allocations all succeed and count down by their number. |
| Pools.GuardedLoadThenDrain | test/oslib/source/test/oslib_test_sequence_005.c:195-215 | Loading N objects into an empty guarded pool gives N immediate successes, then NULL. |
| Pools.GuardedPoolTest | test/oslib/source/test/oslib_test_sequence_005.c:192-242 | Test 5.2: load N, N immediate successes, NULL; free N, N successes, NULL. Test 3.2 in `oslib_test_sequence_003.c` (lines 166-216) asserts the same. |
| Pools.GuardedTimeoutTest | test/oslib/source/test/oslib_test_sequence_005.c:383-396 | Test 5.3: an empty guarded pool yields NULL even with a 100 ms timeout. |
| Factory.Empty | test/oslib/source/test/oslib_test_sequence_005.c:294-298 | At start-up the registry is valid and no name is registered. That is why the first find at these lines yields NULL. |
| Factory.Find | test/oslib/source/test/oslib_test_sequence_005.c:322-327 | Find succeeds exactly when the name is registered. It then returns that object and raises its count by one. Otherwise it yields NULL and changes nothing. |
| Factory.Create | test/oslib/source/test/oslib_test_sequence_005.c:300-314 | Create fails exactly when the name is already registered. Otherwise it registers a new object, distinct from every registered one, with one reference. |
| Factory.Duplicate | test/oslib/source/test/oslib_test_sequence_005.c:329-331 | Duplicating a reference returns the same object with its count raised by one. |
| Factory.Release | test/oslib/source/test/oslib_test_sequence_005.c:333-345 | Releasing lowers the count by one. The object leaves the registry exactly when it held the last reference. |
| Factory.DuplicateThenRelease | test/oslib/source/test/oslib_test_sequence_005.c:329-334 | Releasing a duplicated reference gives back the registry as it was. |
| Factory.FindThenRelease | test/oslib/source/test/oslib_test_sequence_005.c:324-337 | Releasing the reference a find handed out gives back the registry as it was. |
| Factory.CreateThenFind | test/oslib/source/test/oslib_test_sequence_005.c:302-326 | A created object is found under its name as the same object. |
| Factory.ReleaseAllRemoves | test/oslib/source/test/oslib_test_sequence_005.c:279-288 | Releasing an object as many times as its count removes it and touches no other name. The release loop stops once the object is gone. |
| Factory.FactoryTest | test/oslib/source/test/oslib_test_sequence_005.c:290-354 | Test 5.6, step by step. Find yields NULL, create succeeds, a second create fails. Find returns the same object with 2 references, and duplicating gives 3. Two releases leave 1, the last release removes it, and find yields NULL again. |
| Pipes.Init | test/oslib/source/test/oslib_test_sequence_003.c:258-263 | A fresh pipe of a positive size is empty, with both offsets at the start of the buffer. This is the state the empty-read test checks. |
| Pipes.WriteImmediate | test/oslib/source/test/oslib_test_sequence_003.c:157-162 | An immediate write puts in as many bytes as there is room for, returns that number and advances the write offset with wrap-around. It keeps the read offset and the ring invariant. |
| Pipes.ReadImmediate | test/oslib/source/test/oslib_test_sequence_003.c:258-263 | An immediate read takes as many bytes as the pipe holds, up to the request, returns that number and advances the read offset. It keeps the write offset and the invariant. |
| Pipes.EmptyReadReturnsZero | test/oslib/source/test/oslib_test_sequence_003.c:258-263 | Reading an empty pipe returns 0 and changes nothing. |
| Pipes.EmptyReadTest | test/oslib/source/test/oslib_test_sequence_003.c:249-264 | From a fresh pipe the read returns 0, with both offsets at the buffer start and the count 0. |
| Pipes.OffsetsMeet | test/oslib/source/test/oslib_test_sequence_003.c:159-161 | The read and write offsets coincide exactly when the pipe is empty or full. |
| Pipes.FillingWrite | test/oslib/source/test/oslib_test_sequence_003.c:157-162 | Writing exactly the free room returns that count and leaves the pipe full, with the write offset on the read offset. |
| Pipes.FillRemainingTest | test/oslib/source/test/oslib_test_sequence_003.c:152-163 | With 4 bytes in a pipe read from the buffer start, writing `size - 4` returns `size - 4` and leaves both offsets at the start with the pipe full. |
| Pipes.WriteThenReadAll | test/oslib/source/test/oslib_test_sequence_003.c:157-162 | Reading back what was written into an empty pipe returns the same count and leaves it empty. |
| Pipes.OversizedWrite | test/oslib/source/test/oslib_test_sequence_003.c:267-277 | A write larger than a fresh pipe puts in exactly `size` bytes and returns `size`. It leaves the pipe full with both offsets at the start of the buffer. |
| Pipes.OversizedWriteTest | test/oslib/source/test/oslib_test_sequence_003.c:267-277 | Test 3.2.2 with a pipe buffer of `PIPE_SIZE / 2` bytes: a write of `PIPE_SIZE` bytes returns `PIPE_SIZE / 2`, with both offsets at the buffer start and `PIPE_SIZE / 2` bytes in the pipe. |

## Left out

- Bus I/O (`spi_transfer`), printing, the SPI and blinker threads, `main`, cache maintenance and USB start-up: hardware side effects. The bytes a transfer returns are the parameters of the byte-assembly functions.
- Temperature and pressure conversions of both sensors: floating point.
- `check_corruption` and the heap allocation it checks: a memory-stress loop over the heap allocator. Only its pattern `test_value` is modelled.
- Crc4.RoundValue: the taps are stated on the byte pair (0x30 xored into the high byte) rather than as `^ 0x3000` on the integer value. Integer xor is not available without 16-bit vectors, and reasoning on those is too expensive for the solver.
- SpiConfig.GetSpiCfg1: the clock `STM32_SPI3CLK` is a parameter, because its value is a board constant not visible here. The register layout constants come from the STM32H7 reference manual, since the CMSIS header is not part of this model. The model computes the MBR field exactly as the code does, the index `i` of the loop at `main.c:99-104`. In the STM32H7 layout an MBR value of `i` selects the kernel clock divided by 2^(i+1), so the bus runs at half the frequency the loop computed. The comment at `main.c:106-108` does not mention this. The model states only what the code stores, not the resulting bus frequency.
- Mfs: the on-flash layout is not modelled, because the MFS implementation is not part of this model. That covers bank headers, record headers, CRCs, the append-only record stream, the mount-time scan and the format. The store is its logical content, and a record costs a configurable `headerSize` plus its data; alignment is not modelled.
- Mfs.Write: automatic garbage collection on low space is not modelled; a write never switches banks. Writing empty data is excluded by the precondition rather than modelled as an outcome. Length 0 encodes the erase tombstone, so a present empty record cannot exist.
- Mfs.Read: corrupted records (CRC mismatch) and flash I/O errors are not modelled, because there is no flash. Inside an open transaction, reads and erases see the transaction's own writes and erases. That is a modelling choice, and no assertion of test 2.1 fixes it: the only read inside the transaction is of id 3, which the transaction does not touch (`mfs_test_sequence_002.c:155-159`). `Mfs.Erase` (its `NotFound` case) and `Mfs.CommitDurable` depend on this choice.
- Mfs.Rollback: test 2.2 is an empty stub that asserts nothing. Rollback follows the documented behaviour: the transaction's writes are dropped.
- Mutexes and the single-owner discipline of MFS: the model is sequential.
- Pools.Alloc: the contract says only that one of the free objects is handed out. The model takes the most recently freed one, but no test observes which.
- Pools.GuardedAlloc: no waiting is modelled. With a single thread nobody frees an object while the caller waits, so an empty guarded pool yields NULL whatever the timeout. Blocking forever (`TIME_INFINITE`) is not modelled.
- Factory.ReleaseAllRemoves: the teardown loop at `oslib_test_sequence_005.c:284-286` tests `dpp->element.refs` again after the release that frees the object. It reads a freed object, and the object's memory after release is not modelled. The model's release sequence stops once the name is gone, so it says nothing about that read.
- Factory.Create: failure for lack of memory is not modelled. Only the duplicate name makes creation fail. The pipe a dynamic pipe carries is not modelled beyond its size.
- Pipes.WriteImmediate: the bytes in the pipe are not modelled, only counts and offsets, which is what the tests assert. Waiting writers and readers are not modelled either.
- Pipes.OversizedWriteTest: `pipe1` and `PIPE_SIZE` are not declared in `oslib_test_sequence_003.c`, so the size of the pipe in test 3.2.2 is not visible. The step's comment at line 267 says the string is larger than the pipe buffer, and the assertions at lines 272-276 compare against `PIPE_SIZE / 2`. So the lemma takes the buffer to hold `PIPE_SIZE / 2` bytes; `Pipes.OversizedWrite` states the same for any size and any larger write.
- The test framework (`test_set_step`, the `testcase_t` tables) and the board configuration headers: no logic to model.
