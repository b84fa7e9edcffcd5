# A verified model of the FPGA V3 processor software

This project models the parts of the FPGA V3 software in which a property depends on a whole
run, and proves those properties for every input, every run and every behaviour of the
hardware on the other side. `dafny verify dfyconfig.toml` checks everything.

- **EMIO bus** (`EmioBoard`, `EmioWord`, `LineBits`, `GpiodWire`, `EmioStandalone`, `EmioMmap`,
  `EmioGpiod`, `EmioRuns`): the three drivers that move quadlets and blocks between the
  processor and the FPGA registers over GPIO lines. Block transfers refine sequences of single
  quadlets although the drivers only toggle one address line; the direction shadow and the idle
  lines are invariants over every sequence of calls, for gpiod with calls failing anywhere; the
  two Linux drivers are compared operation by operation on the wire.
- **QSPI flash** (`Flash`, `SerialNumber`): the incremental sector update on NOR flash is
  correct, minimal and idempotent; the serial number survives writing and reading, and the
  independent readers agree, under exact conditions.
- **DRAM diagnostics** (`MemTest`, `Patterns`, `MemTestAll`, `BrokenMemory`, `Lfsr`, `LfsrPeriod`): test
  routines with early exit over an arbitrary memory, the combined verdict of `memtest_all`, the
  error buffer, the words each test uses, and the shift register behind the random ones with
  its exact period (`Mersenne` has the primality of 2^31 - 1 that this needs).
- **Eye measurements** (`EyeGrid`, `EyeSweep`, `ReadEye`, `WriteEye`, `BitField`, `RegList`,
  `BestEye`): sweeps with nested memory tests that stop early against the exhaustive scan, the
  registers and the register list they change around those tests, and the scoring of the results.
- **The rest of the bench** (`BoardId`, `CacheFlush`): the switch debouncer and the set/way
  cache flush.

`Arithmetic`, `BitSet`, `ByteOrder`, `Iteration` and `WordNumber` (32-bit words as numbers) hold
shared definitions.

## Assumptions

- The FPGA firmware is not part of the repository. `EmioBoard` states what the drivers' comments
  say about it: a rising `req_bus` latches the address and starts an operation; a change of the
  LSB line while `req_bus` is up advances the address by one and starts another; all data lines
  driven means write, otherwise read; `op_done` falls at the start of an operation and rises when
  it completes, after any number of polls. Registers are plain storage.
- mmap results about values need the firmware to answer within the timeout (`InTime`); the
  invariants do not. gpiod results about values need no failing call and no operation pending
  (`Sound`), and then the drivers report whether the firmware answered in time (`Timely`); the
  invariants hold with any calls failing, except that the calls which return `req_bus` and the
  control lines to 0 succeed, and a failed call leaves the lines as they were. Any non-zero value
  written to a line drives it high.
- DRAM is a function of the time of the read, everything written so far and the address: any
  faulty memory, also one that depends on delays set earlier. A sweep tests no offset twice; what
  a lane would do at the offsets a sweep does not reach is left open (`rest`).
- Flash reads and writes of `ProgramFlash` transfer in full, and the partition is at least as
  long as the file. `lseek` by `-nb` (line 139) is the backward step it is meant to be. `strchr`
  is bounded by the buffer it searches: 9 bytes in `GetFpgaSerialNumber`, the 16-byte `sn_buff`
  in the boot loader and the menu.
- Signed counters wrap and `>>` on an int is an arithmetic shift, as with the compilers in use.
- An empty gpiod block write sends the word it finds behind its empty buffer; in runs of calls this
  is taken to be 0.
- A PROM copy whose length is not a multiple of 4 reads up to three bytes beyond its buffer;
  these are whatever memory holds there.

## What does not hold, and exactly when it does

- gpiod blocks (`GpiodWire`): `~` turns 1 into -2, so from an odd address the LSB line never
  moves, only one operation is started and a block read returns the first register n times. With
  n <= 1 the framing differs from mmap. A block write with the lines already output does not
  drive its first word. The two drivers agree on the wire exactly outside these cases, and a gpiod
  call has the effect and answer of a plain register file exactly as `EmioRuns.PlainIffRegular`
  says. An empty block read starts an operation and does not wait for it.
- Eye sweeps (`EyeGrid.SweepIsExact`): the reported ends are wrong exactly for a lane that passes
  again beyond an offset at which all lanes fail.
- Serial numbers (`SerialNumber.ReadersAgree`): the boot loader and the menu show more than the
  library returns exactly when nine or ten characters are ended by 0xff.
- Error counters (`MemTestAll.ExactBounds`, `MemTestAll.LargestMenuTest`): `werr` and `errcnt` are
  C ints. Once 2^31 errors are counted `werr` is negative, `werr <= 80` holds again and
  `error_info` stores outside `err_buf` (memtest.c:1528-1534) and overwrites the first error in the
  mailbox. With one bad byte lane no test stops early, so this happens for the 1023-megabyte menu
  entry (memtest.c:3090). Over all memories it cannot happen if and only if the selected tests that
  read back have fewer than 2^31 words in all; the counters tell clean ranges from faulty ones if
  and only if these are fewer than 2^32.
- The initial `error_info(0, 0, 0)` (memtest.c:2029) always stores in front of `err_buf`, at index -3.
- `find_best_eye` returns -1 exactly when no experiment scores above -9999, which sweep results can
  do (`BestEye.NoChoice`): exactly those with a closed lane and the other widths large
  (`BestEye.LowScores`).
- `measure_write_eye` restores its list but not the controller (memtest.c:2210), which stays at the
  last offset tested.
- `get_bit_field` on a field that reaches beyond bit 31 returns copies of the sign bit
  (`BitField.SignCopies`); inside the word it reads the field (`BitField.GetIsLogical`).
- `memtest_simple` overruns the range for sizes that are 1 to 12 modulo 16, and always records a
  wrong address.
- `fix_ctr` (`WriteEye.NoFifthLane`) changes nothing: its block runs with j = 4, and those
  addresses are not in the table.
- `get_reglist_value` returns the last entry's word, not -1, for a missing address; the code, not
  the initial value, decides.
- The wait for `op_done` to fall in the mmap driver is satisfied by any status word, and
  `WaitOpDone` always returns true; both are modelled as they are.

## Model

| member | source | states |
|---|---|---|
| `EmioBoard.AdvanceIsAddition` | platform_standalone/fpgav3_lib_src/fpgav3_emio.c:192-205 | stepping the firmware address n times is 16-bit addition of n |
| `EmioBoard.OddAdvance` | platform_standalone/fpgav3_lib_src/fpgav3_emio.c:197-203 | the low bit of the advanced address is what the LSB line must show: it alternates from the base address on |
| `EmioBoard.BlockStep` | platform_standalone/fpgav3_lib_src/fpgav3_emio.c:192-205 | driving the lines for quadlet q always starts an operation, and at base + q, the address a single transfer would use, although only the LSB line moves |
| `EmioWord.DecodeWord` | platform_standalone/fpgav3_lib_src/fpgav3_emio.c:21-33 | address and flag bits of the upper register do not disturb each other: every address comes back from the word, and each flag is its own line |
| `EmioWord.LinesOfWord` | platform_standalone/fpgav3_lib_src/fpgav3_emio.c:21-33 | in numbers: the address is the register value modulo 2^16, req_bus its bit 16, reg_wen 18, blk_start 19, blk_end 20 and the LSB line 23 |
| `EmioWord.ReadWord` | platform_standalone/fpgav3_lib_src/fpgav3_emio.c:128-147 | the register value of a quadlet read drives the address and req_bus, nothing else |
| `EmioWord.WriteWord` | platform_standalone/fpgav3_lib_src/fpgav3_emio.c:149-167 | that of a quadlet write drives the address, reg_wen and req_bus |
| `EmioWord.BlockWord` | platform_standalone/fpgav3_lib_src/fpgav3_emio.c:185-188 | that of a block transfer drives the address, blk_start and req_bus |
| `EmioWord.QuadletWord` | platform_standalone/fpgav3_lib_src/fpgav3_emio.c:192-200 | the mask code of the block loops, run on the 32-bit word, moves blk_start, blk_end and the LSB line as the protocol wants and no other line; the block theorems of both memory-mapped drivers rest on it |
| `EmioWord.SetBlkEnd` | platform_standalone/fpgav3_lib_src/fpgav3_emio.c:192-196 | the mask expressions for the last quadlet change exactly blk_start and blk_end |
| `EmioWord.SetLsb` | platform_standalone/fpgav3_lib_src/fpgav3_emio.c:198 | or-ing the LSB mask raises that line and nothing else |
| `EmioWord.ClearLsb` | platform_standalone/fpgav3_lib_src/fpgav3_emio.c:199 | and-ing its complement lowers that line and nothing else |
| `EmioStandalone.Driver.constructor` | platform_standalone/fpgav3_lib_src/fpgav3_emio.c:35-56 | lines in any state end up idle and data lines as inputs, without starting an operation; the driver is ready exactly if none was in progress |
| `EmioStandalone.Driver.WaitOpDone` | platform_standalone/fpgav3_lib_src/fpgav3_emio.c:65-87 | however long the firmware takes, the operation in progress is complete afterwards and nothing else changed |
| `EmioStandalone.Driver.SetDataInput` | platform_standalone/fpgav3_lib_src/fpgav3_emio.c:93-108 | all data lines become inputs; the check of the idle lines never fails between calls |
| `EmioStandalone.Driver.SetDataOutput` | platform_standalone/fpgav3_lib_src/fpgav3_emio.c:110-126 | all data lines become enabled outputs; the check never fails between calls |
| `EmioStandalone.Driver.ReadQuadlet` | platform_standalone/fpgav3_lib_src/fpgav3_emio.c:128-147 | returns the register at the address, changes none, puts one read on the wire, ends idle |
| `EmioStandalone.Driver.WriteQuadlet` | platform_standalone/fpgav3_lib_src/fpgav3_emio.c:149-167 | changes exactly that register, puts one write on the wire, ends idle |
| `EmioStandalone.Driver.ReadBlock` | platform_standalone/fpgav3_lib_src/fpgav3_emio.c:169-217 | a block read returns what n single reads at addr, addr+1, ... (mod 2^16) return, touches no register and no buffer cell beyond n, and starts exactly the n operations of the protocol; refused unless the firmware version is 1 |
| `EmioStandalone.Driver.WriteBlock` | platform_standalone/fpgav3_lib_src/fpgav3_emio.c:219-267 | a block write leaves the register file as n single writes would |
| `EmioRuns.WritePromStandalone` | platform_standalone/fpgav3_lib_src/fpgav3_emio.c:269-280 | for every length the bare-metal PROM copy leaves the same registers as the Linux one, byte 0 of each quadlet highest |
| `EmioMmap.Driver.constructor` | petalinux/libfpgav3/files/fpgav3_emio_mmap.cpp:57-120 | initialisation from any line state establishes the direction shadow and the idle lines |
| `EmioMmap.Driver.WaitOpDone` | petalinux/libfpgav3/files/fpgav3_emio_mmap.cpp:170-197 | a pending operation that takes no longer than the timeout is complete afterwards; in every case only the operation in progress has moved |
| `EmioMmap.Driver.ReadQuadlet` | petalinux/libfpgav3/files/fpgav3_emio_mmap.cpp:200-260 | keeps shadow and idle lines whatever the firmware does; if it answers in time the register at the address is returned |
| `EmioMmap.Driver.WriteQuadlet` | petalinux/libfpgav3/files/fpgav3_emio_mmap.cpp:262-322 | the same for a write: exactly that register changes |
| `EmioMmap.Driver.ReadBlock` | petalinux/libfpgav3/files/fpgav3_emio_mmap.cpp:324-407 | n alternating reads on the wire, byte-swapped values of n single reads in the buffer, nothing beyond it changed |
| `EmioMmap.Driver.WriteBlock` | petalinux/libfpgav3/files/fpgav3_emio_mmap.cpp:409-494 | n alternating writes on the wire and the register file of n single writes of the swapped words |
| `ByteOrder.BswapBytes` | petalinux/libfpgav3/files/fpgav3_emio_mmap.cpp:446 | byte k of bswap_32(w) is byte 3 - k of w |
| `ByteOrder.BytesAre` | petalinux/libfpgav3/files/fpgav3_emio.cpp:31 | a word is the sum of its four bytes times 1, 2^8, 2^16 and 2^24 |
| `EmioRuns.RunMmap` | petalinux/libfpgav3/files/fpgav3_emio_mmap.cpp:200-494 | over every sequence of calls and every version of the bus interface: `isInput` agrees with the lines, all upper lines are 0 between calls, the wire shows exactly the operations of the calls, block calls are refused exactly below version 1, and with a firmware that answers in time results and registers are those of a plain register file |
| `LineBits.PinsOfLines` | petalinux/libfpgav3/files/fpgav3_emio_gpiod.cpp:395-396 | unpacking a word MSB first and driving the lines puts that word on the pins |
| `LineBits.LinesOfPins` | petalinux/libfpgav3/files/fpgav3_emio_gpiod.cpp:356-358 | and each line then carries its own bit: unpacking inverts packing |
| `LineBits.Unpack` | petalinux/libfpgav3/files/fpgav3_emio_gpiod.cpp:312-313 | unpacking bit by bit puts bit n-1-i on line i |
| `LineBits.Pack` | petalinux/libfpgav3/files/fpgav3_emio_gpiod.cpp:356-358 | packing bit by bit rebuilds the word on the pins |
| `EmioGpiod.Driver.constructor` | petalinux/libfpgav3/files/fpgav3_emio_gpiod.cpp:48-215 | a successful Init establishes the direction shadow and the idle lines; lowering the lines one group after the other it starts one read exactly if it finds both req_bus and the LSB line up |
| `EmioGpiod.Driver.WaitOpDone` | petalinux/libfpgav3/files/fpgav3_emio_gpiod.cpp:245-295 | true only with op_done seen and no operation left in progress; with no failing call it is true if and only if op_done is up afterwards, that is if the operation takes no longer than the timeout; polling changes only the operation in progress, and a timed-out one is still pending |
| `EmioGpiod.Driver.ReadQuadlet` | petalinux/libfpgav3/files/fpgav3_emio_gpiod.cpp:298-375 | with any call failing: shadow and idle lines kept, only reads on the wire, and true only if op_done was seen and the data lines were sampled; with none failing and no operation pending: true if and only if the firmware answers before the timeout, and then with the register at the address; no register changes either way |
| `EmioGpiod.Driver.WriteQuadlet` | petalinux/libfpgav3/files/fpgav3_emio_gpiod.cpp:378-450 | with any call failing: shadow and idle lines kept, only writes on the wire, and true only if op_done was seen; with none failing and no operation pending: true if and only if the firmware answers before the timeout, and then exactly that register is written, otherwise none |
| `EmioGpiod.Driver.ReadBlock` | petalinux/libfpgav3/files/fpgav3_emio_gpiod.cpp:453-597 | the same over every error exit: with none failing and no operation pending, true if and only if every operation that the block starts is answered in time; then quadlet k is the byte-swapped register at addr + k for an even start, and the first register again for every k for an odd start; the buffer beyond n is untouched in every case |
| `EmioGpiod.Driver.WriteBlock` | petalinux/libfpgav3/files/fpgav3_emio_gpiod.cpp:600-720 | the same over every error exit: true if and only if every operation that the block starts is answered in time; then the registers after single writes of the words really sent, or only the first of them for an odd start |
| `GpiodWire.LsbLine` | petalinux/libfpgav3/files/fpgav3_emio_gpiod.cpp:537-541 | the value written to the LSB line is 0, -1, 0, -1, ... from an even start and 1, -2, 1, -2, ... from an odd one |
| `GpiodWire.OddStart` | petalinux/libfpgav3/files/fpgav3_emio_gpiod.cpp:529-553 | so a block from an odd address starts one operation only, whatever its length |
| `GpiodWire.EvenStart` | petalinux/libfpgav3/files/fpgav3_emio_gpiod.cpp:529-553 | and a block of two or more from an even address starts the operations of the protocol, one per quadlet |
| `GpiodWire.EventCount` | petalinux/libfpgav3/files/fpgav3_emio_gpiod.cpp:529-553 | how many operations the first q quadlets start: q from an even address, one from an odd one |
| `GpiodWire.Launch` | petalinux/libfpgav3/files/fpgav3_emio_gpiod.cpp:529-553 | setting the LSB line for quadlet q starts an operation exactly when the block began at an even address |
| `GpiodWire.SameReadsOnTheWire` | petalinux/libfpgav3/files/fpgav3_emio_gpiod.cpp:453-580 | gpiod and mmap block reads start the same operations if and only if n >= 2 and the address is even |
| `GpiodWire.SameWritesOnTheWire` | petalinux/libfpgav3/files/fpgav3_emio_gpiod.cpp:600-703 | gpiod and mmap block writes start the same operations if and only if n >= 2, the address is even, and the data lines were inputs or already held the first word |
| `EmioRuns.ReadOnBoth` | petalinux/libfpgav3/files/fpgav3_emio_mmap.cpp:340-386 | running the two drivers' own ReadBlock side by side: equal traffic if and only if n >= 2 and the address is even |
| `EmioRuns.WriteOnBoth` | petalinux/libfpgav3/files/fpgav3_emio_mmap.cpp:428-477 | the same for WriteBlock, with the condition on the first word |
| `EmioRuns.RunGpiod` | petalinux/libfpgav3/files/fpgav3_emio_gpiod.cpp:298-720 | over every sequence of calls with failures and timeouts anywhere: shadow and idle lines hold after each, and each call's stretch of the wire goes in that call's direction; if nothing fails and there is no empty block read, the registers, the direction and word of the data lines and all answers are those of a register file read and written as `Wire` says (odd blocks: first register only; first word of a write only if it got onto the lines) |
| `EmioRuns.RegularRun` | petalinux/libfpgav3/files/fpgav3_emio_gpiod.cpp:453-720 | over a run whose calls are regular (blocks of at most one quadlet or from an even address; writes with a first word that the lines carry or take), those registers and answers are the ones of the same calls on a plain register file, as with the mmap driver |
| `EmioRuns.PlainIffRegular` | petalinux/libfpgav3/files/fpgav3_emio_gpiod.cpp:453-720 | call by call the condition is exact: a call behaves as on a plain register file for all register contents if and only if it is regular or an even block write of more than 2^16 quadlets, which overwrites its own first word |
| `EmioRuns.WritePromData` | petalinux/libfpgav3/files/fpgav3_emio.cpp:26-36 | for every length register 0x2000 + i (mod 2^16) holds the number whose bytes, highest first, are memory bytes 4i to 4i+3, for as many quadlets as the 16-bit count says; all other registers are kept |
| `EmioRuns.ReadBack` | petalinux/libfpgav3/files/fpgav3_emio.cpp:26-36 | up to 2^16 quadlets, reads at consecutive addresses find what writes left there, wrap-around included |
| `EmioRuns.PromRoundTrip` | petalinux/libfpgav3/files/fpgav3_emio.cpp:26-36 | WritePromData and then ReadBlock at 0x2000 gives an array whose memory image begins with the buffer, for every length below 2^16 quadlets |
| `Flash.AndErased` | petalinux/libfpgav3/files/fpgav3_qspi.cpp:139-144 | writing to erased flash stores the byte itself |
| `Flash.ProgramFlash` | petalinux/libfpgav3/files/fpgav3_qspi.cpp:87-160 | the flash afterwards, the number of equal and of rewritten sectors (their sum is the number of sectors of the file) and the log of erased sectors; nothing happens if the file, the device or the buffers fail |
| `Flash.UpdateSectors` | petalinux/libfpgav3/files/fpgav3_qspi.cpp:124-147 | both file offsets stay tied to the loop counter across the backward seek, for every file and sector size |
| `Flash.Rewrite` | petalinux/libfpgav3/files/fpgav3_qspi.cpp:138-144 | seek back, erase, write: the sector holds the new bytes and is erased behind them, every other byte is kept |
| `Flash.Correct` | petalinux/libfpgav3/files/fpgav3_qspi.cpp:124-147 | the flash holds the file; sectors that already agreed keep every byte; the rest of a rewritten last sector is 0xff |
| `Flash.Minimal` | petalinux/libfpgav3/files/fpgav3_qspi.cpp:133-141 | a sector is erased if and only if its covered bytes differed |
| `Flash.Ascending` | petalinux/libfpgav3/files/fpgav3_qspi.cpp:133-141 | each at most once, in ascending order |
| `Flash.Idempotent` | petalinux/libfpgav3/files/fpgav3_qspi.cpp:124-147 | on its own result the update finds nothing to erase and changes nothing |
| `Flash.ProgramTwice` | petalinux/libfpgav3/files/fpgav3_qspi.cpp:87-160 | a second run rewrites no sector and leaves the flash as the first left it |
| `SerialNumber.GetFpgaSerialNumber` | petalinux/libfpgav3/files/fpgav3_qspi.cpp:19-40 | the library reader returns the bytes behind the tag, at most 8, up to the first 0 or 0xff; with short reads, what is then in its buffer, likewise |
| `SerialNumber.TagText` | petalinux/libfpgav3/files/fpgav3_qspi.cpp:19-40 | the tag is the text `FPGA ` with its blank |
| `SerialNumber.DisplaySerialNumber` | platform_standalone/fsbl_src/fsbl_hooks.c:310-323 | the boot loader (and the manufacturing menu) shows the bytes up to the first 0xff in the 16-byte buffer, or at most 8 if a 0 or nothing comes first |
| `SerialNumber.ReadersAgree` | platform_standalone/mfg_test_src/menu.c:31-43 | the two kinds of reader agree on a flash if and only if it is not the case that nine or more bytes other than 0 and 0xff follow the tag and are ended by 0xff inside the 16-byte buffer |
| `SerialNumber.NineCharacters` | platform_standalone/mfg_test_src/menu.c:31-43 | a concrete family on which they disagree |
| `SerialNumber.ProgramFpgaSerialNumber` | petalinux/libfpgav3/files/fpgav3_qspi.cpp:42-78 | success exactly if the number is short enough and everything opened and was written; then tag and number are in flash, erased bytes behind; other sectors untouched |
| `SerialNumber.RoundTrip` | petalinux/libfpgav3/files/fpgav3_qspi.cpp:19-78 | in a flash that holds a number all readers see it up to its first 0xff; it comes back unchanged if and only if it has none |
| `SerialNumber.ProgramAndRead` | petalinux/libfpgav3/files/fpgav3_qspi.cpp:19-78 | programming, then reading with the library and with a displaying reader, from any earlier contents: both give the number up to its first 0xff, so the number itself if and only if it has none |
| `BoardId.HeldStep` | platform_standalone/mfg_test_src/menu.c:100-117 | one more sample adds at most the position it completes |
| `BoardId.PositionIs` | platform_standalone/mfg_test_src/menu.c:103 | the switch position is the number in bits 27:24 of the status register |
| `BoardId.SamePosition` | platform_standalone/mfg_test_src/menu.c:103 | and depends on no other bit |
| `BoardId.TrackStep` | platform_standalone/mfg_test_src/menu.c:102-120 | one pass keeps the meaning of last_id, prev_id and debounce, the int counter wrapping included |
| `BoardId.TracksAfter` | platform_standalone/mfg_test_src/menu.c:93-120 | after every number of samples the loop variables mean that, so by induction over the whole history |
| `BoardId.TestBoardId` | platform_standalone/mfg_test_src/menu.c:93-124 | bit b of switchOK is set if and only if some 11 consecutive samples so far were all b, and the loop ends at the very first sample after which all 16 positions were held that long |
| `Lfsr.TwoForms` | platform_standalone/mfg_test_src/memtest.c:1448-1455 | calc_value and YLFSR agree on every 32-bit input |
| `Lfsr.StepOnState` | platform_standalone/mfg_test_src/memtest.c:127 | the step depends on the low 31 bits only |
| `Lfsr.Bijection` | platform_standalone/mfg_test_src/memtest.c:127 | the step is one-to-one and onto on the low 31 bits |
| `Lfsr.OnlyFixedPoint` | platform_standalone/mfg_test_src/memtest.c:127 | its only fixed point is all ones |
| `Lfsr.NeverLocksUp` | platform_standalone/mfg_test_src/memtest.c:1675-1680 | a run of any length is locked up if and only if it began so |
| `Lfsr.NeverRepeats` | platform_standalone/mfg_test_src/memtest.c:1675-1680 | from any other seed two consecutive states differ |
| `LfsrPeriod.Square` | platform_standalone/mfg_test_src/memtest.c:127 | if f^(32m) = f^(4m) + f^m for a linear f, so it is for 2m |
| `LfsrPeriod.Recurrence` | platform_standalone/mfg_test_src/memtest.c:127 | hence the powers f^(2^k) obey x(k+5) = x(k+2) + x(k) |
| `LfsrPeriod.StepIsLinear` | platform_standalone/mfg_test_src/memtest.c:127 | seen from the locked-up state the step is such a linear map |
| `LfsrPeriod.ExactPeriod` | platform_standalone/mfg_test_src/memtest.c:127 | a run that did not begin locked up is back in its first state after n steps if and only if 2^31 - 1 divides n |
| `LfsrPeriod.Period` | platform_standalone/mfg_test_src/memtest.c:127 | and every run is back after 2^31 - 1 steps |
| `LfsrPeriod.AllDifferent` | platform_standalone/mfg_test_src/memtest.c:1675-1680 | so the words of a pseudo-random test go through pairwise different states, in any range of up to 2^31 - 1 words |
| `MemTest.CountBounds` | platform_standalone/mfg_test_src/memtest.c:1599-1606 | each lane count is at most the number of word errors, and together they are at least that number |
| `MemTest.NoneFound` | platform_standalone/mfg_test_src/memtest.c:1584-1618 | a lane count over any prefix is 0 exactly when no word of the prefix mismatches in that lane |
| `MemTest.EarlyBreak` | platform_standalone/mfg_test_src/memtest.c:1618-1622 | stopping once every lane has errors changes no verdict about the whole range, lane by lane and in total |
| `MemTest.Tester.ErrorInfo` | platform_standalone/mfg_test_src/memtest.c:1517-1535 | for every value of the int counter: the mailbox changes exactly for werr <= 1, the buffer exactly at entry werr - 1 for 1 <= werr <= 80, and for werr <= 0 the store goes to the negative index 3(werr - 1) |
| `MemTest.KeptMore` | platform_standalone/mfg_test_src/memtest.c:1517-1535 | so buffer, mailbox and the stores outside the buffer stay those of the log: the first 80 errors, the first error and only the initial store, as long as the log has fewer than 2^31 entries |
| `MemTest.Tester.CheckWord` | platform_standalone/mfg_test_src/memtest.c:1593-1615 | one comparison extends the log, the counts and the buffer together, the counter being the length of the log wrapped to an int |
| `MemTest.Tester.ReadPass` | platform_standalone/mfg_test_src/memtest.c:1584-1623 | for every memory, what was read, counted and logged is the mismatches of a prefix, which ends at the first checkpoint (each word, in memtest_simple each fourth) with more than 1000 errors in every lane, or with the range |
| `MemTest.StopsOnce` | platform_standalone/mfg_test_src/memtest.c:1618-1622 | so memory and test fix how many words a pass reads |
| `MemTest.StopsFixed` | platform_standalone/mfg_test_src/memtest.c:2024-2087 | and those of a whole run, hence its log |
| `MemTest.EppMore` | platform_standalone/mfg_test_src/memtest.c:1641-1642 | the addition of 1 << mode to epp never carries |
| `WordNumber.MaskIsShift` | platform_standalone/mfg_test_src/memtest.c:1641-1642 | the masks of the test bits are 1 << mode |
| `MemTest.Tester.Test` | platform_standalone/mfg_test_src/memtest.c:1544-1645 | one test routine: the log grows by the mismatches of the words it reads, up to the first checkpoint with more than 1000 errors in every lane or the end; the counters are its counts wrapped to an int; epp bit set if and only if the range has a mismatch |
| `MemTest.LogVerdicts` | platform_standalone/mfg_test_src/memtest.c:1618-1642 | the log is empty if and only if all ranges are clean, and counts no error in a lane if and only if all ranges are clean in that lane, early stops included |
| `MemTestAll.MemtestAll` | platform_standalone/mfg_test_src/memtest.c:2024-2087 | over all memories, selections and seeds: each selected test ran on its own words in order; bit m of epp is set if and only if test m ran and its range has a mismatch; a faithful memory shows no error. If the tests that read back have fewer than 2^31 words in all: counters are those of the log without wrapping, max lane count <= word errors <= sum of lane counts, the buffer has the first 80 errors, the mailbox the first, and no store but the initial one leaves the buffer; if fewer than 2^32: the counters are 0 if and only if the whole ranges are clean |
| `MemTestAll.EppMeaning` | platform_standalone/mfg_test_src/memtest.c:2039-2084 | bit m of epp against the whole range of test m, and the passes against the selection |
| `MemTestAll.LogBound` | platform_standalone/mfg_test_src/memtest.c:2024-2087 | a run finds at most as many errors as the tests that read back have words, summed exactly |
| `MemTestAll.WorstRun` | platform_standalone/mfg_test_src/memtest.c:2024-2087 | on the memory whose lane 0 is wrong in the first `limit` reads, the run finds exactly the smaller of `limit` and that sum, no test stops early, and a second store leaves the buffer if and only if this is 2^31 or more |
| `MemTestAll.ExactBounds` | platform_standalone/mfg_test_src/memtest.c:2024-2087 | both bounds are exact: with limit 2^31 there is no further store outside the buffer if and only if the sum is below 2^31, with limit 2^32 the counters judge the ranges right if and only if the sum is below 2^32 |
| `MemTestAll.MenuSizes` | platform_standalone/mfg_test_src/memtest.c:3036-3091 | of the sizes in the menu only 1023 megabytes has 2^31 words or more: 4022599680 |
| `MemTestAll.LargestMenuTest` | platform_standalone/mfg_test_src/memtest.c:3084-3091 | there one bad byte lane leaves werr at -272367616 and stores outside the buffer |
| `MemTestAll.LocalCountsFit` | platform_standalone/mfg_test_src/memtest.c:1584-1618 | the local counts of one test never wrap |
| `MemTestAll.PlanIsGeneric` | platform_standalone/mfg_test_src/memtest.c:2037-2082 | on a 32-bit bus each of the fifteen tests uses the addresses and values of memtest in its mode, for the sizes that memtest_simple covers exactly and the pseudo-random ones at seed 0 |
| `MemTestAll.WriteOnlyLoop` | platform_standalone/mfg_test_src/memtest.c:1580-1582 | with loop -1 tests 1 to 8 only write; every other selected test reads back, and no unselected one |
| `MemTestAll.SeedOfTest` | platform_standalone/mfg_test_src/memtest.c:1662-1674 | test m from 11 on starts its register from 0x12345678 + loop + 19m + rseed, with rseed moved on by 0x017c1e23 for every pseudo-random test selected up to it, modulo 2^32 |
| `BrokenMemory.BrokenStop` | platform_standalone/mfg_test_src/memtest.c:1618-1622 | on a memory wrong in every lane of every word a test reads 1001 words, memtest_simple 1004, or its whole range if that is shorter |
| `BrokenMemory.BrokenRun` | platform_standalone/mfg_test_src/memtest.c:2024-2087 | memtest_all on such a memory: word errors and all four lane counts are exactly the sum of these over the selected tests, for every size and selection |
| `BrokenMemory.InvertingIsBroken` | platform_standalone/mfg_test_src/memtest.c:1593-1606 | the memory that returns the complement of what was written is one |
| `BrokenMemory.CutMenu` | platform_standalone/mfg_test_src/memtest.c:2024-2087 | over a range of whole megabytes the fifteen tests then count 1001 errors seven times and 1004 errors eight times |
| `MemTestAll.FaithfulTest` | platform_standalone/mfg_test_src/memtest.c:1672-1705 | write and read passes replay one sequence: on a faithful memory no word mismatches and nothing is found, for every start, size, mode, loop and seed, whatever was in memory |
| `MemTestAll.LoadedByWrites` | platform_standalone/mfg_test_src/memtest.c:1672-1690 | after a write pass every expected value is in memory |
| `Patterns.UpdatePatterns` | platform_standalone/mfg_test_src/memtest.c:2804-2825 | fills both 128-word tables |
| `Patterns.Generate` | platform_standalone/mfg_test_src/memtest.c:1674-1705 | word w of a pseudo-random test is the register after w + 1 steps from the seed |
| `Patterns.SameReach` | platform_standalone/mfg_test_src/memtest.c:1566-1571 | memtest_simple covers as many words as memtest if and only if the size is not positive or is 0, 13, 14 or 15 modulo 16 |
| `Patterns.SimpleIsGeneric` | platform_standalone/mfg_test_src/memtest.c:2041-2058 | for modes 1 to 8 the specialised test uses the addresses and values of memtest under exactly that condition on the size |
| `Patterns.TableIsGeneric` | platform_standalone/mfg_test_src/memtest.c:1770-1775 | for modes 9 and 10 the table test uses the words of memtest at every offset and for every size |
| `Patterns.LfsrIsGeneric` | platform_standalone/mfg_test_src/memtest.c:1672-1705 | for the modes from 11 on memtest_lfsr with seed 0 uses the words of memtest |
| `Patterns.AddressTest` | platform_standalone/mfg_test_src/memtest.c:1923-1924 | with a full mask test 0 expects at every word its address modulo 2^32 |
| `Patterns.AddressesDiffer` | platform_standalone/mfg_test_src/memtest.c:1923-1924 | hence no two words of a range of at most 4 gigabytes expect the same |
| `Patterns.NarrowSimple` | platform_standalone/mfg_test_src/memtest.c:2060-2070 | on a 16-bit bus, where a word is two transfers, transfer number t of modes 1 to 8 carries the low half of word t of memtest |
| `Patterns.NarrowTable` | platform_standalone/mfg_test_src/memtest.c:2804-2825 | on a 16-bit bus transfer t of the table test carries the low half of the pattern for word t |
| `Patterns.SimpleRecordsWrongAddress` | platform_standalone/mfg_test_src/memtest.c:1614 | the address memtest_simple records for word j of a group is that of the word plus 4 - 3j, so never the right one |
| `EyeGrid.CountIsRange` | platform_standalone/mfg_test_src/memtest.c:2147-2154 | which offsets of a side are inside 0..128 |
| `EyeGrid.Grid` | platform_standalone/mfg_test_src/memtest.c:2127-2151 | the grid goes up from 64 and down from 60 in steps of 1, 2 or 4 and ends at 128 and 0 exactly |
| `EyeGrid.EyeMore` | platform_standalone/mfg_test_src/memtest.c:2194-2202 | one more tested offset updates the reported ends correctly |
| `EyeSweep.Note` | platform_standalone/mfg_test_src/memtest.c:2194-2202 | the loop over the lanes updates min and max exactly for the lanes without errors |
| `EyeSweep.SelectionIs` | platform_standalone/mfg_test_src/memtest.c:2181-2184 | which tests a sweep runs at each offset: 7 and 8, or 9 to 11, or 5, 6 and 9 to 12, depending on the two flags |
| `EyeGrid.SweepIsExact` | platform_standalone/mfg_test_src/memtest.c:2142-2208 | the sweep with its early stop reports the true smallest and largest passing offsets of a lane if and only if the lane passes nowhere beyond an offset at which all lanes fail |
| `EyeGrid.IntervalHasNoIsland` | platform_standalone/mfg_test_src/memtest.c:2344-2415 | that holds whenever the lane's passing offsets are none or an interval of the grid around the centre |
| `EyeSweep.NestedTest` | platform_standalone/mfg_test_src/memtest.c:2181-2208 | the memory test at an offset is a run of memtest_all; what it finds in its whole ranges decides, lane by lane, whether the offset passes, and whether the side is done |
| `EyeSweep.PassingIsClean` | platform_standalone/mfg_test_src/memtest.c:2194-2202 | an offset counts as passing for a lane if and only if it was tested and every word of every selected test matched in that lane |
| `EyeSweep.SweepMeasures` | platform_standalone/mfg_test_src/memtest.c:2142-2226 | the reported ends are the smallest and largest offsets tested clean, and the true ends exactly for lanes without an island |
| `EyeSweep.SweepsAreSmall` | platform_standalone/mfg_test_src/memtest.c:2118-2135 | the nested tests of a sweep over at most 1023 megabytes have fewer than 2^31 words |
| `EyeGrid.MissedIsland` | platform_standalone/mfg_test_src/memtest.c:2204-2206 | a concrete memory on which the sweep reports a wrong end |
| `EyeGrid.Sentinels` | platform_standalone/mfg_test_src/memtest.c:2112-2113 | 9999 and -9999 appear exactly when no tested offset passed; otherwise both ends were tested and passed |
| `ReadEye.Controller.SetUpTest` | platform_standalone/mfg_test_src/memtest.c:2375-2382 | delays change only with the controller disabled; the test then runs with R00 as saved, strobes at the offset and gates moved along |
| `ReadEye.Cleared28` | platform_standalone/mfg_test_src/memtest.c:2340 | R2C is written with exactly bit 28 cleared |
| `ReadEye.Cleared16` | platform_standalone/mfg_test_src/memtest.c:2341 | R65 with exactly bit 16 cleared |
| `ReadEye.Cleared0` | platform_standalone/mfg_test_src/memtest.c:2339 | R00 with exactly the enable bit cleared |
| `ReadEye.GateMovesAlong` | platform_standalone/mfg_test_src/memtest.c:2375-2381 | in every nested test the strobe of each lane is the offset and the gate keeps its saved distance from it, modulo 2^32 |
| `ReadEye.Controller.MeasureReadEye` | platform_standalone/mfg_test_src/memtest.c:2313-2440 | over every memory, with memtest_all run at each offset: R2C, R65, R50, R5A are written only while bit 0 of R00 is clear, every nested test runs with R00 as saved, all eleven registers are restored; if the nested tests have fewer than 2^31 words, the result is the smallest and largest offsets tested clean per lane, and the true ends if and only if the lane has no island |
| `BitField.GetBitField` | platform_standalone/mfg_test_src/memtest.c:1043-1052 | arithmetic shift and mask, with the mask built in a loop, read the field |
| `BitField.GetIsLogical` | platform_standalone/mfg_test_src/memtest.c:1043-1052 | for a field inside the word that is the logical shift and mask |
| `BitField.SignCopies` | platform_standalone/mfg_test_src/memtest.c:1043-1052 | a field that reaches beyond bit 31 is filled up with copies of the sign bit |
| `BitField.SetBitField` | platform_standalone/mfg_test_src/memtest.c:1058-1068 | the complement, and, shift and add expression, with the mask built in a loop, sets the field |
| `BitField.NoCarry` | platform_standalone/mfg_test_src/memtest.c:1058-1068 | its two summands have no bit in common, so nothing carries |
| `BitField.InsideFits` | platform_standalone/mfg_test_src/memtest.c:1058-1068 | every field with lsb + width <= 32 survives the shift up and down |
| `BitField.OffsetExpressions` | platform_standalone/mfg_test_src/memtest.c:1043-1068 | for bits 30:24 the two functions are the expressions with << 24, >> 24 and 0x7f |
| `BitField.RatioExpressions` | platform_standalone/mfg_test_src/memtest.c:1043-1068 | for bits 9:0 they are those with 0x3ff |
| `BitField.FieldRoundTrip` | platform_standalone/mfg_test_src/memtest.c:1043-1068 | set then get gives the value cut to the field, for every field inside the word; no bit outside any field changes |
| `BitField.FieldAbsorbs` | platform_standalone/mfg_test_src/memtest.c:1058-1068 | the last write to a field wins |
| `WordNumber.NumberMasked` | platform_standalone/mfg_test_src/memtest.c:1043-1052 | a mask of k ones leaves the number modulo 2^k |
| `WordNumber.NumberShifted` | platform_standalone/mfg_test_src/memtest.c:1043-1052 | a logical shift to the right by k divides it by 2^k |
| `RegList.UpdateRegList` | platform_standalone/mfg_test_src/memtest.c:1074-1090 | first match updated in place, everything else kept; nothing if the address is absent |
| `RegList.GetRegListValue` | platform_standalone/mfg_test_src/memtest.c:1096-1112 | field of the first match; for an absent address the last entry's word, not -1 |
| `RegList.MissingValue` | platform_standalone/mfg_test_src/memtest.c:1096-1112 | for an absent address the last entry's whole word comes back |
| `WriteEye.FindLanes` | platform_standalone/mfg_test_src/memtest.c:240-321 | in the 80-entry table first-match search finds the three registers of each lane at their own entries |
| `WriteEye.NoFifthLane` | platform_standalone/mfg_test_src/memtest.c:2268-2273 | the addresses the fix_ctr block uses are not in the table |
| `WriteEye.Coherent` | platform_standalone/mfg_test_src/memtest.c:2158-2164 | at each offset and lane R46[30:24] is the offset mod 2^7 and R5F[9:0] is R55[9:0] plus the offset mod 2^10 |
| `WriteEye.OthersKept` | platform_standalone/mfg_test_src/memtest.c:2158-2164 | every other bit of the list keeps its saved value |
| `WriteEye.Tuner.LoadOffset` | platform_standalone/mfg_test_src/memtest.c:2158-2164 | from whatever offset the list stood at, it is now the saved list moved to the new one |
| `WriteEye.Tuner.DdrcInit` | platform_standalone/mfg_test_src/memtest.c:1162-1174 | the controller holds what writing the entries in order leaves |
| `WriteEye.AllStored` | platform_standalone/mfg_test_src/memtest.c:1162-1174 | that is every entry but the first, which the last one repeats |
| `WriteEye.WrittenDisabled` | platform_standalone/mfg_test_src/memtest.c:1199-1213 | between first and last entry the control register is as the first entry says, so with the enable bit clear there everything else is written with the controller disabled |
| `WriteEye.RightDelays` | platform_standalone/mfg_test_src/memtest.c:2158-2164 | that is what a list moved to its offset and loaded means in numbers |
| `WordNumber.NumberOfSum` | platform_standalone/mfg_test_src/memtest.c:2163 | `dqs+i` on 32-bit words adds the numbers |
| `WriteEye.Tuner.MeasureWriteEye` | platform_standalone/mfg_test_src/memtest.c:2108-2286 | over every memory, with memtest_all run at each offset: in each nested test, in the list and in the controller, the number in R46[30:24] of every lane is the offset modulo 128 and that in R5F[9:0] is the entry value of R55[9:0] plus the offset modulo 1024, and every other bit is as on entry; the list is as on entry afterwards, even with fix_ctr set; the controller is left as the last nested test had it; if the nested tests have fewer than 2^31 words, the result is the smallest and largest offsets tested clean per lane, and the true ends if and only if the lane has no island |
| `BestEye.OpenScores` | platform_standalone/mfg_test_src/memtest.c:2535-2571 | four open lanes of total width S score at least S^2/4 and more than 0 |
| `BestEye.OpenScore` | platform_standalone/mfg_test_src/memtest.c:2535-2572 | four open lanes of widths a, b, c, d and total S score S^2 - (2 S^2 + a^2 + b^2 + c^2 + d^2)/4 |
| `BestEye.EvenQuality` | platform_standalone/mfg_test_src/memtest.c:2535-2572 | of two open experiments of equal total width the one with the smaller sum of squares never scores lower, and strictly higher if smaller by 4 or more |
| `BestEye.ClosedScores` | platform_standalone/mfg_test_src/memtest.c:2535-2571 | a closed lane makes the score at most 0 |
| `BestEye.NoOverflow` | platform_standalone/mfg_test_src/memtest.c:2535-2571 | on sweep results no intermediate leaves 32 bits |
| `BestEye.SweepInRange` | platform_standalone/mfg_test_src/memtest.c:2535-2571 | widths and quality of every experiment of sweep results are in range |
| `BestEye.SweepsReportPairs` | platform_standalone/mfg_test_src/memtest.c:2222-2226 | what the sweeps report has the form the two lemmas above need |
| `BestEye.Qualities` | platform_standalone/mfg_test_src/memtest.c:2535-2574 | the three loops compute each experiment's quality, twice |
| `BestEye.FindMax` | platform_standalone/mfg_test_src/memtest.c:2581-2592 | first place of the largest value above -9999 outside the excluded ones; -1 if and only if there is none |
| `BestEye.Choose` | platform_standalone/mfg_test_src/memtest.c:2632-2671 | a best value; the middle of three consecutive equal ones; else, among equal best, the first with the largest neighbours, whatever lies outside the array |
| `BestEye.TieBreak` | platform_standalone/mfg_test_src/memtest.c:2632-2671 | if exactly two are best, the cells next to the chosen one add up to at least as much as those next to the other |
| `BestEye.FindBestEye` | platform_standalone/mfg_test_src/memtest.c:2528-2683 | the index is -1 if and only if no experiment scores above -9999; otherwise it is in range and of maximal quality; if any experiment has four open lanes the chosen one has too, and none of its total width is more even by more than rounding; every open experiment's quality is the formula of its widths |
| `BestEye.LowScores` | platform_standalone/mfg_test_src/memtest.c:2535-2592 | a score of -9999 or less, which find_max passes over, occurs if and only if some lane is closed and the squares of the clipped widths add up to 39996 or more |
| `BestEye.NoChoice` | platform_standalone/mfg_test_src/memtest.c:2528-2592 | sweep results on which this happens: three lanes open over 0..128 and one closed score -12288 |
| `BestEye.BestIsOpen` | platform_standalone/mfg_test_src/memtest.c:2535-2671 | an experiment of maximal quality has four open lanes if any has, and scores at least a quarter of that one's squared width |
| `CacheFlush.Names` | platform_standalone/mfg_test_src/memtest.c:788-811 | although Set is not reset between ways, operation s of way w names way w and set s |
| `CacheFlush.ThirtyTwoKilobytes` | platform_standalone/mfg_test_src/memtest.c:774-788 | the size register value 0x701fe019 means 4 ways of 256 sets and 32768 bytes |
| `CacheFlush.L1DCacheFlush` | platform_standalone/mfg_test_src/memtest.c:774-811 | one row of operations per way, one operation per set; operation s of way w names set s of way w; every line is named, no line twice, and none outside the cache |
| `CacheFlush.EachLineOnce` | platform_standalone/mfg_test_src/memtest.c:788-811 | every line is named, no line twice, and none outside the cache |

## Left out

- MemTest.Tester.ErrorInfo: a store outside the buffer is recorded with its index; what it does to the memory there is not modelled.
- MemTest.Tester.Test: addresses are not reduced modulo 2^32, and sizes above 0x7ffffff0, for which the int loop counter overflows, are treated like smaller ones.
- MemTestAll.MemtestAll: the fifteen consecutive `if` statements are one loop over the test number; the tables are taken from `Table`, which `Patterns.UpdatePatterns` is proved to fill in.
- MemTest.Tester.ReadPass: the four routines share one read loop over the words they expect; `memtest_simple` differs in looking for the early exit only after each group of four.
- BestEye.FindBestEye: the fourth best value, which is only printed, is not computed; neighbour sums that read outside the array may overflow.
- Flash.ProgramFlash: short reads and writes and failing ioctls, whose results the source ignores, are not modelled.
- CacheFlush.L1DCacheFlush: only caches with 4 ways and 32-byte lines, for which the way number fits bits 31:30; the effect of the operations on the cache is not modelled.
- ReadEye.Controller.MeasureReadEye: registers are plain storage; what they do to the memory is part of its arbitrary behaviour.
- EmioGpiod.Driver.WaitOpDone: the event mode of libgpiod is not modelled, only polling.
- EmioGpiod.Driver.constructor: the ways Init can fail, and the check of the firmware version there, are not modelled.
- EmioMmap.Driver.constructor: the ways Init can fail, and the check of the firmware version there, are not modelled.
- The manufacturing tests for QSPI, Ethernet, XADC and the I/O board: device self-tests with no state of their own.
- `fpgav3init`, Petalinux and Vitis configuration, block design scripts: plumbing.
- The demo application's tokenizer and hex parser, and the menu loop: easy members only.
- Printing, verbosity, timers, progress output, clock and PLL setup, drive strength and slew rate tables.
