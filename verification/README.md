# A verified model of the configuration compiler and the device drivers

This project models the parts of the repository whose correctness is least
visible in the code, and proves what they are for.

* **The configuration-script compiler** (`scripts/tkconfig/tkcond.c`) turns
  nested `if`/`else`/`fi` statements into one flat condition chain a
  statement. `Conditions.dfy` gives a chain its meaning in the source: a
  scanner for the grammar of `tokenize_if`, with `!` before a whole test as
  in `test`, and `-a` binding tighter than `-o`. `PrintedScript.dfy` reads
  the same nodes as the generated Tcl script does, where `!` belongs to the
  operand behind it; the main theorem goes from the first reading of the
  source to the second reading of the result. `Inversion.dfy`, `ArchFolding.dfy` and `Joining.dfy`
  treat the rewrites of a chain, `Flattening.dfy` the whole pass against a
  reference that just follows the branches. `TkCond.dfy` and `ScriptPass.dfy`
  are the program itself: linked nodes rewritten, relinked and unlinked in
  place, proved equal to those rewrites.
* **The menu pass** (`scripts/tkconfig/tkgen.c`): numbering, the walk that
  steps over submenus, line numbers, and the windows that the Next button
  destroys. `Menus.dfy` has the nesting, `MenuDriver.dfy` the tables and loops.
* **Crash-safe storage** (`src/drivers/flash`): `FlashSteps.dfy` is the flash
  as page erases and word programs with a supply that may fail between any
  two; `NvmStore.dfy` the calls, `NvmSafety.dfy` whole runs of boots, saves
  and clears with any number of cuts, `NvmDriver.dfy` the loops over the
  flash array.
* **The bit-banged I2C master** (`src/drivers/i2c/i2c_soft.c`) against a slave
  that sees only the levels of SCL and SDA and follows sections 3.1.3 to
  3.1.6 of NXP UM10204 (`I2cSlave.dfy`). What the slave acknowledges and what
  it sends are arbitrary in every theorem about the bus. `At24.dfy` is the
  EEPROM page splitting above it, and `EepromBus.dfy` joins the two: a chip
  that sees only the log of the bus, the probes after each write included,
  ends up with the caller's buffer.
* **RC-5 decoding** (`src/drivers/key/key_rc.c`): the biphase waveform, its
  falling edges, and the decoder that sees only the measured gaps.
* **The software FIFO of the CAN driver**, with the interrupt between any two
  statements of the reader; **rotated drawing** (`lcd.c`); **gathering a
  buffer chain into words** (`stellarisif.c`); **least-squares calibration**
  (`pd_linear.c`, in exact arithmetic); **LIN publishing and checksum**
  (`lin1_stm32.c`).

Where a promised property does not hold, the model keeps the code and the
project states exactly when it does:

* inverting a chain at `else` negates it if and only if its connectives are
  all alike (`Inversion.ElseNegatesExactlyWhenHomogeneous`);
* the fold of undefined variables marked `/*???*/` changes a chain exactly
  when the alternative it drops is true (`ArchFolding.EliminationExact`);
* the two-copy storage survives every run if and only if a record fits one
  page, since `nvm_init` looks at the first page of ROM 1 alone
  (`NvmSafety.CrashSafeExactlyOnOnePage`);
* `remove_bang` takes away one `!`, so a test with two or more keeps some for
  the script, which reads them differently; such a test is printed right for
  all values exactly when it is harmless (`PrintedScript.PrintsRightExactly`,
  with `! ! $A = y` as the input that goes wrong, `TwoBangsMisread`);
* `i2c_read` of no bytes leaves the bus without a STOP exactly when the chip
  answers and holds a zero (`I2cRuns.EmptyReadKeepsBus`);
* `send_reset` frees the bus, from any state of the lines and of the slave, if
  and only if the slave has not heard fewer than eight bits of an address that
  it answers, with a zero in the same place of its next byte, nor a whole byte
  that is no read address and after which it answers the next byte too
  (`I2cReset.ResetFreesExactly`, with `ResetMissesHearer` as an instance);
* overriding in the CAN FIFO is right for whole calls, and for an arrival
  between two statements of the reader exactly when it does not catch the
  reader in a full ring before the decrement or past the last slot
  (`CanFifo.OverrideExactly`); caught there the reader skips a message
  (`CaughtSkips`) or its index runs past the array (`CaughtRunsPast`);
* a LIN frame goes out as its response has it if and only if the response has
  a byte (`LinBus.PublishesExactly`); for an empty one a byte is sent
  nevertheless (`LinBus.EmptyResponseSends`);
* `lcd_bitblt` turns rectangles of up to 512 points and writes larger ones as
  they are, which is right for every picture exactly when turning keeps the
  order of the points (`Lcd.OrderKeptExactly`).

The comment in `key_rc.c` gives the tolerance of a gap as 512 ticks either
way; the code accepts 512 too short and up to 3487 too long, and that is what
is proved.

`dafny verify dfyconfig.toml` checks everything.

## Model

| member | source | states |
|---|---|---|
| Conditions.ChainValue | scripts/tkconfig/tkparse.c:205-323 | The value that a scanner with a stack gives the nodes of a chain, in the reading of the source, is the value of the chain in the grammar: `!` before a test negates it, conjunctions bind before disjunctions |
| Conditions.ScanConcat | scripts/tkconfig/tkparse.c:205-323 | Reading two lists one after the other is reading their concatenation, from any state |
| Inversion.RemoveBangPreservesMeaning | scripts/tkconfig/tkcond.c:91-120 | In the reading of the source remove_bang keeps the value of every chain under every assignment, with any number of `!` before a test, and the result has no `!` exactly when none had two |
| PrintedScript.PlainAgrees | scripts/tkconfig/tkgen.c:342-373 | Without `!` and markers the script reads a list as the source does |
| PrintedScript.RemoveBangPrints | scripts/tkconfig/tkcond.c:86-120 | A chain in which no test has two `!` is printed, after remove_bang, with the value that it has in the source, under every assignment |
| PrintedScript.PrintsRightExactly | scripts/tkconfig/tkcond.c:86-120 | A test of a variable with any number of `!` is printed right for all values of the script if and only if it has at most one, or compares with n, or has an odd number and compares with no value of the script |
| PrintedScript.TwoBangsMisread | scripts/tkconfig/tkcond.c:86-120 | `! ! $A = y` with A = m is false in the source and true as printed |
| PrintedScript.JoinedRuns | scripts/tkconfig/tkgen.c:342-373 | For entries without `!` the script runs the joined chain exactly when all entries hold, unless it is the false chain, with which the statement goes |
| Inversion.ElseNegates | scripts/tkconfig/tkcond.c:460-487 | The inversion at else negates a chain joined only by `-a` or only by `-o` |
| Inversion.MixedElseOverlaps | scripts/tkconfig/tkcond.c:460-487 | For every mixed chain over distinct variables an assignment under which both the chain and its inversion hold |
| Inversion.ElseNegatesExactlyWhenHomogeneous | scripts/tkconfig/tkcond.c:460-487 | Over distinct variables the inversion negates under all assignments if and only if the chain is not mixed |
| ArchFolding.EliminatedIsFold | scripts/tkconfig/tkcond.c:289-416 | On chains of the grammar the node-by-node folding is a partial evaluation on the chain and never exits |
| ArchFolding.FoldSplitsTruth | scripts/tkconfig/tkcond.c:289-416 | A chain is true exactly when the folded chain or the alternative lost in folding is |
| ArchFolding.EliminationExact | scripts/tkconfig/tkcond.c:289-416 | Folding keeps the value under an assignment with ARCH current and undefined variables empty if and only if the lost alternative is absent or false |
| ArchFolding.ArchFoldLosesNothing | scripts/tkconfig/tkcond.c:299-385 | ARCH tests alone lose nothing, mixed connectives included |
| ArchFolding.HomogeneousLosesNothing | scripts/tkconfig/tkcond.c:386-413 | The undefined-variable fold loses nothing on a chain that is not mixed |
| ArchFolding.UndefinedFoldLosesAlternative | scripts/tkconfig/tkcond.c:392-402 | On undefined = value -a x -o y the fold gives false where the chain is true |
| Joining.CheckGroups | scripts/tkconfig/tkcond.c:230-272 | The inner search nukes the head group with its own glue exactly when a later group repeats it; the glue of a later copy is never touched |
| Joining.DeduplicatedIsLastCopies | scripts/tkconfig/tkcond.c:214-276 | What is not nuked is the list of groups without all but the last copy of each single test, for any number of copies |
| Joining.LastCopiesExact | scripts/tkconfig/tkcond.c:214-276 | No test is kept twice and none is lost |
| Joining.JoinIsConjunction | scripts/tkconfig/tkcond.c:128-280 | For every stack of chains, dependency groups and markers the joined chain is well formed and its value is the conjunction of the entries; false markers give the false chain |
| Flattening.FlatteningPreservesMeaning | scripts/tkconfig/tkcond.c:423-550 | On well-nested convertible scripts a simple or dependent statement survives with a chain that the generated script runs exactly when every branch around it is taken in the source, under every admissible assignment |
| Flattening.HomogeneousConvertible | scripts/tkconfig/tkcond.c:423-550 | Every script whose conditions are not mixed and have no test with two `!` is convertible, whatever it defines |
| Flattening.HeadKept | scripts/tkconfig/tkcond.c:510-518 | The first statement of the list is never deleted, so the caller's pointer stays good |
| Flattening.DeletedIsUnreachable | scripts/tkconfig/tkcond.c:510-543 | A deleted statement is one that no admissible assignment reaches |
| TkCond.RemoveBang | scripts/tkconfig/tkcond.c:91-120 | On linked nodes: the kept nodes are linked, are nodes of the old list, and hold the rewritten chain |
| TkCond.InvertInPlace | scripts/tkconfig/tkcond.c:460-487 | On linked nodes: the same nodes, linked as before, hold the inverted chain |
| TkCond.EliminateOtherArch | scripts/tkconfig/tkcond.c:289-416 | On linked nodes: the recursion ends, exits exactly where the folding does, and leaves a linked list with the folded chain |
| TkCond.RemoveDuplicates | scripts/tkconfig/tkcond.c:214-276 | On linked nodes: both searches leave the links alone and nuke exactly the nodes of the duplicates |
| TkCond.JoinConditionStack | scripts/tkconfig/tkcond.c:128-280 | The result is a list of new nodes with the joined chain, and no chain of the stack is changed |
| ScriptPass.MarkVariables | scripts/tkconfig/tkcond.c:39-70 | The marked variables are those that some statement of the script defines |
| ScriptPass.FixConditionals | scripts/tkconfig/tkcond.c:423-550 | The pass on the linked statement list: kept statements carry their chains, a later else never alters an attached one, the caller's list links the survivors, and on convertible scripts what the generated script runs is what the branches of the source reach |
| Menus.MatchWithin | scripts/tkconfig/tkgen.c:1147-1169 | A menu encloses everything after its opening until the statement noted as its last, which closes it for good |
| Menus.MenuCloses | scripts/tkconfig/tkgen.c:1164-1169 | In a balanced list the noted last statement of every menu is its matching endmenu |
| Menus.WalkStops | scripts/tkconfig/tkgen.c:1236-1250 | The walk that steps over submenus stops exactly at the statements whose stack of enclosing menus is this menu's |
| Menus.WalksPartition | scripts/tkconfig/tkgen.c:1225-1250 | Every statement but the closing ones is met in the walk of exactly its innermost menu |
| Menus.SubmenuStepsOver | scripts/tkconfig/tkgen.c:1243-1249 | A submenu met has this menu as parent, and all menus up to the next one met lie deeper |
| Menus.ClimbNames | scripts/tkconfig/tkgen.c:167-173 | The climb ends and names, from the inside out, exactly the windows of a menu below a given ancestor |
| Menus.NextDestroys | scripts/tkconfig/tkgen.c:161-174 | Before the next menu is shown exactly those windows are destroyed that are not around it |
| Menus.LinesRise | scripts/tkconfig/tkgen.c:1243-1344 | Within one walk lines rise, and one comment at most gets none |
| Menus.AssignedLines | scripts/tkconfig/tkgen.c:1243-1344 | A walk gives its own statements their lines and changes no other statement's |
| MenuDriver.MenuTable.Number | scripts/tkconfig/tkgen.c:1132-1196 | The pass gives up exactly on menus too deep, too many, an endmenu too much or a question outside menus; otherwise the tables hold each menu's ends and each statement its innermost menu |
| MenuDriver.MenuTable.FindSubmenu | scripts/tkconfig/tkgen.c:1244-1245 | The search over the table lands on the submenu just met |
| MenuDriver.MenuTable.Destroyed | scripts/tkconfig/tkgen.c:161-174 | The names printed, reversed, complete the windows kept to the windows of this menu |
| MenuDriver.MenuTable.WalkMenu | scripts/tkconfig/tkgen.c:1236-1346 | What a walk writes out and all line fields after it, as functions of the statements it stops at |
| MenuDriver.MenuTable.Dump | scripts/tkconfig/tkgen.c:1225-1349 | Pages for all menus in order, and in the end the lines of every menu and no others |
| MenuDriver.WrittenOnce | scripts/tkconfig/tkgen.c:1225-1349 | Every question, choice item and submenu is written out once, in the pass of its innermost menu, and nowhere else |
| MenuDriver.LinesDistinct | scripts/tkconfig/tkgen.c:1225-1349 | No two statements of a menu that take a line have the same one |
| NvmStore.Align | src/drivers/flash/nvm.c:20-26 | The least multiple of the page size that is not below the value |
| FlashSteps.ErasedExactly | src/drivers/flash/flash_stm32.c:14-34 | An erase blanks as many whole pages as the supply lasts for and nothing else |
| FlashSteps.WrittenExactly | src/drivers/flash/flash_stm32.c:43-80 | On blank words a write programs the prefix of its data that the supply lasts for and nothing else |
| NvmSafety.RecordedCut | src/drivers/flash/nvm.c:97-106 | A record that is cut has no magic word, and a size word unless nothing was written |
| NvmSafety.BootKeeps | src/drivers/flash/nvm.c:28-80 | nvm_init keeps the invariant wherever it is cut, and loads the data owed when it completes |
| NvmSafety.SaveKeeps | src/drivers/flash/nvm.c:82-111 | nvm_save keeps the invariant wherever it is cut, and takes effect exactly when the supply reaches the magic word of ROM 1 |
| NvmSafety.ClearKeeps | src/drivers/flash/nvm.c:114-134 | nvm_clear keeps the invariant wherever it is cut |
| NvmSafety.UntornLoadsOwed | src/drivers/flash/nvm.c:28-134 | After any run with any cuts, as long as no erase of ROM 1 is cut between pages, a boot that completes has loaded the last committed data and leaves ROM 1 blank |
| NvmSafety.MixingRunMixes | src/drivers/flash/nvm.c:62-65 | For every layout of two pages or more a run after which a boot finds the first page of one save and the rest of another |
| NvmSafety.CrashSafeExactlyOnOnePage | src/drivers/flash/nvm.c:28-134 | Every run from a blank flash is followed by boots that load what is owed if and only if a record fits one page |
| NvmSafety.StepWithinCopies | src/drivers/flash/nvm.c:28-134 | No call touches a word below ROM 2, whatever the flash holds and wherever it is cut |
| NvmDriver.Flash.Erase | src/drivers/flash/flash_stm32.c:14-34 | The loop over pages does to the chip what the steps say; an unaligned start erases nothing |
| NvmDriver.Flash.Write | src/drivers/flash/flash_stm32.c:43-80 | The loop over words does to the chip what the steps say and stops at the first word that fails |
| NvmDriver.Nvm.Init | src/drivers/flash/nvm.c:28-80 | RAM, null flag, result and flash after the call, the empty section included |
| NvmDriver.Nvm.Save | src/drivers/flash/nvm.c:82-111 | The flash after the call; RAM and flag are unchanged |
| NvmDriver.Nvm.Clear | src/drivers/flash/nvm.c:114-134 | The flash after the call |
| I2cMaster.Bus.WriteByte | src/drivers/i2c/i2c_soft.c:236-272 | The slave has heard the byte, most significant bit first, and the result is its refusal |
| I2cMaster.Bus.ReadByte | src/drivers/i2c/i2c_soft.c:311-335 | The result is the byte the slave sent, and the slave has seen the answer |
| I2cMaster.Bus.SendStart | src/drivers/i2c/i2c_soft.c:181-193 | The slave sees a START unless it holds SDA low itself, and then it sees nothing |
| I2cMaster.Bus.SendStop | src/drivers/i2c/i2c_soft.c:198-212 | The slave sees a STOP unless it holds SDA low itself |
| I2cMaster.Bus.SendReset | src/drivers/i2c/i2c_soft.c:154-175 | Nine pulses and a stop, from any state of the bus |
| I2cTransactions.Probe | src/drivers/i2c/i2c_soft.c:367-380 | START, the address, STOP; the result tells whether the chip answered |
| I2cTransactions.Write | src/drivers/i2c/i2c_soft.c:459-488 | The slave after the call and the result, for every slave; the bus is ready again |
| I2cTransactions.Read | src/drivers/i2c/i2c_soft.c:385-454 | The slave after the call, the buffer and the result, for every slave; beyond the bytes read the buffer is unchanged |
| I2cRoundTrip.AddressIsBigEndian | src/drivers/i2c/i2c_soft.c:472-479 | The address bytes are the low bytes of the address, most significant first |
| I2cRoundTrip.WriteLogged | src/drivers/i2c/i2c_soft.c:459-488 | The slave's log of a write is one frame with its answers, cut short at the first refusal of the address, without STOP when that is a register address byte |
| I2cRoundTrip.WriteDecodes | src/drivers/i2c/i2c_soft.c:459-488 | A slave that acknowledges every byte of the write decodes START, chip, register address, buffer, STOP |
| I2cRoundTrip.ReadOutLogged | src/drivers/i2c/i2c_soft.c:448-453 | The bytes read are those sent, only the last is refused, and the STOP is missing exactly when nothing is read and the slave holds a zero |
| I2cRoundTrip.ReadLogged | src/drivers/i2c/i2c_soft.c:385-454 | The slave's log of a read: address frame, STOP, read frame, or the address frame alone |
| I2cRuns.CallLogged | src/drivers/i2c/i2c_soft.c:367-488 | Each call appends exactly its own frames, and lets go of the bus unless it reads nothing |
| I2cRuns.NoSpuriousConditions | src/drivers/i2c/i2c_soft.c:181-488 | In every run of probes, reads of something and writes, with every slave that lets go of the bus, the log gains the calls' frames, no START or STOP but those of the transactions, and the slave lets go again |
| I2cRuns.NoSpuriousAfterReset | src/drivers/i2c/i2c_soft.c:154-175 | So for every run after send_reset, as i2c_init calls it, from any state of the bus and of the slave that is not stuck |
| I2cRuns.EmptyReadKeepsBus | src/drivers/i2c/i2c_soft.c:448-453 | A read of nothing leaves SDA held if and only if the chip answers and its next byte starts with a zero |
| I2cReset.ResetFreesExactly | src/drivers/i2c/i2c_soft.c:154-175 | For every state of the lines and every phase of the slave the reset frees the bus if and only if the slave is not stuck, and a stuck slave is left holding SDA |
| I2cReset.ResetFreesSender | src/drivers/i2c/i2c_soft.c:154-175 | So it frees the bus from a slave stopped anywhere inside a byte it sends |
| I2cReset.ResetMissesHearer | src/drivers/i2c/i2c_soft.c:154-175 | And not from one that has heard six bits of an address, answers it and sends zero bits |
| At24.InsidePage | src/drivers/i2c/at24cxx.c:27-93 | Inside one page the wrapping write is the plain one |
| At24.AcrossBorder | src/drivers/i2c/at24cxx.c:27-93 | One byte over the border overwrites the start of the page and misses the next |
| At24.WritesArePut | src/drivers/i2c/at24cxx.c:27-93 | The buffer cut at page borders and written piece by piece to wrapping pages is the plain write, for every address, length and page size |
| At24.SplitInside | src/drivers/i2c/at24cxx.c:27-93 | No piece crosses a page border |
| EepromBus.CallSeen | src/drivers/i2c/i2c_soft.c:367-488 | Of one call a chip that sees only the log programs the write to it, if it is one, and nothing for a probe, a read or a call to another chip, whatever is answered |
| EepromBus.WritesThroughBus | src/drivers/i2c/i2c_soft.c:367-511 | After any run of calls, to it and to others, the chip holds what the writes to it leave, one page write after the other |
| EepromBus.BufferThroughBus | src/drivers/i2c/at24cxx.c:27-93 | The writes of at24cxx_WriteBuffer, with any number of probes after each and any answers to them, leave the buffer at its address in a chip that sees only the log, and everything else as it was |
| At24.Eeprom.WriteBuffer | src/drivers/i2c/at24cxx.c:27-93 | The memory ends as if there were no pages, by exactly the writes that cut the buffer at page borders |
| Rc5.EdgeKinds | src/drivers/key/key_rc.c:96-145 | A falling edge of the waveform is the middle of a one or the border of two zeros |
| Rc5.NextApart | src/drivers/key/key_rc.c:96-145 | The distance of neighbouring edges is two, three or four half bits, as the next bits have it |
| Rc5.DecodesGap | src/drivers/key/key_rc.c:89-145 | From one edge to the next the decoder gets the bits in between |
| Rc5.DecodesString | src/drivers/key/key_rc.c:63-170 | For every string that starts with a one and all gaps within tolerance the decoder holds the string, but a last zero after a one |
| Rc5.AcceptsExactlyWaveforms | src/drivers/key/key_rc.c:89-151 | Pulses are not failed if and only if they measure the waveform of some string that starts with a one |
| Rc5.DecodesFrame | src/drivers/key/key_rc.c:162-190 | Every 14-bit frame sets the key to its data, system, toggle and extra bit, the last bit lost or not |
| Rc5.OthersIgnored | src/drivers/key/key_rc.c:174-175 | Strings of other lengths leave the key alone |
| Rc5Driver.Receiver.RxBits | src/drivers/key/key_rc.c:63-190 | The statements of the interrupt do one step of the decoder |
| CanFifo.InterleavingIsSafe | src/drivers/can/can1_stm32.c:140-152 | With the dropping interrupt between any two statements of can_erecv the reader returns the accepted messages in order, each once, and the ring holds the rest |
| CanFifo.StepKeepsInv | src/drivers/can/can1_stm32.c:140-152 | Every arrival and every statement keeps that account, an arrival being accepted when fewer than size - 1 wait |
| CanFifo.OverrideExactly | src/drivers/can/can1_stm32.c:281-296 | For every state with its account an overriding arrival keeps it, the oldest waiting message going when the ring is full, if and only if it does not catch the reader: full ring, and the reader between copy and decrement with another message next, or past the last slot |
| CanFifo.CaughtSkips | src/drivers/can/can1_stm32.c:281-296 | Caught after the copy the reader returns its message and the one after it is lost |
| CanFifo.CaughtRunsPast | src/drivers/can/can1_stm32.c:289-291 | Caught past the last slot the tail becomes the size plus one, which neither side puts back |
| CanFifo.UncaughtIsSafe | src/drivers/can/can1_stm32.c:140-152 | In every run in which no arrival catches the reader it returns the messages of the account in order, each once |
| CanFifo.OverrideInterleavedLoses | src/drivers/can/can1_stm32.c:281-296 | In a ring of three, with two waiting, an arrival between copy and decrement loses the second |
| CanFifo.Can.Receive | src/drivers/can/can1_stm32.c:140-152 | The oldest message is taken off, or nothing changes |
| CanFifo.Can.InterruptDrop | src/drivers/can/can1_stm32.c:274-310 | The oldest are kept, one message is lost when there is no room, and the others stay in the controller |
| CanFifo.Can.InterruptOverride | src/drivers/can/can1_stm32.c:274-310 | The newest size - 1 of all messages are kept, in order |
| Lcd.QuarterTurns | src/drivers/lcd/lcd.c:127-157 | The turns by 180 and 270 degrees are two and three turns by 90, four are none, and a corner fixes the direction |
| Lcd.SquareCommutes | src/drivers/lcd/lcd.c:127-193 | Turning a point within its rectangle and moving it to the window is turning it on the screen |
| Lcd.PlacesDiffer | src/drivers/lcd/lcd.c:201-210 | Buffer slots are in range and no two points share one |
| Lcd.PlacesCover | src/drivers/lcd/lcd.c:201-210 | Every buffer slot is some point's |
| Lcd.WindowIsImage | src/drivers/lcd/lcd.c:167-193 | The window covers exactly the turned points of the rectangle |
| Lcd.Lcd.SetWindow | src/drivers/lcd/lcd.c:167-193 | The window of a rectangle on the screen, and -1 with no change for one that is not |
| Lcd.BitbltDrawsExactly | src/drivers/lcd/lcd.c:195-213 | What is written for a rectangle on the screen draws every point where the transformation of the whole screen puts it for up to 512 points, and for more if and only if each slot has the colour of its point; outside the window nothing changes |
| Lcd.OrderKeptExactly | src/drivers/lcd/lcd.c:214-220 | The latter holds for every picture if and only if the angle and the shape keep the reading order |
| Lcd.Lcd.Bitblt | src/drivers/lcd/lcd.c:195-222 | Result, window and pixels for every rectangle, on the screen or off it, of any size that `short` holds: turned up to 512 points, as it is above, into the old window when a small one is off the screen |
| Gather.Transmitter.Transmit | src/drivers/mac/stellarisif.c:162-226 | The bytes of the words are the stamped payloads followed by 4 - total % 4 zeros, in total / 4 + 1 words |
| Gather.StampedLength | src/drivers/mac/stellarisif.c:156-162 | The stamp changes the first two bytes and no others |
| Calibration.SolvesNormal | src/drivers/pd/pd_linear.c:65-84 | The coefficients solve the normal equations when the determinant is not zero |
| Calibration.LeastSquares | src/drivers/pd/pd_linear.c:38-112 | Any other affine map errs by the square of its distance more, so none has a smaller squared error |
| Calibration.ExactRecovered | src/drivers/pd/pd_linear.c:38-112 | Values given exactly by an affine map give that map back |
| Calibration.SmallDetIsZero | src/drivers/pd/pd_linear.c:57-62 | The test for a small determinant is a test for zero |
| Calibration.Calibrator.Calibrate | src/drivers/pd/pd_linear.c:38-114 | The six scaled coefficients and the scale, or -1 and no change exactly when the determinant is zero |
| LinBus.FoldedIsSum | src/drivers/lin/lin1_stm32.c:421-432 | The folded sum is a byte congruent to the true sum, and zero for zeros only |
| LinBus.ChecksumCloses | src/drivers/lin/lin1_stm32.c:421-432 | Data and checksum fold to 0xFF |
| LinBus.ChecksumUnique | src/drivers/lin/lin1_stm32.c:421-432 | No other byte does, unless the data fold to 0xFF themselves |
| LinBus.CalcChecksum | src/drivers/lin/lin1_stm32.c:421-432 | The loop computes the checksum for up to 255 bytes |
| LinBus.ProtectedParities | src/drivers/lin/lin1_stm32.c:411-419 | The two bits above an identifier are its parities, the second inverted |
| LinBus.PublishesFrame | src/drivers/lin/lin1_stm32.c:104-226 | On a bus that gives back whatever was sent last, for a response of a byte or more: break, 0x55, protected identifier, response and checksum are sent, a copy is queued if there is room, and the master is idle with counters cleared |
| LinBus.EmptyResponseSends | src/drivers/lin/lin1_stm32.c:104-226 | On the same bus an empty response sends the first byte of its array and 0xFF, and an empty message is queued, or one of a zero byte when that byte is zero |
| LinBus.PublishesExactly | src/drivers/lin/lin1_stm32.c:104-226 | What is sent and queued, and the state in the end, are those of the response if and only if it has a byte |
| LinBus.Master.Process | src/drivers/lin/lin1_stm32.c:104-227 | The statements of the interrupt do one step of the state machine |

## Left out

- ScriptPass.FixConditionals: `cond_stack[32]` is a sequence whose bound is a precondition; a 33rd level overruns the array in the program and is not modelled.
- ScriptPass.FixConditionals: `free` is not modelled, nodes taken out of a chain are dropped; `cond->str` NULL and "" are one value.
- Flattening.FlatteningPreservesMeaning: holds for scripts that are well nested and convertible; mixed chains under an `else`, undefined tests before a later `-o`, and tests with two `!` are excluded because the statements about them above show that they fail.
- ArchFolding.EliminatedIsFold: the branch that reads ARCH from the environment is dead, as `current_arch` is initialised.
- The text of conditions (`tokenize_if`) and the layout of the printed Tcl are not modelled; chains are given in the grammar that the parser builds, and the script reads the nodes that are printed.
- PrintedScript.PrintsRightExactly: for the values y, m, n and none, which the script keeps as numbers; `!` before any other string is given no value.
- MenuDriver.MenuTable.WalkMenu: the labels, variables and the choice header that an item refers to are not part of what is written out.
- MenuDriver.MenuTable.Dump: for lists in which every menu is closed; an unclosed menu makes the walk of its parent run into it.
- NvmSafety.UntornLoadsOwed: flash steps are whole words and whole pages; half-word programs and partly erased pages are not modelled, nor `nvm_isr` inside another call.
- NvmDriver.Nvm.Init: after a cut the code goes on without effect on the flash instead of stopping; a boot counts as complete only when the supply has lasted.
- I2cTransactions.Write: address lengths above four shift by 32 bits or more in C and are excluded; delays, clock stretching and bus arbitration are left out.
- At24.Eeprom.WriteBuffer: each bus write is one page write of the chip; the wait for the chip changes nothing here and is part of the statements in EepromBus.
- EepromBus.WritesThroughBus: for chips with one address byte, and writes whose bytes the chip acknowledges; a write that is refused is ignored by the driver and not claimed about.
- Rc5.DecodesString: the shift register is unbounded; frames of more than 31 bits overflow it in C.
- The PPM decoder in key_rc.c: a table lookup on the same state machine shape.
- CanFifo.InterleavingIsSafe: each C statement is one step; the load and store inside `circle_number --` are not split.
- CanFifo.Can.Receive: the slots are a sequence and a message is copied whole; stale data bytes beyond its length are not kept.
- Lcd.Lcd.Bitblt: colours are not cut to 16 bits, and areas with negative sides are excluded.
- Gather.Transmitter.Transmit: the chain is given by its payloads; the first holds at least the two bytes of padding.
- Calibration.Calibrator.Calibrate: exact arithmetic; single-precision rounding, overflow of int products and pdl_process are left out.
- LinBus.PublishesFrame: the receive FIFO is a bounded sequence (its ring is the one of the CAN driver); a bus that does not echo and the slave node are not claimed about.
- enc_mac.c and led.c: register banks cached in one variable and flag masks would only add easy members.
