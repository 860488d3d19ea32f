# obmc-yadro-hardware: a verified model of the backplane MCU stack

This project models in Dafny the core of YADRO's OpenBMC hardware services.

- **I2C transport.** The I2C device handle (`I2c.I2cDev`, src/common_i2c.cpp):
  - opening the handle;
  - the SMBus and raw-transfer primitives, each tried up to three times;
  - the log guard that mutes runs of failed transfers.

  The kernel is an oracle: `bus(k)` is its answer to the k-th attempt. Every primitive call is recorded as one `Transaction` in a ghost history.
- **MCU drivers.** The drivers of the backplane microcontroller speak two protocol versions:
  - `McuV0.ProtoV0` reads each register until the same answer comes twice;
  - `McuV1.ProtoV1` is the src/mcu copy, with flash, ping and reboot;
  - `StorageV1.ProtoV1` is the older src/storage copy.

  Each driver is a class over an `I2cDev`. Its cache fields start at -1 and are filled lazily, as in the source. `McuFactory.BackplaneMcu` picks the protocol from the identification byte.
- **Firmware sequencers.** The updater's `runImageUpdate` (`Updater`) and the reflasher's `updateMCU` (`Reflash`) drive an abstract MCU (`McuApi.Mcu`). Its k-th call is answered from a script, and every call is recorded in `trace`. The two shared phases, the 128-byte chunk write loop and the ping loop after the reboot, are in `Flashing`. This part also covers:
  - the reflasher's shred bit strings and definition lookup;
  - the updater's command-line rules.
- **Backplane controller** (`BackplaneControl`, src/storage/backplane_control.cpp):
  - the drives table refresh and when a refresh is skipped;
  - drive type and presence reconciliation;
  - channel lookup by name, and the location LED and host power guards.

  `BackplaneFru` holds the NVMe serial number lookup. It reads the drive's VPD as an IPMI FRU, following the IPMI Platform Management FRU Information Storage Definition v1.0: section 8 (Common Header), section 11 (Product Info Area) and section 13 (Type/Length byte). When that finds nothing, it falls back to the older V1A layout.
- **Helpers** (`Common`, `Dbus`, `PciDb`, `Inventory`):
  - `rtrim`;
  - the host `PowerState` tracker and its callbacks;
  - `dbusEscape`;
  - the pci.ids line matcher (`pciLookup`) and `pciVenorLookup`;
  - the drive size rendering, where 1KB is 1000B.
- **HW manager** (`HwManager`, `PcieCfg`):
  - option parsing into the hardware configuration;
  - the PCIe bifurcation merge table and its published entries;
  - fan module identification by RPM;
  - the fan detection state machine;
  - the fan objects `publish`, `publishSystemFans` and `clear` keep.
- **Software activation** (`SoftwareUpdate`, src/common_swupd.cpp): the Activation and RequestedActivation setters of a firmware image's software object.

Code that changes state step by step is modelled as methods on classes, with loops carrying their invariants. Each method's `ensures` ties its result or new state to a specification function of the old state and the inputs. The properties the source relies on are proved as lemmas about those functions.

Some behaviours of the code are kept as written, and lemmas state them:

- **V0 verify mismatch.** A V0 flash write whose read-back differs is not an error (`McuV0.ProtoV0.WriteFlash`).
- **Failure byte in the fingerprint.** The term `dFailures >> 8` of the V1 fingerprint is always 0 (`McuDriver.FingerprintIgnoresFailures`).
- **Inverted comparison.** The storage copy's `ifStateChanged` compares with `==` and so reports "changed" on an unchanged state (`StorageV1.StateVerdictAsWrittenInverted`).
- **Recovery reboot.** The updater skips the recovery reboot when `forceErase` is set (`Updater.WriteRunFailure`).
- **Re-identify after timeout.** The updater re-identifies the MCU even when no ping succeeded (`Updater.RebootRunSucceedsAfterTimeout`).
- **FRU buffer.** The product area buffer is 256 bytes, but the header may announce up to 2040. The source then writes past the buffer. The model reads only areas that fit (`BackplaneFru.ReadProductArea` requires it) and gives up on larger ones.

Where the documented behaviour and the code differ, the model follows the code:

- The I2C primitives do not check the handle's `ok` flag before a transfer. A handle that failed to open still sends its transfers, and the oracle answers them.
- Three headers are out of date with respect to the .cpp files. The model follows the .cpp:
  - the storage driver header declares `ifStateChanged`, while the controller calls `isStateChanged`;
  - `numLogErrors` is not declared in src/common_i2c.hpp and is modelled as an 8-bit counter that stops at 255;
  - src/hw/hw_mngr.hpp lacks the fan detection members that src/hw/hw_mngr.cpp uses.

Files:

| File | Module | Models |
|---|---|---|
| wrappers.dfy | `Wrappers` | `Option`, `Result`, `Byte` |
| common.dfy | `Common` | src/common.cpp |
| common_i2c.dfy | `I2c` | src/common_i2c.cpp |
| mcu_driver.dfy | `McuDriver` | src/storage/backplane_mcu_driver.hpp |
| mcu_v0.dfy | `McuV0` | src/mcu/backplane_mcu_driver_v0.cpp |
| mcu_v1.dfy | `McuV1` | src/mcu/backplane_mcu_driver_v1.cpp |
| storage_v1.dfy | `StorageV1` | src/storage/backplane_mcu_driver_v1.cpp |
| mcu_factory.dfy | `McuFactory` | both backplane_mcu_driver.cpp copies |
| mcu_api.dfy | `McuApi` | the scripted MCU |
| flashing.dfy | `Flashing` | the phases the two sequencers share |
| updater.dfy | `Updater` | src/mcu/updater.cpp |
| reflash.dfy | `Reflash` | src/mcu/reflash.cpp |
| fru.dfy | `BackplaneFru` | the FRU serial lookup |
| backplane_control.dfy | `BackplaneControl`, `BackplaneControlProps` | the rest of src/storage/backplane_control.cpp |
| dbus.dfy | `Dbus` | src/dbus.hpp |
| pcidb.dfy | `PciDb` | src/pcidb.hpp |
| inventory.dfy | `Inventory` | src/storage/inventory.cpp |
| pcie_cfg.dfy | `PcieCfg` | src/hw/pcie_cfg.cpp |
| hw_mngr.dfy | `HwManager` | src/hw/hw_mngr.cpp and src/hw/hw_mngr.hpp |
| swupd.dfy | `SoftwareUpdate` | src/common_swupd.cpp |

## Model

| member | source | states |
|---|---|---|
| Common.TrimRight | src/common.cpp:174 | the result is a prefix of the input, ends in no character of the trim set, and everything it drops is in the trim set |
| Common.CutAtNul | src/common.cpp:175 | the result is the prefix before the first NUL: it holds no NUL and, when shorter, the input has a NUL right after it |
| Common.ReplaceUnprintable | src/common.cpp:176-181 | same length; each unprintable character becomes '_' and every printable one is kept in place |
| Common.Rtrim | src/common.cpp:168-182 | the result is entirely printable, exactly as long as the trimmed text up to its first NUL (so never longer than the input), and keeps each printable character of that text in place, with '_' for the others |
| Common.RtrimNoTrailingTrimChar | src/common.cpp:168-182 | on NUL-free input with the default trim set (src/common.hpp:145-146) the result does not end in a trim character |
| Common.CutAtNulNoNul | src/common.cpp:175 | a string without NUL is not cut |
| Common.RtrimIdempotent | src/common.cpp:168-182 | on NUL-free input, trimming twice equals trimming once |
| Common.RtrimKeepsSpaceBeforeNul | src/common.cpp:174-175 | because the NUL cut follows the trim, "1.0 " plus a NUL keeps its space, which only a second rtrim removes |
| Common.HostStateToBool | src/common.cpp:22-30 | true exactly for Running, Quiesced and DiagnosticMode |
| Common.PowerTransitionIdempotent | src/common.cpp:64-76 | a report equal to the tracked state changes nothing and notifies nobody; the first report after start-up (state Unknown, src/common.hpp:114) always notifies |
| Common.PowerState.constructor | src/common.cpp:38-39 | starts Unknown, with no callbacks, no subscription and nothing delivered |
| Common.PowerState.WithCallback | src/common.cpp:32-36 | registers the callback as "default", subscribes, and takes the host state read at start-up |
| Common.PowerState.IsPowerOn | src/common.cpp:59-62 | true exactly in the On state |
| Common.PowerState.SetPowerState | src/common.cpp:64-76 | the new state and whether the callbacks are notified follow the transition rule; a notification goes to every registered callback |
| Common.PowerState.AddCallback | src/common.cpp:41-52 | an existing name keeps its callback; only the first registration subscribes and reads the host state |
| Common.PowerState.DeleteCallback | src/common.cpp:54-57 | removes exactly the named entry |
| Common.PowerState.ReadHostState | src/common.cpp:95-123 | a failed Get changes nothing; an answer is fed to the transition rule as a powered or unpowered state |
| Common.PowerState.HostStateChanged | src/common.cpp:78-93 | a signal without the host state changes nothing; one with it is fed to the transition rule, and a change of power state notifies every registered callback once with the new value |
| Dbus.SkipRun | src/dbus.hpp:105 | drops exactly the leading run of characters outside [a-zA-Z0-9_/] |
| Dbus.ScanSkipsRun | src/dbus.hpp:105-106 | inside a run of disallowed characters the replacement writes nothing until the run ends, so a whole run yields one '_' |
| Dbus.ScanAtRunEnd | src/dbus.hpp:105-106 | at an allowed character or the end, what follows does not depend on whether a run just ended |
| Dbus.EscapeIsScan | src/dbus.hpp:103-107 | the run-replacing definition of the escape agrees with the character scanner on every input |
| Dbus.EscapeAllowedShorter | src/dbus.hpp:103-107 | the output holds only [a-zA-Z0-9_/] and is never longer than the input |
| Dbus.EscapeFixedPoint | src/dbus.hpp:105-106 | a string is returned unchanged exactly when it holds only allowed characters |
| Dbus.EscapeIdempotent | src/dbus.hpp:105-106 | escaping twice equals escaping once |
| Dbus.EscapeKeepsAllowed | src/dbus.hpp:105-106 | apart from '_', the output holds exactly the allowed characters of the input, in order |
| Wrappers.BytesToString | src/storage/backplane_mcu_driver_v1.cpp:69 | a byte buffer becomes the string of the same length whose characters carry the byte values |
| Wrappers.BigEndian | src/mcu/backplane_mcu_driver_v0.cpp:286-287 | the network byte order copy of the low n bytes has exactly n bytes |
| Wrappers.BigEndianRoundTrip | src/mcu/backplane_mcu_driver_v0.cpp:286-287 | decoding the big-endian encoding of a value that fits in n bytes gives the value back |
| PciDb.PrefixLen | src/pcidb.hpp:40-44 | the comparisons skip 2 characters when the vendor id starts with "0x", else none, and never more than the id holds |
| PciDb.PciLookup | src/pcidb.hpp:28-89 | the line loop with its early break computes the lookup function; a missing file gives two empty names |
| PciDb.ScanKeeps | src/pcidb.hpp:58-68 | a vendor or model name once found is never overwritten by later lines |
| PciDb.ScanVendor | src/pcidb.hpp:58-66 | the vendor name found is the column-6 text of a line whose columns 0..3 match, and every earlier matching line gave an empty name |
| PciDb.ScanModel | src/pcidb.hpp:68-81 | the model name found is the column-7 text of a line whose columns 1..4 match the device id, and only when a device id was given |
| PciDb.ScanFindsVendor | src/pcidb.hpp:56-66 | while the vendor is unknown, a later vendor line with a name is never skipped: the scan ends with a non-empty vendor |
| PciDb.BeforeAbsorbs | src/pcidb.hpp:83-86 | once a scan has failed or found every name it needs, further lines change nothing |
| PciDb.ScanIsBefore | src/pcidb.hpp:56-87 | breaking out of the loop once the names are found gives the same names as reading every line |
| PciDb.BeforeModel | src/pcidb.hpp:56-81 | after any number of lines the model is empty only if every matching device line the device branch reached had an empty name; a model found is the name of the first such line with a name |
| PciDb.BeforeKeeps | src/pcidb.hpp:68-70 | a model once found stays unchanged by later lines |
| PciDb.ModelFound | src/pcidb.hpp:68-81 | a matching device line with a name that the device branch reaches gives that name as the model |
| PciDb.LookupFindsNames | src/pcidb.hpp:49-87 | without a database both names are empty; otherwise the vendor is that of the first matching vendor line with a name, and is empty only if no matching line has one; the model is that of the first matching device line with a name that the device branch reaches, and is empty only if the branch reaches none |
| PciDb.StepPrefixed | src/pcidb.hpp:40-72 | one line is read the same with "0x" on both ids as without |
| PciDb.ScanPrefixed | src/pcidb.hpp:40-72 | the "0x" prefix on both ids does not change the lookup |
| PciDb.ModelOutsideVendorBlock | src/pcidb.hpp:68-81 | the model search is not scoped to the vendor's block: a device line before the vendor line is taken |
| Inventory.FirstVendorLine | src/storage/inventory.cpp:34-47 | the first line whose first four characters equal the id, or none when no line does |
| Inventory.PciVenorLookup | src/storage/inventory.cpp:20-49 | the loop with its break returns the name after column 6 of the first matching line, "" when none matches or the file is missing |
| Inventory.VendorLookupsAgree | src/storage/inventory.cpp:20-49 | for an unprefixed id whose first matching line has a name, this lookup agrees with the vendor half of the pci.ids line matcher without a device |
| Inventory.ScanUpTo | src/storage/inventory.cpp:34-47 | lines before the first match do not affect the line matcher's vendor search |
| Inventory.DigitPrefix | src/storage/inventory.cpp:85-86 | the leading decimal digits: all digits, a prefix of the input, followed by a non-digit or the end |
| Inventory.LeadingDigitsUnique | src/storage/inventory.cpp:85-86 | the run of leading digits ends at exactly one place |
| Inventory.Capacity | src/storage/inventory.cpp:78-92 | the parsed capacity fits in 64 bits; it is the value of the leading digits (so "12abc" gives 12) when there is at least one and that value fits in 64 bits, and 0 when there are none or the value does not fit |
| Inventory.Order | src/storage/inventory.cpp:94-98 | the number of dropped digit groups leaves between one and three digits |
| Inventory.OrderShape | src/storage/inventory.cpp:94-98 | the order is (len-1)/3 and the kept prefix has (len-1)%3+1 digits |
| Inventory.SizeExamples | src/storage/inventory.cpp:94-129 | "1000" renders as "1.0KB", "500107862016" as "500GB", "999" as "999B", "" as "" and a 19-digit size as "??" |
| Inventory.ValueAppend | src/storage/inventory.cpp:85-86 | the decimal value of a concatenation of digit strings |
| Inventory.ValueBelow | src/storage/inventory.cpp:85-86 | an n-digit decimal is below 10^n |
| Inventory.Pow1000IsPow10 | src/storage/inventory.cpp:106-129 | each unit step is a factor of 1000 |
| Inventory.SizeRoundsDown | src/storage/inventory.cpp:94-129 | the kept digits scaled by the unit bracket the byte count: it is rounded down to the unit |
| Inventory.StorageDrive | src/storage/inventory.cpp:51-148 | the object path is the D-Bus escape of the inventory path plus the drive name; prettyName is type, size text and name; capacity is the parsed size; serial number and model are copied in; the manufacturer is the pci.ids vendor name for an NVMe drive with a vendor id and empty otherwise; the construction fails exactly when that lookup throws |
| I2c.SetupSucceedsIff | src/common_i2c.cpp:25-87 | the handle is usable exactly when open, I2C_FUNCS, the byte-data/I2C-block/PEC capability check, slave select and (when asked) PEC enable all succeed |
| I2c.AttemptResult | src/common_i2c.cpp:96-170 | an attempt fails exactly when the kernel call fails; a byte read returns a value below 256 and a word read one below 65536 |
| I2c.Tries | src/common_i2c.cpp:96-105 | the retry loop makes between 1 and 3 attempts, all but the last failed, and it stops early only at a non-negative result |
| I2c.TriesUnique | src/common_i2c.cpp:99-102 | the stopping rule fixes the number of attempts: one when the first succeeds, three when a negative result comes back |
| I2c.SpamRun | src/common_i2c.cpp:296-318 | the guard takes one step per transfer result |
| I2c.ErrorRunSteps | src/common_i2c.cpp:305-316 | along non-positive results the counter climbs by one per result, saturating at its type's maximum; the notice comes when it stood at 3, and muting once it passes 3 |
| I2c.FreshErrorRun | src/common_i2c.cpp:296-316 | from a reset counter the first three failures are logged in full, later ones muted, and the notice comes with the fourth |
| I2c.NoticeOnce | src/common_i2c.cpp:305-309 | a run of failures gives the "multiple errors" notice at most once, and exactly once when it reaches the threshold |
| I2c.SuccessResets | src/common_i2c.cpp:298-303 | only a strictly positive result resets the counter; what follows is treated as on a fresh handle |
| I2c.LoggingPolicy | src/common_i2c.cpp:319-376 | an unmuted failure is always logged, a success only in verbose mode, and a muted transfer leaves at most the notice |
| I2c.I2cDev.constructor | src/common_i2c.cpp:25-87 | `ok` holds exactly when no setup step fails, and a failing step is logged |
| I2c.I2cDev.Retry | src/common_i2c.cpp:96-105 | the bus sees the attempts counted by the stopping rule, and the last attempt's result and bytes are returned |
| I2c.I2cDev.Transfer | src/common_i2c.cpp:96-105 | one primitive: the retry loop, the call recorded, and the log guard stepped |
| I2c.I2cDev.IsSpamingToLog | src/common_i2c.cpp:296-318 | the counter, the notice and the mute verdict are one guard step |
| I2c.I2cDev.LogTransfer | src/common_i2c.cpp:319-376 | the guard steps, then the transfer is logged as the logging policy says |
| I2c.I2cDev.ReadByte | src/common_i2c.cpp:96-105 | the retried SMBus byte read; the result is a byte or a negative error |
| I2c.I2cDev.WriteByte | src/common_i2c.cpp:106-115 | the retried SMBus byte write |
| I2c.I2cDev.ReadByteData | src/common_i2c.cpp:116-125 | the retried SMBus register read; the result is a byte or a negative error |
| I2c.I2cDev.WriteByteData | src/common_i2c.cpp:126-135 | the retried SMBus register write |
| I2c.I2cDev.ReadWordData | src/common_i2c.cpp:136-145 | the retried SMBus word read; the result is a 16-bit value or a negative error |
| I2c.I2cDev.WriteWordData | src/common_i2c.cpp:146-155 | the retried SMBus word write |
| I2c.I2cDev.ReadI2cBlockData | src/common_i2c.cpp:156-166 | the retried I2C block read fills exactly `length` bytes |
| I2c.I2cDev.ReadI2cBlob | src/common_i2c.cpp:171-192 | one read message of `length` bytes, retried |
| I2c.I2cDev.ReadI2cBlobCmd | src/common_i2c.cpp:193-220 | a write message holding the command byte, then a read message of `length` bytes |
| I2c.I2cDev.WriteI2cBlob | src/common_i2c.cpp:221-242 | the first `length` bytes of the buffer in one write message |
| I2c.I2cDev.WriteI2cBlobCmd | src/common_i2c.cpp:243-267 | one write message of 1+length bytes: the command byte, then the payload |
| I2c.I2cDev.I2cTransfer | src/common_i2c.cpp:268-294 | a write message of `txLen` bytes followed by a read message of `rxLen` bytes |
| McuApi.Done | src/storage/backplane_mcu_driver.hpp:50-53 | a command without a result succeeds exactly when the device call does not throw |
| McuApi.Test | src/storage/backplane_mcu_driver.hpp:47-48 | a query of a truth value succeeds exactly when the call does not throw, and then carries the device's answer |
| McuApi.Mcu.constructor | src/storage/backplane_mcu_driver.hpp:43-44 | a driver over a scripted device, with nothing called yet |
| McuApi.Mcu.Open | src/mcu/backplane_mcu_driver.cpp:13-31 | the factory call is recorded and fails with "Failed to initialize MCU driver" when the device does not identify |
| McuApi.Mcu.GetFwVersion | src/mcu/backplane_mcu_driver_v1.cpp:52-70 | never throws: returns the device's version text, "" on failure |
| McuApi.Mcu.GetBoardType | src/mcu/backplane_mcu_driver_v1.cpp:72-90 | never throws: returns the device's board type text |
| McuApi.Mcu.EraseFlash | src/mcu/backplane_mcu_driver_v1.cpp:246-258 | recorded; fails exactly when the device call throws |
| McuApi.Mcu.WriteFlash | src/mcu/backplane_mcu_driver_v1.cpp:260-312 | the chunk is recorded; fails exactly when the device call throws |
| McuApi.Mcu.Reboot | src/mcu/backplane_mcu_driver_v1.cpp:233-244 | recorded; fails exactly when the device call throws |
| McuApi.Mcu.Ping | src/mcu/backplane_mcu_driver_v1.cpp:223-231 | never throws: true exactly when the device answered |
| McuApi.Mcu.IsStateChanged | src/storage/backplane_mcu_driver.hpp:54 | the call is recorded; the verdict and the new cache are the scripted answer's, the concrete drivers overwriting the cache only after both register reads succeeded |
| McuApi.Mcu.DrivePresent | src/storage/backplane_mcu_driver.hpp:47 | the presence query for a channel below 8, recorded |
| McuApi.Mcu.DriveFailured | src/storage/backplane_mcu_driver.hpp:48 | the failure query for a channel below 8, recorded |
| McuApi.Mcu.DriveType | src/storage/backplane_mcu_driver.hpp:49 | the drive type of a channel, or "Failed to communicate with MCU" |
| McuApi.Mcu.SetDriveLocationLED | src/storage/backplane_mcu_driver.hpp:50 | the LED switch for a channel, recorded |
| McuApi.Mcu.GetDriveLocationLED | src/storage/backplane_mcu_driver.hpp:51 | the LED query for a channel, recorded |
| McuApi.Mcu.ResetDriveLocationLEDs | src/storage/backplane_mcu_driver.hpp:52 | the LED reset, recorded |
| McuApi.Mcu.SetHostPowerState | src/storage/backplane_mcu_driver.hpp:53 | the host power report, recorded |
| McuDriver.DecodeDiscType | src/mcu/backplane_mcu_driver_v0.cpp:169-182 | code 0 is NoDisk, 1 SATA_SAS, 2 NVMe, and every other code Unknown (the closed enum of src/storage/backplane_mcu_driver.hpp:14-20) |
| McuDriver.TypeField | src/mcu/backplane_mcu_driver_v1.cpp:116 | the two-bit field of a channel in the packed type word is below 4 |
| McuDriver.TypeFieldOfPack | src/mcu/backplane_mcu_driver_v1.cpp:110-131 | each channel reads back exactly the two-bit code packed for it |
| McuDriver.SetBitBits | src/mcu/backplane_mcu_driver_v1.cpp:134-160 | after the read-modify-write the chosen LED is in the requested state and every other LED keeps its state |
| McuDriver.SetBitByte | src/mcu/backplane_mcu_driver_v1.cpp:134-160 | switching one LED of a byte-wide mask gives a byte-wide mask |
| McuDriver.SetBitUnchanged | src/mcu/backplane_mcu_driver_v1.cpp:145-148 | the mask changes exactly when the LED was in the other state, which is when a write is issued |
| McuDriver.SwitchLed | src/mcu/backplane_mcu_driver_v1.cpp:136-144 | the byte written is the old mask with only the channel's bit switched |
| McuDriver.FingerprintIgnoresFailures | src/mcu/backplane_mcu_driver_v1.cpp:199 | the failure byte shifted right by 8 is 0: the fingerprint is the presence mask, and failures alone never count as a change |
| McuDriver.SettleRunUnique | src/mcu/backplane_mcu_driver_v0.cpp:324-345 | the same-twice stopping rule determines the read sequence: no run is a proper prefix of another |
| McuDriver.SettleRunStable | src/mcu/backplane_mcu_driver_v0.cpp:324-345 | a device that always answers v is read at most twice, once when v is already held, and the loop keeps v |
| McuDriver.SettleRunAgreed | src/mcu/backplane_mcu_driver_v0.cpp:324-345 | a loop that stopped before its last read ended on an answer equal to the value it held |
| McuDriver.SettleByFailure | src/mcu/backplane_mcu_driver_v0.cpp:328-335 | a failed read stops the loop, keeping what was held |
| McuDriver.SettleByAgreement | src/mcu/backplane_mcu_driver_v0.cpp:336-340 | an answer equal to the value held stops the loop with that value |
| McuDriver.SettleByExhaustion | src/mcu/backplane_mcu_driver_v0.cpp:326-344 | after the last allowed read the loop keeps the last answer |
| McuDriver.SettleLoopStep | src/mcu/backplane_mcu_driver_v0.cpp:326-344 | one more read of a loop still going extends the loop state by that read |
| McuDriver.SettleLoopEnd | src/mcu/backplane_mcu_driver_v0.cpp:326-344 | a loop that stopped, or used up its reads, made a complete run and holds what the run keeps |
| McuV0.TypeRoundsAppend | src/mcu/backplane_mcu_driver_v0.cpp:140-166 | a round that got an answer extends the driveType rounds before it |
| McuV0.FailedRound | src/mcu/backplane_mcu_driver_v0.cpp:143-151 | a failed channel write ends a round with a failure |
| McuV0.ReadRound | src/mcu/backplane_mcu_driver_v0.cpp:143-160 | a channel write that went through is followed by one byte read, whose result the round yields |
| McuV0.FlashHeader | src/mcu/backplane_mcu_driver_v0.cpp:280-287 | the packed header of a flash packet is 7 bytes |
| McuV0.FlashHeaderRoundTrip | src/mcu/backplane_mcu_driver_v0.cpp:280-291 | the frame is the opcode, the offset as 4 big-endian bytes, the length as 2 big-endian bytes and then the data, and each reads back from its place |
| McuV0.FrameLengthWraps | src/mcu/backplane_mcu_driver_v0.cpp:289-293 | a chunk of at most 248 bytes goes on the bus whole; a longer one has its frame length cut to 8 bits |
| McuV0.MismatchIsNotFatal | src/mcu/backplane_mcu_driver_v0.cpp:303-321 | five successful read-backs with wrong data do not fail the write |
| McuV0.FlashWrittenOnce | src/mcu/backplane_mcu_driver_v0.cpp:293-301 | a failed packet write is all writeFlash does, and it fails |
| McuV0.FlashWrittenBack | src/mcu/backplane_mcu_driver_v0.cpp:293-321 | a packet that went through is followed by the read-back loop, and the outcome is that of the loop |
| McuV0.ProtoV0.constructor | src/storage/backplane_mcu_driver.hpp:65-85 | a driver owning its handle, with both caches at -1 ("not fetched") and the flash offset at 0 |
| McuV0.ProtoV0.ReadSettled | src/mcu/backplane_mcu_driver_v0.cpp:324-345 | the same-twice loop over a status register follows the settle rule over at most 5 reads and keeps the last value it got |
| McuV0.ProtoV0.ReadBuffer | src/mcu/backplane_mcu_driver_v0.cpp:64-97 | one buffer read, as a command and read message pair or as an I2C block read |
| McuV0.ProtoV0.ReadSettledData | src/mcu/backplane_mcu_driver_v0.cpp:58-112 | the same-twice loop over a buffer, starting from an all-NUL buffer |
| McuV0.ProtoV0.GetDrivesPresence | src/mcu/backplane_mcu_driver_v0.cpp:324-345 | at most 5 reads, stopping at a read equal to the stored value; any negative read throws |
| McuV0.ProtoV0.GetDrivesFailures | src/mcu/backplane_mcu_driver_v0.cpp:347-368 | the same rule for the failure register |
| McuV0.ProtoV0.DrivePresent | src/mcu/backplane_mcu_driver_v0.cpp:118-125 | reads the register only while nothing is cached, then returns the channel's bit |
| McuV0.ProtoV0.DriveFailured | src/mcu/backplane_mcu_driver_v0.cpp:127-134 | reads the failure register only while nothing is cached, then returns the channel's bit |
| McuV0.ProtoV0.TypeRound | src/mcu/backplane_mcu_driver_v0.cpp:142-160 | one round: the channel write, then unless it failed the byte read |
| McuV0.ProtoV0.DriveType | src/mcu/backplane_mcu_driver_v0.cpp:136-183 | up to 5 rounds settled by the same-twice rule from -1; a failed call throws, otherwise the kept code is decoded |
| McuV0.ProtoV0.SetDriveLocationLED | src/mcu/backplane_mcu_driver_v0.cpp:185-198 | one write of opcode 0x45 (on) or 0x46 (off) with the channel index; fails on a transport error |
| McuV0.ProtoV0.GetDriveLocationLED | src/mcu/backplane_mcu_driver_v0.cpp:200-205 | always fails with "Operation not supported", touching no bus |
| McuV0.ProtoV0.ResetDriveLocationLEDs | src/mcu/backplane_mcu_driver_v0.cpp:207-213 | switches off channels 0..7 in order; the first failure stops the loop |
| McuV0.ProtoV0.SetHostPowerState | src/mcu/backplane_mcu_driver_v0.cpp:215-227 | one byte write of 0x68 or 0x69; fails on a transport error |
| McuV0.ProtoV0.IsStateChanged | src/mcu/backplane_mcu_driver_v0.cpp:229-238 | refreshes both registers, stores the bitwise or of presence and failures>>8 into the cache and reports whether it differs from the old cache |
| McuV0.ProtoV0.Ping | src/mcu/backplane_mcu_driver_v0.cpp:240-248 | one read of register 0; true exactly when it does not fail |
| McuV0.ProtoV0.Reboot | src/mcu/backplane_mcu_driver_v0.cpp:250-261 | one write of 0x41; fails on a transport error |
| McuV0.ProtoV0.EraseFlash | src/mcu/backplane_mcu_driver_v0.cpp:263-275 | one write of 0x3F; the offset becomes 0 only when it succeeds |
| McuV0.ProtoV0.ReadBack | src/mcu/backplane_mcu_driver_v0.cpp:303-314 | up to 5 read-backs with opcode 0x80, stopping at one that succeeds with matching data |
| McuV0.ProtoV0.WriteFlash | src/mcu/backplane_mcu_driver_v0.cpp:277-322 | one framed packet then the read-back loop; only a transport error fails the write, and success advances the 32-bit offset by the chunk length |
| McuV0.ProtoV0.GetFwVersion | src/mcu/backplane_mcu_driver_v0.cpp:58-86 | the settled 60-byte answer, rtrim'd; "" as soon as a read fails |
| McuV0.ProtoV0.GetBoardType | src/mcu/backplane_mcu_driver_v0.cpp:88-116 | the settled 32-byte block, rtrim'd; "" as soon as a read fails |
| McuV1.FlashAddressPacket | src/mcu/backplane_mcu_driver_v1.cpp:263-267 | the packed address command is 5 bytes |
| McuV1.FlashAddressRoundTrip | src/mcu/backplane_mcu_driver_v1.cpp:263-267 | its first 4 bytes are the offset big-endian and its last is the chunk length |
| McuV1.ProtoV1.constructor | src/storage/backplane_mcu_driver.hpp:91-114 | a driver owning its handle, with presence, failure and type caches at -1 and the flash offset at 0 |
| McuV1.ProtoV1.GetFwVersion | src/mcu/backplane_mcu_driver_v1.cpp:52-70 | one 32-byte block read of register 0xF0, rtrim'd; "" on failure |
| McuV1.ProtoV1.GetBoardType | src/mcu/backplane_mcu_driver_v1.cpp:72-90 | one 19-byte block read of register 0x02, rtrim'd; "" on failure |
| McuV1.ProtoV1.GetDrivesPresence | src/mcu/backplane_mcu_driver_v1.cpp:314-326 | one read of register 0x20 into the cache; a failure throws and keeps the cache |
| McuV1.ProtoV1.GetDrivesFailures | src/mcu/backplane_mcu_driver_v1.cpp:328-340 | one read of register 0x21 into the cache; a failure throws and keeps the cache |
| McuV1.ProtoV1.GetDrivesType | src/mcu/backplane_mcu_driver_v1.cpp:342-354 | one word read of register 0x24 into the type cache; a failure throws and keeps the cache |
| McuV1.ProtoV1.GetDrivesLocate | src/mcu/backplane_mcu_driver_v1.cpp:356-368 | one read of register 0x23, the LED mask |
| McuV1.ProtoV1.DrivePresent | src/mcu/backplane_mcu_driver_v1.cpp:92-99 | the register is read only while the cache is negative; the result is bit `chanIndex` of the cached byte |
| McuV1.ProtoV1.DriveFailured | src/mcu/backplane_mcu_driver_v1.cpp:101-108 | the same lazy fetch for the failure byte, returning the channel's bit |
| McuV1.ProtoV1.DriveType | src/mcu/backplane_mcu_driver_v1.cpp:110-132 | the type word is fetched only while the cache is negative; the result decodes the channel's two-bit field, 3 giving Unknown without failing |
| McuV1.ProtoV1.SetDriveLocationLED | src/mcu/backplane_mcu_driver_v1.cpp:134-160 | reads the LED byte, switches only the channel's bit, writes nothing when the byte is unchanged, and fails when the write fails |
| McuV1.ProtoV1.GetDriveLocationLED | src/mcu/backplane_mcu_driver_v1.cpp:162-166 | bit `chanIndex` of a fresh read of the LED byte |
| McuV1.ProtoV1.ResetDriveLocationLEDs | src/mcu/backplane_mcu_driver_v1.cpp:168-179 | one write of 0 to register 0x23 |
| McuV1.ProtoV1.SetHostPowerState | src/mcu/backplane_mcu_driver_v1.cpp:181-192 | one write of 1 or 0 to register 0x60; a failure throws |
| McuV1.ProtoV1.IsStateChanged | src/mcu/backplane_mcu_driver_v1.cpp:194-221 | the presence and failure caches take the two reads, each kept when its read fails; the cache is overwritten with the bitwise or of presence and failures>>8; a change is reported without reading the latch, otherwise the result is whether register 0x25 reads above 0 |
| McuV1.ProtoV1.Ping | src/mcu/backplane_mcu_driver_v1.cpp:223-231 | one read of register 0; true exactly when it does not fail, whatever it returns |
| McuV1.ProtoV1.Reboot | src/mcu/backplane_mcu_driver_v1.cpp:233-244 | one write of 0xFF; a failure throws |
| McuV1.ProtoV1.EraseFlash | src/mcu/backplane_mcu_driver_v1.cpp:246-258 | one write of 0xFE; the offset becomes 0 only after it succeeds |
| McuV1.ProtoV1.WriteFlash | src/mcu/backplane_mcu_driver_v1.cpp:260-312 | the address command after 0xFA, the data after 0xFD, then a read-back after 0xFD; a mismatch fails with "Failed to write MCU Flash" and the offset unchanged; success advances the 32-bit offset by the length |
| StorageV1.StateVerdictAsWrittenInverted | src/storage/backplane_mcu_driver_v1.cpp:186 | as written, a changed fingerprint with a clear latch reads as "unchanged" and an unchanged one as "changed" |
| StorageV1.StateVerdictAsWrittenAgrees | src/storage/backplane_mcu_driver_v1.cpp:186-200 | the storage copy's verdict agrees with the intended one exactly when the swap latch is raised |
| StorageV1.McuCopyAgrees | src/mcu/backplane_mcu_driver_v1.cpp:194-221 | whenever the MCU copy's state check succeeds it stores the fingerprint of the two reads and answers the intended verdict |
| StorageV1.ProtoV1.constructor | src/storage/backplane_mcu_driver.hpp:91-114 | the storage copy over its handle, with all three caches at -1 |
| StorageV1.ProtoV1.GetFwVersion | src/storage/backplane_mcu_driver_v1.cpp:49-76 | one 22-byte block read of register 0xF0, rtrim'd; "" on failure, also when the text is then not printable |
| StorageV1.ProtoV1.IfStateChanged | src/storage/backplane_mcu_driver_v1.cpp:180-203 | reads presence, failures and always the swap latch; the cache takes the new fingerprint and the result is (fingerprint == old cache) or latch > 0 |
| McuFactory.ChooseProtocol | src/mcu/backplane_mcu_driver.cpp:16-29 | an opened device answering 0xBC gets version 0, one answering 0xA8 version 1 (checked in that order), and anything else, including a negative error, none |
| McuFactory.BackplaneMcu | src/mcu/backplane_mcu_driver.cpp:13-30 | a device that does not open fails with "Failed to initialize MCU driver" without any read; otherwise exactly one read of register 0x00 decides the driver, which takes over the handle with its caches at -1 |
| Flashing.Chunk | src/mcu/updater.cpp:87-96 | the chunk at an offset is 128 bytes of the image, or the rest of it; only the last chunk is shorter |
| Flashing.WritesStep | src/mcu/updater.cpp:93-102 | one step of the write loop writes the chunk at the offset and advances by its length |
| Flashing.WriteOneChunk | src/mcu/updater.cpp:93-102 | a loop step joins the chunk's write to the calls made so far, and a failed write ends the phase |
| Flashing.WritesShape | src/mcu/updater.cpp:87-110 | the j-th call writes the chunk at offset + 128·j, every write but the last succeeded, and the phase failed exactly when the last did |
| Flashing.WrittenAppend | src/mcu/updater.cpp:101 | what a sequence of calls writes is what its parts write, concatenated |
| Flashing.WritesCover | src/mcu/updater.cpp:87-110 | a write phase without failure writes exactly the rest of the image, in file order |
| Flashing.WritesStopAtFailure | src/mcu/updater.cpp:91-120 | a failed write phase wrote a prefix of the image up to the failing chunk, and nothing after it |
| Flashing.WrittenNoWrites | src/mcu/updater.cpp:122-134 | calls none of which writes the flash write nothing |
| Flashing.PingUntilBack | src/mcu/updater.cpp:123-130 | the ping loop makes the pings of the ping rule and reports whether the MCU answered |
| Flashing.PingsShape | src/mcu/updater.cpp:123-130 | at most 20 pings, all failing but possibly the last; the MCU is back exactly when the last one answered, and otherwise all of them were made |
| Updater.WriteImage | src/mcu/updater.cpp:87-110 | the loop makes the calls of the write phase; without failure the bytes read are the whole image, after a failure fewer |
| Updater.ReopenAndCheck | src/mcu/updater.cpp:131-155 | a new driver, then the version and board type checks, as the re-identification rule says |
| Updater.RebootAndCheck | src/mcu/updater.cpp:122-155 | the reboot, the ping loop and the re-identification, as the reboot phase says |
| Updater.WriteAndCheck | src/mcu/updater.cpp:91-155 | the write loop, then the recovery reboot after a failure unless the flash was erased, or else the reboot phase |
| Updater.RunImageUpdate | src/mcu/updater.cpp:37-169 | the calls and the result are those of the update run: size check, identification, optional erase, writes, recovery or reboot, pings and re-identification |
| Updater.UpdateRejectsSize | src/mcu/updater.cpp:42-59 | sizes below 64 or above 131072 bytes, and a missing file, fail before any MCU call; 64 and 131072 are accepted |
| Updater.RebootRunShape | src/mcu/updater.cpp:122-155 | after the reboot only pings and the re-identification follow; success means a re-identification that passed |
| Updater.RebootRunAfterTimeout | src/mcu/updater.cpp:123-134 | re-identification follows even when none of the 20 pings got an answer |
| Updater.RebootRunSucceedsAfterTimeout | src/mcu/updater.cpp:123-155 | an MCU that answers no ping but then reports its version and board type still passes |
| Updater.WriteRunFailure | src/mcu/updater.cpp:112-167 | a failed write fails the run, wrote a prefix of the image, never reconnects, and ends with the recovery reboot exactly when the flash was not force-erased |
| Updater.WriteRunNoErase | src/mcu/updater.cpp:91-155 | after the erase nothing erases the flash again |
| Updater.UpdateEraseFirst | src/mcu/updater.cpp:60-85 | the erase is issued only with forceErase, as the fourth call, after the identification and before any write |
| Updater.WriteRunSucceeds | src/mcu/updater.cpp:91-155 | a write run that succeeds wrote exactly the image in order and ends with a passing re-identification |
| Updater.RebootWritesNothing | src/mcu/updater.cpp:122-134 | the reboot phase writes nothing |
| Updater.RebootRunReidentifies | src/mcu/updater.cpp:131-155 | a reboot phase that succeeds ends with the passing re-identification |
| Updater.UpdateSucceeds | src/mcu/updater.cpp:37-169 | a successful update had an image of accepted size, wrote exactly it in order, and then read a non-empty version and board type matching the expected version when one was given |
| Updater.WriteRunRebooted | src/mcu/updater.cpp:91-130 | a write run that succeeds wrote without failure, then rebooted |
| Updater.UpdateRunWrites | src/mcu/updater.cpp:60-120 | a successful update identified the MCU, erased it when forced, then ran a successful write run |
| Updater.ShortCode | src/mcu/updater.cpp:219 | the short option string "f:b:a:v:eph" knows f, b, a, v, e, p, h, and any other letter gives '?' |
| Updater.LongCode | src/mcu/updater.cpp:209-217 | only "force-erase" gives 'E'; every long option gives a letter of the table |
| Updater.ForceEraseOnlyLong | src/mcu/updater.cpp:212-242 | no short option reaches the force-erase case, and `-e` has no case of its own |
| Updater.ParseOptions | src/mcu/updater.cpp:218-257 | the getopt loop applies the options in order |
| Updater.UpdaterMain | src/mcu/updater.cpp:200-293 | an unreadable address aborts; help, a missing file, bus or address exit with EXIT_FAILURE before any MCU call; otherwise the update runs and exits 0 on success and 10 on failure |
| Updater.HelpSticks | src/mcu/updater.cpp:237-254 | once the usage text is asked for, no later option withdraws it |
| Updater.UnknownOptionFails | src/mcu/updater.cpp:252-262 | an option without a case of its own anywhere makes main print the usage text and fail |
| Updater.AddressBounded | src/mcu/updater.cpp:229-239 | an address above 0x7F always forces the usage text |
| Updater.LaunchedAddress | src/mcu/updater.cpp:229-277 | an update is launched only for a non-zero address no larger than 0x7F |
| Updater.NegativeAddressLaunches | src/mcu/updater.cpp:231 | the lower bound is not checked: address -1 launches an update |
| Reflash.CalcShred | src/mcu/reflash.cpp:183-209 | for well-formed input, character i of the first 8 sets bit 7-i exactly when it is '1'; any other character among them gives 0xFF |
| Reflash.BitsDetermineByte | src/mcu/reflash.cpp:191-209 | a byte is fixed by its 8 bits |
| Reflash.OnesBit | src/mcu/reflash.cpp:204 | every bit below m of 2^m-1 is set |
| Reflash.AllPinsSetIsFF | src/mcu/reflash.cpp:198-204 | a shred with all 8 pins set is 0xFF, the same value a malformed shred gives |
| Reflash.ToBitString | src/mcu/reflash.cpp:214-223 | one character per pin value, '1' exactly when its lowest bit is set |
| Reflash.ShredMatches | src/mcu/reflash.cpp:233-251 | true exactly when the lengths are equal and every position holds '*' in the key or equal characters |
| Reflash.MatchesFrom | src/mcu/reflash.cpp:242-248 | the comparison loop from position i checks exactly the positions from i on |
| Reflash.ShredMatchesExtremes | src/mcu/reflash.cpp:233-251 | a key without wildcards matches only itself; an all-wildcard key matches every shred of its length |
| Reflash.FindDefinition | src/mcu/reflash.cpp:358-370 | the definition of the first key that matches, or the empty definition (no path, no version, no addresses) when none does |
| Reflash.FindDefinitionLeastKey | src/mcu/reflash.cpp:360-439 | with the definitions in ascending key order, the one found belongs to the least matching key |
| Reflash.WriteChunks | src/mcu/reflash.cpp:97-104 | the offset loop writes chunks of min(128, remaining) at offsets 0, 128, ..., stopping at the first failed write |
| Reflash.Restart | src/mcu/reflash.cpp:112-139 | the reboot, the ping loop, and a new driver only once the MCU is back |
| Reflash.Flash | src/mcu/reflash.cpp:97-146 | the writes, then the recovery reboot after a failure or the restart |
| Reflash.UpdateMcu | src/mcu/reflash.cpp:28-154 | the calls and the reported outcome are those of the reflash run |
| Reflash.ReflashRunContents | src/mcu/reflash.cpp:33-103 | an identified MCU not running the required version is flashed with an image of accepted size after the open and the two queries |
| Reflash.ReflashAbsent | src/mcu/reflash.cpp:33-45 | an MCU that does not open is reported exactly when its address was forced, and nothing else is tried on it |
| Reflash.ReflashWritesOnlyWhenNeeded | src/mcu/reflash.cpp:47-84 | nothing is written unless the MCU opened, does not run the required non-empty version already, and the image opened with a size in [64, 131072] |
| Reflash.RestartRequeriesOnlyIfBack | src/mcu/reflash.cpp:112-146 | re-identification happens exactly when a ping answered; otherwise all 20 pings went unanswered |
| Reflash.FlashRunWriteFailure | src/mcu/reflash.cpp:97-153 | a failed write is followed by the recovery reboot and nothing else, after a prefix of the image was written |
| Reflash.ReflashFlashed | src/mcu/reflash.cpp:72-146 | a flashed MCU got exactly its image, in order |
| Reflash.FlashedWritesImage | src/mcu/reflash.cpp:97-146 | a flash run that ends flashed wrote exactly the image |
| Reflash.ReflashRunFlashes | src/mcu/reflash.cpp:47-84 | a run that got as far as flashing had an opened MCU, a different version and an image of accepted size |
| Reflash.FlashRunParts | src/mcu/reflash.cpp:97-121 | a flash run that ended flashed wrote without failure, then restarted |
| Reflash.RestartWritesNothing | src/mcu/reflash.cpp:112-139 | the reboot phase writes nothing |
| Reflash.ReflashNeverErases | src/mcu/reflash.cpp:86-91 | updateMCU never erases the flash |
| Reflash.FlashNeverErases | src/mcu/reflash.cpp:97-146 | the write phase and what follows it never erase the flash |
| Reflash.NoEraseAfterWrites | src/mcu/reflash.cpp:97-146 | writes followed by calls that do not touch the flash erase nothing |
| Reflash.WritesOnlyWrite | src/mcu/reflash.cpp:99-103 | the write loop makes only writes |
| Reflash.FlashRunSplit | src/mcu/reflash.cpp:97-146 | a flash run is its writes followed by the recovery reboot after a failed write, or by the restart |
| Reflash.ShredAttempts | src/mcu/reflash.cpp:336-348 | the two address loops for one shred make the attempts of the address policy |
| Reflash.Scan | src/mcu/reflash.cpp:326-350 | the loop over the shreds found makes the updateMCU calls of the scan plan, in order |
| Reflash.ScanAddressPolicy | src/mcu/reflash.cpp:330-348 | every forced attempt goes to an address the shred's definition names, every other one to 0x2a, 0x2b or 0x2c for a definition naming none, each with its definition's firmware and version |
| BackplaneFru.FruValidateHeader | src/storage/backplane_control.cpp:80-107 | true exactly when byte 0 is 0x01, byte 6 is 0x00 and the 8 header bytes sum to 0 modulo 256 (section 8 of the IPMI Platform Management FRU Information Storage Definition v1.0) |
| BackplaneFru.FruCalculateChecksum | src/storage/backplane_control.cpp:110-121 | the checksum added to the bytes makes their sum 0 modulo 256, and it is 0 exactly when their sum already is |
| BackplaneFru.PieceLen | src/storage/backplane_control.cpp:150-152 | a block read is 32 bytes, or what is left of the area |
| BackplaneFru.ReadProductArea | src/storage/backplane_control.cpp:145-164 | the do-while loop makes block reads that exactly cover [offset, offset+size) in order, at least one, stopping at the first failure; the area buffer holds the bytes read, zero after them |
| BackplaneFru.BeforeReadAt | src/storage/backplane_control.cpp:148-164 | before each read the address is 32 times the reads made and stays inside the area after the first |
| BackplaneFru.NextPiece | src/storage/backplane_control.cpp:153-163 | a successful read advances the address and the buffer by the bytes read |
| BackplaneFru.FailedPiece | src/storage/backplane_control.cpp:155-161 | a failed read ends the loop unsuccessfully |
| BackplaneFru.AllPieces | src/storage/backplane_control.cpp:164 | once the area is covered the loop ends successfully |
| BackplaneFru.StepPieces | src/storage/backplane_control.cpp:150-154 | the next block read keeps the reads in order over the area |
| BackplaneFru.StepRead | src/storage/backplane_control.cpp:153-163 | the bytes of a read go right after those read so far, and the rest of the buffer stays zero |
| BackplaneFru.SerialField | src/storage/backplane_control.cpp:181-193 | a serial is accepted only with type code 11b in bits 7:6 (sections 11 and 13 of the FRU definition), and is exactly as long as the low 6 bits say |
| BackplaneFru.ParseSerial | src/storage/backplane_control.cpp:174-193 | the field-skip loop from offset 3 advances 1+(tl & 0x3F) four times and lands on the serial field |
| BackplaneFru.V1aSerial | src/storage/backplane_control.cpp:196-210 | the fallback applies exactly when bytes 0..2 are 02 08 01, and then returns bytes 5..24 |
| BackplaneFru.ReadAreaSerial | src/storage/backplane_control.cpp:145-193 | the product area read, its checksum check, then the serial field |
| BackplaneFru.GetSerialFru | src/storage/backplane_control.cpp:123-194 | rejects a bad header or a zero product offset without a read; else reads the area length at offset×8+1, then the area of length×8 bytes, and yields its serial only when the checksum is 0 |
| BackplaneFru.NvmeSerial | src/storage/backplane_control.cpp:27-64 | the serial found is printable |
| BackplaneFru.GetNVMeSerialNumber | src/storage/backplane_control.cpp:27-64 | no bus or a device that does not open gives ""; else the selector write and the first block, which must succeed, then the FRU serial or the V1A one, rtrim'd |
| BackplaneFru.NvmeSerialOf | src/storage/backplane_control.cpp:57-63 | FRU parsing is tried first and V1A only when it yields nothing; the result is rtrim'd |
| BackplaneControl.InterfaceReconciles | src/storage/backplane_control.cpp:287-320 | SATA_SAS and NVMe keep their type whatever the presence bit, NoDisk stays NoDisk only when not present and is Unknown otherwise, Unknown stays Unknown |
| BackplaneControl.ChannelsRunStopped | src/storage/backplane_control.cpp:272-334 | once a channel read fails, no later channel is read |
| BackplaneControl.FindChannel | src/storage/backplane_control.cpp:376-387 | the first channel carrying the name, in configuration order, or none |
| BackplaneControl.FindDrive | src/storage/backplane_control.cpp:352-354 | the first drive in the table with the serial number, or none |
| BackplaneControl.Lookup | src/storage/backplane_control.cpp:350-366 | the slot of the first drive with the serial if its slot still reads that serial; otherwise "", with a stale flag exactly when that slot now reads another serial |
| BackplaneControl.BackplaneController.constructor | src/storage/backplane_control.cpp:212-227 | an empty view with cache 0, followed by a refresh whose result is the operational status |
| BackplaneControl.BackplaneController.ReadChannels | src/storage/backplane_control.cpp:272-328 | reads every configured channel in order, as the channel run says |
| BackplaneControl.BackplaneController.ReadNext | src/storage/backplane_control.cpp:272-328 | one more channel extends the channel run by that channel |
| BackplaneControl.BackplaneController.ReadChannel | src/storage/backplane_control.cpp:275-327 | presence, failure and type of one channel, reconciled, and a serial read only for NVMe with drive I2C |
| BackplaneControl.BackplaneController.Prepare | src/storage/backplane_control.cpp:256-270 | the version is queried only while unknown and kept once non-empty; the state comparison overwrites the cached fingerprint |
| BackplaneControl.BackplaneController.Sync | src/storage/backplane_control.cpp:256-335 | what doRefresh does after the MCU opened, as the refresh run says |
| BackplaneControl.BackplaneController.DoRefresh | src/storage/backplane_control.cpp:246-336 | the calls, the new view and the result are those of the refresh run |
| BackplaneControl.BackplaneController.Refresh | src/storage/backplane_control.cpp:239-244 | the refresh, whose result becomes the operational status |
| BackplaneControl.BackplaneController.UpdateConfig | src/storage/backplane_control.cpp:229-237 | an equal configuration changes nothing and calls nothing; another one is stored and refreshed at once |
| BackplaneControl.BackplaneController.ChannelIndexByName | src/storage/backplane_control.cpp:369-388 | "" gives -1; a name gives the index of the first channel carrying it; an unknown name fails |
| BackplaneControl.BackplaneController.SetDriveLocationLED | src/storage/backplane_control.cpp:390-412 | an unknown name or an index outside [0,8) fails without contacting the MCU; a failure to reach the MCU fails and makes the controller non-functional |
| BackplaneControl.BackplaneController.GetDriveLocationLED | src/storage/backplane_control.cpp:414-436 | the same guards, with the LED's state as the answer |
| BackplaneControl.BackplaneController.ResetDriveLocationLEDs | src/storage/backplane_control.cpp:438-450 | the reset through a new driver; a failure fails and makes the controller non-functional |
| BackplaneControl.BackplaneController.HostPowerChanged | src/storage/backplane_control.cpp:452-467 | a no-op unless softwarePowerGood is set; a failure makes the controller non-functional and is not reported |
| BackplaneControl.BackplaneController.FindChannelByDriveSN | src/storage/backplane_control.cpp:343-367 | a failed refresh is an error; otherwise the lookup in the refreshed table, and a stale entry inverts the cached fingerprint so the next refresh rereads the channels |
| BackplaneControl.BackplaneController.Answer | src/storage/backplane_control.cpp:352-366 | the lookup's slot, and the fingerprint inverted exactly for a stale entry |
| BackplaneControl.BackplaneController.LookupDrive | src/storage/backplane_control.cpp:352-365 | the loop computes the lookup |
| BackplaneControlProps.ChannelsRunLength | src/storage/backplane_control.cpp:272-329 | a table read in full has one row per channel, and each channel took three calls |
| BackplaneControlProps.ChannelsRunTable | src/storage/backplane_control.cpp:272-327 | row i is named after channel i, whose index is in range, has a serial only for an NVMe drive with drive I2C, and channel i was read from call 3·i on |
| BackplaneControlProps.ChannelsRunBadIndex | src/storage/backplane_control.cpp:275-283 | a channel index outside [0,8) fails the read, and no channel from it on is read |
| BackplaneControlProps.ChannelsRunShort | src/storage/backplane_control.cpp:272-328 | reading n channels takes at most three calls each |
| BackplaneControlProps.RefreshSkipsUnchanged | src/storage/backplane_control.cpp:267-270 | with a table already read and no reported change, the refresh succeeds after the open, the version query and the comparison, keeping the table |
| BackplaneControlProps.RefreshBadChannel | src/storage/backplane_control.cpp:275-334 | with a channel index out of range the table is never replaced |
| BackplaneControlProps.RefreshResult | src/storage/backplane_control.cpp:246-336 | a successful refresh leaves the old table by the skip rule or a table read in full from the channels; a known version is never replaced |
| BackplaneControlProps.RefreshedTable | src/storage/backplane_control.cpp:272-329 | a refresh that replaced the table took it from the channel read |
| BackplaneControlProps.RefreshKeeps | src/storage/backplane_control.cpp:256-334 | a failed refresh keeps the table, and a known version is kept |
| BackplaneControlProps.LookupEmptySerial | src/storage/backplane_control.cpp:322-363 | an empty serial matches the first drive without one when its slot still reads none |
| PcieCfg.HexValue | src/hw/pcie_cfg.cpp:76-77 | a hex digit's value is below 16 |
| PcieCfg.MergeJoinsHalves | src/hw/pcie_cfg.cpp:86-127 | for a low-half owner (x4x4x8 or x8x8) and a high-half owner (x8x4x4 or x8x8) the merge succeeds in either order, and each half ends split exactly when its owner split it |
| PcieCfg.MergeSymmetric | src/hw/pcie_cfg.cpp:96-134 | whether two requests are compatible, and what is stored, does not depend on which came first |
| PcieCfg.MergeStoresRequested | src/hw/pcie_cfg.cpp:96-127 | the stored mode is one of the two requested, or x4x4x4x4 |
| PcieCfg.ClaimsCommute | src/hw/pcie_cfg.cpp:90-140 | two claims on a free port in either order give the same verdict for the second, and the same table when it succeeds |
| PcieCfg.ClaimKeeps | src/hw/pcie_cfg.cpp:96-134 | an incompatible claim fails with the table unchanged; a claim with the stored mode succeeds and changes nothing |
| PcieCfg.PortKeyRoundTrip | src/hw/pcie_cfg.cpp:76-150 | a port key splits back into the socket's low byte (key >> 8) and the IOU number of the option (key & 0xFF) |
| PcieCfg.Smallest | src/hw/pcie_cfg.cpp:147 | the smallest port of a non-empty set of ports |
| PcieCfg.SortedKeysMembers | src/hw/pcie_cfg.cpp:147 | the ascending order holds every claimed port and nothing else |
| PcieCfg.SortedKeysAscending | src/hw/pcie_cfg.cpp:147 | the ascending order is strictly increasing, so no port appears twice |
| PcieCfg.EntryOf | src/hw/pcie_cfg.cpp:149-170 | the entry published for a port carries that port |
| PcieCfg.PcieConfig.constructor | src/hw/pcie_cfg.h:12-13 | no port is claimed yet |
| PcieCfg.PcieConfig.AddBifurcationConfig | src/hw/pcie_cfg.cpp:64-141 | an option shorter than 4 characters fails with the map unchanged; otherwise the claim on port ((socket & 0xFF) << 8) plus hex(chars 0-1) with mode hex(chars 2-3) is inserted or merged |
| PcieCfg.PcieConfig.BifurcationConfiguration | src/hw/pcie_cfg.cpp:143-171 | one entry per claimed port, in ascending port order, with the socket, the IOU and the decoded mode (codes 0..4 named, anything else disabled) |
| PcieCfg.PublishedTable | src/hw/pcie_cfg.cpp:143-171 | every claimed port is published exactly once, in ascending order, with its stored mode |
| HwManager.Ordered | src/hw/hw_mngr.cpp:45-48 | with both readings non-zero the larger is taken as the inlet, without losing either; otherwise the readings are kept |
| HwManager.FirstMatch | src/hw/hw_mngr.cpp:50-61 | a row found from `i` on matches both readings; when none is found no row from `i` on matches |
| HwManager.GetFanInfoByRPM | src/hw/hw_mngr.cpp:38-64 | the table scan returns the fan module the readings identify |
| HwManager.FanInfoIsFirstMatch | src/hw/hw_mngr.cpp:38-64 | the identified module is the first row whose inlet and outlet ranges both hold the ordered readings, or the unknown module when no row does |
| HwManager.FanInfoSymmetric | src/hw/hw_mngr.cpp:45-48 | with both rotors turning, swapping the two tachometer readings identifies the same module |
| HwManager.NatToString | src/hw/hw_mngr.cpp:183 | `std::to_string` of a non-negative number is a non-empty string of decimal digits |
| HwManager.ZoneNameDefined | src/hw/hw_mngr.cpp:175-199 | an instance names a zone exactly when it is 0x10..0x1F (ChassisN) or 1..3 (Main, CPU, PSU) |
| HwManager.ZoneNameInjective | src/hw/hw_mngr.cpp:175-199 | two instances with the same non-empty zone name are equal |
| HwManager.ChassisPIDZone.Equals | src/hw/hw_mngr.hpp:19-26 | zones are equal exactly when their connector lists and minimum speeds are |
| HwManager.HWManagerData.Equals | src/hw/hw_mngr.hpp:51-68 | configurations are equal exactly when all seven fields are |
| HwManager.HWManagerData.Reset | src/hw/hw_mngr.hpp:41-50 | no product, empty model, part number and serial, passive CPU cooling, no CPUs and no zones |
| HwManager.DefaultData | src/hw/hw_mngr.hpp:39-40 | a new configuration has passive CPU cooling and no CPUs or zones |
| HwManager.ResetIsDefault | src/hw/hw_mngr.hpp:39-50 | a reset configuration is the default one without a product, whatever it held, and resetting twice is resetting once |
| HwManager.FromCharsHex | src/hw/hw_mngr.cpp:227-238 | `std::from_chars` base 16 over a two-character window consumes 1 or 2 characters and yields -15..255, or fails consuming nothing |
| HwManager.FromCharsHexPair | src/hw/hw_mngr.cpp:227-238 | two hex digits are read as one byte, consuming both |
| HwManager.ParseFans | src/hw/hw_mngr.cpp:236-246 | the connector loop reads at most `count` numbers, and exactly `count` when it succeeds |
| HwManager.FanCount | src/hw/hw_mngr.cpp:221-233 | an accepted header needs two characters and `(cnt + 1) * 2` characters in all; below the `size_t` wrap-around the count is at least -1 |
| HwManager.ReadConnectors | src/hw/hw_mngr.cpp:235-246 | the connector loop as written returns what the loop specification computes |
| HwManager.CpuCoolingOption | src/hw/hw_mngr.cpp:206-269 | the cpuCooling option is always accepted; "00" sets passive and "01" active cooling; any other value and any other field is left unchanged |
| HwManager.ChassisFansWellFormed | src/hw/hw_mngr.cpp:216-248 | a well-formed chassisFans option succeeds, sets the zone's connector list to exactly the `count` following bytes, keeps its minimum speed and touches no other zone or field |
| HwManager.ChassisFansRefused | src/hw/hw_mngr.cpp:221-233 | a refused header (too short, no count, or too few characters) fails with the configuration unchanged |
| HwManager.ChassisFansPartial | src/hw/hw_mngr.cpp:235-246 | after an accepted header only the zone's connector list changes; it succeeds exactly when every window parses, keeping the numbers read before a failing one |
| HwManager.PidZoneMinSpeedOption | src/hw/hw_mngr.cpp:249-265 | pidZoneMinSpeed succeeds exactly when the value has two characters; it either changes nothing or stores a speed in 5..100 as the zone's only change |
| HwManager.OtherOptionsRefused | src/hw/hw_mngr.cpp:266-267 | every other option type is refused with the configuration unchanged |
| HwManager.Keep | src/hw/hw_mngr.cpp:444-456 | an erase loop never adds fans |
| HwManager.KeepPartition | src/hw/hw_mngr.cpp:444-456 | the two erase loops split the fans: together they keep each fan exactly once, one keeps exactly the system fans and the other exactly the others |
| HwManager.KeepIdempotent | src/hw/hw_mngr.cpp:287-299 | erasing twice is erasing once |
| HwManager.KeepAll | src/hw/hw_mngr.cpp:444-456 | a list of only the kept kind is kept whole and the other loop keeps none of it |
| HwManager.Delayed | src/hw/hw_mngr.cpp:657-688 | detectFansDelayed counts an attempt; past 20 attempts it switches to the normal state, otherwise it (re)arms the timer for the delay; nothing else changes |
| HwManager.ProbeConnectors | src/hw/hw_mngr.cpp:779-820 | the probe loop over the system connectors computes the features and PWM writes of the probe specification |
| HwManager.ProbeKeeps | src/hw/hw_mngr.cpp:779-820 | probing changes only the fan features and the PWM writes |
| HwManager.ProbeInitFullSpeed | src/hw/hw_mngr.cpp:795-804 | in the init state probing only appends writes of 255 (full speed) |
| HwManager.DetectStepMonotone | src/hw/hw_mngr.cpp:716-762 | the normal state is final; a step never moves the state back or lowers the attempts; without a product it only delays by five seconds |
| HwManager.DetectTransitions | src/hw/hw_mngr.cpp:730-756 | uninit goes to normal exactly when features were loaded; init goes to detect with a five-second timer while attempts remain; detect goes to normal; failed probing goes to normal |
| HwManager.NoProductGivesUp | src/hw/hw_mngr.cpp:663-728 | without a product, steps that exhaust the 20 attempts end in the normal state |
| HwManager.NormalStays | src/hw/hw_mngr.cpp:718-721 | steps in the normal state change nothing |
| HwManager.UpdateAllNamed | src/hw/hw_mngr.cpp:838-872 | after updateSystemFanFeatures every system connector has a feature with a pretty name and the identified module's or the platform's part number; other connectors' features are unchanged |
| HwManager.PublishAllObjects | src/hw/hw_mngr.cpp:306-336 | publishing creates one object per system connector from the feature it had, adding only default features |
| HwManager.SystemObjectsAreSystemFans | src/hw/hw_mngr.cpp:326-327 | every object made for a system connector is named as a system fan |
| HwManager.PublishSystemReplaces | src/hw/hw_mngr.cpp:277-344 | publishSystemFans keeps the other fans in order and replaces the system fans by one object per system connector |
| HwManager.PublishSystemIdempotent | src/hw/hw_mngr.cpp:277-344 | publishing the system fans twice is publishing them once |
| HwManager.PublishAllKeepsFull | src/hw/hw_mngr.cpp:311 | with a feature for every system connector, publishing adds none |
| HwManager.SortedZonesMembers | src/hw/hw_mngr.cpp:382 | the zones are visited in the map's order, each exactly once |
| HwManager.FindConnector | src/hw/hw_mngr.cpp:386-393 | a found connector is the platform's connector with that index; not found means the platform has none |
| HwManager.PairsOf | src/hw/hw_mngr.cpp:382-384 | each connector number of a zone is paired with its zone, in order |
| HwManager.ChassisFanObjects | src/hw/hw_mngr.cpp:381-415 | the next chassis fan number is one past the number of chassis fans made |
| HwManager.ChassisFansNumbered | src/hw/hw_mngr.cpp:407-413 | the chassis fans are numbered 1, 2, ... in order and none is a system fan |
| HwManager.ChassisFansAllowed | src/hw/hw_mngr.cpp:386-406 | every chassis fan comes from a listed connector the platform has, that is not a system connector, and not a CPU connector under active cooling |
| HwManager.CpuFansPresent | src/hw/hw_mngr.cpp:363-379 | CPU fans are made only under active CPU cooling, and none is a system fan |
| HwManager.PublishSplitsFans | src/hw/hw_mngr.cpp:352-415 | after publish the system fans are those before it and the other fans are exactly the configuration's CPU and chassis fans |
| HwManager.CreateCpuFans | src/hw/hw_mngr.cpp:363-379 | the CPU fan loop makes the CPU fans of the specification |
| HwManager.CreateZoneFans | src/hw/hw_mngr.cpp:384-414 | one zone's connector loop continues the chassis fans and their numbering with that zone's connectors |
| HwManager.CreateChassisFans | src/hw/hw_mngr.cpp:381-415 | the zone loop makes the chassis fans of all zones' connectors, zones in the map's order |
| HwManager.FirstMatching | src/hw/hw_mngr.cpp:164-172 | no product exactly when no registry entry matches; otherwise the first matching entry |
| HwManager.HWManager.constructor | src/hw/hw_mngr.cpp:152-159 | default configurations, no objects or subscriptions, and an uninitialised detection holding the saved fan features |
| HwManager.HWManager.SetProduct | src/hw/hw_mngr.cpp:161-173 | the model name is stored and the product is the first registry match or none; nothing else changes |
| HwManager.HWManager.SetOption | src/hw/hw_mngr.cpp:201-270 | the verdict and the new configuration are those of the option specification |
| HwManager.HWManager.SetChassisFans | src/hw/hw_mngr.cpp:216-248 | the chassisFans branch, written as the loop, agrees with the option specification |
| HwManager.HWManager.DetectFansDelayed | src/hw/hw_mngr.cpp:657-688 | the detection state becomes the delayed one |
| HwManager.HWManager.OnHostPowerChanged | src/hw/hw_mngr.cpp:690-701 | power on resets the attempts to 0; power off keeps them |
| HwManager.HWManager.RunDetectFans | src/hw/hw_mngr.cpp:703-714 | only an uninitialised detection runs a step, from init when the host is on |
| HwManager.HWManager.DetectTimerFired | src/hw/hw_mngr.cpp:673-687 | an armed timer that expires runs the next detection step; with none armed nothing happens |
| HwManager.HWManager.ProcessDetectState | src/hw/hw_mngr.cpp:716-762 | the new detection state is one step of the detection specification |
| HwManager.HWManager.ProcessSystemFans | src/hw/hw_mngr.cpp:764-836 | the verdict and the new detection state are those of the probe specification: false without a detection table or fan controller |
| HwManager.HWManager.UpdateSystemFanFeatures | src/hw/hw_mngr.cpp:838-872 | the features become the updated ones of the specification |
| HwManager.HWManager.EraseFans | src/hw/hw_mngr.cpp:444-456 | the erase loop keeps exactly the fans of the kept kind, in order |
| HwManager.HWManager.PublishSystemFans | src/hw/hw_mngr.cpp:277-344 | the new state is the publishSystemFans specification: nothing without a product |
| HwManager.HWManager.Publish | src/hw/hw_mngr.cpp:346-436 | without a product, or with the published configuration, nothing changes; otherwise one chassis, the kept system fans followed by the CPU and chassis fans, the configuration published, one subscription and the fan-speed update armed |
| HwManager.HWManager.Clear | src/hw/hw_mngr.cpp:438-457 | no subscriptions, no chassis, and only the system fans remain |
| SoftwareUpdate.JoinPath | src/common_swupd.cpp:51-53 | `dir / name` on POSIX paths: an absolute name replaces the directory; otherwise one separator is added exactly when the directory does not already end in one |
| SoftwareUpdate.JoinedFilename | src/common_swupd.cpp:51-53 | a separator-free name joined to any directory is the file name of the result |
| SoftwareUpdate.ImagePathNamed | src/common_swupd.cpp:51-53 | the image handed to the device is `<extendedVersion>.bin` directly inside the object's directory |
| SoftwareUpdate.SetActivationCalls | src/common_swupd.cpp:34-61 | setting Activating calls updateImage exactly once and stores Activating exactly when it was accepted, Failed exactly when refused; any other value calls nothing and is stored as is; RequestedActivation is untouched |
| SoftwareUpdate.RequestStartsUpdate | src/common_swupd.cpp:63-75 | a request makes one update call exactly when it asks for Active of a Ready or Failed object; otherwise the activation and the calls are untouched; the request is always stored |
| SoftwareUpdate.RepeatedRequest | src/common_swupd.cpp:63-75 | a repeated Active request while Activating makes no further call; after a refusal it retries once more |
| SoftwareUpdate.RequestNoneKeepsActivation | src/common_swupd.cpp:63-75 | requesting None changes only RequestedActivation |
| SoftwareUpdate.SoftwareObject.constructor | src/common_swupd.cpp:16-32 | the object is Ready, nothing requested, no update called, with one inventory/activation association to the target's inventory object and the given path, type, version and purpose |
| SoftwareUpdate.SoftwareObject.SetActivationProperty | src/common_swupd.cpp:34-61 | the new activation state is the Activation setter's transition with the object's own image request, and the stored value is returned |
| SoftwareUpdate.SoftwareObject.SetRequestedActivation | src/common_swupd.cpp:63-75 | the new activation state is the RequestedActivation setter's transition, and the requested value is returned |

## Left out

- I2C system calls (`open`, `ioctl`, `i2c_smbus_*`, `close`) and file descriptors. They are replaced by the `bus` oracle and a flag that records whether the device file opened.
- The hex formatting of the `logTransfer` lines and phosphor-logging. The model records which transfers are logged, the "multiple errors" notice and the counter that mutes them, but not the text of each line.
- Sleeps and timers (`sleep_for`, boost `deadline_timer`). They are left out, except the HW manager's detection timer, which is an explicit armed/expired event.
- mmap and lseek of the image file (src/common/mmapfile.cpp). The image is a byte sequence, or `None` when it cannot be opened.
- The floating-point progress output of the updater.
- The `WANT_SIGNATURE_VERIFY` branch of the activation setter. It is a compile-time option, and src/common_swupd.cpp is modelled without it.
- The reflasher's `loadConfig`, `findShreds` and `findBus` (JSON, GPIO and sysfs discovery). The definitions and the shred pin values are inputs.
- The fan features' JSON save and load. The HW manager's constructor takes the loaded features as a parameter.
- `getFansControlPath` and the hwmon reads and writes. They are a `Hwmon` parameter of the detection.
- `getBusByChanName` and `readDriveSN`. They are maps from channel names to buses and from drives to serial numbers.
- D-Bus glue:
  - src/swupd_activator.cpp, src/hw/main.cpp, src/network/*, src/storage/main.cpp and src/hw/objects.cpp;
  - the properties the backplane controller publishes;
  - the pcie destructor's `Set` call (the entries it would send are modelled);
  - the PropertiesChanged subscription of `publish`, which is modelled as a count of held subscriptions.
- `setFanSpeed` and `setFanSpeedDelayed`. They work on doubles and make D-Bus calls; `publish` only records that the update is armed.
- src/storage/backplane_mcu_driver_v0.cpp is not part of this model. The storage copy of the factory chooses the protocol by the same rule as the MCU copy, so `McuFactory.ChooseProtocol` stands for both; the v1 driver the storage copy builds is `StorageV1.ProtoV1`, while `McuFactory.BackplaneMcu` builds the MCU copy's `McuV1.ProtoV1` or `McuV0.ProtoV0`.
- src/hw/product_registry.hpp is not part of this model. A registry entry comes with whether its name pattern matches, in place of `std::regex_match`.
- `std::regex` `[[:print:]]` is replaced by the characters 0x20..0x7E.
- The HW manager holds a pointer to the registry's product description. The model holds the description by value, so pointer identity in `operator==` becomes value equality.
- `std::string` and `std::map<std::string, …>` order are modelled as lexicographic order on character codes.
- The `!mcu` branch of the backplane controller. `backplaneMCU` throws instead of returning null, so the branch cannot be reached.
- The `FanPerformanceType` values are kept as opaque numbers, and only UNKNOWN is distinguished.
- The tachometer and PWM indices of a published fan object are not kept. A fan object holds the names, part number and zone that `publish` and `publishSystemFans` derive.
- `PowerState` callbacks are delivered in the map's key order. The model records which callbacks were notified with which value, not the order of the calls.
- The version purpose of a software object is kept as the name of its enumeration value.
- `BackplaneFru.GetSerialFru`: an area the header announces as larger than the 256-byte buffer overruns the buffer in the source. The model gives up and returns no serial number instead.
- `BackplaneFru.ParseSerial`: skipping the fields before the serial number can carry the offset up to 259, past the 256-byte buffer, and the serial field can then extend further. The source reads past the buffer there. The model gives up and returns "" once the offset or the field leaves the buffer (`BackplaneFru.SerialField` says the same).
- `Reflash.UpdateMcu`: after a reflash, C++ leaves unspecified the order in which the two `printf` arguments `getBoardType()` and `getFwVersion()` are evaluated (src/mcu/reflash.cpp:129-132). The model records the board type query before the version query; this order is a choice, not a guarantee of the source.
- `HwManager.HWManagerData.Reset`: `reset()` clears the fields in place; the model returns the cleared configuration as a new value.
- `std::stoi` throwing on a malformed address ends the updater's `main` (`Updater.UpdaterMain`) as an `Aborted` run; the exception itself is not modelled.
