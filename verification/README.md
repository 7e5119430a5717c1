# Autonomous-read samples of the Mercury RFID reader API, in Dafny

This project models the pure logic of the ThingMagic/Mercury API
autonomous-read sample package. The package has three parts:

- a C program, `NanoABTAutonomousConfiguration`, that turns a reader's
  autonomous read mode on or off;
- the C header `tmr_tag_data.h`, which declares the tag and tag-read records;
- a Java sample, `ReceiveAutonomousReading`, with the Java API's `Gen2`
  value classes.

Almost all of the work happens inside the closed reader SDK (`TMR_*`,
`SerialTransport`). The model keeps the logic that sits around those calls:

- **`Gen2`** (`gen2.dfy`). The Java Gen2 tag record:
  - the EPC length check `checkLen`;
  - the default protocol-control (PC) bytes `(byte)(epc.length << 3), 0`,
    modelled as written with the 32-bit shift and the signed 8-bit
    narrowing. The five-bit length field of that byte holds the EPC *byte*
    count modulo 32 (`DefaultPcLengthField`), not the word count of the
    Gen2 air protocol; the model keeps the formula as written;
  - explicit PCs and their copies;
  - the `Target` code table (AB=0, BA=1, A=2, B=3) with its reverse lookup,
    built the way the static initialiser builds it;
  - the `LinkFrequency` wire codec (0/2/4 ↔ 250/320/640 kHz);
  - the defaults of `TagReadData`.
- **`TagDataHeader`** (`tag_data.dfy`). The C header's data contracts:
  - the 62-byte EPC buffer;
  - the Q type, link frequency and target enumerations with their MIN, MAX
    and INVALID markers. The C target values (A=0, B=1, AB=2, BA=3) are a
    separate table from the Java codes, with no mapping between them;
  - the metadata flag bitmask, as a set of flags ↔ `uint16` mask codec;
  - the millisecond timestamp split into two 32-bit halves.
- **`HexConversion`** (`hex_conversion.dfy`). The *documented contracts* of
  `TMR_hexToBytes` and `TMR_bytesToHex`. Their bodies are not part of this
  model. Each contract is a predicate on the inputs and the allowed outputs.
  Lemmas prove the documented cases, the round trips and that the contracts
  can be met.
- **`NanoPrinters`** (`nano_printers.dfy`). Two helpers of the C program:
  - `protocolName`;
  - the line layout of `serialPrinter`: a new line before byte `i` exactly
    when `i > 0` and `(i & 15) == 0`.
- **`NanoConfiguration`** (`nano_config.dfy`). The C program's `main`:
  - argument validation, as a function and as the loop with its `uint8_t`
    counter;
  - the fail-fast call sequence. Each SDK call is a `Step`. The status the
    SDK returns is an oracle `Sdk = (calls so far, step) -> Status`, so every
    property holds for every possible SDK behaviour.
- **`ReceiveAutonomous`** (`receive_autonomous.dfy`). The Java sample's
  `main`:
  - the optional leading `-v`;
  - the URI that must start with `/`;
  - the out-of-bounds case for a lone `-v`, which its handler catches;
  - streaming only after a successful connect;
  - the handlers that catch an exception from creating the transport,
    adding the listener, `connect` or `receiveStreaming`;
  - the `setTrace` listener toggle, whose record is never cleared.

`Wrappers`, `MachineInts` and `Ascii` hold shared helpers:

- `Option` (Java `null`) and `Result` (a thrown exception);
- the fixed-width integer types;
- the two's-complement narrowing casts;
- `&` on non-negative integers, modelled bit by bit;
- ASCII letter case, used by the hex helpers and by `setTrace`.

Outcomes that end the process are result values: `UsageExit` and
`SdkFailure` have exit status 1, a finished run has 0. Printing, `exit` and
the SDK are not modelled.

## Model

| member | source | states |
|---|---|---|
| `Gen2.FromEpcBytes` | autoread-1.31.1.36/java/ReceiveAutonomousReading/src/com/thingmagic/Gen2.java:46-53 | the EPC-only constructor keeps the EPC, has no CRC, and its PC is two bytes: the first is 8 × EPC length modulo 256 as an unsigned byte, the second is 0 |
| `Gen2.FromEpcString` | autoread-1.31.1.36/java/ReceiveAutonomousReading/src/com/thingmagic/Gen2.java:69-76 | the String constructor builds the same default PC from the EPC bytes the base class parsed |
| `Gen2.FromEpcAndCrcStrings` | autoread-1.31.1.36/java/ReceiveAutonomousReading/src/com/thingmagic/Gen2.java:78-85 | the String+CRC constructor keeps the parsed CRC and also builds the default PC |
| `Gen2.DefaultPcTruncates` | autoread-1.31.1.36/java/ReceiveAutonomousReading/src/com/thingmagic/Gen2.java:50-52 | the int shift followed by the narrowing `(byte)` cast keeps exactly the low 8 bits of 8 × length, for every length |
| `Gen2.DefaultPcLengthField` | autoread-1.31.1.36/java/ReceiveAutonomousReading/src/com/thingmagic/Gen2.java:51 | the top five bits of the default PC's first byte are the EPC byte count modulo 32, and its low three bits are zero |
| `Gen2.NewWithPc` | autoread-1.31.1.36/java/ReceiveAutonomousReading/src/com/thingmagic/Gen2.java:55-60 | the explicit-PC constructor keeps the EPC, has no CRC, and its PC is a clone of the caller's array contents |
| `Gen2.NewWithCrcAndPc` | autoread-1.31.1.36/java/ReceiveAutonomousReading/src/com/thingmagic/Gen2.java:62-67 | the EPC+CRC+PC constructor keeps the EPC and CRC, and its PC is a clone of the caller's array contents |
| `Gen2.WriteAfterConstruction` | autoread-1.31.1.36/java/ReceiveAutonomousReading/src/com/thingmagic/Gen2.java:55-60 | a write to the caller's PC array after construction leaves the tag's PC as it was |
| `Gen2.ExplicitPcMatchesDefault` | autoread-1.31.1.36/java/ReceiveAutonomousReading/src/com/thingmagic/Gen2.java:46-85 | an explicit-PC constructor builds the same tag as the matching default-PC one exactly when the PC given is the default PC for that EPC length |
| `Gen2.ClonePc` | autoread-1.31.1.36/java/ReceiveAutonomousReading/src/com/thingmagic/Gen2.java:59 | `newPC.clone()` captures the array's contents at construction time as an immutable value |
| `Gen2.PcBytes` | autoread-1.31.1.36/java/ReceiveAutonomousReading/src/com/thingmagic/Gen2.java:92-95 | `pcBytes` returns a newly allocated array equal to the tag's PC |
| `Gen2.CheckLen` | autoread-1.31.1.36/java/ReceiveAutonomousReading/src/com/thingmagic/Gen2.java:97-113 | `checkLen(n)` is true exactly when 0 ≤ n ≤ 62 and n is even; negatives, values above 62 and odd values are refused |
| `Gen2.CheckedLengthFitsEpcBuffer` | autoread-1.31.1.36/java/ReceiveAutonomousReading/src/com/thingmagic/Gen2.java:104-111 | every length `checkLen` accepts fits the C 62-byte EPC buffer, and odd lengths that would fit are still refused |
| `Gen2.CodeInjective` | autoread-1.31.1.36/java/ReceiveAutonomousReading/src/com/thingmagic/Gen2.java:130-142 | the four target codes are pairwise distinct |
| `Gen2.BuildLookup` | autoread-1.31.1.36/java/ReceiveAutonomousReading/src/com/thingmagic/Gen2.java:151-159 | the static initialiser's table maps each constant's code to that constant, and holds nothing else |
| `Gen2.TargetGet` | autoread-1.31.1.36/java/ReceiveAutonomousReading/src/com/thingmagic/Gen2.java:166-169 | `get(rep)` is null exactly for reps outside 0..3, and otherwise yields a target whose code is rep |
| `Gen2.TargetGetOfCode` | autoread-1.31.1.36/java/ReceiveAutonomousReading/src/com/thingmagic/Gen2.java:125-169 | `get(t.getCode()) == t` for every target |
| `Gen2.GetFrequency` | autoread-1.31.1.36/java/ReceiveAutonomousReading/src/com/thingmagic/Gen2.java:234-252 | `getFrequency` succeeds exactly for 0, 2 and 4, preserving order (lower code ↔ lower kHz), and throws `IllegalArgumentException` naming the code otherwise |
| `Gen2.Get` | autoread-1.31.1.36/java/ReceiveAutonomousReading/src/com/thingmagic/Gen2.java:254-272 | `get(lf)` always yields one of the codes 0, 2, 4 |
| `Gen2.GetFrequencyOfGet` | autoread-1.31.1.36/java/ReceiveAutonomousReading/src/com/thingmagic/Gen2.java:234-272 | `getFrequency(get(lf)) == lf` for every link frequency |
| `Gen2.GetOfGetFrequency` | autoread-1.31.1.36/java/ReceiveAutonomousReading/src/com/thingmagic/Gen2.java:234-272 | `get(getFrequency(c)) == c` for every code c that decodes |
| `Gen2.NewTagReadData` | autoread-1.31.1.36/java/ReceiveAutonomousReading/src/com/thingmagic/Gen2.java:282-285 | a fresh Gen2 tag read has a static Q with initial Q 0 and null target and link frequency; its `q` field can only hold a static Q |
| `TagDataHeader.EpcBytes` | autoread-1.31.1.36/c/src/tmr_tag_data.h:133-140 | the EPC of a well-formed tag is the first `epcByteCount` ≤ 62 bytes of its buffer |
| `TagDataHeader.StoreEpc` | autoread-1.31.1.36/c/src/tmr_tag_data.h:41 | an EPC can be stored in a tag exactly when it has at most 62 bytes, and is then read back unchanged |
| `TagDataHeader.DecodeQ` | autoread-1.31.1.36/c/src/tmr_tag_data.h:57-85 | a Q structure means something exactly when its type lies in MIN..MAX; it is static exactly when the type is STATIC |
| `TagDataHeader.EncodeQ` | autoread-1.31.1.36/c/src/tmr_tag_data.h:76-85 | writing a Q always produces a type in MIN..MAX |
| `TagDataHeader.QRange` | autoread-1.31.1.36/c/src/tmr_tag_data.h:57-64 | DYNAMIC = MIN, STATIC = MAX, INVALID = MAX + 1 is above them and names no Q, and every written Q type lies in MIN..MAX |
| `TagDataHeader.QRoundTrip` | autoread-1.31.1.36/c/src/tmr_tag_data.h:76-85 | writing then reading a Q gives it back, whatever stale value the union held |
| `TagDataHeader.DynamicPayloadIgnored` | autoread-1.31.1.36/c/src/tmr_tag_data.h:57-85 | the static-Q payload is meaningless when the type is DYNAMIC |
| `TagDataHeader.LinkFrequencyFromValue` | autoread-1.31.1.36/c/src/tmr_tag_data.h:88-98 | exactly the values 250, 320 and 640 name link frequencies, each the one with that kHz figure |
| `TagDataHeader.LinkFrequencyRange` | autoread-1.31.1.36/c/src/tmr_tag_data.h:88-98 | every value is at most MAX = 640, INVALID = 641 is above them and names nothing, and values round-trip |
| `TagDataHeader.TargetFromValue` | autoread-1.31.1.36/c/src/tmr_tag_data.h:101-114 | a value names a C target exactly when MIN ≤ v ≤ MAX, and then the target with that value |
| `TagDataHeader.TargetRange` | autoread-1.31.1.36/c/src/tmr_tag_data.h:101-114 | A..BA lie in MIN..MAX, MAX is BA, INVALID = MAX + 1 names nothing, and values round-trip |
| `TagDataHeader.FlagsAreDistinctBits` | autoread-1.31.1.36/c/src/tmr_tag_data.h:184-199 | each metadata flag is a single bit, distinct flags share no bit, and FLAG_MAX is GEN2_TARGET, the highest of them |
| `TagDataHeader.OrOfHasBit` | autoread-1.31.1.36/c/src/tmr_tag_data.h:200-212 | the OR of a list of flags has a flag's bit exactly when the flag is in the list |
| `TagDataHeader.FlagAllValue` | autoread-1.31.1.36/c/src/tmr_tag_data.h:200-212 | FLAG_ALL, the OR of the twelve flags, is 0x0FFF |
| `TagDataHeader.FlagsOfMask` | autoread-1.31.1.36/c/src/tmr_tag_data.h:184-213 | reading back the mask of a set of flags gives that set |
| `TagDataHeader.MaskOfFlags` | autoread-1.31.1.36/c/src/tmr_tag_data.h:184-213 | rebuilding a mask from the flags it has set gives the mask with only its undefined bits cleared |
| `TagDataHeader.TimestampMs` | autoread-1.31.1.36/c/src/tmr_tag_data.h:246-249 | the read time is below 2^64 and its high and low 32 bits are `timestampHigh` and `timestampLow` |
| `TagDataHeader.SplitTimestamp` | autoread-1.31.1.36/c/src/tmr_tag_data.h:246-249 | every 64-bit time splits into two halves that recombine to it |
| `TagDataHeader.TimestampRoundTrip` | autoread-1.31.1.36/c/src/tmr_tag_data.h:246-249 | combining and splitting gives the two halves back |
| `HexConversion.HexToBytesEmpty` | autoread-1.31.1.36/c/src/tmr_tag_data.h:160 | an empty hex string leaves the byte array unaltered (and reports 0 bytes when asked) |
| `HexConversion.HexPrefixIgnored` | autoread-1.31.1.36/c/src/tmr_tag_data.h:152-153 | a leading "0x" is ignored: the allowed outcomes for "0x" + s and s are the same |
| `HexConversion.ExpectedHexToBytes` | autoread-1.31.1.36/c/src/tmr_tag_data.h:151-166 | for well-formed digits that fit, the contract can be met: decoded bytes at the front, the rest untouched, the count reported |
| `HexConversion.HexToBytesDeterminate` | autoread-1.31.1.36/c/src/tmr_tag_data.h:158-162 | a documented call has one allowed outcome; `convertLen` is set to the number of bytes written, and passing NULL changes nothing else |
| `HexConversion.DocumentedValues` | autoread-1.31.1.36/c/src/tmr_tag_data.h:163 | "00", "0000", "ffff" and "0xffff" convert to 00, 00 00, ff ff and ff ff |
| `HexConversion.BytesToHexString` | autoread-1.31.1.36/c/src/tmr_tag_data.h:168-177 | the output is a NUL-terminated string of two digits per byte; size 0 gives the empty string |
| `HexConversion.BytesToHexSatisfiable` | autoread-1.31.1.36/c/src/tmr_tag_data.h:168-177 | the bytes-to-hex contract can be met for every input |
| `HexConversion.BytesToHexInjective` | autoread-1.31.1.36/c/src/tmr_tag_data.h:168-177 | different bytes never give the same hex string |
| `HexConversion.BytesHexBytes` | autoread-1.31.1.36/c/src/tmr_tag_data.h:151-177 | converting bytes to hex and back restores them and reports their number |
| `HexConversion.HexBytesHex` | autoread-1.31.1.36/c/src/tmr_tag_data.h:151-177 | converting an even-length hex string without "0x" to bytes and back gives the string again, up to letter case |
| `NanoPrinters.ProtocolName` | autoread-1.31.1.36/c/src/NanoABTAutonomousConfiguration.c:71-92 | the name is "unknown" exactly for values other than the seven listed protocols |
| `NanoPrinters.ProtocolByName` | autoread-1.31.1.36/c/src/NanoABTAutonomousConfiguration.c:71-92 | a name found in the reverse table belongs to a listed protocol whose name it is |
| `NanoPrinters.ProtocolNameRoundTrip` | autoread-1.31.1.36/c/src/NanoABTAutonomousConfiguration.c:71-92 | the name of a listed protocol identifies it; "unknown" identifies nothing |
| `NanoPrinters.ProtocolNamesDistinct` | autoread-1.31.1.36/c/src/NanoABTAutonomousConfiguration.c:73-88 | the seven listed protocols have pairwise distinct names |
| `NanoPrinters.NewLineRule` | autoread-1.31.1.36/c/src/NanoABTAutonomousConfiguration.c:54 | `i > 0 && (i & 15) == 0` holds exactly when i > 0 and i mod 16 = 0 |
| `NanoPrinters.LinesKeepBytes` | autoread-1.31.1.36/c/src/NanoABTAutonomousConfiguration.c:52-59 | the dump prints every byte once, in order |
| `NanoPrinters.LinesSizes` | autoread-1.31.1.36/c/src/NanoABTAutonomousConfiguration.c:52-59 | each line holds at most 16 bytes, every line but the last exactly 16, one line per started group of 16 |
| `NanoPrinters.BytePosition` | autoread-1.31.1.36/c/src/NanoABTAutonomousConfiguration.c:52-59 | byte i is printed on line i / 16 in column i mod 16 |
| `NanoConfiguration.ParseArgsRejects` | autoread-1.31.1.36/c/src/NanoABTAutonomousConfiguration.c:127-167 | fewer than two arguments, a non-flag argument, a second mode flag (same or other), or no flag at all each end in usage |
| `NanoConfiguration.ParseArgsAccepts` | autoread-1.31.1.36/c/src/NanoABTAutonomousConfiguration.c:131-167 | arguments are accepted exactly when one mode flag and nothing else follows the URI; the run then uses that URI and mode |
| `NanoConfiguration.UnrecognizedArgumentRejected` | autoread-1.31.1.36/c/src/NanoABTAutonomousConfiguration.c:157-161 | any argument from index 2 on that is not exactly `--enable` or `--disable` makes the program exit through usage |
| `NanoConfiguration.DecidedByFourthArgument` | autoread-1.31.1.36/c/src/NanoABTAutonomousConfiguration.c:131-162 | every rejection happens at index 3 or earlier, so the 8-bit loop counter never wraps |
| `NanoConfiguration.ValidateArguments` | autoread-1.31.1.36/c/src/NanoABTAutonomousConfiguration.c:127-167 | the loop with its `uint8_t` counter computes the same verdict as the argument rules |
| `NanoConfiguration.Execute` | autoread-1.31.1.36/c/src/NanoABTAutonomousConfiguration.c:37-43 | calls are made in plan order, each after exactly the calls before it; the run completes exactly when every call succeeds; otherwise it stops right after the first failing call, every earlier call having succeeded, and reports that call's status |
| `NanoConfiguration.UsageBeforeAnyCall` | autoread-1.31.1.36/c/src/NanoABTAutonomousConfiguration.c:127-171 | rejected arguments end the program with status 1 before any SDK call |
| `NanoConfiguration.FailFast` | autoread-1.31.1.36/c/src/NanoABTAutonomousConfiguration.c:170-285 | a failing run made exactly the planned calls up to the failing one, all earlier calls succeeded, nothing after it ran, and the exit status is 1 |
| `NanoConfiguration.SuccessIffAllCallsSucceed` | autoread-1.31.1.36/c/src/NanoABTAutonomousConfiguration.c:169-343 | exit status 0 exactly when the arguments are accepted and every planned call succeeds; the run then made all of them in order and destroyed the reader |
| `NanoConfiguration.DisableOnlyClears` | autoread-1.31.1.36/c/src/NanoABTAutonomousConfiguration.c:191-199 | in disable mode, the only calls besides create, connect and destroy are the clear-user-config init and set |
| `NanoConfiguration.EnableOrder` | autoread-1.31.1.36/c/src/NanoABTAutonomousConfiguration.c:200-338 | a completed enable run made, in order: create, connect, region NA3, baud rate 115200, read power 2700, BLF 250 kHz, session S0, target A, Miller M8 encoding, on-time 1000, unique-by-data off, the Gen2 read plan on antenna 1, the TID read of 3 words at word 3, the tag op, the autonomous flag, commit, save, restore, receive, then destroy |
| `NanoConfiguration.RestoreOnlyAfterSave` | autoread-1.31.1.36/c/src/NanoABTAutonomousConfiguration.c:265-285 | the restore call happens only in enable mode, after the read plan was committed and saved, both successfully |
| `ReceiveAutonomous.SetTrace` | autoread-1.31.1.36/java/ReceiveAutonomousReading/src/com/thingmagic/ReceiveAutonomousReading.java:26-37 | "on" in any letter case adds and records the listener; another word removes it only if one was recorded; the record is never cleared; an empty array throws |
| `ReceiveAutonomous.LowerIsOn` | autoread-1.31.1.36/java/ReceiveAutonomousReading/src/com/thingmagic/ReceiveAutonomousReading.java:28 | the case-insensitive comparison with "on" accepts exactly on, On, oN and ON |
| `ReceiveAutonomous.RecordNeverCleared` | autoread-1.31.1.36/java/ReceiveAutonomousReading/src/com/thingmagic/ReceiveAutonomousReading.java:26-37 | after any sequence of calls, a listener is recorded exactly when one was before or some call said "on" |
| `ReceiveAutonomous.RemovesAfterOn` | autoread-1.31.1.36/java/ReceiveAutonomousReading/src/com/thingmagic/ReceiveAutonomousReading.java:33-36 | once "on" was said, every later non-"on" call removes the listener again |
| `ReceiveAutonomous.NoArgumentsUsage` | autoread-1.31.1.36/java/ReceiveAutonomousReading/src/com/thingmagic/ReceiveAutonomousReading.java:46-49 | no arguments: usage and exit status 1 |
| `ReceiveAutonomous.LoneTraceFlag` | autoread-1.31.1.36/java/ReceiveAutonomousReading/src/com/thingmagic/ReceiveAutonomousReading.java:50-79 | `-v` alone throws on `argv[1]`; the handler catches it; no usage, no transport call, normal end |
| `ReceiveAutonomous.UriRule` | autoread-1.31.1.36/java/ReceiveAutonomousReading/src/com/thingmagic/ReceiveAutonomousReading.java:50-70 | the run continues exactly when the URI argument starts with "/"; it connects only to that URI; it tries to add the listener exactly when the first argument is `-v` and the transport was created; it connects exactly when creating the transport and, when tracing, adding the listener returned normally, and then `connect` is the first call after the optional listener |
| `ReceiveAutonomous.ExtraArgumentsIgnored` | autoread-1.31.1.36/java/ReceiveAutonomousReading/src/com/thingmagic/ReceiveAutonomousReading.java:55-59 | arguments after the URI do not change the run |
| `ReceiveAutonomous.StreamingOnlyWhenConnected` | autoread-1.31.1.36/java/ReceiveAutonomousReading/src/com/thingmagic/ReceiveAutonomousReading.java:66-70 | streaming starts exactly when connect returned true |
| `ReceiveAutonomous.CaughtExactlyWhenTransportThrew` | autoread-1.31.1.36/java/ReceiveAutonomousReading/src/com/thingmagic/ReceiveAutonomousReading.java:59-79 | once the URI is accepted, a handler runs exactly when one of the transport's calls threw: `new SerialTransport()`, `addTransportListener` (only called when tracing), `connect` or `receiveStreaming`; the program still exits with status 0 |

## Left out

- The reader SDK (`TMR_*` bodies, `TMR_strerr`) and `SerialTransport` (its constructor, `addTransportListener`, `connect`, `receiveStreaming`): foreign code. Their results are parameters:
  - the `Sdk` oracle gives each C call's status;
  - `Transport` says whether the `SerialTransport` constructor throws and whether `addTransportListener` throws;
  - its `ConnectReply` says whether `connect` returned true or false or threw, and whether `receiveStreaming` then returned or threw.
- ReceiveAutonomous.SetTrace: taken on its own, it assumes `addTransportListener` and `removeTransportListener` return normally. A throwing `addTransportListener` is modelled only where `main` calls `setTrace`, through `Transport`.
- The numeric values of `TMR_TagProtocol` and `TMR_Status` are in SDK headers that are not part of this model. `Unlisted` stands for every protocol the sample does not name. `TmrError` carries any status other than `TMR_SUCCESS` (0).
- Messages and exit: `errx`, `vfprintf`, `printf` progress lines, `exit` and `System.exit`. Outcomes are values with an exit status.
- `TMR_destroy`: its status is not checked. It appears as the last call of a finished run and is never asked for a status.
- `TMR_TRD_init` in the non-threaded branch: its status is not checked and it has no effect the model can see.
- Code switched off or chosen at compile time:
  - the `#if 0` statistics block;
  - `USE_TRANSPORT_LISTENER`;
  - the `TMR_ENABLE_BACKGROUND_READS` branch (listeners, `sleep`, listener removal).
  The non-threaded branch's checked `TMR_receiveAutonomousReading` call is the last enable step.
- `callback`, `statsCallback`, `stringPrinter`: listener callbacks run by the SDK's background reads.
- `serialPrinter`'s characters ("Sending: ", `%02x`, the indentation): printing. Only its line layout is modelled.
- The `com.thingmagic.TagData` base class, which stores or parses the EPC and CRC: not part of this model. String parsing is a function parameter.
- Gen2.FromEpcBytes (and the other four constructors): always builds a tag. The base-class constructor reached through `super`, which is not part of this model, is where `checkLen` would be called, so the model does not link `checkLen` to construction. It also assumes the base class's string parsing does not throw. `CheckLen` is modelled on its own.
- `getProtocol`, `toString`, `epcString`, the `TagReadData` getters and `Q.toString`: each only returns a constant, a field or text.
- Null arguments raise `NullPointerException` in Java. These are: the null `LinkFrequency` passed to `get`; null arguments to `setTrace`; a null `newPC` cloned by the explicit-PC constructors; and a null `bEPC`, `sEPC` or `sCrc` passed to the `Gen2.TagData` constructors. Datatype values and Dafny arrays cannot be null.
- `TMR_hexToBytes` and `TMR_bytesToHex` bodies: not part of this model. Only their documentation is modelled. Letter case of produced digits, the returned `TMR_Status`, malformed input and a too small buffer are left unconstrained, as the documentation leaves them.
- HexConversion.DocumentedValues: proves the four short documented test values but not the 248-digit one; the longer one follows the same rule and only costs proof unrolling.
- `TMR_TagReadData` fields other than the timestamp halves, metadata flags and tag (RSSI, frequency, phase, GPIO, memory-bank lists): raw hardware readings with no logic here.
- ReceiveAutonomous.LowerIsOn: folds only ASCII letters. Java's `toLowerCase` is locale-aware Unicode folding, and no other character lowers to 'o' or 'n' there.
- Concurrency: the SDK's background-read threads.
