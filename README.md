# LED panel controller: render step, OPC server factory and virtual SPI device

This project models the core of a controller for SK9822 LED panels. Each
panel is driven over an SPI channel, or through an Open Pixel Control (OPC)
client.

A render step is built by a factory (`driverFactory`, `opcDriverFactory`).
The factory copies a configuration into one context object. It returns a
closure that runs a list of stages over that same context on every call,
left to right (lodash `flow`). The model covers these stages:

- `singleRainbow` advances a hue stored in the context and fills `colours`.
- `coloursToAllChannels` and `coloursToChannels(targets)` build the channel
  table `channelColours`.
- `colourRateLogger` counts frames and reports the frame rate.
- `ledDriver` sends each channel's encoded colours to its SPI device.
- `opcClientDriver` writes one OPC message per channel to a client.

The OPC server factory gives its port and panel count defaults. Its datagram
handler decodes the 4-byte OPC header and checks the channel against the
panel count.

The Python virtual SPI device (`virtual_spi.py`) has two parts:

- It builds Linux ioctl command numbers from direction, type, number and
  size fields, including the `SPI_IOC_MESSAGE(n)` commands.
- It serves an in-memory filesystem: attribute table, contents table and
  handle counter. Its `ioctl` answers the one- and two-transfer message
  commands.

Structure:

- `prelude.dfy`: JavaScript truthiness, the truncating `%`, and the
  ascending order `Object.keys` gives integer keys.
- `context.dfy`: the context as a value (`Fields`) and as an object
  (`RenderContext`). It also holds the effects a stage produces (SPI
  transfers, client writes, console lines) and the environment `Env`.
- `util.dfy`, `middleware.dfy`, `driver_factory.dfy`, `opc_server.dfy`: the
  JavaScript core. Each stage is a module-level method that takes the
  `RenderContext` and modifies it in place. It is proved equal to a function
  on `Fields`, and the properties are lemmas about those functions.
- `bits.dfy`, `ioctl.dfy`: Python's unbounded `<<`, `>>`, `|` and `&`, and
  the ioctl layout built on them.
- `virtual_spi.dfy`: the filesystem as a class `VirtualSpiFs`. Each method
  is proved equal to a function on the state value `FsState`.

Code the model does not contain is passed in through `Env`: colorsys
`hsvToRgb`, `colours2sk9822`, `composeOPCMessage`, the outcome an SPI device
reports for a transfer, and the clock. A thrown JavaScript exception and a
Python `KeyError` are modelled as results. Updates made before the throw or
raise are kept, as in the source.

Points where the code's behaviour is easy to misread:

- The OPC channel check is `header.channel > max_panels`, so a channel equal
  to the panel count is accepted. In Open Pixel Control, channel 0 is the
  broadcast channel and outputs are numbered from 1, so channels 0 to
  `max_panels` are the ones accepted.
- A datagram shorter than 4 bytes is not rejected. The fields past its end
  read as null. The channel check and the `spidevs` check still run, and a
  null channel compares as 0.
- The reported rate is the frame count before this call divided by
  `now - start + 1`.
- A transfer whose completion reports an error is only logged. A channel
  with no device makes `ledDriver` throw, so the channels after it in key
  order are not written.

## Model

| member | source | states |
|---|---|---|
| `Prelude.JsRem` | src/drivers/middleware.js:10 | JavaScript `%` for a positive divisor: the remainder is below the divisor in magnitude, has the dividend's sign (0 allowed), and is Dafny's `%` or that less the divisor; together these fix its value, e.g. −1 for `-1 % 360` |
| `Prelude.OrderedKeys` | src/drivers/driverFactory.js:22 | `Object.keys` of an integer-keyed object lists every key exactly once, in strictly ascending order |
| `Prelude.IncreasingUnique` | src/drivers/driverFactory.js:22 | two strictly ascending sequences with the same elements are equal, so the key order is unique |
| `Context.RenderContext.constructor` | src/drivers/driverFactory.js:53 | `{ ...driverConfig }`: the new context holds exactly the configured fields |
| `Util.ColourToStringRoundTrip` | src/util/index.js:11-19 | for components 0..999 (every byte colour) the `{R:%03d G:%03d B:%03d}` string is 19 characters and parses back to the same colour, so distinct colours print differently |
| `Util.ZeroPad3` | src/util/index.js:11 | sprintf's `%03d`: the result is never shorter than three characters; `ZeroPad3Digits` states that it is exactly the three digits of `n` for `n` in 0..999 |
| `Util.ColourToString` | src/util/index.js:11-19 | `colourToString`: the rendering is never shorter than 19 characters; `ColourToStringRoundTrip` states that it is exactly 19 and reads back for every byte colour |
| `Util.ZeroPad3Digits` | src/util/index.js:11 | `%03d` of a value 0..999 is exactly three digits that denote that value |
| `Util.DigitsValueOfDigits` | src/util/index.js:11 | the decimal numeral of `n` denotes `n` |
| `Util.ConsoleErrorHandler` | src/util/index.js:54-56 | one console error line, carrying the error, exactly when the error is truthy; nothing otherwise |
| `Util.SomeColour` | src/util/index.js:42-46 | the colour reported is the first colour of the lowest channel; it exists exactly when the table is defined and non-empty and that channel's list is non-empty. An undefined or empty table makes the expression throw; an empty first list gives `undefined`, and `colourToString` then throws |
| `Util.RateLogger` | src/util/index.js:37-52 | frames always advance by one; with no report nothing else changes; a report sets rate so that rate × (now − start + 1) equals the old frame count, emits one report of the first colour and that rate, and sets `lastPrint` to now; with no colour it throws after updating rate, keeping `lastPrint` |
| `Util.ReportsSpaced` | src/util/index.js:40-49 | after a report at `t1` the next report happens exactly when more than one second has passed |
| `Util.RateLoggerCalls` | src/util/index.js:39 | after `k` calls the frame counter has advanced by exactly `k` and `start` is unchanged |
| `Util.ColourRateLogger` | src/util/index.js:37-52 | the in-place logger leaves the context and returns the effects and throw status that `RateLogger` gives for the old context |
| `Middleware.NextHue` | src/drivers/middleware.js:10 | for a hue at least −1 the next hue is in `0..359` and is `(h + 1) mod 360` |
| `Middleware.SingleRainbowSpec` | src/drivers/middleware.js:7-15 | singleRainbow on the context value: a hue is always stored afterwards, `colours` has `numLeds` (default 360) entries, and every entry is the converted colour of the stored hue |
| `Middleware.SingleRainbowEffect` | src/drivers/middleware.js:7-15 | the stored hue advances by one modulo 360 with saturation and value kept (defaults 360/100/10); `colours` becomes `numLeds` (default 360) copies of the converted colour; no other field changes |
| `Middleware.SingleRainbowFirstHue` | src/drivers/middleware.js:8-10 | with no stored `hsv` the first step stores hue 1, saturation 100, value 10 |
| `Middleware.RainbowsHue` | src/drivers/middleware.js:8-11 | because the hue is stored back, after `k ≥ 1` steps from no `hsv` the hue is `k mod 360` |
| `Middleware.SingleRainbow` | src/drivers/middleware.js:7-15 | the in-place stage leaves the context that the value model gives |
| `Middleware.ColoursToAllChannelsSpec` | src/drivers/middleware.js:21-28 | coloursToAllChannels on the context value: no effects; it throws exactly when `spidevs` is undefined and then leaves the context as it was; otherwise the table's keys are exactly the device indices |
| `Middleware.ColoursToChannelsSpec` | src/drivers/middleware.js:34-43 | coloursToChannels on the context value: the table's keys are exactly the targets, each mapped to `colours` |
| `Middleware.FanOut` | src/drivers/middleware.js:23-26 | the table has exactly the keys `0..n-1`, each mapped to the colours |
| `Middleware.Targeted` | src/drivers/middleware.js:37-40 | the table has exactly the listed targets as keys, each mapped to the colours |
| `Middleware.ColoursToAllChannelsReplaces` | src/drivers/middleware.js:21-28 | throws exactly when `spidevs` is undefined and then changes nothing; otherwise the new table ignores the old one, has one key per device index, and no other field changes |
| `Middleware.ColoursToChannelsReplaces` | src/drivers/middleware.js:34-43 | the new table ignores the old one, has exactly the distinct targets as keys, and no other field changes |
| `Middleware.ColoursToAllChannels` | src/drivers/middleware.js:21-28 | the reduce loop over `spidevs` leaves the context and throw status that the value model gives |
| `Middleware.ColoursToChannels` | src/drivers/middleware.js:34-43 | the reduce loop over the targets leaves the context that the value model gives |
| `DriverFactory.LedChannel` | src/drivers/driverFactory.js:23-25 | one channel's iteration: a transfer for that channel comes first, followed by at most one error line |
| `DriverFactory.LedTrace` | src/drivers/driverFactory.js:22-26 | the effects of the `forEach` over the given keys, in order; its properties are `LedTraceChannels`, `LedTraceErrors` and `LedTraceTransfers` |
| `DriverFactory.LedChannelFacts` | src/drivers/driverFactory.js:23-25 | one channel's iteration makes exactly one transfer to that channel, and one error line exactly when its completion reports an error |
| `DriverFactory.LedChannelTransfer` | src/drivers/driverFactory.js:23-25 | that transfer goes to the channel's device with the encoded colours and the buffer's own length |
| `DriverFactory.LedTraceChannels` | src/drivers/driverFactory.js:22-26 | the loop transfers to exactly the keys it visits, once each, in order |
| `DriverFactory.LedTraceErrors` | src/drivers/driverFactory.js:25 | the number of error lines equals the number of transfers whose completion reports an error |
| `DriverFactory.LedTraceTransfers` | src/drivers/driverFactory.js:22-26 | every transfer is for a visited key, to its device, carrying its encoded colours and their length |
| `DriverFactory.Reached` | src/drivers/driverFactory.js:22-25 | the loop gets past exactly the keys before the first one with no device |
| `DriverFactory.LedDriverSpec` | src/drivers/driverFactory.js:20-28 | `ledDriver` returns the context it was given, unchanged |
| `DriverFactory.LedDriverNoTable` | src/drivers/driverFactory.js:21-22 | an undefined `channelColours` throws before any transfer |
| `DriverFactory.LedDriverOutcome` | src/drivers/driverFactory.js:20-28 | throws exactly when some table key has no device; otherwise every key is transferred once, in ascending order; when it throws, the keys below the first key with no device were transferred, and no others |
| `DriverFactory.LedDriverErrors` | src/drivers/driverFactory.js:25 | with clean completions (a loopback device) nothing is logged; when every completion fails there is one error line per channel |
| `DriverFactory.FailingCount` | src/drivers/driverFactory.js:25 | the failing-transfer count is 0 when every completion is clean and equals the key count when every completion fails |
| `DriverFactory.LedDriverStage` | src/drivers/driverFactory.js:20-28 | the in-place driver's effects and throw status are those of `LedDriverSpec`, and the context is not written |
| `DriverFactory.TransferEach` | src/drivers/driverFactory.js:22-26 | the `forEach` loop stops at the first key with no device, and its effects are exactly the transfers and error lines for the keys before it |
| `DriverFactory.OpcWrites` | src/drivers/driverFactory.js:36-40 | one client write per key, in key order, each holding the OPC message composed from that key and its colours |
| `DriverFactory.OpcClientDriverSpec` | src/drivers/driverFactory.js:34-42 | returns the context unchanged; throws exactly when `channelColours` is undefined, with no writes; otherwise one write per channel |
| `DriverFactory.OpcClientDriverStage` | src/drivers/driverFactory.js:34-42 | the in-place driver's writes and throw status are those of `OpcClientDriverSpec` |
| `DriverFactory.OpcClientDriverWrites` | src/drivers/driverFactory.js:36-40 | the writes go in ascending channel order, one per channel, each composed from that channel and its colours |
| `DriverFactory.Apply` | src/drivers/driverFactory.js:56-59 | one stage on the context value; no stage changes `start` |
| `DriverFactory.Flow` | src/drivers/driverFactory.js:56-59 | the effects so far are a prefix of the flow's effects; a run that has already thrown is returned as it is |
| `DriverFactory.FlowAppend` | src/drivers/driverFactory.js:56-59 | flowing through `a + b` is flowing through `a` and then through `b` |
| `DriverFactory.FlowLast` | src/drivers/driverFactory.js:56-59 | the driver appended after the middleware runs once, last, on the middleware's output, unless a middleware stage threw |
| `DriverFactory.FlowOrderMatters` | src/drivers/driverFactory.js:56-59 | rainbow-then-fan-out fans out the new colours; fan-out-then-rainbow fans out the old ones |
| `DriverFactory.FlowPair` | src/drivers/driverFactory.js:56-59 | a two-stage flow runs the second stage on the first one's output, unless the first one threw |
| `DriverFactory.TargetedTransfers` | src/drivers/driverFactory.js:56-59 | `coloursToChannels(targets)` then `ledDriver` transfers to the distinct targets once each, in ascending order, whatever the order and repetitions of the list |
| `DriverFactory.TargetedTransfersExample` | src/drivers/driverFactory.js:56-59 | targets `[3, 1]` give transfers to channel 1 and then channel 3, and to no other channel |
| `DriverFactory.TargetedWrites` | src/drivers/driverFactory.js:56-59 | `coloursToChannels(targets)` then `opcClientDriver` writes exactly one message per distinct target |
| `DriverFactory.RainbowStep` | src/drivers/driverFactory.js:55-60 | a rainbow / fan-out / OPC step does not throw and stores the advanced hue |
| `DriverFactory.RainbowAcrossSteps` | src/drivers/driverFactory.js:53-60 | the context persists between calls: two steps from no `hsv` store hue 1 and then hue 2 |
| `DriverFactory.RunStage` | src/drivers/driverFactory.js:56-59 | each in-place stage does to the context what its value model does |
| `DriverFactory.RenderLoop.constructor` | src/drivers/driverFactory.js:53-55 | the closure holds a fresh context equal to the configuration and the stage list |
| `DriverFactory.RenderLoop.Step` | src/drivers/driverFactory.js:55-60 | one call leaves the context, effects and throw status that flowing the stages over the previous context gives |
| `DriverFactory.Factory` | src/drivers/driverFactory.js:52-61 | the stages are the middleware followed by the driver (`ledDriver` by default), over a fresh copy of the configuration |
| `DriverFactory.RainbowTwice` | src/drivers/driverFactory.js:52-61 | a factory-built rainbow loop called twice stores hue 1 and then hue 2 in its one context |
| `OpcServer.OrDefault` | src/drivers/opcServer.js:101-103 | the or-default of a setting: a missing or zero setting gives the default, and any other value is kept |
| `OpcServer.OpcContext` | src/drivers/opcServer.js:96-114 | the context opcDriverFactory builds: port and panel count are always defined and never 0, the frame counter is 0, and both timestamps are the build time |
| `OpcServer.OpcContextDefaults` | src/drivers/opcServer.js:96-114 | port and panel count are the configured values when truthy and 42069 / 4 otherwise, never 0; counters start at 0, brightness at 1, both timestamps at `now`; every other field is copied |
| `OpcServer.OpcContextStable` | src/drivers/opcServer.js:101-103 | rebuilding from a built context keeps its port and panel count |
| `OpcServer.OpcContextFirstReport` | src/drivers/opcServer.js:109-111 | with both timestamps at build time, the rate logger first reports more than one second later |
| `OpcServer.OpcDriverFactory` | src/drivers/opcServer.js:96-121 | a fresh context built with the defaults, and a step running only the middleware |
| `OpcServer.DecodeHeader` | src/drivers/opcServer.js:53-57 | the channel is present exactly when the datagram has 1 byte or more, the command with 2 or more, the length with 4 or more; the length is below 65536 |
| `OpcServer.DecodeEncodeHeader` | src/drivers/opcServer.js:53-57 | decoding an encoded header (channel, command, big-endian 16-bit length) gives it back, whatever payload follows |
| `OpcServer.EncodeDecodeHeader` | src/drivers/opcServer.js:53-57 | the first four bytes of a datagram are the encoding of the header decoded from them |
| `OpcServer.HandleMessage` | src/drivers/opcServer.js:50-66 | at most two report lines; an invalid-channel line always carries the decoded channel and the captured panel count |
| `OpcServer.ChannelFlagged` | src/drivers/opcServer.js:59 | `header.channel > max_panels`: an undefined bound flags nothing, and for a bound of at least 0 neither a null channel nor the broadcast channel 0 is flagged |
| `OpcServer.ChannelCheck` | src/drivers/opcServer.js:59-65 | a datagram is flagged exactly when its first byte exceeds the panel count (equal passes); the spidevs line appears exactly when `spidevs` is defined |
| `OpcServer.DefaultChannelBound` | src/drivers/opcServer.js:59-61 | with the default of four panels, channels 0–4 pass and channels from 5 up are flagged |
| `Bits.Shl` | virtual_spi.py:47-51 | `a << n`: shifting the result back right by `n` gives `a`, so no bits are lost |
| `Bits.Shr` | virtual_spi.py:22-25 | `a >> n`: the result is never larger than `a`; `ShrDiv` states its value |
| `Bits.Or` | virtual_spi.py:47-51 | Python's bitwise or on naturals, bit by bit; its properties are `OrSplit` and `Disjoint` |
| `Bits.And` | virtual_spi.py:169 | Python's bitwise and on naturals, bit by bit; its properties are `AndSplit` and `AndLowMask` |
| `Bits.OrSplit` | virtual_spi.py:48-51 | bitwise or acts independently on the bits above and below a split point |
| `Bits.AndSplit` | virtual_spi.py:169 | bitwise and acts independently on the bits above and below a split point |
| `Bits.Disjoint` | virtual_spi.py:48-51 | the bitwise or of two non-overlapping fields is their sum |
| `Bits.AndLowMask` | virtual_spi.py:22-25 | `x & ((1 << n) - 1)` is `x mod 2^n` |
| `Bits.ShrDiv` | virtual_spi.py:22-30 | `x >> n` is `x` divided by `2^n` |
| `Ioctl.Ioc` | virtual_spi.py:47-51 | `_ioc`: the or of the four shifted fields; `IocLayout`, `IocFieldsRoundTrip` and `IocFieldsComplete` state its layout and inverse |
| `Ioctl.IocLayout` | virtual_spi.py:47-51 | when every field fits its slot, `_ioc` is the sum of the fields at bits 0, 8, 16 and 30, and the result fits in 32 bits |
| `Ioctl.IocFieldsRoundTrip` | virtual_spi.py:16-51 | reading the number, type, size and direction back from `_ioc` of fields that fit gives those fields |
| `Ioctl.IocFieldsComplete` | virtual_spi.py:16-51 | every 32-bit number is `_ioc` of its own four fields, each within its slot |
| `Ioctl.Io` | virtual_spi.py:59-60 | `_io`: `_ioc` with direction none and size 0; stated by `WrapperDirections` |
| `Ioctl.Ior` | virtual_spi.py:62-63 | `_ior`: `_ioc` with direction read and the type's size; stated by `WrapperDirections` |
| `Ioctl.Iow` | virtual_spi.py:65-66 | `_iow`: `_ioc` with direction write and the type's size; stated by `WrapperDirections` |
| `Ioctl.Iowr` | virtual_spi.py:68-69 | `_iowr`: `_ioc` with both directions and the type's size; stated by `WrapperDirections` |
| `Ioctl.WrapperDirections` | virtual_spi.py:59-69 | `_io`, `_ior`, `_iow` and `_iowr` encode direction 0, 2, 1 and 3; `_io` has size 0; the others carry the type's size |
| `Ioctl.SpiMsgSize` | virtual_spi.py:123-127 | the size always fits the 14-bit slot and is either 0 or `num` transfer structs |
| `Ioctl.SpiMsgSizeBound` | virtual_spi.py:123-127 | up to 511 transfers the size is 32 × num; from 512 on it is 0 |
| `Ioctl.SpiIocMessage` | virtual_spi.py:129-130 | `spi_ioc_message(num)`: a write command of type `k`, number 0, sized for `num` transfers; `SpiIocMessageCounts` and `SpiCommandValues` state its values |
| `Ioctl.SpiIocMessageCounts` | virtual_spi.py:129-130 | different counts below 512 give different commands; every count from 512 on gives the command for 0 transfers |
| `Ioctl.SpiCommandValues` | virtual_spi.py:133-151 | `SPI_IOC_MESSAGE(1)` = 0x40206B00, `(2)` = 0x40406B00, and the mode, LSB-first, bits-per-word and max-speed commands have the kernel's values |
| `Ioctl.IoctlResult` | virtual_spi.py:284-305 | the return code is always 0, 1 or 2 |
| `Ioctl.IoctlSettings` | virtual_spi.py:284-305 | all eight mode, bit-order, word-length and speed commands are only logged and return 0 |
| `Ioctl.IoctlMessages` | virtual_spi.py:284-305 | a message of 1 or 2 transfers returns its count; 3 to 511 transfers, and all eight mode, bit-order, word-length and speed commands, return 0 |
| `VirtualSpi.InitialState` | virtual_spi.py:160-166 | a new filesystem holds only the root entry, no contents, and handle counter 0 |
| `VirtualSpi.PyPrefix` | virtual_spi.py:265 | `b[:n]` is a prefix of `b` of length `min(n, len)` for `n ≥ 0`, and `max(0, len + n)` for negative `n` |
| `VirtualSpi.ChmodMode` | virtual_spi.py:169-170 | for a permission mode below 0o10000, masking with 0o770000 and or-ing in `mode` keeps bits 12–17 of `m` and puts `mode` below them |
| `VirtualSpi.ChmodSpec` | virtual_spi.py:168-171 | chmod on the state value: KeyError exactly on a missing path, with nothing changed; every other entry, the contents and the handle counter are kept |
| `VirtualSpi.CreateSpec` | virtual_spi.py:177-183 | create on the state value: the path is added or replaced, every other entry and the contents are kept, and the returned handle is the new counter, one above the old |
| `VirtualSpi.OpenSpec` | virtual_spi.py:220-222 | open on the state value: returns the new counter, one above the old, and changes nothing else |
| `VirtualSpi.MkdirSpec` | virtual_spi.py:213-218 | mkdir on the state value: the path is added; KeyError exactly when there is no root entry and the path is not the root; on success the root gains one link; entries other than the path and the root, the contents and the counter are kept |
| `VirtualSpi.RmdirSpec` | virtual_spi.py:246-248 | rmdir on the state value: KeyError exactly when the path or the root entry is missing, or the path is the root; on success the table is the old one without the path and with the root's link count one lower; the contents and the counter are kept |
| `VirtualSpi.RenameSpec` | virtual_spi.py:243-244 | rename on the state value: KeyError exactly on a missing source, with nothing changed; on success the table is the old one without the source name and with the destination holding the source's attributes; the contents stay put |
| `VirtualSpi.TruncateSpec` | virtual_spi.py:264-266 | truncate on the state value: the new contents are a prefix of the old ones, stored even when the entry is missing; KeyError exactly on a missing entry; every other entry and other path's contents are kept |
| `VirtualSpi.WriteSpec` | virtual_spi.py:279-282 | write on the state value: the new contents end with the bytes written and are stored even when the entry is missing; KeyError exactly on a missing entry; every other entry and other path's contents are kept |
| `VirtualSpi.ChmodKeepsType` | virtual_spi.py:168-171 | chmod keeps the file-type bits and replaces the permission bits, so the second of two chmods wins |
| `VirtualSpi.NewEntryModes` | virtual_spi.py:177-216 | create gives mode `S_IFREG + mode`; mkdir gives `S_IFDIR + mode` |
| `VirtualSpi.HandlesIncrease` | virtual_spi.py:220-222 | successive handles are the counter plus 1, 2, 3, …, and the counter ends at the last one |
| `VirtualSpi.CreateTakesHandle` | virtual_spi.py:177-183 | create hands out the next handle exactly as open does |
| `VirtualSpi.MkdirRmdir` | virtual_spi.py:213-248 | mkdir adds one root link; rmdir of the new directory restores the attribute table exactly |
| `VirtualSpi.RenameBack` | virtual_spi.py:243-244 | renaming to a free name and back restores the table, and contents never move |
| `VirtualSpi.WriteContents` | virtual_spi.py:279-282 | after a write, the contents are the kept prefix followed by exactly the bytes written; the size is the new length; the byte count is returned |
| `VirtualSpi.TruncateUndoesWrite` | virtual_spi.py:264-282 | truncating to the offset of a write within the contents removes what it wrote |
| `VirtualSpi.TruncateSize` | virtual_spi.py:264-266 | truncate records the requested length as the size, which matches the contents exactly when the length is between 0 and the old length |
| `VirtualSpi.MissingEntry` | virtual_spi.py:168-282 | on a missing entry chmod, rename and rmdir raise KeyError and change nothing; write raises after storing the new contents, leaving the attributes |
| `VirtualSpi.VirtualSpiFs.constructor` | virtual_spi.py:160-166 | a new device object is in the initial state |
| `VirtualSpi.VirtualSpiFs.Chmod` | virtual_spi.py:168-171 | the object's new state and status are those of the chmod model |
| `VirtualSpi.VirtualSpiFs.Create` | virtual_spi.py:177-183 | the object's new state and handle are those of the create model |
| `VirtualSpi.VirtualSpiFs.Open` | virtual_spi.py:220-222 | only the handle counter advances, and the new handle is returned |
| `VirtualSpi.VirtualSpiFs.Mkdir` | virtual_spi.py:213-218 | the object's new state and status are those of the mkdir model |
| `VirtualSpi.VirtualSpiFs.Rmdir` | virtual_spi.py:246-248 | the object's new state and status are those of the rmdir model |
| `VirtualSpi.VirtualSpiFs.Rename` | virtual_spi.py:243-244 | the object's new state and status are those of the rename model |
| `VirtualSpi.VirtualSpiFs.Truncate` | virtual_spi.py:264-266 | the object's new state and status are those of the truncate model |
| `VirtualSpi.VirtualSpiFs.Write` | virtual_spi.py:279-282 | the object's new state, status and byte count are those of the write model |
| `VirtualSpi.VirtualSpiFs.Ioctl` | virtual_spi.py:284-305 | the return code is nonzero exactly for the one- and two-transfer message commands |

## Left out

- The network setup is left out: the TCP server, the unused UDP socket setup, the OPC client connection, `main.js` and `client.js`. They only open sockets and log. The UDP datagram handler is modelled on its own, since `opcUDPServerSetup` is never called.
- Console output is modelled only as effects: `chalk` colouring, `coloursToString`, `toFixed(2)` and the `console.log` lines of the server and handler are left out.
- The clock is read once per step (`Env.now`); the source calls `now()` afresh at each use. The clock is second-granular in the source.
- `hsvToRgb`, `colours2sk9822`, `composeOPCMessage` and the SPI completion callback are parameters: their code is not part of this model.
- Configuration fields that the stages read (`colours`, `frames`, `start`, `client`, the SPI objects) are assumed present. A `spidevs` that is neither an array nor undefined is not modelled.
- Channel keys are natural numbers. JavaScript object keys are strings, and only the numeric order of integer-like keys is modelled.
- The stages are a closed set (`Stage`), not arbitrary functions.
- The default `hsv` object is stored into the context and later mutated in place. This aliasing is modelled by storing the value back.
- `{ ...driverConfig }` is a shallow copy. A configured `hsv` object is shared with the caller's configuration, so `hsv.h = …` also changes the caller's object. The model copies values, so that change to the caller's configuration is not captured.
- The OPC header reads past the end of a short datagram as null. This follows how node-binary treats a missing field; its code is not part of this model.
- The header parse assumes that `.vars()` returns the parsed fields. In node-binary `vars` may be a property rather than a method, in which case the call would throw; the library's code is not part of this model.
- `Util.RateLogger`: requires `start <= now`. The source divides by `now - start + 1` for any clock reading and would produce `Infinity` or a negative rate on a clock that runs backwards.
- `Util.ColourRateLogger`: carries the same `start <= now` requirement.
- `DriverFactory.Flow`: carries the same `start <= now` requirement, because a flow may contain the rate logger.
- `DriverFactory.RenderLoop.Step`: carries the same `start <= now` requirement.
- `DriverFactory.Apply`: carries the same `start <= now` requirement, because the stage may be the rate logger.
- `DriverFactory.RunStage`: carries the same `start <= now` requirement.
- `DriverFactory.FlowPair`: carries the same `start <= now` requirement.
- `Middleware.SingleRainbowEffect`: states the hue for stored hues of −1 or more. `NextHue` models negative hues with the truncating `%`, but no lemma describes them.
- `Ioctl.SpiMsgSize`: takes a non-negative count. Python would also accept a negative count and produce a negative size.
- `ctypes.sizeof` is replaced by the fixed sizes of the C types on a 64-bit Linux ABI: 1, 4, `n`, and 32 for `struct spi_ioc_transfer`. The `_ior_bad`, `_iow_bad` and `_iowr_bad` wrappers are left out: they call an undefined `sizeof`.
- `VirtualSpi.VirtualSpiFs.Ioctl`: the `arg`, `fh`, `flags` and `data` parameters and the logging are left out. Only the return code is modelled.
- Of the filesystem, only write, truncate, chmod, create, open, mkdir, rmdir, rename and ioctl are modelled. Left out:
  - extended attributes, getattr, read, readdir, readlink, statfs, symlink, unlink, utimens and chown;
  - timestamps;
  - the FUSE mount;
  - the `LoggingMixIn`.
