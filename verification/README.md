# Keyboard-to-sound-module layering core, in Dafny

This project models the two pieces of sequential logic in the keyboard-to-sound-module router:

- **The note-layering receiver** (`AMidiFXReceiver` in `KeyboardToSoundModule.java`).
  `routeMessage` forwards every incoming MIDI message unchanged, except note on/off.
  A note goes to `layerMessages`, which fans it out from the receiver's 23-byte layer table `channelOutStruct`.
  First comes one "origin" event, on channel `table[2] - 1` with the note raised by 4.
  Then a scan emits one event per valid channel read from the even indices 4, 4, 6, 8, ….
  The `isSystemExclusiveData` flag is read by routing and written only by the display path.
- **The preset layer** (`MidiLayer.java`).
  `parseChannelOut` packs a preset index, an input channel and a one-byte-per-channel descriptor into a 23-byte table.
  Byte 0 is the preset, byte 1 the input channel, then (module, channel) pairs at indices 2+2k and 3+2k.
  The constructors parse, the setters store one field each, and `getChannelOut` returns the table.

The two tables have different layouts, and the router's table is a literal never filled from `MidiLayer`.
Each is modelled against its own layout.

Files and modules:

- `wrappers.dfy`, module `Wrappers`: `Option` and `Result`.
- `java_bytes.dfy`, module `JavaBytes`: Java's signed `byte`, the `(byte)` cast and `& 0xff`.
- `midi_messages.dfy`, module `MidiMessages`: `MidiMessage` as its bytes, `getStatus`, and the status nibbles.
  `ShortMessage.setMessage` is modelled as a validity check.
  Also the receiver helpers `byteToInt`, `bytesToInt` and `midiChannelToInt`.
- `router.dfy`, module `Router`: the pure models `RouteMessage` and `LayeredEvents`, and their properties.
  It also holds the methods `ScanLayers` and `LayerMessages`.
  These follow the Java loop (`idx`, `offsetidx`, `break`, the early `return`s) and are proved to send exactly what `LayeredEvents` says.
- `receiver.dfy`, module `SysexReceiver`: the receiver as a state machine over calls of `send` and `displayMessage`.
  A run of calls is `RunWith` of the one-call `Step`; the laws that hold for any step function are proved once for `RunWith`.
- `preset.dfy`, module `Preset`: the reference `ChannelOutTable` and the method `ParseChannelOut`, proved equal.
  `ParseSlot` is one pass of its loop body.
  Also the lemmas about the parse, the `MidiLayer` record, its constructors, setters and `getChannelOut`.

Modelling choices:

- A Java `byte` is an `int` in -128..127.
  `(byte) x` keeps the low eight bits, read as signed; `b & 0xff` reads them as unsigned.
- The router's table length is a parameter: any table longer than 4, because indices 2 and 4 are read unconditionally.
  So the loop's `offsetidx > length - 1` break is modelled.
  For the program's 23-byte table it is never taken (`Router.ScanIndicesOfFullTable`).
  The receiver's table has the type `LayerTable`, the tables longer than 4.
- The downstream `Receiver` is the list of `Output`s sent, in order.
  `Forward` is the original message object passed through; `Layer` is a `ShortMessage` built by `layerMessages`.
  Timestamps are passed through and never computed on.
- A throw from `setMessage` (`InvalidMidiDataException`) is `None`. It ends `layerMessages`, and events already sent stand.
  An `ArrayIndexOutOfBoundsException` in `parseChannelOut` is `Thrown`, with the array it hit, the index, and the table as it was at the throw.
  That exception escapes the constructor, so the constructor's result is `Failure`.

Behaviour of the code worth noting:

- A note is layered when its length is odd and at least 3, not only when it is exactly 3.
- Routing never changes `isSystemExclusiveData`. Status 0xF0 is forwarded like any other non-note message.
  Only `displaySystemMessage` sets the flag (0xF0) or clears it (0xF7).
  `displayMessage` returns early while the flag is set, so the clear is unreachable, and a set flag stays set.
  In the program `send` never calls `displayMessage`, so the flag stays `false`.
- The origin layer is table index 2. The scan reads index 4 before the loop and again in the first iteration, so that slot is sent twice.
  Both "0" and "out of 1..16" end the scan the same way.
- The parser does not reject anything.
  Every non-separator byte is stored as `(byte)(c - 48)`, so ',' is stored as -4.
  A single '|' is skipped and the next byte is consumed whatever it is.
  An 11th channel, or a trailing '|', throws `ArrayIndexOutOfBoundsException`.
  Digits encode only 0..9. The values 10..16 are stored only for the bytes ':' .. '@'.
  The default constructor's descriptor overruns the table, so that constructor always throws.

## Model

| member | source | states |
|---|---|---|
| JavaBytes.LowByte | src/com/company/MidiLayer.java:99-100 | `x & 0xFF` is in 0..255 and agrees with `x` modulo 256 |
| JavaBytes.ToByte | src/com/company/MidiLayer.java:111-112 | `(byte) x` is the unique signed byte congruent to `x` modulo 256; in-range values are kept |
| JavaBytes.ByteToInt | src/com/company/KeyboardToSoundModule.java:612-614 | `byteToInt` gives 0..255, congruent to the byte modulo 256, and is the identity on non-negative bytes |
| JavaBytes.ByteToIntRoundTrip | src/com/company/KeyboardToSoundModule.java:612-614 | casting `byteToInt(b)` back to `byte` gives `b` |
| JavaBytes.MaskThenCast | src/com/company/MidiLayer.java:99-100 | masking with 0xFF before the cast changes nothing, and unmasking the cast gives the mask |
| MidiMessages.Status | src/com/company/KeyboardToSoundModule.java:260 | the status is in 0..255: the first byte read as unsigned, or 0 for an empty message |
| MidiMessages.Command | src/com/company/KeyboardToSoundModule.java:272 | `status & 0xf0` is the multiple of 16 just at or below the status |
| MidiMessages.ChannelNibble | src/com/company/KeyboardToSoundModule.java:306 | `status & 0x0f` is in 0..15 and adds to the command nibble to give the status |
| MidiMessages.BytesToInt | src/com/company/KeyboardToSoundModule.java:617-619 | for 7-bit data bytes, the joined value is below 16384 and splits back into msb (`/ 128`) and lsb (`% 128`) |
| MidiMessages.MidiChannelToInt | src/com/company/KeyboardToSoundModule.java:621-623 | the 1-based channel is in 1..16, and with the command nibble it rebuilds the status |
| MidiMessages.SetMessage | src/com/company/KeyboardToSoundModule.java:313 | the build succeeds if and only if the channel is 0..15 and both data bytes are 0..127, and then holds exactly the given command, channel and data |
| Router.InLoopReads | src/com/company/KeyboardToSoundModule.java:326-334 | the loop makes 1..10 reads; the last is in bounds, and any further one would be out of bounds |
| Router.ScanIndices | src/com/company/KeyboardToSoundModule.java:320-336 | the scan reads index 4, then 4 + 2·idx; every read is inside the table |
| Router.ScanReads | src/com/company/KeyboardToSoundModule.java:320-336 | the scanned values are the table entries at those indices, in order |
| Router.ValidRun | src/com/company/KeyboardToSoundModule.java:323-337 | the scan's run is the longest prefix of values in 1..16, ended by the first value ≤ 0 or > 16 |
| Router.LayerChannels | src/com/company/KeyboardToSoundModule.java:320-337 | the scan's channels are the reads in order, at most 10, all in 1..16, ending just before the first invalid read unless the cap or the last read came first |
| Router.EmitLayers | src/com/company/KeyboardToSoundModule.java:326-345 | event k is the `setMessage` built from channel k − 1; the list stops exactly at the first build that throws |
| Router.Layerable | src/com/company/KeyboardToSoundModule.java:298-301 | a message is layered exactly when its length is odd and at least 3 |
| Router.ScanEvents | src/com/company/KeyboardToSoundModule.java:320-340 | at most 10 scan events; event k goes to channel c − 1 for the scan's k-th channel c, with the message's command, note, velocity and timestamp |
| Router.RouteMessage | src/com/company/KeyboardToSoundModule.java:250-292 | one message sends at most 11 outputs, all with its timestamp: either the message itself, unchanged, or layer events only |
| Router.LayeredEvents | src/com/company/KeyboardToSoundModule.java:295-346 | a note sends at most 11 events, all layer events with its timestamp on channels 0..15 |
| Router.RouteForwardsOrLayers | src/com/company/KeyboardToSoundModule.java:250-292 | anything but a note outside sysex data is sent once, unchanged, with its timestamp; a note is only ever sent as layer events |
| Router.RouteTimingAndSensing | src/com/company/KeyboardToSoundModule.java:263-266 | 0xF8 and 0xFE are forwarded unchanged, whatever the table |
| Router.LayerLength | src/com/company/KeyboardToSoundModule.java:298-301 | a length below 3 or even gives no event; an odd length ≥ 3 with a valid origin gives at least one |
| Router.OriginLayer | src/com/company/KeyboardToSoundModule.java:305-317 | with a valid `table[2]`, the origin event comes first: same command, channel `table[2] − 1`, note + 4, same velocity; with `table[2] == 0` no event has the raised note |
| Router.OriginAbort | src/com/company/KeyboardToSoundModule.java:311-314 | a nonzero `table[2]` outside 1..16, or a note + 4 or velocity above 127, sends nothing at all |
| Router.ScanEventsShape | src/com/company/KeyboardToSoundModule.java:320-340 | scan events keep command, note, velocity and timestamp, have channel 0..15, and number at most 10; at most 11 per note in all; out-of-range data sends none |
| Router.ScanStopsAtFirstInvalid | src/com/company/KeyboardToSoundModule.java:320-337 | the first two reads are both index 4; the channels are the reads up to the first invalid one, at most 10 |
| Router.ScanIndicesOfFullTable | src/com/company/KeyboardToSoundModule.java:320-336 | for a 23-byte table the reads are at 4, 4, 6, …, 22: all in bounds, so the break is never taken |
| Router.DefaultTableEntries | src/com/company/KeyboardToSoundModule.java:52 | the program's table has 23 entries, no origin layer, and 14, 15, 16, 1, 0 at indices 4 to 12 |
| Router.ChannelsOfFullTable | src/com/company/KeyboardToSoundModule.java:320-337 | a 23-byte table with 14, 15, 16, 1, 0 at indices 4 to 12 is scanned to the channels 14, 14, 15, 16, 1 |
| Router.LayeredOnChannels | src/com/company/KeyboardToSoundModule.java:305-340 | with no origin layer and in-range data, a note is layered once per scanned channel, in order, keeping command, note and velocity |
| Router.DefaultTableChannels | src/com/company/KeyboardToSoundModule.java:52 | with the program's table, a well-formed note goes to the 0-based channels 13, 13, 14, 15, 0, note and velocity unchanged |
| Router.EmitLayersAllOrNothing | src/com/company/KeyboardToSoundModule.java:326-329 | over valid channels, either every build succeeds or the first one already throws |
| Router.EmitLayersOfValid | src/com/company/KeyboardToSoundModule.java:326-329 | over valid channels and in-range data, one event per channel built in order is exactly the layer list |
| Router.LayerChannelsAre | src/com/company/KeyboardToSoundModule.java:323-337 | a scan that stops after n valid reads, by the cap of 10, the last read or an invalid read, emits exactly those n channels |
| Router.ScanEndsAt | src/com/company/KeyboardToSoundModule.java:324-340 | when the scan stops after n valid reads, at the cap of 10, at the last read or before an invalid read, the n events sent are exactly the scan's events |
| Router.ScanThrowsAt | src/com/company/KeyboardToSoundModule.java:326-329 | a build that throws inside the loop leaves the events sent equal to the scan's events: it can only be the first build, and then nothing was sent |
| Router.AcceptRead | src/com/company/KeyboardToSoundModule.java:326-329 | sending the event built from the current valid read extends the accepted reads by one |
| Router.ScanReadAt | src/com/company/KeyboardToSoundModule.java:332-336 | the read of iteration idx is the scan's read idx + 1 when its offset is inside the table; otherwise the reads have run out |
| Router.AdvanceRead | src/com/company/KeyboardToSoundModule.java:336-337 | a valid in-loop read becomes the next channel the loop sends on |
| Router.ScanLayers | src/com/company/KeyboardToSoundModule.java:319-340 | the Java scan loop sends exactly `EmitLayers` of the scan's channels |
| Router.LayerMessages | src/com/company/KeyboardToSoundModule.java:295-346 | the Java `layerMessages` sends exactly `LayeredEvents` |
| SysexReceiver.DisplaySystemMessage | src/com/company/KeyboardToSoundModule.java:553-610 | 0xF0 sets the flag, 0xF7 clears it, every other system status leaves it |
| SysexReceiver.DisplayMessage | src/com/company/KeyboardToSoundModule.java:349-382 | after the display path the flag is set if and only if it was already set or the status is 0xF0 |
| SysexReceiver.Step | src/com/company/KeyboardToSoundModule.java:237-242 | no call changes the layer table; `send` leaves the state as it was, and `displayMessage` sends nothing and only moves the flag |
| SysexReceiver.Run | src/com/company/KeyboardToSoundModule.java:237-242 | a run of calls never changes the receiver's layer table |
| SysexReceiver.DisplayFlagTransitions | src/com/company/KeyboardToSoundModule.java:349-382 | the display path never clears a set flag; it sets a clear one if and only if the status is 0xF0 |
| SysexReceiver.RunWithAppend | src/com/company/KeyboardToSoundModule.java:237-242 | for any step function, calls run one after another give the same state and outputs as run together |
| SysexReceiver.RunAppend | src/com/company/KeyboardToSoundModule.java:237-242 | calls into the receiver run one after another give the same state and outputs as run together |
| SysexReceiver.RunDisplay | src/com/company/KeyboardToSoundModule.java:349-382 | a single `displayMessage` call moves only the flag and sends nothing |
| SysexReceiver.SendsKeepState | src/com/company/KeyboardToSoundModule.java:250-346 | `send` calls alone never change the flag |
| SysexReceiver.ExclusiveForwardsAll | src/com/company/KeyboardToSoundModule.java:255-258 | while the flag is set, every message sent is forwarded unchanged and nothing is layered, and the flag stays set |
| SysexReceiver.DisplayedSysexStartSticks | src/com/company/KeyboardToSoundModule.java:557-559 | once the display path has seen 0xF0, every later `send` is a pass-through |
| SysexReceiver.SendIdempotent | src/com/company/KeyboardToSoundModule.java:237-242 | sending the same event twice leaves the state as it was and sends the same events both times |
| Preset.Consume | src/com/company/MidiLayer.java:105-116 | the scan consumes at most one channel per descriptor byte |
| Preset.Header | src/com/company/MidiLayer.java:99-100 | the fresh 23-byte table: byte 0 is `presetIdx & 0xFF`, byte 1 is `channelIdx & 0xFF`, every other byte 0 |
| Preset.Filled | src/com/company/MidiLayer.java:105-116 | a table with some slots written still has 23 bytes and keeps its two header bytes |
| Preset.FilledCells | src/com/company/MidiLayer.java:111-112 | slot k holds the module byte at 2+2k and the code of channel k at 3+2k; every byte after the last slot is still 0 |
| Preset.ChannelOutTable | src/com/company/MidiLayer.java:97-120 | whatever the outcome, the table has 23 bytes, byte 0 is `presetIdx & 0xFF` and byte 1 is `channelIdx & 0xFF` |
| Preset.Outcome | src/com/company/MidiLayer.java:105-119 | the end of a parse from what its scan consumed: the same 23-byte table and header bytes whether it returns or throws |
| Preset.FilledStep | src/com/company/MidiLayer.java:111-115 | consuming one more channel writes exactly the module byte at 2+2k and the channel code at 3+2k |
| Preset.ConsumeStep | src/com/company/MidiLayer.java:106-112 | a step skips one separator and then consumes the next byte, or runs off the end if there is none |
| Preset.RunsOffOutcome | src/com/company/MidiLayer.java:108-112 | a scan that runs off the descriptor after at most 10 channels throws on the descriptor's length, after writing the next module byte |
| Preset.OverrunOutcome | src/com/company/MidiLayer.java:111-112 | an 11th consumed channel ends the parse with an overrun at index 23 and the module byte at 22 |
| Preset.ReturnsOutcome | src/com/company/MidiLayer.java:106-119 | a scan that reaches the end of the descriptor with at most 10 channels returns `true` with those slots written |
| Preset.ParseSlot | src/com/company/MidiLayer.java:107-115 | one loop pass either throws exactly as `ChannelOutTable` says, or consumes one more channel, advances `i`, and writes that slot |
| Preset.ParseChannelOut | src/com/company/MidiLayer.java:97-120 | the Java loop ends exactly as `ChannelOutTable` says, and every table write it makes is in bounds |
| Preset.ParsedLayout | src/com/company/MidiLayer.java:105-119 | the parse returns, always `true`, if and only if there are ≤ 10 channels and no trailing separator; slot k holds the module byte and channel code k; later bytes, byte 22 included, stay 0 |
| Preset.TableCapacity | src/com/company/MidiLayer.java:105-116 | more than 10 channels throws on index 23, after the 11th module byte lands at 22 and the first ten slots are written |
| Preset.ChannelCodes | src/com/company/MidiLayer.java:112 | digits store 0..9; a stored 10..16 comes from the bytes 58..64 and only from them |
| Preset.NonDigitCodes | src/com/company/MidiLayer.java:112 | ',' is stored as -4, ' ' as -16 and '|' as 76 |
| Preset.ChannelCode | src/com/company/MidiLayer.java:112 | `(byte)(c - 48)`: `c - 48` when that is still a signed byte, otherwise wrapped round by 256 |
| Preset.ConsumeNoSeparator | src/com/company/MidiLayer.java:106-112 | without separators, every descriptor byte is consumed, in order |
| Preset.ConsumeTrailingSeparator | src/com/company/MidiLayer.java:108-112 | a final '|' after separator-free bytes makes the scan run off the end |
| Preset.TrailingSeparatorThrows | src/com/company/MidiLayer.java:108-112 | such a descriptor throws on the descriptor index equal to its length, after writing the next module byte |
| Preset.DoubleSeparator | src/com/company/MidiLayer.java:108-112 | "\|\|" parses: the second bar is consumed and stored as 76, and the next slot stays 0 |
| Preset.NewMidiLayer | src/com/company/MidiLayer.java:38-49 | construction succeeds if and only if the parse returns; the fields are the arguments, and `getChannelOut` gives exactly the parsed table |
| Preset.ConsumeAtLeastHalf | src/com/company/MidiLayer.java:105-116 | each step consumes at most two bytes, so there are at least (length − 1) / 2 channels |
| Preset.DefaultMidiLayer | src/com/company/MidiLayer.java:25-35 | the no-argument constructor always throws, with a table overrun at index 23 |
| Preset.SetPresetIdx | src/com/company/MidiLayer.java:54-56 | sets `presetIdx`; every other field, and the table, is unchanged |
| Preset.SetChannelIdx | src/com/company/MidiLayer.java:61-63 | sets `channelIdx`; every other field, and the table, is unchanged |
| Preset.SetChannelOutIdx | src/com/company/MidiLayer.java:68-70 | sets the descriptor; every other field, and the table, is unchanged |
| Preset.SetOctaveTran | src/com/company/MidiLayer.java:75-77 | sets `octaveTran`; every other field, and the table, is unchanged |
| Preset.SetModuleIdx | src/com/company/MidiLayer.java:82-84 | sets `moduleIdx`; every other field, and the table, is unchanged |
| Preset.SetPatchIdx | src/com/company/MidiLayer.java:89-91 | sets `patchIdx`; every other field, and the table, is unchanged |
| Preset.SettersKeepChannelOut | src/com/company/MidiLayer.java:123-125 | after any setter calls, `getChannelOut` returns the table parsed at construction |
| Preset.ChannelOutGoesStale | src/com/company/MidiLayer.java:68-70 | a new descriptor does not reach the table: after setting "1", slot 0 still holds channel 0, where parsing "1" gives 1 |

## Left out

- Preset.GetChannelOut: Java's `getChannelOut` returns the live `channelOutStruct` array itself, so a caller's writes into it change the layer. The value model drops this aliasing: the table is a sequence, and `SettersKeepChannelOut` holds only because no caller can write into it.
- Device enumeration, selection and opening (`openMidiReceiver`, `loadMidiDevices`, `addDeviceType`, `getTransmitter`, `getSynthesizer`, `getSequencer`, the `list*Devices` methods): platform MIDI I/O with no logic to prove.
- The demo sequence (`playDemoSequence`, `getMidiInputData`, `setMidiEvents`, `addMidiEvent`, `sleep`): sequencer playback and thread sleeps.
- Console output: the `display*` methods except for their effect on `isSystemExclusiveData`, `displayRawData`, the `println`s in `layerMessages`, and `MidiLayer.toString`.
- AppConfig.java is not part of this model: it is XML property-file loading and saving.
- The internals of `ShortMessage` and `Receiver`. `setMessage` is the validity check of `MidiMessages.SetMessage`: channel 0..15 and both data bytes 0..127. Its command-range check is left out, since `layerMessages` only passes 0x80 or 0x90.
- `String.getBytes()` and its platform charset: the descriptor is modelled by its bytes. The default descriptor is written as the bytes of its ASCII text.
- A `null` descriptor, which makes the parse throw on dereference: a byte sequence cannot be null.
- The `MidiLayer` getters: they are field reads of the `MidiLayer` record.
- The width of Java `int` fields and of `long` timestamps. Integers are unbounded, but the model only uses the low eight bits of the `int` fields and never computes on timestamps.
- Threading: `send` is called from the transmitter's thread. The model handles one call at a time, in order.
