/**
 * The javax.sound.midi values the receiver handles: an incoming `MidiMessage` (its raw bytes), the
 * `ShortMessage` it builds for each layer, and what it hands to the downstream `Receiver`.
 * Also the receiver's small byte helpers `byteToInt`, `bytesToInt` and `midiChannelToInt`.
 */
module MidiMessages {
  import opened Wrappers
  import opened JavaBytes

  const NoteOff := 0x80
  const NoteOn := 0x90
  const SysexStart := 0xF0
  const SysexEnd := 0xF7
  const TimingClock := 0xF8
  const ActiveSensing := 0xFE

  /** A `MidiMessage` as the byte array `getMessage()` returns; `getLength()` is its length. */
  datatype MidiMessage = MidiMessage(bytes: seq<JByte>)

  /** `getStatus()`: the first byte read as unsigned, or 0 for an empty message. */
  function Status(m: MidiMessage): (s: int)
    ensures 0 <= s < 256
    ensures |m.bytes| > 0 ==> ToByte(s) == m.bytes[0]
    ensures |m.bytes| == 0 ==> s == 0
  {
    if |m.bytes| > 0 then ByteToInt(m.bytes[0]) else 0
  }

  /** `status & 0xf0`: the command nibble of a status byte. */
  function Command(status: int): (c: int)
    requires 0 <= status < 256
    ensures c % 16 == 0
    ensures c <= status < c + 16
  {
    status - status % 16
  }

  /** `status & 0x0f`: the channel nibble of a status byte. */
  function ChannelNibble(status: int): (c: int)
    requires 0 <= status < 256
    ensures 0 <= c < 16
    ensures Command(status) + c == status
  {
    status % 16
  }

  predicate IsNoteCommand(command: int) {
    command == NoteOff || command == NoteOn
  }

  /** The message `ShortMessage.setMessage(command, channel, data1, data2)` fills in when it does not throw. */
  datatype ShortMessage = ShortMessage(command: int, channel: int, data1: int, data2: int)

  /**
   * `ShortMessage.setMessage(command, channel, data1, data2)` for a note command: it throws
   * `InvalidMidiDataException` (here `None`) unless the channel is 0..15 and both data bytes are 0..127.
   */
  function SetMessage(command: int, channel: int, data1: int, data2: int): (r: Option<ShortMessage>)
    ensures r.Some? <==> 0 <= channel < 16 && 0 <= data1 < 128 && 0 <= data2 < 128
    ensures r.Some? ==> r.value == ShortMessage(command, channel, data1, data2)
  {
    if 0 <= channel < 16 && 0 <= data1 < 128 && 0 <= data2 < 128
    then Some(ShortMessage(command, channel, data1, data2))
    else None
  }

  /** One call of the downstream `receiver.send(message, timeStamp)`. */
  datatype Output =
    | Forward(message: MidiMessage, timeStamp: int)
    | Layer(short: ShortMessage, timeStamp: int)

  /** `bytesToInt(msb, lsb)`: two data bytes joined as a 14-bit value, seven bits each. */
  function BytesToInt(msb: JByte, lsb: JByte): (r: int)
    ensures 0 <= r < 256 * 128 + 256
    ensures 0 <= msb && 0 <= lsb ==> r < 128 * 128 && r / 128 == msb && r % 128 == lsb
  {
    ByteToInt(msb) * 128 + ByteToInt(lsb)
  }

  /** `midiChannelToInt`: the 1-based channel a status byte addresses. */
  function MidiChannelToInt(m: MidiMessage): (r: int)
    ensures 1 <= r <= 16
    ensures Command(Status(m)) + (r - 1) == Status(m)
  {
    ChannelNibble(Status(m)) + 1
  }
}
