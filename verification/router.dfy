/**
 * The note-layering receiver `AMidiFXReceiver` of KeyboardToSoundModule: how `routeMessage` classifies
 * an incoming message, the events `layerMessages` emits from the layer table `channelOutStruct`, and the
 * `isSystemExclusiveData` flag, which routing reads and only the display path writes.
 *
 * The router's table holds 1-based output channels at the even indices 2, 4, 6, ...; index 2 is the
 * origin layer. Its length is a parameter (the program's table has 23 bytes); indices 2 and 4 are read
 * unconditionally, so the table must be longer than 4.
 */
module Router {
  import opened Wrappers
  import opened JavaBytes
  import opened MidiMessages

  const OriginIdx := 2
  const StartIdx := 4
  const MaxLayers := 10
  const OriginTranspose := 4

  /** The hard-coded `channelOutStruct` of KeyboardToSoundModule. */
  const DefaultTable: seq<JByte> := [0, 13, 0, 0, 14, 0, 15, 0, 16, 0, 1, 0, 0, 0, 0, 0, 0, 0, 0, 0, 0, 0, 0]

  predicate IsLayerTable(t: seq<JByte>) {
    |t| > StartIdx
  }

  /** A table value the remaining-layer scan accepts as a 1-based channel. */
  predicate ValidLayerChannel(c: int) {
    1 <= c <= 16
  }

  function Min(a: int, b: int): int {
    if a <= b then a else b
  }

  /**
   * How many reads the scan loop makes: one per iteration `idx` (at most `MaxLayers`) whose
   * offset `StartIdx + 2 * idx` is inside a table of length `n`.
   */
  function InLoopReads(n: nat): (k: nat)
    requires n > StartIdx
    ensures 1 <= k <= MaxLayers
    ensures StartIdx + 2 * (k - 1) < n
    ensures k < MaxLayers ==> StartIdx + 2 * k >= n
  {
    Min(MaxLayers, (n - StartIdx + 1) / 2)
  }

  /**
   * The table indices the remaining-layer scan reads, in order: `StartIdx` once before the loop,
   * then `StartIdx + 2 * idx` at the end of iteration `idx`.
   */
  function ScanIndices(n: nat): (r: seq<nat>)
    requires n > StartIdx
    ensures |r| == 1 + InLoopReads(n)
    ensures forall k :: 0 <= k < |r| ==> StartIdx <= r[k] < n
    ensures r[0] == StartIdx
    ensures forall k :: 1 <= k < |r| ==> r[k] == StartIdx + 2 * (k - 1)
  {
    [StartIdx] + seq(InLoopReads(n), idx requires 0 <= idx < InLoopReads(n) => StartIdx + 2 * idx)
  }

  /** The values the scan reads, in reading order. */
  function ScanReads(t: seq<JByte>): (r: seq<JByte>)
    requires IsLayerTable(t)
    ensures |r| == |ScanIndices(|t|)|
    ensures forall k :: 0 <= k < |r| ==> r[k] == t[ScanIndices(|t|)[k]]
  {
    var ix := ScanIndices(|t|);
    seq(|ix|, k requires 0 <= k < |ix| => t[ix[k]])
  }

  /** The length of the longest prefix of `s` made of valid layer channels. */
  function ValidRun(s: seq<int>): (n: nat)
    ensures n <= |s|
    ensures forall k :: 0 <= k < n ==> ValidLayerChannel(s[k])
    ensures n < |s| ==> !ValidLayerChannel(s[n])
  {
    if |s| == 0 || !ValidLayerChannel(s[0]) then 0 else 1 + ValidRun(s[1..])
  }

  /**
   * The 1-based channels the remaining-layer scan emits: the reads up to the first value that is not a
   * valid channel, and at most `MaxLayers` of them.
   */
  function LayerChannels(t: seq<JByte>): (r: seq<int>)
    requires IsLayerTable(t)
    ensures |r| <= MaxLayers && |r| <= |ScanReads(t)|
    ensures r == ScanReads(t)[..|r|]
    ensures forall k :: 0 <= k < |r| ==> ValidLayerChannel(r[k])
    ensures |r| < MaxLayers && |r| < |ScanReads(t)| ==> !ValidLayerChannel(ScanReads(t)[|r|])
  {
    var vals := ScanReads(t);
    vals[..Min(ValidRun(vals), MaxLayers)]
  }

  /**
   * One event per channel of `chans`, in order, each built with `setMessage(command, chan - 1, note,
   * velocity)`; the first build that throws ends the list.
   */
  function EmitLayers(chans: seq<int>, command: int, note: int, velocity: int, ts: int): (r: seq<Output>)
    ensures |r| <= |chans|
    ensures forall k :: 0 <= k < |r| ==>
      SetMessage(command, chans[k] - 1, note, velocity).Some? &&
      r[k] == Layer(SetMessage(command, chans[k] - 1, note, velocity).value, ts)
    ensures |r| < |chans| ==> SetMessage(command, chans[|r|] - 1, note, velocity).None?
  {
    if |chans| == 0 then []
    else match SetMessage(command, chans[0] - 1, note, velocity)
      case None => []
      case Some(sm) => [Layer(sm, ts)] + EmitLayers(chans[1..], command, note, velocity, ts)
  }

  /** A note message `layerMessages` does not reject as too short or of even length. */
  function Layerable(m: MidiMessage): (b: bool)
    ensures b <==> |m.bytes| >= 3 && |m.bytes| % 2 == 1
  {
    !(|m.bytes| < 3 || |m.bytes| % 2 == 0)
  }

  function NoteOf(m: MidiMessage): int
    requires Layerable(m)
  {
    ByteToInt(m.bytes[1])
  }

  function VelocityOf(m: MidiMessage): int
    requires Layerable(m)
  {
    ByteToInt(m.bytes[2])
  }

  /** The remaining-layer events for a layerable message, without the origin event. */
  function ScanEvents(t: seq<JByte>, m: MidiMessage, ts: int): (r: seq<Output>)
    requires IsLayerTable(t)
    requires Layerable(m)
    ensures |r| <= |LayerChannels(t)| <= MaxLayers
    ensures forall k :: 0 <= k < |r| ==>
      r[k] == Layer(ShortMessage(Command(Status(m)), LayerChannels(t)[k] - 1, NoteOf(m), VelocityOf(m)), ts)
  {
    EmitLayers(LayerChannels(t), Command(Status(m)), NoteOf(m), VelocityOf(m), ts)
  }

  /**
   * What `layerMessages` sends: nothing for a malformed message; otherwise the origin event (channel
   * `t[2] - 1`, note raised by 4) when `t[2]` is not 0, then the scan's events. A build that throws
   * ends everything after it; when the origin build throws, nothing at all is sent.
   */
  function LayeredEvents(t: seq<JByte>, m: MidiMessage, ts: int): (r: seq<Output>)
    requires IsLayerTable(t)
    ensures |r| <= MaxLayers + 1
    ensures forall k :: 0 <= k < |r| ==> r[k].Layer? && r[k].timeStamp == ts && 0 <= r[k].short.channel < 16
  {
    if !Layerable(m) then []
    else
      var layers := ScanEvents(t, m, ts);
      if t[OriginIdx] == 0 then layers
      else match SetMessage(Command(Status(m)), t[OriginIdx] as int - 1, NoteOf(m) + OriginTranspose, VelocityOf(m))
        case None => []
        case Some(origin) => [Layer(origin, ts)] + layers
  }

  /** What `routeMessage` sends for one incoming message, given the current `isSystemExclusiveData`. */
  function RouteMessage(sysexData: bool, t: seq<JByte>, m: MidiMessage, ts: int): (r: seq<Output>)
    requires IsLayerTable(t)
    ensures |r| <= MaxLayers + 1
    ensures forall k :: 0 <= k < |r| ==> r[k].timeStamp == ts
    ensures r == [Forward(m, ts)] || forall k :: 0 <= k < |r| ==> r[k].Layer?
  {
    if sysexData then [Forward(m, ts)]
    else if Status(m) == TimingClock || Status(m) == ActiveSensing then [Forward(m, ts)]
    else if IsNoteCommand(Command(Status(m))) then LayeredEvents(t, m, ts)
    else [Forward(m, ts)]
  }

  /** Routing decides to layer exactly for note on/off outside system-exclusive data. */
  predicate RoutedToLayers(sysexData: bool, m: MidiMessage) {
    !sysexData && IsNoteCommand(Command(Status(m)))
  }

  // ---------------------------------------------------------------------------------------------
  // Routing

  /**
   * Everything except a note on/off outside system-exclusive data is sent once, unchanged, with its
   * timestamp; a note is never sent in its original form, only as layer events.
   */
  lemma RouteForwardsOrLayers(sysexData: bool, t: seq<JByte>, m: MidiMessage, ts: int)
    requires IsLayerTable(t)
    ensures !RoutedToLayers(sysexData, m) ==> RouteMessage(sysexData, t, m, ts) == [Forward(m, ts)]
    ensures RoutedToLayers(sysexData, m) ==>
      RouteMessage(sysexData, t, m, ts) == LayeredEvents(t, m, ts) &&
      forall k :: 0 <= k < |RouteMessage(sysexData, t, m, ts)| ==> RouteMessage(sysexData, t, m, ts)[k].Layer?
  {
    if RoutedToLayers(sysexData, m) {
      assert Status(m) != TimingClock && Status(m) != ActiveSensing;
    }
  }

  /** Status 0xF8 and 0xFE pass straight through, whatever the table. */
  lemma RouteTimingAndSensing(sysexData: bool, t: seq<JByte>, m: MidiMessage, ts: int)
    requires IsLayerTable(t)
    requires Status(m) == TimingClock || Status(m) == ActiveSensing
    ensures RouteMessage(sysexData, t, m, ts) == [Forward(m, ts)]
  {
  }

  // ---------------------------------------------------------------------------------------------
  // Layering

  /** A message of even length or shorter than 3 produces no event; a longer odd one can. */
  lemma LayerLength(t: seq<JByte>, m: MidiMessage, ts: int)
    requires IsLayerTable(t)
    ensures !Layerable(m) ==> LayeredEvents(t, m, ts) == []
    ensures (Layerable(m) && ValidLayerChannel(t[OriginIdx]) && NoteOf(m) + OriginTranspose < 128 &&
             VelocityOf(m) < 128) ==> |LayeredEvents(t, m, ts)| >= 1
  {
  }

  /**
   * With a nonzero `t[2]` whose build succeeds, the first event is the origin: the message's command,
   * channel `t[2] - 1`, note plus 4, velocity unchanged. With `t[2] == 0` every event keeps the
   * original note, so no origin event is sent.
   */
  lemma OriginLayer(t: seq<JByte>, m: MidiMessage, ts: int)
    requires IsLayerTable(t)
    requires Layerable(m)
    ensures ValidLayerChannel(t[OriginIdx]) && NoteOf(m) + OriginTranspose < 128 && VelocityOf(m) < 128 ==>
      LayeredEvents(t, m, ts) ==
        [Layer(ShortMessage(Command(Status(m)), t[OriginIdx] as int - 1, NoteOf(m) + OriginTranspose, VelocityOf(m)), ts)]
        + ScanEvents(t, m, ts)
    ensures t[OriginIdx] == 0 ==>
      LayeredEvents(t, m, ts) == ScanEvents(t, m, ts) &&
      forall k :: 0 <= k < |LayeredEvents(t, m, ts)| ==> LayeredEvents(t, m, ts)[k].short.data1 == NoteOf(m)
  {
  }

  /**
   * A failed origin build aborts the whole note: a nonzero `t[2]` outside 1..16, a note above 123 or a
   * velocity above 127 sends nothing.
   */
  lemma OriginAbort(t: seq<JByte>, m: MidiMessage, ts: int)
    requires IsLayerTable(t)
    requires Layerable(m)
    requires t[OriginIdx] != 0
    requires !ValidLayerChannel(t[OriginIdx]) || NoteOf(m) + OriginTranspose > 127 || VelocityOf(m) > 127
    ensures LayeredEvents(t, m, ts) == []
  {
  }

  /**
   * Every scan event carries the message's command, note and velocity and a channel 0..15; there are
   * at most 10 of them, so at most 11 events per note. A failed build stops the scan: here that means a
   * note or velocity above 127 leaves only the origin.
   */
  lemma ScanEventsShape(t: seq<JByte>, m: MidiMessage, ts: int)
    requires IsLayerTable(t)
    requires Layerable(m)
    ensures |ScanEvents(t, m, ts)| <= MaxLayers
    ensures |LayeredEvents(t, m, ts)| <= MaxLayers + 1
    ensures forall k :: 0 <= k < |ScanEvents(t, m, ts)| ==>
      var e := ScanEvents(t, m, ts)[k];
      e.Layer? && e.timeStamp == ts && 0 <= e.short.channel < 16 &&
      e.short.command == Command(Status(m)) && e.short.data1 == NoteOf(m) && e.short.data2 == VelocityOf(m)
    ensures NoteOf(m) < 128 && VelocityOf(m) < 128 ==> |ScanEvents(t, m, ts)| == |LayerChannels(t)|
    ensures NoteOf(m) > 127 || VelocityOf(m) > 127 ==> ScanEvents(t, m, ts) == []
  {
    var chans := LayerChannels(t);
    var vals := ScanReads(t);
    assert |chans| <= MaxLayers;
    assert forall k :: 0 <= k < |chans| ==> chans[k] == vals[k] && ValidLayerChannel(chans[k]);
    if NoteOf(m) > 127 || VelocityOf(m) > 127 {
      if |chans| > 0 {
        assert SetMessage(Command(Status(m)), chans[0] - 1, NoteOf(m), VelocityOf(m)).None?;
      }
    }
  }

  /**
   * The scan emits the reads in order up to, not including, the first value that is 0, negative or
   * above 16, and at most 10 of them. The first two reads are both at index 4, so that slot is sent
   * twice; later reads step through 6, 8, ....
   */
  lemma ScanStopsAtFirstInvalid(t: seq<JByte>)
    requires IsLayerTable(t)
    ensures ScanReads(t)[0] == t[StartIdx] && ScanReads(t)[1] == t[StartIdx]
    ensures |LayerChannels(t)| <= MaxLayers
    ensures forall k :: 0 <= k < |LayerChannels(t)| ==>
      LayerChannels(t)[k] == ScanReads(t)[k] && ValidLayerChannel(LayerChannels(t)[k])
    ensures |LayerChannels(t)| < MaxLayers && |LayerChannels(t)| < |ScanReads(t)| ==>
      !ValidLayerChannel(ScanReads(t)[|LayerChannels(t)|])
  {
  }

  /** For the program's 23-byte table the scan reads indices 4, 4, 6, ..., 22: all in bounds, the break never taken. */
  lemma ScanIndicesOfFullTable()
    ensures ScanIndices(|DefaultTable|) == [4, 4, 6, 8, 10, 12, 14, 16, 18, 20, 22]
  {
    assert |DefaultTable| == 23;
    var ix := ScanIndices(23);
    assert |ix| == 11;
    assert forall k :: 0 <= k < 11 ==> ix[k] == [4, 4, 6, 8, 10, 12, 14, 16, 18, 20, 22][k];
  }

  /** The entries of the program's table that the router reads. */
  lemma DefaultTableEntries()
    ensures |DefaultTable| == 23 && DefaultTable[OriginIdx] == 0
    ensures DefaultTable[4] == 14 && DefaultTable[6] == 15 && DefaultTable[8] == 16 && DefaultTable[10] == 1 && DefaultTable[12] == 0
  {
  }

  /**
   * A 23-byte table holding 14, 15, 16, 1, 0 at indices 4 .. 12 is scanned to the channels 14, 14,
   * 15, 16, 1: index 4 twice, then the 0 at index 12 ends the scan.
   */
  lemma ChannelsOfFullTable(t: seq<JByte>)
    requires |t| == 23
    requires t[4] == 14 && t[6] == 15 && t[8] == 16 && t[10] == 1 && t[12] == 0
    ensures LayerChannels(t) == [14, 14, 15, 16, 1]
  {
    var vals := ScanReads(t);
    assert ScanIndices(|t|) == ScanIndices(|DefaultTable|);
    ScanIndicesOfFullTable();
    assert vals[0] == 14 && vals[1] == 14 && vals[2] == 15 && vals[3] == 16 && vals[4] == 1 && vals[5] == 0;
    LayerChannelsAre(t, 5);
    assert vals[..5] == [14, 14, 15, 16, 1];
  }

  /**
   * With no origin layer and in-range data, a note is layered once on each of the scan's channels, in
   * order, keeping its command, note and velocity.
   */
  lemma LayeredOnChannels(t: seq<JByte>, m: MidiMessage, ts: int)
    requires IsLayerTable(t) && t[OriginIdx] == 0
    requires Layerable(m) && NoteOf(m) < 128 && VelocityOf(m) < 128
    ensures |LayeredEvents(t, m, ts)| == |LayerChannels(t)|
    ensures forall k :: 0 <= k < |LayerChannels(t)| ==>
      LayeredEvents(t, m, ts)[k] ==
        Layer(ShortMessage(Command(Status(m)), LayerChannels(t)[k] - 1, NoteOf(m), VelocityOf(m)), ts)
  {
    var chans := LayerChannels(t);
    assert forall k :: 0 <= k < |chans| ==> chans[k] == ScanReads(t)[k];
    EmitLayersAllOrNothing(chans, Command(Status(m)), NoteOf(m), VelocityOf(m), ts);
  }

  /**
   * With the program's table (no origin at index 2), a well-formed note is layered on the 0-based
   * channels 13, 13, 14, 15, 0, with note and velocity unchanged.
   */
  lemma DefaultTableChannels(m: MidiMessage, ts: int)
    requires Layerable(m)
    requires NoteOf(m) < 128 && VelocityOf(m) < 128
    ensures |LayeredEvents(DefaultTable, m, ts)| == 5
    ensures forall k :: 0 <= k < 5 ==>
      LayeredEvents(DefaultTable, m, ts)[k] ==
        Layer(ShortMessage(Command(Status(m)), [13, 13, 14, 15, 0][k], NoteOf(m), VelocityOf(m)), ts)
  {
    DefaultTableEntries();
    ChannelsOfFullTable(DefaultTable);
    LayeredOnChannels(DefaultTable, m, ts);
  }

  // ---------------------------------------------------------------------------------------------
  // `layerMessages` as written: the origin build, the pre-loop read at index 4, then the loop over
  // `idx` with the re-read offset `StartIdx + idx * 2`.

  /**
   * Over valid channels every build sees the same note and velocity, so the scan's builds either all
   * succeed or the first already fails: a layer list is sent whole or not at all.
   */
  lemma {:induction false} EmitLayersAllOrNothing(chans: seq<int>, command: int, note: int, velocity: int, ts: int)
    requires forall k :: 0 <= k < |chans| ==> ValidLayerChannel(chans[k])
    ensures 0 <= note < 128 && 0 <= velocity < 128 ==> |EmitLayers(chans, command, note, velocity, ts)| == |chans|
    ensures !(0 <= note < 128 && 0 <= velocity < 128) ==> EmitLayers(chans, command, note, velocity, ts) == []
  {
    if |chans| > 0 {
      EmitLayersAllOrNothing(chans[1..], command, note, velocity, ts);
    }
  }

  predicate DataInRange(note: int, velocity: int) {
    0 <= note < 128 && 0 <= velocity < 128
  }

  /** Over valid channels and in-range data, one event per channel, built in order, is `EmitLayers`. */
  lemma {:induction false} EmitLayersOfValid(chans: seq<int>, outs: seq<Output>, command: int, note: int, velocity: int, ts: int)
    requires forall k :: 0 <= k < |chans| ==> ValidLayerChannel(chans[k])
    requires |chans| > 0 ==> DataInRange(note, velocity)
    requires |outs| == |chans|
    requires forall k :: 0 <= k < |chans| ==> outs[k] == Layer(ShortMessage(command, chans[k] - 1, note, velocity), ts)
    ensures outs == EmitLayers(chans, command, note, velocity, ts)
    decreases |chans|
  {
    if |chans| > 0 {
      EmitLayersOfValid(chans[1..], outs[1..], command, note, velocity, ts);
      assert outs == [outs[0]] + outs[1..];
    }
  }

  /**
   * The scan has accepted its first `n` reads: each is a valid channel and produced its event, in
   * order; once one event is built, the note and velocity are known to be in range.
   */
  predicate Accepted(t: seq<JByte>, n: nat, outs: seq<Output>, command: int, note: int, velocity: int, ts: int)
    requires IsLayerTable(t)
  {
    n <= |ScanReads(t)| && |outs| == n &&
    (n > 0 ==> DataInRange(note, velocity)) &&
    (forall k :: 0 <= k < n ==> ValidLayerChannel(ScanReads(t)[k])) &&
    (forall k :: 0 <= k < n ==> outs[k] == Layer(ShortMessage(command, ScanReads(t)[k] as int - 1, note, velocity), ts))
  }

  /** The scan loop's invariant: `idx` reads accepted, and `chan` is the next read, within 0..16. */
  predicate ScanInvariant(t: seq<JByte>, idx: nat, chan: int, outs: seq<Output>, command: int, note: int, velocity: int, ts: int)
    requires IsLayerTable(t)
  {
    Accepted(t, idx, outs, command, note, velocity, ts) &&
    idx < |ScanReads(t)| && chan == ScanReads(t)[idx] && 0 <= chan <= 16
  }

  /** The run of valid values is exactly `n` when the first `n` are valid and the next, if any, is not. */
  lemma ValidRunIs(s: seq<int>, n: nat)
    requires n <= |s|
    requires forall k :: 0 <= k < n ==> ValidLayerChannel(s[k])
    requires n < |s| ==> !ValidLayerChannel(s[n])
    ensures ValidRun(s) == n
  {
  }

  /** The run of valid values is at least `n` when the first `n` are valid. */
  lemma ValidRunAtLeast(s: seq<int>, n: nat)
    requires n <= |s|
    requires forall k :: 0 <= k < n ==> ValidLayerChannel(s[k])
    ensures ValidRun(s) >= n
  {
  }

  /** The channels of a scan that stops after `n` valid reads are those reads. */
  lemma LayerChannelsAre(t: seq<JByte>, n: nat)
    requires IsLayerTable(t)
    requires n <= MaxLayers && n <= |ScanReads(t)|
    requires forall k :: 0 <= k < n ==> ValidLayerChannel(ScanReads(t)[k])
    requires n < MaxLayers && n < |ScanReads(t)| ==> !ValidLayerChannel(ScanReads(t)[n])
    ensures LayerChannels(t) == ScanReads(t)[..n]
  {
    var vals := ScanReads(t);
    if n < MaxLayers || n == |vals| {
      ValidRunIs(vals, n);
    } else {
      ValidRunAtLeast(vals, n);
    }
  }

  /**
   * When the scan stops after accepting `n` reads (at the cap of 10, at the last read, or before an
   * invalid read) the events it sent are exactly the scan's events.
   */
  lemma ScanEndsAt(t: seq<JByte>, n: nat, outs: seq<Output>, command: int, note: int, velocity: int, ts: int)
    requires IsLayerTable(t)
    requires Accepted(t, n, outs, command, note, velocity, ts)
    requires n <= MaxLayers
    requires n < MaxLayers && n < |ScanReads(t)| ==> !ValidLayerChannel(ScanReads(t)[n])
    ensures outs == EmitLayers(LayerChannels(t), command, note, velocity, ts)
  {
    var vals := ScanReads(t);
    LayerChannelsAre(t, n);
    EmitLayersOfValid(vals[..n], outs, command, note, velocity, ts);
  }

  /** A build inside the loop can throw only on the first read; the scan then sends nothing. */
  lemma ScanThrowsAt(t: seq<JByte>, idx: nat, chan: int, outs: seq<Output>, command: int, note: int, velocity: int, ts: int)
    requires IsLayerTable(t)
    requires ScanInvariant(t, idx, chan, outs, command, note, velocity, ts)
    requires chan != 0
    requires SetMessage(command, chan - 1, note, velocity).None?
    ensures outs == EmitLayers(LayerChannels(t), command, note, velocity, ts)
  {
    EmitLayersAllOrNothing(LayerChannels(t), command, note, velocity, ts);
  }

  /** Accepting the current read with the event built from it extends the accepted prefix by one. */
  lemma AcceptRead(t: seq<JByte>, idx: nat, chan: int, outs: seq<Output>, sm: ShortMessage,
                   command: int, note: int, velocity: int, ts: int)
    requires IsLayerTable(t)
    requires ScanInvariant(t, idx, chan, outs, command, note, velocity, ts)
    requires chan != 0
    requires SetMessage(command, chan - 1, note, velocity) == Some(sm)
    ensures Accepted(t, idx + 1, outs + [Layer(sm, ts)], command, note, velocity, ts)
  {
    assert forall k :: 0 <= k < idx ==> (outs + [Layer(sm, ts)])[k] == outs[k];
  }

  /**
   * The in-loop read of iteration `idx` is the scan's read number `idx + 1` when its offset is inside
   * the table; when it is not, the reads have run out.
   */
  lemma ScanReadAt(t: seq<JByte>, idx: nat)
    requires IsLayerTable(t)
    requires idx < MaxLayers
    ensures StartIdx + 2 * idx < |t| ==> idx + 1 < |ScanReads(t)| && ScanReads(t)[idx + 1] == t[StartIdx + 2 * idx]
    ensures StartIdx + 2 * idx >= |t| ==> |ScanReads(t)| <= idx + 1
  {
  }

  /** A valid in-loop read becomes the loop's current read. */
  lemma AdvanceRead(t: seq<JByte>, idx: nat, outs: seq<Output>, command: int, note: int, velocity: int, ts: int)
    requires IsLayerTable(t)
    requires Accepted(t, idx + 1, outs, command, note, velocity, ts)
    requires idx < MaxLayers && StartIdx + 2 * idx < |t|
    requires ValidLayerChannel(t[StartIdx + 2 * idx])
    ensures ScanInvariant(t, idx + 1, t[StartIdx + 2 * idx], outs, command, note, velocity, ts)
  {
    ScanReadAt(t, idx);
  }

  /**
   * The remaining-layer part of `layerMessages`: the read at index 4, then the loop over `idx` with
   * the re-read offset `StartIdx + idx * 2`. Returns the events it sends before it stops.
   */
  method ScanLayers(t: seq<JByte>, command: int, note: int, velocity: int, ts: int) returns (outs: seq<Output>)
    requires IsLayerTable(t)
    ensures outs == EmitLayers(LayerChannels(t), command, note, velocity, ts)
  {
    outs := [];
    var idx := 0;
    var chan: int := t[StartIdx];
    assert ScanReads(t)[0] == t[StartIdx];
    if chan < 0 || chan > 16 {
      ScanEndsAt(t, 0, outs, command, note, velocity, ts);
      return;
    }
    while chan != 0 && idx < MaxLayers
      invariant idx <= MaxLayers
      invariant ScanInvariant(t, idx, chan, outs, command, note, velocity, ts)
      decreases MaxLayers - idx
    {
      var sm := SetMessage(command, chan - 1, note, velocity);
      if sm.None? {
        ScanThrowsAt(t, idx, chan, outs, command, note, velocity, ts);
        return;
      }
      AcceptRead(t, idx, chan, outs, sm.value, command, note, velocity, ts);
      outs := outs + [Layer(sm.value, ts)];

      // Read the next channel mapping
      var offsetidx := StartIdx + idx * 2;
      ScanReadAt(t, idx);
      idx := idx + 1;
      if offsetidx > |t| - 1 {
        ScanEndsAt(t, idx, outs, command, note, velocity, ts);
        return;
      }
      chan := t[offsetidx];
      if chan <= 0 || chan > 16 {
        ScanEndsAt(t, idx, outs, command, note, velocity, ts);
        return;
      }
      AdvanceRead(t, idx - 1, outs, command, note, velocity, ts);
    }
    ScanEndsAt(t, idx, outs, command, note, velocity, ts);
  }

  /** `layerMessages` as the Java code computes it; it sends exactly the events of `LayeredEvents`. */
  method LayerMessages(t: seq<JByte>, m: MidiMessage, ts: int) returns (outs: seq<Output>)
    requires IsLayerTable(t)
    ensures outs == LayeredEvents(t, m, ts)
  {
    outs := [];
    if |m.bytes| < 3 || |m.bytes| % 2 == 0 {
      return;
    }
    var bytes := m.bytes;
    var command := Command(Status(m));
    var note := ByteToInt(bytes[1]);
    var velocity := ByteToInt(bytes[2]);

    // Layer the origin channel
    var chan: int := t[OriginIdx];
    if chan != 0 {
      var sm := SetMessage(command, chan - 1, note + OriginTranspose, velocity);
      if sm.None? {
        return;
      }
      outs := outs + [Layer(sm.value, ts)];
    }
    var layers := ScanLayers(t, command, note, velocity, ts);
    outs := outs + layers;
  }
}
