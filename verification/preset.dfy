/**
 * `MidiLayer`: a preset layer and the 23-byte table `parseChannelOut` packs from it for the
 * controller. Byte 0 is the preset index, byte 1 the input channel, then 10 pairs (module index at
 * the even index 2 + 2k, channel at the odd index 3 + 2k); byte 22 is reserved for the octave
 * transpose. The descriptor is read one byte per channel, and `parseChannelOut` does no bounds
 * checking of its own: running off either array throws `ArrayIndexOutOfBoundsException`, which
 * escapes the constructor.
 */
module Preset {
  import opened Wrappers
  import opened JavaBytes

  const TableSize := 23
  const SlotCount := 10
  const Separator := 124   // '|'
  const DigitZero := 48    // '0'

  /** The array an `ArrayIndexOutOfBoundsException` is raised on, with the offending index. */
  datatype Overrun = DescriptorOverrun(index: int) | TableOverrun(index: int)

  /**
   * How `parseChannelOut` ends: it returns a boolean, or it throws; either way `table` is the
   * `channelOutStruct` as it stands at that moment.
   */
  datatype ParseOutcome =
    | Returned(value: bool, table: seq<JByte>)
    | Thrown(overrun: Overrun, table: seq<JByte>)

  /**
   * The descriptor bytes the parse consumes as channels, in order: a separator is skipped and the
   * byte after it is consumed whatever it is. `runsOff` says the descriptor ended right after a
   * skipped separator, where the parse reads one past the end.
   */
  datatype Scan = Scan(consumed: seq<JByte>, runsOff: bool)

  function Consume(b: seq<JByte>): (s: Scan)
    ensures |s.consumed| <= |b|
    decreases |b|
  {
    if |b| == 0 then Scan([], false)
    else if b[0] == Separator then
      if |b| == 1 then Scan([], true)
      else var rest := Consume(b[2..]); Scan([b[1]] + rest.consumed, rest.runsOff)
    else var rest := Consume(b[1..]); Scan([b[0]] + rest.consumed, rest.runsOff)
  }

  /** The channel byte stored for a consumed descriptor byte: `(byte)(c - 48)`. */
  function ChannelCode(c: JByte): (r: JByte)
    ensures c >= -80 ==> r == c - DigitZero
    ensures c < -80 ==> r == c - DigitZero + 256
  {
    ToByte(c - DigitZero)
  }

  /** A freshly allocated `byte[23]`. */
  const ZeroTable: seq<JByte> := [0, 0, 0, 0, 0, 0, 0, 0, 0, 0, 0, 0, 0, 0, 0, 0, 0, 0, 0, 0, 0, 0, 0]

  /** The table once the preset and input-channel bytes are written, before any slot. */
  function Header(presetIdx: int, channelIdx: int): (t: seq<JByte>)
    ensures |t| == TableSize
    ensures t[0] == ToByte(LowByte(presetIdx)) && t[1] == ToByte(LowByte(channelIdx))
    ensures forall q :: 2 <= q < TableSize ==> t[q] == 0
  {
    ZeroTable[0 := ToByte(LowByte(presetIdx))][1 := ToByte(LowByte(channelIdx))]
  }

  /**
   * The table after one slot per channel of `c` is written into the header, in order: slot k gets the
   * module byte at 2 + 2k and the channel code at 3 + 2k. The header bytes survive every slot write.
   */
  function Filled(presetIdx: int, channelIdx: int, moduleIdx: int, c: seq<JByte>): (t: seq<JByte>)
    requires |c| <= SlotCount
    ensures |t| == TableSize
    ensures t[0] == ToByte(LowByte(presetIdx)) && t[1] == ToByte(LowByte(channelIdx))
    decreases |c|
  {
    if |c| == 0 then Header(presetIdx, channelIdx)
    else
      var k := |c| - 1;
      Filled(presetIdx, channelIdx, moduleIdx, c[..k])[2 + 2 * k := ToByte(LowByte(moduleIdx))][3 + 2 * k := ChannelCode(c[k])]
  }

  /**
   * What `parseChannelOut` leaves behind. More than 10 channels: the 11th writes its module byte at
   * index 22 and throws on index 23. A separator at the very end: the module byte of the next slot is
   * written, then the descriptor read throws on its length. Otherwise it returns true.
   */
  function ChannelOutTable(presetIdx: int, channelIdx: int, b: seq<JByte>, moduleIdx: int): (r: ParseOutcome)
    ensures |r.table| == TableSize
    ensures r.table[0] == ToByte(LowByte(presetIdx)) && r.table[1] == ToByte(LowByte(channelIdx))
  {
    Outcome(presetIdx, channelIdx, moduleIdx, Consume(b).consumed, Consume(b).runsOff, |b|)
  }

  /** The end of the parse of a descriptor of length `len` whose scan consumed `c` and ran off or not. */
  function Outcome(presetIdx: int, channelIdx: int, moduleIdx: int, c: seq<JByte>, runsOff: bool, len: int): (r: ParseOutcome)
    ensures |r.table| == TableSize
    ensures r.table[0] == ToByte(LowByte(presetIdx)) && r.table[1] == ToByte(LowByte(channelIdx))
  {
    if |c| > SlotCount then
      Thrown(TableOverrun(TableSize), Filled(presetIdx, channelIdx, moduleIdx, c[..SlotCount])[TableSize - 1 := ToByte(LowByte(moduleIdx))])
    else if runsOff then
      Thrown(DescriptorOverrun(len), Filled(presetIdx, channelIdx, moduleIdx, c)[2 + 2 * |c| := ToByte(LowByte(moduleIdx))])
    else
      Returned(true, Filled(presetIdx, channelIdx, moduleIdx, c))
  }

  // ---------------------------------------------------------------------------------------------
  // `parseChannelOut` as written

  /** Writing one more slot into the table. */
  lemma FilledStep(presetIdx: int, channelIdx: int, moduleIdx: int, c: seq<JByte>, x: JByte)
    requires |c| < SlotCount
    ensures Filled(presetIdx, channelIdx, moduleIdx, c + [x]) ==
      Filled(presetIdx, channelIdx, moduleIdx, c)[2 + 2 * |c| := ToByte(LowByte(moduleIdx))][3 + 2 * |c| := ChannelCode(x)]
  {
    assert (c + [x])[..|c|] == c;
  }

  /**
   * What a filled table holds: slot k carries the module byte and the code of channel k, and every
   * byte after the last slot keeps its initial 0.
   */
  lemma {:induction false} FilledCells(presetIdx: int, channelIdx: int, moduleIdx: int, c: seq<JByte>)
    requires |c| <= SlotCount
    ensures forall k :: 0 <= k < |c| ==>
      Filled(presetIdx, channelIdx, moduleIdx, c)[2 + 2 * k] == ToByte(LowByte(moduleIdx)) &&
      Filled(presetIdx, channelIdx, moduleIdx, c)[3 + 2 * k] == ChannelCode(c[k])
    ensures forall q :: 2 + 2 * |c| <= q < TableSize ==> Filled(presetIdx, channelIdx, moduleIdx, c)[q] == 0
    decreases |c|
  {
    if |c| > 0 {
      var k := |c| - 1;
      FilledCells(presetIdx, channelIdx, moduleIdx, c[..k]);
      forall j | 0 <= j < k
        ensures c[..k][j] == c[j]
      {
      }
    }
  }

  /**
   * The parse has reached position `i` of the descriptor having consumed the channels `consumed`: the
   * rest of the scan is the scan of what is left.
   */
  predicate ParsedUpTo(b: seq<JByte>, i: nat, consumed: seq<JByte>) {
    i <= |b| &&
    Consume(b).consumed == consumed + Consume(b[i..]).consumed &&
    Consume(b).runsOff == Consume(b[i..]).runsOff
  }

  /**
   * One step of the scan from position `i`: skip a separator, then consume the next byte, or run off
   * the end if there is none.
   */
  lemma ConsumeStep(b: seq<JByte>, i: nat, consumed: seq<JByte>)
    requires i < |b| && ParsedUpTo(b, i, consumed)
    ensures var k := if b[i] == Separator then i + 1 else i;
      (k == |b| ==> Consume(b).consumed == consumed && Consume(b).runsOff) &&
      (k < |b| ==> ParsedUpTo(b, k + 1, consumed + [b[k]]))
  {
    var rest := b[i..];
    var k := if b[i] == Separator then i + 1 else i;
    if k < |b| {
      assert rest[k - i + 1..] == b[k + 1..];
      var tail := Consume(b[k + 1..]);
      assert Consume(rest).consumed == [b[k]] + tail.consumed;
      assert consumed + ([b[k]] + tail.consumed) == (consumed + [b[k]]) + tail.consumed;
    } else {
      assert Consume(rest).consumed == [];
    }
  }

  /** A scan that runs off the descriptor after at most 10 channels throws on the descriptor's length. */
  lemma RunsOffOutcome(presetIdx: int, channelIdx: int, b: seq<JByte>, moduleIdx: int, consumed: seq<JByte>)
    requires Consume(b).consumed == consumed && Consume(b).runsOff && |consumed| <= SlotCount
    ensures ChannelOutTable(presetIdx, channelIdx, b, moduleIdx) ==
      Thrown(DescriptorOverrun(|b|), Filled(presetIdx, channelIdx, moduleIdx, consumed)[2 + 2 * |consumed| := ToByte(LowByte(moduleIdx))])
  {
    assert ChannelOutTable(presetIdx, channelIdx, b, moduleIdx) == Outcome(presetIdx, channelIdx, moduleIdx, consumed, true, |b|);
  }

  /** The outcome once the scan has consumed 10 channels and finds an 11th. */
  lemma OverrunOutcome(presetIdx: int, channelIdx: int, b: seq<JByte>, moduleIdx: int, c: seq<JByte>, x: JByte, tail: seq<JByte>)
    requires |c| == SlotCount
    requires Consume(b).consumed == c + [x] + tail
    ensures ChannelOutTable(presetIdx, channelIdx, b, moduleIdx) ==
      Thrown(TableOverrun(TableSize), Filled(presetIdx, channelIdx, moduleIdx, c)[TableSize - 1 := ToByte(LowByte(moduleIdx))])
  {
    assert (c + [x] + tail)[..SlotCount] == c;
    assert ChannelOutTable(presetIdx, channelIdx, b, moduleIdx) ==
      Outcome(presetIdx, channelIdx, moduleIdx, c + [x] + tail, Consume(b).runsOff, |b|);
  }

  /** A scan that reaches the end of the descriptor with at most 10 channels returns `true`. */
  lemma ReturnsOutcome(presetIdx: int, channelIdx: int, b: seq<JByte>, moduleIdx: int, consumed: seq<JByte>)
    requires ParsedUpTo(b, |b|, consumed) && |consumed| <= SlotCount
    ensures ChannelOutTable(presetIdx, channelIdx, b, moduleIdx) == Returned(true, Filled(presetIdx, channelIdx, moduleIdx, consumed))
  {
    assert b[|b|..] == [];
    assert consumed + [] == consumed;
    assert ChannelOutTable(presetIdx, channelIdx, b, moduleIdx) == Outcome(presetIdx, channelIdx, moduleIdx, consumed, false, |b|);
  }

  /**
   * One pass of the loop of `parseChannelOut` from descriptor position `i` and table slot `j`: skip a
   * separator, write the module byte, read the channel and write its code. `stop` is the outcome when
   * the pass throws; otherwise the loop state moves on by one consumed channel.
   */
  method ParseSlot(presetIdx: int, channelIdx: int, outchannels: seq<JByte>, moduleIdx: int,
                   i: nat, j: int, table: seq<JByte>, ghost consumed: seq<JByte>)
    returns (i': nat, j': int, table': seq<JByte>, stop: Option<ParseOutcome>, ghost consumed': seq<JByte>)
    requires i < |outchannels| && ParsedUpTo(outchannels, i, consumed)
    requires |consumed| <= SlotCount && j == 2 + 2 * |consumed|
    requires table == Filled(presetIdx, channelIdx, moduleIdx, consumed)
    ensures stop.Some? ==> stop.value == ChannelOutTable(presetIdx, channelIdx, outchannels, moduleIdx)
    ensures stop.None? ==>
      i < i' <= |outchannels| && ParsedUpTo(outchannels, i', consumed') &&
      |consumed'| <= SlotCount && j' == 2 + 2 * |consumed'| &&
      table' == Filled(presetIdx, channelIdx, moduleIdx, consumed')
  {
    ConsumeStep(outchannels, i, consumed);
    i', j', consumed' := i, j, consumed;
    // Skip out channel separator
    if outchannels[i'] == Separator {
      i' := i' + 1;
    }
    table' := table[j := ToByte(LowByte(moduleIdx))];
    if i' >= |outchannels| {
      RunsOffOutcome(presetIdx, channelIdx, outchannels, moduleIdx, consumed);
      return i', j', table', Some(Thrown(DescriptorOverrun(i'), table')), consumed';
    }
    var x := outchannels[i'];
    i' := i' + 1;
    if j + 1 >= |table'| {
      OverrunOutcome(presetIdx, channelIdx, outchannels, moduleIdx, consumed, x, Consume(outchannels[i'..]).consumed);
      return i', j', table', Some(Thrown(TableOverrun(j + 1), table')), consumed';
    }
    FilledStep(presetIdx, channelIdx, moduleIdx, consumed, x);
    table' := table'[j + 1 := ChannelCode(x)];
    consumed' := consumed + [x];
    j' := j + 2;
    stop := None;
  }

  /**
   * `parseChannelOut` run on the descriptor bytes `outchannels`, starting from the all-zero table a new
   * `MidiLayer` has: it ends exactly as `ChannelOutTable` says.
   */
  method ParseChannelOut(presetIdx: int, channelIdx: int, outchannels: seq<JByte>, moduleIdx: int) returns (r: ParseOutcome)
    ensures r == ChannelOutTable(presetIdx, channelIdx, outchannels, moduleIdx)
  {
    var table := ZeroTable;
    table := table[0 := ToByte(LowByte(presetIdx))];
    table := table[1 := ToByte(LowByte(channelIdx))];

    ghost var consumed: seq<JByte> := [];
    assert outchannels[0..] == outchannels;
    var i, j := 0, 2;
    while i < |outchannels|
      invariant |consumed| <= SlotCount && j == 2 + 2 * |consumed|
      invariant ParsedUpTo(outchannels, i, consumed)
      invariant table == Filled(presetIdx, channelIdx, moduleIdx, consumed)
      decreases |outchannels| - i
    {
      var stop;
      i, j, table, stop, consumed := ParseSlot(presetIdx, channelIdx, outchannels, moduleIdx, i, j, table, consumed);
      if stop.Some? {
        return stop.value;
      }
    }
    ReturnsOutcome(presetIdx, channelIdx, outchannels, moduleIdx, consumed);
    return Returned(true, table);
  }

  // ---------------------------------------------------------------------------------------------
  // Properties of the parse

  /**
   * The parse returns (always `true`) exactly when at most 10 channels are consumed and it does not run
   * off the descriptor. Then slot k holds the module byte and channel k's code, and every byte after
   * the last slot written, the octave-transpose byte 22 included, keeps its initial 0.
   */
  lemma ParsedLayout(presetIdx: int, channelIdx: int, b: seq<JByte>, moduleIdx: int)
    ensures var r := ChannelOutTable(presetIdx, channelIdx, b, moduleIdx);
      r.Returned? <==> |Consume(b).consumed| <= SlotCount && !Consume(b).runsOff
    ensures var r := ChannelOutTable(presetIdx, channelIdx, b, moduleIdx);
      var c := Consume(b).consumed;
      r.Returned? ==>
        r.value &&
        (forall k :: 0 <= k < |c| ==> r.table[2 + 2 * k] == ToByte(LowByte(moduleIdx)) && r.table[3 + 2 * k] == ChannelCode(c[k])) &&
        (forall q :: 2 + 2 * |c| <= q < TableSize ==> r.table[q] == 0) &&
        r.table[TableSize - 1] == 0
  {
    var c := Consume(b).consumed;
    if |c| <= SlotCount && !Consume(b).runsOff {
      FilledCells(presetIdx, channelIdx, moduleIdx, c);
    }
  }

  /**
   * More than 10 channels overrun the table: the 11th writes its module byte at index 22 and the parse
   * throws on index 23, with the first ten slots written as usual.
   */
  lemma TableCapacity(presetIdx: int, channelIdx: int, b: seq<JByte>, moduleIdx: int)
    requires |Consume(b).consumed| > SlotCount
    ensures var r := ChannelOutTable(presetIdx, channelIdx, b, moduleIdx);
      r == Thrown(TableOverrun(TableSize), r.table) &&
      r.table[TableSize - 1] == ToByte(LowByte(moduleIdx)) &&
      forall k :: 0 <= k < SlotCount ==>
        r.table[2 + 2 * k] == ToByte(LowByte(moduleIdx)) && r.table[3 + 2 * k] == ChannelCode(Consume(b).consumed[k])
  {
    var c := Consume(b).consumed;
    FilledCells(presetIdx, channelIdx, moduleIdx, c[..SlotCount]);
  }

  /** Digits store their value 0..9; a stored 10..16 comes only from the bytes ':' .. '@', never a digit. */
  lemma ChannelCodes(x: JByte)
    ensures 48 <= x <= 57 ==> ChannelCode(x) == x - 48 && 0 <= ChannelCode(x) <= 9
    ensures 10 <= ChannelCode(x) <= 16 <==> 58 <= x <= 64
  {
  }

  /** Other bytes are not rejected but stored shifted: ',' as -4, ' ' as -16, '|' as 76. */
  lemma NonDigitCodes()
    ensures ChannelCode(44) == -4
    ensures ChannelCode(32) == -16
    ensures ChannelCode(Separator) == 76
  {
  }

  /** Without separators every byte of the descriptor is consumed, in order. */
  lemma {:induction false} ConsumeNoSeparator(b: seq<JByte>)
    requires forall k :: 0 <= k < |b| ==> b[k] != Separator
    ensures Consume(b) == Scan(b, false)
    decreases |b|
  {
    if |b| > 0 {
      ConsumeNoSeparator(b[1..]);
    }
  }

  /** A separator after separator-free bytes, at the very end, makes the parse read past the descriptor. */
  lemma {:induction false} ConsumeTrailingSeparator(b: seq<JByte>)
    requires forall k :: 0 <= k < |b| ==> b[k] != Separator
    ensures Consume(b + [Separator]) == Scan(b, true)
    decreases |b|
  {
    if |b| > 0 {
      assert (b + [Separator])[1..] == b[1..] + [Separator];
      ConsumeTrailingSeparator(b[1..]);
    }
  }

  /** A trailing '|' throws on the descriptor's length, after writing the next slot's module byte. */
  lemma TrailingSeparatorThrows(presetIdx: int, channelIdx: int, b: seq<JByte>, moduleIdx: int)
    requires forall k :: 0 <= k < |b| ==> b[k] != Separator
    requires |b| <= SlotCount
    ensures var r := ChannelOutTable(presetIdx, channelIdx, b + [Separator], moduleIdx);
      r == Thrown(DescriptorOverrun(|b| + 1), r.table) && r.table[2 + 2 * |b|] == ToByte(LowByte(moduleIdx))
  {
    ConsumeTrailingSeparator(b);
    RunsOffOutcome(presetIdx, channelIdx, b + [Separator], moduleIdx, b);
  }

  /** In "||" the first bar is skipped and the second consumed as a channel: it stores 76. */
  lemma DoubleSeparator(presetIdx: int, channelIdx: int, moduleIdx: int)
    ensures var r := ChannelOutTable(presetIdx, channelIdx, [Separator, Separator], moduleIdx);
      r.Returned? && r.table[3] == 76 && r.table[5] == 0
  {
    var sep: seq<JByte> := [Separator];
    assert Consume(sep + sep) == Scan(sep, false) by {
      assert (sep + sep)[2..] == [];
    }
    assert ChannelOutTable(presetIdx, channelIdx, sep + sep, moduleIdx) == Outcome(presetIdx, channelIdx, moduleIdx, sep, false, 2);
    assert sep[..0] == [];
    assert Filled(presetIdx, channelIdx, moduleIdx, sep)[5] == Header(presetIdx, channelIdx)[5] == 0;
  }

  // ---------------------------------------------------------------------------------------------
  // `MidiLayer`

  datatype MidiLayer = MidiLayer(
    presetIdx: int,
    channelIdx: int,
    channelOutIdx: seq<JByte>,
    octaveTran: int,
    moduleIdx: int,
    patchIdx: int,
    channelOutStruct: seq<JByte>)

  /**
   * The six-argument constructor: it stores the fields and parses the descriptor; a parse that throws
   * makes the constructor throw.
   */
  function NewMidiLayer(presetIdx: int, channelIdx: int, channelOutIdx: seq<JByte>, octaveTran: int,
                        moduleIdx: int, patchIdx: int): (r: Result<MidiLayer, Overrun>)
    ensures var p := ChannelOutTable(presetIdx, channelIdx, channelOutIdx, moduleIdx);
      (r.Success? <==> p.Returned?) &&
      (r.Failure? ==> r.error == p.overrun)
    ensures r.Success? ==>
      r.value.presetIdx == presetIdx && r.value.channelIdx == channelIdx &&
      r.value.channelOutIdx == channelOutIdx && r.value.octaveTran == octaveTran &&
      r.value.moduleIdx == moduleIdx && r.value.patchIdx == patchIdx &&
      |GetChannelOut(r.value)| == TableSize &&
      GetChannelOut(r.value)[0] == ToByte(LowByte(presetIdx)) && GetChannelOut(r.value)[1] == ToByte(LowByte(channelIdx))
    ensures r.Success? ==> GetChannelOut(r.value) == ChannelOutTable(presetIdx, channelIdx, channelOutIdx, moduleIdx).table
  {
    match ChannelOutTable(presetIdx, channelIdx, channelOutIdx, moduleIdx)
    case Thrown(overrun, _) => Failure(overrun)
    case Returned(_, table) =>
      Success(MidiLayer(presetIdx, channelIdx, channelOutIdx, octaveTran, moduleIdx, patchIdx, table))
  }

  /** The bytes of the default descriptor "13,0,14,0,15,0, 0, 0, 0, 0, 0, 0, 0, 0, 0, 0, 0, 0, 0, 0". */
  const DefaultDescriptor: seq<JByte> :=
    [49, 51, 44, 48, 44, 49, 52, 44, 48, 44, 49, 53, 44, 48, 44, 32, 48, 44, 32, 48, 44, 32, 48, 44,
     32, 48, 44, 32, 48, 44, 32, 48, 44, 32, 48, 44, 32, 48, 44, 32, 48, 44, 32, 48, 44, 32, 48, 44,
     32, 48, 44, 32, 48, 44, 32, 48]

  /**
   * The no-argument constructor: preset 0, input channel 13, the default descriptor, module 0. The
   * default descriptor has 56 bytes, far more than 10 channels' worth, so this constructor always
   * overruns the table and throws.
   */
  function DefaultMidiLayer(): (r: Result<MidiLayer, Overrun>)
    ensures r == Failure(TableOverrun(TableSize))
  {
    ConsumeAtLeastHalf(DefaultDescriptor);
    NewMidiLayer(0, 13, DefaultDescriptor, 0, 0, 0)
  }

  /** Each step of the scan takes at most two descriptor bytes, so a long descriptor yields many channels. */
  lemma {:induction false} ConsumeAtLeastHalf(b: seq<JByte>)
    ensures 2 * |Consume(b).consumed| + 1 >= |b|
    decreases |b|
  {
    if |b| >= 2 && b[0] == Separator {
      ConsumeAtLeastHalf(b[2..]);
    } else if |b| >= 1 && b[0] != Separator {
      ConsumeAtLeastHalf(b[1..]);
    }
  }

  /** `getChannelOut`: the table computed when the layer was constructed. */
  function GetChannelOut(l: MidiLayer): seq<JByte> {
    l.channelOutStruct
  }

  function SetPresetIdx(l: MidiLayer, v: int): (r: MidiLayer)
    ensures r.presetIdx == v && r.(presetIdx := l.presetIdx) == l
    ensures GetChannelOut(r) == GetChannelOut(l)
  {
    l.(presetIdx := v)
  }

  function SetChannelIdx(l: MidiLayer, v: int): (r: MidiLayer)
    ensures r.channelIdx == v && r.(channelIdx := l.channelIdx) == l
    ensures GetChannelOut(r) == GetChannelOut(l)
  {
    l.(channelIdx := v)
  }

  function SetChannelOutIdx(l: MidiLayer, v: seq<JByte>): (r: MidiLayer)
    ensures r.channelOutIdx == v && r.(channelOutIdx := l.channelOutIdx) == l
    ensures GetChannelOut(r) == GetChannelOut(l)
  {
    l.(channelOutIdx := v)
  }

  function SetOctaveTran(l: MidiLayer, v: int): (r: MidiLayer)
    ensures r.octaveTran == v && r.(octaveTran := l.octaveTran) == l
    ensures GetChannelOut(r) == GetChannelOut(l)
  {
    l.(octaveTran := v)
  }

  function SetModuleIdx(l: MidiLayer, v: int): (r: MidiLayer)
    ensures r.moduleIdx == v && r.(moduleIdx := l.moduleIdx) == l
    ensures GetChannelOut(r) == GetChannelOut(l)
  {
    l.(moduleIdx := v)
  }

  function SetPatchIdx(l: MidiLayer, v: int): (r: MidiLayer)
    ensures r.patchIdx == v && r.(patchIdx := l.patchIdx) == l
    ensures GetChannelOut(r) == GetChannelOut(l)
  {
    l.(patchIdx := v)
  }

  /** One setter call. */
  datatype Setter =
    | PresetIdxSet(i: int)
    | ChannelIdxSet(i: int)
    | ChannelOutIdxSet(s: seq<JByte>)
    | OctaveTranSet(i: int)
    | ModuleIdxSet(i: int)
    | PatchIdxSet(i: int)

  function Apply(l: MidiLayer, op: Setter): MidiLayer {
    match op
    case PresetIdxSet(v) => SetPresetIdx(l, v)
    case ChannelIdxSet(v) => SetChannelIdx(l, v)
    case ChannelOutIdxSet(v) => SetChannelOutIdx(l, v)
    case OctaveTranSet(v) => SetOctaveTran(l, v)
    case ModuleIdxSet(v) => SetModuleIdx(l, v)
    case PatchIdxSet(v) => SetPatchIdx(l, v)
  }

  function ApplyAll(l: MidiLayer, ops: seq<Setter>): MidiLayer
    decreases |ops|
  {
    if |ops| == 0 then l else ApplyAll(Apply(l, ops[0]), ops[1..])
  }

  /** No setter re-parses: after any setter calls `getChannelOut` still gives the table parsed at construction. */
  lemma {:induction false} SettersKeepChannelOut(l: MidiLayer, ops: seq<Setter>)
    ensures GetChannelOut(ApplyAll(l, ops)) == GetChannelOut(l)
    decreases |ops|
  {
    if |ops| > 0 {
      SettersKeepChannelOut(Apply(l, ops[0]), ops[1..]);
    }
  }

  /**
   * So the table goes stale: a layer built with an empty descriptor and then given the descriptor "1"
   * still reports channel byte 0 in slot 0, where parsing "1" would give 1.
   */
  lemma ChannelOutGoesStale(presetIdx: int, channelIdx: int, octaveTran: int, moduleIdx: int, patchIdx: int)
    ensures var made := NewMidiLayer(presetIdx, channelIdx, [], octaveTran, moduleIdx, patchIdx);
      made.Success? &&
      GetChannelOut(SetChannelOutIdx(made.value, [49]))[3] == 0 &&
      ChannelOutTable(presetIdx, channelIdx, [49], moduleIdx).table[3] == 1
  {
    assert Consume([49]) == Scan([49], false) by {
      assert [49 as JByte][1..] == [];
    }
  }
}
