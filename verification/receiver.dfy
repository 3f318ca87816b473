/**
 * `AMidiFXReceiver` as a state machine over calls of its two entry points: `send`, which only routes,
 * and `displayMessage`, the console path, which is the only writer of `isSystemExclusiveData`.
 * (In the program `send` never calls `displayMessage`, so the flag keeps its initial `false`.)
 */
module SysexReceiver {
  import opened JavaBytes
  import opened MidiMessages
  import opened Router

  datatype Event = Event(message: MidiMessage, timeStamp: int)

  /** One call into the receiver. */
  datatype Call = SendCall(event: Event) | DisplayCall(event: Event)

  /** A layer table the router can scan: index 4, which it reads unconditionally, is inside it. */
  type LayerTable = t: seq<JByte> | IsLayerTable(t) witness DefaultTable

  /** The receiver's state: the sysex flag and the layer table it routes with. */
  datatype ReceiverState = ReceiverState(sysexData: bool, table: LayerTable)

  /** The flag after `displaySystemMessage` for a system status: 0xF0 sets it, 0xF7 clears it. */
  function DisplaySystemMessage(sysexData: bool, status: int): (after: bool)
    ensures status == SysexStart ==> after
    ensures status == SysexEnd ==> !after
    ensures status != SysexStart && status != SysexEnd ==> after == sysexData
  {
    if status == SysexStart then true
    else if status == SysexEnd then false
    else sysexData
  }

  /**
   * The flag after `displayMessage`: while it is set the message is only dumped and the method returns,
   * so `displaySystemMessage` (and its 0xF7 clear) is reached only when the flag is clear.
   */
  function DisplayMessage(sysexData: bool, m: MidiMessage): (after: bool)
    ensures after <==> sysexData || Status(m) == SysexStart
  {
    if sysexData then sysexData
    else if Status(m) == TimingClock || Status(m) == ActiveSensing then sysexData
    else if Command(Status(m)) == SysexStart then DisplaySystemMessage(sysexData, Status(m))
    else sysexData
  }

  /** One call: `send` routes and leaves the state alone; `displayMessage` only moves the flag. */
  function Step(r: ReceiverState, c: Call): (res: (ReceiverState, seq<Output>))
    ensures res.0.table == r.table
    ensures c.SendCall? ==> res.0 == r
    ensures c.DisplayCall? ==> res.1 == [] && res.0.sysexData == DisplayMessage(r.sysexData, c.event.message)
  {
    match c
    case SendCall(e) => (r, RouteMessage(r.sysexData, r.table, e.message, e.timeStamp))
    case DisplayCall(e) => (r.(sysexData := DisplayMessage(r.sysexData, e.message)), [])
  }

  /** Calls handled one after another by `step`, in order: the final state and everything sent. */
  function RunWith(step: (ReceiverState, Call) -> (ReceiverState, seq<Output>), r: ReceiverState, calls: seq<Call>): (ReceiverState, seq<Output>)
    decreases |calls|
  {
    if |calls| == 0 then (r, [])
    else
      var first := step(r, calls[0]);
      var rest := RunWith(step, first.0, calls[1..]);
      (rest.0, first.1 + rest.1)
  }

  /** A step that keeps the table keeps it over a whole run. */
  lemma {:induction false} RunWithKeepsTable(step: (ReceiverState, Call) -> (ReceiverState, seq<Output>), r: ReceiverState, calls: seq<Call>)
    requires forall s, c :: step(s, c).0.table == s.table
    ensures RunWith(step, r, calls).0.table == r.table
    decreases |calls|
  {
    if |calls| > 0 {
      RunWithKeepsTable(step, step(r, calls[0]).0, calls[1..]);
    }
  }

  /** A sequence of calls into the receiver, in order: the final state and everything sent downstream. */
  function Run(r: ReceiverState, calls: seq<Call>): (res: (ReceiverState, seq<Output>))
    ensures res.0.table == r.table
  {
    RunWithKeepsTable(Step, r, calls);
    RunWith(Step, r, calls)
  }

  /** Every `send` call's message forwarded unchanged, in order. */
  function Forwarded(calls: seq<Call>): seq<Output> {
    if |calls| == 0 then []
    else match calls[0]
      case SendCall(e) => [Forward(e.message, e.timeStamp)] + Forwarded(calls[1..])
      case DisplayCall(_) => Forwarded(calls[1..])
  }

  predicate SendsOnly(calls: seq<Call>) {
    forall k :: 0 <= k < |calls| ==> calls[k].SendCall?
  }

  /**
   * The display path never clears a set flag, and sets a clear one exactly on status 0xF0: once set,
   * the flag stays set for good.
   */
  lemma DisplayFlagTransitions(sysexData: bool, m: MidiMessage)
    ensures sysexData ==> DisplayMessage(sysexData, m)
    ensures !sysexData ==> (DisplayMessage(sysexData, m) <==> Status(m) == SysexStart)
  {
  }

  /** Running calls one after another is running them all at once, whatever the step. */
  lemma {:induction false} RunWithAppend(step: (ReceiverState, Call) -> (ReceiverState, seq<Output>), r: ReceiverState, a: seq<Call>, b: seq<Call>)
    ensures var ra := RunWith(step, r, a);
      RunWith(step, r, a + b) == (RunWith(step, ra.0, b).0, ra.1 + RunWith(step, ra.0, b).1)
    decreases |a|
  {
    if |a| > 0 {
      assert (a + b)[0] == a[0] && (a + b)[1..] == a[1..] + b;
      var first := step(r, a[0]);
      RunWithAppend(step, first.0, a[1..], b);
      var ra := RunWith(step, first.0, a[1..]);
      assert first.1 + (ra.1 + RunWith(step, ra.0, b).1) == (first.1 + ra.1) + RunWith(step, ra.0, b).1;
    } else {
      assert a + b == b;
      assert [] + RunWith(step, r, b).1 == RunWith(step, r, b).1;
    }
  }

  /** Running calls one after another is running them all at once. */
  lemma RunAppend(r: ReceiverState, a: seq<Call>, b: seq<Call>)
    ensures Run(r, a + b) == (Run(Run(r, a).0, b).0, Run(r, a).1 + Run(Run(r, a).0, b).1)
  {
    RunWithAppend(Step, r, a, b);
  }

  /** `send` alone never changes the receiver's state. */
  lemma {:induction false} SendsKeepState(r: ReceiverState, calls: seq<Call>)
    requires SendsOnly(calls)
    ensures Run(r, calls).0 == r
    decreases |calls|
  {
    if |calls| > 0 {
      SendsKeepState(r, calls[1..]);
    }
  }

  /** While the flag is set, every message sent is forwarded unchanged and nothing is layered, forever. */
  lemma {:induction false} ExclusiveForwardsAll(r: ReceiverState, calls: seq<Call>)
    requires r.sysexData
    ensures Run(r, calls).0 == r
    ensures Run(r, calls).1 == Forwarded(calls)
    decreases |calls|
  {
    if |calls| > 0 {
      DisplayFlagTransitions(r.sysexData, calls[0].event.message);
      ExclusiveForwardsAll(r, calls[1..]);
    }
  }

  /** A single `displayMessage` call: the flag moves and nothing is sent. */
  lemma RunDisplay(r: ReceiverState, e: Event)
    ensures Run(r, [DisplayCall(e)]) == (r.(sysexData := DisplayMessage(r.sysexData, e.message)), [])
  {
    var first := Step(r, DisplayCall(e));
    assert first == (r.(sysexData := DisplayMessage(r.sysexData, e.message)), []);
    assert [DisplayCall(e)][1..] == [];
    assert Run(first.0, []) == (first.0, []);
    assert first.1 + [] == [];
  }

  /** After the display path sees status 0xF0, every later `send` is a plain pass-through. */
  lemma DisplayedSysexStartSticks(r: ReceiverState, before: seq<Call>, e: Event, after: seq<Call>)
    requires Status(e.message) == SysexStart
    ensures Run(r, before + [DisplayCall(e)] + after).1 == Run(r, before).1 + Forwarded(after)
  {
    var mid := Run(r, before);
    RunAppend(r, before, [DisplayCall(e)]);
    RunDisplay(mid.0, e);
    var flagged := mid.0.(sysexData := true);
    assert Run(r, before + [DisplayCall(e)]) == (flagged, mid.1 + []);
    assert mid.1 + [] == mid.1;
    RunAppend(r, before + [DisplayCall(e)], after);
    ExclusiveForwardsAll(flagged, after);
  }

  /** Routing depends only on the state and the message, and leaves the state as it was: sending twice sends the same. */
  lemma SendIdempotent(r: ReceiverState, e: Event)
    ensures Step(Step(r, SendCall(e)).0, SendCall(e)) == Step(r, SendCall(e))
  {
  }
}
