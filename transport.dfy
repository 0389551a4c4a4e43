/**
 * Sending one frame to the output device: `sendMessage` and `lightButton`.
 * The winmm driver is not modelled; a `Driver` value gives the result each driver call
 * returns, and each method returns the calls it issued, in order.
 */
module Transport {
  import opened Types
  import opened Buttons
  import opened SysEx

  /** The results the driver gives to the five calls one light update can make. */
  datatype Driver = Driver(
    open: Status,
    prepare: Status,
    longMsg: Status,
    unprepare: Status,
    close: Status)

  /** A call into the winmm output driver. */
  datatype DriverCall =
    | MidiOutOpen(deviceID: int)
    | MidiOutPrepareHeader
    | MidiOutLongMsg(data: seq<Byte>)
    | MidiOutUnprepareHeader
    | MidiOutClose

  /**
   * How many of a sequence of driver calls run when each one is made only after all
   * earlier ones succeeded: every call up to and including the first failure.
   */
  function CallsMade(results: seq<Status>): (n: nat)
    ensures n <= |results|
    ensures results != [] ==> 1 <= n
    ensures forall i :: 0 <= i < n - 1 ==> results[i] == NoError
    ensures n < |results| ==> results[n - 1] != NoError
  {
    if results == [] then 0
    else if results[0] != NoError then 1
    else 1 + CallsMade(results[1..])
  }

  /** All calls are made, and the last one succeeds, exactly when every result is a success. */
  lemma CallsMadeAllSucceed(results: seq<Status>)
    ensures (CallsMade(results) == |results| && (results == [] || results[|results| - 1] == NoError))
            <==> forall i :: 0 <= i < |results| ==> results[i] == NoError
  {
  }

  /** The three phases of `sendMessage`, in order. */
  function SendPlan(data: seq<Byte>): seq<DriverCall>
  {
    [MidiOutPrepareHeader, MidiOutLongMsg(data), MidiOutUnprepareHeader]
  }

  function SendResults(drv: Driver): seq<Status>
  {
    [drv.prepare, drv.longMsg, drv.unprepare]
  }

  /** Everything `lightButton` would do if no call failed. */
  function LightPlan(deviceID: int, data: seq<Byte>): seq<DriverCall>
  {
    [MidiOutOpen(deviceID)] + SendPlan(data) + [MidiOutClose]
  }

  function LightResults(drv: Driver): seq<Status>
  {
    [drv.open] + SendResults(drv) + [drv.close]
  }

  /** The calls `lightButton` makes: up to its first failure, all five otherwise. */
  lemma LightCallsMade(drv: Driver)
    ensures CallsMade(LightResults(drv)) ==
      if drv.open != NoError then 1
      else if drv.prepare != NoError then 2
      else if drv.longMsg != NoError then 3
      else if drv.unprepare != NoError then 4
      else 5
  {
    var rs := LightResults(drv);
    var r1, r2, r3, r4 := rs[1..], rs[2..], rs[3..], rs[4..];
    assert r1[1..] == r2 && r2[1..] == r3 && r3[1..] == r4;
    assert CallsMade(r4) == 1;
    assert CallsMade(r3) == if drv.unprepare != NoError then 1 else 2;
    assert CallsMade(r2) == if drv.longMsg != NoError then 1 else 1 + CallsMade(r3);
    assert CallsMade(r1) == if drv.prepare != NoError then 1 else 1 + CallsMade(r2);
  }

  /**
   * `sendMessage`: prepare the header, send it, unprepare it; return 1 at the first
   * failure without making any later call, 0 when all three succeed.
   */
  method SendMessage(data: seq<Byte>, drv: Driver) returns (result: int, calls: seq<DriverCall>)
    ensures result == 0 || result == 1
    ensures result == 0 <==> drv.prepare == NoError && drv.longMsg == NoError && drv.unprepare == NoError
    ensures calls == SendPlan(data)[..CallsMade(SendResults(drv))]
  {
    calls := [MidiOutPrepareHeader];
    if drv.prepare != NoError {
      return 1, calls;
    }
    calls := calls + [MidiOutLongMsg(data)];
    if drv.longMsg != NoError {
      return 1, calls;
    }
    calls := calls + [MidiOutUnprepareHeader];
    if drv.unprepare != NoError {
      return 1, calls;
    }
    return 0, calls;
  }

  /**
   * `lightButton`: open the output device, fill a 12-byte buffer with the button's
   * frame, send it, then close the device. A failure returns 1 at once: the device is
   * not closed when `sendMessage` fails.
   */
  method LightButton(deviceID: int, b: ButtonState, drv: Driver) returns (result: int, calls: seq<DriverCall>)
    requires b.buttonNumber <= 0xF
    ensures result == 0 || result == 1
    ensures result == 0 <==> forall i :: 0 <= i < |LightResults(drv)| ==> LightResults(drv)[i] == NoError
    ensures calls == LightPlan(deviceID, Frame(b))[..CallsMade(LightResults(drv))]
  {
    CallsMadeAllSucceed(LightResults(drv));
    LightCallsMade(drv);
    calls := [MidiOutOpen(deviceID)];
    if drv.open != NoError {
      return 1, calls;
    }

    var sysexData := FillFrame(b);
    var sent, sendCalls := SendMessage(sysexData[..], drv);
    calls := calls + sendCalls;
    if sent != 0 {
      return 1, calls;
    }

    calls := calls + [MidiOutClose];
    if drv.close != NoError {
      return 1, calls;
    }
    return 0, calls;
  }

  /** The part of `lightButton` that fills its 12-byte buffer, one index at a time. */
  method FillFrame(b: ButtonState) returns (sysexData: array<Byte>)
    ensures fresh(sysexData)
    ensures sysexData[..] == Frame(b)
  {
    var colorCode := if b.isActive then b.activeColor else b.inactiveColor;
    sysexData := new Byte[12];
    sysexData[0] := 0xF0;
    sysexData[1] := 0x00;
    sysexData[2] := 0x20;
    sysexData[3] := 0x6B;
    sysexData[4] := 0x7F;
    sysexData[5] := 0x42;
    sysexData[6] := 0x02;
    sysexData[7] := 0x00;
    sysexData[8] := 0x10;
    sysexData[9] := LowByte(0x70 + b.buttonNumber);
    sysexData[10] := LowByte(colorCode);
    sysexData[11] := 0xF7;
  }

  /** The device is closed only when open and all three phases of `sendMessage` succeeded. */
  lemma CloseOnlyAfterSend(deviceID: int, data: seq<Byte>, drv: Driver)
    ensures MidiOutClose in LightPlan(deviceID, data)[..CallsMade(LightResults(drv))] <==>
            drv.open == NoError && drv.prepare == NoError && drv.longMsg == NoError && drv.unprepare == NoError
  {
    LightCallsMade(drv);
    var n := CallsMade(LightResults(drv));
    var plan := LightPlan(deviceID, data);
    assert forall i :: 0 <= i < 4 ==> plan[i] != MidiOutClose;
    if n == 5 {
      assert plan[..n][4] == MidiOutClose;
    }
  }

  /** The frame reaches the driver exactly when the device opened and the header was prepared. */
  lemma FrameSentIff(deviceID: int, data: seq<Byte>, drv: Driver)
    ensures MidiOutLongMsg(data) in LightPlan(deviceID, data)[..CallsMade(LightResults(drv))] <==>
            drv.open == NoError && drv.prepare == NoError
  {
    LightCallsMade(drv);
    var n := CallsMade(LightResults(drv));
    var plan := LightPlan(deviceID, data);
    assert plan[2] == MidiOutLongMsg(data);
    if n >= 3 {
      assert plan[..n][2] == MidiOutLongMsg(data);
    }
  }

  /** Unprepare is never called after the send itself failed. */
  lemma NoUnprepareAfterFailedSend(data: seq<Byte>, drv: Driver)
    requires drv.longMsg != NoError
    ensures MidiOutUnprepareHeader !in SendPlan(data)[..CallsMade(SendResults(drv))]
  {
  }
}
