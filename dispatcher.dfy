/**
 * The input callback `MidiInProc` and the `MidiButtonStates` object it updates.
 * `Dispatch` states what one callback does to the table; the class carries the same
 * table as a field that its methods update in place.
 */
module Dispatcher {
  import opened Types
  import opened Buttons
  import opened SysEx
  import opened Transport

  /** `MIM_DATA`: the driver's message code for an incoming short MIDI message. */
  const MimData := 0x3C3
  /** Control Change on channel 1: an external mute signal. */
  const ControlChange := 0xB0
  /** Note Off on channel 10: a button on the controller was released. */
  const NoteOff := 0x89
  /** The toggle value that means "muted". */
  const Muted := 0x7F
  /** Raw hardware codes of the buttons plus this offset give their table identifiers. */
  const IdOffset := 80

  /** The three bytes of a short MIDI message packed in `dwParam1`. */
  datatype ShortMessage = ShortMessage(msgType: Byte, hwID: Byte, toggleState: Byte)

  /** Bytes 0, 1 and 2 of `dwParam1` (`0xFF & dwParam1`, `0xFF & (dwParam1 >> 8)`, ...). */
  function Decode(dwParam1: nat): (m: ShortMessage)
    ensures Pack(m) == dwParam1 % 0x100_0000
  {
    LowThreeBytes(dwParam1);
    ShortMessage(dwParam1 % 0x100, (dwParam1 / 0x100) % 0x100, (dwParam1 / 0x1_0000) % 0x100)
  }

  /** The low three bytes of a number, taken one byte at a time. */
  lemma LowThreeBytes(x: nat)
    ensures x % 0x100 + 0x100 * ((x / 0x100) % 0x100) + 0x1_0000 * ((x / 0x1_0000) % 0x100)
            == x % 0x100_0000
  {
    var a, q := x % 0x100, x / 0x100;
    var b, q2 := q % 0x100, q / 0x100;
    var c, q3 := q2 % 0x100, q2 / 0x100;
    assert x == a + 0x100 * q;
    assert q == b + 0x100 * q2;
    assert q2 == c + 0x100 * q3;
    assert x == (a + 0x100 * b) + 0x1_0000 * q2;
    assert x / 0x1_0000 == q2;
    assert x == (a + 0x100 * b + 0x1_0000 * c) + 0x100_0000 * q3;
  }

  /** How the driver packs a short message: status in the low byte, then the data bytes. */
  function Pack(m: ShortMessage): nat
  {
    m.msgType + 0x100 * m.hwID + 0x1_0000 * m.toggleState
  }

  /** Decoding a packed message gives the message back. */
  lemma DecodePack(m: ShortMessage)
    ensures Decode(Pack(m)) == m
  {
  }

  /** Bits above the low three bytes of `dwParam1` are ignored. */
  lemma DecodeIgnoresHighBytes(dwParam1: nat, k: nat)
    ensures Decode(dwParam1 + 0x100_0000 * k) == Decode(dwParam1)
  {
    var p := dwParam1 + 0x100_0000 * k;
    assert p == dwParam1 % 0x100 + 0x100 * (dwParam1 / 0x100 + 0x1_0000 * k);
    assert p / 0x100 == dwParam1 / 0x100 + 0x1_0000 * k;
    assert p / 0x1_0000 == p / 0x100 / 0x100;
    assert dwParam1 / 0x1_0000 == dwParam1 / 0x100 / 0x100;
    assert p / 0x100 == (dwParam1 / 0x100) % 0x100 + 0x100 * (dwParam1 / 0x100 / 0x100 + 0x100 * k);
    assert p / 0x1_0000 == dwParam1 / 0x1_0000 + 0x100 * k;
  }

  /** What one callback leaves behind: the new table, and the id it lights, if any. */
  datatype Effect = Effect(table: Table, light: Option<int>)

  /**
   * One invocation of `MidiInProc` on the button table. No entry is removed and only
   * `isActive` of an existing entry can change; a new entry is a default one apart from
   * `isActive`; lighting changes no existing entry.
   */
  function Dispatch(t: Table, wMsg: int, dwParam1: nat): (e: Effect)
    ensures t.Keys <= e.table.Keys
    ensures forall k :: k in t ==> e.table[k].(isActive := t[k].isActive) == t[k]
    ensures forall k :: k in e.table && k !in t ==> e.table[k].(isActive := false) == DefaultButton
    ensures e.light.Some? ==> e.light.value in e.table && forall k :: k in t ==> e.table[k] == t[k]
  {
    if wMsg != MimData then Effect(t, None)
    else
      var m := Decode(dwParam1);
      if m.msgType == ControlChange then
        Effect(SetActive(t, m.hwID, m.toggleState != Muted), None)
      else if m.msgType == NoteOff then
        var id := m.hwID + IdOffset;
        Effect(EnsureEntry(t, id), Some(id))
      else Effect(t, None)
  }

  /** Anything but a Control Change or Note Off short message changes nothing and lights nothing. */
  lemma IgnoredMessages(t: Table, wMsg: int, dwParam1: nat)
    requires wMsg != MimData || Decode(dwParam1).msgType !in {ControlChange, NoteOff}
    ensures Dispatch(t, wMsg, dwParam1) == Effect(t, None)
  {
  }

  /**
   * A Control Change sets `isActive` at its id to "toggle is not 0x7F", inserting a
   * default entry if the id is new; every other entry and field is kept; nothing is lit.
   */
  lemma ControlChangeSetsActive(t: Table, m: ShortMessage)
    requires m.msgType == ControlChange
    ensures var e := Dispatch(t, MimData, Pack(m));
      && e.light == None
      && e.table.Keys == t.Keys + {m.hwID}
      && e.table[m.hwID].isActive == (m.toggleState != Muted)
      && e.table[m.hwID] == Lookup(t, m.hwID).(isActive := m.toggleState != Muted)
      && forall k :: k in t && k != m.hwID ==> e.table[k] == t[k]
  {
    DecodePack(m);
  }

  /**
   * A Note Off lights the entry at its id plus 80 and changes no `isActive` value: the
   * only change to the table is a default entry for that id when it was missing.
   */
  lemma NoteOffLightsRemapped(t: Table, m: ShortMessage)
    requires m.msgType == NoteOff
    ensures var e := Dispatch(t, MimData, Pack(m));
      && e.light == Some(m.hwID + 80)
      && e.table.Keys == t.Keys + {m.hwID + 80}
      && (forall k :: k in t ==> e.table[k] == t[k])
      && (m.hwID + 80 !in t ==> e.table[m.hwID + 80] == DefaultButton)
  {
    DecodePack(m);
  }

  /** Every callback keeps every button number at most 0xF, the bound `lightButton` asserts. */
  lemma DispatchKeepsNumbersFit(t: Table, wMsg: int, dwParam1: nat)
    requires NumbersFit(t)
    ensures NumbersFit(Dispatch(t, wMsg, dwParam1).table)
  {
  }

  /** A stream of callbacks, handled one after another in delivery order. */
  datatype Callback = Callback(wMsg: int, dwParam1: nat)

  function Run(t: Table, cs: seq<Callback>): Table
    decreases |cs|
  {
    if cs == [] then t
    else Run(Dispatch(t, cs[0].wMsg, cs[0].dwParam1).table, cs[1..])
  }

  /** The Control Change callback that sets the toggle `v` for `id`. */
  function ControlChangeFor(id: Byte, v: Byte): Callback
  {
    Callback(MimData, Pack(ShortMessage(ControlChange, id, v)))
  }

  /**
   * After Control Change messages for one id, its entry is the one it had before (or a
   * default one) with `isActive` set by the last of them; the other entries are as before.
   */
  lemma {:induction false} LastControlChangeWins(t: Table, id: Byte, toggles: seq<Byte>)
    requires toggles != []
    ensures var r := Run(t, seq(|toggles|, i requires 0 <= i < |toggles| => ControlChangeFor(id, toggles[i])));
      && r.Keys == t.Keys + {id}
      && r[id] == Lookup(t, id).(isActive := toggles[|toggles| - 1] != Muted)
      && forall k :: k in t && k != id ==> r[k] == t[k]
    decreases |toggles|
  {
    var cs := seq(|toggles|, i requires 0 <= i < |toggles| => ControlChangeFor(id, toggles[i]));
    ControlChangeSetsActive(t, ShortMessage(ControlChange, id, toggles[0]));
    var t' := Dispatch(t, MimData, Pack(ShortMessage(ControlChange, id, toggles[0]))).table;
    assert Lookup(t', id) == Lookup(t, id).(isActive := toggles[0] != Muted);
    assert Run(t, cs) == Run(t', cs[1..]);
    if |toggles| > 1 {
      var rest := toggles[1..];
      assert cs[1..] == seq(|rest|, i requires 0 <= i < |rest| => ControlChangeFor(id, rest[i]));
      LastControlChangeWins(t', id, rest);
    } else {
      assert cs[1..] == [];
    }
  }

  /**
   * Control Change messages for an id followed by the Note Off for its raw code light
   * that id with the entry it had before the run (or a default one), its `isActive` set
   * by the last Control Change: the frame sent is that entry's frame.
   */
  lemma LastControlChangeIsLit(t: Table, raw: Byte, toggles: seq<Byte>, v: Byte)
    requires toggles != [] && raw + 80 < 0x100
    ensures var r := Run(t, seq(|toggles|, i requires 0 <= i < |toggles| => ControlChangeFor(raw + 80, toggles[i])));
      var e := Dispatch(r, MimData, Pack(ShortMessage(NoteOff, raw, v)));
      && e.light == Some(raw + 80)
      && e.table[raw + 80] == Lookup(t, raw + 80).(isActive := toggles[|toggles| - 1] != Muted)
      && Frame(e.table[raw + 80]) == Frame(Lookup(t, raw + 80).(isActive := toggles[|toggles| - 1] != Muted))
  {
    var id: Byte := raw + 80;
    LastControlChangeWins(t, id, toggles);
    var r := Run(t, seq(|toggles|, i requires 0 <= i < |toggles| => ControlChangeFor(id, toggles[i])));
    NoteOffLightsRemapped(r, ShortMessage(NoteOff, raw, v));
  }

  /** `MidiButtonStates`: the output device id and the button table the callback updates. */
  class MidiButtonStates {
    var deviceID: int
    var buttonStates: Table

    /** Every button number is at most 0xF, as `lightButton` asserts. */
    predicate Valid()
      reads this
    {
      NumbersFit(buttonStates)
    }

    /** `new MidiButtonStates()`: value-initialised, so the id is 0 and the table is empty. */
    constructor ()
      ensures deviceID == 0 && buttonStates == map[]
      ensures Valid()
    {
      deviceID := 0;
      buttonStates := map[];
    }

    /** `buttonStates[id]`: looks the entry up, inserting a default one when the id is missing. */
    method Entry(id: int) returns (b: ButtonState)
      modifies this
      ensures buttonStates == EnsureEntry(old(buttonStates), id)
      ensures b == buttonStates[id] == Lookup(old(buttonStates), id)
      ensures deviceID == old(deviceID)
    {
      if id !in buttonStates {
        buttonStates := buttonStates[id := DefaultButton];
      }
      b := buttonStates[id];
    }

    /** `buttonStates[id].isActive = active`. */
    method SetIsActive(id: int, active: bool)
      modifies this
      ensures buttonStates == SetActive(old(buttonStates), id, active)
      ensures deviceID == old(deviceID)
    {
      var b := Entry(id);
      buttonStates := buttonStates[id := b.(isActive := active)];
    }

    /** `buttonStates[id].buttonNumber = n`. */
    method SetButtonNumber(id: int, n: int)
      modifies this
      ensures buttonStates == old(buttonStates)[id := Lookup(old(buttonStates), id).(buttonNumber := n)]
      ensures deviceID == old(deviceID)
    {
      var b := Entry(id);
      buttonStates := buttonStates[id := b.(buttonNumber := n)];
    }

    /** `buttonStates[id].activeColor = c`. */
    method SetActiveColor(id: int, c: int)
      modifies this
      ensures buttonStates == old(buttonStates)[id := Lookup(old(buttonStates), id).(activeColor := c)]
      ensures deviceID == old(deviceID)
    {
      var b := Entry(id);
      buttonStates := buttonStates[id := b.(activeColor := c)];
    }

    /** `buttonStates[id].inactiveColor = c`. */
    method SetInactiveColor(id: int, c: int)
      modifies this
      ensures buttonStates == old(buttonStates)[id := Lookup(old(buttonStates), id).(inactiveColor := c)]
      ensures deviceID == old(deviceID)
    {
      var b := Entry(id);
      buttonStates := buttonStates[id := b.(inactiveColor := c)];
    }

    /**
     * `MidiInProc`: decode the message; a Control Change sets `isActive`, a Note Off
     * lights the entry at the remapped id (its result is ignored); the driver calls made
     * while lighting are returned.
     */
    method MidiInProc(wMsg: int, dwParam1: nat, drv: Driver) returns (calls: seq<DriverCall>)
      requires Valid()
      modifies this
      ensures Valid()
      ensures deviceID == old(deviceID)
      ensures buttonStates == Dispatch(old(buttonStates), wMsg, dwParam1).table
      ensures Dispatch(old(buttonStates), wMsg, dwParam1).light == None ==> calls == []
      ensures forall id :: Dispatch(old(buttonStates), wMsg, dwParam1).light == Some(id) ==>
        calls == LightPlan(deviceID, Frame(buttonStates[id]))[..CallsMade(LightResults(drv))]
    {
      calls := [];
      if wMsg == MimData {
        var msgType := dwParam1 % 0x100;
        var hwID := (dwParam1 / 0x100) % 0x100;
        var toggleState := (dwParam1 / 0x1_0000) % 0x100;
        if msgType == ControlChange {
          if toggleState == Muted {
            SetIsActive(hwID, false);
          } else {
            SetIsActive(hwID, true);
          }
        } else if msgType == NoteOff {
          hwID := hwID + IdOffset;
          var b := Entry(hwID);
          var errCode;
          errCode, calls := LightButton(deviceID, b, drv);
        }
      }
    }
  }
}
