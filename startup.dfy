/** The button table `main` builds before it opens the input device. */
module Startup {
  import opened Types
  import opened Buttons
  import opened SysEx
  import opened Dispatcher

  /**
   * The configured buttons: ids 0x64..0x6B are slots 0..7. Active colours are white,
   * green, blue, yellow, three magenta and black; the last button is cyan when
   * inactive, every other one red.
   */
  function StartupTable(): Table
  {
    map[
      0x64 := ButtonState(false, 0x01, 0x7F, 0),
      0x65 := ButtonState(false, 0x01, 0x04, 1),
      0x66 := ButtonState(false, 0x01, 0x10, 2),
      0x67 := ButtonState(false, 0x01, 0x05, 3),
      0x68 := ButtonState(false, 0x01, 0x11, 4),
      0x69 := ButtonState(false, 0x01, 0x11, 5),
      0x6A := ButtonState(false, 0x01, 0x11, 6),
      0x6B := ButtonState(false, 0x14, 0x00, 7)]
  }

  /** The table after the button numbers are assigned, before any colour is. */
  function NumberedTable(): Table
  {
    map[
      0x64 := DefaultButton.(buttonNumber := 0),
      0x65 := DefaultButton.(buttonNumber := 1),
      0x66 := DefaultButton.(buttonNumber := 2),
      0x67 := DefaultButton.(buttonNumber := 3),
      0x68 := DefaultButton.(buttonNumber := 4),
      0x69 := DefaultButton.(buttonNumber := 5),
      0x6A := DefaultButton.(buttonNumber := 6),
      0x6B := DefaultButton.(buttonNumber := 7)]
  }

  /** The table after the active colours are assigned too. */
  function ColoredTable(): Table
  {
    StartupTable()[0x6B := StartupTable()[0x6B].(inactiveColor := 0x01)]
  }

  /** `main`'s set-up: a new `MidiButtonStates`, filled one field assignment at a time. */
  method NewButtonStates(outputDeviceID: int) returns (states: MidiButtonStates)
    ensures fresh(states)
    ensures states.buttonStates == StartupTable()
    ensures states.deviceID == outputDeviceID
    ensures states.Valid()
  {
    states := new MidiButtonStates();
    AssignButtonNumbers(states);
    AssignActiveColors(states);
    states.SetInactiveColor(0x6B, 0x14);
    states.deviceID := outputDeviceID;
    StartupTableFacts();
  }

  method AssignButtonNumbers(states: MidiButtonStates)
    requires states.buttonStates == map[]
    modifies states
    ensures states.buttonStates == NumberedTable()
    ensures states.deviceID == old(states.deviceID)
  {
    states.SetButtonNumber(0x64, 0);
    states.SetButtonNumber(0x65, 1);
    states.SetButtonNumber(0x66, 2);
    states.SetButtonNumber(0x67, 3);
    states.SetButtonNumber(0x68, 4);
    states.SetButtonNumber(0x69, 5);
    states.SetButtonNumber(0x6A, 6);
    states.SetButtonNumber(0x6B, 7);
  }

  method AssignActiveColors(states: MidiButtonStates)
    requires states.buttonStates == NumberedTable()
    modifies states
    ensures states.buttonStates == ColoredTable()
    ensures states.deviceID == old(states.deviceID)
  {
    states.SetActiveColor(0x64, 0x7F);
    states.SetActiveColor(0x65, 0x04);
    states.SetActiveColor(0x66, 0x10);
    states.SetActiveColor(0x67, 0x05);
    states.SetActiveColor(0x68, 0x11);
    states.SetActiveColor(0x69, 0x11);
    states.SetActiveColor(0x6A, 0x11);
    states.SetActiveColor(0x6B, 0x00);
  }

  /**
   * The table holds exactly ids 0x64..0x6B; the entry at `id` is slot `id - 0x64`, starts
   * inactive, and both its colours are MIDI data bytes.
   */
  lemma StartupTableFacts()
    ensures forall id :: id in StartupTable() <==> 0x64 <= id <= 0x6B
    ensures forall id :: id in StartupTable() ==>
      && StartupTable()[id].buttonNumber == id - 0x64
      && !StartupTable()[id].isActive
      && 0 <= StartupTable()[id].activeColor < 0x80
      && 0 <= StartupTable()[id].inactiveColor < 0x80
    ensures NumbersFit(StartupTable())
  {
  }

  /**
   * The Note Off codes of the eight controller buttons (0x14..0x1B) reach the configured
   * ids 0x64..0x6B: no entry is inserted, and the frame selects slot `raw - 0x14`.
   */
  lemma ControllerButtonsAreConfigured(raw: Byte, v: Byte)
    requires 0x14 <= raw <= 0x1B
    ensures var e := Dispatch(StartupTable(), MimData, Pack(ShortMessage(NoteOff, raw, v)));
      && e.table == StartupTable()
      && e.light == Some(raw + 0x50)
      && Frame(e.table[raw + 0x50])[9] == 0x70 + (raw - 0x14)
  {
    NoteOffLightsRemapped(StartupTable(), ShortMessage(NoteOff, raw, v));
    StartupTableFacts();
    var id := raw + 0x50;
    FrameLayout(StartupTable()[id]);
  }

  /**
   * From start-up, an unmute (Control Change, toggle 0) for id 0x64 followed by the
   * release of its button (raw code 0x14) sends the frame for slot 0 in white.
   */
  lemma UnmuteThenReleaseLightsWhite(v: Byte)
    ensures var t := Dispatch(StartupTable(), MimData, Pack(ShortMessage(ControlChange, 0x64, 0x00))).table;
      var e := Dispatch(t, MimData, Pack(ShortMessage(NoteOff, 0x14, v)));
      && e.light == Some(0x64)
      && Frame(e.table[0x64]) == [0xF0, 0x00, 0x20, 0x6B, 0x7F, 0x42, 0x02, 0x00, 0x10, 0x70, 0x7F, 0xF7]
  {
    ControlChangeSetsActive(StartupTable(), ShortMessage(ControlChange, 0x64, 0x00));
    var t := Dispatch(StartupTable(), MimData, Pack(ShortMessage(ControlChange, 0x64, 0x00))).table;
    NoteOffLightsRemapped(t, ShortMessage(NoteOff, 0x14, v));
  }
}
