# midi_lighting: a Dafny model of the MIDI-to-LED path

The program keeps the LEDs of an Arturia controller in step with mute states that other
software reports over a virtual MIDI port. A driver callback, `MidiInProc`, receives each short
MIDI message and acts on the button table `MidiButtonStates::buttonStates`:

- a Control Change on channel 1 (`0xB0`) records whether the button at its id is active;
- a Note Off on channel 10 (`0x89`) adds 80 to its id and lights that button with
  `lightButton`.

`lightButton` opens the output device and builds a 12-byte System Exclusive frame,
`F0 00 20 6B 7F 42 02 00 10 <0x70 + slot> <colour> F7`. It sends the frame with
`sendMessage` (prepare, send, unprepare) and then closes the device. At start-up the devices
are found by the first word of their names, and the table is filled with eight buttons.

The model has one module per part:

- `Types`: bytes, `Option`, and driver status codes.
- `Buttons`: `ButtonState`, the table, and `operator[]`'s insert-on-miss behaviour.
- `SysEx`: the frame encoder, plus a frame parser that serves as its inverse.
- `Transport`: `sendMessage` and `lightButton`.
- `Dispatcher`: message decoding, the `Dispatch` function, and the `MidiButtonStates` class
  with `MidiInProc`.
- `Startup`: the start-up table.
- `Devices`: `getFirstWord` and the device-map loops.

Driver calls are not modelled. Each method gets a `Driver` value holding the result of every
call it can make. It returns the list of driver calls it issued. Only two arguments are recorded: the
device id given to `midiOutOpen` and the frame given to `midiOutLongMsg`. The device handle and
the `MIDIHDR` pointer are not.

Bytes are integers 0..255. An `int` stored into a `char` keeps its low eight bits
(`Types.LowByte`). `dwParam1` is an unsigned number, and `>> n` is division by `2^n`.

Three behaviours of the code are easy to miss; the model follows the code:

- A failed `sendMessage` makes `lightButton` return at once, without closing the device.
- Every driver failure in `sendMessage` and `lightButton` returns the same code, 1.
- Nothing checks `buttonNumber` when the table is filled in. It is checked only by the
  `assert` in `lightButton`, which the model makes a precondition of `LightButton` and an
  invariant (`Valid`) of the class.

## Model

| member | source | states |
|---|---|---|
| Types.LowByte | winMM.cpp:82-102 | storing an int into a frame byte keeps its value when it is 0..255 and otherwise keeps it modulo 256 |
| Buttons.EnsureEntry | winMM.cpp:20-27 | `operator[]` on a missing id adds exactly that key with the default state (inactive, colours 0x01/0x7F, slot 0); every existing entry is unchanged |
| Buttons.SetActive | winMM.cpp:146-151 | assigning `isActive` at an id sets that flag on the (possibly new) entry, keeps its other fields and leaves every other entry unchanged |
| Buttons.Lookup | winMM.cpp:20-27 | the entry `operator[]` yields: the stored one, or the default one for a missing id; its properties are stated by `Buttons.EnsureEntry` and `Dispatcher.MidiButtonStates.Entry` |
| SysEx.ColorCode | winMM.cpp:84-90 | the colour the button shows: the active colour when active, the inactive one otherwise; stated by `SysEx.ColorSelection` and `SysEx.UnusedColorIrrelevant` |
| SysEx.Frame | winMM.cpp:82-103 | the frame is 12 bytes, starts with the fixed preamble and ends with F7; the select and colour bytes are stated by `SysEx.FrameLayout`, `SysEx.ColorSelection`, `SysEx.ParseFrameInverse` and `SysEx.FrameDeterminedBy` |
| SysEx.FrameLayout | winMM.cpp:92-103 | the frame is 12 bytes: the fixed preamble `F0 00 20 6B 7F 42 02 00 10`, then `0x70 + buttonNumber` (in 0x70..0x7F for slots 0..15), the colour, and `F7` |
| SysEx.ColorSelection | winMM.cpp:82-90 | byte 10 is the active colour when the button is active and the inactive colour otherwise |
| SysEx.UnusedColorIrrelevant | winMM.cpp:84-90 | the colour that is not selected has no influence on the frame |
| SysEx.ParseFrameInverse | winMM.cpp:92-103 | parsing the encoded frame returns the button's slot and selected colour |
| SysEx.FrameDeterminedBy | winMM.cpp:92-103 | two encodable buttons give equal frames if and only if they have the same slot and selected colour |
| SysEx.FrameIsSysEx | winMM.cpp:92-103 | with colours below 0x80 the frame starts with F0, ends with F7 and carries only data bytes between them |
| Transport.CallsMade | winMM.cpp:32-49 | the calls that run are those up to and including the first failure: all before the last succeeded, and if not all ran the last one failed |
| Transport.CallsMadeAllSucceed | winMM.cpp:32-49 | every call runs and succeeds exactly when every result is a success |
| Transport.LightCallsMade | winMM.cpp:61-129 | `lightButton` stops after a failed open (1 call), prepare (2), send (3) or unprepare (4), and otherwise makes all 5 calls |
| Transport.SendMessage | winMM.cpp:32-49 | returns 0 exactly when prepare, send and unprepare all succeed, otherwise 1; it issues the phases in order and none after the first failure |
| Transport.FillFrame | winMM.cpp:92-103 | the new 12-element buffer, filled index by index, holds exactly the button's frame |
| Transport.LightButton | winMM.cpp:61-129 | returns 0 exactly when open, prepare, send, unprepare and close all succeed, otherwise 1; it issues open, the three phases with the button's frame, then close, and stops at the first failure |
| Transport.CloseOnlyAfterSend | winMM.cpp:111-125 | the device is closed if and only if open and all three phases of `sendMessage` succeeded |
| Transport.FrameSentIff | winMM.cpp:92-111 | the button's frame is handed to the driver if and only if open and prepare succeeded |
| Transport.NoUnprepareAfterFailedSend | winMM.cpp:38-42 | when the send fails, unprepare is not called |
| Dispatcher.Decode | winMM.cpp:139-141 | the three decoded bytes pack back to the low three bytes of `dwParam1`; see `Dispatcher.DecodePack` and `Dispatcher.DecodeIgnoresHighBytes` |
| Dispatcher.Dispatch | winMM.cpp:138-156 | one callback removes no entry and changes at most `isActive` of an existing one; a new entry is a default one apart from `isActive`; when it lights an id, that id is in the table and no existing entry changed. The per-message rules are `Dispatcher.IgnoredMessages`, `Dispatcher.ControlChangeSetsActive` and `Dispatcher.NoteOffLightsRemapped` |
| Dispatcher.DecodePack | winMM.cpp:139-141 | decoding recovers the type, id and toggle bytes from bytes 0, 1 and 2 of `dwParam1` |
| Dispatcher.DecodeIgnoresHighBytes | winMM.cpp:139-141 | bits of `dwParam1` above its low three bytes do not affect the decoded message |
| Dispatcher.IgnoredMessages | winMM.cpp:138-156 | a message that is not `MIM_DATA`, or whose type is neither 0xB0 nor 0x89, changes nothing and lights nothing |
| Dispatcher.ControlChangeSetsActive | winMM.cpp:146-151 | 0xB0 sets `isActive` at its id to "toggle is not 0x7F", inserting a default entry for a new id; all other entries and fields are kept; nothing is lit |
| Dispatcher.NoteOffLightsRemapped | winMM.cpp:152-155 | 0x89 lights the entry at id + 80 and changes no existing entry; only a default entry for a missing id + 80 is added |
| Dispatcher.DispatchKeepsNumbersFit | winMM.cpp:138-156 | no message makes a button number exceed 0xF, the bound `lightButton` asserts |
| Dispatcher.LastControlChangeWins | winMM.cpp:146-151 | after a run of 0xB0 messages for one id, its entry is the one it had before (or a default one) with `isActive` set by the last message; the other entries are unchanged |
| Dispatcher.LastControlChangeIsLit | winMM.cpp:146-155 | 0xB0 messages for an id, then the 0x89 for its raw code, light that id with the frame of its entry before the run (or a default one) with `isActive` set by the last 0xB0 |
| Dispatcher.MidiButtonStates.constructor | winMM.cpp:15-30 | a new object has an empty table and device id 0 |
| Dispatcher.MidiButtonStates.Entry | winMM.cpp:20-27 | `buttonStates[id]` returns the stored entry or a default one, inserting it in place |
| Dispatcher.MidiButtonStates.SetIsActive | winMM.cpp:146-151 | updates the table in place to `SetActive` of the old one |
| Dispatcher.MidiButtonStates.SetButtonNumber | winMM.cpp:238-245 | replaces the entry at the id (default if missing) with its slot changed; nothing else changes |
| Dispatcher.MidiButtonStates.SetActiveColor | winMM.cpp:248-255 | replaces the entry at the id (default if missing) with its active colour changed; nothing else changes |
| Dispatcher.MidiButtonStates.SetInactiveColor | winMM.cpp:257 | replaces the entry at the id (default if missing) with its inactive colour changed; nothing else changes |
| Dispatcher.MidiButtonStates.MidiInProc | winMM.cpp:131-158 | the table becomes what `Dispatch` gives, whatever the driver returns; no driver call is made unless a Note Off lights an entry, and then the calls are those of `lightButton` for that entry's frame; every button number stays at most 0xF, the bound `lightButton` asserts |
| Startup.NewButtonStates | winMM.cpp:237-259 | the field-by-field set-up yields exactly the start-up table and the output device id |
| Startup.AssignButtonNumbers | winMM.cpp:238-245 | assigning slots 0..7 to ids 0x64..0x6B of an empty table gives eight default buttons with those slots |
| Startup.AssignActiveColors | winMM.cpp:248-255 | the active colours white, green, blue, yellow, magenta ×3 and black go to ids 0x64..0x6B |
| Startup.StartupTableFacts | winMM.cpp:237-257 | the table holds exactly ids 0x64..0x6B; id maps to slot id − 0x64, starts inactive, and has colours below 0x80 |
| Startup.ControllerButtonsAreConfigured | winMM.cpp:152-155 | raw Note Off codes 0x14..0x1B reach ids 0x64..0x6B, add no entry and select slot raw − 0x14 |
| Startup.UnmuteThenReleaseLightsWhite | winMM.cpp:146-155 | from start-up, unmute of 0x64 then release of raw 0x14 lights slot 0 in white: `F0 00 20 6B 7F 42 02 00 10 70 7F F7` |
| Devices.Find | winMM.cpp:161 | `find` gives the first index of the character, or -1 exactly when it is absent |
| Devices.FirstWord | winMM.cpp:160-164 | the result is a prefix of the name with no space, followed in the name by a space or by the end |
| Devices.FirstWordUnique | winMM.cpp:160-164 | those three properties determine the first word |
| Devices.GetDevices | winMM.cpp:166-195 | every device's first word is a key; each key maps to a device with that first word, and no later device has it (the highest index wins) |

## Left out

- The winmm driver (`midiOutOpen`, `midiOutPrepareHeader`, `midiOutLongMsg`,
  `midiOutUnprepareHeader`, `midiOutClose`, `midiIn*`, `Get*DevCaps`, `GetNumDevs`) is
  foreign code. It appears only as the result codes in a `Driver` value and, for device
  enumeration, as the list of names.
- `std::mutex` and the driver's callback thread are concurrency. Callbacks are modelled as
  sequential calls, in delivery order.
- Logging with `std::cout`/`std::cerr` is left out.
- The `MIDIHDR` fields are left out. Only the 12 frame bytes handed to `midiOutLongMsg`
  are modelled. The header's `dwBufferLength` is 16, so it claims 4 more bytes than the
  12-byte buffer `malloc` allocated, and what the driver does with them is not modelled.
- LightButton: does not model the `malloc` failure branch, because memory allocation is not
  modelled. The buffer is a 12-element array.
- LightButton: does not model the unused local `value`. It is computed from `isActive` but
  never read.
- Signedness of `char` is not modelled: frame bytes are 0..255.
- GetDevices: does not model a failing `Get*DevCapsA` call, whose result is ignored in the
  source and whose name buffer is then stale. It also does not model the 32-character limit on
  device names, because both are driver behaviour.
- `main` is start-up wiring and is left out apart from the table set-up (`Startup`). That
  covers the lookup of "Arturia" and "loopMIDI-cpp" with `at` and its try/catch, opening,
  starting, stopping and closing the input device, and the keyboard polling loop with `Sleep`.
- The conversion of `deviceID` to `UINT` is not modelled: the id is passed to `midiOutOpen`
  as it is.
