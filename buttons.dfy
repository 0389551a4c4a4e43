/** The per-button state of the controller and the table that holds it (`MidiButtonStates`). */
module Buttons {

  /** `MidiButtonStates::ButtonState`: colours are the controller's colour codes. */
  datatype ButtonState = ButtonState(
    isActive: bool,
    inactiveColor: int,
    activeColor: int,
    buttonNumber: int)

  /** The value a default-constructed `ButtonState` holds. */
  const DefaultButton: ButtonState := ButtonState(false, 0x01, 0x7F, 0)

  /** `std::map<int, ButtonState>`: hardware identifier to button state. */
  type Table = map<int, ButtonState>

  /** The entry `operator[]` yields for `id`: the stored one, or a default one. */
  function Lookup(t: Table, id: int): ButtonState
  {
    if id in t then t[id] else DefaultButton
  }

  /**
   * The table after `operator[]` has looked up `id`: an id that is missing gets a
   * default entry, every existing entry stays as it was.
   */
  function EnsureEntry(t: Table, id: int): (r: Table)
    ensures r.Keys == t.Keys + {id}
    ensures r[id] == Lookup(t, id)
    ensures forall k :: k in t ==> r[k] == t[k]
  {
    if id in t then t else t[id := DefaultButton]
  }

  /** `buttonStates[id].isActive = active`. */
  function SetActive(t: Table, id: int, active: bool): (r: Table)
    ensures r.Keys == t.Keys + {id}
    ensures r[id].isActive == active
    ensures r[id] == Lookup(t, id).(isActive := active)
    ensures forall k :: k in t && k != id ==> r[k] == t[k]
  {
    var t' := EnsureEntry(t, id);
    t'[id := t'[id].(isActive := active)]
  }

  /** Every button number is at most 0xF, the bound `lightButton` asserts before encoding. */
  predicate NumbersFit(t: Table)
  {
    forall id :: id in t ==> t[id].buttonNumber <= 0xF
  }
}
