/**
 * The System Exclusive frame that sets one button's LED (the frame-building part of
 * `lightButton`), and a parser that reads a frame back, used as its partner.
 */
module SysEx {
  import opened Types
  import opened Buttons

  const SysExStart: Byte := 0xF0
  const SysExEnd: Byte := 0xF7
  const ButtonSelectBase := 0x70

  /** Start byte, manufacturer ID 00 20 6B, and the controller's fixed command bytes. */
  const Preamble: seq<Byte> := [SysExStart, 0x00, 0x20, 0x6B, 0x7F, 0x42, 0x02, 0x00, 0x10]

  /** The colour the button shows in its current state. */
  function ColorCode(b: ButtonState): int
  {
    if b.isActive then b.activeColor else b.inactiveColor
  }

  /** The 12 bytes `lightButton` writes into its buffer. */
  function Frame(b: ButtonState): (f: seq<Byte>)
    ensures |f| == 12 && f[..9] == Preamble && f[11] == SysExEnd
  {
    Preamble + [LowByte(ButtonSelectBase + b.buttonNumber), LowByte(ColorCode(b)), SysExEnd]
  }

  /** A button select and a colour read back from a frame. */
  datatype LightCommand = LightCommand(buttonNumber: int, color: Byte)

  /** Reads a frame of the shape above; anything else is not a light command. */
  function ParseFrame(f: seq<Byte>): (r: Option<LightCommand>)
    ensures r.Some? ==> |f| == 12 && 0 <= r.value.buttonNumber <= 0xF
  {
    if |f| == 12 && f[..9] == Preamble && f[11] == SysExEnd
       && ButtonSelectBase <= f[9] <= ButtonSelectBase + 0xF
    then Some(LightCommand(f[9] - ButtonSelectBase, f[10]))
    else None
  }

  /** A button whose number fits in the select nibble and whose colours are bytes. */
  predicate Encodable(b: ButtonState)
  {
    0 <= b.buttonNumber <= 0xF && 0 <= b.activeColor < 0x100 && 0 <= b.inactiveColor < 0x100
  }

  /** The byte layout: fixed framing, the select byte in 0x70..0x7F, then the colour. */
  lemma FrameLayout(b: ButtonState)
    requires 0 <= b.buttonNumber <= 0xF
    ensures |Frame(b)| == 12
    ensures Frame(b)[..9] == [0xF0, 0x00, 0x20, 0x6B, 0x7F, 0x42, 0x02, 0x00, 0x10]
    ensures Frame(b)[9] == 0x70 + b.buttonNumber && 0x70 <= Frame(b)[9] <= 0x7F
    ensures Frame(b)[11] == 0xF7
  {
  }

  /** Byte 10 is the active colour when active and the inactive colour otherwise. */
  lemma ColorSelection(b: ButtonState)
    requires 0 <= b.activeColor < 0x100 && 0 <= b.inactiveColor < 0x100
    ensures b.isActive ==> Frame(b)[10] == b.activeColor
    ensures !b.isActive ==> Frame(b)[10] == b.inactiveColor
  {
  }

  /** The colour that is not shown has no influence on the frame. */
  lemma UnusedColorIrrelevant(b: ButtonState, c: int)
    ensures b.isActive ==> Frame(b.(inactiveColor := c)) == Frame(b)
    ensures !b.isActive ==> Frame(b.(activeColor := c)) == Frame(b)
  {
  }

  /** Parsing an encoded frame gives back the button number and the selected colour. */
  lemma ParseFrameInverse(b: ButtonState)
    requires Encodable(b)
    ensures ParseFrame(Frame(b)) == Some(LightCommand(b.buttonNumber, ColorCode(b)))
  {
  }

  /** Two encodable buttons give the same frame exactly when they select the same slot and colour. */
  lemma FrameDeterminedBy(b1: ButtonState, b2: ButtonState)
    requires Encodable(b1) && Encodable(b2)
    ensures Frame(b1) == Frame(b2) <==>
            b1.buttonNumber == b2.buttonNumber && ColorCode(b1) == ColorCode(b2)
  {
    ParseFrameInverse(b1);
    ParseFrameInverse(b2);
  }

  /**
   * With colours below 0x80 the frame is a well-formed System Exclusive message of
   * MIDI 1.0: status bytes only at its two ends, data bytes (below 0x80) between them.
   */
  lemma FrameIsSysEx(b: ButtonState)
    requires 0 <= b.buttonNumber <= 0xF && 0 <= b.activeColor < 0x80 && 0 <= b.inactiveColor < 0x80
    ensures Frame(b)[0] == 0xF0 && Frame(b)[|Frame(b)| - 1] == 0xF7
    ensures forall i :: 0 < i < |Frame(b)| - 1 ==> Frame(b)[i] < 0x80
  {
  }
}
