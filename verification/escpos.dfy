/**
  The minimal ESC/POS command stream the BLE printer path sends:
  ESC @ (initialise), the UTF-8 text, three line feeds, GS V 0 (full cut).
*/
module Escpos {
  import opened Wrappers
  import opened Bytes
  import opened Utf8

  /** ESC @: initialise the printer. */
  const Init: seq<byte> := [0x1B, 0x40]
  /** Three line feeds before the cut. */
  const Feed: seq<byte> := [0x0A, 0x0A, 0x0A]
  /** GS V 0: full cut. */
  const Cut: seq<byte> := [0x1D, 0x56, 0x00]
  /** `b"\n\n\n\x1dV\x00"`. */
  const Footer: seq<byte> := Feed + Cut

  /** `_escpos_frame(text)`: initialise, the encoded text, feed and cut. */
  function EscposFrame(text: string): (r: seq<byte>)
    ensures |r| == 8 + |Encode(text)|
    ensures r[..2] == Init && r[|r| - 6..] == Footer
  {
    Init + Encode(text) + Footer
  }

  /** The text carried by a frame, or None when `frame` is not a frame of well-formed UTF-8. */
  function UnframeText(frame: seq<byte>): (r: Option<string>)
  {
    if |frame| < 8 || frame[..2] != Init || frame[|frame| - 6..] != Footer then None
    else Decode(frame[2..|frame| - 6])
  }

  /** The printer receives the whole text: unframing a frame gives its text back. */
  lemma UnframeFrame(text: string)
    ensures UnframeText(EscposFrame(text)) == Some(text)
  {
    var f := EscposFrame(text);
    assert f[2..|f| - 6] == Encode(text);
    DecodeEncode(text);
  }

  /** Different texts give different frames. */
  lemma FrameInjective(a: string, b: string)
    requires EscposFrame(a) == EscposFrame(b)
    ensures a == b
  {
    UnframeFrame(a);
    UnframeFrame(b);
  }
}
