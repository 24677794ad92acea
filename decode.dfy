/** How the query operations read one byte of a checksum-valid response: a value plus a
    flag saying whether the byte was in its legal domain. */
module Decode {
  import opened Catalog

  /** A decoded payload byte; `ok` is false when the byte is a protocol violation. */
  datatype Reply<T> = Reply(value: T, ok: bool)

  /** `get_source`'s reading of response byte 6: the device reports inputs 1..4, the
      driver numbers them from 0; anything else is InvalidSource. */
  function SourceOf(b: Byte): (r: Reply<int>)
    ensures r.ok <==> 1 <= b <= 4
    ensures r.ok ==> Input1Source <= r.value <= Input4Source && r.value + 1 == b
    ensures !r.ok ==> r.value == InvalidSource
  {
    var source := b - 1;
    if source < Input1Source || source > Input4Source then Reply(InvalidSource, false)
    else Reply(source, true)
  }

  /** `get_edid`'s reading of response byte 6: audio profiles 1..4 on the wire, numbered
      from 0 by the driver; anything else is InvalidEdid. */
  function EdidOf(b: Byte): (r: Reply<int>)
    ensures r.ok <==> 1 <= b <= 4
    ensures r.ok ==> AutoEdid <= r.value <= HdAudioEdid && r.value + 1 == b
    ensures !r.ok ==> r.value == InvalidEdid
  {
    var edid := b - 1;
    if edid < AutoEdid || edid > HdAudioEdid then Reply(InvalidEdid, false)
    else Reply(edid, true)
  }

  /** `is_port_connected`'s reading of response byte 6: 0x00 is connected, 0xFF is not,
      anything else is a violation reported as (false, not ok). */
  function ConnectedOf(b: Byte): (r: Reply<bool>)
    ensures r.ok <==> b == 0x00 || b == 0xFF
    ensures r.value <==> b == 0x00
  {
    if b != 0x00 && b != 0xFF then Reply(false, false)
    else Reply(b == 0x00, true)
  }

  /** `get_auto`'s and `get_arc`'s reading of response byte 4: 0x0F is on, 0xF0 is off,
      anything else is a violation reported as (false, not ok). */
  function SwitchStateOf(b: Byte): (r: Reply<bool>)
    ensures r.ok <==> b == 0x0F || b == 0xF0
    ensures r.value <==> b == 0x0F
  {
    if b != 0xF0 && b != 0x0F then Reply(false, false)
    else Reply(b == 0x0F, true)
  }

  /** The parameter byte of the frame `set_source(source)` sends reads back, under the
      query's decoding, as that same source. */
  lemma SourceFrameRoundTrip(source: int)
    requires Input1Source <= source <= Input4Source
    ensures SourceOf(VorkeCommand[SourceCommand(source)][4]) == Reply(source, true)
  {
  }

  /** The parameter byte of the frame `set_edid(edid)` sends reads back as that profile. */
  lemma EdidFrameRoundTrip(edid: int)
    requires AutoEdid <= edid <= HdAudioEdid
    ensures EdidOf(VorkeCommand[EdidCommand(edid)][4]) == Reply(edid, true)
  {
  }

  /** The on/off parameter of the frames `set_auto` and `set_arc` send reads back, under
      the boolean query's decoding, as the requested state. */
  lemma SwitchFrameRoundTrip(enabled: bool)
    ensures SwitchStateOf(VorkeCommand[AutoCommand(enabled)][4]) == Reply(enabled, true)
    ensures SwitchStateOf(VorkeCommand[ArcCommand(enabled)][4]) == Reply(enabled, true)
  {
  }
}
