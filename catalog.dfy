/** The HD41's wire vocabulary: unsigned bytes, the 8-bit additive checksum, the
    command enumeration and the fixed table of 13-byte frames the driver sends. */
module Catalog {

  /** An unsigned 8-bit value (`uint8_t`). */
  type Byte = x: int | 0 <= x < 256

  /** Length of every command frame and of the response buffer. */
  const FrameSize := 13

  // The `Command` enumeration: one index per row of the frame table.
  const SetSourceInput1 := 0
  const SetSourceInput2 := 1
  const SetSourceInput3 := 2
  const SetSourceInput4 := 3
  const GetSource := 4
  const IsOutputConnected := 5
  const IsInput1Connected := 6
  const IsInput2Connected := 7
  const IsInput3Connected := 8
  const IsInput4Connected := 9
  const SetEdidAuto := 10
  const SetEdidStereo := 11
  const SetEdidDolbyDts := 12
  const SetEdidHdAudio := 13
  const GetEdid := 14
  const EnableAuto := 15
  const DisableAuto := 16
  const GetAuto := 17
  const EnableArc := 18
  const DisableArc := 19
  const GetArc := 20
  const MaxCommand := 21

  // The `Source` enumeration (active video input).
  const InvalidSource := -1
  const Input1Source := 0
  const Input4Source := 3
  const MaxSource := 4

  // The `Edid` enumeration (audio profile).
  const InvalidEdid := -1
  const AutoEdid := 0
  const HdAudioEdid := 3
  const MaxEdid := 4

  // The `Port` enumeration (Output, Input1..Input4).
  const OutputPort := 0
  const MaxPort := 5

  /** The bytes of `s` added up as an unbounded integer. */
  function Sum(s: seq<Byte>): nat
  {
    if s == [] then 0 else Sum(s[..|s| - 1]) + s[|s| - 1]
  }

  /** What an 8-bit accumulator holds after adding up `s` from zero. */
  function Checksum(s: seq<Byte>): Byte
  {
    Sum(s) % 256
  }

  /** Adding the next byte: the sum grows by it, and an 8-bit accumulator wraps modulo 256. */
  lemma ChecksumStep(s: seq<Byte>, k: nat)
    requires k < |s|
    ensures Sum(s[..k + 1]) == Sum(s[..k]) + s[k]
    ensures Checksum(s[..k + 1]) == (Checksum(s[..k]) + s[k]) % 256
  {
    assert s[..k + 1][..k] == s[..k];
  }

  /** A frame the device accepts: sync bytes 0xA5 0x5B and a zero 8-bit sum. */
  predicate WellFormedFrame(f: seq<Byte>)
  {
    |f| == FrameSize && f[0] == 0xA5 && f[1] == 0x5B && Checksum(f) == 0
  }

  /** The frame table, one row per command, checksum bytes baked in. */
  const VorkeCommand: seq<seq<Byte>> := [
    [0xa5, 0x5b, 0x02, 0x03, 0x01, 0x00, 0x01, 0x00, 0x00, 0x00, 0x00, 0x00, 0xf9], // Select Input 1
    [0xa5, 0x5b, 0x02, 0x03, 0x02, 0x00, 0x01, 0x00, 0x00, 0x00, 0x00, 0x00, 0xf8], // Select Input 2
    [0xa5, 0x5b, 0x02, 0x03, 0x03, 0x00, 0x01, 0x00, 0x00, 0x00, 0x00, 0x00, 0xf7], // Select Input 3
    [0xa5, 0x5b, 0x02, 0x03, 0x04, 0x00, 0x01, 0x00, 0x00, 0x00, 0x00, 0x00, 0xf6], // Select Input 4
    [0xa5, 0x5b, 0x02, 0x01, 0x01, 0x00, 0x00, 0x00, 0x00, 0x00, 0x00, 0x00, 0xfc], // Query Selected Input
    [0xa5, 0x5b, 0x01, 0x05, 0x01, 0x00, 0x00, 0x00, 0x00, 0x00, 0x00, 0x00, 0xf9], // Query Conn State Output
    [0xa5, 0x5b, 0x01, 0x04, 0x01, 0x00, 0x00, 0x00, 0x00, 0x00, 0x00, 0x00, 0xfa], // Query Conn State Input 1
    [0xa5, 0x5b, 0x01, 0x04, 0x02, 0x00, 0x00, 0x00, 0x00, 0x00, 0x00, 0x00, 0xf9], // Query Conn State Input 2
    [0xa5, 0x5b, 0x01, 0x04, 0x03, 0x00, 0x00, 0x00, 0x00, 0x00, 0x00, 0x00, 0xf8], // Query Conn State Input 3
    [0xa5, 0x5b, 0x01, 0x04, 0x04, 0x00, 0x00, 0x00, 0x00, 0x00, 0x00, 0x00, 0xf7], // Query Conn State Input 4
    [0xa5, 0x5b, 0x03, 0x02, 0x01, 0x00, 0x01, 0x00, 0x00, 0x00, 0x00, 0x00, 0xf9], // Select Audio Auto
    [0xa5, 0x5b, 0x03, 0x02, 0x02, 0x00, 0x01, 0x00, 0x00, 0x00, 0x00, 0x00, 0xf8], // Select Audio Stereo 2.0
    [0xa5, 0x5b, 0x03, 0x02, 0x03, 0x00, 0x01, 0x00, 0x00, 0x00, 0x00, 0x00, 0xf7], // Select Audio Dolby/DTS 5.1
    [0xa5, 0x5b, 0x03, 0x02, 0x04, 0x00, 0x01, 0x00, 0x00, 0x00, 0x00, 0x00, 0xf6], // Select Audio HD Audio 7.1
    [0xa5, 0x5b, 0x01, 0x0c, 0x01, 0x00, 0x00, 0x00, 0x00, 0x00, 0x00, 0x00, 0xf2], // Query Selected Audio
    [0xa5, 0x5b, 0x02, 0x05, 0x0f, 0x00, 0x00, 0x00, 0x00, 0x00, 0x00, 0x00, 0xea], // AutoSwitch On
    [0xa5, 0x5b, 0x02, 0x05, 0xf0, 0x00, 0x00, 0x00, 0x00, 0x00, 0x00, 0x00, 0x09], // AutoSwitch Off
    [0xa5, 0x5b, 0x01, 0x0d, 0x00, 0x00, 0x00, 0x00, 0x00, 0x00, 0x00, 0x00, 0xf2], // Query AutoSwitch
    [0xa5, 0x5b, 0x10, 0x01, 0x0f, 0x00, 0x01, 0x00, 0x00, 0x00, 0x00, 0x00, 0xdf], // ARC On
    [0xa5, 0x5b, 0x10, 0x01, 0xf0, 0x00, 0x01, 0x00, 0x00, 0x00, 0x00, 0x00, 0xfe], // ARC Off
    [0xa5, 0x5b, 0x10, 0x02, 0x00, 0x00, 0x01, 0x00, 0x00, 0x00, 0x00, 0x00, 0xed]  // Query ARC
  ]

  /** The sum of a 13-byte frame, written out term by term. */
  lemma SumOfFrame(f: seq<Byte>)
    requires |f| == FrameSize
    ensures Sum(f) == f[0] as int + f[1] + f[2] + f[3] + f[4] + f[5] + f[6]
                      + f[7] + f[8] + f[9] + f[10] + f[11] + f[12]
  {
    assert f[..FrameSize] == f;
    ChecksumStep(f, 0); ChecksumStep(f, 1); ChecksumStep(f, 2); ChecksumStep(f, 3);
    ChecksumStep(f, 4); ChecksumStep(f, 5); ChecksumStep(f, 6); ChecksumStep(f, 7);
    ChecksumStep(f, 8); ChecksumStep(f, 9); ChecksumStep(f, 10); ChecksumStep(f, 11);
    ChecksumStep(f, 12);
  }

  /** Every row of the table is a well-formed 13-byte frame. */
  lemma CatalogWellFormed()
    ensures |VorkeCommand| == MaxCommand
    ensures forall c :: 0 <= c < MaxCommand ==> WellFormedFrame(VorkeCommand[c])
  {
    forall c | 0 <= c < MaxCommand
      ensures WellFormedFrame(VorkeCommand[c])
    {
      SumOfFrame(VorkeCommand[c]);
    }
  }

  /** The command `set_source(source)` sends: `SetSourceInput1 + source`. Its frame
      is the select-input frame whose parameter byte is the 1-based input number. */
  function SourceCommand(source: int): (c: int)
    requires Input1Source <= source <= Input4Source
    ensures SetSourceInput1 <= c <= SetSourceInput4
    ensures VorkeCommand[c][2] == 0x02 && VorkeCommand[c][3] == 0x03 && VorkeCommand[c][4] == source + 1
  {
    SetSourceInput1 + source
  }

  /** The command `set_edid(edid)` sends: `SetEdidAuto + edid`. Its frame is the
      select-audio frame whose parameter byte is the 1-based profile number. */
  function EdidCommand(edid: int): (c: int)
    requires AutoEdid <= edid <= HdAudioEdid
    ensures SetEdidAuto <= c <= SetEdidHdAudio
    ensures VorkeCommand[c][2] == 0x03 && VorkeCommand[c][3] == 0x02 && VorkeCommand[c][4] == edid + 1
  {
    SetEdidAuto + edid
  }

  /** The command `is_port_connected(port)` sends: `IsOutputConnected + port`. The
      output is queried with opcode 0x05, input N with opcode 0x04 and parameter N. */
  function PortCommand(port: int): (c: int)
    requires OutputPort <= port < MaxPort
    ensures IsOutputConnected <= c <= IsInput4Connected
    ensures VorkeCommand[c][2] == 0x01
    ensures VorkeCommand[c][3] == if port == OutputPort then 0x05 else 0x04
    ensures VorkeCommand[c][4] == if port == OutputPort then 0x01 else port
  {
    IsOutputConnected + port
  }

  /** The command `set_auto(enabled)` sends: parameter 0x0F switches on, 0xF0 off. */
  function AutoCommand(enabled: bool): (c: int)
    ensures c == EnableAuto || c == DisableAuto
    ensures VorkeCommand[c][2] == 0x02 && VorkeCommand[c][3] == 0x05
    ensures VorkeCommand[c][4] == if enabled then 0x0F else 0xF0
  {
    if enabled then EnableAuto else DisableAuto
  }

  /** The command `set_arc(enabled)` sends: parameter 0x0F switches on, 0xF0 off. */
  function ArcCommand(enabled: bool): (c: int)
    ensures c == EnableArc || c == DisableArc
    ensures VorkeCommand[c][2] == 0x10 && VorkeCommand[c][3] == 0x01
    ensures VorkeCommand[c][4] == if enabled then 0x0F else 0xF0
  {
    if enabled then EnableArc else DisableArc
  }

  /** The range check `set_edid` asserts, as written: it uses `<=` against MaxEdid_. */
  predicate EdidGuardAsWritten(edid: int)
  {
    edid >= 0 && edid <= MaxEdid
  }

  /** The as-written guard lets `edid == MaxEdid` through; that value is no audio
      profile, and `SetEdidAuto + edid` then names the GetEdid query, not a select frame. */
  lemma EdidGuardAdmitsQuery()
    ensures EdidGuardAsWritten(MaxEdid)
    ensures !(AutoEdid <= MaxEdid <= HdAudioEdid)
    ensures SetEdidAuto + MaxEdid == GetEdid
    ensures VorkeCommand[GetEdid][2] == 0x01 && VorkeCommand[GetEdid][3] == 0x0c
  {
  }

  /** The range check `send_command` asserts, as written: it uses `<=` against MaxCommand_. */
  predicate CommandGuardAsWritten(cmd: int)
  {
    cmd >= 0 && cmd <= MaxCommand
  }

  /** The as-written guard lets `cmd == MaxCommand` through, one index past the table. */
  lemma CommandGuardAdmitsMissingRow()
    ensures CommandGuardAsWritten(MaxCommand)
    ensures MaxCommand == |VorkeCommand|
  {
  }
}
