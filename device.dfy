/** The `HD41Device` protocol engine: the 13-byte response buffer it owns, the serial
    link it drives, the checksum-gated retry loop and the typed operations built on it. */
module Device {
  import opened Catalog
  import opened Protocol
  import opened Decode

  class HD41Device {
    /** The member `uint8_t buffer[13]`: the last 13-byte response read. */
    var buffer: array<Byte>
    /** Bytes waiting in the UART receive queue. */
    var rx: seq<Byte>
    /** Frames written to the UART so far. */
    var log: seq<seq<Byte>>
    /** Arrival oracle: entry i lists the chunks that reach the receive queue, one per
        yield of the wait loop, during the i-th attempt from now. */
    var script: seq<seq<seq<Byte>>>

    ghost predicate Valid()
      reads this
    {
      buffer.Length == FrameSize
    }

    /** The engine and its link as one value, for stating what `send_command` does. */
    ghost function State(): Link
      reads this, buffer
    {
      Link(rx, script, log, buffer[..])
    }

    constructor (pending: seq<Byte>, arrivals: seq<seq<seq<Byte>>>)
      ensures Valid() && fresh(buffer)
      ensures State() == Link(pending, arrivals, [], seq(FrameSize, i => 0))
    {
      buffer := new Byte[FrameSize](i => 0);
      rx, script, log := pending, arrivals, [];
    }

    /** `write_array`: the frame goes out on the wire. */
    method WriteArray(frame: seq<Byte>)
      modifies this`log
      ensures log == old(log) + [frame]
    {
      log := log + [frame];
    }

    /** `available()`: the number of bytes in the receive queue. */
    function Available(): (n: nat)
      reads this
      ensures n == |rx|
      ensures n == 0 <==> rx == []
    {
      |rx|
    }

    /** `read_array(buffer, 13)`: the first 13 queued bytes move into the buffer. */
    method ReadArray()
      requires Valid() && |rx| >= FrameSize
      modifies this`rx, buffer
      ensures buffer[..] == old(rx[..FrameSize])
      ensures rx == old(rx[FrameSize..])
    {
      forall i | 0 <= i < FrameSize {
        buffer[i] := rx[i];
      }
      rx := rx[FrameSize..];
    }

    /** `read_byte`: one byte leaves the queue. */
    method ReadByte() returns (b: Byte)
      requires |rx| > 0
      modifies this`rx
      ensures b == old(rx[0]) && rx == old(rx[1..])
    {
      b := rx[0];
      rx := rx[1..];
    }

    /** The start of an attempt's wait (`millis()`): the oracle hands over the chunks
        that will arrive before this attempt times out. */
    method BeginWait() returns (chunks: seq<seq<Byte>>)
      modifies this`script
      ensures chunks == NextArrivals(old(script))
      ensures script == Drop(old(script), 1)
    {
      chunks := NextArrivals(script);
      script := Drop(script, 1);
    }

    /** `yield()`: while the engine is suspended the next chunk reaches the queue. */
    method Yield(chunk: seq<Byte>)
      modifies this`rx
      ensures rx == old(rx) + chunk
    {
      rx := rx + chunk;
    }

    /** The wait loop: poll until exactly 13 bytes are available or the time is up, which
        happens once the attempt's chunks are exhausted. */
    method WaitForResponse(chunks: seq<seq<Byte>>)
      modifies this`rx
      ensures rx == Waited(old(rx), chunks)
    {
      var k := 0;
      while Available() != FrameSize
        invariant 0 <= k <= |chunks|
        invariant Waited(old(rx), chunks) == Waited(rx, chunks[k..])
        decreases |chunks| - k
      {
        if k == |chunks| {
          break;  // more than 1000 ms since the attempt began
        }
        assert chunks[k..][1..] == chunks[k + 1..];
        Yield(chunks[k]);
        k := k + 1;
      }
    }

    /** The checksum loop: add up the buffer in an 8-bit accumulator. */
    method BufferChecksum() returns (checksum: Byte)
      requires Valid()
      ensures checksum == Checksum(buffer[..])
    {
      checksum := 0;
      var i := 0;
      while i < FrameSize
        invariant 0 <= i <= FrameSize
        invariant checksum == Checksum(buffer[..i])
      {
        ChecksumStep(buffer[..], i);
        assert buffer[..][..i + 1] == buffer[..i + 1] && buffer[..][..i] == buffer[..i];
        checksum := (checksum + buffer[i]) % 256;
        i := i + 1;
      }
      assert buffer[..FrameSize] == buffer[..];
    }

    /** The drain step: read and discard every byte available, so that nothing stale can
        be taken for the next attempt's response. */
    method Drain()
      modifies this`rx
      ensures rx == []
    {
      if Available() > 0 {
        var count := Available();
        while count > 0
          invariant count == |rx|
          decreases count
        {
          var dummy := ReadByte();
          count := count - 1;
        }
      }
    }

    /** One pass of the retry loop: write the frame, wait, read and check a 13-byte
        response, and drain the queue unless the response was accepted. */
    method TryOnce(cmd: int) returns (accepted: bool)
      requires Valid() && 0 <= cmd < MaxCommand
      modifies this, buffer
      ensures Valid() && buffer == old(buffer)
      ensures (accepted, State()) == Attempt(VorkeCommand[cmd], old(State()))
    {
      WriteArray(VorkeCommand[cmd]);
      var chunks := BeginWait();
      WaitForResponse(chunks);
      ghost var q := rx;
      if Available() == FrameSize {
        assert q[..FrameSize] == q && q[FrameSize..] == [];
        ReadArray();
        var checksum := BufferChecksum();
        if checksum == 0 {
          return true;
        }
        // invalid checksum: the bytes stay in the buffer but the attempt is not accepted
      }
      // invalid or no response: empty the queue for the next one
      Drain();
      accepted := false;
    }

    /** `send_command`: up to three attempts, stopping at the first accepted response.
        The source asserts `cmd <= MaxCommand_`, which admits one index past the table;
        the precondition here is the in-range bound. */
    method SendCommand(cmd: int) returns (ok: bool)
      requires Valid() && 0 <= cmd < MaxCommand
      modifies this, buffer
      ensures Valid() && buffer == old(buffer)
      ensures (ok, State()) == Send(VorkeCommand[cmd], old(State()), Tries)
      ensures rx == []
      ensures ok ==> Accepted(buffer[..])
    {
      ok := false;
      var attempt := 1;
      while !ok && attempt <= Tries
        invariant Valid() && buffer == old(buffer)
        invariant 1 <= attempt <= Tries + 1
        invariant ok ==> Send(VorkeCommand[cmd], old(State()), Tries) == (true, State())
        invariant !ok ==> Send(VorkeCommand[cmd], old(State()), Tries)
                          == Send(VorkeCommand[cmd], State(), Tries + 1 - attempt)
        decreases Tries + 1 - attempt
      {
        ok := TryOnce(cmd);
        attempt := attempt + 1;
      }
      SendTrace(VorkeCommand[cmd], old(State()), Tries);
      SendOutcome(VorkeCommand[cmd], old(State()), Tries);
    }

    /** `set_source`: select an input; the send's outcome is ignored and true returned. */
    method SetSource(source: int) returns (r: bool)
      requires Valid() && Input1Source <= source <= Input4Source
      modifies this, buffer
      ensures Valid() && buffer == old(buffer)
      ensures State() == Send(VorkeCommand[SourceCommand(source)], old(State()), Tries).1
      ensures r
    {
      var _ := SendCommand(SourceCommand(source));
      r := true;
    }

    /** `get_source`: query the selected input and decode response byte 6. */
    method GetSource() returns (source: int, ok: bool)
      requires Valid()
      modifies this, buffer
      ensures Valid() && buffer == old(buffer)
      ensures var sent := Send(VorkeCommand[Catalog.GetSource], old(State()), Tries);
              State() == sent.1
              && if sent.0 then Reply(source, ok) == SourceOf(buffer[6])
                 else source == InvalidSource && !ok
    {
      var sent := SendCommand(Catalog.GetSource);
      if !sent {
        ok := false;
        return InvalidSource, ok;
      }
      var r := SourceOf(buffer[6]);
      source, ok := r.value, r.ok;
    }

    /** `is_port_connected`: query one port and decode response byte 6. */
    method IsPortConnected(port: int) returns (connected: bool, ok: bool)
      requires Valid() && OutputPort <= port < MaxPort
      modifies this, buffer
      ensures Valid() && buffer == old(buffer)
      ensures var sent := Send(VorkeCommand[PortCommand(port)], old(State()), Tries);
              State() == sent.1
              && if sent.0 then Reply(connected, ok) == ConnectedOf(buffer[6])
                 else !connected && !ok
    {
      var sent := SendCommand(PortCommand(port));
      if !sent {
        return false, false;
      }
      var r := ConnectedOf(buffer[6]);
      connected, ok := r.value, r.ok;
    }

    /** `set_edid`: select an audio profile; the send's outcome is ignored and true
        returned. The source asserts `edid <= MaxEdid_`, which admits one value past the
        last profile; the precondition here is the in-range bound. */
    method SetEdid(edid: int) returns (r: bool)
      requires Valid() && AutoEdid <= edid <= HdAudioEdid
      modifies this, buffer
      ensures Valid() && buffer == old(buffer)
      ensures State() == Send(VorkeCommand[EdidCommand(edid)], old(State()), Tries).1
      ensures r
    {
      var _ := SendCommand(EdidCommand(edid));
      r := true;
    }

    /** `get_edid`: query the audio profile and decode response byte 6. On a successful
        decode the caller's flag is left as it was (`okIn`), never set to true. */
    method GetEdid(okIn: bool) returns (edid: int, ok: bool)
      requires Valid()
      modifies this, buffer
      ensures Valid() && buffer == old(buffer)
      ensures var sent := Send(VorkeCommand[Catalog.GetEdid], old(State()), Tries);
              State() == sent.1
              && if !sent.0 then edid == InvalidEdid && !ok
                 else if EdidOf(buffer[6]).ok then edid == EdidOf(buffer[6]).value && ok == okIn
                 else edid == InvalidEdid && !ok
    {
      ok := okIn;
      var sent := SendCommand(Catalog.GetEdid);
      if !sent {
        ok := false;
        return InvalidEdid, ok;
      }
      var r := EdidOf(buffer[6]);
      if !r.ok {
        ok := false;
        return InvalidEdid, ok;
      }
      edid := r.value;
    }

    /** `set_auto`: switch automatic input selection on or off; always returns true. */
    method SetAuto(enabled: bool) returns (r: bool)
      requires Valid()
      modifies this, buffer
      ensures Valid() && buffer == old(buffer)
      ensures State() == Send(VorkeCommand[AutoCommand(enabled)], old(State()), Tries).1
      ensures r
    {
      var _ := SendCommand(AutoCommand(enabled));
      r := true;
    }

    /** `get_auto`: query automatic input selection and decode response byte 4. */
    method GetAuto() returns (enabled: bool, ok: bool)
      requires Valid()
      modifies this, buffer
      ensures Valid() && buffer == old(buffer)
      ensures var sent := Send(VorkeCommand[Catalog.GetAuto], old(State()), Tries);
              State() == sent.1
              && if sent.0 then Reply(enabled, ok) == SwitchStateOf(buffer[4])
                 else !enabled && !ok
    {
      var sent := SendCommand(Catalog.GetAuto);
      if !sent {
        return false, false;
      }
      var r := SwitchStateOf(buffer[4]);
      enabled, ok := r.value, r.ok;
    }

    /** `set_arc`: switch the audio return channel on or off; always returns true. */
    method SetArc(enabled: bool) returns (r: bool)
      requires Valid()
      modifies this, buffer
      ensures Valid() && buffer == old(buffer)
      ensures State() == Send(VorkeCommand[ArcCommand(enabled)], old(State()), Tries).1
      ensures r
    {
      var _ := SendCommand(ArcCommand(enabled));
      r := true;
    }

    /** `get_arc`: query the audio return channel and decode response byte 4. */
    method GetArc() returns (enabled: bool, ok: bool)
      requires Valid()
      modifies this, buffer
      ensures Valid() && buffer == old(buffer)
      ensures var sent := Send(VorkeCommand[Catalog.GetArc], old(State()), Tries);
              State() == sent.1
              && if sent.0 then Reply(enabled, ok) == SwitchStateOf(buffer[4])
                 else !enabled && !ok
    {
      var sent := SendCommand(Catalog.GetArc);
      if !sent {
        return false, false;
      }
      var r := SwitchStateOf(buffer[4]);
      enabled, ok := r.value, r.ok;
    }
  }
}
