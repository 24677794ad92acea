# HD41 protocol engine in Dafny

A model of the `HD41Device` protocol engine that drives a Vorke HD41 HDMI switch over a
serial line. Every command is a fixed 13-byte frame from a constant table. `send_command`
makes up to three attempts. Each attempt writes the frame and waits for exactly 13
response bytes. It reads them into the member buffer and accepts them only if their
8-bit sum is zero. Any failed attempt empties the receive queue. The typed queries
decode one byte of the accepted buffer. The setters turn an enum value into a command
index by adding an offset.

Modules:

- `Catalog` (catalog.dfy): the `Byte` type and the 8-bit checksum. It also holds the
  `Command`, `Source`, `Edid` and `Port` enumerations as integer constants, the frame
  table `VorkeCommand`, and the enum-to-command offsets the setters and
  `is_port_connected` use.
- `Protocol` (protocol.dfy): what `send_command` does, stated on values. A `Link` holds
  the receive queue, the arrival oracle, the log of written frames and the buffer.
  `Attempt` is one pass of the retry loop and `Send` is the loop. Lemmas relate the
  outcome to an independent description: the queue each attempt would see
  (`Arrival`) and the first accepted one (`FirstAccepted`).
- `Decode` (decode.dfy): the payload decoders for byte 6 and byte 4.
- `Device` (device.dfy): the class `HD41Device`. It owns `buffer` (a 13-element array),
  the receive queue `rx`, the written-frame `log` and the arrival `script`. It has the
  imperative `SendCommand` with its wait, checksum and drain loops, and the typed
  operations. `WaitForResponse`, `TryOnce`, `SendCommand` and the typed operations are
  proved equal to a `Protocol` function of the old state. The transport methods
  (`WriteArray`, `ReadArray`, `ReadByte`, `BeginWait`, `Yield`) and `Drain` state
  their own effect on the queue, the log or the buffer.

The transport is abstract. `write_array` appends to `log`. `available()` is `|rx|`.
`read_array` and `read_byte` take bytes from the front of `rx`. The clock and `yield()`
are replaced by an arrival oracle. Each attempt takes the next entry of `script`. That
entry is a list of chunks, and one chunk reaches `rx` at each yield of the wait loop.
When the chunks run out, the 1000 ms timeout has passed. If `script` is empty, nothing
arrives. An entry lists only what arrives before that attempt's wait ends: once the queue
holds exactly 13 bytes, chunks left in the entry are discarded with it, and bytes that
arrive later belong to the next entry.

Behaviour of the code worth noting:

- Every setter returns `true` whatever the send did. It does not report transport success.
- The receive queue is drained after every failed attempt, whether it timed out, saw
  the wrong byte count or failed the checksum. After a bad checksum the queue is
  already empty.
- `get_edid` never sets the success flag to true. On success the caller's flag is left
  as it was; the model passes it in as `okIn`.
- Two range asserts are one too permissive (see Findings).

## Model

| member | source | states |
|---|---|---|
| `Catalog.CatalogWellFormed` | vorke_hd41.h:288-310 | the table has 21 rows, and every row is 13 bytes, starts 0xA5 0x5B, and sums to 0 mod 256 |
| `Catalog.ChecksumStep` | vorke_hd41.h:248-251 | adding the next byte to the uint8_t accumulator gives the running sum mod 256 |
| `Catalog.SumOfFrame` | vorke_hd41.h:247-251 | the sum of a 13-byte frame is the sum of its thirteen bytes |
| `Catalog.SourceCommand` | vorke_hd41.h:106-111 | `SetSourceInput1 + source` names a select-input frame (class 0x02, opcode 0x03) whose parameter byte is source+1 |
| `Catalog.EdidCommand` | vorke_hd41.h:149-154 | `SetEdidAuto + edid` names a select-audio frame (class 0x03, opcode 0x02) whose parameter byte is edid+1 |
| `Catalog.PortCommand` | vorke_hd41.h:130-133 | `IsOutputConnected + port` names a connection query: opcode 0x05 with parameter 1 for the output, opcode 0x04 with parameter N for input N |
| `Catalog.AutoCommand` | vorke_hd41.h:172-175 | set_auto sends the auto-switch frame whose parameter is 0x0F when enabling and 0xF0 when disabling |
| `Catalog.ArcCommand` | vorke_hd41.h:194-197 | set_arc sends the ARC frame whose parameter is 0x0F when enabling and 0xF0 when disabling |
| `Catalog.EdidGuardAdmitsQuery` | vorke_hd41.h:150 | the as-written assert admits edid == MaxEdid_, which is no profile and maps to the GetEdid query frame |
| `Catalog.CommandGuardAdmitsMissingRow` | vorke_hd41.h:217 | the as-written assert admits cmd == MaxCommand_, one index past the 21-row table |
| `Protocol.Waited` | vorke_hd41.h:233-242 | the queue at the end of the wait loop: polling stops at exactly 13 bytes, one chunk arrives per yield, and running out of chunks is the timeout; the wait only appends, so the earlier queue is a prefix of the result |
| `Protocol.WaitedBounds` | vorke_hd41.h:233-242 | the wait only adds bytes to the queue; it ends with exactly 13 bytes, or after all of the attempt's bytes have arrived (timeout) |
| `Protocol.Accepted` | vorke_hd41.h:244-253 | a response is trusted iff exactly 13 bytes were available and their 8-bit sum is zero, that is, iff its last byte is the two's complement of the 8-bit sum of the first twelve |
| `Protocol.Attempt` | vorke_hd41.h:230-273 | one pass of the retry loop writes the frame once and leaves the queue empty (13 bytes read, or drained); it is accepted only with a 13-byte zero-sum buffer, and the buffer changes only when exactly 13 bytes were available |
| `Protocol.Send` | vorke_hd41.h:227-283 | the retry loop stops at the first accepted attempt; after at least one try the queue is empty, a true result means the buffer holds an accepted response, and a false result means exactly `tries` frames were written |
| `Protocol.FirstAccepted` | vorke_hd41.h:229-256 | the first attempt that would see an accepted response: every earlier attempt is rejected, and the result is n when none is accepted |
| `Protocol.ArrivalShift` | vorke_hd41.h:261-273 | after an attempt the queue is empty, so the next attempt sees only its own arrivals |
| `Protocol.SendLog` | vorke_hd41.h:228-231 | a run writes the frame once per attempt made, up to and including the first accepted one |
| `Protocol.SendScript` | vorke_hd41.h:228-241 | a run uses up one arrival entry per attempt made |
| `Protocol.SendTrace` | vorke_hd41.h:227-274 | a run writes the frame once per attempt and stops at the first accepted attempt. It takes one arrival entry per attempt and leaves the queue empty |
| `Protocol.SendOutcome` | vorke_hd41.h:244-282 | a run succeeds iff the first accepted attempt comes before the limit, and the buffer then holds exactly that attempt's bytes |
| `Protocol.SendSucceedsIff` | vorke_hd41.h:276-282 | send_command makes between 1 and 3 attempts, and returns true iff one of its three attempts sees exactly 13 bytes summing to 0 |
| `Protocol.NoReplyGivesUp` | vorke_hd41.h:229-242 | a silent device gets three frames and send_command fails with the buffer untouched |
| `Protocol.CorruptTwiceThenValid` | vorke_hd41.h:244-259 | two bad-checksum replies and then a good one: success on the third attempt, and the buffer holds the good reply |
| `Protocol.StrayByteDrained` | vorke_hd41.h:235-273 | 13 valid bytes plus one stray byte fail the attempt (exactly 13 are required); the stray byte is drained and the next attempt succeeds on its own reply |
| `Decode.SourceOf` | vorke_hd41.h:119-127 | byte 6 decodes to a source iff it is 1..4, giving byte-1; otherwise InvalidSource and not ok |
| `Decode.EdidOf` | vorke_hd41.h:162-169 | byte 6 decodes to a profile iff it is 1..4, giving byte-1; otherwise InvalidEdid and not ok |
| `Decode.ConnectedOf` | vorke_hd41.h:138-146 | ok iff byte 6 is 0x00 or 0xFF; connected iff it is 0x00, so any rejected byte reads as (false, not ok) |
| `Decode.SwitchStateOf` | vorke_hd41.h:183-191 | ok iff byte 4 is 0x0F or 0xF0; enabled iff it is 0x0F, so any rejected byte reads as (false, not ok); get_arc uses the same rule |
| `Decode.SourceFrameRoundTrip` | vorke_hd41.h:289-292 | the parameter byte of set_source's frame, decoded as get_source does, gives back the same source |
| `Decode.EdidFrameRoundTrip` | vorke_hd41.h:299-302 | the parameter byte of set_edid's frame, decoded as get_edid does, gives back the same profile |
| `Decode.SwitchFrameRoundTrip` | vorke_hd41.h:304-308 | the parameter byte of the auto and ARC on/off frames, decoded as get_auto/get_arc do, gives back the requested state |
| `Device.HD41Device.constructor` | vorke_hd41.h:104 | a new engine has a 13-byte buffer, the given queue and arrivals, and nothing written |
| `Device.HD41Device.WriteArray` | vorke_hd41.h:231 | write_array appends the frame to the log of written frames |
| `Device.HD41Device.Available` | vorke_hd41.h:235-266 | available() is the number of bytes in the receive queue; it is zero exactly when the queue is empty |
| `Device.HD41Device.BeginWait` | vorke_hd41.h:234 | the start of the wait (`millis()`) takes this attempt's arrivals from the script, one entry per attempt |
| `Device.HD41Device.Yield` | vorke_hd41.h:241 | during a yield the next chunk of arrivals is appended to the queue |
| `Device.HD41Device.ReadByte` | vorke_hd41.h:271 | read_byte removes and returns the first queued byte |
| `Device.HD41Device.ReadArray` | vorke_hd41.h:245 | read_array moves the first 13 queued bytes into the buffer |
| `Device.HD41Device.WaitForResponse` | vorke_hd41.h:233-242 | the polling loop leaves the queue as `Protocol.Waited` describes |
| `Device.HD41Device.BufferChecksum` | vorke_hd41.h:247-251 | the uint8_t accumulator ends as the buffer's sum mod 256 |
| `Device.HD41Device.Drain` | vorke_hd41.h:264-273 | reading `available()` bytes one at a time leaves the queue empty |
| `Device.HD41Device.TryOnce` | vorke_hd41.h:230-273 | one pass of the retry loop changes the engine exactly as `Attempt` says |
| `Device.HD41Device.SendCommand` | vorke_hd41.h:216-283 | the retry loop changes the engine exactly as `Send` with 3 tries says; the queue ends empty; on true the buffer holds an accepted response |
| `Device.HD41Device.SetSource` | vorke_hd41.h:106-111 | sends frame `SourceCommand(source)` and returns true whatever the send did |
| `Device.HD41Device.GetSource` | vorke_hd41.h:113-128 | on send failure (InvalidSource, false); otherwise `SourceOf(buffer[6])` |
| `Device.HD41Device.IsPortConnected` | vorke_hd41.h:130-147 | sends `PortCommand(port)`; on failure (false, false); otherwise `ConnectedOf(buffer[6])` |
| `Device.HD41Device.SetEdid` | vorke_hd41.h:149-154 | sends frame `EdidCommand(edid)` and returns true whatever the send did |
| `Device.HD41Device.GetEdid` | vorke_hd41.h:156-170 | on send failure or a byte outside 1..4, (InvalidEdid, false); otherwise byte-1 with the caller's flag unchanged |
| `Device.HD41Device.SetAuto` | vorke_hd41.h:172-175 | sends `AutoCommand(enabled)` and returns true whatever the send did |
| `Device.HD41Device.GetAuto` | vorke_hd41.h:177-192 | on send failure (false, false); otherwise `SwitchStateOf(buffer[4])` |
| `Device.HD41Device.SetArc` | vorke_hd41.h:194-197 | sends `ArcCommand(enabled)` and returns true whatever the send did |
| `Device.HD41Device.GetArc` | vorke_hd41.h:199-214 | on send failure (false, false); otherwise `SwitchStateOf(buffer[4])` |

## Left out

- Serial I/O and timing (`write_array`, `available`, `read_array`, `read_byte`, `millis`,
  `yield`) belong to the host framework. They are modelled by the queue, the log and the
  per-attempt arrival oracle. Clock arithmetic and the cooperative scheduler are not modelled.
- Bytes arrive only at a yield of the wait loop. None arrive between the loop's exit and
  the re-check of `available()` after it, and none arrive while the queue is drained.
- `ESP_LOGE`/`ESP_LOGW` logging is a side effect only and is not modelled.
- `HD41Switch` and `HD41BinarySensor` are not part of this model. They are framework
  integration: polling, switch and sensor objects, and `publish_state` callbacks.
- The `assert` calls are modelled as preconditions with the in-range bounds.
- The enums are plain integers. The C++ int-to-enum casts are not modelled.
- The constructor fills the buffer with zeros. The C++ member is left uninitialized.

## Findings

| source | as written | input that shows it | evidently intended | confidence | as-written member | corrected member |
|---|---|---|---|---|---|---|
| vorke_hd41.h:150 | `assert(edid >= 0 && edid <= Edid::MaxEdid_)` | `set_edid(MaxEdid_)` passes the assert and sends `SetEdidAuto + 4`, the GetEdid query | `edid < Edid::MaxEdid_` | high; not executed | `Catalog.EdidGuardAdmitsQuery` | `Catalog.EdidCommand` |
| vorke_hd41.h:217 | `assert(cmd >= 0 && cmd <= Command::MaxCommand_)` | `send_command(MaxCommand_)` passes the assert and reads row 21 of a 21-row table | `cmd < Command::MaxCommand_` | high; not executed | `Catalog.CommandGuardAdmitsMissingRow` | `Device.HD41Device.SendCommand` |
