# Split-keyboard serial link (`remote_kb.h`), modelled in Dafny

The two halves of a split keyboard talk over one UART. The slave half turns each local key event
with a HID or remote-macro code into a fixed 5-byte frame:

- the preamble `0x69`;
- the keycode's low byte, then its high byte;
- the pressed flag (1 or 0);
- an 8-bit additive checksum of the first four bytes.

The master half drains its UART on every matrix scan through a small state machine. That state
machine re-locks on the next preamble byte after any error. It checks each completed frame and
hands the event either to the user's remote-macro hook (`process_record_user`) or to the
key-state primitives (`register_code`, `unregister_code`).

The model follows the single source file module by module:

- `types.dfy`: `byte` and `uint16`, the wire constants and the field indices.
- `checksum.dfy`: `chksum8` as a loop over an array. The `unsigned int` accumulator is made
  explicit. It is 16 bits on the AVR target (avr-gcc), so it wraps modulo 2^16, and the proof
  shows it still gives the sum modulo 256.
- `keycodes.dfy`: the `IS_HID_KC` / `IS_RM_KC` macros, `RM_BASE` and the `remote_macros` enum.
- `frame.dfy`: the frame `send_msg` builds, the test and decoding `process_uart` applies, and
  where it routes an accepted event (the calls become `Event` values). The round trip and
  error detection are proved here.
- `resync.dfy`: `get_msg`'s loop as a pure state machine (`Step`, `Feed`) over the buffer, the
  index and the log of calls, and what it does with streams of frames, garbage and lost bytes.
- `remote_kb.dfy`: the global `msg[5]`, `msg_idx` and `is_master` as fields of class `Link`.
  The UART appears as a receive sequence `rx` and a transmit sequence `tx`, and the firmware's
  key handlers as the log `events`. The class has the methods `SendMsg`, `ProcessUart`,
  `GetMsg`, `ProcessRecordRemoteKb` and `MatrixScanRemoteKb`, each proved against the
  functions above, plus client methods for the master scenarios and for the slave-to-master
  path end to end.

Where the code and its own names or comments differ, the model follows the code:

- `RM_BASE` is `0xFFFF-16`, so `IS_RM_KC` accepts 17 codes, 0xFFEF..0xFFFF, while the enum
  names only RM_1..RM_15 (0xFFEF..0xFFFD).
- On receive, every accepted non-remote-macro keycode goes to `register_code` or
  `unregister_code`. Nothing in `process_uart` (remote_kb.h:114-121) filters 0, 0xFF or the
  codes between 0xFF and `RM_BASE`.
- The preamble test and the checksum test share one branch, so the two rejections cannot be
  told apart. `Decode` returns `None` for both.
- Any nonzero pressed byte counts as pressed.

Results beyond the direct contracts:

- Changing any single byte of an accepted frame always makes it rejected
  (`SingleByteErrorDetected`). Two errors that cancel in the sum are not caught
  (`CompensatingErrorsUndetected`).
- Once `msg_idx` is past 0, the buffer starts with the preamble (`FeedSynced`, `Link.Valid`).
  So on frames that `get_msg` assembles, only the checksum test can reject.
- There is no timeout on a partial frame. If a frame loses a byte after its preamble, the next
  frame's preamble completes it, and the rest of the next frame is read from index 0
  (`LostByteAbsorbsNextPreamble`). That rest is discarded unless it contains a 0x69 byte
  (`LostByteLosesTwoEvents`). A 0x69 byte starts another false frame, which then takes the
  first bytes of the frame after it (`LostByteFalseLock`).
- The completed frame is not always rejected. Key 0x95 pressed is sent as 69 95 00 01 FF.
  Without its keycode LSB it becomes 69 00 01 FF 69, which passes the checksum, so the first
  call made is `register_code(0x0100)`, whatever frame follows (`LostKeycodeByteMisfires`).
- If the lost byte is the preamble itself, then for every forwarded code except 0x69 the other
  four bytes of that frame hold no 0x69 (`TailHoldsNoPreamble`). They are discarded at index 0,
  and the next frame is received whole (`LostPreambleKeepsNextFrame`, `LostPreambleSkipsFrame`).
  Key 0x69 is the exception, because its keycode LSB is the preamble. Key 0x69 pressed without
  its preamble leaves 69 00 01 D3, which locks the receiver. The next frame's preamble completes
  a frame that fails the checksum, and the rest of that frame is discarded, so both events are
  lost (`LostPreambleOfKey69`).

The source's `& 0xFF`, `>> 8` and `|` on keycodes are written as `% 0x100`, `/ 0x100` and `+`.
These give the same values on unsigned 16-bit keycodes whose two bytes do not overlap.

## Model

| member | source | states |
|---|---|---|
| `Checksum.Sum` | remote_kb.h:58-63 | the exact sum of the bytes `chksum8` adds up, at most 255 per byte |
| `Checksum.Checksum8` | remote_kb.h:58-63 | the checksum of a byte sequence: its sum truncated to 8 bits, the `(uint8_t)` cast |
| `Checksum.Chksum8` | remote_kb.h:58-63 | the result is the sum of the first `len` bytes modulo 256, although the 16-bit accumulator wraps at 2^16 along the way |
| `Checksum.SumPermutation` | remote_kb.h:58-63 | two byte sequences with the same multiset of bytes have the same sum |
| `Checksum.ChecksumPermutation` | remote_kb.h:58-63 | the checksum does not depend on the order of the bytes |
| `Checksum.ChecksumEmpty` | remote_kb.h:58-63 | the checksum of zero bytes is 0 |
| `Keycodes.IsHidKc` | remote_kb.h:16 | `IS_HID_KC(x)`: `x > 0 && x < 0xFF` |
| `Keycodes.IsRmKc` | remote_kb.h:17-19 | `IS_RM_KC(x)`: `x >= RM_BASE && x <= 0xFFFF`, with `RmBase` = `0xFFFF-16` = 0xFFEF |
| `Keycodes.HidRange` | remote_kb.h:16 | `IS_HID_KC(x)` holds exactly for 1..254 |
| `Keycodes.RmRange` | remote_kb.h:17-19 | `IS_RM_KC(x)` holds exactly for 0xFFEF..0xFFFF |
| `Keycodes.ClassesDisjoint` | remote_kb.h:16-19 | no code is both a HID code and a remote-macro code |
| `Keycodes.Unclassified` | remote_kb.h:16-19 | a code is in neither class exactly when it is 0 or in 0xFF..0xFFEE |
| `Keycodes.RemoteMacro` | remote_kb.h:19-29 | `RM_n` is 0xFFEE + n, a remote-macro code and not a HID code |
| `Keycodes.RmBandSize` | remote_kb.h:17-29 | `IS_RM_KC` accepts exactly 17 codes; 0xFFFE and 0xFFFF are accepted but beyond `RM_15` = 0xFFFD |
| `Frame.Lsb` | remote_kb.h:67 | the byte stored at `IDX_KCLSB`: the keycode's low byte, `keycode & 0xFF` |
| `Frame.Msb` | remote_kb.h:68 | the byte stored at `IDX_KCMSB`: the keycode's high byte, `(keycode >> 8) & 0xFF` |
| `Frame.Keycode` | remote_kb.h:106 | the keycode rebuilt little-endian: `msg[1]` OR'ed with `msg[2]` shifted left by 8, the same as `msg[1] + 256 * msg[2]` |
| `Frame.KeycodeBytes` | remote_kb.h:67-68 | splitting a keycode built from two bytes gives back those two bytes |
| `Frame.KeycodeSplitJoin` | remote_kb.h:106 | joining the two bytes a keycode was split into gives back the keycode, so with `KeycodeBytes` the little-endian split and join are inverse both ways |
| `Frame.EncodeFrame` | remote_kb.h:66-70 | the five bytes `send_msg` puts in `msg` |
| `Frame.FrameOk` | remote_kb.h:100-101 | the receiver's test: preamble in byte 0 and the checksum of bytes 0..3 in byte 4 |
| `Frame.Route` | remote_kb.h:108-121 | which handler an accepted event goes to; the handler always gets the received keycode |
| `Frame.FrameEvents` | remote_kb.h:99-124 | the calls `process_uart` makes for a frame: one if the frame passes the test, none otherwise |
| `Frame.Decode` | remote_kb.h:99-107 | a frame is decoded exactly when its preamble and checksum are right |
| `Frame.EncodeFrameBytes` | remote_kb.h:65-70 | the frame is preamble, `k & 0xFF`, `k >> 8`, 1 or 0, and the sum of those four modulo 256 |
| `Frame.DecodeEncode` | remote_kb.h:65-107 | every frame `send_msg(k, p)` builds passes the receiver's test and decodes to `(k, p)`, for every 16-bit `k` |
| `Frame.EncodeDecode` | remote_kb.h:65-107 | an accepted frame whose pressed byte is 0 or 1 is exactly the frame built for its decoded event |
| `Frame.TailHoldsNoPreamble` | remote_kb.h:65-70 | for every HID or remote-macro code other than 0x69, bytes 1..4 of its frame are not the preamble |
| `Frame.EncodeKey4Pressed` | remote_kb.h:65-70 | key 4 pressed is sent as 69 04 00 01 6E |
| `Frame.EncodeKey95Pressed` | remote_kb.h:65-70 | key 0x95 pressed is sent as 69 95 00 01 FF |
| `Frame.DecodeKey4Pressed` | remote_kb.h:99-107 | 69 04 00 01 6E decodes to key 4 pressed |
| `Frame.RejectedFrameSilent` | remote_kb.h:99-104 | a frame with a wrong preamble or checksum makes no call |
| `Frame.AcceptedFrameRouting` | remote_kb.h:105-122 | an accepted frame makes exactly one call: `process_record_user` for a remote-macro code, otherwise `register_code` if pressed or `unregister_code` if not |
| `Frame.SentFrameEvents` | remote_kb.h:106-122 | a sent frame for any keycode (0, 0xFF and gap codes included) makes exactly the routed call at the receiver |
| `Frame.SingleByteErrorDetected` | remote_kb.h:100-101 | changing any one byte of an accepted frame makes it rejected |
| `Frame.CompensatingErrorsUndetected` | remote_kb.h:100-101 | two cancelling byte errors turn key 4 into keycode 0xFF05, and that frame is accepted |
| `Resync.Step` | remote_kb.h:79-89 | one loop iteration keeps the index in 0..4 |
| `Resync.Feed` | remote_kb.h:77-91 | draining input keeps the index in 0..4 and only appends to the log of calls |
| `Resync.FeedSynced` | remote_kb.h:79-88 | once the index is past 0 the buffer starts with the preamble, and this stays true for any input |
| `Resync.FeedConcat` | remote_kb.h:77-91 | receiving a stream in two parts (two scans) has the same effect as receiving it at once |
| `Resync.FeedFrame` | remote_kb.h:79-89 | five bytes starting with the preamble, read from index 0, are handed to `process_uart` once, and the index goes back to 0 whether or not the frame is accepted |
| `Resync.FeedSentFrame` | remote_kb.h:77-91 | a frame sent for an event, received at index 0, makes the call for that event and leaves the index at 0 |
| `Resync.FeedGarbage` | remote_kb.h:81-83 | bytes other than the preamble read at index 0 are discarded, the index stays 0 and no call is made |
| `Resync.FeedFrames` | remote_kb.h:77-91 | k frames back to back, read from index 0, make k calls in the order sent and leave the index at 0 |
| `Resync.RecoverAfterGarbage` | remote_kb.h:77-91 | a frame, bytes with no preamble, then a frame: both events arrive in order |
| `Resync.FeedEventBound` | remote_kb.h:77-91 | at most (index + number of bytes) / 5 calls come out of any input |
| `Resync.LostByteAbsorbsNextPreamble` | remote_kb.h:77-91 | a frame that lost its last byte is completed by the next frame's preamble, and the rest of that frame is read from index 0 |
| `Resync.LostByteLosesTwoEvents` | remote_kb.h:77-91 | losing the checksum byte of key 4 pressed also loses the following key 5 pressed |
| `Resync.LostKeycodeByteMisfires` | remote_kb.h:77-124 | the frame for key 0x95 pressed, having lost its keycode LSB and followed by any frame, is accepted as keycode 0x0100: the log grows by `register_code(0x0100)` first |
| `Resync.LostPreambleKeepsNextFrame` | remote_kb.h:77-91 | for a forwarded code other than 0x69, a frame without its preamble is discarded, and any frame after it makes exactly its own call and leaves the index at 0 |
| `Resync.LostPreambleSkipsFrame` | remote_kb.h:77-91 | key 4 pressed without its preamble, followed by key 5 pressed, is discarded: the index ends at 0 and the only call made is `register_code(5)` |
| `Resync.LostPreambleOfKey69` | remote_kb.h:77-91 | key 0x69 pressed without its preamble, followed by key 5 pressed, loses both events: the index ends at 0 and no call is made |
| `Resync.FeedFalseLock` | remote_kb.h:79-89 | four bytes starting with the preamble, read at index 0, leave the receiver waiting at index 4 with no call made |
| `Resync.LostByteFalseLock` | remote_kb.h:77-91 | losing the checksum byte of key 4 pressed, followed by the frame for key 0x69 pressed, leaves the receiver falsely locked at index 4 with no call made |
| `RemoteKb.Forwards` | remote_kb.h:131-144 | the event is sent exactly when the board is not the master and the keycode satisfies `IS_HID_KC` or `IS_RM_KC` |
| `RemoteKb.Forwarded` | remote_kb.h:131-134 | the slave forwards exactly the key events whose code is a HID or remote-macro code |
| `RemoteKb.ForwardedAppend` | remote_kb.h:131-134 | forwarding keeps the events in order: the events forwarded from `a + b` are those forwarded from `a` followed by those forwarded from `b` |
| `RemoteKb.Link.constructor` | remote_kb.h:44-49 | a new link has an all-zero buffer, index 0, the given role, and empty UART queues and log |
| `RemoteKb.Link.SendMsg` | remote_kb.h:65-75 | `msg` holds the encoded frame, its five bytes are appended to the UART output in index order, and nothing else changes |
| `RemoteKb.Link.ProcessUart` | remote_kb.h:99-124 | the log grows by exactly the calls the frame in `msg` makes (none if rejected), the link stays valid, and nothing else changes |
| `RemoteKb.Link.GetMsg` | remote_kb.h:77-91 | every received byte is consumed, the new buffer, index and log are those of the resynchroniser run over them, the index stays in 0..4, and nothing is sent |
| `RemoteKb.Link.ProcessRecordRemoteKb` | remote_kb.h:126-147 | a slave sends the frame for the event exactly when the code is HID or remote-macro; a master sends nothing and leaves `msg` alone |
| `RemoteKb.Link.MatrixScanRemoteKb` | remote_kb.h:149-163 | a master drains the UART through the resynchroniser; a slave reads nothing and changes nothing |
| `RemoteKb.MasterReceivesKey4` | remote_kb.h:77-124 | a master that receives 69 04 00 01 6E makes exactly one call, `register_code(4)` |
| `RemoteKb.MasterDropsCorruptedFrame` | remote_kb.h:77-124 | with its last byte corrupted to 00, the same frame makes no call and leaves the index at 0 |
| `RemoteKb.SlaveToMaster` | remote_kb.h:126-163 | the bytes a slave sends for a sequence of key events, read by a master, make exactly the routed calls for the forwarded events, in order |

## Left out

- `vbus_detect` (remote_kb.h:51-56) sets a USB controller register, waits and reads a status
  bit. That is electrical detection, so the role is a constructor parameter instead.
- The `#if defined(KEYBOARD_MASTER)` / `KEYBOARD_SLAVE` build-time selection: the fixed role
  covers all three builds; master-only, slave-only and auto behave the same once the role is
  known.
- `uart_available`, `uart_getchar` and `uart_putchar` are not real I/O here. They are the
  sequences `rx` (bytes received and not yet read) and `tx` (bytes written).
- `dprintf` and `_print_message_buffer` (remote_kb.h:93-97) only print diagnostics and have no
  effect on the protocol. They are not modelled, so the sync-error and checksum-mismatch
  messages do not appear in the log.
- The internals of `register_code`, `unregister_code`, `process_record_user` and `keyrecord_t`
  are QMK code outside this file. Their calls are recorded as `Event` values. Only the
  `pressed` field of the key record is modelled.
- `Frame.RegisterCode` and `Frame.UnregisterCode` record the 16-bit keycode exactly as
  `process_uart` passes it (remote_kb.h:117, 120). QMK declares `register_code` and
  `unregister_code` with a `uint8_t` parameter, so the callee receives only the low byte:
  0x05 for 0xFF05, 0x00 for 0x0100, and so on for the codes between 0xFF and `RM_BASE`. QMK's
  header is not part of this model.
- Bit-level `&`, `>>` and `|` are stated arithmetically (see above). The values are the same.
