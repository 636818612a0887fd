/** The 5-byte frame: what send_msg puts on the wire and what process_uart accepts and dispatches. */
module Frame {
  import opened Types
  import opened Checksum
  import opened Keycodes

  /** A key event as carried by one frame. */
  datatype KeyEvent = KeyEvent(code: uint16, pressed: bool)

  /**
   * A call made into the keyboard firmware when a frame is accepted. The key-state calls record
   * the 16-bit keycode as process_uart passes it; QMK's register_code and unregister_code take an
   * 8-bit parameter, so the callee receives only its low byte.
   */
  datatype Event =
    | RegisterCode(code: uint16)                       // register_code(keycode)
    | UnregisterCode(code: uint16)                     // unregister_code(keycode)
    | ProcessRecordUser(code: uint16, pressed: bool)   // process_record_user(keycode, &record)

  /** Low and high byte of a keycode: `keycode & 0xFF` and `(keycode >> 8) & 0xFF`. */
  function Lsb(k: uint16): (b: byte) { k % 0x100 }
  function Msb(k: uint16): (b: byte) { k / 0x100 }

  /** The keycode `(uint16_t)lsb | ((uint16_t)msb << 8)`: the two bytes do not overlap, so `|` adds. */
  function Keycode(lsb: byte, msb: byte): (k: uint16)
  {
    lsb as int + msb as int * 0x100
  }

  /** Joining two bytes into a keycode and splitting it again gives the same two bytes. */
  lemma KeycodeBytes(lsb: byte, msb: byte)
    ensures Lsb(Keycode(lsb, msb)) == lsb && Msb(Keycode(lsb, msb)) == msb
  {
  }

  /** Splitting a keycode into its two bytes and joining them again gives the keycode back. */
  lemma KeycodeSplitJoin(k: uint16)
    ensures Keycode(Lsb(k), Msb(k)) == k
  {
  }

  /** The frame send_msg(k, p) builds: preamble, keycode LSB, keycode MSB, pressed, checksum. */
  function EncodeFrame(k: uint16, p: bool): (f: seq<byte>)
    ensures |f| == MsgLen
  {
    var head := [Preamble, Lsb(k), Msb(k), if p then 1 else 0];
    head + [Checksum8(head)]
  }

  /** The test process_uart applies: right preamble and checksum of bytes 0..3 in byte 4. */
  predicate FrameOk(f: seq<byte>)
    requires |f| == MsgLen
  {
    f[IdxPreamble] == Preamble && f[IdxChecksum] == Checksum8(f[..IdxChecksum])
  }

  /** The key event process_uart reads out of an accepted frame, if it accepts it. */
  function Decode(f: seq<byte>): (r: Option<KeyEvent>)
    requires |f| == MsgLen
    ensures r.Some? <==> FrameOk(f)
  {
    if !FrameOk(f) then None
    else Some(KeyEvent(Keycode(f[IdxKcLsb], f[IdxKcMsb]), f[IdxPressed] != 0))
  }

  /** Where process_uart sends an accepted event: remote macros to the user hook, the rest to the key state. */
  function Route(e: KeyEvent): (r: Event)
    ensures r.code == e.code
  {
    if IsRmKc(e.code) then ProcessRecordUser(e.code, e.pressed)
    else if e.pressed then RegisterCode(e.code)
    else UnregisterCode(e.code)
  }

  /** The calls process_uart makes for the frame in its buffer. */
  function FrameEvents(f: seq<byte>): (evs: seq<Event>)
    requires |f| == MsgLen
    ensures |evs| == if FrameOk(f) then 1 else 0
  {
    match Decode(f)
    case None => []
    case Some(e) => [Route(e)]
  }

  /** The bytes of several frames sent one after the other. */
  function EncodeAll(es: seq<KeyEvent>): (bytes: seq<byte>)
    ensures |bytes| == MsgLen * |es|
  {
    if es == [] then [] else EncodeFrame(es[0].code, es[0].pressed) + EncodeAll(es[1..])
  }

  /** The calls the receiver makes for several accepted events, in order. */
  function Routes(es: seq<KeyEvent>): (evs: seq<Event>)
    ensures |evs| == |es|
  {
    if es == [] then [] else [Route(es[0])] + Routes(es[1..])
  }

  lemma {:induction false} EncodeAllAppend(a: seq<KeyEvent>, b: seq<KeyEvent>)
    ensures EncodeAll(a + b) == EncodeAll(a) + EncodeAll(b)
    decreases |a|
  {
    if a == [] {
      assert a + b == b;
    } else {
      assert (a + b)[0] == a[0] && (a + b)[1..] == a[1..] + b;
      EncodeAllAppend(a[1..], b);
    }
  }

  lemma Sum4(f: seq<byte>)
    requires |f| == 4
    ensures Sum(f) == f[0] as int + f[1] as int + f[2] as int + f[3] as int
  {
    assert f[1..][1..][1..][1..] == [];
    assert Sum(f[1..][1..][1..]) == f[3];
    assert Sum(f[1..][1..]) == f[2] as int + f[3] as int;
  }

  /** Every frame send_msg builds passes the receiver's test and decodes to what was sent. */
  lemma DecodeEncode(k: uint16, p: bool)
    ensures FrameOk(EncodeFrame(k, p))
    ensures Decode(EncodeFrame(k, p)) == Some(KeyEvent(k, p))
  {
  }

  /** Conversely, an accepted frame whose pressed byte is 0 or 1 is exactly the encoding of its event. */
  lemma EncodeDecode(f: seq<byte>)
    requires |f| == MsgLen && FrameOk(f) && f[IdxPressed] <= 1
    ensures EncodeFrame(Decode(f).value.code, Decode(f).value.pressed) == f
  {
    var e := Decode(f).value;
    KeycodeBytes(f[1], f[2]);
    assert f == f[..IdxChecksum] + [f[IdxChecksum]];
    assert f[..IdxChecksum] == [Preamble, Lsb(e.code), Msb(e.code), if e.pressed then 1 else 0];
  }

  /** The bytes of a frame written out: the checksum byte is the sum of the other four modulo 256. */
  lemma EncodeFrameBytes(k: uint16, p: bool)
    ensures var pr := if p then 1 else 0;
      EncodeFrame(k, p) == [Preamble, Lsb(k), Msb(k), pr, (Preamble + Lsb(k) + Msb(k) + pr) % 0x100]
  {
    Sum4([Preamble, Lsb(k), Msb(k), if p then 1 else 0]);
  }

  /**
   * After the preamble, the frame for a forwarded code other than 0x69 holds no preamble byte:
   * its LSB, MSB and pressed byte are not 0x69, and neither is its checksum.
   */
  lemma TailHoldsNoPreamble(k: uint16, p: bool)
    requires (IsHidKc(k) || IsRmKc(k)) && k != Preamble
    ensures forall i :: IdxKcLsb <= i < MsgLen ==> EncodeFrame(k, p)[i] != Preamble
  {
    EncodeFrameBytes(k, p);
  }

  /** The frame for key 4 pressed is 69 04 00 01 6E ... */
  lemma EncodeKey4Pressed()
    ensures EncodeFrame(4, true) == [0x69, 0x04, 0x00, 0x01, 0x6E]
  {
    EncodeFrameBytes(4, true);
  }

  /** The frame for key 0x95 pressed is 69 95 00 01 FF: its checksum byte is 0xFF. */
  lemma EncodeKey95Pressed()
    ensures EncodeFrame(0x95, true) == [0x69, 0x95, 0x00, 0x01, 0xFF]
  {
    EncodeFrameBytes(0x95, true);
  }

  /** ... and those five bytes decode back to key 4 pressed. */
  lemma DecodeKey4Pressed()
    ensures Decode([0x69, 0x04, 0x00, 0x01, 0x6E]) == Some(KeyEvent(4, true))
  {
    EncodeKey4Pressed();
    DecodeEncode(4, true);
  }

  /** A frame that fails the preamble or checksum test produces no call. */
  lemma RejectedFrameSilent(f: seq<byte>)
    requires |f| == MsgLen
    requires f[IdxPreamble] != Preamble || f[IdxChecksum] != Checksum8(f[..IdxChecksum])
    ensures FrameEvents(f) == []
  {
  }

  /**
   * An accepted frame produces exactly one call: process_record_user for a remote-macro code,
   * otherwise register_code or unregister_code, with no other filtering of the keycode value.
   */
  lemma AcceptedFrameRouting(f: seq<byte>)
    requires |f| == MsgLen && FrameOk(f)
    ensures var k, p := Keycode(f[IdxKcLsb], f[IdxKcMsb]), f[IdxPressed] != 0;
      FrameEvents(f) == [if IsRmKc(k) then ProcessRecordUser(k, p)
                         else if p then RegisterCode(k) else UnregisterCode(k)]
  {
  }

  /** What a sent frame does at the receiver, for every 16-bit keycode (0, 0xFF and the gap included). */
  lemma SentFrameEvents(k: uint16, p: bool)
    ensures IsRmKc(k) ==> FrameEvents(EncodeFrame(k, p)) == [ProcessRecordUser(k, p)]
    ensures !IsRmKc(k) && p ==> FrameEvents(EncodeFrame(k, p)) == [RegisterCode(k)]
    ensures !IsRmKc(k) && !p ==> FrameEvents(EncodeFrame(k, p)) == [UnregisterCode(k)]
  {
    DecodeEncode(k, p);
  }

  lemma NonzeroMod(d: int)
    requires 0 < d < 0x100 || -0x100 < d < 0
    ensures d % 0x100 != 0
  {
  }

  /** Changing any one byte of an accepted frame always makes process_uart reject it. */
  lemma SingleByteErrorDetected(f: seq<byte>, i: nat, b: byte)
    requires |f| == MsgLen && FrameOk(f)
    requires i < MsgLen && b != f[i]
    ensures !FrameOk(f[i := b])
  {
    var g := f[i := b];
    if 1 <= i <= 3 {
      assert g[..IdxChecksum] == f[..IdxChecksum][i := b];
      Sum4(f[..IdxChecksum]);
      Sum4(g[..IdxChecksum]);
      var d := b - f[i];
      assert Sum(g[..IdxChecksum]) == Sum(f[..IdxChecksum]) + d;
      NonzeroMod(d);
      assert (Sum(f[..IdxChecksum]) + d) % 0x100 != Sum(f[..IdxChecksum]) % 0x100;
    } else if i == IdxChecksum {
      assert g[..IdxChecksum] == f[..IdxChecksum];
    }
  }

  /**
   * The additive checksum does not catch two errors that cancel: raising byte 1 by one and
   * lowering byte 2 by one turns key 4 into keycode 0xFF05 and the frame is still accepted.
   */
  lemma CompensatingErrorsUndetected()
    ensures FrameOk([0x69, 0x05, 0xFF, 0x01, 0x6E])
    ensures FrameEvents([0x69, 0x05, 0xFF, 0x01, 0x6E]) == [RegisterCode(0xFF05)]
  {
    assert [0x69, 0x05, 0xFF, 0x01, 0x6E][..IdxChecksum] == [0x69, 0x05, 0xFF, 0x01];
    Sum4([0x69, 0x05, 0xFF, 0x01]);
  }
}
