/**
 * The link state and its operations: the global `msg[5]`, `msg_idx` and the role become fields
 * of one object, and the UART and the firmware's key handlers become sequences on it.
 */
module RemoteKb {
  import opened Types
  import opened Checksum
  import opened Keycodes
  import opened Frame
  import opened Resync

  /** Which half of the keyboard this is; chosen once (at build time or from the VBUS probe). */
  datatype Role = Master | Slave

  /** A local key event leaves this half: only on the slave, and only for HID and remote-macro codes. */
  predicate Forwards(role: Role, k: uint16)
  {
    role == Slave && (IsHidKc(k) || IsRmKc(k))
  }

  /** The local key events a slave puts on the wire, in order. */
  function Forwarded(keys: seq<KeyEvent>): (out: seq<KeyEvent>)
    ensures forall e :: e in out ==> e in keys && Forwards(Slave, e.code)
    ensures forall e :: e in keys && Forwards(Slave, e.code) ==> e in out
  {
    if keys == [] then []
    else
      var last := keys[|keys| - 1];
      Forwarded(keys[..|keys| - 1]) + if Forwards(Slave, last.code) then [last] else []
  }

  lemma {:induction false} ForwardedAppend(a: seq<KeyEvent>, b: seq<KeyEvent>)
    ensures Forwarded(a + b) == Forwarded(a) + Forwarded(b)
    decreases |b|
  {
    if b == [] {
      assert a + b == a;
    } else {
      var init, last := b[..|b| - 1], b[|b| - 1];
      var extra := if Forwards(Slave, last.code) then [last] else [];
      assert (a + b)[..|a + b| - 1] == a + init && (a + b)[|a + b| - 1] == last;
      ForwardedAppend(a, init);
      calc {
        Forwarded(a + b);
        Forwarded(a + init) + extra;
        Forwarded(a) + Forwarded(init) + extra;
        Forwarded(a) + (Forwarded(init) + extra);
        Forwarded(a) + Forwarded(b);
      }
    }
  }

  class Link {
    /** The role: the build's `KEYBOARD_MASTER`/`KEYBOARD_SLAVE`, or `is_master` in the auto build. */
    const role: Role
    /** The frame buffer `msg[UART_MSG_LEN]`, shared by sending and receiving. */
    const msg: array<byte>
    /** `msg_idx`: where the next received byte goes. */
    var msgIdx: nat
    /** Bytes the UART has received and not yet handed out (`uart_available`, `uart_getchar`). */
    var rx: seq<byte>
    /** Bytes written with `uart_putchar`, oldest first. */
    var tx: seq<byte>
    /** Calls made into register_code, unregister_code and process_record_user, oldest first. */
    var events: seq<Event>

    /** The index is in range, and once past 0 the buffer holds the start of a frame. */
    ghost predicate Valid()
      reads this, msg
    {
      msg.Length == MsgLen && msgIdx < MsgLen && (msgIdx > 0 ==> msg[IdxPreamble] == Preamble)
    }

    /** The receiver's state as the resynchroniser specification sees it. */
    ghost function Rx(): (s: RxState)
      reads this, msg
      requires Valid()
      ensures Wf(s)
    {
      RxState(msg[..], msgIdx, events)
    }

    /** A link in the start-up state: zeroed buffer, index 0, nothing received or sent yet. */
    constructor (role: Role)
      ensures Valid() && fresh(msg)
      ensures this.role == role
      ensures msg[..] == [0, 0, 0, 0, 0] && msgIdx == 0
      ensures rx == [] && tx == [] && events == []
    {
      this.role := role;
      msg := new byte[MsgLen](_ => 0);
      msgIdx := 0;
      rx, tx, events := [], [], [];
      new;
      assert msg[..] == [msg[0], msg[1], msg[2], msg[3], msg[4]];
    }

    /** send_msg: build the frame for (keycode, pressed) in `msg`, then write its five bytes in order. */
    method SendMsg(keycode: uint16, pressed: bool)
      requires Valid()
      modifies this, msg
      ensures Valid()
      ensures msg[..] == EncodeFrame(keycode, pressed)
      ensures tx == old(tx) + EncodeFrame(keycode, pressed)
      ensures msgIdx == old(msgIdx) && rx == old(rx) && events == old(events)
    {
      msg[IdxPreamble] := Preamble;
      msg[IdxKcLsb] := keycode % 0x100;           // keycode & 0xFF
      msg[IdxKcMsb] := (keycode / 0x100) % 0x100; // (keycode >> 8) & 0xFF
      msg[IdxPressed] := if pressed then 1 else 0;
      ghost var head := [Preamble, Lsb(keycode), Msb(keycode), if pressed then 1 else 0];
      assert msg[..IdxChecksum] == head;
      var sum := Chksum8(msg, MsgLen - 1);
      msg[IdxChecksum] := sum;
      assert msg[..] == head + [Checksum8(head)];
      for i := 0 to MsgLen
        invariant tx == old(tx) + msg[..i]
        invariant msg[..] == EncodeFrame(keycode, pressed)
        invariant msgIdx == old(msgIdx) && rx == old(rx) && events == old(events)
      {
        tx := tx + [msg[i]];
      }
    }

    /**
     * process_uart: check the preamble and checksum of the frame in `msg`; if both are right,
     * pass the little-endian keycode and the pressed flag (any nonzero byte 3) on.
     */
    method ProcessUart()
      requires Valid()
      modifies this
      ensures Valid()
      ensures events == old(events) + FrameEvents(msg[..])
      ensures msgIdx == old(msgIdx) && rx == old(rx) && tx == old(tx)
    {
      var sum := Chksum8(msg, MsgLen - 1);
      if msg[IdxPreamble] != Preamble || msg[IdxChecksum] != sum {
        // The source only prints diagnostics here.
      } else {
        var keycode := Keycode(msg[IdxKcLsb], msg[IdxKcMsb]);
        var pressed := msg[IdxPressed] != 0;
        if IsRmKc(keycode) {
          events := events + [ProcessRecordUser(keycode, pressed)];
        } else if pressed {
          events := events + [RegisterCode(keycode)];
        } else {
          events := events + [UnregisterCode(keycode)];
        }
      }
    }

    /** get_msg: drain every received byte through the resynchroniser. */
    method GetMsg()
      requires Valid()
      modifies this, msg
      ensures Valid()
      ensures Rx() == Feed(old(Rx()), old(rx))
      ensures rx == [] && tx == old(tx)
    {
      while |rx| > 0
        invariant Valid()
        invariant Feed(Rx(), rx) == Feed(old(Rx()), old(rx))
        invariant tx == old(tx)
        decreases |rx|
      {
        ghost var before := Rx();
        var b := rx[0];
        rx := rx[1..];
        msg[msgIdx] := b;
        if msgIdx == IdxPreamble && msg[msgIdx] != Preamble {
          msgIdx := 0;
        } else if msgIdx == MsgLen - 1 {
          ProcessUart();
          msgIdx := 0;
        } else {
          msgIdx := msgIdx + 1;
        }
        assert Rx() == Step(before, b);
      }
    }

    /** process_record_remote_kb: a slave forwards HID and remote-macro key events; a master does nothing. */
    method ProcessRecordRemoteKb(keycode: uint16, pressed: bool)
      requires Valid()
      modifies this, msg
      ensures Valid()
      ensures tx == old(tx) + if Forwards(role, keycode) then EncodeFrame(keycode, pressed) else []
      ensures msg[..] == if Forwards(role, keycode) then EncodeFrame(keycode, pressed) else old(msg[..])
      ensures msgIdx == old(msgIdx) && rx == old(rx) && events == old(events)
    {
      if role == Master {
        // Reserved in the source for a reverse link.
      } else if IsHidKc(keycode) || IsRmKc(keycode) {
        SendMsg(keycode, pressed);
      }
    }

    /** matrix_scan_remote_kb: a master reads the link on every scan; a slave does nothing. */
    method MatrixScanRemoteKb()
      requires Valid()
      modifies this, msg
      ensures Valid()
      ensures role == Master ==> Rx() == Feed(old(Rx()), old(rx)) && rx == []
      ensures role == Slave ==> Rx() == old(Rx()) && rx == old(rx)
      ensures tx == old(tx)
    {
      if role == Master {
        GetMsg();
      }
    }
  }

  /** A master that receives 69 04 00 01 6E registers key 4, and nothing else. */
  method MasterReceivesKey4() returns (log: seq<Event>)
    ensures log == [RegisterCode(4)]
  {
    var kb := new Link(Master);
    kb.rx := [0x69, 0x04, 0x00, 0x01, 0x6E];
    kb.MatrixScanRemoteKb();
    FeedFrame(RxState([0, 0, 0, 0, 0], 0, []), [0x69, 0x04, 0x00, 0x01, 0x6E]);
    DecodeKey4Pressed();
    log := kb.events;
  }

  /** With its checksum byte corrupted to 00 the same frame makes no call, and the index is back at 0. */
  method MasterDropsCorruptedFrame() returns (log: seq<Event>, idx: nat)
    ensures log == [] && idx == 0
  {
    var kb := new Link(Master);
    var f := [0x69, 0x04, 0x00, 0x01, 0x00];
    kb.rx := f;
    kb.MatrixScanRemoteKb();
    FeedFrame(RxState([0, 0, 0, 0, 0], 0, []), f);
    Sum4(f[..IdxChecksum]);
    assert !FrameOk(f);
    log, idx := kb.events, kb.msgIdx;
  }

  /**
   * End to end: the keys a slave forwards, fed to a master in one scan, make the master call
   * exactly the handlers for the forwarded keys, in order.
   */
  method SlaveToMaster(keys: seq<KeyEvent>) returns (log: seq<Event>)
    ensures log == Routes(Forwarded(keys))
  {
    var slave := new Link(Slave);
    for i := 0 to |keys|
      invariant slave.Valid() && slave.role == Slave
      invariant slave.tx == EncodeAll(Forwarded(keys[..i]))
    {
      var e := keys[i];
      slave.ProcessRecordRemoteKb(e.code, e.pressed);
      assert keys[..i + 1][..i] == keys[..i];
      EncodeAllAppend(Forwarded(keys[..i]), if Forwards(Slave, e.code) then [e] else []);
      assert EncodeAll([e]) == EncodeFrame(e.code, e.pressed) + EncodeAll([]);
    }
    assert keys[..|keys|] == keys;
    var master := new Link(Master);
    master.rx := slave.tx;
    master.MatrixScanRemoteKb();
    FeedFrames(RxState([0, 0, 0, 0, 0], 0, []), Forwarded(keys));
    log := master.events;
  }
}
