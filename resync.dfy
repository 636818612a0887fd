/**
 * The stream resynchroniser: the byte-by-byte state machine get_msg runs over the receive buffer,
 * stated as a function of the buffer, the index and the log of calls made so far.
 */
module Resync {
  import opened Types
  import opened Keycodes
  import opened Frame

  /** The receiver's state: the contents of `msg`, `msg_idx`, and the calls process_uart has made. */
  datatype RxState = RxState(buf: seq<byte>, idx: nat, log: seq<Event>)

  /** The buffer has five slots and the index points into it. */
  predicate Wf(s: RxState)
  {
    |s.buf| == MsgLen && s.idx < MsgLen
  }

  /** Locked on a frame: once past index 0, the buffer starts with the preamble. */
  predicate Synced(s: RxState)
    requires Wf(s)
  {
    s.idx > 0 ==> s.buf[IdxPreamble] == Preamble
  }

  /**
   * One iteration of get_msg's loop on byte `b`: store it at the index; at index 0 a byte that is
   * not the preamble leaves the index at 0; the fifth byte hands the frame to process_uart and
   * resets the index; any other byte advances the index.
   */
  function Step(s: RxState, b: byte): (r: RxState)
    requires Wf(s)
    ensures Wf(r)
  {
    var buf := s.buf[s.idx := b];
    if s.idx == IdxPreamble && b != Preamble then RxState(buf, 0, s.log)
    else if s.idx == MsgLen - 1 then RxState(buf, 0, s.log + FrameEvents(buf))
    else RxState(buf, s.idx + 1, s.log)
  }

  /** get_msg run over all of `input`, one byte after the other. */
  function Feed(s: RxState, input: seq<byte>): (r: RxState)
    requires Wf(s)
    ensures Wf(r)
    ensures s.log <= r.log
    decreases |input|
  {
    if input == [] then s else Feed(Step(s, input[0]), input[1..])
  }

  /**
   * The receiver stays locked, so every frame get_msg hands to process_uart starts with the
   * preamble: only its checksum test can reject such a frame.
   */
  lemma {:induction false} FeedSynced(s: RxState, input: seq<byte>)
    requires Wf(s) && Synced(s)
    ensures Synced(Feed(s, input))
    decreases |input|
  {
    if input != [] {
      FeedSynced(Step(s, input[0]), input[1..]);
    }
  }

  lemma {:induction false} FeedConcat(s: RxState, a: seq<byte>, b: seq<byte>)
    requires Wf(s)
    ensures Feed(s, a + b) == Feed(Feed(s, a), b)
    decreases |a|
  {
    if a == [] {
      assert a + b == b;
    } else {
      assert (a + b)[0] == a[0];
      assert (a + b)[1..] == a[1..] + b;
      FeedConcat(Step(s, a[0]), a[1..], b);
    }
  }

  /**
   * Five bytes that start with the preamble, received at index 0, fill the buffer and are
   * handed to process_uart once; the index is back at 0 whether or not the frame is accepted.
   */
  lemma FeedFrame(s: RxState, f: seq<byte>)
    requires Wf(s) && s.idx == 0
    requires |f| == MsgLen && f[0] == Preamble
    ensures Feed(s, f) == RxState(f, 0, s.log + FrameEvents(f))
  {
    var s1 := Step(s, f[0]);
    var s2 := Step(s1, f[1]);
    var s3 := Step(s2, f[2]);
    var s4 := Step(s3, f[3]);
    var s5 := Step(s4, f[4]);
    assert s4.idx == 4 && s4.log == s.log;
    assert s5.buf == f;
    calc {
      Feed(s, f);
      Feed(s1, f[1..]);
      { assert f[1..][0] == f[1] && f[1..][1..] == f[2..]; }
      Feed(s2, f[2..]);
      { assert f[2..][0] == f[2] && f[2..][1..] == f[3..]; }
      Feed(s3, f[3..]);
      { assert f[3..][0] == f[3] && f[3..][1..] == f[4..]; }
      Feed(s4, f[4..]);
      { assert f[4..][0] == f[4] && f[4..][1..] == []; }
      Feed(s5, []);
    }
  }

  /** Bytes other than the preamble, received at index 0, are all thrown away. */
  lemma {:induction false} FeedGarbage(s: RxState, g: seq<byte>)
    requires Wf(s) && s.idx == 0
    requires forall i :: 0 <= i < |g| ==> g[i] != Preamble
    ensures Feed(s, g).idx == 0 && Feed(s, g).log == s.log
    decreases |g|
  {
    if g != [] {
      FeedGarbage(Step(s, g[0]), g[1..]);
    }
  }

  /** A frame sent for event e, received at index 0, makes the call for e and leaves the index at 0. */
  lemma FeedSentFrame(s: RxState, e: KeyEvent)
    requires Wf(s) && s.idx == 0
    ensures var f := EncodeFrame(e.code, e.pressed);
      Feed(s, f) == RxState(f, 0, s.log + [Route(e)])
  {
    var f := EncodeFrame(e.code, e.pressed);
    FeedFrame(s, f);
    SentFrameEvents(e.code, e.pressed);
    assert FrameEvents(f) == [Route(e)];
  }

  /** k frames sent back to back and received from index 0 make k calls, in the order sent. */
  lemma {:induction false} FeedFrames(s: RxState, es: seq<KeyEvent>)
    requires Wf(s) && s.idx == 0
    ensures Feed(s, EncodeAll(es)).idx == 0
    ensures Feed(s, EncodeAll(es)).log == s.log + Routes(es)
    decreases |es|
  {
    if es != [] {
      var f := EncodeFrame(es[0].code, es[0].pressed);
      var rest := EncodeAll(es[1..]);
      assert EncodeAll(es) == f + rest;
      FeedConcat(s, f, rest);
      FeedSentFrame(s, es[0]);
      var s' := RxState(f, 0, s.log + [Route(es[0])]);
      FeedFrames(s', es[1..]);
      calc {
        Feed(s, EncodeAll(es)).log;
        Feed(s', rest).log;
        s.log + [Route(es[0])] + Routes(es[1..]);
        s.log + ([Route(es[0])] + Routes(es[1..]));
        s.log + Routes(es);
      }
    }
  }

  /**
   * A frame, then bytes that contain no preamble, then another frame: both frames get through,
   * and the bytes in between make no call.
   */
  lemma RecoverAfterGarbage(s: RxState, e1: KeyEvent, g: seq<byte>, e2: KeyEvent)
    requires Wf(s) && s.idx == 0
    requires forall i :: 0 <= i < |g| ==> g[i] != Preamble
    ensures var input := EncodeFrame(e1.code, e1.pressed) + g + EncodeFrame(e2.code, e2.pressed);
      Feed(s, input).idx == 0 && Feed(s, input).log == s.log + [Route(e1), Route(e2)]
  {
    var f1 := EncodeFrame(e1.code, e1.pressed);
    var f2 := EncodeFrame(e2.code, e2.pressed);
    FeedConcat(s, f1 + g, f2);
    FeedConcat(s, f1, g);
    FeedSentFrame(s, e1);
    FeedGarbage(Feed(s, f1), g);
    FeedSentFrame(Feed(Feed(s, f1), g), e2);
  }

  /** Each call made needs five bytes: at most (idx + |input|) / 5 calls come out of `input`. */
  lemma {:induction false} FeedEventBound(s: RxState, input: seq<byte>)
    requires Wf(s)
    ensures |Feed(s, input).log| <= |s.log| + (s.idx + |input|) / MsgLen
    decreases |input|
  {
    if input != [] {
      var s' := Step(s, input[0]);
      FeedEventBound(s', input[1..]);
      assert |s'.log| <= |s.log| + (s.idx + 1) / MsgLen;
      assert s'.idx <= (s.idx + 1) % MsgLen;
    }
  }

  /**
   * There is no timeout on a partial frame: if a frame loses its last byte, the next frame's
   * preamble completes it, and the rest of the next frame is read from index 0.
   */
  lemma LostByteAbsorbsNextPreamble(s: RxState, head: seq<byte>, f: seq<byte>)
    requires Wf(s) && s.idx == 0
    requires |head| == MsgLen - 1 && head[0] == Preamble
    requires |f| == MsgLen && f[0] == Preamble
    ensures var merged := head + [Preamble];
      Feed(s, head + f) == Feed(RxState(merged, 0, s.log + FrameEvents(merged)), f[1..])
  {
    assert head + f == (head + [f[0]]) + f[1..];
    FeedConcat(s, head + [f[0]], f[1..]);
    FeedFrame(s, head + [f[0]]);
  }

  /** Four bytes read from index 0 that start with the preamble leave the receiver waiting at index 4. */
  lemma FeedFalseLock(t: RxState, rest: seq<byte>)
    requires Wf(t) && t.idx == 0
    requires |rest| == MsgLen - 1 && rest[0] == Preamble
    ensures Feed(t, rest).idx == 4 && Feed(t, rest).log == t.log
  {
    var t1 := Step(t, rest[0]);
    var t2 := Step(t1, rest[1]);
    var t3 := Step(t2, rest[2]);
    var t4 := Step(t3, rest[3]);
    assert t4.idx == 4 && t4.log == t.log;
    calc {
      Feed(t, rest);
      Feed(t1, rest[1..]);
      { assert rest[1..][0] == rest[1] && rest[1..][1..] == rest[2..]; }
      Feed(t2, rest[2..]);
      { assert rest[2..][0] == rest[2] && rest[2..][1..] == rest[3..]; }
      Feed(t3, rest[3..]);
      { assert rest[3..][0] == rest[3] && rest[3..][1..] == []; }
      Feed(t4, []);
    }
  }

  /**
   * The rest of the next frame is discarded only if it holds no preamble byte: for key 0x69
   * pressed, its keycode byte locks the receiver again and it ends up waiting at index 4.
   */
  lemma LostByteFalseLock(s: RxState)
    requires Wf(s) && s.idx == 0
    ensures Feed(s, [0x69, 0x04, 0x00, 0x01] + EncodeFrame(0x69, true)).idx == 4
    ensures Feed(s, [0x69, 0x04, 0x00, 0x01] + EncodeFrame(0x69, true)).log == s.log
  {
    var f := EncodeFrame(0x69, true);
    EncodeFrameBytes(0x69, true);
    assert f == [0x69, 0x69, 0x00, 0x01, 0xD3];
    var merged := [0x69, 0x04, 0x00, 0x01, 0x69];
    var head := [0x69, 0x04, 0x00, 0x01];
    assert head + [Preamble] == merged;
    LostByteAbsorbsNextPreamble(s, head, f);
    Sum4(merged[..IdxChecksum]);
    assert !FrameOk(merged) && FrameEvents(merged) == [];
    assert s.log + FrameEvents(merged) == s.log;
    FeedFalseLock(RxState(merged, 0, s.log), f[1..]);
  }

  /** So losing the checksum byte of "key 4 pressed" loses the following "key 5 pressed" too. */
  lemma LostByteLosesTwoEvents(s: RxState)
    requires Wf(s) && s.idx == 0
    ensures Feed(s, [0x69, 0x04, 0x00, 0x01] + EncodeFrame(5, true)).idx == 0
    ensures Feed(s, [0x69, 0x04, 0x00, 0x01] + EncodeFrame(5, true)).log == s.log
  {
    var f := EncodeFrame(5, true);
    EncodeFrameBytes(5, true);
    var merged := [0x69, 0x04, 0x00, 0x01, 0x69];
    var head := [0x69, 0x04, 0x00, 0x01];
    assert head + [Preamble] == merged;
    LostByteAbsorbsNextPreamble(s, head, f);
    Sum4(merged[..IdxChecksum]);
    assert !FrameOk(merged) && FrameEvents(merged) == [];
    assert f[1..] == [0x05, 0x00, 0x01, 0x6F];
    assert s.log + FrameEvents(merged) == s.log;
    FeedGarbage(RxState(merged, 0, s.log), f[1..]);
  }

  /**
   * A frame that loses its preamble is different: for every forwarded code except 0x69, its
   * remaining bytes hold no preamble, so they are discarded at index 0 and the next frame is
   * received whole.
   */
  lemma LostPreambleKeepsNextFrame(s: RxState, k: uint16, p: bool, e: KeyEvent)
    requires Wf(s) && s.idx == 0
    requires (IsHidKc(k) || IsRmKc(k)) && k != Preamble
    ensures var f := EncodeFrame(e.code, e.pressed);
      Feed(s, EncodeFrame(k, p)[IdxKcLsb..] + f) == RxState(f, 0, s.log + [Route(e)])
  {
    var g := EncodeFrame(k, p)[IdxKcLsb..];
    var f := EncodeFrame(e.code, e.pressed);
    TailHoldsNoPreamble(k, p);
    assert forall i :: 0 <= i < |g| ==> g[i] == EncodeFrame(k, p)[i + 1];
    FeedConcat(s, g, f);
    FeedGarbage(s, g);
    FeedSentFrame(Feed(s, g), e);
  }

  /** The concrete case: key 4 pressed without its preamble, then key 5 pressed. */
  lemma LostPreambleSkipsFrame(s: RxState)
    requires Wf(s) && s.idx == 0
    ensures Feed(s, [0x04, 0x00, 0x01, 0x6E] + EncodeFrame(5, true)).idx == 0
    ensures Feed(s, [0x04, 0x00, 0x01, 0x6E] + EncodeFrame(5, true)).log == s.log + [RegisterCode(5)]
  {
    var g := [0x04, 0x00, 0x01, 0x6E];
    FeedConcat(s, g, EncodeFrame(5, true));
    FeedGarbage(s, g);
    FeedSentFrame(Feed(s, g), KeyEvent(5, true));
  }

  /**
   * A completed frame can also pass the checksum and make a wrong call. Key 0x95 pressed is sent
   * as 69 95 00 01 FF; losing its keycode LSB leaves 69 00 01 FF, which the next frame's preamble
   * completes to an accepted frame for keycode 0x0100, whatever frame follows.
   */
  lemma LostKeycodeByteMisfires(s: RxState, f: seq<byte>)
    requires Wf(s) && s.idx == 0
    requires |f| == MsgLen && f[0] == Preamble
    ensures var sent := EncodeFrame(0x95, true);
      s.log + [RegisterCode(0x0100)] <= Feed(s, sent[..IdxKcLsb] + sent[IdxKcLsb + 1..] + f).log
  {
    var sent := EncodeFrame(0x95, true);
    EncodeKey95Pressed();
    var head := [0x69, 0x00, 0x01, 0xFF];
    assert sent[..IdxKcLsb] + sent[IdxKcLsb + 1..] == head;
    var merged := head + [Preamble];
    LostByteAbsorbsNextPreamble(s, head, f);
    assert merged[..IdxChecksum] == head;
    Sum4(head);
    assert FrameOk(merged);
    assert Keycode(merged[IdxKcLsb], merged[IdxKcMsb]) == 0x0100;
    assert FrameEvents(merged) == [RegisterCode(0x0100)];
  }

  /**
   * Key 0x69 is the exception: its keycode LSB is the preamble. Without its preamble, key 0x69
   * pressed leaves 69 00 01 D3, which locks the receiver; the next frame's preamble completes a
   * frame that fails the checksum, and the rest of that frame is discarded, so both events are lost.
   */
  lemma LostPreambleOfKey69(s: RxState)
    requires Wf(s) && s.idx == 0
    ensures Feed(s, EncodeFrame(0x69, true)[IdxKcLsb..] + EncodeFrame(5, true)).idx == 0
    ensures Feed(s, EncodeFrame(0x69, true)[IdxKcLsb..] + EncodeFrame(5, true)).log == s.log
  {
    var sent := EncodeFrame(0x69, true);
    EncodeFrameBytes(0x69, true);
    var f := EncodeFrame(5, true);
    EncodeFrameBytes(5, true);
    var head := [0x69, 0x00, 0x01, 0xD3];
    assert sent[IdxKcLsb..] == head;
    var merged := [0x69, 0x00, 0x01, 0xD3, 0x69];
    assert head + [Preamble] == merged;
    LostByteAbsorbsNextPreamble(s, head, f);
    Sum4(merged[..IdxChecksum]);
    assert !FrameOk(merged) && FrameEvents(merged) == [];
    assert f[1..] == [0x05, 0x00, 0x01, 0x6F];
    assert s.log + FrameEvents(merged) == s.log;
    FeedGarbage(RxState(merged, 0, s.log), f[1..]);
  }
}
