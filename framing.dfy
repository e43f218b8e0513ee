/**
 * The receive side of a sensor session (drone_edge/drone.py, _sensor_handler):
 * each received chunk is appended to the session buffer, which is then split
 * on the first DELIM again and again; the text before it is one frame, empty
 * frames are skipped, each other frame is decoded and a decoded reading is
 * queued, while a frame that fails to decode is dropped without affecting
 * later frames.
 */
module Framing {
  import opened Wrappers
  import opened Messages

  /** Frames each followed by DELIM, concatenated. */
  function Joined(frames: seq<seq<byte>>): seq<byte>
  {
    if frames == [] then [] else frames[0] + [DELIM] + Joined(frames[1..])
  }

  /** No frame contains the delimiter. */
  predicate DelimFree(frames: seq<seq<byte>>)
  {
    forall i :: 0 <= i < |frames| ==> DELIM !in frames[i]
  }

  /** The position of the first delimiter. */
  function FirstDelim(s: seq<byte>): (i: nat)
    requires DELIM in s
    ensures i < |s| && s[i] == DELIM && DELIM !in s[..i]
  {
    if s[0] == DELIM then 0
    else
      assert DELIM in s[1..] by { var k :| 0 <= k < |s| && s[k] == DELIM; assert s[1..][k - 1] == DELIM; }
      var j := FirstDelim(s[1..]);
      assert s[..j + 1] == [s[0]] + s[1..][..j];
      j + 1
  }

  /**
   * Repeated `split(DELIM, 1)` of a buffer: the frames before each delimiter,
   * in order, and the incomplete remainder.
   */
  function Split(s: seq<byte>): (seq<seq<byte>>, seq<byte>)
    decreases |s|
  {
    if DELIM !in s then ([], s)
    else
      var i := FirstDelim(s);
      var tail := Split(s[i + 1..]);
      ([s[..i]] + tail.0, tail.1)
  }

  /** One split step: the first frame, then the split of what follows its delimiter. */
  lemma SplitStep(s: seq<byte>)
    requires DELIM in s
    ensures var i := FirstDelim(s);
      Split(s) == ([s[..i]] + Split(s[i + 1..]).0, Split(s[i + 1..]).1)
      && s == s[..i] + [DELIM] + s[i + 1..]
  {
  }

  /**
   * Splitting loses and invents nothing: the frames, each followed by DELIM,
   * then the remainder, are the input; no frame and not the remainder holds
   * a delimiter.
   */
  lemma {:induction false} SplitSound(s: seq<byte>)
    ensures Joined(Split(s).0) + Split(s).1 == s
    ensures DelimFree(Split(s).0) && DELIM !in Split(s).1
    decreases |s|
  {
    if DELIM in s {
      var i := FirstDelim(s);
      var head, after := s[..i], s[i + 1..];
      SplitStep(s);
      SplitSound(after);
      var (frames, rest) := Split(after);
      ConsFrame(head, frames, rest);
    }
  }

  /** Prepending a delimiter-free frame keeps both halves of SplitSound. */
  lemma ConsFrame(head: seq<byte>, frames: seq<seq<byte>>, rest: seq<byte>)
    requires DELIM !in head && DelimFree(frames)
    ensures Joined([head] + frames) + rest == head + [DELIM] + (Joined(frames) + rest)
    ensures DelimFree([head] + frames)
  {
    assert ([head] + frames)[1..] == frames;
    forall k | 0 <= k < |frames| + 1 ensures DELIM !in ([head] + frames)[k] {
      if k > 0 { assert ([head] + frames)[k] == frames[k - 1]; }
    }
  }

  lemma {:induction false} JoinedAppend(a: seq<seq<byte>>, b: seq<seq<byte>>)
    ensures Joined(a + b) == Joined(a) + Joined(b)
  {
    if a != [] {
      assert (a + b)[1..] == a[1..] + b;
      JoinedAppend(a[1..], b);
    } else {
      assert a + b == b;
    }
  }

  /**
   * Splitting is unambiguous: delimiter-free frames followed by a delimiter-free
   * remainder split back into exactly those frames and that remainder.
   */
  lemma {:induction false} SplitJoined(frames: seq<seq<byte>>, rest: seq<byte>)
    requires DelimFree(frames) && DELIM !in rest
    ensures Split(Joined(frames) + rest) == (frames, rest)
  {
    var s := Joined(frames) + rest;
    if frames == [] {
      assert s == rest;
    } else {
      var f := frames[0];
      var tailS := Joined(frames[1..]) + rest;
      assert s == f + [DELIM] + tailS;
      assert s[|f|] == DELIM;
      var i := FirstDelim(s);
      assert s[..i] == f;
      assert s[i + 1..] == tailS;
      SplitJoined(frames[1..], rest);
      assert [f] + frames[1..] == frames;
    }
  }

  /**
   * Chunk boundaries do not matter: splitting `a`, then splitting its
   * remainder followed by `b`, yields the frames and remainder of `a + b`.
   */
  lemma ChunkedSplit(a: seq<byte>, b: seq<byte>)
    ensures Split(a + b) == (Split(a).0 + Split(Split(a).1 + b).0, Split(Split(a).1 + b).1)
  {
    var f1, r1 := Split(a).0, Split(a).1;
    var f2, r2 := Split(r1 + b).0, Split(r1 + b).1;
    SplitSound(a);
    SplitSound(r1 + b);
    JoinedAppend(f1, f2);
    DelimFreeAppend(f1, f2);
    Reassociate(a, b, Joined(f1), r1, Joined(f2), r2);
    SplitJoined(f1 + f2, r2);
  }

  lemma Reassociate(a: seq<byte>, b: seq<byte>, j1: seq<byte>, r1: seq<byte>, j2: seq<byte>, r2: seq<byte>)
    requires a == j1 + r1 && r1 + b == j2 + r2
    ensures a + b == (j1 + j2) + r2
  {
    calc {
      a + b;
      (j1 + r1) + b;
      j1 + (r1 + b);
      j1 + (j2 + r2);
      (j1 + j2) + r2;
    }
  }

  lemma DelimFreeAppend(a: seq<seq<byte>>, b: seq<seq<byte>>)
    requires DelimFree(a) && DelimFree(b)
    ensures DelimFree(a + b)
  {
    forall i | 0 <= i < |a + b| ensures DELIM !in (a + b)[i] {
      if i >= |a| { assert (a + b)[i] == b[i - |a|]; }
    }
  }

  /** The readings queued for a sequence of split-off frames: empty frames are skipped, undecodable ones dropped. */
  function DecodeAll(raws: seq<seq<byte>>, decode: seq<byte> -> Option<Reading>): seq<Reading>
  {
    if raws == [] then []
    else
      (if raws[0] == [] then [] else match decode(raws[0]) case Some(r) => [r] case None => [])
      + DecodeAll(raws[1..], decode)
  }

  /**
   * Frames are handled independently: what one frame yields (nothing, for an
   * empty or undecodable frame) does not change what later frames yield.
   */
  lemma {:induction false} DecodeAllAppend(a: seq<seq<byte>>, b: seq<seq<byte>>, decode: seq<byte> -> Option<Reading>)
    ensures DecodeAll(a + b, decode) == DecodeAll(a, decode) + DecodeAll(b, decode)
  {
    if a != [] {
      assert (a + b)[1..] == a[1..] + b;
      DecodeAllAppend(a[1..], b, decode);
    } else {
      assert a + b == b;
    }
  }

  /** A frame that fails to decode is dropped and the frames around it are still queued, in order. */
  lemma DecodeErrorIsolated(a: seq<seq<byte>>, bad: seq<byte>, b: seq<seq<byte>>, decode: seq<byte> -> Option<Reading>)
    requires decode(bad).None?
    ensures DecodeAll(a + [bad] + b, decode) == DecodeAll(a, decode) + DecodeAll(b, decode)
  {
    DecodeAllAppend(a + [bad], b, decode);
    DecodeAllAppend(a, [bad], decode);
    assert [bad][1..] == [];
  }

  /**
   * One received chunk: `buffer += chunk`, then the inner split loop. `stop`
   * is the node's stop flag, checked before each split. Returns the new
   * buffer, the frames split off (empty ones included) and the readings queued.
   */
  method ReceiveChunk(buffer: seq<byte>, chunk: seq<byte>, stop: bool, decode: seq<byte> -> Option<Reading>)
    returns (rest: seq<byte>, raws: seq<seq<byte>>, queued: seq<Reading>)
    ensures stop ==> rest == buffer + chunk && raws == [] && queued == []
    ensures !stop ==> (raws, rest) == Split(buffer + chunk)
    ensures !stop ==> DELIM !in rest && Joined(raws) + rest == buffer + chunk
    ensures queued == DecodeAll(raws, decode)
  {
    var buf := buffer + chunk;
    raws, queued := [], [];
    assert raws + Split(buf).0 == Split(buf).0;
    while DELIM in buf
      invariant Split(buffer + chunk) == (raws + Split(buf).0, Split(buf).1)
      invariant queued == DecodeAll(raws, decode)
      invariant stop ==> raws == [] && buf == buffer + chunk
      decreases |buf|
    {
      if stop {
        break;
      }
      var i := FirstDelim(buf);
      var raw := buf[..i];
      SplitStep(buf);
      FrameTaken(raws, raw, Split(buf[i + 1..]).0);
      buf := buf[i + 1..];
      DecodeAllAppend(raws, [raw], decode);
      raws := raws + [raw];
      if raw == [] {
        continue;
      }
      match decode(raw) {
        case Some(reading) =>
          queued := queued + [reading];
        case None =>
      }
    }
    if !stop {
      assert Split(buf) == ([], buf);
      assert raws + [] == raws;
      SplitSound(buffer + chunk);
    }
    rest := buf;
  }

  lemma FrameTaken(raws: seq<seq<byte>>, raw: seq<byte>, later: seq<seq<byte>>)
    ensures raws + ([raw] + later) == (raws + [raw]) + later
  {
  }

  /**
   * Two frames delivered in three arbitrary chunks, split anywhere (even next
   * to a delimiter), come out as exactly those two frames, in order, with
   * nothing left over.
   */
  lemma TwoFramesThreeChunks(f1: seq<byte>, f2: seq<byte>, c1: seq<byte>, c2: seq<byte>, c3: seq<byte>)
    requires DELIM !in f1 && DELIM !in f2
    requires c1 + c2 + c3 == f1 + [DELIM] + f2 + [DELIM]
    ensures Split(c1).0 + Split(Split(c1).1 + c2).0 + Split(Split(Split(c1).1 + c2).1 + c3).0 == [f1, f2]
    ensures Split(Split(Split(c1).1 + c2).1 + c3).1 == []
  {
    var r1 := Split(c1).1;
    var r2 := Split(r1 + c2).1;
    ChunkedSplit(c1, c2);
    ChunkedSplit(c1 + c2, c3);
    assert Split(c1 + c2 + c3) == (Split(c1).0 + Split(r1 + c2).0 + Split(r2 + c3).0, Split(r2 + c3).1);
    assert Joined([f1, f2]) + [] == f1 + [DELIM] + f2 + [DELIM] by {
      assert [f1, f2][1..] == [f2];
      assert [f2][1..] == [];
      assert Joined([f2]) == f2 + [DELIM] + Joined([]);
    }
    SplitJoined([f1, f2], []);
  }
}
