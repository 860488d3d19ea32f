// The two phases both firmware sequencers (mcu/updater.cpp and
// mcu/reflash.cpp) share: writing an image in 128-byte chunks until a write
// fails, and polling ping after the reboot until the MCU answers.
module Flashing {
  import opened Wrappers
  import opened McuApi

  /** Chunks are 128 bytes: at most 255 fit in one write, and the MCU wants
    * them 4-byte aligned. */
  const ChunkSize: nat := 128
  /** An image holds at least its 64-byte header. */
  const MinImageSize: nat := 64
  const MaxImageSize: nat := 128 * 1024
  /** Pings after the reboot, one a second. */
  const PingAttempts: nat := 20

  predicate SizeAccepted(size: nat)
  {
    MinImageSize <= size <= MaxImageSize
  }

  /** The chunk that starts at `off`: 128 bytes, or what is left. */
  function Chunk(image: seq<Byte>, off: nat): (c: seq<Byte>)
    requires off < |image|
    ensures 0 < |c| <= ChunkSize && off + |c| <= |image| && c == image[off..off + |c|]
    ensures |c| < ChunkSize ==> off + |c| == |image|
  {
    image[off..Min(off + ChunkSize, |image|)]
  }

  /** Writing the image from `off` on, the first write getting answer `k`:
    * the calls made, and whether a write failed (which ends the phase). */
  function Writes(ans: seq<Answer>, k: nat, image: seq<Byte>, off: nat): (w: (seq<Call>, bool))
    decreases |image| - off
  {
    if off >= |image| then ([], false)
    else if At(ans, k).fails then ([WriteFlash(Chunk(image, off))], true)
    else
      var rest := Writes(ans, k + 1, image, off + ChunkSize);
      ([WriteFlash(Chunk(image, off))] + rest.0, rest.1)
  }

  /** One write step, advancing by the length of the chunk written: the
    * offset after a short last chunk is the end of the image. */
  lemma WritesStep(ans: seq<Answer>, k: nat, image: seq<Byte>, off: nat)
    requires off < |image|
    ensures var c := Chunk(image, off);
      Writes(ans, k, image, off) ==
        if At(ans, k).fails then ([WriteFlash(c)], true)
        else ([WriteFlash(c)] + Writes(ans, k + 1, image, off + |c|).0, Writes(ans, k + 1, image, off + |c|).1)
  {
    var c := Chunk(image, off);
    if |c| < ChunkSize {
      assert Writes(ans, k + 1, image, off + |c|) == ([], false);
      assert Writes(ans, k + 1, image, off + ChunkSize) == ([], false);
    }
  }

  /** One step of a write loop that has made the calls `done` of the phase
    * `whole`: the chunk at `off` joins them, and a failed write ends the
    * phase with them. */
  lemma WriteOneChunk(ans: seq<Answer>, k: nat, image: seq<Byte>, off: nat, done: seq<Call>, whole: (seq<Call>, bool))
    requires off < |image|
    requires whole == (done + Writes(ans, k, image, off).0, Writes(ans, k, image, off).1)
    ensures var c := Chunk(image, off);
      var next := done + [WriteFlash(c)];
      var rest := Writes(ans, k + 1, image, off + |c|);
      rest == Writes(ans, k + 1, image, off + ChunkSize) &&
      if At(ans, k).fails then whole == (next, true)
      else whole == (next + rest.0, rest.1)
  {
    var c := Chunk(image, off);
    WritesStep(ans, k, image, off);
    var rest := Writes(ans, k + 1, image, off + |c|).0;
    assert done + ([WriteFlash(c)] + rest) == (done + [WriteFlash(c)]) + rest;
  }

  /** The bytes a sequence of calls writes to the flash. */
  function Written(calls: seq<Call>): seq<Byte>
  {
    if calls == [] then []
    else (if calls[0].WriteFlash? then calls[0].data else []) + Written(calls[1..])
  }

  /** Every call is a write. */
  predicate AllWrites(calls: seq<Call>)
  {
    forall j :: 0 <= j < |calls| ==> calls[j].WriteFlash?
  }

  /** The answers k .. k + n - 1 are all successes. */
  predicate Succeeded(ans: seq<Answer>, k: nat, n: int)
  {
    forall j :: k <= j < k + n ==> !At(ans, j).fails
  }

  /** The answers k .. k + n - 1 are all failures. */
  predicate Failed(ans: seq<Answer>, k: nat, n: int)
  {
    forall j :: k <= j < k + n ==> At(ans, j).fails
  }

  /** The j-th call writes the chunk at `off + 128 * j`. */
  predicate ChunksInOrder(calls: seq<Call>, image: seq<Byte>, off: nat)
  {
    forall j :: 0 <= j < |calls| ==>
      calls[j].WriteFlash? && off + ChunkSize * j < |image| && calls[j].data == Chunk(image, off + ChunkSize * j)
  }

  /** The shape of the write phase: the j-th call writes the chunk at
    * `off + 128 * j`, every write but the last succeeded, and the phase
    * failed exactly when the last write did. */
  lemma {:induction false} WritesShape(ans: seq<Answer>, k: nat, image: seq<Byte>, off: nat)
    ensures ChunksInOrder(Writes(ans, k, image, off).0, image, off)
    ensures Succeeded(ans, k, |Writes(ans, k, image, off).0| - 1)
    ensures Writes(ans, k, image, off).1 <==>
      |Writes(ans, k, image, off).0| > 0 && At(ans, k + |Writes(ans, k, image, off).0| - 1).fails
    decreases |image| - off
  {
    if off < |image| && !At(ans, k).fails {
      WritesShape(ans, k + 1, image, off + ChunkSize);
      var rest := Writes(ans, k + 1, image, off + ChunkSize).0;
      var calls := Writes(ans, k, image, off).0;
      assert calls == [WriteFlash(Chunk(image, off))] + rest;
      forall j | 1 <= j < |calls|
        ensures off + ChunkSize * j < |image| && calls[j].data == Chunk(image, off + ChunkSize * j)
      {
        assert calls[j] == rest[j - 1];
        assert off + ChunkSize + ChunkSize * (j - 1) == off + ChunkSize * j;
      }
    }
  }

  lemma {:induction false} WrittenAppend(a: seq<Call>, b: seq<Call>)
    ensures Written(a + b) == Written(a) + Written(b)
    decreases |a|
  {
    if a != [] {
      var head := if a[0].WriteFlash? then a[0].data else [];
      assert (a + b)[0] == a[0];
      assert (a + b)[1..] == a[1..] + b;
      WrittenAppend(a[1..], b);
      calc {
        Written(a + b);
        head + Written(a[1..] + b);
        head + (Written(a[1..]) + Written(b));
        (head + Written(a[1..])) + Written(b);
      }
    } else {
      assert a + b == b;
    }
  }

  /** A write phase that does not fail writes exactly the rest of the image,
    * in order. */
  lemma {:induction false} WritesCover(ans: seq<Answer>, k: nat, image: seq<Byte>, off: nat)
    requires off <= |image|
    requires !Writes(ans, k, image, off).1
    ensures Written(Writes(ans, k, image, off).0) == image[off..]
    decreases |image| - off
  {
    if off < |image| {
      var c := Chunk(image, off);
      var rest := Writes(ans, k + 1, image, off + ChunkSize).0;
      assert Writes(ans, k, image, off).0 == [WriteFlash(c)] + rest;
      WrittenAppend([WriteFlash(c)], rest);
      assert Written([WriteFlash(c)]) == c;
      if off + ChunkSize < |image| {
        WritesCover(ans, k + 1, image, off + ChunkSize);
        assert image[off..] == c + image[off + ChunkSize..];
      } else {
        assert rest == [];
        assert c == image[off..];
      }
    }
  }

  /** A write phase that fails wrote a prefix of the image before the
    * failing chunk, and nothing after it. */
  lemma {:induction false} WritesStopAtFailure(ans: seq<Answer>, k: nat, image: seq<Byte>, off: nat)
    requires off <= |image|
    requires Writes(ans, k, image, off).1
    ensures var calls := Writes(ans, k, image, off).0;
      |calls| > 0 && off + |Written(calls)| <= |image| && Written(calls) == image[off..off + |Written(calls)|]
    decreases |image| - off
  {
    var c := Chunk(image, off);
    if At(ans, k).fails {
      assert Writes(ans, k, image, off).0 == [WriteFlash(c)];
      assert Written([WriteFlash(c)]) == c;
    } else {
      var rest := Writes(ans, k + 1, image, off + ChunkSize).0;
      assert Writes(ans, k, image, off).0 == [WriteFlash(c)] + rest;
      WrittenAppend([WriteFlash(c)], rest);
      assert Written([WriteFlash(c)]) == c;
      assert off + ChunkSize <= |image|;
      WritesStopAtFailure(ans, k + 1, image, off + ChunkSize);
      var w := Written(rest);
      assert image[off..off + |c| + |w|] == c + w;
    }
  }

  /** No call in `calls` erases or writes the flash. */
  predicate NoFlashing(calls: seq<Call>)
  {
    forall j :: 0 <= j < |calls| ==> !calls[j].WriteFlash? && !calls[j].EraseFlash?
  }

  /** Calls none of which is a write write nothing. */
  lemma {:induction false} WrittenNoWrites(calls: seq<Call>)
    requires forall j :: 0 <= j < |calls| ==> !calls[j].WriteFlash?
    ensures Written(calls) == []
    decreases |calls|
  {
    if calls != [] {
      forall j | 0 <= j < |calls[1..]|
        ensures !calls[1..][j].WriteFlash?
      {
        assert calls[1..][j] == calls[j + 1];
      }
      WrittenNoWrites(calls[1..]);
    }
  }

  /** Pinging at most `left` times from answer `k` on, stopping at the first
    * answer: the calls made and whether the MCU answered. */
  function Pings(ans: seq<Answer>, k: nat, left: nat): (p: (seq<Call>, bool))
    decreases left
  {
    if left == 0 then ([], false)
    else if !At(ans, k).fails then ([Ping], true)
    else
      var rest := Pings(ans, k + 1, left - 1);
      ([Ping] + rest.0, rest.1)
  }

  /** The ping loop: at most `attempts` pings, stopping at the first that
    * gets an answer. */
  method PingUntilBack(mcu: Mcu, attempts: nat) returns (alive: bool)
    modifies mcu`trace
    ensures var p := Pings(mcu.answers, |old(mcu.trace)|, attempts);
      mcu.trace == old(mcu.trace) + p.0 && alive == p.1
  {
    ghost var t0 := mcu.trace;
    ghost var pings := Pings(mcu.answers, |t0|, attempts);
    ghost var done: seq<Call> := [];
    assert done + pings.0 == pings.0;
    var cnt := 0;
    alive := false;
    while cnt < attempts && !alive
      invariant cnt <= attempts && mcu.trace == t0 + done && |done| == cnt
      invariant alive ==> pings.0 == done && pings.1
      invariant !alive ==>
        var rest := Pings(mcu.answers, |t0| + cnt, attempts - cnt);
        pings.0 == done + rest.0 && pings.1 == rest.1
    {
      ghost var rest := Pings(mcu.answers, |t0| + cnt + 1, attempts - cnt - 1);
      alive := mcu.Ping();
      assert done + ([Ping] + rest.0) == (done + [Ping]) + rest.0;
      done := done + [Ping];
      cnt := cnt + 1;
    }
  }

  /** At most `left` pings, all of them failing but possibly the last; the
    * MCU counts as back exactly when the last ping got an answer, and
    * without one all `left` pings were made. */
  lemma {:induction false} PingsShape(ans: seq<Answer>, k: nat, left: nat)
    ensures |Pings(ans, k, left).0| <= left
    ensures forall j :: 0 <= j < |Pings(ans, k, left).0| ==> Pings(ans, k, left).0[j] == Ping
    ensures Failed(ans, k, |Pings(ans, k, left).0| - 1)
    ensures Pings(ans, k, left).1 <==>
      |Pings(ans, k, left).0| > 0 && !At(ans, k + |Pings(ans, k, left).0| - 1).fails
    ensures !Pings(ans, k, left).1 ==> |Pings(ans, k, left).0| == left
    decreases left
  {
    if left > 0 && At(ans, k).fails {
      PingsShape(ans, k + 1, left - 1);
      var rest := Pings(ans, k + 1, left - 1).0;
      var calls := Pings(ans, k, left).0;
      assert calls == [Ping] + rest;
      forall j | 1 <= j < |calls|
        ensures calls[j] == Ping
      {
        assert calls[j] == rest[j - 1];
      }
    }
  }
}
