/** The exchange `send_command` performs, stated on values: one attempt writes a frame,
    waits for the reply, accepts it only on an exact 13-byte, zero-checksum response and
    otherwise empties the receive queue; up to three attempts are made. */
module Protocol {
  import opened Catalog

  /** Number of attempts `send_command` makes before giving up. */
  const Tries := 3

  /** What the engine and its serial link hold between two steps.
      rx:     bytes waiting in the receive queue;
      script: the arrival oracle, one entry per coming attempt, each entry the chunks
              that reach the queue one per yield of that attempt's wait loop;
      log:    frames written so far;
      buf:    contents of the 13-byte response buffer. */
  datatype Link = Link(rx: seq<Byte>, script: seq<seq<seq<Byte>>>, log: seq<seq<Byte>>, buf: seq<Byte>)

  /** All chunks, in order, as one byte sequence. */
  function Concat(chunks: seq<seq<Byte>>): seq<Byte>
  {
    if chunks == [] then [] else chunks[0] + Concat(chunks[1..])
  }

  /** The queue when the wait loop ends: it polls until exactly 13 bytes are available,
      and a chunk arrives at each yield; running out of chunks is the 1000 ms timeout. */
  function Waited(q: seq<Byte>, chunks: seq<seq<Byte>>): (r: seq<Byte>)
    ensures q <= r
    decreases |chunks|
  {
    if |q| == FrameSize || chunks == [] then q else Waited(q + chunks[0], chunks[1..])
  }

  /** The wait only ever adds bytes, and it stops before all chunks have arrived only
      on exactly 13 bytes. */
  lemma {:induction false} WaitedBounds(q: seq<Byte>, chunks: seq<seq<Byte>>)
    ensures q <= Waited(q, chunks)
    ensures |Waited(q, chunks)| == FrameSize || Waited(q, chunks) == q + Concat(chunks)
    decreases |chunks|
  {
    if |q| != FrameSize && chunks != [] {
      WaitedBounds(q + chunks[0], chunks[1..]);
      assert q + chunks[0] + Concat(chunks[1..]) == q + Concat(chunks);
    }
  }

  /** The chunks for the next attempt; no entry left means nothing arrives. */
  function NextArrivals(script: seq<seq<seq<Byte>>>): seq<seq<Byte>>
  {
    if script == [] then [] else script[0]
  }

  /** The script once the next attempt has taken its entry. */
  function Drop(script: seq<seq<seq<Byte>>>, k: nat): seq<seq<seq<Byte>>>
  {
    if k <= |script| then script[k..] else []
  }

  /** A response the engine trusts: exactly 13 bytes whose 8-bit sum is zero, that is,
      whose last byte is the two's complement of the 8-bit sum of the first twelve. */
  predicate Accepted(q: seq<Byte>): (r: bool)
    ensures r <==> |q| == FrameSize
                   && q[FrameSize - 1] == (256 - Checksum(q[..FrameSize - 1])) % 256
  {
    if |q| != FrameSize then false
    else
      ChecksumStep(q, FrameSize - 1);
      assert q[..FrameSize] == q;
      Checksum(q) == 0
  }

  /** One pass of the retry loop. A 13-byte queue is read into the buffer (emptying the
      queue) and checked; any other queue is drained. Either way the queue ends empty. */
  function Attempt(frame: seq<Byte>, l: Link): (r: (bool, Link))
    ensures r.1.log == l.log + [frame]
    ensures r.1.rx == []
    ensures r.0 ==> Accepted(r.1.buf)
  {
    var q := Waited(l.rx, NextArrivals(l.script));
    (Accepted(q), Link([], Drop(l.script, 1), l.log + [frame], if |q| == FrameSize then q else l.buf))
  }

  /** The retry loop with `tries` attempts left: stop at the first accepted attempt. */
  function Send(frame: seq<Byte>, l: Link, tries: nat): (r: (bool, Link))
    ensures tries > 0 ==> r.1.rx == []
    ensures r.0 ==> Accepted(r.1.buf)
    ensures !r.0 ==> |r.1.log| == |l.log| + tries
    decreases tries
  {
    if tries == 0 then (false, l)
    else
      var first := Attempt(frame, l);
      if first.0 then first else Send(frame, first.1, tries - 1)
  }

  /** `k` copies of `frame`. */
  function Repeat(frame: seq<Byte>, k: nat): seq<seq<Byte>>
  {
    if k == 0 then [] else Repeat(frame, k - 1) + [frame]
  }

  /** The queue the i-th attempt (counting from 0) of a run starting at `l` would see
      after its wait: stray bytes already queued count only for the first attempt,
      every later attempt starts from an empty queue. */
  function Arrival(l: Link, i: nat): seq<Byte>
  {
    Waited(if i == 0 then l.rx else [], if i < |l.script| then l.script[i] else [])
  }

  /** The attempt after a failed one sees what the run would see one step further. */
  lemma ArrivalShift(frame: seq<Byte>, l: Link, i: nat)
    ensures Arrival(Attempt(frame, l).1, i) == Arrival(l, i + 1)
  {
  }

  lemma {:induction false} RepeatSnoc(frame: seq<Byte>, k: nat)
    ensures [frame] + Repeat(frame, k) == Repeat(frame, k + 1)
  {
    if k > 0 {
      RepeatSnoc(frame, k - 1);
    }
  }

  /** The first attempt, counting from i, that would see an accepted response: every
      attempt between i and it is rejected, and it is n when none before n is accepted. */
  function FirstAccepted(l: Link, i: nat, n: nat): (j: nat)
    requires i <= n
    ensures i <= j <= n
    ensures j < n ==> Accepted(Arrival(l, j))
    ensures forall t :: i <= t < j ==> !Accepted(Arrival(l, t))
    decreases n - i
  {
    if i == n then n
    else if Accepted(Arrival(l, i)) then i
    else FirstAccepted(l, i + 1, n)
  }

  /** How many attempts a run of at most n makes: up to and including the first accepted one. */
  function AttemptsMade(l: Link, n: nat): nat
  {
    var j := FirstAccepted(l, 0, n);
    if j < n then j + 1 else n
  }

  /** After a rejected attempt the search for the first accepted one moves one step on. */
  lemma {:induction false} FirstAcceptedShift(frame: seq<Byte>, l: Link, i: nat, m: nat)
    requires i <= m
    ensures FirstAccepted(Attempt(frame, l).1, i, m) + 1 == FirstAccepted(l, i + 1, m + 1)
    decreases m - i
  {
    ArrivalShift(frame, l, i);
    if i < m {
      FirstAcceptedShift(frame, l, i + 1, m);
    }
  }

  /** After a rejected first attempt, a run of n makes one attempt more than the run of
      n - 1 that starts from the state it leaves. */
  lemma AttemptsMadeShift(frame: seq<Byte>, l: Link, n: nat)
    requires n >= 2 && !Attempt(frame, l).0
    ensures AttemptsMade(l, n) == AttemptsMade(Attempt(frame, l).1, n - 1) + 1
    ensures FirstAccepted(l, 0, n) == FirstAccepted(Attempt(frame, l).1, 0, n - 1) + 1
  {
    assert Arrival(l, 0) == Waited(l.rx, NextArrivals(l.script));
    FirstAcceptedShift(frame, l, 0, n - 1);
  }

  /** The frames a run of at most n attempts writes: one per attempt made. */
  lemma {:induction false} SendLog(frame: seq<Byte>, l: Link, n: nat)
    requires n >= 1
    ensures Send(frame, l, n).1.log == l.log + Repeat(frame, AttemptsMade(l, n))
    decreases n
  {
    var first := Attempt(frame, l);
    assert Arrival(l, 0) == Waited(l.rx, NextArrivals(l.script));
    assert Repeat(frame, 1) == [frame];
    if !first.0 && n > 1 {
      SendLog(frame, first.1, n - 1);
      AttemptsMadeShift(frame, l, n);
      var k := AttemptsMade(first.1, n - 1);
      RepeatSnoc(frame, k);
      assert l.log + [frame] + Repeat(frame, k) == l.log + Repeat(frame, k + 1);
    }
  }

  /** The arrival entries a run of at most n attempts uses up: one per attempt made. */
  lemma {:induction false} SendScript(frame: seq<Byte>, l: Link, n: nat)
    requires n >= 1
    ensures Send(frame, l, n).1.script == Drop(l.script, AttemptsMade(l, n))
    decreases n
  {
    var first := Attempt(frame, l);
    assert Arrival(l, 0) == Waited(l.rx, NextArrivals(l.script));
    if !first.0 && n > 1 {
      SendScript(frame, first.1, n - 1);
      AttemptsMadeShift(frame, l, n);
      var k := AttemptsMade(first.1, n - 1);
      assert Drop(first.1.script, k) == Drop(l.script, k + 1);
    }
  }

  /** The trace of a run of at most n attempts: it makes AttemptsMade(l, n) attempts,
      each writing the frame once and taking one script entry, and leaves the queue empty. */
  lemma SendTrace(frame: seq<Byte>, l: Link, n: nat)
    requires n >= 1
    ensures Send(frame, l, n).1.rx == []
    ensures Send(frame, l, n).1.log == l.log + Repeat(frame, AttemptsMade(l, n))
    ensures Send(frame, l, n).1.script == Drop(l.script, AttemptsMade(l, n))
  {
    SendLog(frame, l, n);
    SendScript(frame, l, n);
  }

  /** The outcome of a run of at most n attempts: it succeeds iff some attempt before the
      n-th would see an accepted response, and the buffer then holds exactly the bytes of
      the first such attempt. */
  lemma {:induction false} SendOutcome(frame: seq<Byte>, l: Link, n: nat)
    requires n >= 1
    ensures Send(frame, l, n).0 <==> FirstAccepted(l, 0, n) < n
    ensures Send(frame, l, n).0 ==> Send(frame, l, n).1.buf == Arrival(l, FirstAccepted(l, 0, n))
    decreases n
  {
    var first := Attempt(frame, l);
    assert Arrival(l, 0) == Waited(l.rx, NextArrivals(l.script));
    if !first.0 && n > 1 {
      SendOutcome(frame, first.1, n - 1);
      AttemptsMadeShift(frame, l, n);
      ArrivalShift(frame, l, FirstAccepted(first.1, 0, n - 1));
    }
  }

  /** The run succeeds iff one of its n attempts would see an accepted response, and
      never makes more than n attempts. */
  lemma SendSucceedsIff(frame: seq<Byte>, l: Link, n: nat)
    requires n >= 1
    ensures 1 <= AttemptsMade(l, n) <= n
    ensures Send(frame, l, n).0 <==> exists i :: 0 <= i < n && Accepted(Arrival(l, i))
  {
    SendOutcome(frame, l, n);
  }

  /** A device that never answers: three attempts, three frames written, then failure
      with the buffer untouched. */
  lemma NoReplyGivesUp(frame: seq<Byte>, log: seq<seq<Byte>>, buf: seq<Byte>)
    ensures Send(frame, Link([], [], log, buf), Tries) == (false, Link([], [], log + [frame, frame, frame], buf))
  {
    var l0 := Link([], [], log, buf);
    var l1 := Link([], [], log + [frame], buf);
    var l2 := Link([], [], log + [frame, frame], buf);
    var l3 := Link([], [], log + [frame, frame, frame], buf);
    assert log + [frame] + [frame] == log + [frame, frame];
    assert log + [frame, frame] + [frame] == log + [frame, frame, frame];
    assert Attempt(frame, l0) == (false, l1);
    assert Attempt(frame, l1) == (false, l2);
    assert Attempt(frame, l2) == (false, l3);
  }

  /** Two corrupted replies and then a valid one: the third attempt succeeds and the
      buffer holds the valid reply. */
  lemma CorruptTwiceThenValid(frame: seq<Byte>, bad1: seq<Byte>, bad2: seq<Byte>, good: seq<Byte>,
                              log: seq<seq<Byte>>, buf: seq<Byte>)
    requires |bad1| == FrameSize && Checksum(bad1) != 0
    requires |bad2| == FrameSize && Checksum(bad2) != 0
    requires Accepted(good)
    ensures Send(frame, Link([], [[bad1], [bad2], [good]], log, buf), Tries)
         == (true, Link([], [], log + [frame, frame, frame], good))
  {
    var l0 := Link([], [[bad1], [bad2], [good]], log, buf);
    var l1 := Link([], [[bad2], [good]], log + [frame], bad1);
    var l2 := Link([], [[good]], log + [frame, frame], bad2);
    var l3 := Link([], [], log + [frame, frame, frame], good);
    assert Waited([], [bad1]) == bad1 by { assert [] + bad1 == bad1; }
    assert Waited([], [bad2]) == bad2 by { assert [] + bad2 == bad2; }
    assert Waited([], [good]) == good by { assert [] + good == good; }
    assert l0.script[1..] == l1.script && l1.script[1..] == l2.script;
    assert log + [frame] + [frame] == log + [frame, frame];
    assert log + [frame, frame] + [frame] == log + [frame, frame, frame];
    assert Attempt(frame, l0) == (false, l1);
    assert Attempt(frame, l1) == (false, l2);
    assert Attempt(frame, l2) == (true, l3);
  }

  /** A valid reply followed by one stray byte is 14 bytes, so the first attempt fails
      even though its first 13 bytes would pass; the stray byte is drained and the
      second attempt reads only its own reply. */
  lemma StrayByteDrained(frame: seq<Byte>, good: seq<Byte>, stray: Byte, log: seq<seq<Byte>>, buf: seq<Byte>)
    requires Accepted(good)
    ensures Send(frame, Link([], [[good + [stray]], [good]], log, buf), Tries)
         == (true, Link([], [], log + [frame, frame], good))
  {
    var l0 := Link([], [[good + [stray]], [good]], log, buf);
    var l1 := Link([], [[good]], log + [frame], buf);
    var l2 := Link([], [], log + [frame, frame], good);
    assert Waited([], [good + [stray]]) == good + [stray] by { assert [] + (good + [stray]) == good + [stray]; }
    assert Waited([], [good]) == good by { assert [] + good == good; }
    assert l0.script[1..] == l1.script;
    assert log + [frame] + [frame] == log + [frame, frame];
    assert Attempt(frame, l0) == (false, l1);
    assert Attempt(frame, l1) == (true, l2);
  }
}
