/** The bounded ring inside stream_t: the critical sections of stream_push, stream_next,
    stream_cancel and stream_finish_cancelled, on the circular buffer. */
module StreamRing {
  datatype Reason = Stop | Length | Cancelled

  datatype Chunk = Token(id: int) | Error | Done(reason: Reason)

  datatype PushResult = Pushed | Refused | MustWait

  /** What stream_finish_cancelled leaves in a ring of the given capacity: a CANCELLED terminal at
      the end, in place of the newest chunk when there is no room. */
  function Finish(content: seq<Chunk>, cap: nat): (r: seq<Chunk>)
    requires 0 < cap && |content| <= cap
    ensures |r| <= cap && |r| > 0 && r[|r| - 1] == Done(Cancelled)
    ensures r[..|r| - 1] <= content && |content| <= |r|
  {
    if |content| < cap then content + [Done(Cancelled)] else content[..cap - 1] + [Done(Cancelled)]
  }

  /** x wrapped once around n. */
  function Wrap(x: nat, n: nat): (r: nat)
    requires x < 2 * n
    ensures r < n && r == x % n
  {
    if x < n then x
    else
      assert x % n == x - n by {
        assert x == 1 * n + (x - n);
        WrapOnce(x, n);
      }
      x - n
  }

  lemma WrapOnce(x: nat, n: nat)
    requires n <= x < 2 * n
    ensures x % n == x - n
  {
    var q := x / n;
    assert x == q * n + x % n;
    assert q >= 2 ==> q * n >= 2 * n;
    assert q == 0 ==> q * n == 0;
  }

  class Ring {
    const buf: array<Chunk>
    var len: nat
    var readPos: nat
    var cancelled: bool

    ghost predicate Valid()
      reads this
    {
      0 < buf.Length && len <= buf.Length && readPos < buf.Length
    }

    ghost function Contents(): (c: seq<Chunk>)
      requires Valid()
      reads this, buf
      ensures |c| == len
      ensures forall i {:trigger c[i]} :: 0 <= i < len ==> c[i] == buf[Wrap(readPos + i, buf.Length)]
    {
      if readPos + len <= buf.Length then buf[readPos..readPos + len]
      else buf[readPos..] + buf[..readPos + len - buf.Length]
    }

    /** stream_create for a positive capacity. */
    constructor (capacity: nat)
      requires capacity > 0
      ensures Valid() && Contents() == [] && buf.Length == capacity && !cancelled && fresh(buf)
    {
      buf := new Chunk[capacity](_ => Error);
      len, readPos, cancelled := 0, 0, false;
    }

    /** stream_push under the lock, up to the point where it would wait. */
    method TryPush(c: Chunk) returns (r: PushResult)
      requires Valid()
      modifies this`len, buf
      ensures Valid() && cancelled == old(cancelled)
      ensures r == if cancelled then Refused else if old(len) == buf.Length then MustWait else Pushed
      ensures Contents() == if r.Pushed? then old(Contents()) + [c] else old(Contents())
    {
      if len == buf.Length && !cancelled {
        return MustWait;
      }
      if cancelled {
        return Refused;
      }
      Append(c);
      return Pushed;
    }

    method Append(c: Chunk)
      requires Valid() && len < buf.Length
      modifies this`len, buf
      ensures Valid() && Contents() == old(Contents()) + [c]
    {
      var writePos := (readPos + len) % buf.Length;
      assert writePos == Wrap(readPos + len, buf.Length);
      buf[writePos] := c;
      len := len + 1;
    }

    method OverwriteNewest(c: Chunk)
      requires Valid() && 0 < len
      modifies buf
      ensures Valid() && Contents() == old(Contents())[..len - 1] + [c]
    {
      var last := (readPos + len - 1) % buf.Length;
      assert last == Wrap(readPos + len - 1, buf.Length);
      buf[last] := c;
    }

    /** stream_next with timeout 0. */
    method TryNext() returns (got: bool, c: Chunk)
      requires Valid()
      modifies this`len, this`readPos
      ensures Valid()
      ensures got == (old(Contents()) != [])
      ensures if got then c == old(Contents())[0] && Contents() == old(Contents())[1..] else Contents() == old(Contents())
    {
      c := Error;
      if len == 0 {
        return false, c;
      }
      ghost var before := Contents();
      c := buf[readPos];
      assert c == before[0];
      readPos := (readPos + 1) % buf.Length;
      len := len - 1;
      assert readPos == Wrap(old(readPos) + 1, buf.Length);
      assert Contents() == before[1..];
      return true, c;
    }

    method Cancel()
      requires Valid()
      modifies this`cancelled
      ensures Valid() && cancelled && Contents() == old(Contents())
    {
      cancelled := true;
    }

    /** stream_finish_cancelled under the lock. */
    method FinishCancelled()
      requires Valid()
      modifies this`len, this`cancelled, buf
      ensures Valid() && cancelled && Contents() == Finish(old(Contents()), buf.Length)
    {
      if len < buf.Length {
        Append(Done(Cancelled));
      } else {
        OverwriteNewest(Done(Cancelled));
      }
      cancelled := true;
    }
  }
}
