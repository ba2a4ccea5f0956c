/** The SPI device the driver writes through, as a recording bus: every
    two-byte frame the driver sends is appended to a trace, and a fixed map
    from write number to error says which writes fail. The error type is left
    abstract. */
module Bus {
  import opened Bytes

  /** One register write on the wire: `[address, data]`. */
  datatype Frame = Frame(address: Byte, data: Byte)

  /** The result of an operation: success, or the bus error that stopped it. */
  datatype Outcome<+E> = Pass | Fail(error: E)

  /** No write numbered `start` .. `start + count - 1` fails. */
  predicate NoFault<E>(faults: map<nat, E>, start: nat, count: nat)
  {
    forall j: nat | start <= j < start + count :: j !in faults
  }

  /** The frames that reach the bus when `frames` are sent one after another
      from write number `start` on, stopping after the first failing one: a
      prefix of `frames`, nonempty unless `frames` is. */
  function Issued<E>(faults: map<nat, E>, start: nat, frames: seq<Frame>): (sent: seq<Frame>)
    ensures sent <= frames
    ensures frames != [] ==> |sent| >= 1
    decreases frames
  {
    if frames == [] then []
    else if start in faults then [frames[0]]
    else [frames[0]] + Issued(faults, start + 1, frames[1..])
  }

  /** What sending `frames` from write number `start` on returns: the error of
      the first failing write, or Pass. */
  function Result<E>(faults: map<nat, E>, start: nat, frames: seq<Frame>): (r: Outcome<E>)
    decreases frames
  {
    if frames == [] then Pass
    else if start in faults then Fail(faults[start])
    else Result(faults, start + 1, frames[1..])
  }

  /** The trace grew from `before` to `after` by sending `frames`, and the
      operation returned `r`. */
  ghost predicate Performs<E>(faults: map<nat, E>, before: seq<Frame>, frames: seq<Frame>,
                              after: seq<Frame>, r: Outcome<E>)
  {
    after == before + Issued(faults, |before|, frames) &&
    r == Result(faults, |before|, frames)
  }

  /** An operation succeeds exactly when none of its writes fails, and then
      every frame was sent. */
  lemma {:induction false} PassExactlyWithoutFault<E>(faults: map<nat, E>, start: nat, frames: seq<Frame>)
    ensures Result(faults, start, frames).Pass? <==> NoFault(faults, start, |frames|)
    ensures Result(faults, start, frames).Pass? ==> Issued(faults, start, frames) == frames
    decreases frames
  {
    if frames != [] {
      PassExactlyWithoutFault(faults, start + 1, frames[1..]);
      assert frames == [frames[0]] + frames[1..];
      if start !in faults && !NoFault(faults, start, |frames|) {
        var j: nat :| start <= j < start + |frames| && j in faults;
        assert start + 1 <= j < start + 1 + |frames[1..]|;
      }
    }
  }

  /** When write `k` of an operation is the first to fail, exactly frames
      0..k have been sent and the operation returns that write's error. */
  lemma {:induction false} FailsAtFirstFault<E>(faults: map<nat, E>, start: nat, frames: seq<Frame>, k: nat)
    requires k < |frames| && start + k in faults && NoFault(faults, start, k)
    ensures Issued(faults, start, frames) == frames[..k + 1]
    ensures Result(faults, start, frames) == Fail(faults[start + k])
    decreases k
  {
    if k > 0 {
      assert start !in faults;
      FailsAtFirstFault(faults, start + 1, frames[1..], k - 1);
      assert frames[..k + 1] == [frames[0]] + frames[1..][..k];
    }
  }

  /** Sending `a` then `b` is sending `a + b`: when `a` fails, `b` is never
      sent; otherwise `b` follows from the next write number on. */
  lemma Sequence<E>(faults: map<nat, E>, start: nat, a: seq<Frame>, b: seq<Frame>)
    ensures Result(faults, start, a).Pass? ==>
      Issued(faults, start, a + b) == a + Issued(faults, start + |a|, b) &&
      Result(faults, start, a + b) == Result(faults, start + |a|, b)
    ensures Result(faults, start, a).Fail? ==>
      Issued(faults, start, a + b) == Issued(faults, start, a) &&
      Result(faults, start, a + b) == Result(faults, start, a)
  {
    if Result(faults, start, a).Pass? {
      SequencePass(faults, start, a, b);
    } else {
      SequenceFail(faults, start, a, b);
    }
  }

  lemma {:induction false} SequencePass<E>(faults: map<nat, E>, start: nat, a: seq<Frame>, b: seq<Frame>)
    requires Result(faults, start, a).Pass?
    ensures Issued(faults, start, a + b) == a + Issued(faults, start + |a|, b)
    ensures Result(faults, start, a + b) == Result(faults, start + |a|, b)
    decreases a
  {
    if a == [] {
      assert a + b == b;
    } else {
      assert start !in faults;
      var ab := a + b;
      assert ab[0] == a[0] && ab[1..] == a[1..] + b;
      SequencePass(faults, start + 1, a[1..], b);
      var tail := Issued(faults, start + |a|, b);
      assert Issued(faults, start, ab) == [a[0]] + (a[1..] + tail);
      Splice([a[0]], a[1..], tail, a, Issued(faults, start, ab));
    }
  }

  lemma {:induction false} SequenceFail<E>(faults: map<nat, E>, start: nat, a: seq<Frame>, b: seq<Frame>)
    requires Result(faults, start, a).Fail?
    ensures Issued(faults, start, a + b) == Issued(faults, start, a)
    ensures Result(faults, start, a + b) == Result(faults, start, a)
    decreases a
  {
    assert (a + b)[0] == a[0] && (a + b)[1..] == a[1..] + b;
    if start !in faults {
      SequenceFail(faults, start + 1, a[1..], b);
    }
  }

  /** Partway through an operation that sends `all` starting from trace
      `start`: sending the frames `rest` from trace `now` on would complete
      it. */
  ghost predicate Remaining<E>(faults: map<nat, E>, start: seq<Frame>, all: seq<Frame>,
                               now: seq<Frame>, rest: seq<Frame>)
  {
    now + Issued(faults, |now|, rest) == start + Issued(faults, |start|, all) &&
    Result(faults, |now|, rest) == Result(faults, |start|, all)
  }

  /** Sending the next piece of an operation either fails, which ends the
      whole operation with that error, or leaves the rest to send. */
  lemma Advance<E>(faults: map<nat, E>, start: seq<Frame>, all: seq<Frame>, before: seq<Frame>,
                   piece: seq<Frame>, rest: seq<Frame>, after: seq<Frame>, r: Outcome<E>)
    requires Remaining(faults, start, all, before, piece + rest)
    requires Performs(faults, before, piece, after, r)
    ensures r.Fail? ==> Performs(faults, start, all, after, r)
    ensures r.Pass? ==> Remaining(faults, start, all, after, rest)
  {
    if r.Pass? {
      AdvancePass(faults, start, all, before, piece, rest, after);
    } else {
      Sequence(faults, |before|, piece, rest);
    }
  }

  lemma AdvancePass<E>(faults: map<nat, E>, start: seq<Frame>, all: seq<Frame>, before: seq<Frame>,
                       piece: seq<Frame>, rest: seq<Frame>, after: seq<Frame>)
    requires Remaining(faults, start, all, before, piece + rest)
    requires Performs(faults, before, piece, after, Pass)
    ensures Remaining(faults, start, all, after, rest)
  {
    var k := |before|;
    Sequence(faults, k, piece, rest);
    PassExactlyWithoutFault(faults, k, piece);
    Splice(before, piece, Issued(faults, k + |piece|, rest), after, start + Issued(faults, |start|, all));
  }

  lemma Splice<T>(before: seq<T>, piece: seq<T>, tail: seq<T>, after: seq<T>, target: seq<T>)
    requires after == before + piece && before + (piece + tail) == target
    ensures after + tail == target
  {
    assert before + (piece + tail) == (before + piece) + tail;
  }

  /** Sending frame `i` of an operation, one frame at a time. */
  lemma AdvanceOne<E>(faults: map<nat, E>, start: seq<Frame>, all: seq<Frame>, i: nat,
                      before: seq<Frame>, after: seq<Frame>, r: Outcome<E>)
    requires i < |all|
    requires Remaining(faults, start, all, before, all[i..])
    requires Performs(faults, before, [all[i]], after, r)
    ensures r.Fail? ==> Performs(faults, start, all, after, r)
    ensures r.Pass? ==> Remaining(faults, start, all, after, all[i + 1..])
  {
    assert all[i..] == [all[i]] + all[i + 1..];
    Advance(faults, start, all, before, [all[i]], all[i + 1..], after, r);
  }

  /** Sending frames `j .. j + len` of an operation as one piece. */
  lemma AdvanceSlice<E>(faults: map<nat, E>, start: seq<Frame>, all: seq<Frame>, j: nat, len: nat,
                        before: seq<Frame>, after: seq<Frame>, r: Outcome<E>)
    requires j + len <= |all|
    requires Remaining(faults, start, all, before, all[j..])
    requires Performs(faults, before, all[j..j + len], after, r)
    ensures r.Fail? ==> Performs(faults, start, all, after, r)
    ensures r.Pass? ==> Remaining(faults, start, all, after, all[j + len..])
  {
    assert all[j..] == all[j..j + len] + all[j + len..];
    Advance(faults, start, all, before, all[j..j + len], all[j + len..], after, r);
  }

  /** With nothing left to send, the operation has completed successfully. */
  lemma Finish<E>(faults: map<nat, E>, start: seq<Frame>, all: seq<Frame>, now: seq<Frame>)
    requires Remaining(faults, start, all, now, [])
    ensures Performs(faults, start, all, now, Pass)
  {
    assert now + Issued(faults, |now|, []) == now;
  }

  /** The SPI device. */
  class Spi<E> {
    /** Every frame written so far, the failing ones included. */
    var trace: seq<Frame>
    /** Which write numbers fail, and with what error. */
    const faults: map<nat, E>

    constructor (faults: map<nat, E>)
      ensures trace == [] && this.faults == faults
    {
      trace := [];
      this.faults := faults;
    }

    /** `SpiDevice::write` of a two-byte buffer. */
    method Write(f: Frame) returns (r: Outcome<E>)
      modifies this
      ensures Performs(faults, old(trace), [f], trace, r)
    {
      r := if |trace| in faults then Fail(faults[|trace|]) else Pass;
      trace := trace + [f];
    }
  }
}
