/** A file descriptor seen from the program: the bytes still to come, and how
    the kernel will pace them. Quantifying over the pace quantifies over every
    split of the bytes into partial reads and writes. */
module ByteStreams {

  // What the next call does: moves up to `most` bytes, is interrupted by a
  // signal, or fails for good. A descriptor with no steps left moves all it can.
  datatype Step = Move(most: nat) | Interrupt | Fault

  // What poll() says before a read.
  datatype Readiness = Ready | Quiet | Hangup | PollInterrupt | PollFault

  datatype Outcome = Count(n: nat) | Interrupted | Failed

  function Min(a: int, b: int): int { if a < b then a else b }

  /** Bytes moved by one call: at least one when there is something to move. */
  function Moved(pace: seq<Step>, wanted: nat): (n: nat)
    requires pace == [] || pace[0].Move?
    ensures n <= wanted && (wanted > 0 ==> n > 0)
  {
    if pace == [] then wanted else Min(if pace[0].most == 0 then 1 else pace[0].most, wanted)
  }

  predicate NoFault(pace: seq<Step>) {
    forall i :: 0 <= i < |pace| ==> !pace[i].Fault?
  }

  class Source<T> {
    var stream: seq<T>
    var pace: seq<Step>
    var polls: seq<Readiness>

    constructor (stream: seq<T>, pace: seq<Step>, polls: seq<Readiness>)
      ensures this.stream == stream && this.pace == pace && this.polls == polls
    {
      this.stream, this.pace, this.polls := stream, pace, polls;
    }

    /** read(): Count(0) only at the end of the stream. */
    method Read(wanted: nat) returns (r: Outcome, got: seq<T>)
      requires wanted > 0
      modifies this`stream, this`pace
      ensures pace == if old(pace) == [] then [] else old(pace)[1..]
      ensures old(stream) == got + stream
      ensures r.Interrupted? <==> old(pace) != [] && old(pace)[0].Interrupt?
      ensures r.Failed? <==> old(pace) != [] && old(pace)[0].Fault?
      ensures if r.Count? then |got| == r.n <= wanted && (r.n == 0 <==> old(stream) == []) else got == []
      ensures r.Count? ==> r.n == Moved(old(pace), Min(wanted, |old(stream)|))
    {
      r, got := Interrupted, [];
      if pace != [] && !pace[0].Move? {
        if pace[0].Fault? { r := Failed; }
      } else {
        var n := Moved(pace, Min(wanted, |stream|));
        r, got, stream := Count(n), stream[..n], stream[n..];
      }
      if pace != [] { pace := pace[1..]; }
    }

    /** poll(); a descriptor with no verdicts left is always ready. */
    method Poll() returns (r: Readiness)
      modifies this`polls
      ensures polls == if old(polls) == [] then [] else old(polls)[1..]
      ensures r == if old(polls) == [] then Ready else old(polls)[0]
    {
      r := Ready;
      if polls != [] { r, polls := polls[0], polls[1..]; }
    }
  }

  class Sink<T> {
    var written: seq<T>
    var pace: seq<Step>

    constructor (pace: seq<Step>)
      ensures written == [] && this.pace == pace
    {
      written, this.pace := [], pace;
    }

    /** write() of a non-empty buffer. */
    method Write(data: seq<T>) returns (r: Outcome)
      requires data != []
      modifies this
      ensures pace == if old(pace) == [] then [] else old(pace)[1..]
      ensures r.Interrupted? <==> old(pace) != [] && old(pace)[0].Interrupt?
      ensures r.Failed? <==> old(pace) != [] && old(pace)[0].Fault?
      ensures r.Count? ==> r.n == Moved(old(pace), |data|)
      ensures written == if r.Count? then old(written) + data[..r.n] else old(written)
    {
      if pace != [] && !pace[0].Move? {
        r := if pace[0].Fault? then Failed else Interrupted;
      } else {
        var n := Moved(pace, |data|);
        r, written := Count(n), written + data[..n];
      }
      if pace != [] { pace := pace[1..]; }
    }
  }
}
