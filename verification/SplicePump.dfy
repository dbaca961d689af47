/** Moving a TCP stream through a pipe and accounting for every byte
  (components/xray-core/proxy/splice_accounting_linux.go).

  The kernel, the pollers and the rate limiter answer from a script of any length and content;
  when it runs out, everything fails, so each run of the pump ends. */
module SplicePump {

  newtype byte = x: int | 0 <= x < 256

  datatype Answer =
    | Moved(count: nat)      // a splice moved up to this many bytes
    | Interrupted            // EINTR
    | WouldBlock             // EAGAIN
    | Unsupported            // EINVAL
    | Fine(size: nat)        // a poller woke up, or the limiter agreed
    | Fault                  // anything else

  datatype Setup = NotTcp | SetupFails | Ready

  datatype Error = NoError | Invalid | NoProgress | Failed

  /** What an observer sees between two system calls. */
  datatype Snapshot = Snapshot(source: seq<byte>, pipe: seq<byte>, delivered: seq<byte>, accounted: nat)

  /** The stream is split without loss or reordering into what arrived, what is in the pipe and
      what is still to be read, and exactly what arrived has been accounted. */
  ghost predicate Balanced(s: Snapshot, stream: seq<byte>) {
    s.delivered + s.pipe + s.source == stream && s.accounted == |s.delivered|
  }

  function Least(x: nat, y: nat): nat { if x <= y then x else y }

  class Pump {
    var source: seq<byte>
    var pipe: seq<byte>
    var delivered: seq<byte>
    var accounted: nat
    var script: seq<Answer>
    ghost const stream: seq<byte>
    ghost var trace: seq<Snapshot>

    constructor (bytes: seq<byte>, answers: seq<Answer>)
      ensures source == bytes == stream && pipe == delivered == [] && accounted == 0 && script == answers
      ensures trace == [] && Valid()
    {
      source, pipe, delivered, accounted, script := bytes, [], [], 0, answers;
      stream, trace := bytes, [];
    }

    ghost function Now(): Snapshot
      reads this
    {
      Snapshot(source, pipe, delivered, accounted)
    }

    ghost predicate Valid()
      reads this
    {
      Balanced(Now(), stream) && forall s | s in trace :: Balanced(s, stream)
    }

    /** The next answer of the environment; the moment is recorded. */
    method Ask() returns (answer: Answer)
      requires Valid()
      modifies this`script, this`trace
      ensures Valid() && trace == old(trace) + [Now()]
      ensures old(script) == [] ==> answer == Fault && script == []
      ensures old(script) != [] ==> answer == old(script)[0] && script == old(script)[1..]
    {
      trace := trace + [Now()];
      if script == [] { return Fault; }
      answer := script[0];
      script := script[1..];
    }

    /** The read side: splice from the socket into the empty pipe, retrying interruptions and
        waiting out a socket with nothing to read. */
    method ReadReady(chunk: nat) returns (available: nat, readErr: Error, pollFailed: bool)
      requires Valid() && pipe == [] && chunk > 0
      modifies this`source, this`pipe, this`script, this`trace
      ensures Valid()
      ensures |script| <= |old(script)| && (|script| < |old(script)| || readErr != NoError || pollFailed)
      ensures old(trace) <= trace
      ensures readErr != NoError || pollFailed ==> available == 0 && source == old(source) && pipe == []
      ensures available == |pipe| && pipe + source == old(source)
      ensures readErr == NoError && !pollFailed && available == 0 ==> source == []
    {
      available, readErr, pollFailed := 0, NoError, false;
      while true
        invariant Valid() && pipe == [] && source == old(source)
        invariant |script| <= |old(script)| && old(trace) <= trace
        invariant available == 0 && readErr == NoError && !pollFailed
        decreases |script|
      {
        var answer := Ask();
        match answer {
          case Moved(count) =>
            // Zero bytes only at the end of the stream; never more than asked or available.
            available := Least(Least(count, chunk), |source|);
            if available == 0 && source != [] { available := 1; }
            pipe, source := source[..available], source[available..];
            return;
          case Interrupted => continue;
          case WouldBlock =>
            var woken := Ask();
            if !woken.Fine? { return 0, NoError, true; }
          case Unsupported => return 0, Invalid, false;
          case Fine(_) => return 0, Failed, false;
          case Fault => return 0, Failed, false;
        }
      }
    }

    /** The write side, once: splice from the pipe to the socket and account what moved before
        anything else happens. */
    method WriteReady(available: nat) returns (left: nat, writeErr: Error, pollFailed: bool)
      requires Valid() && 0 < available == |pipe|
      modifies this`pipe, this`delivered, this`accounted, this`script, this`trace
      ensures Valid() && old(trace) <= trace
      ensures |script| <= |old(script)| && (|script| < |old(script)| || writeErr != NoError || pollFailed)
      ensures left == |pipe| && (writeErr == NoError && !pollFailed ==> left < available)
      ensures delivered + pipe == old(delivered + pipe)
    {
      left, writeErr, pollFailed := available, NoError, false;
      while true
        invariant Valid() && old(trace) <= trace
        invariant pipe == old(pipe) && delivered == old(delivered)
        invariant |script| <= |old(script)|
        decreases |script|
      {
        var answer := Ask();
        match answer {
          case Moved(count) =>
            var written := Least(count, available);
            if written == 0 { return available, NoProgress, false; }
            delivered, pipe := delivered + pipe[..written], pipe[written..];
            accounted := accounted + written;
            return available - written, NoError, false;
          case Interrupted => continue;
          case WouldBlock =>
            var woken := Ask();
            if !woken.Fine? { return available, NoError, true; }
          case Unsupported => return available, Invalid, false;
          case Fine(_) => return available, Failed, false;
          case Fault => return available, Failed, false;
        }
      }
    }

    /** The whole pump. Whatever happens, what was delivered is a prefix of the stream, every
        delivered byte and no other is accounted at every moment, and everything consumed is
        delivered or still in the pipe. Falling back to buffered copying is offered only while
        nothing has been consumed; a clean end has delivered the stream to its last byte. */
    method CopyAccountedSplice(setup: Setup) returns (handled: bool, err: Error)
      requires Valid() && pipe == [] && delivered == [] && source == stream
      modifies this
      ensures Valid()
      ensures delivered <= stream && accounted == |delivered|
      ensures |stream| - |source| == accounted + |pipe|
      ensures forall s | s in trace && s !in old(trace) :: s.delivered <= stream && s.accounted == |s.delivered|
                                                           && |stream| - |s.source| == s.accounted + |s.pipe|
      ensures !handled ==> source == stream && delivered == [] && pipe == []
      ensures handled && err == NoError ==> delivered == stream && pipe == [] && source == []
      ensures setup != Ready ==> !handled && (err == NoError <==> setup == NotTcp)
    {
      handled, err := false, NoError;
      match setup {
        case NotTcp => return false, NoError;
        case SetupFails => return false, Failed;
        case Ready =>
      }
      while true
        invariant Valid() && pipe == []
        invariant !handled ==> source == stream
        decreases |script|
      {
        ghost var answersLeft := |script|;
        var limit := Ask();
        if !limit.Fine? { return handled, Failed; }
        var chunk := if limit.size == 0 then 1 else limit.size;
        var available, readErr, pollFailed := ReadReady(chunk);
        if pollFailed { return true, Failed; }
        if readErr != NoError {
          if !handled && readErr == Invalid { return false, NoError; }
          return true, readErr;
        }
        handled := true;
        if available == 0 { return true, NoError; }
        var permit := Ask();
        if !permit.Fine? { return true, Failed; }
        while available > 0
          invariant Valid() && available == |pipe|
          invariant |script| < answersLeft
        {
          var writeErr, waitFailed;
          available, writeErr, waitFailed := WriteReady(available);
          if waitFailed { return true, Failed; }
          if writeErr != NoError { return true, writeErr; }
        }
      }
    }
  }
}
