/**
 A writer with a buffer, a bounded channel and a reader: the way request bytes travel from the
 code that produces them to the connection that sends them.  The writer may stop, and the reader
 may hang up, between any two steps.
 */
module Pipe {
  type Byte = bv8

  /** What travels: bytes, the writer's report of an error, or its word that the body is complete. */
  datatype Part = Frame(bytes: seq<Byte>) | Fail | Done

  datatype Sender = Writing | Finished | Stopped

  /** What the reader has been told: nothing final, a complete end, or an error. */
  datatype Reader = Reading | Complete | Errored | HungUp

  datatype Pipe = Pipe(
    accepted: seq<Byte>,    // every byte the writer was told had been taken
    buf: seq<Byte>,
    queue: seq<Part>,
    sender: Sender,
    reader: Reader,
    delivered: seq<Byte>)   // every byte the reader was given

  const Empty: Pipe := Pipe([], [], [], Writing, Reading, [])

  /** A channel of one slot has room for that one and one more for its only sender. */
  const CHANNEL_ROOM: nat := 2

  datatype Step =
    | Buffer(bytes: seq<Byte>)      // bytes are copied into the buffer
    | Flush                         // the buffer is sent as one frame
    | SendFrame(bytes: seq<Byte>)   // bytes are sent as a frame of their own, behind an empty buffer
    | SendFail
    | SendDone
    | Stop                          // the writer is dropped
    | Take                          // the reader polls
    | HangUp                        // the reader is dropped

  predicate Open(p: Pipe) {
    p.reader.Reading?
  }

  predicate CanSend(p: Pipe) {
    p.sender.Writing? && Open(p) && |p.queue| < CHANNEL_ROOM
  }

  function Send(p: Pipe, part: Part): Pipe {
    p.(queue := p.queue + [part])
  }

  predicate Enabled(p: Pipe, e: Step) {
    match e
    case Buffer(_) => p.sender.Writing?
    case Flush => CanSend(p) && p.buf != []
    case SendFrame(_) => CanSend(p) && p.buf == []
    case SendFail => CanSend(p)
    case SendDone => CanSend(p) && p.buf == []
    case Stop => p.sender.Writing?
    case Take => Open(p)
    case HangUp => Open(p)
  }

  /** A poll that finds nothing waits for a writer that is still there, and reports one that is gone. */
  function Taken(p: Pipe): Pipe {
    if p.queue == [] then (if p.sender.Writing? then p else p.(reader := Errored))
    else
      var p' := p.(queue := p.queue[1..]);
      match p.queue[0]
      case Frame(bytes) => p'.(delivered := p.delivered + bytes)
      case Fail => p'.(reader := Errored)
      case Done => p'.(reader := Complete)
  }

  function Next(p: Pipe, e: Step): Pipe
    requires Enabled(p, e)
  {
    match e
    case Buffer(bytes) => p.(buf := p.buf + bytes, accepted := p.accepted + bytes)
    case Flush => Send(p.(buf := []), Frame(p.buf))
    case SendFrame(bytes) => Send(p.(accepted := p.accepted + bytes), Frame(bytes))
    case SendFail => Send(p.(sender := Stopped), Fail)
    case SendDone => Send(p.(sender := Finished), Done)
    case Stop => p.(sender := Stopped)
    case Take => Taken(p)
    case HangUp => p.(reader := HungUp)
  }

  function Payload(part: Part): seq<Byte> {
    if part.Frame? then part.bytes else []
  }

  function Bytes(queue: seq<Part>): seq<Byte> {
    if queue == [] then [] else Payload(queue[0]) + Bytes(queue[1..])
  }

  lemma {:induction false} BytesSnoc(queue: seq<Part>, part: Part)
    ensures Bytes(queue + [part]) == Bytes(queue) + Payload(part)
  {
    var more, p := queue + [part], Payload(part);
    if queue == [] {
      assert more[1..] == [] && more[0] == part;
      assert p + [] == [] + p;
    } else {
      BytesSnoc(queue[1..], part);
      assert more[1..] == queue[1..] + [part] && more[0] == queue[0];
      Regroup(Payload(queue[0]), Bytes(queue[1..]), p);
    }
  }

  ghost predicate OnlyFrames(queue: seq<Part>) {
    forall i :: 0 <= i < |queue| ==> queue[i].Frame?
  }

  /** The queue ends in the writer's last word exactly when it has said one. */
  ghost predicate LastWord(p: Pipe) {
    match p.sender
    case Writing => OnlyFrames(p.queue)
    case Finished => p.buf == [] && p.queue != [] && p.queue[|p.queue| - 1].Done? && OnlyFrames(p.queue[..|p.queue| - 1])
    case Stopped => OnlyFrames(p.queue) || (p.queue != [] && p.queue[|p.queue| - 1].Fail? && OnlyFrames(p.queue[..|p.queue| - 1]))
  }

  /**
   While the reader reads, what it has, what is queued and what is buffered make up exactly what
   the writer handed over; it is told "complete" only by a writer that finished, with every byte.
   */
  ghost predicate Inv(p: Pipe) {
    && p.delivered <= p.accepted
    && (Open(p) ==> p.delivered + Bytes(p.queue) + p.buf == p.accepted && LastWord(p))
    && (p.reader.Complete? ==> p.sender.Finished? && p.delivered == p.accepted)
    && (p.reader.Errored? ==> p.sender.Stopped?)
  }

  /** Sending a part behind frames: the frames and the part are what is queued. */
  lemma SendKeeps(p: Pipe, part: Part)
    requires p.sender.Writing? && LastWord(p)
    ensures Bytes(Send(p, part).queue) == Bytes(p.queue) + Payload(part)
    ensures var q := Send(p, part).queue; q[|q| - 1] == part && OnlyFrames(q[..|q| - 1]) && (part.Frame? ==> OnlyFrames(q))
  {
    BytesSnoc(p.queue, part);
    var q := p.queue + [part];
    assert q[..|q| - 1] == p.queue;
  }

  lemma Regroup(a: seq<Byte>, b: seq<Byte>, c: seq<Byte>)
    ensures a + b + c == a + (b + c) && a + [] == a
  {
  }

  lemma BufferKeepsInv(p: Pipe, bytes: seq<Byte>)
    requires Inv(p) && Enabled(p, Buffer(bytes))
    ensures Inv(Next(p, Buffer(bytes)))
  {
    Regroup(p.delivered + Bytes(p.queue), p.buf, bytes);
  }

  lemma FrameKeepsInv(p: Pipe, e: Step)
    requires Inv(p) && Enabled(p, e) && (e.Flush? || e.SendFrame?)
    ensures Inv(Next(p, e))
  {
    var bytes := if e.Flush? then p.buf else e.bytes;
    SendKeeps(p, Frame(bytes));
    Regroup(p.delivered, Bytes(p.queue), bytes);
    Regroup(p.delivered + Bytes(p.queue), [], []);
    Regroup(p.delivered + (Bytes(p.queue) + bytes), [], []);
  }

  lemma LastWordKeepsInv(p: Pipe, e: Step)
    requires Inv(p) && Enabled(p, e) && (e.SendFail? || e.SendDone?)
    ensures Inv(Next(p, e))
  {
    SendKeeps(p, if e.SendFail? then Fail else Done);
    Regroup(Bytes(p.queue), [], []);
  }

  lemma WriteKeepsInv(p: Pipe, e: Step)
    requires Inv(p) && Enabled(p, e) && !e.Take?
    ensures Inv(Next(p, e))
  {
    match e
    case Buffer(bytes) => BufferKeepsInv(p, bytes);
    case Flush => FrameKeepsInv(p, e);
    case SendFrame(_) => FrameKeepsInv(p, e);
    case SendFail => LastWordKeepsInv(p, e);
    case SendDone => LastWordKeepsInv(p, e);
    case _ =>
  }

  lemma TakeKeepsLastWord(p: Pipe)
    requires LastWord(p) && p.queue != [] && p.queue[0].Frame?
    ensures LastWord(Taken(p))
  {
    var rest := p.queue[1..];
    if |p.queue| > 1 {
      assert rest[|rest| - 1] == p.queue[|p.queue| - 1];
      assert rest[..|rest| - 1] == p.queue[..|p.queue| - 1][1..];
    }
  }

  /** A frame at the head is never the last word; the last word has nothing but itself behind the frames. */
  lemma HeadIsLastWord(p: Pipe)
    requires LastWord(p) && p.queue != [] && !p.queue[0].Frame?
    ensures |p.queue| == 1 && (p.sender.Finished? <==> p.queue[0].Done?) && (p.sender.Stopped? <==> p.queue[0].Fail?)
  {
    assert !OnlyFrames(p.queue);
  }

  lemma TakeKeepsInv(p: Pipe)
    requires Inv(p) && Enabled(p, Take)
    ensures Inv(Taken(p))
  {
    if p.queue != [] {
      if p.queue[0].Frame? {
        TakeKeepsLastWord(p);
        Regroup(p.delivered, p.queue[0].bytes, Bytes(p.queue[1..]));
      } else {
        HeadIsLastWord(p);
        NoBytesInLastWord(p.queue);
        Regroup(p.delivered, [], p.buf);
      }
    }
  }

  lemma NoBytesInLastWord(queue: seq<Part>)
    requires |queue| == 1 && !queue[0].Frame?
    ensures Bytes(queue) == []
  {
    assert queue[1..] == [];
  }

  lemma NextKeepsInv(p: Pipe, e: Step)
    requires Inv(p) && Enabled(p, e)
    ensures Inv(Next(p, e))
  {
    if e.Take? {
      TakeKeepsInv(p);
    } else {
      WriteKeepsInv(p, e);
    }
  }

  ghost predicate Feasible(p: Pipe, run: seq<Step>)
    decreases |run|
  {
    run == [] || (Enabled(p, run[0]) && Feasible(Next(p, run[0]), run[1..]))
  }

  ghost function After(p: Pipe, run: seq<Step>): Pipe
    requires Feasible(p, run)
    decreases |run|
  {
    if run == [] then p else After(Next(p, run[0]), run[1..])
  }

  lemma {:induction false} RunKeepsInv(p: Pipe, run: seq<Step>)
    requires Inv(p) && Feasible(p, run)
    ensures Inv(After(p, run))
    decreases |run|
  {
    if run != [] {
      NextKeepsInv(p, run[0]);
      RunKeepsInv(Next(p, run[0]), run[1..]);
    }
  }

  /**
   Never a truncated body: over every run, the reader has a prefix of what was handed over; it is
   told that the body is complete only after the writer finished, and then it has every byte;
   when the writer stopped early and the queue has drained, the next poll reports an error.
   */
  lemma NeverTruncated(run: seq<Step>)
    requires Feasible(Empty, run)
    ensures var p := After(Empty, run);
            && p.delivered <= p.accepted
            && (Open(p) ==> p.delivered + Bytes(p.queue) + p.buf == p.accepted)
            && (p.reader.Complete? ==> p.sender.Finished? && p.delivered == p.accepted)
            && (Open(p) && p.sender.Stopped? && p.queue == [] ==> Taken(p).reader.Errored?)
            && (p.sender.Stopped? ==> !p.reader.Complete?)
  {
    RunKeepsInv(Empty, run);
  }

  // ----- what a reader who polls on is told

  function Takes(n: nat): seq<Step> {
    if n == 0 then [] else [Take] + Takes(n - 1)
  }

  /** The polls that it takes to reach the writer's last word, or to find the writer gone without one. */
  function ToLastWord(p: Pipe): nat {
    if p.sender.Stopped? && (p.queue == [] || p.queue[|p.queue| - 1].Frame?) then |p.queue| + 1 else |p.queue|
  }

  /**
   Once the writer is through, a reader who polls on is told so: of a complete body, with every byte, if the writer
   finished, and of an error if it did not.
   */
  lemma {:induction false} LastWordArrives(p: Pipe)
    requires Inv(p) && Open(p) && !p.sender.Writing?
    ensures Feasible(p, Takes(ToLastWord(p)))
    ensures var p' := After(p, Takes(ToLastWord(p)));
            if p.sender.Finished? then p'.reader.Complete? && p'.delivered == p.accepted else p'.reader.Errored?
    decreases |p.queue|
  {
    var p' := Taken(p);
    TakeKeepsInv(p);
    assert ToLastWord(p) > 0;
    assert Takes(ToLastWord(p))[0] == Take && Takes(ToLastWord(p))[1..] == Takes(ToLastWord(p) - 1);
    if p.queue != [] {
      if p.queue[0].Frame? {
        LastWordArrives(p');
      } else {
        HeadIsLastWord(p);
      }
    }
  }
}
