/** The asynchronous body writer and the raw request body, which share a channel. */
module RequestBody {
  import opened Pipe

  const FLUSH_THRESHOLD: nat := 4096

  /** The channel's two ends; `view` is the whole pipe as the specification sees it. */
  class Channel {
    var queue: seq<Part>
    var senderGone: bool
    var receiverGone: bool
    ghost var view: Pipe

    constructor ()
      ensures Valid() && view == Empty
    {
      queue, senderGone, receiverGone := [], false, false;
      view := Empty;
    }

    ghost predicate Valid()
      reads this
    {
      && view.queue == queue
      && senderGone == !view.sender.Writing?
      && receiverGone == !Open(view)
    }
  }

  datatype Progress = Pending | Ready | Broken

  class BodyWriter {
    const channel: Channel
    var buf: seq<Byte>

    constructor (channel: Channel)
      requires channel.Valid() && channel.view.buf == [] && channel.view.sender.Writing?
      ensures this.channel == channel && Valid()
    {
      this.channel := channel;
      buf := [];
    }

    ghost predicate Valid()
      reads this, channel
    {
      channel.Valid() && channel.view.buf == buf && channel.view.sender.Writing?
    }

    /** Ready with an empty buffer; Pending or Broken with nothing changed. */
    method PollFlush() returns (r: Progress)
      requires Valid()
      modifies this`buf, channel
      ensures Valid()
      ensures r.Ready? ==> buf == []
      ensures r.Ready? && old(buf) != [] ==> Enabled(old(channel.view), Flush)
      ensures channel.view == if r.Ready? && old(buf) != [] then Next(old(channel.view), Flush) else old(channel.view)
      ensures r.Broken? <==> old(buf) != [] && !Open(channel.view)
      ensures r.Pending? <==> old(buf) != [] && Open(channel.view) && |old(channel.queue)| >= 2
      ensures !r.Ready? ==> buf == old(buf)
      ensures r.Ready? && old(buf) != [] ==> channel.queue == old(channel.queue) + [Frame(old(buf))]
    {
      if buf == [] {
        return Ready;
      }
      if channel.receiverGone {
        return Broken;
      }
      if |channel.queue| >= CHANNEL_ROOM {
        return Pending;
      }
      channel.view := Next(channel.view, Flush);
      channel.queue := channel.queue + [Frame(buf)];
      buf := [];
      return Ready;
    }

    /** Takes all of the bytes or none; a buffer over the threshold is flushed first. */
    method PollWrite(bytes: seq<Byte>) returns (r: Progress)
      requires Valid()
      modifies this`buf, channel
      ensures Valid()
      ensures r.Broken? <==> |old(buf)| > 4096 && !Open(old(channel.view))
      ensures r.Pending? <==> |old(buf)| > 4096 && Open(old(channel.view)) && |old(channel.queue)| >= 2
      ensures !r.Ready? ==> channel.view == old(channel.view) && buf == old(buf)
      ensures r.Ready? ==> channel.view.accepted == old(channel.view).accepted + bytes
      ensures r.Ready? ==> buf == (if |old(buf)| > 4096 then [] else old(buf)) + bytes
      ensures r.Ready? ==>
                && |buf| <= 4096 + |bytes|
                && channel.view == if |old(buf)| > FLUSH_THRESHOLD && Enabled(old(channel.view), Flush)
                                   then Next(Next(old(channel.view), Flush), Buffer(bytes))
                                   else Next(old(channel.view), Buffer(bytes))
    {
      if |buf| > FLUSH_THRESHOLD {
        r := PollFlush();
        if !r.Ready? {
          return;
        }
      }
      channel.view := Next(channel.view, Buffer(bytes));
      buf := buf + bytes;
      return Ready;
    }

    /** Sends a part behind what is buffered: a frame of its own, or the word that the body is complete. */
    method PollSend(step: Step) returns (r: Progress)
      requires Valid() && (step.SendFrame? || step.SendDone?)
      modifies this`buf, channel
      ensures channel.Valid() && channel.view.buf == buf
      ensures r.Ready? ==>
                var flushed := if old(buf) != [] && Enabled(old(channel.view), Flush) then Next(old(channel.view), Flush) else old(channel.view);
                Enabled(flushed, step) && channel.view == Next(flushed, step)
      ensures !r.Ready? ==> channel.view == old(channel.view) || (Enabled(old(channel.view), Flush) && channel.view == Next(old(channel.view), Flush))
      ensures Valid() || (step.SendDone? && r.Ready?)
      ensures r.Broken? <==> !Open(old(channel.view))
      ensures r.Ready? <==> Open(old(channel.view)) && |old(channel.queue)| + (if old(buf) == [] then 1 else 2) <= 2
      ensures r.Ready? ==>
                && buf == []
                && channel.queue == old(channel.queue) + (if old(buf) == [] then [] else [Frame(old(buf))])
                                    + [if step.SendFrame? then Frame(step.bytes) else Done]
                && channel.view.accepted == old(channel.view).accepted + (if step.SendFrame? then step.bytes else [])
    {
      r := PollFlush();
      if !r.Ready? {
        return;
      }
      if channel.receiverGone {
        return Broken;
      }
      if |channel.queue| >= CHANNEL_ROOM {
        return Pending;
      }
      channel.view := Next(channel.view, step);
      if step.SendFrame? {
        channel.queue := channel.queue + [Frame(step.bytes)];
      } else {
        channel.queue := channel.queue + [Done];
        channel.senderGone := true;
      }
      return Ready;
    }

    method Drop()
      requires Valid()
      modifies channel
      ensures channel.Valid() && channel.view == Next(old(channel.view), Stop)
    {
      channel.view := Next(channel.view, Stop);
      channel.senderGone := true;
    }
  }

  datatype FramePoll = NotYet | Data(bytes: seq<Byte>) | End | Error

  datatype Inner = NoBody | Single(bytes: seq<Byte>) | Stream(channel: Channel)

  class RawRequestBody {
    var inner: Inner

    constructor (inner: Inner)
      ensures this.inner == inner
    {
      this.inner := inner;
    }

    predicate IsEndStream()
      reads this
    {
      inner.NoBody?
    }

    ghost predicate Valid()
      reads this, if inner.Stream? then {inner.channel} else {}
    {
      inner.Stream? ==> inner.channel.Valid() && Open(inner.channel.view)
    }

    /**
     A stream follows the pipe; a single frame comes out once; after an end, an error or the single
     frame the body is empty and says so for ever.
     */
    method PollFrame() returns (r: FramePoll)
      requires Valid()
      modifies this, if inner.Stream? then {inner.channel} else {}
      ensures Valid()
      ensures old(inner).NoBody? ==> r == End && inner == NoBody
      ensures old(inner).Single? ==> r == Data(old(inner).bytes) && inner == NoBody
      ensures old(inner).Stream? ==>
                var p := old(inner.channel.view);
                var p' := old(inner).channel.view;
                && old(inner).channel.Valid()
                && p' == Taken(p)
                && (r.NotYet? <==> p' == p && Open(p'))
                && (r.Data? ==> p'.delivered == p.delivered + r.bytes)
                && (r.End? <==> p'.reader.Complete?)
                && (r.Error? <==> p'.reader.Errored?)
                && (inner == if Open(p') then old(inner) else NoBody)
                && r == (if p.queue == [] then (if p.sender.Writing? then NotYet else Error)
                         else match p.queue[0]
                              case Frame(bytes) => Data(bytes)
                              case Fail => Error
                              case Done => End)
                && p'.queue == if p.queue == [] then [] else p.queue[1..]
    {
      var was := inner;
      inner := NoBody;
      match was
      case NoBody => return End;
      case Single(bytes) => return Data(bytes);
      case Stream(channel) =>
        channel.view := Taken(channel.view);
        if channel.queue == [] {
          if !channel.senderGone {
            inner := was;
            return NotYet;
          }
          channel.receiverGone := true;
          return Error;
        }
        var part := channel.queue[0];
        channel.queue := channel.queue[1..];
        match part
        case Frame(bytes) =>
          inner := was;
          return Data(bytes);
        case Fail =>
          channel.receiverGone := true;
          return Error;
        case Done =>
          channel.receiverGone := true;
          return End;
    }

    /** The connection drops the body: a stream's writer finds the other end gone. */
    method Drop()
      requires Valid()
      modifies this, if inner.Stream? then {inner.channel} else {}
      ensures inner == NoBody && Valid()
      ensures old(inner).Stream? ==>
                && old(inner).channel.Valid()
                && old(inner).channel.view == Next(old(inner.channel.view), HangUp)
    {
      if inner.Stream? {
        inner.channel.view := Next(inner.channel.view, HangUp);
        inner.channel.receiverGone := true;
      }
      inner := NoBody;
    }
  }

  /** A writer with something to send learns of an early hang-up at its next flush, and nothing is lost of its buffer. */
  method HangUpBreaksWriter(body: RawRequestBody, writer: BodyWriter) returns (r: Progress)
    requires body.Valid() && writer.Valid() && body.inner == Stream(writer.channel) && writer.buf != []
    modifies body, writer`buf, writer.channel
    ensures r.Broken? && writer.Valid() && writer.buf == old(writer.buf)
    ensures writer.channel.view == Next(old(writer.channel.view), HangUp)
  {
    body.Drop();
    r := writer.PollFlush();
  }
}
