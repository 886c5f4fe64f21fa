/**
 The transparent decoder of gzip-coded response bodies (the content coding of section 8.4.1.3 of
 RFC 9110): frames of the coded body go in as they arrive, frames of the decoded one come out.
 */
module Gzip {
  import opened Options

  type Byte = bv8

  /**
   A streaming decoder, as functions of all the input it was given: whether that input is free of
   errors so far, what a flush has put out by then, and what is put out in all if the input ends there.
   */
  datatype Decoder = Decoder(
    accepts: seq<Byte> -> bool,
    emitted: seq<Byte> -> seq<Byte>,
    finish: seq<Byte> -> Option<seq<Byte>>)

  /** Output is never taken back, and ending the input only adds to it. */
  ghost predicate Lawful(d: Decoder) {
    && d.emitted([]) == []
    && (forall x, y :: d.emitted(x) <= d.emitted(x + y))
    && (forall x :: d.finish(x).Some? ==> d.emitted(x) <= d.finish(x).value)
  }

  /** What polls of the coded body answer, in turn; when they are used up, the body has ended. */
  datatype Event = NotYet | Data(bytes: seq<Byte>) | Trailers(fields: nat) | Error

  datatype Mode =
    | Decompressing(fed: seq<Byte>, taken: seq<Byte>)   // all input so far, and all output handed on
    | Last(fields: nat)
    | Passing

  /** `eager`: the coded body knows that it has ended without being polled once more. */
  datatype Body = Body(frames: seq<Event>, eager: bool, mode: Mode)

  datatype Out = Pending | Frame(bytes: seq<Byte>) | TrailerFrame(fields: nat) | Failed | End

  predicate IsEndStream(frames: seq<Event>, eager: bool) {
    frames == [] && eager
  }

  function Rest(all: seq<Byte>, taken: seq<Byte>): seq<Byte> {
    if |taken| <= |all| then all[|taken|..] else []
  }

  /** Where a body stands after its last input, given the mode to go on in and the answer if no output is left. */
  function Finished(d: Decoder, b: Body, fed: seq<Byte>, taken: seq<Byte>, after: Mode, otherwise: Out): (Body, Out) {
    match d.finish(fed)
    case None => (b.(mode := Passing), Failed)
    case Some(all) =>
      if Rest(all, taken) == [] then (b.(mode := Passing), otherwise)
      else (b.(mode := after), Frame(Rest(all, taken)))
  }

  /** One poll. */
  function Poll(d: Decoder, b: Body): (Body, Out)
    decreases |b.frames|
  {
    match b.mode
    case Last(fields) => (b.(mode := Passing), TrailerFrame(fields))
    case Passing =>
      if b.frames == [] then (b, End)
      else
        var b' := b.(frames := b.frames[1..]);
        (match b.frames[0]
         case NotYet => (b', Pending)
         case Data(bytes) => (b', Frame(bytes))
         case Trailers(fields) => (b', TrailerFrame(fields))
         case Error => (b', Failed))
    case Decompressing(fed, taken) =>
      if b.frames == [] then Finished(d, b, fed, taken, Passing, End)
      else
        var b' := b.(frames := b.frames[1..]);
        (match b.frames[0]
         case NotYet => (b', Pending)
         case Error => (b'.(mode := Passing), Failed)
         case Trailers(fields) => Finished(d, b', fed, taken, Last(fields), TrailerFrame(fields))
         case Data(bytes) =>
           var fed' := fed + bytes;
           if !d.accepts(fed') then (b'.(mode := Passing), Failed)
           else if IsEndStream(b'.frames, b.eager) then Finished(d, b', fed', taken, Passing, End)
           else
             var b'' := b'.(mode := Decompressing(fed', d.emitted(fed')));
             var out := Rest(d.emitted(fed'), taken);
             if out != [] then (b'', Frame(out)) else Poll(d, b''))
  }

  /** The decoded body as the program keeps it. */
  class DecodedBody {
    const decoder: Decoder
    var body: Body

    constructor (decoder: Decoder, frames: seq<Event>, eager: bool)
      ensures this.decoder == decoder && body == Body(frames, eager, Decompressing([], []))
    {
      this.decoder := decoder;
      body := Body(frames, eager, Decompressing([], []));
    }

    method PollFrame() returns (out: Out)
      modifies this`body
      ensures (body, out) == Poll(decoder, old(body))
    {
      while true
        invariant Poll(decoder, body) == Poll(decoder, old(body))
        decreases |body.frames|
      {
        var mode := body.mode;
        if mode.Last? {
          body := body.(mode := Passing);
          return TrailerFrame(mode.fields);
        }
        if mode.Passing? {
          out := PollInner();
          return;
        }
        if body.frames == [] {
          out := Finish(mode.fed, Passing, End);
          return;
        }
        var event := body.frames[0];
        match event
        case NotYet =>
          body := body.(frames := body.frames[1..]);
          return Pending;
        case Error =>
          body := body.(frames := body.frames[1..], mode := Passing);
          return Failed;
        case Trailers(fields) =>
          body := body.(frames := body.frames[1..]);
          out := Finish(mode.fed, Last(fields), TrailerFrame(fields));
          return;
        case Data(bytes) =>
          body := body.(frames := body.frames[1..]);
          var fed := mode.fed + bytes;
          if !decoder.accepts(fed) {
            body := body.(mode := Passing);
            return Failed;
          }
          if IsEndStream(body.frames, body.eager) {
            out := Finish(fed, Passing, End);
            return;
          }
          body := body.(mode := Decompressing(fed, decoder.emitted(fed)));
          var buf := Rest(decoder.emitted(fed), mode.taken);
          if buf != [] {
            return Frame(buf);
          }
      }
    }

    method PollInner() returns (out: Out)
      requires body.mode.Passing?
      modifies this`body
      ensures (body, out) == Poll(decoder, old(body))
    {
      if body.frames == [] {
        return End;
      }
      var event := body.frames[0];
      body := body.(frames := body.frames[1..]);
      match event
      case NotYet => return Pending;
      case Data(bytes) => return Frame(bytes);
      case Trailers(fields) => return TrailerFrame(fields);
      case Error => return Failed;
    }

    method Finish(fed: seq<Byte>, after: Mode, otherwise: Out) returns (out: Out)
      requires body.mode.Decompressing?
      modifies this`body
      ensures (body, out) == Finished(decoder, old(body), fed, old(body).mode.taken, after, otherwise)
    {
      var taken := body.mode.taken;
      var finished := decoder.finish(fed);
      body := body.(mode := Passing);
      if finished.None? {
        return Failed;
      }
      var rest := Rest(finished.value, taken);
      if rest == [] {
        return otherwise;
      }
      body := body.(mode := after);
      return Frame(rest);
    }
  }

  // ----- reading a whole body

  function DataOf(frames: seq<Event>): seq<Byte> {
    if frames == [] then [] else (if frames[0].Data? then frames[0].bytes else []) + DataOf(frames[1..])
  }

  function TrailersOf(frames: seq<Event>): seq<nat> {
    if frames == [] then [] else (if frames[0].Trailers? then [frames[0].fields] else []) + TrailersOf(frames[1..])
  }

  /** Trailers are the last thing in a body. */
  ghost predicate TrailersLast(frames: seq<Event>) {
    frames == [] || (TrailersLast(frames[1..]) && (frames[0].Trailers? ==> DataOf(frames[1..]) == [] && TrailersOf(frames[1..]) == []))
  }

  /** What a reader of the decoded body has seen. */
  datatype Seen = Seen(data: seq<Byte>, trailers: seq<nat>, failed: bool, ended: bool)

  function See(seen: Seen, out: Out): Seen {
    match out
    case Pending => seen
    case Frame(bytes) => seen.(data := seen.data + bytes)
    case TrailerFrame(fields) => seen.(trailers := seen.trailers + [fields])
    case Failed => seen.(failed := true)
    case End => seen.(ended := true)
  }

  /** The body and its reader after any number of polls. */
  function Reading(d: Decoder, b: Body, polls: nat): (Body, Seen) {
    if polls == 0 then (b, Seen([], [], false, false))
    else
      var (b', seen) := Reading(d, b, polls - 1);
      var (b'', out) := Poll(d, b');
      (b'', See(seen, out))
  }

  /**
   Until something fails: all input is what was fed and what is still to come; all output is what a
   lawful decoder puts out for it; trailers are neither early nor lost nor repeated.
   */
  ghost predicate Inv(d: Decoder, input: seq<Byte>, trailers: seq<nat>, b: Body, seen: Seen) {
    seen.failed ||
    match b.mode
    case Decompressing(fed, taken) =>
      && fed + DataOf(b.frames) == input && taken == d.emitted(fed) == seen.data
      && seen.trailers == [] && TrailersOf(b.frames) == trailers && TrailersLast(b.frames) && !seen.ended
    case Last(fields) =>
      && DataOf(b.frames) == [] && TrailersOf(b.frames) == [] && TrailersLast(b.frames) && d.finish(input) == Some(seen.data)
      && seen.trailers == [] && trailers == [fields] && !seen.ended
    case Passing =>
      && DataOf(b.frames) == [] && TrailersLast(b.frames) && d.finish(input) == Some(seen.data)
      && seen.trailers + TrailersOf(b.frames) == trailers && (seen.ended ==> b.frames == [])
  }

  lemma FinishedSees(d: Decoder, fed: seq<Byte>, taken: seq<Byte>)
    requires Lawful(d) && taken <= d.emitted(fed) && d.finish(fed).Some?
    ensures taken + Rest(d.finish(fed).value, taken) == d.finish(fed).value
  {
    assert taken <= d.finish(fed).value;
  }

  lemma {:induction false} PollKeepsInv(d: Decoder, input: seq<Byte>, trailers: seq<nat>, b: Body, seen: Seen)
    requires Lawful(d) && Inv(d, input, trailers, b, seen)
    ensures var (b', out) := Poll(d, b); Inv(d, input, trailers, b', See(seen, out))
    decreases |b.frames|
  {
    if !seen.failed {
      match b.mode
      case Last(fields) => assert seen.trailers + [fields] + [] == [fields];
      case Passing => PassingKeepsInv(d, input, trailers, b, seen);
      case Decompressing(fed, taken) =>
        if b.frames == [] {
          assert fed + [] == fed;
          FinishKeepsInv(d, input, trailers, b, fed, taken, Passing, End, seen);
        } else if b.frames[0].Trailers? {
          assert fed + [] == fed;
          assert [b.frames[0].fields] + [] == [b.frames[0].fields];
          FinishKeepsInv(d, input, trailers, b.(frames := b.frames[1..]), fed, taken, Last(b.frames[0].fields), TrailerFrame(b.frames[0].fields), seen);
        } else if b.frames[0].Data? {
          DataKeepsInv(d, input, trailers, b, seen);
        } else {
          assert DataOf(b.frames) == DataOf(b.frames[1..]) && TrailersOf(b.frames) == TrailersOf(b.frames[1..]);
        }
    }
  }

  lemma PassingKeepsInv(d: Decoder, input: seq<Byte>, trailers: seq<nat>, b: Body, seen: Seen)
    requires Inv(d, input, trailers, b, seen) && b.mode.Passing? && !seen.failed
    ensures var (b', out) := Poll(d, b); Inv(d, input, trailers, b', See(seen, out))
  {
    if b.frames != [] {
      var rest := b.frames[1..];
      assert DataOf(rest) == [];
      if b.frames[0].Trailers? {
        assert seen.trailers + ([b.frames[0].fields] + TrailersOf(rest)) == (seen.trailers + [b.frames[0].fields]) + TrailersOf(rest);
      } else {
        assert TrailersOf(b.frames) == TrailersOf(rest);
      }
      if b.frames[0].Data? {
        assert seen.data + b.frames[0].bytes == seen.data;
      }
    }
  }

  lemma FinishKeepsInv(d: Decoder, input: seq<Byte>, trailers: seq<nat>, b: Body, fed: seq<Byte>, taken: seq<Byte>,
                       after: Mode, otherwise: Out, seen: Seen)
    requires Lawful(d) && fed == input && taken <= d.emitted(fed) && seen.data == taken
    requires DataOf(b.frames) == [] && TrailersOf(b.frames) == [] && TrailersLast(b.frames)
    requires seen.trailers == [] && !seen.ended && !seen.failed
    requires (after == Passing && otherwise == End && trailers == [] && b.frames == [])
             || (after.Last? && trailers == [after.fields] && otherwise == TrailerFrame(after.fields))
    ensures var (b', out) := Finished(d, b, fed, taken, after, otherwise); Inv(d, input, trailers, b', See(seen, out))
  {
    if d.finish(fed).Some? {
      FinishedSees(d, fed, taken);
      assert taken + [] == taken;
      if after.Last? {
        assert seen.trailers + [after.fields] + [] == [after.fields];
      }
    }
  }

  lemma DataKeepsInv(d: Decoder, input: seq<Byte>, trailers: seq<nat>, b: Body, seen: Seen)
    requires Lawful(d) && Inv(d, input, trailers, b, seen) && !seen.failed
    requires b.mode.Decompressing? && b.frames != [] && b.frames[0].Data?
    ensures var (b', out) := Poll(d, b); Inv(d, input, trailers, b', See(seen, out))
    decreases |b.frames|, 0
  {
    var Decompressing(fed, taken) := b.mode;
    var bytes, rest := b.frames[0].bytes, b.frames[1..];
    var fed' := fed + bytes;
    assert d.emitted(fed) <= d.emitted(fed');
    assert fed + (bytes + DataOf(rest)) == fed' + DataOf(rest);
    assert TrailersOf(b.frames) == TrailersOf(rest);
    if d.accepts(fed') {
      if IsEndStream(rest, b.eager) {
        assert fed' + [] == fed';
        FinishKeepsInv(d, input, trailers, b.(frames := rest), fed', taken, Passing, End, seen);
      } else {
        var b' := b.(frames := rest, mode := Decompressing(fed', d.emitted(fed')));
        assert taken + Rest(d.emitted(fed'), taken) == d.emitted(fed');
        if Rest(d.emitted(fed'), taken) == [] {
          PollKeepsInv(d, input, trailers, b', seen);
        }
      }
    }
  }

  lemma {:induction false} ReadingKeepsInv(d: Decoder, frames: seq<Event>, eager: bool, polls: nat)
    requires Lawful(d) && TrailersLast(frames)
    ensures var b := Body(frames, eager, Decompressing([], []));
            var (b', seen) := Reading(d, b, polls); Inv(d, DataOf(frames), TrailersOf(frames), b', seen)
  {
    var b := Body(frames, eager, Decompressing([], []));
    if polls == 0 {
      assert [] + DataOf(frames) == DataOf(frames);
    } else {
      ReadingKeepsInv(d, frames, eager, polls - 1);
      var (b', seen) := Reading(d, b, polls - 1);
      PollKeepsInv(d, DataOf(frames), TrailersOf(frames), b', seen);
    }
  }

  /**
   Any chunking decodes the same: as long as no poll failed, what the reader has is a prefix of the
   decoder's output; and once it was told of the end, or of trailers, it has exactly the decoder's
   whole output for the concatenated data, and the trailers, if any, exactly once.
   */
  lemma DecodesWhole(d: Decoder, frames: seq<Event>, eager: bool, polls: nat)
    requires Lawful(d) && TrailersLast(frames)
    ensures var seen := Reading(d, Body(frames, eager, Decompressing([], [])), polls).1;
            var input := DataOf(frames);
            !seen.failed ==>
              && (d.finish(input).Some? ==> seen.data <= d.finish(input).value)
              && (seen.ended ==> d.finish(input) == Some(seen.data) && seen.trailers == TrailersOf(frames))
              && (seen.trailers != [] ==> d.finish(input) == Some(seen.data))
              && |seen.trailers| <= |TrailersOf(frames)|
  {
    var b := Body(frames, eager, Decompressing([], []));
    ReadingKeepsInv(d, frames, eager, polls);
    var (b', seen) := Reading(d, b, polls);
    if !seen.failed && b'.mode.Decompressing? {
      var fed := b'.mode.fed;
      assert d.emitted(fed) <= d.emitted(fed + DataOf(b'.frames));
    }
  }

  function Size(b: Body): nat {
    2 * |b.frames| + (match b.mode case Decompressing(_, _) => 2 case Last(_) => 1 case Passing => 0)
  }

  /** Every poll makes progress through the body, or says that it has ended. */
  lemma {:induction false} PollProgress(d: Decoder, b: Body)
    ensures var (b', out) := Poll(d, b); Size(b') <= Size(b) && (out.End? || Size(b') < Size(b))
    decreases |b.frames|
  {
    if b.mode.Decompressing? && b.frames != [] && b.frames[0].Data? {
      var fed := b.mode.fed + b.frames[0].bytes;
      PollProgress(d, b.(frames := b.frames[1..], mode := Decompressing(fed, d.emitted(fed))));
    }
  }

  lemma {:induction false} ReadingProgress(d: Decoder, b: Body, polls: nat)
    ensures var (b', seen) := Reading(d, b, polls); seen.ended || Size(b') + polls <= Size(b)
  {
    if polls > 0 {
      ReadingProgress(d, b, polls - 1);
      PollProgress(d, Reading(d, b, polls - 1).0);
    }
  }

  /** Whatever the decoder and the body do, polling on reaches the end. */
  lemma ReadingEnds(d: Decoder, frames: seq<Event>, eager: bool, polls: nat)
    requires polls > 2 * |frames| + 2
    ensures Reading(d, Body(frames, eager, Decompressing([], [])), polls).1.ended
  {
    ReadingProgress(d, Body(frames, eager, Decompressing([], [])), polls);
  }

  // ----- waiting

  /** How often the coded body will still answer that it has nothing yet. */
  function NotYets(frames: seq<Event>): nat {
    if frames == [] then 0 else (if frames[0].NotYet? then 1 else 0) + NotYets(frames[1..])
  }

  /**
   A poll answers Pending exactly when it got that answer from the coded body, which will then wake the reader; and a
   frame of decoded data is never empty.
   */
  lemma {:induction false} PendingIsTheBodys(d: Decoder, b: Body)
    ensures var r := Poll(d, b);
            && NotYets(b.frames) == NotYets(r.0.frames) + (if r.1.Pending? then 1 else 0)
            && (b.mode.Decompressing? && r.1.Frame? ==> r.1.bytes != [])
    decreases |b.frames|
  {
    if b.mode.Decompressing? && b.frames != [] && b.frames[0].Data? {
      var fed := b.mode.fed + b.frames[0].bytes;
      PendingIsTheBodys(d, b.(frames := b.frames[1..], mode := Decompressing(fed, d.emitted(fed))));
    }
  }

  // ----- when reading fails

  ghost predicate HasError(frames: seq<Event>) {
    exists i :: 0 <= i < |frames| && frames[i].Error?
  }

  ghost predicate HasTrailers(frames: seq<Event>) {
    exists i :: 0 <= i < |frames| && frames[i].Trailers?
  }

  /** After what was fed, data frame number k comes before any trailers and completes an input that the decoder rejects. */
  ghost predicate RejectsAt(d: Decoder, fed: seq<Byte>, frames: seq<Event>, k: nat) {
    k < |frames| && frames[k].Data? && !HasTrailers(frames[..k]) && !d.accepts(fed + DataOf(frames[..k + 1]))
  }

  /** The coded body is at fault: it meets an error, cannot be finished, or is rejected at some data frame. */
  ghost predicate Faulty(d: Decoder, frames: seq<Event>) {
    || HasError(frames)
    || d.finish(DataOf(frames)).None?
    || (exists k :: RejectsAt(d, [], frames, k))
  }

  /** The decoder, having been fed, rejects one of the data frames before the trailers. */
  ghost predicate Rejected(d: Decoder, fed: seq<Byte>, frames: seq<Event>)
    decreases |frames|
  {
    frames != [] &&
    match frames[0]
    case Data(bytes) => !d.accepts(fed + bytes) || Rejected(d, fed + bytes, frames[1..])
    case Trailers(_) => false
    case _ => Rejected(d, fed, frames[1..])
  }

  /** A poll from here on will fail. */
  ghost predicate Doomed(d: Decoder, b: Body) {
    || HasError(b.frames)
    || (b.mode.Decompressing? && (d.finish(b.mode.fed + DataOf(b.frames)).None? || Rejected(d, b.mode.fed, b.frames)))
  }

  lemma ErrorAhead(frames: seq<Event>)
    requires frames != []
    ensures HasError(frames) <==> frames[0].Error? || HasError(frames[1..])
  {
    if HasError(frames) && !frames[0].Error? {
      var i :| 0 <= i < |frames| && frames[i].Error?;
      assert frames[1..][i - 1].Error?;
    }
    if HasError(frames[1..]) {
      var i :| 0 <= i < |frames[1..]| && frames[1..][i].Error?;
      assert frames[i + 1].Error?;
    }
  }

  /** A poll that fails was doomed, and one that does not leaves the body as doomed as it was. */
  lemma {:induction false} PollDooms(d: Decoder, b: Body)
    requires TrailersLast(b.frames)
    ensures var r := Poll(d, b);
            TrailersLast(r.0.frames) && if r.1.Failed? then Doomed(d, b) else Doomed(d, r.0) <==> Doomed(d, b)
    decreases |b.frames|
  {
    if b.frames != [] {
      ErrorAhead(b.frames);
    }
    if b.mode.Decompressing? {
      var fed := b.mode.fed;
      assert fed + [] == fed;
      if b.frames != [] && b.frames[0].Data? {
        DataDooms(d, b);
      } else if b.frames != [] {
        assert DataOf(b.frames) == DataOf(b.frames[1..]);
      }
    }
  }

  lemma DataDooms(d: Decoder, b: Body)
    requires TrailersLast(b.frames) && b.mode.Decompressing? && b.frames != [] && b.frames[0].Data?
    ensures var r := Poll(d, b);
            TrailersLast(r.0.frames) && if r.1.Failed? then Doomed(d, b) else Doomed(d, r.0) <==> Doomed(d, b)
    decreases |b.frames|, 0
  {
    var fed, bytes, rest := b.mode.fed, b.frames[0].bytes, b.frames[1..];
    var fed' := fed + bytes;
    ErrorAhead(b.frames);
    assert fed + (bytes + DataOf(rest)) == fed' + DataOf(rest);
    if d.accepts(fed') {
      var b' := b.(frames := rest, mode := Decompressing(fed', d.emitted(fed')));
      assert Doomed(d, b') <==> Doomed(d, b);
      if IsEndStream(rest, b.eager) {
        assert fed' + [] == fed';
      } else {
        PollDooms(d, b');
      }
    }
  }

  lemma {:induction false} ReadingDooms(d: Decoder, b: Body, polls: nat)
    requires TrailersLast(b.frames)
    ensures var r := Reading(d, b, polls);
            TrailersLast(r.0.frames) && (r.1.failed || Doomed(d, r.0) <==> Doomed(d, b))
  {
    if polls > 0 {
      ReadingDooms(d, b, polls - 1);
      PollDooms(d, Reading(d, b, polls - 1).0);
    }
  }

  predicate AtEnd(b: Body) {
    b.mode.Passing? && b.frames == []
  }

  lemma {:induction false} EndIsEnd(d: Decoder, b: Body)
    ensures Poll(d, b).1.End? ==> AtEnd(Poll(d, b).0)
    ensures AtEnd(b) ==> Poll(d, b) == (b, End)
    decreases |b.frames|
  {
    if b.mode.Decompressing? && b.frames != [] && b.frames[0].Data? {
      var fed := b.mode.fed + b.frames[0].bytes;
      EndIsEnd(d, b.(frames := b.frames[1..], mode := Decompressing(fed, d.emitted(fed))));
    }
  }

  lemma {:induction false} EndedIsAtEnd(d: Decoder, b: Body, polls: nat)
    ensures Reading(d, b, polls).1.ended ==> AtEnd(Reading(d, b, polls).0)
  {
    if polls > 0 {
      EndedIsAtEnd(d, b, polls - 1);
      EndIsEnd(d, Reading(d, b, polls - 1).0);
    }
  }

  lemma RejectsHead(d: Decoder, fed: seq<Byte>, frames: seq<Event>)
    requires frames != []
    ensures RejectsAt(d, fed, frames, 0) <==> frames[0].Data? && !d.accepts(fed + frames[0].bytes)
  {
    if frames[0].Data? {
      assert frames[..1] == [frames[0]];
      assert DataOf([frames[0]]) == frames[0].bytes + [] == frames[0].bytes;
    }
  }

  lemma TrailersAhead(frames: seq<Event>)
    requires frames != []
    ensures HasTrailers(frames) <==> frames[0].Trailers? || HasTrailers(frames[1..])
  {
    if HasTrailers(frames) && !frames[0].Trailers? {
      var i :| 0 <= i < |frames| && frames[i].Trailers?;
      assert frames[1..][i - 1].Trailers?;
    }
    if HasTrailers(frames[1..]) {
      var i :| 0 <= i < |frames[1..]| && frames[1..][i].Trailers?;
      assert frames[i + 1].Trailers?;
    }
  }

  /** What the decoder has been fed after one more frame. */
  function Fed(fed: seq<Byte>, frame: Event): seq<Byte> {
    if frame.Data? then fed + frame.bytes else fed
  }

  lemma RejectsTail(d: Decoder, fed: seq<Byte>, frames: seq<Event>, k: nat)
    requires k + 1 < |frames|
    ensures RejectsAt(d, fed, frames, k + 1) <==> !frames[0].Trailers? && RejectsAt(d, Fed(fed, frames[0]), frames[1..], k)
  {
    var rest := frames[1..];
    TrailersAhead(frames[..k + 1]);
    assert frames[..k + 1][1..] == rest[..k];
    assert frames[..k + 2][1..] == rest[..k + 1];
    var head, tail := if frames[0].Data? then frames[0].bytes else [], DataOf(rest[..k + 1]);
    assert DataOf(frames[..k + 2]) == head + tail;
    assert fed + (head + tail) == Fed(fed, frames[0]) + tail;
  }

  /** Rejection, frame by frame and at once. */
  lemma {:induction false} RejectedIff(d: Decoder, fed: seq<Byte>, frames: seq<Event>)
    ensures Rejected(d, fed, frames) <==> exists k :: RejectsAt(d, fed, frames, k)
    decreases |frames|
  {
    if frames != [] {
      var fed', rest := Fed(fed, frames[0]), frames[1..];
      RejectsHead(d, fed, frames);
      RejectedIff(d, fed', rest);
      if k: nat :| RejectsAt(d, fed', rest, k) && !frames[0].Trailers? {
        RejectsTail(d, fed, frames, k);
        assert RejectsAt(d, fed, frames, k + 1);
      }
      if k: nat :| RejectsAt(d, fed, frames, k) {
        if k > 0 {
          RejectsTail(d, fed, frames, k - 1);
        }
      }
    }
  }

  /**
   Exactly when reading fails: polled to its end, a body gives a failure if and only if the coded body
   meets an error, cannot be finished, or has a data frame that completes an input the decoder rejects.
   */
  lemma FailsIffFaulty(d: Decoder, frames: seq<Event>, eager: bool, polls: nat)
    requires TrailersLast(frames) && polls > 2 * |frames| + 2
    ensures Reading(d, Body(frames, eager, Decompressing([], [])), polls).1.failed <==> Faulty(d, frames)
  {
    var b := Body(frames, eager, Decompressing([], []));
    ReadingEnds(d, frames, eager, polls);
    EndedIsAtEnd(d, b, polls);
    ReadingDooms(d, b, polls);
    DoomedIffFaulty(d, frames, eager);
  }

  lemma DoomedIffFaulty(d: Decoder, frames: seq<Event>, eager: bool)
    ensures Doomed(d, Body(frames, eager, Decompressing([], []))) <==> Faulty(d, frames)
  {
    RejectedIff(d, [], frames);
    assert [] + DataOf(frames) == DataOf(frames);
  }

  /** A body that is not at fault arrives whole: the decoder's whole output, and the trailers, once. */
  lemma WholeBodyArrives(d: Decoder, frames: seq<Event>, eager: bool, polls: nat)
    requires Lawful(d) && TrailersLast(frames) && polls > 2 * |frames| + 2 && !Faulty(d, frames)
    ensures var seen := Reading(d, Body(frames, eager, Decompressing([], [])), polls).1;
            && seen.ended && !seen.failed
            && Some(seen.data) == d.finish(DataOf(frames)) && seen.trailers == TrailersOf(frames)
  {
    ReadingEnds(d, frames, eager, polls);
    FailsIffFaulty(d, frames, eager, polls);
    DecodesWhole(d, frames, eager, polls);
  }

  // ----- reading on after a failure

  lemma {:induction false} FailureStopsDecoding(d: Decoder, b: Body)
    ensures Poll(d, b).1.Failed? ==> Poll(d, b).0.mode.Passing?
    decreases |b.frames|
  {
    if b.mode.Decompressing? && b.frames != [] && b.frames[0].Data? {
      var fed := b.mode.fed + b.frames[0].bytes;
      FailureStopsDecoding(d, b.(frames := b.frames[1..], mode := Decompressing(fed, d.emitted(fed))));
    }
  }

  /** A body that no longer decodes hands on what is left of the coded one, frame by frame. */
  lemma PollPasses(d: Decoder, b: Body)
    requires b.mode.Passing?
    ensures var r := Poll(d, b);
            && r.0.mode.Passing?
            && DataOf(b.frames) == (if r.1.Frame? then r.1.bytes else []) + DataOf(r.0.frames)
            && TrailersOf(b.frames) == (if r.1.TrailerFrame? then [r.1.fields] else []) + TrailersOf(r.0.frames)
            && (r.1.Failed? ==> HasError(b.frames))
  {
    if b.frames != [] {
      ErrorAhead(b.frames);
    }
  }

  lemma {:induction false} ReadingOn(d: Decoder, b: Body, polls: nat)
    requires b.mode.Passing?
    ensures var r := Reading(d, b, polls);
            && r.0.mode.Passing?
            && r.1.data + DataOf(r.0.frames) == DataOf(b.frames)
            && r.1.trailers + TrailersOf(r.0.frames) == TrailersOf(b.frames)
  {
    if polls == 0 {
      assert [] + DataOf(b.frames) == DataOf(b.frames) && [] + TrailersOf(b.frames) == TrailersOf(b.frames);
    } else {
      ReadingOn(d, b, polls - 1);
      var r := Reading(d, b, polls - 1);
      PollPasses(d, r.0);
      var p := Poll(d, r.0);
      Regroup(r.1.data, if p.1.Frame? then p.1.bytes else [], DataOf(p.0.frames));
      Regroup(r.1.trailers, if p.1.TrailerFrame? then [p.1.fields] else [], TrailersOf(p.0.frames));
    }
  }

  lemma Regroup<T>(a: seq<T>, b: seq<T>, c: seq<T>)
    ensures a + (b + c) == (a + b) + c && a + [] == a
  {
  }

  /** A reader that goes on after a failure gets exactly the rest of the coded body, not decoded. */
  lemma AfterFailureCodedBytes(d: Decoder, b: Body, polls: nat)
    requires Poll(d, b).1.Failed? && polls > 2 * |Poll(d, b).0.frames|
    ensures var seen := Reading(d, Poll(d, b).0, polls).1;
            seen.ended && seen.data == DataOf(Poll(d, b).0.frames) && seen.trailers == TrailersOf(Poll(d, b).0.frames)
  {
    var b' := Poll(d, b).0;
    FailureStopsDecoding(d, b);
    ReadingProgress(d, b', polls);
    EndedIsAtEnd(d, b', polls);
    ReadingOn(d, b', polls);
    var seen := Reading(d, b', polls).1;
    assert seen.data + [] == seen.data && seen.trailers + [] == seen.trailers;
  }

  /** For instance: a decoder that rejects everything, two frames, and a reader that polls twice has the second one. */
  lemma CodedBytesComeOut()
    ensures var d := Decoder(x => false, x => [], x => None);
            var frames := [Data([1]), Data([7])];
            Lawful(d) && Reading(d, Body(frames, false, Decompressing([], [])), 2).1 == Seen([7], [], true, false)
  {
    var d := Decoder(x => false, x => [], x => None);
    var frames := [Data([1]), Data([7])];
    var b := Body(frames, false, Decompressing([], []));
    assert Poll(d, b) == (Body(frames[1..], false, Passing), Failed);
    assert Reading(d, b, 1) == (Body(frames[1..], false, Passing), Seen([], [], true, false));
  }
}
