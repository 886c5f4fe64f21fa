/**
 The response body handed to callers, over a decoded body: a stream of chunks, a reader and a
 buffered reader in one, which may be used in any mixture.
 */
module ResponseBody {
  import opened Options
  import G = Gzip

  type Byte = G.Byte

  /** `seen` is all that came out of the decoded body so far. */
  datatype State = State(body: G.Body, done: bool, cur: seq<Byte>, seen: G.Seen)

  datatype Item = Pending | Bytes(bytes: seq<Byte>) | Eof | Failure

  function Initial(frames: seq<G.Event>, eager: bool): State {
    State(G.Body(frames, eager, G.Decompressing([], [])), false, [], G.Seen([], [], false, false))
  }

  /** One poll of the body, which is not polled again once it has ended. */
  function PollFused(d: G.Decoder, s: State): (State, G.Out) {
    if s.done then (s, G.End)
    else
      var (b, out) := G.Poll(d, s.body);
      (s.(body := b, done := out.End?, seen := G.See(s.seen, out)), out)
  }

  /** Polls past trailers to the next chunk. */
  function Fetch(d: G.Decoder, s: State): (r: (State, Item))
    ensures r.1.Bytes? ==> G.Size(r.0.body) < G.Size(s.body)
    ensures r.0.cur == s.cur
    decreases G.Size(s.body)
  {
    var (s', out) := PollFused(d, s);
    G.PollProgress(d, s.body);
    match out
    case Pending => (s', Pending)
    case Frame(bytes) => (s', Bytes(bytes))
    case TrailerFrame(_) => Fetch(d, s')
    case Failed => (s', Failure)
    case End => (s', Eof)
  }

  function PollNext(d: G.Decoder, s: State): (State, Item) {
    if s.cur != [] then (s.(cur := []), Bytes(s.cur)) else Fetch(d, s)
  }

  /** Fills the buffer; an empty buffer is the end. */
  function FillBuf(d: G.Decoder, s: State): (State, Item)
    decreases G.Size(s.body)
  {
    if s.cur != [] then (s, Bytes(s.cur))
    else
      var (s', item) := Fetch(d, s);
      if item.Bytes? then FillBuf(d, s'.(cur := item.bytes))
      else if item.Eof? then (s', Bytes([]))
      else (s', item)
  }

  function Read(d: G.Decoder, s: State, room: nat): (State, Item) {
    var (s', item) := FillBuf(d, s);
    if !item.Bytes? then (s', item)
    else
      var n := if |s'.cur| <= room then |s'.cur| else room;
      (s'.(cur := s'.cur[n..]), Bytes(s'.cur[..n]))
  }

  /** The object, whose loops the functions above describe. */
  class Reader {
    const decoder: G.Decoder
    var state: State

    constructor (decoder: G.Decoder, frames: seq<G.Event>, eager: bool)
      ensures this.decoder == decoder && state == Initial(frames, eager)
    {
      this.decoder := decoder;
      state := Initial(frames, eager);
    }

    method PollNextChunk() returns (item: Item)
      modifies this`state
      ensures (state, item) == PollNext(decoder, old(state))
    {
      if state.cur != [] {
        item := Bytes(state.cur);
        state := state.(cur := []);
        return;
      }
      while true
        invariant Fetch(decoder, state) == Fetch(decoder, old(state))
        decreases G.Size(state.body)
      {
        G.PollProgress(decoder, state.body);
        var polled := PollFused(decoder, state);
        state := polled.0;
        match polled.1
        case Pending => return Pending;
        case Frame(bytes) => return Bytes(bytes);
        case TrailerFrame(_) =>
        case Failed => return Failure;
        case End => return Eof;
      }
    }

    method PollFillBuf() returns (item: Item)
      modifies this`state
      ensures (state, item) == FillBuf(decoder, old(state))
    {
      while state.cur == []
        invariant FillBuf(decoder, state) == FillBuf(decoder, old(state))
        decreases G.Size(state.body)
      {
        G.PollProgress(decoder, state.body);
        var polled := PollFused(decoder, state);
        state := polled.0;
        match polled.1
        case Pending => return Pending;
        case Frame(bytes) => state := state.(cur := bytes);
        case TrailerFrame(_) =>
        case Failed => return Failure;
        case End => return Bytes([]);
      }
      return Bytes(state.cur);
    }

    method PollRead(room: nat) returns (item: Item)
      modifies this`state
      ensures (state, item) == Read(decoder, old(state), room)
      ensures item.Bytes? ==> |item.bytes| <= room && (|item.bytes| < room ==> state.cur == [])
    {
      item := PollFillBuf();
      if item.Bytes? {
        var n := if |state.cur| <= room then |state.cur| else room;
        item := Bytes(state.cur[..n]);
        state := state.(cur := state.cur[n..]);
      }
    }

    /** The caller must not consume more than it was shown. */
    method Consume(amount: nat)
      requires amount <= |state.cur|
      modifies this`state
      ensures state == old(state).(cur := old(state).cur[amount..])
    {
      state := state.(cur := state.cur[amount..]);
    }
  }

  // ----- any mixture of reads

  datatype Op = Chunk | ReadInto(room: nat) | Fill | Consume(amount: nat)

  predicate Allowed(s: State, op: Op) {
    op.Consume? ==> op.amount <= |s.cur|
  }

  /** The state after an operation, what the caller was answered, and the bytes that became its own. */
  function Do(d: G.Decoder, s: State, op: Op): (State, Item, seq<Byte>)
    requires Allowed(s, op)
  {
    match op
    case Chunk => var (s', item) := PollNext(d, s); (s', item, if item.Bytes? then item.bytes else [])
    case ReadInto(room) => var (s', item) := Read(d, s, room); (s', item, if item.Bytes? then item.bytes else [])
    case Fill => var (s', item) := FillBuf(d, s); (s', item, [])
    case Consume(n) => (s.(cur := s.cur[n..]), Bytes([]), s.cur[..n])
  }

  ghost predicate Feasible(d: G.Decoder, s: State, ops: seq<Op>)
    decreases |ops|
  {
    ops == [] || (Allowed(s, ops[0]) && Feasible(d, Do(d, s, ops[0]).0, ops[1..]))
  }

  /** The state after the operations, and all the bytes the caller took. */
  ghost function After(d: G.Decoder, s: State, ops: seq<Op>): (State, seq<Byte>)
    requires Feasible(d, s, ops)
    decreases |ops|
  {
    if ops == [] then (s, [])
    else
      var (s', _, bytes) := Do(d, s, ops[0]);
      var (s'', more) := After(d, s', ops[1..]);
      (s'', bytes + more)
  }

  /** What came out of the decoded body is what the caller took and what is in the buffer. */
  ghost predicate Inv(d: G.Decoder, input: seq<Byte>, trailers: seq<nat>, s: State, taken: seq<Byte>) {
    && G.Inv(d, input, trailers, s.body, s.seen)
    && s.seen.data == taken + s.cur
    && (s.done <==> s.seen.ended)
  }

  lemma {:induction false} FetchKeepsInv(d: G.Decoder, input: seq<Byte>, trailers: seq<nat>, s: State)
    requires G.Lawful(d) && G.Inv(d, input, trailers, s.body, s.seen) && (s.done <==> s.seen.ended)
    ensures var (s', item) := Fetch(d, s);
            && G.Inv(d, input, trailers, s'.body, s'.seen) && (s'.done <==> s'.seen.ended)
            && s'.seen.data == s.seen.data + (if item.Bytes? then item.bytes else [])
            && (item.Eof? ==> s'.done) && (item.Failure? ==> s'.seen.failed)
    decreases G.Size(s.body)
  {
    var (s', out) := PollFused(d, s);
    if !s.done {
      G.PollKeepsInv(d, input, trailers, s.body, s.seen);
      G.PollProgress(d, s.body);
      if out.TrailerFrame? {
        FetchKeepsInv(d, input, trailers, s');
      }
    }
    Regroup(s.seen.data, [], []);
  }

  lemma Regroup(a: seq<Byte>, b: seq<Byte>, c: seq<Byte>)
    ensures a + b + c == a + (b + c) && a + [] == a && [] + a == a
  {
  }

  lemma {:induction false} FillKeepsInv(d: G.Decoder, input: seq<Byte>, trailers: seq<nat>, s: State, taken: seq<Byte>)
    requires G.Lawful(d) && Inv(d, input, trailers, s, taken)
    ensures var r := FillBuf(d, s);
            && Inv(d, input, trailers, r.0, taken) && !r.1.Eof?
            && (r.1.Bytes? ==> r.1.bytes == r.0.cur && (r.0.cur == [] ==> r.0.done))
    decreases G.Size(s.body)
  {
    if s.cur == [] {
      FetchKeepsInv(d, input, trailers, s);
      var f := Fetch(d, s);
      Regroup(taken, [], []);
      if f.1.Bytes? {
        FillKeepsInv(d, input, trailers, f.0.(cur := f.1.bytes), taken);
      }
    }
  }

  lemma Split(a: seq<Byte>, b: seq<Byte>, n: nat)
    requires n <= |b|
    ensures a + b == (a + b[..n]) + b[n..]
  {
    assert b == b[..n] + b[n..];
    Regroup(a, b[..n], b[n..]);
  }

  lemma ChunkKeepsInv(d: G.Decoder, input: seq<Byte>, trailers: seq<nat>, s: State, taken: seq<Byte>)
    requires G.Lawful(d) && Inv(d, input, trailers, s, taken)
    ensures var r := Do(d, s, Chunk);
            Inv(d, input, trailers, r.0, taken + r.2) && (r.1.Eof? ==> r.0.done && r.0.cur == [])
  {
    var r := Do(d, s, Chunk);
    if s.cur == [] {
      FetchKeepsInv(d, input, trailers, s);
      Regroup(taken, [], []);
    }
    Regroup(taken + r.2, [], []);
  }

  lemma ReadKeepsInv(d: G.Decoder, input: seq<Byte>, trailers: seq<nat>, s: State, taken: seq<Byte>, room: nat)
    requires G.Lawful(d) && Inv(d, input, trailers, s, taken)
    ensures var r := Do(d, s, ReadInto(room));
            && Inv(d, input, trailers, r.0, taken + r.2) && !r.1.Eof?
            && (room > 0 && r.1 == Bytes([]) ==> r.0.done && r.0.cur == [])
  {
    FillKeepsInv(d, input, trailers, s, taken);
    var f := FillBuf(d, s);
    Regroup(taken, [], []);
    if f.1.Bytes? {
      Split(taken, f.0.cur, if |f.0.cur| <= room then |f.0.cur| else room);
    }
  }

  /** How each way of reading says that there is no more. */
  predicate SaysEnd(op: Op, item: Item) {
    match op
    case Chunk => item.Eof?
    case ReadInto(room) => room > 0 && item == Bytes([])
    case Fill => item == Bytes([])
    case Consume(_) => false
  }

  lemma DoKeepsInv(d: G.Decoder, input: seq<Byte>, trailers: seq<nat>, s: State, taken: seq<Byte>, op: Op)
    requires G.Lawful(d) && Inv(d, input, trailers, s, taken) && Allowed(s, op)
    ensures var r := Do(d, s, op);
            && Inv(d, input, trailers, r.0, taken + r.2)
            && (SaysEnd(op, r.1) ==> r.0.done && r.0.cur == [])
  {
    match op
    case Chunk => ChunkKeepsInv(d, input, trailers, s, taken);
    case ReadInto(room) => ReadKeepsInv(d, input, trailers, s, taken, room);
    case Fill =>
      FillKeepsInv(d, input, trailers, s, taken);
      Regroup(taken, [], []);
    case Consume(n) => Split(taken, s.cur, n);
  }

  lemma {:induction false} RunKeepsInv(d: G.Decoder, input: seq<Byte>, trailers: seq<nat>, s: State, taken: seq<Byte>, ops: seq<Op>)
    requires G.Lawful(d) && Inv(d, input, trailers, s, taken) && Feasible(d, s, ops)
    ensures Inv(d, input, trailers, After(d, s, ops).0, taken + After(d, s, ops).1)
    decreases |ops|
  {
    Regroup(taken, [], []);
    if ops != [] {
      var r := Do(d, s, ops[0]);
      DoKeepsInv(d, input, trailers, s, taken, ops[0]);
      RunKeepsInv(d, input, trailers, r.0, taken + r.2, ops[1..]);
      Regroup(taken, r.2, After(d, r.0, ops[1..]).1);
    }
  }

  /**
   Whatever the chunking of the coded body and whatever mixture of reads: as long as nothing failed,
   the caller's bytes and the buffer are a prefix of the decoded body, and once the end was reached
   they are all of it.
   */
  lemma CallerGetsDecodedBody(d: G.Decoder, frames: seq<G.Event>, eager: bool, ops: seq<Op>)
    requires G.Lawful(d) && G.TrailersLast(frames) && Feasible(d, Initial(frames, eager), ops)
    ensures var (s, taken) := After(d, Initial(frames, eager), ops);
            !s.seen.failed ==>
              && (d.finish(G.DataOf(frames)).Some? ==> taken + s.cur <= d.finish(G.DataOf(frames)).value)
              && (s.done ==> d.finish(G.DataOf(frames)) == Some(taken + s.cur))
  {
    G.ReadingKeepsInv(d, frames, eager, 0);
    var s0 := Initial(frames, eager);
    RunKeepsInv(d, G.DataOf(frames), G.TrailersOf(frames), s0, [], ops);
    var (s, taken) := After(d, s0, ops);
    assert [] + taken == taken;
    if !s.seen.failed && s.body.mode.Decompressing? {
      assert d.emitted(s.body.mode.fed) <= d.emitted(s.body.mode.fed + G.DataOf(s.body.frames));
    }
  }

  /** Being told that there is no more, by whichever way of reading, the caller has the whole decoded body. */
  lemma EndMeansWhole(d: G.Decoder, frames: seq<G.Event>, eager: bool, ops: seq<Op>, op: Op)
    requires G.Lawful(d) && G.TrailersLast(frames) && Feasible(d, Initial(frames, eager), ops)
    requires Allowed(After(d, Initial(frames, eager), ops).0, op)
    requires SaysEnd(op, Do(d, After(d, Initial(frames, eager), ops).0, op).1)
    requires !Do(d, After(d, Initial(frames, eager), ops).0, op).0.seen.failed
    ensures d.finish(G.DataOf(frames)) == Some(After(d, Initial(frames, eager), ops).1)
  {
    G.ReadingKeepsInv(d, frames, eager, 0);
    var s0, input, trailers := Initial(frames, eager), G.DataOf(frames), G.TrailersOf(frames);
    RunKeepsInv(d, input, trailers, s0, [], ops);
    var r := After(d, s0, ops);
    Regroup(r.1, [], []);
    DoKeepsInv(d, input, trailers, r.0, r.1, op);
    EndSeen(d, input, trailers, Do(d, r.0, op).0, r.1 + Do(d, r.0, op).2);
    Regroup(r.1, Do(d, r.0, op).2, []);
  }

  lemma EndSeen(d: G.Decoder, input: seq<Byte>, trailers: seq<nat>, s: State, taken: seq<Byte>)
    requires Inv(d, input, trailers, s, taken) && s.done && s.cur == [] && !s.seen.failed
    ensures d.finish(input) == Some(taken)
  {
    Regroup(taken, [], []);
  }

  // ----- when the caller waits

  /** The answer is Pending exactly if the coded body gave that answer, once. */
  ghost predicate WaitsWithBody(s: State, s': State, item: Item) {
    G.NotYets(s.body.frames) == G.NotYets(s'.body.frames) + if item.Pending? then 1 else 0
  }

  lemma {:induction false} FetchWaits(d: G.Decoder, s: State)
    ensures WaitsWithBody(s, Fetch(d, s).0, Fetch(d, s).1)
    decreases G.Size(s.body)
  {
    if !s.done {
      G.PendingIsTheBodys(d, s.body);
      G.PollProgress(d, s.body);
      var polled := PollFused(d, s);
      if polled.1.TrailerFrame? {
        FetchWaits(d, polled.0);
      }
    }
  }

  lemma {:induction false} FillWaits(d: G.Decoder, s: State)
    ensures WaitsWithBody(s, FillBuf(d, s).0, FillBuf(d, s).1)
    decreases G.Size(s.body)
  {
    if s.cur == [] {
      FetchWaits(d, s);
      var f := Fetch(d, s);
      if f.1.Bytes? {
        FillWaits(d, f.0.(cur := f.1.bytes));
      }
    }
  }

  /** No caller is left waiting for a wake-up that nobody owes: every Pending it gets, the coded body gave. */
  lemma CallerWaitsWithBody(d: G.Decoder, s: State, op: Op)
    requires Allowed(s, op)
    ensures WaitsWithBody(s, Do(d, s, op).0, Do(d, s, op).1)
  {
    FetchWaits(d, s);
    FillWaits(d, s);
  }

  // ----- when the caller meets a failure

  /** The body has failed the caller, or will. */
  ghost predicate Doomed(d: G.Decoder, s: State) {
    s.seen.failed || G.Doomed(d, s.body)
  }

  /** Trailers are still last, and a body that is done has nothing left. */
  ghost predicate Tracked(s: State) {
    G.TrailersLast(s.body.frames) && (s.done ==> G.AtEnd(s.body))
  }

  /** Reading changes nothing about whether there is a failure, and tells the caller of each. */
  ghost predicate Told(d: G.Decoder, s: State, s': State, item: Item) {
    && Tracked(s') && (Doomed(d, s') <==> Doomed(d, s))
    && (s'.seen.failed <==> s.seen.failed || item.Failure?)
  }

  lemma {:induction false} FetchTells(d: G.Decoder, s: State)
    requires Tracked(s)
    ensures Told(d, s, Fetch(d, s).0, Fetch(d, s).1)
    decreases G.Size(s.body)
  {
    if !s.done {
      G.PollDooms(d, s.body);
      G.EndIsEnd(d, s.body);
      G.PollProgress(d, s.body);
      var polled := PollFused(d, s);
      if polled.1.TrailerFrame? {
        FetchTells(d, polled.0);
      }
    }
  }

  lemma {:induction false} FillTells(d: G.Decoder, s: State)
    requires Tracked(s)
    ensures Told(d, s, FillBuf(d, s).0, FillBuf(d, s).1)
    decreases G.Size(s.body)
  {
    if s.cur == [] {
      FetchTells(d, s);
      var f := Fetch(d, s);
      if f.1.Bytes? {
        FillTells(d, f.0.(cur := f.1.bytes));
      }
    }
  }

  lemma DoTells(d: G.Decoder, s: State, op: Op)
    requires Tracked(s) && Allowed(s, op)
    ensures Told(d, s, Do(d, s, op).0, Do(d, s, op).1)
  {
    match op
    case Chunk => FetchTells(d, s);
    case ReadInto(_) => FillTells(d, s);
    case Fill => FillTells(d, s);
    case Consume(_) =>
  }

  lemma {:induction false} RunTells(d: G.Decoder, s: State, ops: seq<Op>)
    requires Tracked(s) && Feasible(d, s, ops)
    ensures Tracked(After(d, s, ops).0) && (Doomed(d, After(d, s, ops).0) <==> Doomed(d, s))
    decreases |ops|
  {
    if ops != [] {
      DoTells(d, s, ops[0]);
      RunTells(d, Do(d, s, ops[0]).0, ops[1..]);
    }
  }

  /**
   Exactly when a caller is failed: whatever mixture of reads took it to the end of the body, it met a
   failure on the way if and only if the coded body is at fault.
   */
  lemma CallerFailsIffFaulty(d: G.Decoder, frames: seq<G.Event>, eager: bool, ops: seq<Op>)
    requires G.TrailersLast(frames) && Feasible(d, Initial(frames, eager), ops)
    ensures var s := After(d, Initial(frames, eager), ops).0;
            && (s.seen.failed ==> G.Faulty(d, frames))
            && (s.done ==> (s.seen.failed <==> G.Faulty(d, frames)))
  {
    RunTells(d, Initial(frames, eager), ops);
    G.DoomedIffFaulty(d, frames, eager);
  }

  function Chunks(n: nat): seq<Op> {
    if n == 0 then [] else [Chunk] + Chunks(n - 1)
  }

  lemma {:induction false} FetchProgress(d: G.Decoder, s: State)
    ensures G.Size(Fetch(d, s).0.body) <= G.Size(s.body)
    ensures (Fetch(d, s).1.Eof? ==> Fetch(d, s).0.done) && (Fetch(d, s).1.Bytes? ==> !Fetch(d, s).0.done)
    ensures Fetch(d, s).0.done || G.Size(Fetch(d, s).0.body) < G.Size(s.body)
    ensures s.done ==> Fetch(d, s) == (s, Eof)
    decreases G.Size(s.body)
  {
    G.PollProgress(d, s.body);
    var polled := PollFused(d, s);
    if polled.1.TrailerFrame? {
      FetchProgress(d, polled.0);
    }
  }

  lemma {:induction false} ChunksEnd(d: G.Decoder, s: State, n: nat)
    requires s.cur == [] && (s.done || n > G.Size(s.body))
    ensures Feasible(d, s, Chunks(n)) && After(d, s, Chunks(n)).0.done && After(d, s, Chunks(n)).0.cur == []
    decreases n
  {
    if n > 0 {
      FetchProgress(d, s);
      assert Chunks(n)[0] == Chunk && Chunks(n)[1..] == Chunks(n - 1);
      ChunksEnd(d, Fetch(d, s).0, n - 1);
    }
  }

  /** Enough reads of chunks give the caller the whole decoded body, and no failure, unless the coded one is at fault. */
  lemma CallerGetsWholeBody(d: G.Decoder, frames: seq<G.Event>, eager: bool, n: nat)
    requires G.Lawful(d) && G.TrailersLast(frames) && !G.Faulty(d, frames) && n > 2 * |frames| + 2
    ensures Feasible(d, Initial(frames, eager), Chunks(n))
    ensures var r := After(d, Initial(frames, eager), Chunks(n));
            r.0.done && !r.0.seen.failed && Some(r.1) == d.finish(G.DataOf(frames))
  {
    ChunksEnd(d, Initial(frames, eager), n);
    CallerFailsIffFaulty(d, frames, eager, Chunks(n));
    CallerGetsDecodedBody(d, frames, eager, Chunks(n));
    Regroup(After(d, Initial(frames, eager), Chunks(n)).1, [], []);
  }

  // ----- reading on after a failure

  /** What the body that no longer decodes still holds for the caller. */
  function Left(s: State): seq<Byte> {
    s.cur + G.DataOf(s.body.frames)
  }

  function Payload(item: Item): seq<Byte> {
    if item.Bytes? then item.bytes else []
  }

  lemma {:induction false} FetchPasses(d: G.Decoder, s: State)
    requires s.body.mode.Passing?
    ensures var r := Fetch(d, s);
            r.0.body.mode.Passing? && G.DataOf(s.body.frames) == Payload(r.1) + G.DataOf(r.0.body.frames)
    decreases G.Size(s.body)
  {
    Regroup(G.DataOf(s.body.frames), [], []);
    if !s.done {
      G.PollPasses(d, s.body);
      G.PollProgress(d, s.body);
      var polled := PollFused(d, s);
      Regroup(G.DataOf(polled.0.body.frames), [], []);
      if polled.1.TrailerFrame? {
        FetchPasses(d, polled.0);
      }
    }
  }

  lemma {:induction false} FillPasses(d: G.Decoder, s: State)
    requires s.body.mode.Passing?
    ensures var r := FillBuf(d, s);
            r.0.body.mode.Passing? && Left(r.0) == Left(s) && (r.1.Bytes? ==> r.1.bytes == r.0.cur)
    decreases G.Size(s.body)
  {
    if s.cur == [] {
      FetchPasses(d, s);
      var f := Fetch(d, s);
      Regroup(G.DataOf(s.body.frames), [], []);
      Regroup(G.DataOf(f.0.body.frames), [], []);
      if f.1.Bytes? {
        FillPasses(d, f.0.(cur := f.1.bytes));
      }
    }
  }

  lemma DoPasses(d: G.Decoder, s: State, op: Op)
    requires s.body.mode.Passing? && Allowed(s, op)
    ensures var r := Do(d, s, op); r.0.body.mode.Passing? && r.2 + Left(r.0) == Left(s)
  {
    var r := Do(d, s, op);
    var rest := G.DataOf(r.0.body.frames);
    match op
    case Chunk =>
      FetchPasses(d, s);
      Regroup(G.DataOf(s.body.frames), [], []);
      Regroup(rest, [], []);
    case ReadInto(room) =>
      FillPasses(d, s);
      var f := FillBuf(d, s);
      Regroup(Left(f.0), [], []);
      if f.1.Bytes? {
        var n := if |f.0.cur| <= room then |f.0.cur| else room;
        Split([], f.0.cur, n);
        Regroup(f.0.cur[..n], f.0.cur[n..], rest);
        Regroup(f.0.cur, [], []);
        Regroup(f.0.cur[..n], [], []);
      }
    case Fill =>
      FillPasses(d, s);
      Regroup(Left(r.0), [], []);
    case Consume(n) =>
      Split([], s.cur, n);
      Regroup(s.cur, [], []);
      Regroup(s.cur[..n], [], []);
      Regroup(s.cur[..n], s.cur[n..], rest);
  }

  lemma {:induction false} RunPasses(d: G.Decoder, s: State, ops: seq<Op>)
    requires s.body.mode.Passing? && Feasible(d, s, ops)
    ensures After(d, s, ops).1 + Left(After(d, s, ops).0) == Left(s)
    decreases |ops|
  {
    if ops == [] {
      Regroup(Left(s), [], []);
    } else {
      var r := Do(d, s, ops[0]);
      DoPasses(d, s, ops[0]);
      RunPasses(d, r.0, ops[1..]);
      var more := After(d, r.0, ops[1..]);
      Regroup(r.2, more.1, Left(more.0));
    }
  }

  lemma {:induction false} FetchFailure(d: G.Decoder, s: State)
    ensures Fetch(d, s).1.Failure? ==> Fetch(d, s).0.body.mode.Passing?
    decreases G.Size(s.body)
  {
    if !s.done {
      G.FailureStopsDecoding(d, s.body);
      G.PollProgress(d, s.body);
      var polled := PollFused(d, s);
      if polled.1.TrailerFrame? {
        FetchFailure(d, polled.0);
      }
    }
  }

  lemma {:induction false} FillFailure(d: G.Decoder, s: State)
    ensures FillBuf(d, s).1.Failure? ==> FillBuf(d, s).0.body.mode.Passing? && FillBuf(d, s).0.cur == []
    decreases G.Size(s.body)
  {
    if s.cur == [] {
      FetchFailure(d, s);
      var f := Fetch(d, s);
      if f.1.Bytes? {
        FillFailure(d, f.0.(cur := f.1.bytes));
      }
    }
  }

  /**
   A caller that reads on after a failure, in whatever mixture, gets the rest of the coded body and nothing
   of the decoded one: what it takes, what is buffered and what is still to come are that rest.
   */
  lemma ReadingOnGetsCodedBytes(d: G.Decoder, s: State, op: Op, ops: seq<Op>)
    requires Allowed(s, op) && Do(d, s, op).1.Failure? && Feasible(d, Do(d, s, op).0, ops)
    ensures var failed := Do(d, s, op).0;
            var r := After(d, failed, ops);
            r.1 + Left(r.0) == G.DataOf(failed.body.frames)
  {
    var failed := Do(d, s, op).0;
    FetchFailure(d, s);
    FillFailure(d, s);
    RunPasses(d, failed, ops);
    Regroup(G.DataOf(failed.body.frames), [], []);
  }

  // ----- reads of bytes

  /** A read gives the caller as much as fits: never more than its room, and less only if nothing is left in the buffer. */
  lemma ReadFits(d: G.Decoder, s: State, room: nat)
    requires Do(d, s, ReadInto(room)).1.Bytes?
    ensures var r := Do(d, s, ReadInto(room));
            && r.2 == r.1.bytes && |r.2| <= room && (|r.2| < room ==> r.0.cur == [])
            && FillBuf(d, s).1 == Bytes(r.2 + r.0.cur)
  {
    FillShows(d, s);
    var cur := FillBuf(d, s).0.cur;
    var n := if |cur| <= room then |cur| else room;
    assert cur == cur[..n] + cur[n..];
  }

  /** A chunk is the whole buffer if there is one, and leaves none. */
  lemma ChunkTakesBuffer(d: G.Decoder, s: State)
    ensures Do(d, s, Chunk).0.cur == []
    ensures s.cur != [] ==> Do(d, s, Chunk) == (s.(cur := []), Bytes(s.cur), s.cur)
  {
  }

  lemma {:induction false} FillShows(d: G.Decoder, s: State)
    ensures var r := FillBuf(d, s);
            && (r.1.Bytes? ==> r.1.bytes == r.0.cur && (r.0.cur == [] ==> r.0.done))
            && (s.cur != [] ==> r.0 == s)
    ensures s.cur == [] ==> FillBuf(d, s).0.done || G.Size(FillBuf(d, s).0.body) < G.Size(s.body)
    ensures s.cur == [] && FillBuf(d, s).0.done ==> FillBuf(d, s).0.cur == []
    ensures s.done && s.cur == [] ==> FillBuf(d, s) == (s, Bytes([]))
    decreases G.Size(s.body)
  {
    if s.cur == [] {
      FetchProgress(d, s);
      var f := Fetch(d, s);
      if f.1.Bytes? {
        FillShows(d, f.0.(cur := f.1.bytes));
      }
    }
  }

  // ----- any way of reading reaches the end

  /** Ways to take something: the next chunk, a read into room for one byte or more, a fill and the use of one byte or more. */
  datatype Way = ByChunk | ByRead(extra: nat) | ByFill(extra: nat)

  function OpsOf(d: G.Decoder, s: State, way: Way): seq<Op> {
    match way
    case ByChunk => [Chunk]
    case ByRead(extra) => [ReadInto(extra + 1)]
    case ByFill(extra) =>
      var shown := |FillBuf(d, s).0.cur|;
      [Fill, Consume(if extra + 1 <= shown then extra + 1 else shown)]
  }

  /** Being at the end for good. */
  predicate Over(s: State) {
    s.done && s.cur == []
  }

  /** Every way takes a byte, or gets on with the body, or is at the end. */
  lemma WayProgress(d: G.Decoder, s: State, way: Way)
    ensures Feasible(d, s, OpsOf(d, s, way))
    ensures var r := After(d, s, OpsOf(d, s, way));
            && G.Size(r.0.body) <= G.Size(s.body)
            && (Over(r.0) || G.Size(r.0.body) + 1 <= G.Size(s.body) + |r.1|)
            && (Over(s) ==> r == (s, []))
  {
    match way
    case ByChunk =>
      OneOp(d, s, Chunk);
      FetchProgress(d, s);
    case ByRead(extra) =>
      OneOp(d, s, ReadInto(extra + 1));
      FillShows(d, s);
      FillShrinks(d, s);
    case ByFill(extra) =>
      FillShows(d, s);
      FillShrinks(d, s);
      var ops := OpsOf(d, s, way);
      TwoOps(d, s, ops[0], ops[1]);
  }

  lemma {:induction false} FillShrinks(d: G.Decoder, s: State)
    ensures G.Size(FillBuf(d, s).0.body) <= G.Size(s.body)
    decreases G.Size(s.body)
  {
    if s.cur == [] {
      FetchProgress(d, s);
      var f := Fetch(d, s);
      if f.1.Bytes? {
        FillShrinks(d, f.0.(cur := f.1.bytes));
      }
    }
  }

  lemma OneOp(d: G.Decoder, s: State, op: Op)
    requires Allowed(s, op)
    ensures Feasible(d, s, [op]) && After(d, s, [op]) == (Do(d, s, op).0, Do(d, s, op).2)
  {
    assert [op][1..] == [];
    Regroup(Do(d, s, op).2, [], []);
  }

  lemma TwoOps(d: G.Decoder, s: State, op: Op, op': Op)
    requires Allowed(s, op) && Allowed(Do(d, s, op).0, op')
    ensures Feasible(d, s, [op, op'])
    ensures var r, r' := Do(d, s, op), Do(d, Do(d, s, op).0, op');
            After(d, s, [op, op']) == (r'.0, r.2 + r'.2)
  {
    assert [op, op'][1..] == [op'];
    OneOp(d, Do(d, s, op).0, op');
  }

  /** The operations of any ways of reading, one after another. */
  ghost function Reads(d: G.Decoder, s: State, ways: seq<Way>): seq<Op>
    decreases |ways|
  {
    if ways == [] then []
    else
      WayProgress(d, s, ways[0]);
      var ops := OpsOf(d, s, ways[0]);
      ops + Reads(d, After(d, s, ops).0, ways[1..])
  }

  /** Reading in two stretches. */
  ghost predicate Follows(d: G.Decoder, s: State, ops: seq<Op>, s': State, taken: seq<Byte>) {
    Feasible(d, s, ops) && After(d, s, ops) == (s', taken)
  }

  lemma {:induction false} Chain(d: G.Decoder, s: State, a: seq<Op>, between: State, x: seq<Byte>, b: seq<Op>, s': State, y: seq<Byte>)
    requires Follows(d, s, a, between, x) && Follows(d, between, b, s', y)
    ensures Follows(d, s, a + b, s', x + y)
    decreases |a|
  {
    if a == [] {
      assert a + b == b;
      Regroup(y, [], []);
    } else {
      var r := Do(d, s, a[0]);
      var x' := After(d, r.0, a[1..]).1;
      Chain(d, r.0, a[1..], between, x', b, s', y);
      assert (a + b)[1..] == a[1..] + b && (a + b)[0] == a[0];
      Regroup(r.2, x', y);
    }
  }

  lemma {:induction false} ReadsProgress(d: G.Decoder, s: State, ways: seq<Way>)
    ensures Feasible(d, s, Reads(d, s, ways))
    ensures var r := After(d, s, Reads(d, s, ways));
            && (Over(r.0) || |ways| + G.Size(r.0.body) <= G.Size(s.body) + |r.1|)
            && (Over(s) ==> Over(r.0))
    decreases |ways|
  {
    if ways != [] {
      WayProgress(d, s, ways[0]);
      var ops := OpsOf(d, s, ways[0]);
      var r := After(d, s, ops);
      ReadsProgress(d, r.0, ways[1..]);
      var rest := Reads(d, r.0, ways[1..]);
      var r' := After(d, r.0, rest);
      Chain(d, s, ops, r.0, r.1, rest, r'.0, r'.1);
    }
  }

  /**
   Whatever the ways of reading, one byte at a time or chunk by chunk, and whatever the chunking of the coded body: enough
   reads of a body that is not at fault reach its end without a failure, and the caller has taken the whole decoded body.
   */
  lemma AnyWayGetsWholeBody(d: G.Decoder, frames: seq<G.Event>, eager: bool, ways: seq<Way>)
    requires G.Lawful(d) && G.TrailersLast(frames) && !G.Faulty(d, frames)
    requires |ways| > 2 * |frames| + 2 + |d.finish(G.DataOf(frames)).value|
    ensures Feasible(d, Initial(frames, eager), Reads(d, Initial(frames, eager), ways))
    ensures var r := After(d, Initial(frames, eager), Reads(d, Initial(frames, eager), ways));
            Over(r.0) && !r.0.seen.failed && Some(r.1) == d.finish(G.DataOf(frames))
  {
    var s := Initial(frames, eager);
    var ops := Reads(d, s, ways);
    ReadsProgress(d, s, ways);
    CallerFailsIffFaulty(d, frames, eager, ops);
    CallerGetsDecodedBody(d, frames, eager, ops);
    Regroup(After(d, s, ops).1, [], []);
  }
}
