/**
 The whole way of a blocking client's request body: the blocking writer, the channel to the shim,
 the shim that copies each part on, the asynchronous writer, its channel and the connection.
 */
module RequestPath {
  import opened Options
  import P = Pipe

  type Byte = P.Byte

  /** The shim holds at most one part that it has received and not passed on. */
  datatype Shim = Copying(hand: Option<seq<Byte>>) | Returned(ok: bool)

  datatype Path = Path(first: P.Pipe, shim: Shim, second: P.Pipe)

  const Initial: Path := Path(P.Empty, Copying(None), P.Empty)

  datatype Step =
    | BlockingWriter(step: P.Step)   // any step of the user's thread, or of its end
    | ShimReceives
    | ShimPassesOn
    | ShimFails                      // passing on failed: the connection hung up
    | Finish                         // after a successful shim: the body is declared complete
    | Abandon                        // after a failed shim, or when the request is dropped
    | ConnectionPolls
    | ConnectionHangsUp

  predicate IsWriterStep(e: P.Step) {
    !e.Take? && !e.HangUp?
  }

  predicate Enabled(x: Path, e: Step) {
    match e
    case BlockingWriter(s) => IsWriterStep(s) && P.Enabled(x.first, s)
    case ShimReceives => x.shim == Copying(None) && P.Enabled(x.first, P.Take)
    case ShimPassesOn => x.shim.Copying? && x.shim.hand.Some? && P.Enabled(x.second, P.SendFrame(x.shim.hand.value))
    case ShimFails => x.shim.Copying? && x.shim.hand.Some? && !P.Open(x.second)
    case Finish => x.shim == Returned(true) && P.Enabled(x.second, P.SendDone)
    case Abandon => P.Enabled(x.second, P.Stop)
    case ConnectionPolls => P.Enabled(x.second, P.Take)
    case ConnectionHangsUp => P.Enabled(x.second, P.HangUp)
  }

  /** Returning, the shim drops its end of the first channel. */
  function ShimReturns(x: Path, ok: bool): Path {
    x.(shim := Returned(ok), first := if P.Open(x.first) then P.Next(x.first, P.HangUp) else x.first)
  }

  function Received(x: Path): Path
    requires Enabled(x, ShimReceives)
  {
    var p := x.first;
    var x' := x.(first := P.Taken(p));
    if P.Taken(p).reader.Complete? then x'.(shim := Returned(true))
    else if P.Taken(p).reader.Errored? then x'.(shim := Returned(false))
    else if p.queue != [] && p.queue[0].Frame? then x'.(shim := Copying(Some(p.queue[0].bytes)))
    else x'
  }

  function Next(x: Path, e: Step): Path
    requires Enabled(x, e)
  {
    match e
    case BlockingWriter(s) => x.(first := P.Next(x.first, s))
    case ShimReceives => Received(x)
    case ShimPassesOn => x.(shim := Copying(None), second := P.Next(x.second, P.SendFrame(x.shim.hand.value)))
    case ShimFails => ShimReturns(x, false)
    case Finish => x.(second := P.Next(x.second, P.SendDone))
    case Abandon => ShimReturns(x, x.shim == Returned(true)).(second := P.Next(x.second, P.Stop))
    case ConnectionPolls => x.(second := P.Taken(x.second))
    case ConnectionHangsUp => x.(second := P.Next(x.second, P.HangUp))
  }

  function Hand(x: Path): seq<Byte> {
    if x.shim.Copying? && x.shim.hand.Some? then x.shim.hand.value else []
  }

  /**
   The shim conserves bytes: what it took from the first channel is what it put into the second and
   holds in its hand; it succeeds only after a complete first body, and nothing else lets the
   second be declared complete.
   */
  ghost predicate Inv(x: Path) {
    && P.Inv(x.first) && P.Inv(x.second)
    && x.second.buf == []
    && (x.shim.Copying? ==> x.first.delivered == x.second.accepted + Hand(x) && P.Open(x.first))
    && (x.shim == Returned(true) ==> x.first.reader.Complete? && x.second.accepted == x.first.delivered)
    && (x.second.sender.Finished? ==> x.shim == Returned(true))
    && x.second.accepted <= x.first.delivered
  }

  lemma ReceiveKeepsInv(x: Path)
    requires Inv(x) && Enabled(x, ShimReceives)
    ensures Inv(Received(x))
  {
    P.TakeKeepsInv(x.first);
  }

  lemma NextKeepsInv(x: Path, e: Step)
    requires Inv(x) && Enabled(x, e)
    ensures Inv(Next(x, e))
  {
    match e
    case BlockingWriter(s) => P.NextKeepsInv(x.first, s);
    case ShimReceives => ReceiveKeepsInv(x);
    case ShimPassesOn => P.NextKeepsInv(x.second, P.SendFrame(x.shim.hand.value));
    case ShimFails => HangUpKeepsInv(x.first);
    case Finish => P.NextKeepsInv(x.second, P.SendDone);
    case Abandon => HangUpKeepsInv(x.first); P.NextKeepsInv(x.second, P.Stop);
    case ConnectionPolls => P.TakeKeepsInv(x.second);
    case ConnectionHangsUp => P.NextKeepsInv(x.second, P.HangUp);
  }

  lemma HangUpKeepsInv(p: P.Pipe)
    requires P.Inv(p)
    ensures P.Open(p) ==> P.Inv(P.Next(p, P.HangUp))
  {
  }

  ghost predicate Feasible(x: Path, run: seq<Step>)
    decreases |run|
  {
    run == [] || (Enabled(x, run[0]) && Feasible(Next(x, run[0]), run[1..]))
  }

  ghost function After(x: Path, run: seq<Step>): Path
    requires Feasible(x, run)
    decreases |run|
  {
    if run == [] then x else After(Next(x, run[0]), run[1..])
  }

  lemma {:induction false} RunKeepsInv(x: Path, run: seq<Step>)
    requires Inv(x) && Feasible(x, run)
    ensures Inv(After(x, run))
    decreases |run|
  {
    if run != [] {
      NextKeepsInv(x, run[0]);
      RunKeepsInv(Next(x, run[0]), run[1..]);
    }
  }

  /**
   From end to end, over every run: while all is open, the bytes the blocking writer handed over
   are, in order, those the connection has, then those in the second channel, the shim's hand, the
   first channel and the blocking writer's buffer; and the connection sees a complete body only if
   the blocking writer finished, and then it has every byte.
   */
  lemma EndToEnd(run: seq<Step>)
    requires Feasible(Initial, run)
    ensures var x := After(Initial, run);
            && (x.shim.Copying? && P.Open(x.second) ==>
                  x.second.delivered + P.Bytes(x.second.queue) + Hand(x) + P.Bytes(x.first.queue) + x.first.buf == x.first.accepted)
            && (x.second.reader.Complete? ==> x.first.sender.Finished? && x.second.delivered == x.first.accepted)
            && x.second.delivered <= x.first.accepted
  {
    RunKeepsInv(Initial, run);
    var x := After(Initial, run);
    var a, b, c, d := x.second.delivered + P.Bytes(x.second.queue), Hand(x), P.Bytes(x.first.queue), x.first.buf;
    if x.shim.Copying? && P.Open(x.second) {
      assert a + [] == a == x.second.accepted;
      assert (a + b) + c + d == x.first.accepted;
    }
    assert x.second.delivered <= x.second.accepted <= x.first.delivered <= x.first.accepted;
  }

  // ----- a finished body arrives

  /** The steps that the shim, the asynchronous writer and the connection take of their own accord. */
  predicate Forwards(e: Step) {
    e.ShimReceives? || e.ShimPassesOn? || e.Finish? || e.ConnectionPolls?
  }

  ghost predicate OnlyForwards(run: seq<Step>) {
    forall i :: 0 <= i < |run| ==> Forwards(run[i])
  }

  /** The body is complete on the user's side, and nobody has given up on the way. */
  ghost predicate Arriving(x: Path) {
    && Inv(x) && x.first.sender.Finished? && P.Open(x.second) && x.second.sender.Writing?
    && (x.shim.Copying? || x.shim == Returned(true))
  }

  ghost predicate Arrives(x: Path, run: seq<Step>) {
    && OnlyForwards(run) && Feasible(x, run)
    && After(x, run).second.reader.Complete? && After(x, run).second.delivered == x.first.accepted
  }

  lemma Prepend(x: Path, e: Step, run: seq<Step>)
    requires Forwards(e) && Enabled(x, e) && Arrives(Next(x, e), run) && Next(x, e).first.accepted == x.first.accepted
    ensures Arrives(x, [e] + run)
  {
    assert ([e] + run)[1..] == run;
  }

  function StepsLeft(x: Path): nat {
    4 * |x.first.queue| + (if x.shim.Copying? && x.shim.hand.Some? then 2 else 0) + |x.second.queue|
  }

  /** The last two steps: the body is declared complete, and the connection polls once more. */
  lemma Completes(x: Path) returns (run: seq<Step>)
    requires Arriving(x) && x.shim == Returned(true) && x.second.queue == []
    ensures Arrives(x, run)
  {
    var x' := Next(x, Finish);
    NextKeepsInv(x, Finish);
    NextKeepsInv(x', ConnectionPolls);
    assert x'.second.queue == [P.Done];
    assert Arrives(Next(x', ConnectionPolls), []);
    Prepend(x', ConnectionPolls, []);
    Prepend(x, Finish, [ConnectionPolls] + []);
    run := [Finish] + ([ConnectionPolls] + []);
  }

  /** What to do next, and why it brings the body nearer. */
  lemma Advance(x: Path) returns (e: Step)
    requires Arriving(x) && !(x.shim == Returned(true) && x.second.queue == [])
    ensures Forwards(e) && Enabled(x, e)
    ensures Arriving(Next(x, e)) && Next(x, e).first.accepted == x.first.accepted && StepsLeft(Next(x, e)) < StepsLeft(x)
  {
    if x.second.queue != [] {
      e := ConnectionPolls;
      assert x.second.queue[0].Frame?;
    } else if x.shim.hand.Some? {
      e := ShimPassesOn;
    } else {
      e := ShimReceives;
      if !x.first.queue[0].Frame? {
        P.HeadIsLastWord(x.first);
      }
    }
    NextKeepsInv(x, e);
  }

  /**
   A finished body arrives: from any state in which the blocking writer has finished and nobody has given up, the shim, the
   writer behind it and the connection can go on, and then the connection sees a complete body with every byte.
   */
  lemma {:induction false} FinishedBodyArrives(x: Path) returns (run: seq<Step>)
    requires Arriving(x)
    ensures Arrives(x, run)
    decreases StepsLeft(x)
  {
    if x.shim == Returned(true) && x.second.queue == [] {
      run := Completes(x);
    } else {
      var e := Advance(x);
      var rest := FinishedBodyArrives(Next(x, e));
      Prepend(x, e, rest);
      run := [e] + rest;
    }
  }
}
