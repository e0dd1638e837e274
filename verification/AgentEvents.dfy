/**
  * Delivery of agent events: agent/internal/agentevents/store.go keeps the lines, flushAgentEvents of
  * agent/internal/wsclient/client.go sends them and drops them after the server's ack.
  */
module AgentEvents {

  /** A line of the file. The serial number says which Append wrote it. */
  datatype Line = Line(serial: nat, kind: string, detail: string)

  /**
    * A flush: how many lines had been dropped when it read the file, and what it sent. Once its timer has run out it no
    * longer waits, and its ack is ignored, but the server may still get the batch.
    */
  datatype Flush = Flush(start: nat, lines: seq<Line>, inserted: bool, waiting: bool)

  datatype World = World(
    history: seq<Line>,          // every appended line
    dropped: nat,                // lines removed so far
    file: seq<Line>,
    flushes: map<nat, Flush>,
    stored: set<nat>,            // serials the server has inserted
    next: nat)

  datatype Event =
    | Append(kind: string, detail: string)
    | StartFlush
    | Deliver(flush: nat)
    | Ack(flush: nat)
    | GiveUp(flush: nat)

  function Min(a: int, b: int): int {
    if a < b then a else b
  }

  /** The file after `Drop(n)`. */
  function Rest(file: seq<Line>, n: nat): seq<Line> {
    if n >= |file| then [] else file[n..]
  }

  function Serials(lines: seq<Line>): set<nat> {
    set i | 0 <= i < |lines| :: lines[i].serial
  }

  /** The ack of the flush is there and counts. */
  predicate Acked(w: World, f: nat) {
    f in w.flushes && w.flushes[f].inserted && w.flushes[f].waiting
  }

  function Next(w: World, e: Event): World {
    match e
    case Append(kind, detail) =>
      var ln := Line(|w.history|, kind, detail);
      w.(history := w.history + [ln], file := w.file + [ln])
    case StartFlush =>
      if w.file == [] then w
      else w.(flushes := w.flushes[w.next := Flush(w.dropped, w.file, false, true)], next := w.next + 1)
    case Deliver(f) =>
      if f in w.flushes then
        w.(stored := w.stored + Serials(w.flushes[f].lines), flushes := w.flushes[f := w.flushes[f].(inserted := true)])
      else w
    case Ack(f) =>
      if Acked(w, f) then
        var n := |w.flushes[f].lines|;
        w.(file := Rest(w.file, n), dropped := w.dropped + Min(n, |w.file|), flushes := w.flushes - {f})
      else w
    case GiveUp(f) =>
      if f in w.flushes then w.(flushes := w.flushes[f := w.flushes[f].(waiting := false)]) else w
  }

  function Run(w: World, events: seq<Event>): World
    decreases |events|
  {
    if events == [] then w else Run(Next(w, events[0]), events[1..])
  }

  function Empty(): World {
    World([], 0, [], map[], {}, 0)
  }

  // ---------------------------------------------------------------- what holds whatever overlaps

  ghost predicate HistoryFits(w: World) {
    && (forall i :: 0 <= i < |w.history| ==> w.history[i].serial == i)
    && w.dropped <= |w.history| && w.file == w.history[w.dropped..]
  }

  ghost predicate FlushFits(w: World, f: Flush) {
    && f.start <= w.dropped && f.start + |f.lines| <= |w.history|
    && f.lines == w.history[f.start..f.start + |f.lines|]
    && (f.inserted ==> forall i :: f.start <= i < f.start + |f.lines| ==> i in w.stored)
  }

  ghost predicate Shape(w: World) {
    HistoryFits(w) && forall f :: f in w.flushes ==> FlushFits(w, w.flushes[f])
  }

  /** A sent batch stays right while the history, the drops and the stored set only grow. */
  lemma {:induction false} FlushStaysFit(w: World, v: World, f: Flush)
    requires FlushFits(w, f) && w.dropped <= v.dropped && w.stored <= v.stored
    requires |w.history| <= |v.history| && v.history[..|w.history|] == w.history
    ensures FlushFits(v, f)
  {
    assert v.history[f.start..f.start + |f.lines|] == v.history[..|w.history|][f.start..f.start + |f.lines|];
  }

  lemma {:induction false} DeliverFits(w: World, f: Flush, v: World)
    requires HistoryFits(w) && FlushFits(w, f)
    requires v.history == w.history && v.dropped == w.dropped && v.stored == w.stored + Serials(f.lines)
    ensures FlushFits(v, f.(inserted := true))
  {
    forall i | f.start <= i < f.start + |f.lines| ensures i in v.stored {
      assert f.lines[i - f.start] == w.history[i];
      assert f.lines[i - f.start].serial in Serials(f.lines);
    }
  }

  lemma {:induction false} StepKeepsHistory(w: World, e: Event)
    requires Shape(w)
    ensures HistoryFits(Next(w, e))
  {
    if e.Ack? && Acked(w, e.flush) {
      var n := |w.flushes[e.flush].lines|;
      assert w.history[w.dropped..][Min(n, |w.file|)..] == w.history[w.dropped + Min(n, |w.file|)..];
    }
  }

  lemma {:induction false} StepKeepsShape(w: World, e: Event)
    requires Shape(w)
    ensures Shape(Next(w, e))
  {
    var v := Next(w, e);
    StepKeepsHistory(w, e);
    assert v.history[..|w.history|] == w.history;
    forall f | f in v.flushes ensures FlushFits(v, v.flushes[f]) {
      if f in w.flushes && !e.Deliver? {
        FlushStaysFit(w, v, w.flushes[f]);
      } else if e.StartFlush? {
        assert w.history[w.dropped..w.dropped + |w.file|] == w.file;
      } else {
        FlushStaysFit(w, v, w.flushes[f]);
        if f == e.flush {
          DeliverFits(w, w.flushes[f], v);
        }
      }
    }
  }

  /** Every appended line is still in the file or stored by the server. */
  ghost predicate NothingLost(w: World) {
    forall i :: 0 <= i < w.dropped ==> i in w.stored
  }

  /** That is what it says about each line. */
  lemma {:induction false} NothingLostMeans(w: World)
    requires Shape(w)
    ensures NothingLost(w) <==> forall ln :: ln in w.history ==> ln in w.file || ln.serial in w.stored
  {
    if NothingLost(w) {
      forall ln | ln in w.history ensures ln in w.file || ln.serial in w.stored {
        var i :| 0 <= i < |w.history| && w.history[i] == ln;
        if i >= w.dropped {
          assert w.file[i - w.dropped] == ln;
        }
      }
    }
    if forall ln :: ln in w.history ==> ln in w.file || ln.serial in w.stored {
      forall i | 0 <= i < w.dropped ensures i in w.stored {
        var ln := w.history[i];
        assert ln in w.history;
        assert forall j :: 0 <= j < |w.file| ==> w.file[j].serial == w.dropped + j;
      }
    }
  }

  /** With no drop in between, the ack removes exactly the lines that were sent, whatever was appended meanwhile. */
  lemma {:induction false} AckDropsWhatWasSent(w: World, f: nat)
    requires Shape(w) && Acked(w, f) && w.flushes[f].start == w.dropped
    ensures w.file == w.flushes[f].lines + Next(w, Ack(f)).file
  {
    var g := w.flushes[f];
    assert FlushFits(w, g);
    assert w.file[..|g.lines|] == g.lines;
    assert w.file == w.file[..|g.lines|] + w.file[|g.lines|..];
  }

  datatype Text = Text(kind: string, detail: string)

  function Texts(lines: seq<Line>): seq<Text> {
    seq(|lines|, i requires 0 <= i < |lines| => Text(lines[i].kind, lines[i].detail))
  }

  function Appends(events: seq<Event>): seq<Text> {
    if events == [] then []
    else (if events[0].Append? then [Text(events[0].kind, events[0].detail)] else []) + Appends(events[1..])
  }

  /** The history is what was appended, in order, and the file is its end. */
  lemma {:induction false} HistoryIsAppends(w: World, events: seq<Event>)
    ensures Texts(Run(w, events).history) == Texts(w.history) + Appends(events)
    decreases |events|
  {
    if events != [] {
      HistoryIsAppends(Next(w, events[0]), events[1..]);
      HistoryGrows(w, events[0]);
    }
  }

  lemma {:induction false} HistoryGrows(w: World, e: Event)
    ensures Texts(Next(w, e).history) == Texts(w.history) + if e.Append? then [Text(e.kind, e.detail)] else []
  {
  }

  lemma {:induction false} FileIsEndOfAppends(events: seq<Event>)
    ensures var w := Run(Empty(), events);
            w.dropped <= |Appends(events)| && Texts(w.file) == Appends(events)[w.dropped..]
  {
    HistoryIsAppends(Empty(), events);
    RunKeepsShape(Empty(), events);
    var w := Run(Empty(), events);
    assert Texts(Empty().history) == [];
    assert Texts(w.history)[w.dropped..] == Texts(w.history[w.dropped..]);
  }

  lemma {:induction false} RunKeepsShape(w: World, events: seq<Event>)
    requires Shape(w)
    ensures Shape(Run(w, events))
    decreases |events|
  {
    if events != [] {
      StepKeepsShape(w, events[0]);
      RunKeepsShape(Next(w, events[0]), events[1..]);
    }
  }

  /** A flush that nothing disturbs empties the file into the server; one that was given up drops nothing. */
  lemma {:induction false} FlushDelivers(w: World)
    requires w.file != []
    ensures var sent := Next(Next(w, StartFlush), Deliver(w.next));
            && (forall ln <- w.file :: ln.serial in sent.stored)
            && sent.file == w.file && Next(sent, Ack(w.next)).file == []
            && Next(Next(sent, GiveUp(w.next)), Ack(w.next)).file == w.file
  {
    forall ln | ln in w.file ensures ln.serial in Serials(w.file) {
      var i :| 0 <= i < |w.file| && w.file[i] == ln;
      assert w.file[i].serial in Serials(w.file);
    }
  }

  // ---------------------------------------------------------------- when an ack loses a line

  ghost predicate IsPrefix(stored: set<nat>, m: nat) {
    forall i: nat :: i in stored <==> i < m
  }

  /** How many lines the deliveries have reached: the end of the furthest one. */
  function Reach(w: World, m: nat, e: Event): nat {
    if e.Deliver? && e.flush in w.flushes && w.flushes[e.flush].start + |w.flushes[e.flush].lines| > m
    then w.flushes[e.flush].start + |w.flushes[e.flush].lines|
    else m
  }

  /** Nothing is lost, and the server holds exactly the first m lines. */
  ghost predicate Sound(w: World, m: nat) {
    Shape(w) && NothingLost(w) && IsPrefix(w.stored, m) && m <= |w.history|
  }

  lemma {:induction false} SoundMeansReached(w: World, m: nat)
    requires IsPrefix(w.stored, m)
    ensures NothingLost(w) <==> w.dropped <= m
  {
    assert w.dropped > m ==> m !in w.stored;
  }

  lemma {:induction false} SerialsOf(w: World, f: Flush)
    requires HistoryFits(w) && FlushFits(w, f)
    ensures forall i :: i in Serials(f.lines) <==> f.start <= i < f.start + |f.lines|
  {
    forall i | f.start <= i < f.start + |f.lines| ensures i in Serials(f.lines) {
      assert f.lines[i - f.start] == w.history[i];
      assert f.lines[i - f.start].serial in Serials(f.lines);
    }
    forall i | i in Serials(f.lines) ensures f.start <= i < f.start + |f.lines| {
      var j :| 0 <= j < |f.lines| && f.lines[j].serial == i;
      assert f.lines[j] == w.history[f.start + j];
    }
  }

  /** While nothing is lost the server holds a prefix, and a delivery moves its end to where it reaches. */
  lemma {:induction false} StepKeepsPrefix(w: World, m: nat, e: Event)
    requires Sound(w, m)
    ensures Shape(Next(w, e)) && IsPrefix(Next(w, e).stored, Reach(w, m, e))
    ensures Reach(w, m, e) <= |Next(w, e).history|
  {
    StepKeepsShape(w, e);
    if e.Deliver? && e.flush in w.flushes {
      var f := w.flushes[e.flush];
      SoundMeansReached(w, m);
      SerialsOf(w, f);
    }
  }

  /** The ack of an inserted flush removes no more lines than the deliveries have reached. */
  ghost predicate WithinReach(w: World, m: nat, e: Event) {
    e.Ack? && Acked(w, e.flush) ==>
      Min(w.dropped + |w.flushes[e.flush].lines|, |w.history|) <= m
  }

  /** One step loses nothing if and only if it is not an ack that counts past what was delivered. */
  lemma {:induction false} AckIsSafeIff(w: World, m: nat, e: Event)
    requires Sound(w, m)
    ensures Sound(Next(w, e), Reach(w, m, e)) <==> WithinReach(w, m, e)
    ensures NothingLost(Next(w, e)) <==> WithinReach(w, m, e)
  {
    var v := Next(w, e);
    StepKeepsPrefix(w, m, e);
    SoundMeansReached(w, m);
    SoundMeansReached(v, Reach(w, m, e));
    if e.Ack? && Acked(w, e.flush) {
      assert v.dropped == Min(w.dropped + |w.flushes[e.flush].lines|, |w.history|);
    } else {
      assert v.dropped == w.dropped;
    }
  }

  ghost predicate AcksWithinReach(w: World, m: nat, events: seq<Event>)
    decreases |events|
  {
    events == [] ||
    (WithinReach(w, m, events[0]) && AcksWithinReach(Next(w, events[0]), Reach(w, m, events[0]), events[1..]))
  }

  /** Nothing is lost at any moment of the run. */
  ghost predicate NeverLoses(w: World, events: seq<Event>)
    decreases |events|
  {
    NothingLost(w) && (events == [] || NeverLoses(Next(w, events[0]), events[1..]))
  }

  lemma {:induction false} NeverLosesIff(w: World, m: nat, events: seq<Event>)
    requires Sound(w, m)
    ensures NeverLoses(w, events) <==> AcksWithinReach(w, m, events)
    decreases |events|
  {
    if events != [] {
      AckIsSafeIff(w, m, events[0]);
      if WithinReach(w, m, events[0]) {
        NeverLosesIff(Next(w, events[0]), Reach(w, m, events[0]), events[1..]);
      } else {
        assert !NeverLoses(Next(w, events[0]), events[1..]);
      }
    }
  }

  /** Over every run, overlapping flushes included: no event is ever lost iff no ack counts past the deliveries. */
  lemma {:induction false} RunLosesNothingIff(events: seq<Event>)
    ensures NeverLoses(Empty(), events) <==> AcksWithinReach(Empty(), 0, events)
  {
    assert IsPrefix(Empty().stored, 0);
    NeverLosesIff(Empty(), 0, events);
  }

  // ---------------------------------------------------------------- flushes that do not overlap

  ghost predicate SomeWaits(w: World) {
    exists f :: f in w.flushes && w.flushes[f].waiting
  }

  /** A flush is started only when none is waiting. */
  ghost predicate NoOverlap(w: World, events: seq<Event>)
    decreases |events|
  {
    events == [] ||
    ((events[0].StartFlush? ==> !SomeWaits(w)) && NoOverlap(Next(w, events[0]), events[1..]))
  }

  /** At most one flush waits, and nothing was dropped since it read the file. */
  ghost predicate Alone(w: World) {
    && (forall f, g :: f in w.flushes && g in w.flushes && w.flushes[f].waiting && w.flushes[g].waiting ==> f == g)
    && (forall f :: f in w.flushes && w.flushes[f].waiting ==> w.flushes[f].start == w.dropped)
  }

  /** A flush that is alone reaches as far as its own ack counts. */
  lemma {:induction false} AloneIsWithinReach(w: World, m: nat, e: Event)
    requires Sound(w, m) && Alone(w)
    ensures WithinReach(w, m, e)
  {
    if e.Ack? && Acked(w, e.flush) {
      var f := w.flushes[e.flush];
      assert FlushFits(w, f);
      SoundMeansReached(w, m);
      assert f.lines != [] ==> f.start + |f.lines| - 1 in w.stored;
    }
  }

  lemma {:induction false} NoOverlapIsWithinReach(w: World, m: nat, events: seq<Event>)
    requires Sound(w, m) && Alone(w) && NoOverlap(w, events)
    ensures AcksWithinReach(w, m, events)
    decreases |events|
  {
    if events != [] {
      AloneIsWithinReach(w, m, events[0]);
      AckIsSafeIff(w, m, events[0]);
      NoOverlapIsWithinReach(Next(w, events[0]), Reach(w, m, events[0]), events[1..]);
    }
  }

  lemma {:induction false} NeverLosesEnds(w: World, events: seq<Event>)
    requires NeverLoses(w, events) && Shape(w)
    ensures Shape(Run(w, events)) && NothingLost(Run(w, events))
    decreases |events|
  {
    if events != [] {
      StepKeepsShape(w, events[0]);
      NeverLosesEnds(Next(w, events[0]), events[1..]);
    }
  }

  /** So while flushes do not overlap, at every moment each appended event is in the file or stored by the server. */
  lemma {:induction false} EventsAreNotLost(events: seq<Event>)
    requires NoOverlap(Empty(), events)
    ensures var w := Run(Empty(), events);
            forall ln :: ln in w.history ==> ln in w.file || ln.serial in w.stored
  {
    assert IsPrefix(Empty().stored, 0);
    NoOverlapIsWithinReach(Empty(), 0, events);
    RunLosesNothingIff(events);
    NeverLosesEnds(Empty(), events);
    NothingLostMeans(Run(Empty(), events));
  }

  /** Two overlapping flushes do lose one: both send line 0, line 1 is appended, both acks drop a line. */
  lemma {:induction false} OverlapLosesAnEvent()
    ensures var w := Run(Empty(), [Append("a", ""), StartFlush, StartFlush, Append("b", ""),
                                   Deliver(0), Deliver(1), Ack(0), Ack(1)]);
            Line(1, "b", "") in w.history && w.file == [] && 1 !in w.stored
  {
    var a, b := Line(0, "a", ""), Line(1, "b", "");
    var w1 := World([a], 0, [a], map[], {}, 0);
    var w2 := w1.(flushes := map[0 := Flush(0, [a], false, true)], next := 1);
    var w3 := w2.(flushes := w2.flushes[1 := Flush(0, [a], false, true)], next := 2);
    var w4 := w3.(history := [a, b], file := [a, b]);
    assert [a][0].serial in Serials([a]);
    assert Serials([a]) == {0};
    var w5 := w4.(stored := {0}, flushes := w4.flushes[0 := Flush(0, [a], true, true)]);
    var w6 := w5.(flushes := w5.flushes[1 := Flush(0, [a], true, true)]);
    assert w6.stored == {0} + {0};
    var w7 := w6.(file := [b], dropped := 1, flushes := w6.flushes - {0});
    assert [a, b][1..] == [b];
    var w8 := w7.(file := [], dropped := 2, flushes := w7.flushes - {1});
    RunEight(Empty(), w1, w2, w3, w4, w5, w6, w7, w8,
             [Append("a", ""), StartFlush, StartFlush, Append("b", ""), Deliver(0), Deliver(1), Ack(0), Ack(1)]);
    assert w8.history[1] == b;
  }

  lemma {:induction false} RunEight(
    w0: World, w1: World, w2: World, w3: World, w4: World, w5: World, w6: World, w7: World, w8: World,
    es: seq<Event>)
    requires |es| == 8
    requires w1 == Next(w0, es[0]) && w2 == Next(w1, es[1]) && w3 == Next(w2, es[2]) && w4 == Next(w3, es[3])
    requires w5 == Next(w4, es[4]) && w6 == Next(w5, es[5]) && w7 == Next(w6, es[6]) && w8 == Next(w7, es[7])
    ensures Run(w0, es) == w8
  {
    assert es[1..][1..] == es[2..] && es[2..][1..] == es[3..] && es[3..][1..] == es[4..] && es[4..][1..] == es[5..];
    assert es[5..][1..] == es[6..] && es[6..][1..] == es[7..] && es[7..][1..] == [];
    assert Run(w8, []) == w8;
    assert Run(w7, es[7..]) == w8;
    assert Run(w6, es[6..]) == w8;
    assert Run(w5, es[5..]) == w8;
    assert Run(w4, es[4..]) == w8;
    assert Run(w3, es[3..]) == w8;
    assert Run(w2, es[2..]) == w8;
    assert Run(w1, es[1..]) == w8;
  }

  // ---------------------------------------------------------------- the file

  class Store {
    var lines: seq<Line>

    constructor ()
      ensures lines == []
    {
      lines := [];
    }

    method Append(ln: Line)
      modifies this
      ensures lines == old(lines) + [ln]
    {
      lines := lines + [ln];
    }

    method Pending() returns (out: seq<Line>)
      ensures out == lines
    {
      out := lines;
    }

    /** Removes the first n lines by rewriting the rest to a new file. */
    method Drop(n: int)
      modifies this
      ensures lines == if n <= 0 then old(lines) else Rest(old(lines), n)
    {
      if n <= 0 {
        return;
      }
      if n >= |lines| {
        lines := [];
        return;
      }
      var rest := lines[n..];
      var tmp := [];
      for i := 0 to |rest|
        invariant tmp == rest[..i]
      {
        tmp := tmp + [rest[i]];
      }
      assert rest[..|rest|] == rest;
      lines := tmp;
    }
  }
}
