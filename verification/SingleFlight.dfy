/** The hand-written singleflight of server/internal/fwapp/init_cache.go, one atomic step per statement that others can see. */
module SingleFlight {
  import opened Text

  /** How the shared function ended. "" is Go's nil error. */
  datatype Outcome = Result(err: string) | Panic

  /** A flight: its key and leader never change; `err` is the field that joiners read. */
  datatype Call = Call(key: string, leader: nat, outcome: Option<Outcome>, err: string, done: bool)

  /** The group: the map of live flights, and every flight ever made. */
  datatype Group = Group(live: map<string, nat>, calls: seq<Call>)

  /** Where a caller of `Do` stands. */
  datatype Stage =
    | Running(call: nat)
    | Finished(call: nat)
    | Woken(call: nat)
    | Waiting(call: nat)
    | Led(call: nat, ended: Outcome)
    | Joined(call: nat, err: string)

  datatype World = World(g: Group, threads: map<nat, Stage>)

  datatype Event =
    | Enter(thread: nat, key: string)
    | FnEnds(thread: nat, how: Outcome)
    | WgDone(thread: nat)
    | Delete(thread: nat)
    | Wake(thread: nat)

  // ---------------------------------------------------------------- the group's own steps

  /** Under the lock: join the live flight for this key, or register a new one. */
  function Entered(g: Group, thread: nat, key: string): (Group, Stage) {
    if key in g.live then (g, Waiting(g.live[key]))
    else
      (Group(g.live[key := |g.calls|], g.calls + [Call(key, thread, None, "", false)]), Running(|g.calls|))
  }

  /** The function returned and its error was stored, or it panicked and nothing was. */
  function Ended(g: Group, c: nat, how: Outcome): Group
    requires c < |g.calls|
  {
    var call := g.calls[c];
    g.(calls := g.calls[c := call.(outcome := Some(how), err := if how.Result? then how.err else call.err)])
  }

  function DoneSet(g: Group, c: nat): Group
    requires c < |g.calls|
  {
    g.(calls := g.calls[c := g.calls[c].(done := true)])
  }

  function Deleted(g: Group, key: string): Group {
    g.(live := g.live - {key})
  }

  function Next(w: World, e: Event): World {
    match e
    case Enter(t, key) =>
      if t in w.threads then w
      else
        var (g, stage) := Entered(w.g, t, key);
        World(g, w.threads[t := stage])
    case FnEnds(t, how) =>
      if t in w.threads && w.threads[t].Running? && w.threads[t].call < |w.g.calls|
      then World(Ended(w.g, w.threads[t].call, how), w.threads[t := Finished(w.threads[t].call)]) else w
    case WgDone(t) =>
      if t in w.threads && w.threads[t].Finished? && w.threads[t].call < |w.g.calls|
      then World(DoneSet(w.g, w.threads[t].call), w.threads[t := Woken(w.threads[t].call)]) else w
    case Delete(t) =>
      if t in w.threads && w.threads[t].Woken? && w.threads[t].call < |w.g.calls|
         && w.g.calls[w.threads[t].call].outcome.Some? then
        var c := w.threads[t].call;
        World(Deleted(w.g, w.g.calls[c].key), w.threads[t := Led(c, w.g.calls[c].outcome.value)])
      else w
    case Wake(t) =>
      if t in w.threads && w.threads[t].Waiting? && w.threads[t].call < |w.g.calls| && w.g.calls[w.threads[t].call].done
      then w.(threads := w.threads[t := Joined(w.threads[t].call, w.g.calls[w.threads[t].call].err)]) else w
  }

  function Run(w: World, events: seq<Event>): World
    decreases |events|
  {
    if events == [] then w else Run(Next(w, events[0]), events[1..])
  }

  function Empty(): World {
    World(Group(map[], []), map[])
  }

  // ---------------------------------------------------------------- what every step keeps

  ghost predicate Leading(s: Stage) {
    s.Running? || s.Finished? || s.Woken?
  }

  /** A flight's fields tell how far its leader is. */
  ghost predicate CallFits(w: World, t: nat, s: Stage) {
    s.call < |w.g.calls| &&
    var c := w.g.calls[s.call];
    match s
    case Running(_) => c.leader == t && c.outcome.None? && !c.done
    case Finished(_) => c.leader == t && c.outcome.Some? && !c.done
    case Woken(_) => c.leader == t && c.outcome.Some? && c.done
    case Waiting(_) => c.leader != t
    case Led(_, how) => c.leader == t && c.outcome == Some(how) && c.done
    case Joined(_, err) => c.leader != t && c.done && err == c.err
  }

  /** The error a flight shows is its function's, nil while there is none. */
  ghost predicate ErrFits(c: Call) {
    && c.err == (if c.outcome.Some? && c.outcome.value.Result? then c.outcome.value.err else "")
    && (c.done ==> c.outcome.Some?)
  }

  ghost predicate ThreadsFit(w: World) {
    forall t :: t in w.threads ==> CallFits(w, t, w.threads[t])
  }

  /** Whoever leads a flight is the one in the map. */
  ghost predicate LeadersLive(w: World)
    requires ThreadsFit(w)
  {
    forall t :: t in w.threads && Leading(w.threads[t]) ==> IsLive(w.g, w.threads[t].call)
  }

  ghost predicate IsLive(g: Group, c: nat)
    requires c < |g.calls|
  {
    g.calls[c].key in g.live && g.live[g.calls[c].key] == c
  }

  ghost predicate CallsFit(w: World) {
    forall c :: 0 <= c < |w.g.calls| ==> ErrFits(w.g.calls[c]) && (!w.g.calls[c].done ==> IsLed(w, c))
  }

  ghost predicate IsLed(w: World, c: nat)
    requires c < |w.g.calls|
  {
    w.g.calls[c].leader in w.threads && LeadsCall(w.threads[w.g.calls[c].leader], c)
  }

  ghost predicate Inv(w: World) {
    && ThreadsFit(w)
    && LeadersLive(w)
    && CallsFit(w)
    && (forall k :: k in w.g.live ==> LiveFits(w, k, w.g.live[k]))
  }

  /** A live flight is still led by the caller that made it. */
  ghost predicate LiveFits(w: World, key: string, c: nat) {
    c < |w.g.calls| && w.g.calls[c].key == key && IsLed(w, c)
  }

  ghost predicate LeadsCall(s: Stage, c: nat) {
    Leading(s) && s.call == c
  }

  lemma {:induction false} EnterKeepsInv(w: World, t: nat, key: string)
    requires Inv(w)
    ensures Inv(Next(w, Enter(t, key)))
  {
    var v := Next(w, Enter(t, key));
    if v != w {
      assert key in w.g.live ==> LiveFits(w, key, w.g.live[key]);
      forall u | u in v.threads ensures CallFits(v, u, v.threads[u]) {
        assert u != t ==> CallFits(w, u, w.threads[u]);
      }
      forall u | u in v.threads && Leading(v.threads[u]) ensures IsLive(v.g, v.threads[u].call) {
        assert u != t ==> CallFits(w, u, w.threads[u]) && IsLive(w.g, w.threads[u].call);
      }
      forall c | 0 <= c < |v.g.calls| ensures ErrFits(v.g.calls[c]) && (!v.g.calls[c].done ==> IsLed(v, c)) {
        assert c < |w.g.calls| ==> v.g.calls[c] == w.g.calls[c] && ErrFits(w.g.calls[c]);
      }
      forall k | k in v.g.live ensures LiveFits(v, k, v.g.live[k]) {
        assert k in w.g.live ==> LiveFits(w, k, w.g.live[k]);
      }
    }
  }

  /** The leader `t` of a flight moves on, and only its flight changes. */
  lemma {:induction false} LeaderMovesOn(w: World, v: World, t: nat, s: Stage, call: Call)
    requires Inv(w) && t in w.threads && Leading(w.threads[t]) && w.threads[t].call < |w.g.calls|
    requires Leading(s) && s.call == w.threads[t].call
    requires v == World(Group(w.g.live, w.g.calls[s.call := call]), w.threads[t := s])
    requires call.key == w.g.calls[s.call].key && call.leader == w.g.calls[s.call].leader && ErrFits(call)
    requires w.g.calls[s.call].done ==> call.done && call.err == w.g.calls[s.call].err
    requires CallFits(v, t, s)
    ensures Inv(v)
  {
    var c := s.call;
    assert CallFits(w, t, w.threads[t]) && IsLive(w.g, c);
    forall u | u in v.threads ensures CallFits(v, u, v.threads[u]) {
      assert CallFits(w, u, w.threads[u]);
      if u != t {
        assert Leading(w.threads[u]) ==> w.threads[u].call != c;
      }
    }
    forall u | u in v.threads && Leading(v.threads[u]) ensures IsLive(v.g, v.threads[u].call) {
      assert CallFits(w, u, w.threads[u]) && IsLive(w.g, w.threads[u].call);
    }
    forall d | 0 <= d < |v.g.calls| ensures ErrFits(v.g.calls[d]) && (!v.g.calls[d].done ==> IsLed(v, d)) {
      assert ErrFits(w.g.calls[d]) && (!w.g.calls[d].done ==> IsLed(w, d));
    }
    forall k | k in v.g.live ensures LiveFits(v, k, v.g.live[k]) {
      assert LiveFits(w, k, w.g.live[k]);
    }
  }

  lemma {:induction false} FnEndsKeepsInv(w: World, t: nat, how: Outcome)
    requires Inv(w)
    ensures Inv(Next(w, FnEnds(t, how)))
  {
    var v := Next(w, FnEnds(t, how));
    if v != w {
      var c := w.threads[t].call;
      assert CallFits(w, t, w.threads[t]) && ErrFits(w.g.calls[c]);
      LeaderMovesOn(w, v, t, Finished(c), v.g.calls[c]);
    }
  }

  lemma {:induction false} WgDoneKeepsInv(w: World, t: nat)
    requires Inv(w)
    ensures Inv(Next(w, WgDone(t)))
  {
    var v := Next(w, WgDone(t));
    if v != w {
      var c := w.threads[t].call;
      assert CallFits(w, t, w.threads[t]) && ErrFits(w.g.calls[c]);
      LeaderMovesOn(w, v, t, Woken(c), v.g.calls[c]);
    }
  }

  lemma {:induction false} DeleteKeepsInv(w: World, t: nat)
    requires Inv(w)
    ensures Inv(Next(w, Delete(t)))
  {
    var v := Next(w, Delete(t));
    if v != w {
      var c := w.threads[t].call;
      assert CallFits(w, t, w.threads[t]) && IsLive(w.g, c);
      forall u | u in v.threads ensures CallFits(v, u, v.threads[u]) {
        assert CallFits(w, u, w.threads[u]);
      }
      forall u | u in v.threads && Leading(v.threads[u]) ensures IsLive(v.g, v.threads[u].call) {
        assert u != t && CallFits(w, u, w.threads[u]) && IsLive(w.g, w.threads[u].call);
      }
      forall k | k in v.g.live ensures LiveFits(v, k, v.g.live[k]) {
        assert LiveFits(w, k, w.g.live[k]);
      }
    }
  }

  lemma {:induction false} WakeKeepsInv(w: World, t: nat)
    requires Inv(w)
    ensures Inv(Next(w, Wake(t)))
  {
    var v := Next(w, Wake(t));
    if v != w {
      forall u | u in v.threads ensures CallFits(v, u, v.threads[u]) {
        assert CallFits(w, u, w.threads[u]);
      }
      forall u | u in v.threads && Leading(v.threads[u]) ensures IsLive(v.g, v.threads[u].call) {
        assert u != t && IsLive(w.g, w.threads[u].call);
      }
      forall c | 0 <= c < |v.g.calls| ensures ErrFits(v.g.calls[c]) && (!v.g.calls[c].done ==> IsLed(v, c)) {
        assert !w.g.calls[c].done ==> IsLed(w, c);
      }
      forall k | k in v.g.live ensures LiveFits(v, k, v.g.live[k]) {
        assert LiveFits(w, k, w.g.live[k]);
      }
    }
  }

  lemma {:induction false} StepKeepsInv(w: World, e: Event)
    requires Inv(w)
    ensures Inv(Next(w, e))
  {
    match e {
      case Enter(t, key) => EnterKeepsInv(w, t, key);
      case FnEnds(t, how) => FnEndsKeepsInv(w, t, how);
      case WgDone(t) => WgDoneKeepsInv(w, t);
      case Delete(t) => DeleteKeepsInv(w, t);
      case Wake(t) => WakeKeepsInv(w, t);
    }
  }

  lemma {:induction false} RunKeepsInv(w: World, events: seq<Event>)
    requires Inv(w)
    ensures Inv(Run(w, events))
    decreases |events|
  {
    if events != [] {
      StepKeepsInv(w, events[0]);
      RunKeepsInv(Next(w, events[0]), events[1..]);
    }
  }

  // ---------------------------------------------------------------- the promises

  /** At any moment at most one caller is inside the function, or not yet out of the map, for a key. */
  lemma {:induction false} OneFlightPerKey(events: seq<Event>, t: nat, u: nat)
    requires var w := Run(Empty(), events);
             t in w.threads && u in w.threads && Leading(w.threads[t]) && Leading(w.threads[u])
             && w.threads[t].call < |w.g.calls| && w.threads[u].call < |w.g.calls|
             && w.g.calls[w.threads[t].call].key == w.g.calls[w.threads[u].call].key
    ensures t == u
  {
    RunKeepsInv(Empty(), events);
    var w := Run(Empty(), events);
    assert CallFits(w, t, w.threads[t]) && CallFits(w, u, w.threads[u]);
  }

  /**
    * A joiner has returned only after the leader's function ended. It returns exactly the leader's error when
    * that function returned, and nil when it panicked.
    */
  lemma {:induction false} JoinerGetsLeaderError(events: seq<Event>, t: nat)
    requires var w := Run(Empty(), events); t in w.threads && w.threads[t].Joined?
    ensures var w := Run(Empty(), events);
            var s := w.threads[t];
            && s.call < |w.g.calls| && w.g.calls[s.call].leader != t
            && w.g.calls[s.call].outcome.Some?
            && s.err == match w.g.calls[s.call].outcome.value case Result(e) => e case Panic => ""
  {
    RunKeepsInv(Empty(), events);
    var w := Run(Empty(), events);
    assert CallFits(w, t, w.threads[t]);
    assert ErrFits(w.g.calls[w.threads[t].call]);
  }

  /** A panicking leader leaves its joiner with nil. */
  lemma {:induction false} PanicGivesNil()
    ensures var w := Run(Empty(), [Enter(1, "k"), Enter(2, "k"), FnEnds(1, Panic), WgDone(1), Wake(2)]);
            && 2 in w.threads && w.threads[2] == Joined(0, "")
            && |w.g.calls| == 1 && w.g.calls[0].outcome == Some(Panic)
  {
    var es := [Enter(1, "k"), Enter(2, "k"), FnEnds(1, Panic), WgDone(1), Wake(2)];
    var w1 := Next(Empty(), es[0]);
    var w2 := Next(w1, es[1]);
    var w3 := Next(w2, es[2]);
    var w4 := Next(w3, es[3]);
    assert w2.threads[1] == Running(0) && w2.threads[2] == Waiting(0);
    assert w3.threads[1] == Finished(0) && w3.g.calls[0].err == "";
    assert w4.g.calls[0].done && w4.threads[2] == Waiting(0);
    assert es[1..][1..] == es[2..] && es[2..][1..] == es[3..] && es[3..][1..] == es[4..] && es[4..][1..] == [];
    assert Run(w4, es[4..]) == Next(w4, es[4]);
    assert Run(w3, es[3..]) == Run(w4, es[4..]);
    assert Run(w2, es[2..]) == Run(w3, es[3..]);
    assert Run(w1, es[1..]) == Run(w2, es[2..]);
  }

  ghost predicate SameOutcome(a: Group, b: Group, c: nat)
    requires c < |a.calls|
  {
    c < |b.calls| && b.calls[c].outcome == a.calls[c].outcome && b.calls[c].err == a.calls[c].err
  }

  lemma {:induction false} StepKeepsOutcome(w: World, e: Event, c: nat)
    requires Inv(w) && c < |w.g.calls| && w.g.calls[c].outcome.Some?
    ensures SameOutcome(w.g, Next(w, e).g, c)
  {
    if e.FnEnds? && e.thread in w.threads {
      assert CallFits(w, e.thread, w.threads[e.thread]);
    }
  }

  /** Once a flight's function has ended, what its joiners read never changes. */
  lemma {:induction false} OutcomeIsFinal(w: World, events: seq<Event>, c: nat)
    requires Inv(w) && c < |w.g.calls| && w.g.calls[c].outcome.Some?
    ensures SameOutcome(w.g, Run(w, events).g, c)
    decreases |events|
  {
    if events != [] {
      StepKeepsInv(w, events[0]);
      StepKeepsOutcome(w, events[0], c);
      OutcomeIsFinal(Next(w, events[0]), events[1..], c);
    }
  }

  /** Nobody waits for a flight that nobody flies: it is done, or its leader is still on the way. */
  lemma {:induction false} WaiterIsServed(events: seq<Event>, t: nat)
    requires var w := Run(Empty(), events); t in w.threads && w.threads[t].Waiting?
    ensures var w := Run(Empty(), events);
            var c := w.threads[t].call;
            && c < |w.g.calls|
            && (w.g.calls[c].done ||
                (w.g.calls[c].leader in w.threads && LeadsCall(w.threads[w.g.calls[c].leader], c)))
  {
    RunKeepsInv(Empty(), events);
    var w := Run(Empty(), events);
    assert CallFits(w, t, w.threads[t]);
  }

  /** A caller that arrives after `wg.Done` and before the map delete joins the ended flight and starts none. */
  lemma {:induction false} LateArrivalJoins(events: seq<Event>, leader: nat, late: nat)
    requires var w := Run(Empty(), events);
             leader in w.threads && w.threads[leader].Woken? && late !in w.threads
             && w.threads[leader].call < |w.g.calls|
    ensures var w := Run(Empty(), events);
            var c := w.threads[leader].call;
            var v := Next(Next(w, Enter(late, w.g.calls[c].key)), Wake(late));
            && late in v.threads && v.threads[late] == Joined(c, w.g.calls[c].err)
            && v.g == w.g
  {
    RunKeepsInv(Empty(), events);
    var w := Run(Empty(), events);
    assert CallFits(w, leader, w.threads[leader]);
  }

  /** A caller that finds no live flight runs the function, returns as it ended, and leaves the map as it was. */
  lemma {:induction false} FlightCompletes(events: seq<Event>, t: nat, key: string, how: Outcome)
    requires var w := Run(Empty(), events); t !in w.threads && key !in w.g.live
    ensures var w := Run(Empty(), events);
            var v := Next(Next(Next(Next(w, Enter(t, key)), FnEnds(t, how)), WgDone(t)), Delete(t));
            && t in v.threads && v.threads[t] == Led(|w.g.calls|, how)
            && v.g.live == w.g.live && |v.g.calls| == |w.g.calls| + 1
            && v.g.calls[..|w.g.calls|] == w.g.calls
  {
    var w := Run(Empty(), events);
    var v := Next(Next(Next(Next(w, Enter(t, key)), FnEnds(t, how)), WgDone(t)), Delete(t));
    assert v.g.live == w.g.live[key := |w.g.calls|] - {key};
  }

  // ---------------------------------------------------------------- the object

  /** `initFlight`: the lock-held sections of `Do`. */
  class InitFlight {
    var live: map<string, nat>
    var calls: seq<Call>

    ghost function State(): Group
      reads this
    {
      Group(live, calls)
    }

    constructor ()
      ensures State() == Empty().g
    {
      live, calls := map[], [];
    }

    method Start(thread: nat, key: string) returns (stage: Stage)
      modifies this
      ensures (State(), stage) == Entered(old(State()), thread, key)
    {
      if key in live {
        return Waiting(live[key]);
      }
      stage := Running(|calls|);
      live := live[key := |calls|];
      calls := calls + [Call(key, thread, None, "", false)];
    }

    method SetResult(c: nat, how: Outcome)
      requires c < |calls|
      modifies this
      ensures State() == Ended(old(State()), c, how)
    {
      calls := calls[c := calls[c].(outcome := Some(how))];
      if how.Result? {
        calls := calls[c := calls[c].(err := how.err)];
      }
    }

    method Done(c: nat)
      requires c < |calls|
      modifies this
      ensures State() == DoneSet(old(State()), c)
    {
      calls := calls[c := calls[c].(done := true)];
    }

    method Remove(key: string)
      modifies this
      ensures State() == Deleted(old(State()), key)
    {
      live := live - {key};
    }
  }
}
