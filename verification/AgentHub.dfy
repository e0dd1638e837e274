/**
  * The agent hub of server/internal/agenthub/hub.go: who owns the connection, and the single-slot waiter that
  * RequestFetch and RequestCatalogPush both use. Every lock-held section, send and receive is one step.
  */
module AgentHub {
  import opened Text

  /** A request's progress. Its id is also its channel. `Checked` has found the hub online and not yet the slot. */
  datatype Req =
    | Checked
    | Waiting
    | Exiting(status: string)
    | Returned(status: string)
    | Refused(status: string, owner: Option<nat>)

  /** A completion that has taken a channel out of the slot and not yet sent on it. */
  datatype Sending = Sending(chan: nat, value: string)

  /** What the hub's two locks guard: the live connection, and fetchWait or catalogWait. */
  datatype Fields = Fields(conn: Option<nat>, online: bool, slot: Option<nat>)

  datatype Hub = Hub(
    f: Fields,
    accepted: seq<nat>,          // every connection, oldest first
    serving: set<nat>,           // connections whose read loop has not ended
    closing: set<nat>,           // connections about to fail the waiter
    reqs: map<nat, Req>,
    sending: map<nat, Sending>,  // completions in flight
    buffer: map<nat, string>,    // the one-element channel buffers that are full
    sent: seq<Sending>,          // every successful send
    lost: nat,                   // sends that found the buffer full
    next: nat)

  datatype Event =
    | Connect
    | Close(conn: nat)
    | Fails(conn: nat)
    | Request
    | Claims(req: nat)
    | WriteFails(req: nat)
    | TimesOut(req: nat)
    | Receives(req: nat)
    | Releases(req: nat)
    | Takes(value: string)
    | Sends(completion: nat)

  function Empty(): Hub {
    Hub(Fields(None, false, None), [], {}, {}, map[], map[], map[], [], 0, 0)
  }

  // ---------------------------------------------------------------- lock-held sections

  function Attached(f: Fields, c: nat): Fields {
    f.(conn := Some(c), online := true)
  }

  /** Only the live connection is marked offline. */
  function Detached(f: Fields, c: nat): Fields {
    if f.conn == Some(c) then f.(conn := None, online := false) else f
  }

  /** The slot goes to the request, or the request is told "busy". */
  function Claimed(f: Fields, ch: nat): Fields {
    if f.slot.Some? then f else f.(slot := Some(ch))
  }

  function Freed(f: Fields, ch: nat): Fields {
    if f.slot == Some(ch) then f.(slot := None) else f
  }

  // ---------------------------------------------------------------- steps

  /** A completion takes whatever channel is in the slot. */
  function Taken(h: Hub, value: string): Hub {
    match h.f.slot
    case None => h
    case Some(ch) =>
      h.(f := h.f.(slot := None), sending := h.sending[h.next := Sending(ch, value)], next := h.next + 1)
  }

  /** The deferred part of ServeWS, first section. */
  function Closed(h: Hub, c: nat): Hub {
    if c in h.serving
    then h.(f := Detached(h.f, c), serving := h.serving - {c}, closing := h.closing + {c}) else h
  }

  /** The deferred part of ServeWS, second section: any close fails the waiter. */
  function Failed(h: Hub, c: nat): Hub {
    if c in h.closing then Taken(h.(closing := h.closing - {c}), "agent_offline") else h
  }

  function Claim(h: Hub, r: nat): Hub {
    if r in h.reqs && h.reqs[r].Checked? then
      h.(f := Claimed(h.f, r), reqs := h.reqs[r := if h.f.slot.Some? then Refused("busy", h.f.slot) else Waiting])
    else h
  }

  function Released(h: Hub, r: nat): Hub {
    if r in h.reqs && h.reqs[r].Exiting?
    then h.(f := Freed(h.f, r), reqs := h.reqs[r := Returned(h.reqs[r].status)]) else h
  }

  /** The non-blocking send. */
  function Sent(h: Hub, k: nat): Hub {
    if k !in h.sending then h
    else
      var s := h.sending[k];
      var g := h.(sending := h.sending - {k});
      if s.chan in h.buffer then g.(lost := h.lost + 1)
      else g.(buffer := h.buffer[s.chan := s.value], sent := h.sent + [s])
  }

  function Next(h: Hub, e: Event): Hub {
    match e
    case Connect =>
      h.(f := Attached(h.f, h.next), accepted := h.accepted + [h.next], serving := h.serving + {h.next},
         next := h.next + 1)
    case Close(c) => Closed(h, c)
    case Fails(c) => Failed(h, c)
    case Request =>
      h.(reqs := h.reqs[h.next := if h.f.online then Checked else Refused("agent_offline", None)], next := h.next + 1)
    case Claims(r) => Claim(h, r)
    case WriteFails(r) =>
      if r in h.reqs && h.reqs[r].Waiting? then h.(reqs := h.reqs[r := Exiting("agent_offline")]) else h
    case TimesOut(r) =>
      if r in h.reqs && h.reqs[r].Waiting? then h.(reqs := h.reqs[r := Exiting("timeout")]) else h
    case Receives(r) =>
      if r in h.reqs && h.reqs[r].Waiting? && r in h.buffer
      then h.(reqs := h.reqs[r := Exiting(h.buffer[r])], buffer := h.buffer - {r}) else h
    case Releases(r) => Released(h, r)
    case Takes(value) => Taken(h, value)
    case Sends(k) => Sent(h, k)
  }

  function Run(h: Hub, events: seq<Event>): Hub
    decreases |events|
  {
    if events == [] then h else Run(Next(h, events[0]), events[1..])
  }

  // ---------------------------------------------------------------- what every step keeps

  /** The request has had the slot and has not given up its claim to it. */
  ghost predicate Owns(h: Hub, r: nat) {
    r in h.reqs && (h.reqs[r].Waiting? || h.reqs[r].Exiting?)
  }

  ghost predicate WasSent(h: Hub, ch: nat) {
    exists i :: 0 <= i < |h.sent| && h.sent[i].chan == ch
  }

  ghost predicate BeingSent(h: Hub, ch: nat) {
    exists k :: k in h.sending && h.sending[k].chan == ch
  }

  /** The slot's channel belongs to a request in progress and nothing was or is being sent on it. */
  ghost predicate SlotOwned(h: Hub) {
    h.f.slot.Some? ==>
      && Owns(h, h.f.slot.value) && !WasSent(h, h.f.slot.value)
      && !BeingSent(h, h.f.slot.value)
  }

  ghost predicate SendingFresh(h: Hub) {
    && (forall k :: k in h.sending ==> k < h.next && HasHadSlot(h, h.sending[k].chan) && !WasSent(h, h.sending[k].chan))
    && (forall j, k :: j in h.sending && k in h.sending && j != k ==> h.sending[j].chan != h.sending[k].chan)
  }

  ghost predicate HasHadSlot(h: Hub, r: nat) {
    r in h.reqs && !h.reqs[r].Checked? && !h.reqs[r].Refused?
  }

  ghost predicate SentOnce(h: Hub) {
    && (forall i, j :: 0 <= i < j < |h.sent| ==> h.sent[i].chan != h.sent[j].chan)
    && (forall i :: 0 <= i < |h.sent| ==> HasHadSlot(h, h.sent[i].chan))
    && (forall ch :: ch in h.buffer ==> WasSent(h, ch))
    && h.lost == 0
  }

  ghost predicate IdsFit(h: Hub) {
    && (forall r :: r in h.reqs ==> r < h.next)
    && (forall c :: c in h.serving ==> c < h.next)
  }

  /** A waiting request still has its slot, or a result is on the way to it or there. */
  ghost predicate Served(h: Hub, r: nat) {
    h.f.slot == Some(r) || BeingSent(h, r) || r in h.buffer
  }

  ghost predicate AllServed(h: Hub) {
    forall r :: r in h.reqs && h.reqs[r].Waiting? ==> Served(h, r)
  }

  /** The connection accepted last, while its read loop is running. */
  function Newest(h: Hub): Option<nat> {
    if h.accepted != [] && h.accepted[|h.accepted| - 1] in h.serving then Some(h.accepted[|h.accepted| - 1]) else None
  }

  ghost predicate ConnFits(h: Hub) {
    h.f.conn == Newest(h) && (h.f.online <==> Newest(h).Some?)
  }

  ghost predicate Inv(h: Hub) {
    SlotOwned(h) && SendingFresh(h) && SentOnce(h) && IdsFit(h) && AllServed(h) && ConnFits(h)
  }

  lemma {:induction false} TakenKeepsInv(h: Hub, value: string)
    requires Inv(h)
    ensures Inv(Taken(h, value))
  {
    var g := Taken(h, value);
    if h.f.slot.Some? {
      var ch := h.f.slot.value;
      assert forall x :: WasSent(g, x) <==> WasSent(h, x);
      assert g.sending[h.next].chan == ch;
      forall x ensures BeingSent(g, x) <==> BeingSent(h, x) || x == ch {
        if BeingSent(h, x) {
          var k :| k in h.sending && h.sending[k].chan == x;
          assert k in g.sending && g.sending[k].chan == x;
        }
      }
    }
  }

  lemma {:induction false} SentKeepsInv(h: Hub, k: nat)
    requires Inv(h)
    ensures Inv(Sent(h, k))
  {
    var g := Sent(h, k);
    if k in h.sending {
      var s := h.sending[k];
      assert s.chan !in h.buffer;
      assert BeingSent(h, s.chan);
      forall ch ensures WasSent(g, ch) <==> WasSent(h, ch) || ch == s.chan {
        assert g.sent[|h.sent|].chan == s.chan;
        if WasSent(h, ch) {
          var i :| 0 <= i < |h.sent| && h.sent[i].chan == ch;
          assert g.sent[i].chan == ch;
        }
      }
      forall ch ensures BeingSent(g, ch) <==> BeingSent(h, ch) && ch != s.chan {
        if BeingSent(h, ch) && ch != s.chan {
          var j :| j in h.sending && h.sending[j].chan == ch;
          assert j in g.sending && g.sending[j].chan == ch;
        }
      }
    }
  }

  lemma {:induction false} ClosedKeepsInv(h: Hub, c: nat)
    requires Inv(h)
    ensures Inv(Closed(h, c))
  {
    SameTraffic(h, Closed(h, c));
  }

  lemma {:induction false} FailedKeepsInv(h: Hub, c: nat)
    requires Inv(h)
    ensures Inv(Failed(h, c))
  {
    var g := h.(closing := h.closing - {c});
    SameTraffic(h, g);
    TakenKeepsInv(g, "agent_offline");
  }

  lemma {:induction false} SameTraffic(h: Hub, g: Hub)
    requires h.sent == g.sent && h.sending == g.sending
    ensures forall ch :: (WasSent(g, ch) <==> WasSent(h, ch)) && (BeingSent(g, ch) <==> BeingSent(h, ch))
  {
  }

  /** A request that changes its stage keeps the others as well served as they were. */
  lemma {:induction false} OthersStayServed(h: Hub, g: Hub, r: nat)
    requires AllServed(h) && h.sending == g.sending && r in h.reqs && r in g.reqs
    requires g.reqs == h.reqs[r := g.reqs[r]] && (g.reqs[r].Waiting? ==> Served(g, r))
    requires g.f.slot == h.f.slot || (g.f.slot == None && h.f.slot == Some(r)) || h.f.slot == None
    requires g.buffer == h.buffer || g.buffer == h.buffer - {r}
    ensures AllServed(g)
  {
    SameSending(h, g);
    forall x | x in g.reqs && g.reqs[x].Waiting? ensures Served(g, x) {
      assert x != r ==> h.reqs[x].Waiting? && Served(h, x);
    }
  }

  lemma {:induction false} SameSending(h: Hub, g: Hub)
    requires h.sending == g.sending
    ensures forall ch :: BeingSent(g, ch) <==> BeingSent(h, ch)
  {
  }

  lemma {:induction false} ClaimKeepsInv(h: Hub, r: nat)
    requires Inv(h)
    ensures Inv(Claim(h, r))
  {
    var g := Claim(h, r);
    SameTraffic(h, g);
    if r in h.reqs && h.reqs[r].Checked? {
      assert !WasSent(h, r) && !BeingSent(h, r);
      OthersStayServed(h, g, r);
      assert forall x :: HasHadSlot(h, x) ==> HasHadSlot(g, x);
      assert forall x :: Owns(h, x) ==> Owns(g, x);
    }
  }

  lemma {:induction false} ReleasedKeepsInv(h: Hub, r: nat)
    requires Inv(h)
    ensures Inv(Released(h, r))
  {
    var g := Released(h, r);
    SameTraffic(h, g);
    if r in h.reqs && h.reqs[r].Exiting? {
      OthersStayServed(h, g, r);
      assert forall x :: HasHadSlot(g, x) <==> HasHadSlot(h, x);
      assert forall x :: x != r ==> (Owns(g, x) <==> Owns(h, x));
    }
  }

  /** A request stops waiting: it got its result, timed out, or could not write. */
  lemma {:induction false} LeavingKeepsInv(h: Hub, g: Hub, r: nat, status: string)
    requires Inv(h) && r in h.reqs && h.reqs[r].Waiting?
    requires g == h.(reqs := h.reqs[r := Exiting(status)], buffer := g.buffer)
    requires g.buffer == h.buffer || g.buffer == h.buffer - {r}
    ensures Inv(g)
  {
    SameTraffic(h, g);
    OthersStayServed(h, g, r);
    assert forall x :: HasHadSlot(g, x) <==> HasHadSlot(h, x);
    assert forall x :: Owns(g, x) <==> Owns(h, x);
  }

  lemma {:induction false} ConnectKeepsInv(h: Hub)
    requires Inv(h)
    ensures Inv(Next(h, Connect))
  {
    SameTraffic(h, Next(h, Connect));
  }

  lemma {:induction false} RequestKeepsInv(h: Hub)
    requires Inv(h)
    ensures Inv(Next(h, Request))
  {
    var g := Next(h, Request);
    SameTraffic(h, g);
    assert h.next !in h.reqs;
    assert forall x :: HasHadSlot(g, x) <==> HasHadSlot(h, x);
    assert forall x :: Owns(g, x) <==> Owns(h, x);
    forall x | x in g.reqs && g.reqs[x].Waiting? ensures Served(g, x) {
      assert Served(h, x);
    }
  }

  lemma {:induction false} ProgressKeepsInv(h: Hub, e: Event)
    requires Inv(h) && (e.WriteFails? || e.TimesOut? || e.Receives?)
    ensures Inv(Next(h, e))
  {
    var g := Next(h, e);
    if g != h {
      LeavingKeepsInv(h, g, e.req, g.reqs[e.req].status);
    }
  }

  lemma {:induction false} StepKeepsInv(h: Hub, e: Event)
    requires Inv(h)
    ensures Inv(Next(h, e))
  {
    match e {
      case Close(c) => ClosedKeepsInv(h, c);
      case Fails(c) => FailedKeepsInv(h, c);
      case Takes(value) => TakenKeepsInv(h, value);
      case Sends(k) => SentKeepsInv(h, k);
      case Claims(r) => ClaimKeepsInv(h, r);
      case Releases(r) => ReleasedKeepsInv(h, r);
      case Connect => ConnectKeepsInv(h);
      case Request => RequestKeepsInv(h);
      case _ => ProgressKeepsInv(h, e);
    }
  }

  lemma {:induction false} RunKeepsInv(h: Hub, events: seq<Event>)
    requires Inv(h)
    ensures Inv(Run(h, events))
    decreases |events|
  {
    if events != [] {
      StepKeepsInv(h, events[0]);
      RunKeepsInv(Next(h, events[0]), events[1..]);
    }
  }

  // ---------------------------------------------------------------- the promises

  /** In every run each waiter channel gets at most one result, and no result is thrown away by a full buffer. */
  lemma {:induction false} AtMostOneResult(events: seq<Event>)
    ensures var h := Run(Empty(), events);
            && (forall i, j :: 0 <= i < j < |h.sent| ==> h.sent[i].chan != h.sent[j].chan)
            && h.lost == 0 && (forall k :: k in h.sending ==> h.sending[k].chan !in h.buffer)
  {
    RunKeepsInv(Empty(), events);
  }

  /** A request is told "busy" exactly while another request that has not returned owns the slot. */
  lemma {:induction false} BusyMeansOwned(events: seq<Event>, r: nat)
    requires var h := Run(Empty(), events); r in h.reqs && h.reqs[r].Checked?
    ensures var h := Run(Empty(), events);
            var g := Next(h, Claims(r));
            && r in g.reqs
            && (g.reqs[r] == Refused("busy", h.f.slot) <==> exists q :: q != r && h.f.slot == Some(q) && Owns(h, q))
            && (g.reqs[r].Waiting? <==> g.f.slot == Some(r))
  {
    RunKeepsInv(Empty(), events);
    var h := Run(Empty(), events);
    assert h.f.slot.Some? ==> h.f.slot.value != r && Owns(h, h.f.slot.value);
  }

  /**
    * In every run a waiting request still has its slot, or one result is on its way to it, or there: exactly one of
    * the three. So nobody else's release, close or completion ever strands it; and a request that has returned never
    * holds the slot.
    */
  lemma {:induction false} NoWaiterIsStranded(events: seq<Event>, r: nat)
    requires r in Run(Empty(), events).reqs
    ensures var h := Run(Empty(), events);
            && (h.reqs[r].Waiting? ==>
                  && Served(h, r)
                  && !(h.f.slot == Some(r) && BeingSent(h, r))
                  && !(h.f.slot == Some(r) && r in h.buffer)
                  && !(BeingSent(h, r) && r in h.buffer))
            && (!Owns(h, r) ==> h.f.slot != Some(r))
  {
    RunKeepsInv(Empty(), events);
  }

  /** A result that is on its way is what the request returns, if it is still waiting when it comes. */
  lemma {:induction false} ResultArrives(events: seq<Event>, k: nat)
    requires var h := Run(Empty(), events);
             k in h.sending && h.sending[k].chan in h.reqs && h.reqs[h.sending[k].chan].Waiting?
    ensures var h := Run(Empty(), events);
            var r := h.sending[k].chan;
            var g := Run(h, [Sends(k), Receives(r), Releases(r)]);
            r in g.reqs && g.reqs[r] == Returned(h.sending[k].value) && g.buffer == h.buffer - {r}
  {
    var h := Run(Empty(), events);
    RunKeepsInv(Empty(), events);
    Delivers(h, k);
  }

  lemma {:induction false} Delivers(h: Hub, k: nat)
    requires Inv(h) && k in h.sending && h.sending[k].chan in h.reqs && h.reqs[h.sending[k].chan].Waiting?
    ensures var r := h.sending[k].chan;
            var g := Run(h, [Sends(k), Receives(r), Releases(r)]);
            r in g.reqs && g.reqs[r] == Returned(h.sending[k].value) && g.buffer == h.buffer - {r}
  {
    var r := h.sending[k].chan;
    RunThree(h, Sends(k), Receives(r), Releases(r));
    assert r !in h.buffer;
    var a := Next(h, Sends(k));
    assert r in a.buffer && a.buffer[r] == h.sending[k].value;
  }

  /**
    * In every run the hub is online exactly while the read loop of the newest connection runs, and that connection
    * is the live one. So the end of an older connection changes neither, and the end of the newest takes the hub
    * offline.
    */
  lemma {:induction false} NewestConnectionDecides(events: seq<Event>, c: nat)
    ensures var h := Run(Empty(), events);
            && (h.f.online <==> h.accepted != [] && h.accepted[|h.accepted| - 1] in h.serving)
            && (h.f.online ==> h.f.conn == Some(h.accepted[|h.accepted| - 1]))
            && (!h.f.online ==> h.f.conn == None)
    ensures var h := Run(Empty(), events);
            var g := Next(h, Close(c));
            c in h.serving && h.accepted != [] ==>
              if c == h.accepted[|h.accepted| - 1] then !g.f.online && g.f.conn == None
              else g.f.online == h.f.online && g.f.conn == h.f.conn
  {
    RunKeepsInv(Empty(), events);
  }

  /** No request, slot, buffer or completion in flight is touched. */
  ghost predicate Undisturbed(h: Hub, g: Hub) {
    g.f.slot == h.f.slot && g.sending == h.sending && g.buffer == h.buffer && g.reqs == h.reqs
  }

  /**
    * When the close of a superseded connection is harmless. In every run, for a connection that is not the live one:
    * its close leaves the live connection alone, leaves every request alone if and only if the slot is empty, and
    * turns away the request in the slot and no other.
    */
  lemma {:induction false} SupersededCloseIsHarmlessIff(events: seq<Event>, c: nat)
    requires var h := Run(Empty(), events); c in h.serving && h.f.conn != Some(c)
    ensures var h := Run(Empty(), events);
            var g := Next(Next(h, Close(c)), Fails(c));
            && g.f.conn == h.f.conn && g.f.online == h.f.online
            && (Undisturbed(h, g) <==> h.f.slot.None?)
            && (forall q: nat :: TurnedAway(g, q) <==> TurnedAway(h, q) || h.f.slot == Some(q))
  {
    var h := Run(Empty(), events);
    RunKeepsInv(Empty(), events);
    ClosedKeepsInv(h, c);
    OnlyTheOwnerMoves(Next(h, Close(c)), c);
  }

  /** "agent_offline" is on its way to the request. */
  ghost predicate TurnedAway(h: Hub, r: nat) {
    exists k :: k in h.sending && h.sending[k] == Sending(r, "agent_offline")
  }

  /**
    * And whom it fails otherwise: the request in the slot, if and only if it is still waiting. Left to itself that
    * request returns "agent_offline", every other waiting request is served as before, and none changes. The request
    * may have been made between the two sections of the close.
    */
  lemma {:induction false} CloseFailsTheSlotOwner(events: seq<Event>, c: nat)
    requires var h := Run(Empty(), events); c in h.closing && h.f.slot.Some?
    ensures var h := Run(Empty(), events);
            var r, g := h.f.slot.value, Next(h, Fails(c));
            && g.f.conn == h.f.conn && g.f.online == h.f.online && g.reqs == h.reqs
            && (forall q :: q != r ==> (Served(g, q) <==> Served(h, q)))
            && r in h.reqs && r in Outcome(g, h.next, r)
            && Outcome(g, h.next, r)[r]
               == Returned(if h.reqs[r].Exiting? then h.reqs[r].status else "agent_offline")
            && (h.reqs[r].Waiting? || h.reqs[r].Exiting?)
  {
    var h := Run(Empty(), events);
    RunKeepsInv(Empty(), events);
    FailedKeepsInv(h, c);
    OnlyTheOwnerMoves(h, c);
    var r := h.f.slot.value;
    assert Owns(h, r);
    if h.reqs[r].Waiting? {
      Delivers(Next(h, Fails(c)), h.next);
    } else {
      TooLate(Next(h, Fails(c)), h.next, r);
    }
  }

  /** The requests once completion `k` has sent, and request `r` has received and released what it can. */
  function Outcome(h: Hub, k: nat, r: nat): map<nat, Req> {
    Run(h, [Sends(k), Receives(r), Releases(r)]).reqs
  }

  lemma {:induction false} TooLate(h: Hub, k: nat, r: nat)
    requires r in h.reqs && h.reqs[r].Exiting?
    ensures r in Outcome(h, k, r) && Outcome(h, k, r)[r] == Returned(h.reqs[r].status)
  {
    RunThree(h, Sends(k), Receives(r), Releases(r));
  }

  lemma {:induction false} OnlyTheOwnerMoves(h: Hub, c: nat)
    requires Inv(h) && c in h.closing
    ensures forall q: nat :: h.f.slot != Some(q) ==> (Served(Next(h, Fails(c)), q) <==> Served(h, q))
    ensures forall q: nat :: TurnedAway(Next(h, Fails(c)), q) <==> TurnedAway(h, q) || h.f.slot == Some(q)
  {
    var g := Next(h, Fails(c));
    forall q: nat ensures h.f.slot != Some(q) ==> (BeingSent(g, q) <==> BeingSent(h, q)) {
      if BeingSent(h, q) {
        var j :| j in h.sending && h.sending[j].chan == q;
        assert j in g.sending && g.sending[j].chan == q;
      }
    }
    forall q: nat ensures TurnedAway(g, q) <==> TurnedAway(h, q) || h.f.slot == Some(q) {
      if TurnedAway(h, q) {
        var j :| j in h.sending && h.sending[j] == Sending(q, "agent_offline");
        assert j in g.sending && g.sending[j] == Sending(q, "agent_offline");
      }
      if h.f.slot == Some(q) {
        assert g.sending[h.next] == Sending(q, "agent_offline");
      }
    }
  }

  /** For instance, a request made on the second connection is told "agent_offline" though the hub never went offline. */
  lemma {:induction false} SupersededCloseFailsLiveRequest()
    ensures var h := Run(Empty(), [Connect, Connect, Request, Claims(2), Close(0)]);
            var g := Next(h, Fails(0));
            && h.f.online && h.f.conn == Some(1) && 2 in h.reqs && h.reqs[2] == Waiting
            && g.f.online && g.f.conn == Some(1)
            && 2 in Outcome(g, 3, 2) && Outcome(g, 3, 2)[2] == Returned("agent_offline")
  {
    var events := [Connect, Connect, Request, Claims(2), Close(0)];
    var b := Next(Next(Empty(), Connect), Connect);
    RunThree(Next(Next(Empty(), Connect), Connect), Request, Claims(2), Close(0));
    assert events[1..][1..] == [Request, Claims(2), Close(0)];
    assert Run(Empty(), events) == Run(Next(Empty(), Connect), events[1..]) == Run(b, events[1..][1..]);
    CloseFailsTheSlotOwner(events, 0);
  }

  /** A request is refused exactly while no read loop of the newest connection runs. */
  lemma {:induction false} OfflineRefuses(events: seq<Event>)
    ensures var h := Run(Empty(), events);
            var g := Next(h, Request);
            && h.next !in h.reqs && h.next in g.reqs
            && g.reqs[h.next] == if h.accepted != [] && h.accepted[|h.accepted| - 1] in h.serving then Checked
                                 else Refused("agent_offline", None)
  {
    RunKeepsInv(Empty(), events);
  }

  /** A waiting request that cannot write or waits too long says so, and no longer has the slot. */
  lemma {:induction false} GivingUpFreesTheSlot(events: seq<Event>, r: nat, timeout: bool)
    requires var h := Run(Empty(), events); r in h.reqs && h.reqs[r].Waiting?
    ensures var h := Run(Empty(), events);
            var g := Next(Next(h, if timeout then TimesOut(r) else WriteFails(r)), Releases(r));
            && r in g.reqs && g.reqs[r] == Returned(if timeout then "timeout" else "agent_offline")
            && g.f.slot == if h.f.slot == Some(r) then None else h.f.slot
  {
    RunKeepsInv(Empty(), events);
  }

  /** With the agent online and the slot empty, a request returns the first completion's value and leaves the slot empty. */
  lemma {:induction false} RequestCompletes(events: seq<Event>, value: string)
    requires var h := Run(Empty(), events); h.f.online && h.f.slot.None?
    ensures var h := Run(Empty(), events);
            var g := Run(h, [Request, Claims(h.next), Takes(value)]);
            var v := Run(g, [Sends(h.next + 1), Receives(h.next), Releases(h.next)]);
            v.f == h.f && h.next in v.reqs && v.reqs[h.next] == Returned(value)
  {
    RunKeepsInv(Empty(), events);
    CompletesFrom(Run(Empty(), events), value);
  }

  lemma {:induction false} CompletesFrom(h: Hub, value: string)
    requires Inv(h) && h.f.online && h.f.slot.None?
    ensures var g := Run(h, [Request, Claims(h.next), Takes(value)]);
            var v := Run(g, [Sends(h.next + 1), Receives(h.next), Releases(h.next)]);
            v.f == h.f && h.next in v.reqs && v.reqs[h.next] == Returned(value)
  {
    var g := Run(h, [Request, Claims(h.next), Takes(value)]);
    RunKeepsInv(h, [Request, Claims(h.next), Takes(value)]);
    RequestIsTaken(h, value);
    Delivers(g, h.next + 1);
    SlotStaysEmpty(g, h.next + 1, h.next);
  }

  lemma {:induction false} RequestIsTaken(h: Hub, value: string)
    requires h.f.online && h.f.slot.None?
    ensures var g := Run(h, [Request, Claims(h.next), Takes(value)]);
            && g.f == h.f && h.next in g.reqs && g.reqs[h.next] == Waiting
            && h.next + 1 in g.sending && g.sending[h.next + 1] == Sending(h.next, value)
  {
    RunThree(h, Request, Claims(h.next), Takes(value));
    var a := Next(h, Request);
    var b := Next(a, Claims(h.next));
    assert b.f.slot == Some(h.next) && b.next == h.next + 1;
  }

  lemma {:induction false} SlotStaysEmpty(h: Hub, k: nat, r: nat)
    requires h.f.slot.None?
    ensures Run(h, [Sends(k), Receives(r), Releases(r)]).f == h.f
  {
    RunThree(h, Sends(k), Receives(r), Releases(r));
  }

  lemma {:induction false} RunThree(h: Hub, x: Event, y: Event, z: Event)
    ensures Run(h, [x, y, z]) == Next(Next(Next(h, x), y), z)
  {
    assert [x, y, z][1..] == [y, z] && [y, z][1..] == [z] && [z][1..] == [];
    assert Run(h, [x, y, z]) == Run(Next(h, x), [y, z]) == Run(Next(Next(h, x), y), [z]);
  }

  // ---------------------------------------------------------------- the object

  /** The hub's fields, and the sections that run under its locks. */
  class Server {
    var conn: Option<nat>
    var online: bool
    var slot: Option<nat>

    ghost function State(): Fields
      reads this
    {
      Fields(conn, online, slot)
    }

    constructor ()
      ensures State() == Empty().f
    {
      conn, online, slot := None, false, None;
    }

    /** A new connection replaces the live one. */
    method Attach(c: nat)
      modifies this
      ensures State() == Attached(old(State()), c)
    {
      conn := Some(c);
      online := true;
    }

    /** The end of a connection; `cleared` says that it was the live one. */
    method Detach(c: nat) returns (cleared: bool)
      modifies this
      ensures State() == Detached(old(State()), c)
      ensures cleared <==> State() != old(State())
    {
      cleared := false;
      if conn == Some(c) {
        conn := None;
        online := false;
        cleared := true;
      }
    }

    /** Puts the request's channel in the slot, or reports busy. */
    method Acquire(ch: nat) returns (busy: bool)
      modifies this
      ensures State() == Claimed(old(State()), ch)
      ensures busy <==> old(slot).Some?
    {
      if slot.Some? {
        return true;
      }
      slot := Some(ch);
      busy := false;
    }

    method Release(ch: nat)
      modifies this
      ensures State() == Freed(old(State()), ch)
    {
      if slot == Some(ch) {
        slot := None;
      }
    }

    /** What a completion takes out of the slot, before it sends. */
    method Take() returns (ch: Option<nat>)
      modifies this
      ensures State() == old(State()).(slot := None) && ch == old(slot)
    {
      ch := slot;
      slot := None;
    }
  }
}
