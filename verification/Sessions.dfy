/**
  * Browser sessions of server/internal/auth: the coalescing touch gate, the sliding idle deadline and the
  * absolute expiry. Clock readings are nanoseconds; deadlines are stored in whole seconds.
  */
module Sessions {

  const SECOND: int := 1_000_000_000

  /** `time.Time.Unix`. */
  function Unix(t: int): int {
    t / SECOND
  }

  lemma {:induction false} UnixMonotone(a: int, b: int)
    requires a <= b
    ensures Unix(a) <= Unix(b)
  {
  }

  // ---------------------------------------------------------------- the touch gate

  const CROWDED: nat := 1024

  function Stale(last: map<string, int>, interval: int, now: int): set<string> {
    set k | k in last && now - last[k] >= interval
  }

  /** `due`: at most one write per key and interval; a crowded gate forgets stale keys. */
  function Due(last: map<string, int>, interval: int, key: string, now: int): (map<string, int>, bool) {
    if key in last && now - last[key] < interval then (last, false)
    else
      var kept := if |last| > CROWDED then last - Stale(last, interval, now) else last;
      (kept[key := now], true)
  }

  /** The gate that never forgets. */
  function DueFull(last: map<string, int>, interval: int, key: string, now: int): (map<string, int>, bool) {
    if key in last && now - last[key] < interval then (last, false) else (last[key := now], true)
  }

  /** The forgetful gate knows less, and only what no longer matters is missing. */
  ghost predicate Forgets(last: map<string, int>, full: map<string, int>, interval: int, t: int) {
    && (forall k :: k in last ==> k in full && full[k] == last[k])
    && (forall k :: k in full && k !in last ==> t - full[k] >= interval)
  }

  datatype Ask = Ask(key: string, now: int)

  function Answers(last: map<string, int>, interval: int, asks: seq<Ask>): seq<bool>
    decreases |asks|
  {
    if asks == [] then []
    else
      var (next, due) := Due(last, interval, asks[0].key, asks[0].now);
      [due] + Answers(next, interval, asks[1..])
  }

  function AnswersFull(last: map<string, int>, interval: int, asks: seq<Ask>): seq<bool>
    decreases |asks|
  {
    if asks == [] then []
    else
      var (next, due) := DueFull(last, interval, asks[0].key, asks[0].now);
      [due] + AnswersFull(next, interval, asks[1..])
  }

  ghost predicate Nondecreasing(asks: seq<Ask>, from: int) {
    asks != [] ==> from <= asks[0].now && NondecreasingTail(asks)
  }

  ghost predicate NondecreasingTail(asks: seq<Ask>)
    requires asks != []
    decreases |asks|
  {
    |asks| > 1 ==> asks[0].now <= asks[1].now && NondecreasingTail(asks[1..])
  }

  lemma {:induction false} AskForgets(
    last: map<string, int>, full: map<string, int>, interval: int, t: int, key: string, now: int)
    requires Forgets(last, full, interval, t) && t <= now
    ensures Due(last, interval, key, now).1 == DueFull(full, interval, key, now).1
    ensures Forgets(Due(last, interval, key, now).0, DueFull(full, interval, key, now).0, interval, now)
  {
  }

  /** With a clock that never runs back, forgetting stale keys changes no answer. */
  lemma {:induction false} ForgettingIsInvisible(
    last: map<string, int>, full: map<string, int>, interval: int, t: int, asks: seq<Ask>)
    requires Forgets(last, full, interval, t) && Nondecreasing(asks, t)
    ensures Answers(last, interval, asks) == AnswersFull(full, interval, asks)
    decreases |asks|
  {
    if asks != [] {
      var a := asks[0];
      AskForgets(last, full, interval, t, a.key, a.now);
      ForgettingIsInvisible(
        Due(last, interval, a.key, a.now).0, DueFull(full, interval, a.key, a.now).0, interval, a.now, asks[1..]);
    }
  }

  // ---------------------------------------------------------------- what the gate answers

  /** Some earlier ask with this key was due, less than an interval before `now`. */
  ghost predicate RecentlyDue(interval: int, asks: seq<Ask>, answers: seq<bool>, n: nat, key: string, now: int)
    requires n <= |asks| && n <= |answers|
  {
    exists j :: 0 <= j < n && answers[j] && asks[j].key == key && now - asks[j].now < interval
  }

  /** The map holds, for each key, the time of its last due ask. */
  ghost predicate RecordsDue(full: map<string, int>, asks: seq<Ask>, answers: seq<bool>, n: nat)
    requires n <= |asks| && n <= |answers|
  {
    && (forall j :: 0 <= j < n && answers[j] ==> asks[j].key in full && asks[j].now <= full[asks[j].key])
    && (forall k :: k in full ==> exists j :: 0 <= j < n && answers[j] && asks[j] == Ask(k, full[k]))
  }

  /** The answers of a gate that has seen the first n asks. */
  lemma {:induction false} FullGateMeans(
    full: map<string, int>, interval: int, asks: seq<Ask>, n: nat, done: seq<bool>, t: int)
    requires n <= |asks| && |done| == n && RecordsDue(full, asks, done, n) && Nondecreasing(asks[n..], t)
    requires forall j :: 0 <= j < n ==> asks[j].now <= t
    ensures var answers := done + AnswersFull(full, interval, asks[n..]);
            && |answers| == |asks|
            && forall i :: n <= i < |asks| ==>
                 (answers[i] <==> !RecentlyDue(interval, asks, answers, i, asks[i].key, asks[i].now))
    decreases |asks| - n
  {
    if n < |asks| {
      var rest := asks[n..];
      assert rest[0] == asks[n] && rest[1..] == asks[n + 1..];
      var (next, due) := DueFull(full, interval, asks[n].key, asks[n].now);
      var done' := done + [due];
      var answers := done + AnswersFull(full, interval, rest);
      assert answers == done' + AnswersFull(next, interval, asks[n + 1..]);
      RecordStep(full, interval, asks, n, done, t);
      NondecreasingRest(rest, t);
      FullGateMeans(next, interval, asks, n + 1, done', asks[n].now);
      assert forall j :: 0 <= j < n ==> answers[j] == done[j];
      assert answers[n] == due;
    } else {
      assert done + [] == done;
    }
  }

  lemma {:induction false} NondecreasingRest(asks: seq<Ask>, t: int)
    requires asks != [] && Nondecreasing(asks, t)
    ensures Nondecreasing(asks[1..], asks[0].now) && t <= asks[0].now
  {
  }

  lemma {:induction false} RecordStep(
    full: map<string, int>, interval: int, asks: seq<Ask>, n: nat, done: seq<bool>, t: int)
    requires n < |asks| && |done| == n && RecordsDue(full, asks, done, n) && t <= asks[n].now
    requires forall j :: 0 <= j < n ==> asks[j].now <= t
    ensures var (next, due) := DueFull(full, interval, asks[n].key, asks[n].now);
            && RecordsDue(next, asks, done + [due], n + 1)
            && (due <==> !RecentlyDue(interval, asks, done, n, asks[n].key, asks[n].now))
  {
    var (next, due) := DueFull(full, interval, asks[n].key, asks[n].now);
    var done' := done + [due];
    assert done'[n] == due && forall j :: 0 <= j < n ==> done'[j] == done[j];
    var k := asks[n].key;
    if k in full {
      var j :| 0 <= j < n && done[j] && asks[j] == Ask(k, full[k]);
      assert asks[n].now - full[k] < interval ==> RecentlyDue(interval, asks, done, n, k, asks[n].now);
    }
    forall x | x in next ensures exists j :: 0 <= j < n + 1 && done'[j] && asks[j] == Ask(x, next[x]) {
      if due && x == k {
        assert asks[n] == Ask(x, next[x]);
      } else {
        var j :| 0 <= j < n && done[j] && asks[j] == Ask(x, full[x]);
        assert done'[j];
      }
    }
  }

  /**
    * With a clock that never runs back, a new gate lets an ask through exactly when it has let none through for the same
    * key within the interval before it.
    */
  lemma {:induction false} GateAnswers(interval: int, asks: seq<Ask>, t: int)
    requires Nondecreasing(asks, t)
    ensures var answers := Answers(map[], interval, asks);
            && |answers| == |asks|
            && forall i :: 0 <= i < |asks| ==>
                 (answers[i] <==> !RecentlyDue(interval, asks, answers, i, asks[i].key, asks[i].now))
  {
    ForgettingIsInvisible(map[], map[], interval, t, asks);
    assert asks[0..] == asks;
    FullGateMeans(map[], interval, asks, 0, [], t);
    assert [] + AnswersFull(map[], interval, asks) == AnswersFull(map[], interval, asks);
  }

  class TouchGate {
    var interval: int
    var last: map<string, int>

    constructor (span: int)
      ensures interval == span && last == map[]
    {
      interval, last := span, map[];
    }

    method IsDue(key: string, now: int) returns (due: bool)
      modifies this
      ensures interval == old(interval)
      ensures (last, due) == Due(old(last), interval, key, now)
      ensures due <==> !(key in old(last) && now - old(last)[key] < interval)
      ensures !due ==> last == old(last)
      ensures due ==> key in last && last[key] == now
      ensures due ==> forall k :: k != key ==>
                (k in last <==> k in old(last) && (|old(last)| <= 1024 || now - old(last)[k] < interval))
                && (k in last ==> last[k] == old(last)[k])
    {
      if key in last && now - last[key] < interval {
        return false;
      }
      if |last| > CROWDED {
        var left := last.Keys;
        ghost var was := last;
        while left != {}
          invariant left <= was.Keys && last.Keys <= was.Keys && interval == old(interval)
          invariant forall k :: k in left ==> k in last
          invariant forall k :: k in last ==> last[k] == was[k]
          invariant forall k :: k in was && k !in left ==> (k in last <==> now - was[k] < interval)
          decreases |left|
        {
          var k :| k in left;
          if now - last[k] >= interval {
            last := last - {k};
          }
          left := left - {k};
        }
        assert last == was - Stale(was, interval, now);
      }
      last := last[key := now];
      due := true;
    }
  }

  // ---------------------------------------------------------------- sessions

  datatype Session = Session(expiresAt: int, idleDeadline: int)

  /** SessionAbs and SessionIdle, and the middleware's touch interval, in nanoseconds. */
  datatype Config = Config(absolute: int, idle: int, interval: int)

  /**
    * A request on its way through the middleware: looked up; past the gate at some time and owing a write; or with
    * the new deadline in hand. A request that fails the CSRF or scope check never gets past the first stage.
    */
  datatype Task = Checked(id: string) | Owing(id: string, at: int) | Writing(id: string, at: int, deadline: int)

  datatype World = World(rows: map<string, Session>, gate: map<string, int>, tasks: map<nat, Task>)

  function GateKey(id: string): string {
    "s:" + id
  }

  /** Every step of every request is a step of its own; requests run concurrently. */
  datatype Event =
    | Login(id: string, at: int)
    | Lookup(req: nat, id: string, now: int)
    | Gate(req: nat, now: int)
    | Stamp(req: nat, now: int)
    | Write(req: nat)

  function Created(w: World, cfg: Config, id: string, now: int): World {
    w.(rows := w.rows[id := Session(Unix(now + cfg.absolute), Unix(now + cfg.idle))])
  }

  predicate Accepts(w: World, id: string, now: int) {
    id in w.rows && !(Unix(now) > w.rows[id].expiresAt || Unix(now) > w.rows[id].idleDeadline)
  }

  function Gated(w: World, cfg: Config, req: nat, now: int): World
    requires req in w.tasks
  {
    var id := w.tasks[req].id;
    var (last, due) := Due(w.gate, cfg.interval, GateKey(id), now);
    World(w.rows, last, if due then w.tasks[req := Owing(id, now)] else w.tasks - {req})
  }

  function Written(w: World, req: nat): World
    requires req in w.tasks && w.tasks[req].Writing?
  {
    var t := w.tasks[req];
    World(
      if t.id in w.rows then w.rows[t.id := w.rows[t.id].(idleDeadline := t.deadline)] else w.rows,
      w.gate, w.tasks - {req})
  }

  function Next(w: World, cfg: Config, e: Event): World {
    match e
    case Login(id, at) => if id in w.rows then w else Created(w, cfg, id, at)
    case Lookup(r, id, now) =>
      if r in w.tasks then w
      else if Accepts(w, id, now) then w.(tasks := w.tasks[r := Checked(id)])
      else w.(rows := w.rows - {id})
    case Gate(r, now) => if r in w.tasks && w.tasks[r].Checked? then Gated(w, cfg, r, now) else w
    case Stamp(r, now) =>
      if r in w.tasks && w.tasks[r].Owing?
      then w.(tasks := w.tasks[r := Writing(w.tasks[r].id, w.tasks[r].at, Unix(now + cfg.idle))]) else w
    case Write(r) => if r in w.tasks && w.tasks[r].Writing? then Written(w, r) else w
  }

  function Run(w: World, cfg: Config, events: seq<Event>): World
    decreases |events|
  {
    if events == [] then w else Run(Next(w, cfg, events[0]), cfg, events[1..])
  }

  // ---------------------------------------------------------------- nothing outlives its absolute expiry

  ghost predicate LogsIn(e: Event, id: string) {
    e.Login? && e.id == id
  }

  lemma {:induction false} ExpiryNeverMoves(w: World, cfg: Config, events: seq<Event>, id: string)
    requires id in w.rows && id in Run(w, cfg, events).rows
    requires forall i :: 0 <= i < |events| ==> !LogsIn(events[i], id)
    ensures Run(w, cfg, events).rows[id].expiresAt == w.rows[id].expiresAt
    decreases |events|
  {
    if events != [] {
      var v := Next(w, cfg, events[0]);
      assert !LogsIn(events[0], id);
      if id in v.rows {
        ExpiryNeverMoves(v, cfg, events[1..], id);
      } else {
        GoneStaysGone(v, cfg, events[1..], id);
      }
    }
  }

  lemma {:induction false} GoneStaysGone(w: World, cfg: Config, events: seq<Event>, id: string)
    requires id !in w.rows && forall i :: 0 <= i < |events| ==> !LogsIn(events[i], id)
    ensures id !in Run(w, cfg, events).rows
    decreases |events|
  {
    if events != [] {
      assert !LogsIn(events[0], id);
      GoneStaysGone(Next(w, cfg, events[0]), cfg, events[1..], id);
    }
  }

  /** However often it is touched, a session is refused after the expiry it was created with. */
  lemma {:induction false} AbsoluteExpiryHolds(w: World, cfg: Config, id: string, login: int, events: seq<Event>, now: int)
    requires id !in w.rows && forall i :: 0 <= i < |events| ==> !LogsIn(events[i], id)
    requires Unix(now) > Unix(login + cfg.absolute)
    ensures !Accepts(Run(Next(w, cfg, Login(id, login)), cfg, events), id, now)
  {
    var v := Next(w, cfg, Login(id, login));
    if id in Run(v, cfg, events).rows {
      ExpiryNeverMoves(v, cfg, events, id);
    }
  }

  // ---------------------------------------------------------------- what a session can count on

  /** A request of the session owes it a write. */
  ghost predicate Pending(w: World, id: string, r: nat) {
    r in w.tasks && w.tasks[r].id == id && !w.tasks[r].Checked?
  }

  ghost predicate Unwritten(w: World, id: string) {
    exists r :: Pending(w, id, r)
  }

  function TimeOf(e: Event, clock: int): int {
    match e
    case Login(_, at) => at
    case Lookup(_, _, now) => now
    case Gate(_, now) => now
    case Stamp(_, now) => now
    case Write(_) => clock
  }

  ghost predicate Gates(w: World, id: string, e: Event) {
    e.Gate? && e.req in w.tasks && w.tasks[e.req] == Checked(id)
  }

  function Later(a: int, b: int): int {
    if a < b then b else a
  }

  /** The last use of the session: a request counts once it is handled, from the time it passed the gate. */
  ghost function UsedAfter(w: World, cfg: Config, id: string, used: int, e: Event): int {
    if Gates(w, id, e) && !Due(w.gate, cfg.interval, GateKey(id), e.now).1 then e.now
    else if e.Write? && e.req in w.tasks && w.tasks[e.req].Writing? && w.tasks[e.req].id == id then Later(used, w.tasks[e.req].at)
    else used
  }

  /** A lookup that a session last used at `used` should pass: within idle - interval of the use, and not expired. */
  predicate InWindow(cfg: Config, used: int, expires: int, now: int) {
    now <= used + cfg.idle - cfg.interval && Unix(now) <= expires
  }

  /** The last second of that window. */
  function Limit(cfg: Config, used: int, expires: int): int {
    var end := Unix(used + cfg.idle - cfg.interval);
    if end <= expires then end else expires
  }

  /** The stored deadline reaches the limit, and so does every deadline that is still to be written over it. */
  ghost predicate Covered(w: World, id: string, limit: int) {
    && id in w.rows && limit <= w.rows[id].idleDeadline
    && forall r :: r in w.tasks && w.tasks[r].Writing? && w.tasks[r].id == id ==> limit <= w.tasks[r].deadline
  }

  /** While the window is open. */
  ghost predicate CoveredAt(w: World, cfg: Config, id: string, expires: int, used: int, clock: int) {
    InWindow(cfg, used, expires, clock) ==> Covered(w, id, Limit(cfg, used, expires))
  }

  ghost predicate Expires(w: World, id: string, expires: int) {
    id in w.rows ==> w.rows[id].expiresAt == expires
  }

  ghost predicate Timely(id: string, clock: int, events: seq<Event>)
    decreases |events|
  {
    events != [] ==>
      && clock <= TimeOf(events[0], clock) && !LogsIn(events[0], id)
      && Timely(id, TimeOf(events[0], clock), events[1..])
  }

  ghost predicate AcceptedInWindow(w: World, cfg: Config, id: string, expires: int, used: int, events: seq<Event>)
    decreases |events|
  {
    events != [] ==>
      var e := events[0];
      && (e.Lookup? && e.id == id && InWindow(cfg, used, expires, e.now) ==> Accepts(w, id, e.now))
      && AcceptedInWindow(Next(w, cfg, e), cfg, id, expires, used, events[1..])
  }

  /** Whatever comes, every lookup of the session inside the window is accepted. */
  ghost predicate Promised(w: World, cfg: Config, id: string, expires: int, used: int, clock: int) {
    forall events :: Timely(id, clock, events) ==> AcceptedInWindow(w, cfg, id, expires, used, events)
  }

  lemma {:induction false} WindowShrinks(cfg: Config, used: int, expires: int, clock: int, later: int)
    requires InWindow(cfg, used, expires, later) && clock <= later
    ensures InWindow(cfg, used, expires, clock) && Unix(later) <= Limit(cfg, used, expires)
  {
    UnixMonotone(clock, later);
    UnixMonotone(later, used + cfg.idle - cfg.interval);
  }

  lemma {:induction false} StepKeepsCovered(
    w: World, cfg: Config, id: string, expires: int, used: int, clock: int, e: Event)
    requires CoveredAt(w, cfg, id, expires, used, clock) && Expires(w, id, expires)
    requires used <= clock <= TimeOf(e, clock) && cfg.interval >= 0 && !LogsIn(e, id)
    ensures CoveredAt(Next(w, cfg, e), cfg, id, expires, used, TimeOf(e, clock)) && Expires(Next(w, cfg, e), id, expires)
    ensures e.Lookup? && e.id == id && InWindow(cfg, used, expires, e.now) ==> Accepts(w, id, e.now)
  {
    var later := TimeOf(e, clock);
    if InWindow(cfg, used, expires, later) {
      WindowShrinks(cfg, used, expires, clock, later);
      UnixMonotone(used + cfg.idle - cfg.interval, later + cfg.idle);
    }
  }

  lemma {:induction false} CoveredIsEnough(
    w: World, cfg: Config, id: string, expires: int, used: int, clock: int, events: seq<Event>)
    requires CoveredAt(w, cfg, id, expires, used, clock) && Expires(w, id, expires)
    requires used <= clock && cfg.interval >= 0 && Timely(id, clock, events)
    ensures AcceptedInWindow(w, cfg, id, expires, used, events)
    decreases |events|
  {
    if events != [] {
      var e := events[0];
      StepKeepsCovered(w, cfg, id, expires, used, clock, e);
      CoveredIsEnough(Next(w, cfg, e), cfg, id, expires, used, TimeOf(e, clock), events[1..]);
    }
  }

  /** A moment of the window's last second. */
  function LastMoment(cfg: Config, used: int, expires: int): int {
    var end := used + cfg.idle - cfg.interval;
    if Unix(end) <= expires then end else expires * SECOND + SECOND - 1
  }

  lemma {:induction false} LastMomentIsLast(cfg: Config, used: int, expires: int, clock: int)
    requires InWindow(cfg, used, expires, clock)
    ensures var t := LastMoment(cfg, used, expires);
            clock <= t && InWindow(cfg, used, expires, t) && Unix(t) == Limit(cfg, used, expires)
  {
  }

  /** A continuation that the session does not survive: a last lookup, perhaps after a write that comes too late. */
  lemma {:induction false} UncoveredFails(w: World, cfg: Config, id: string, expires: int, used: int, clock: int)
    returns (events: seq<Event>)
    requires InWindow(cfg, used, expires, clock) && !Covered(w, id, Limit(cfg, used, expires))
    ensures Timely(id, clock, events) && !AcceptedInWindow(w, cfg, id, expires, used, events)
  {
    var t := LastMoment(cfg, used, expires);
    LastMomentIsLast(cfg, used, expires, clock);
    if id !in w.rows || w.rows[id].idleDeadline < Limit(cfg, used, expires) {
      events := [Lookup(0, id, t)];
      assert !Accepts(w, id, t);
    } else {
      var r :| r in w.tasks && w.tasks[r].Writing? && w.tasks[r].id == id && w.tasks[r].deadline < Limit(cfg, used, expires);
      events := [Write(r), Lookup(0, id, t)];
      assert events[1..] == [Lookup(0, id, t)] && events[1..][1..] == [];
      assert !Accepts(Next(w, cfg, Write(r)), id, t);
      assert !AcceptedInWindow(Next(w, cfg, Write(r)), cfg, id, expires, used, events[1..]);
    }
  }

  /**
    * What a session can count on, in any state and whatever overtakes whatever: every lookup within idle - interval of
    * its last use and before its expiry is accepted, in every continuation, if and only if the stored deadline and every
    * deadline about to be written reach the end of that window.
    */
  lemma {:induction false} PromisedIffCovered(w: World, cfg: Config, id: string, expires: int, used: int, clock: int)
    requires Expires(w, id, expires) && used <= clock && cfg.interval >= 0
    ensures Promised(w, cfg, id, expires, used, clock) <==> CoveredAt(w, cfg, id, expires, used, clock)
  {
    if CoveredAt(w, cfg, id, expires, used, clock) {
      forall events | Timely(id, clock, events) ensures AcceptedInWindow(w, cfg, id, expires, used, events) {
        CoveredIsEnough(w, cfg, id, expires, used, clock, events);
      }
    } else {
      var events := UncoveredFails(w, cfg, id, expires, used, clock);
    }
  }

  // ---------------------------------------------------------------- over whole runs

  ghost predicate GatesPast(w: World, id: string, clock: int) {
    forall r :: Pending(w, id, r) ==> w.tasks[r].at <= clock
  }

  lemma {:induction false} StepKeepsPast(w: World, cfg: Config, id: string, used: int, clock: int, e: Event)
    requires GatesPast(w, id, clock) && used <= clock <= TimeOf(e, clock)
    ensures GatesPast(Next(w, cfg, e), id, TimeOf(e, clock)) && UsedAfter(w, cfg, id, used, e) <= TimeOf(e, clock)
  {
    var v := Next(w, cfg, e);
    forall r | Pending(v, id, r) ensures v.tasks[r].at <= TimeOf(e, clock) {
      if Pending(w, id, r) {
        assert v.tasks[r].at == w.tasks[r].at;
      } else {
        assert e.Gate? && v.tasks[r].at == e.now;
      }
    }
    if e.Write? && e.req in w.tasks && w.tasks[e.req].Writing? && w.tasks[e.req].id == id {
      assert Pending(w, id, e.req);
    }
  }

  /** At every moment of the run the session can count on its window. */
  ghost predicate PromisedThroughout(
    w: World, cfg: Config, id: string, expires: int, used: int, clock: int, events: seq<Event>)
    decreases |events|
  {
    && Promised(w, cfg, id, expires, used, clock)
    && (events != [] ==>
          var e := events[0];
          PromisedThroughout(
            Next(w, cfg, e), cfg, id, expires, UsedAfter(w, cfg, id, used, e), TimeOf(e, clock), events[1..]))
  }

  /** Whenever a use of the session counts, the new window is covered. */
  ghost predicate UsesCovered(
    w: World, cfg: Config, id: string, expires: int, used: int, clock: int, events: seq<Event>)
    decreases |events|
  {
    events != [] ==>
      var e := events[0];
      var used', clock' := UsedAfter(w, cfg, id, used, e), TimeOf(e, clock);
      && (used' != used ==> CoveredAt(Next(w, cfg, e), cfg, id, expires, used', clock'))
      && UsesCovered(Next(w, cfg, e), cfg, id, expires, used', clock', events[1..])
  }

  lemma {:induction false} PromisedThroughoutIff(
    w: World, cfg: Config, id: string, expires: int, used: int, clock: int, events: seq<Event>)
    requires CoveredAt(w, cfg, id, expires, used, clock) && Expires(w, id, expires) && GatesPast(w, id, clock)
    requires used <= clock && cfg.interval >= 0 && Timely(id, clock, events)
    ensures PromisedThroughout(w, cfg, id, expires, used, clock, events)
            <==> UsesCovered(w, cfg, id, expires, used, clock, events)
    decreases |events|
  {
    PromisedIffCovered(w, cfg, id, expires, used, clock);
    if events != [] {
      var e := events[0];
      var v, used', clock' := Next(w, cfg, e), UsedAfter(w, cfg, id, used, e), TimeOf(e, clock);
      StepKeepsCovered(w, cfg, id, expires, used, clock, e);
      StepKeepsPast(w, cfg, id, used, clock, e);
      PromisedIffCovered(v, cfg, id, expires, used', clock');
      if CoveredAt(v, cfg, id, expires, used', clock') {
        PromisedThroughoutIff(v, cfg, id, expires, used', clock', events[1..]);
      }
    }
  }

  lemma {:induction false} LoginIsCovered(w: World, cfg: Config, id: string, login: int)
    requires cfg.interval >= 0 && id !in w.rows && !Unwritten(w, id)
    ensures var v := Next(w, cfg, Login(id, login));
            && CoveredAt(v, cfg, id, Unix(login + cfg.absolute), login, login)
            && Expires(v, id, Unix(login + cfg.absolute)) && GatesPast(v, id, login) && !Unwritten(v, id)
  {
    var v := Next(w, cfg, Login(id, login));
    assert forall r :: !Pending(v, id, r) by {
      assert forall r :: Pending(v, id, r) <==> Pending(w, id, r);
    }
    assert forall r :: r in v.tasks && v.tasks[r].Writing? && v.tasks[r].id == id ==> Pending(v, id, r);
    UnixMonotone(login + cfg.idle - cfg.interval, login + cfg.idle);
  }

  /**
    * From login on, in every interleaving: the session can count on its window at every moment if and only if the window
    * is covered whenever a use counts.
    */
  lemma {:induction false} LoginIsPromisedIff(w: World, cfg: Config, id: string, login: int, events: seq<Event>)
    requires cfg.interval >= 0 && id !in w.rows && !Unwritten(w, id) && Timely(id, login, events)
    ensures var v, expires := Next(w, cfg, Login(id, login)), Unix(login + cfg.absolute);
            PromisedThroughout(v, cfg, id, expires, login, login, events)
            <==> UsesCovered(v, cfg, id, expires, login, login, events)
  {
    LoginIsCovered(w, cfg, id, login);
    var v, expires := Next(w, cfg, Login(id, login)), Unix(login + cfg.absolute);
    PromisedThroughoutIff(v, cfg, id, expires, login, login, events);
  }

  /** Every lookup of this session is accepted. */
  ghost predicate AllAccepted(w: World, cfg: Config, id: string, events: seq<Event>)
    decreases |events|
  {
    events != [] ==>
      && (events[0].Lookup? && events[0].id == id ==> Accepts(w, id, events[0].now))
      && AllAccepted(Next(w, cfg, events[0]), cfg, id, events[1..])
  }

  /** Lookups of the session come within its window, and whenever a use counts the new window is covered. */
  ghost predicate UsedInTime(w: World, cfg: Config, id: string, expires: int, used: int, clock: int, events: seq<Event>)
    decreases |events|
  {
    events != [] ==>
      var e := events[0];
      var used', clock' := UsedAfter(w, cfg, id, used, e), TimeOf(e, clock);
      && clock <= clock' && !LogsIn(e, id)
      && (e.Lookup? && e.id == id ==> InWindow(cfg, used, expires, e.now))
      && (used' != used ==> CoveredAt(Next(w, cfg, e), cfg, id, expires, used', clock'))
      && UsedInTime(Next(w, cfg, e), cfg, id, expires, used', clock', events[1..])
  }

  lemma {:induction false} UseKeepsAlive(
    w: World, cfg: Config, id: string, expires: int, used: int, clock: int, events: seq<Event>)
    requires CoveredAt(w, cfg, id, expires, used, clock) && Expires(w, id, expires) && GatesPast(w, id, clock)
    requires used <= clock && cfg.interval >= 0 && UsedInTime(w, cfg, id, expires, used, clock, events)
    ensures AllAccepted(w, cfg, id, events)
    decreases |events|
  {
    if events != [] {
      var e := events[0];
      StepKeepsCovered(w, cfg, id, expires, used, clock, e);
      StepKeepsPast(w, cfg, id, used, clock, e);
      UseKeepsAlive(
        Next(w, cfg, e), cfg, id, expires, UsedAfter(w, cfg, id, used, e), TimeOf(e, clock), events[1..]);
    }
  }

  /** So a session used at gaps of at most idle - interval is accepted until its absolute expiry. */
  lemma {:induction false} SessionInUseStaysAlive(w: World, cfg: Config, id: string, login: int, events: seq<Event>)
    requires cfg.interval >= 0 && id !in w.rows && !Unwritten(w, id)
    requires UsedInTime(Next(w, cfg, Login(id, login)), cfg, id, Unix(login + cfg.absolute), login, login, events)
    ensures AllAccepted(Next(w, cfg, Login(id, login)), cfg, id, events)
  {
    LoginIsCovered(w, cfg, id, login);
    UseKeepsAlive(Next(w, cfg, Login(id, login)), cfg, id, Unix(login + cfg.absolute), login, login, events);
  }

  // ---------------------------------------------------------------- what one request does

  /** A request on a live session that the gate lets through moves the deadline to idle after its write's clock. */
  lemma {:induction false} RequestExtends(w: World, cfg: Config, r: nat, id: string, lookup: int, gate: int, stamp: int)
    requires r !in w.tasks && id in w.rows
    requires Unix(lookup) <= w.rows[id].expiresAt && Unix(lookup) <= w.rows[id].idleDeadline
    requires GateKey(id) in w.gate ==> gate - w.gate[GateKey(id)] >= cfg.interval
    ensures var v := Run(w, cfg, [Lookup(r, id, lookup), Gate(r, gate), Stamp(r, stamp), Write(r)]);
            && v.rows == w.rows[id := Session(w.rows[id].expiresAt, Unix(stamp + cfg.idle))]
            && GateKey(id) in v.gate && v.gate[GateKey(id)] == gate && r !in v.tasks
  {
    var es := [Lookup(r, id, lookup), Gate(r, gate), Stamp(r, stamp), Write(r)];
    var w1 := Next(w, cfg, es[0]);
    var w2 := Next(w1, cfg, es[1]);
    var w3 := Next(w2, cfg, es[2]);
    assert w1.tasks[r] == Checked(id) && w2.tasks[r] == Owing(id, gate);
    assert w3.tasks[r] == Writing(id, gate, Unix(stamp + cfg.idle));
    assert es[1..][1..] == es[2..] && es[2..][1..] == es[3..] && es[3..][1..] == [];
    assert Run(w3, cfg, es[3..]) == Next(w3, cfg, Write(r));
    assert Run(w2, cfg, es[2..]) == Run(w3, cfg, es[3..]);
    assert Run(w1, cfg, es[1..]) == Run(w2, cfg, es[2..]);
  }

  /** A lookup past either deadline deletes the session, and only that. */
  lemma {:induction false} LateLookupDeletes(w: World, cfg: Config, r: nat, id: string, now: int)
    requires r !in w.tasks && id in w.rows
    requires Unix(now) > w.rows[id].expiresAt || Unix(now) > w.rows[id].idleDeadline
    ensures Next(w, cfg, Lookup(r, id, now)) == World(w.rows - {id}, w.gate, w.tasks)
  {
  }

  // ---------------------------------------------------------------- an idle session is refused

  /** The latest of the session's login and the clock readings its requests took for a write. */
  ghost function LastStamp(w: World, cfg: Config, id: string, login: int, events: seq<Event>): int
    decreases |events|
  {
    if events == [] then login
    else LastStamp(Next(w, cfg, events[0]), cfg, id, if Stamps(w, id, events[0]) then events[0].now else login, events[1..])
  }

  ghost predicate Stamps(w: World, id: string, e: Event) {
    e.Stamp? && e.req in w.tasks && w.tasks[e.req].Owing? && w.tasks[e.req].id == id
  }

  /** No deadline, stored or about to be written, is later than idle after `last`. */
  ghost predicate Bounded(w: World, cfg: Config, id: string, last: int) {
    && (id in w.rows ==> w.rows[id].idleDeadline <= Unix(last + cfg.idle))
    && forall r :: r in w.tasks && w.tasks[r].Writing? && w.tasks[r].id == id ==>
         w.tasks[r].deadline <= Unix(last + cfg.idle)
  }

  lemma {:induction false} StepKeepsBounded(w: World, cfg: Config, id: string, last: int, clock: int, e: Event)
    requires Bounded(w, cfg, id, last) && last <= clock <= TimeOf(e, clock) && !LogsIn(e, id)
    ensures Bounded(Next(w, cfg, e), cfg, id, if Stamps(w, id, e) then e.now else last)
  {
    if Stamps(w, id, e) {
      UnixMonotone(last + cfg.idle, e.now + cfg.idle);
    }
  }

  lemma {:induction false} RunKeepsBounded(w: World, cfg: Config, id: string, last: int, clock: int, events: seq<Event>)
    requires Bounded(w, cfg, id, last) && last <= clock && Timely(id, clock, events)
    ensures Bounded(Run(w, cfg, events), cfg, id, LastStamp(w, cfg, id, last, events))
    decreases |events|
  {
    if events != [] {
      var e := events[0];
      StepKeepsBounded(w, cfg, id, last, clock, e);
      RunKeepsBounded(
        Next(w, cfg, e), cfg, id, if Stamps(w, id, e) then e.now else last, TimeOf(e, clock), events[1..]);
    }
  }

  /**
    * From login on, in every interleaving: no deadline is later than idle after the session's last sign of life, and so
    * any lookup after that is refused.
    */
  lemma {:induction false} IdleSessionIsRefused(
    w: World, cfg: Config, id: string, login: int, events: seq<Event>, now: int)
    requires id !in w.rows && !Unwritten(w, id) && Timely(id, login, events)
    ensures var v := Next(w, cfg, Login(id, login));
            var last := LastStamp(v, cfg, id, login, events);
            && Bounded(Run(v, cfg, events), cfg, id, last)
            && (Unix(now) > Unix(last + cfg.idle) ==> !Accepts(Run(v, cfg, events), id, now))
  {
    var v := Next(w, cfg, Login(id, login));
    forall r | r in v.tasks && v.tasks[r].Writing? && v.tasks[r].id == id ensures false {
      assert Pending(w, id, r);
    }
    RunKeepsBounded(v, cfg, id, login, login, events);
  }

  // ---------------------------------------------------------------- no overtaking is enough

  /** Good for every lookup up to `used` + idle - interval, as far as idling goes. */
  ghost predicate FreshSince(w: World, cfg: Config, id: string, used: int) {
    id in w.rows && forall t :: t <= used + cfg.idle - cfg.interval ==> Unix(t) <= w.rows[id].idleDeadline
  }

  /** The gate's entry witnesses a deadline written at least as late, or is about to. */
  ghost predicate GateFits(w: World, cfg: Config, id: string, clock: int)
    requires id in w.rows
  {
    GateKey(id) in w.gate ==>
      && w.gate[GateKey(id)] <= clock
      && (Unwritten(w, id) || w.rows[id].idleDeadline >= Unix(w.gate[GateKey(id)] + cfg.idle))
  }

  /** A write that is owed will reach at least as far as the gate's entry, and as the last use. */
  ghost predicate OwedFits(w: World, cfg: Config, id: string, used: int, clock: int) {
    && (forall r, q :: Pending(w, id, r) && Pending(w, id, q) ==> r == q)
    && forall r :: Pending(w, id, r) ==>
         && used <= w.tasks[r].at <= clock
         && (GateKey(id) in w.gate ==> w.gate[GateKey(id)] <= w.tasks[r].at)
         && (w.tasks[r].Writing? ==> w.tasks[r].deadline >= Unix(w.tasks[r].at + cfg.idle))
  }

  ghost predicate Alive(w: World, cfg: Config, id: string, used: int, clock: int) {
    FreshSince(w, cfg, id, used) && used <= clock && GateFits(w, cfg, id, clock) && OwedFits(w, cfg, id, used, clock)
  }

  /** No request of the session passes the gate while another one owes it a write. */
  ghost predicate NoOvertaking(w: World, id: string, e: Event) {
    Gates(w, id, e) ==> !Unwritten(w, id)
  }

  lemma {:induction false} KeysApart(a: string, b: string)
    requires GateKey(a) == GateKey(b)
    ensures a == b
  {
    assert GateKey(a)[2..] == a && GateKey(b)[2..] == b;
  }

  lemma {:induction false} GateKeepsAlive(w: World, cfg: Config, id: string, used: int, clock: int, e: Event)
    requires Alive(w, cfg, id, used, clock) && cfg.interval > 0 && e.Gate? && clock <= e.now
    requires Gates(w, id, e) && NoOvertaking(w, id, e)
    ensures Alive(Next(w, cfg, e), cfg, id, UsedAfter(w, cfg, id, used, e), e.now)
  {
    var v := Next(w, cfg, e);
    var (last, due) := Due(w.gate, cfg.interval, GateKey(id), e.now);
    assert forall r :: Pending(v, id, r) ==> r == e.req || Pending(w, id, r);
    if due {
      assert Pending(v, id, e.req);
    } else {
      forall t | t <= e.now + cfg.idle - cfg.interval ensures Unix(t) <= v.rows[id].idleDeadline {
        UnixMonotone(t, w.gate[GateKey(id)] + cfg.idle);
      }
    }
  }

  lemma {:induction false} StampKeepsAlive(w: World, cfg: Config, id: string, used: int, clock: int, e: Event)
    requires Alive(w, cfg, id, used, clock) && e.Stamp? && clock <= e.now
    ensures Alive(Next(w, cfg, e), cfg, id, used, e.now)
  {
    var v := Next(w, cfg, e);
    assert forall r :: Pending(v, id, r) <==> Pending(w, id, r);
    if Pending(w, id, e.req) && w.tasks[e.req].Owing? {
      UnixMonotone(w.tasks[e.req].at + cfg.idle, e.now + cfg.idle);
    }
  }

  lemma {:induction false} WriteKeepsAlive(w: World, cfg: Config, id: string, used: int, clock: int, e: Event)
    requires Alive(w, cfg, id, used, clock) && e.Write? && cfg.interval > 0
    ensures Alive(Next(w, cfg, e), cfg, id, UsedAfter(w, cfg, id, used, e), clock)
  {
    var v := Next(w, cfg, e);
    if e.req in w.tasks && w.tasks[e.req].Writing? {
      var t := w.tasks[e.req];
      assert forall r :: Pending(v, id, r) <==> Pending(w, id, r) && r != e.req;
      if t.id == id {
        assert Pending(w, id, e.req);
        forall x | x <= t.at + cfg.idle - cfg.interval ensures Unix(x) <= v.rows[id].idleDeadline {
          UnixMonotone(x, t.at + cfg.idle);
        }
        if GateKey(id) in w.gate {
          UnixMonotone(w.gate[GateKey(id)] + cfg.idle, t.at + cfg.idle);
        }
      } else {
        SamePending(w, v, id);
      }
    }
  }

  lemma {:induction false} SamePending(w: World, v: World, id: string)
    requires forall r :: Pending(v, id, r) <==> Pending(w, id, r)
    ensures Unwritten(v, id) <==> Unwritten(w, id)
  {
  }

  /** A step that leaves the session's row, gate entry and owed writes alone. */
  lemma {:induction false} UntouchedStaysAlive(w: World, v: World, cfg: Config, id: string, used: int, clock: int, later: int)
    requires Alive(w, cfg, id, used, clock) && clock <= later
    requires id in v.rows && v.rows[id] == w.rows[id]
    requires GateKey(id) in v.gate ==> GateKey(id) in w.gate && v.gate[GateKey(id)] == w.gate[GateKey(id)]
    requires forall r :: Pending(v, id, r) <==> Pending(w, id, r)
    requires forall r :: Pending(w, id, r) ==> r in v.tasks && v.tasks[r] == w.tasks[r]
    ensures Alive(v, cfg, id, used, later)
  {
    SamePending(w, v, id);
  }

  lemma {:induction false} OtherGate(w: World, cfg: Config, id: string, e: Event)
    requires e.Gate? && e.req in w.tasks && w.tasks[e.req].Checked? && w.tasks[e.req].id != id
    ensures var v := Next(w, cfg, e);
            GateKey(id) in v.gate ==> GateKey(id) in w.gate && v.gate[GateKey(id)] == w.gate[GateKey(id)]
  {
    if GateKey(w.tasks[e.req].id) == GateKey(id) {
      KeysApart(w.tasks[e.req].id, id);
    }
  }

  /** Steps that are none of this session's gates, stamps or writes; its lookups must be in time. */
  lemma {:induction false} OthersKeepAlive(w: World, cfg: Config, id: string, used: int, clock: int, e: Event)
    requires Alive(w, cfg, id, used, clock) && !LogsIn(e, id) && clock <= TimeOf(e, clock)
    requires (e.Login? || e.Lookup? || e.Gate?) && !Gates(w, id, e)
    requires e.Lookup? && e.id == id ==> Accepts(w, id, e.now)
    ensures Alive(Next(w, cfg, e), cfg, id, used, TimeOf(e, clock))
  {
    var v := Next(w, cfg, e);
    if e.Gate? && e.req in w.tasks && w.tasks[e.req].Checked? {
      OtherGate(w, cfg, id, e);
    }
    forall r ensures Pending(v, id, r) <==> Pending(w, id, r) {
    }
    UntouchedStaysAlive(w, v, cfg, id, used, clock, TimeOf(e, clock));
  }

  lemma {:induction false} StepKeepsAlive(w: World, cfg: Config, id: string, used: int, clock: int, e: Event)
    requires Alive(w, cfg, id, used, clock) && cfg.interval > 0 && !LogsIn(e, id) && clock <= TimeOf(e, clock)
    requires NoOvertaking(w, id, e) && (e.Lookup? && e.id == id ==> Accepts(w, id, e.now))
    ensures Alive(Next(w, cfg, e), cfg, id, UsedAfter(w, cfg, id, used, e), TimeOf(e, clock))
  {
    if e.Stamp? {
      StampKeepsAlive(w, cfg, id, used, clock, e);
    } else if e.Write? {
      WriteKeepsAlive(w, cfg, id, used, clock, e);
    } else if Gates(w, id, e) {
      GateKeepsAlive(w, cfg, id, used, clock, e);
    } else {
      OthersKeepAlive(w, cfg, id, used, clock, e);
    }
  }

  /** Lookups of the session come within its window, and none of its requests overtakes another's write. */
  ghost predicate Serial(w: World, cfg: Config, id: string, expires: int, used: int, clock: int, events: seq<Event>)
    decreases |events|
  {
    events != [] ==>
      var e := events[0];
      && clock <= TimeOf(e, clock) && !LogsIn(e, id) && NoOvertaking(w, id, e)
      && (e.Lookup? && e.id == id ==> InWindow(cfg, used, expires, e.now))
      && Serial(Next(w, cfg, e), cfg, id, expires, UsedAfter(w, cfg, id, used, e), TimeOf(e, clock), events[1..])
  }

  lemma {:induction false} AliveIsCovered(w: World, cfg: Config, id: string, expires: int, used: int, clock: int)
    requires Alive(w, cfg, id, used, clock) && cfg.interval >= 0
    ensures CoveredAt(w, cfg, id, expires, used, clock)
  {
    var end := used + cfg.idle - cfg.interval;
    assert Unix(end) <= w.rows[id].idleDeadline;
    forall r | r in w.tasks && w.tasks[r].Writing? && w.tasks[r].id == id ensures Unix(end) <= w.tasks[r].deadline {
      assert Pending(w, id, r);
      UnixMonotone(end, w.tasks[r].at + cfg.idle);
    }
  }

  lemma {:induction false} SerialIsInTime(
    w: World, cfg: Config, id: string, expires: int, used: int, clock: int, events: seq<Event>)
    requires cfg.interval > 0 && Alive(w, cfg, id, used, clock) && Expires(w, id, expires)
    requires Serial(w, cfg, id, expires, used, clock, events)
    ensures UsedInTime(w, cfg, id, expires, used, clock, events)
    ensures FreshSince(Run(w, cfg, events), cfg, id, LastUse(w, cfg, id, used, events))
    decreases |events|
  {
    if events != [] {
      var e := events[0];
      var v, used', clock' := Next(w, cfg, e), UsedAfter(w, cfg, id, used, e), TimeOf(e, clock);
      AliveIsCovered(w, cfg, id, expires, used, clock);
      StepKeepsCovered(w, cfg, id, expires, used, clock, e);
      StepKeepsAlive(w, cfg, id, used, clock, e);
      AliveIsCovered(v, cfg, id, expires, used', clock');
      SerialIsInTime(v, cfg, id, expires, used', clock', events[1..]);
    }
  }

  /** When the session was last used, after the run. */
  ghost function LastUse(w: World, cfg: Config, id: string, used: int, events: seq<Event>): int
    decreases |events|
  {
    if events == [] then used
    else LastUse(Next(w, cfg, events[0]), cfg, id, UsedAfter(w, cfg, id, used, events[0]), events[1..])
  }

  lemma {:induction false} LoginIsAlive(w: World, cfg: Config, id: string, login: int)
    requires cfg.interval >= 0 && id !in w.rows && GateKey(id) !in w.gate && !Unwritten(w, id)
    ensures Alive(Next(w, cfg, Login(id, login)), cfg, id, login, login)
  {
    LoginIsCovered(w, cfg, id, login);
    var v := Next(w, cfg, Login(id, login));
    forall t | t <= login + cfg.idle - cfg.interval ensures Unix(t) <= v.rows[id].idleDeadline {
      UnixMonotone(t, login + cfg.idle);
    }
  }

  /** Without overtaking every use is covered, so the session stays alive. */
  lemma {:induction false} SerialSessionStaysAlive(w: World, cfg: Config, id: string, login: int, events: seq<Event>)
    requires cfg.interval > 0 && id !in w.rows && GateKey(id) !in w.gate && !Unwritten(w, id)
    requires Serial(Next(w, cfg, Login(id, login)), cfg, id, Unix(login + cfg.absolute), login, login, events)
    ensures AllAccepted(Next(w, cfg, Login(id, login)), cfg, id, events)
  {
    LoginIsAlive(w, cfg, id, login);
    LoginIsCovered(w, cfg, id, login);
    SerialIsInTime(Next(w, cfg, Login(id, login)), cfg, id, Unix(login + cfg.absolute), login, login, events);
    SessionInUseStaysAlive(w, cfg, id, login, events);
  }

  /**
    * And at every moment the idle deadline is beyond t + idle - interval, where t is the time at which the last handled
    * request passed the gate.
    */
  lemma {:induction false} HandledIsFresh(w: World, cfg: Config, id: string, login: int, events: seq<Event>)
    requires cfg.interval > 0 && id !in w.rows && GateKey(id) !in w.gate && !Unwritten(w, id)
    requires Serial(Next(w, cfg, Login(id, login)), cfg, id, Unix(login + cfg.absolute), login, login, events)
    ensures var v := Next(w, cfg, Login(id, login));
            FreshSince(Run(v, cfg, events), cfg, id, LastUse(v, cfg, id, login, events))
  {
    LoginIsAlive(w, cfg, id, login);
    LoginIsCovered(w, cfg, id, login);
    SerialIsInTime(Next(w, cfg, Login(id, login)), cfg, id, Unix(login + cfg.absolute), login, login, events);
  }

  // ---------------------------------------------------------------- overtaking does cost a session

  /** Idle 10 seconds, interval 2: gaps of up to 8 seconds should do. */
  function Sample(): Config {
    Config(1000 * SECOND, 10 * SECOND, 2 * SECOND)
  }

  /**
    * The condition is needed. Request 1 passes the gate at second 8 and does not get to write; request 2 is handled at
    * second 9, and a lookup at second 12, three seconds later, is refused.
    */
  lemma {:induction false} OvertakingCostsASession()
    ensures var w := Run(World(map[], map[], map[]), Sample(),
                         [Login("a", 0), Lookup(1, "a", 7 * SECOND), Gate(1, 8 * SECOND),
                          Lookup(2, "a", 8 * SECOND), Gate(2, 9 * SECOND)]);
            && 2 !in w.tasks && Pending(w, "a", 1)
            && !Accepts(w, "a", 12 * SECOND)
  {
    var cfg := Sample();
    var w0 := World(map[], map[], map[]);
    var es := [Login("a", 0), Lookup(1, "a", 7 * SECOND), Gate(1, 8 * SECOND), Lookup(2, "a", 8 * SECOND), Gate(2, 9 * SECOND)];
    var w1 := Next(w0, cfg, es[0]);
    var w2 := Next(w1, cfg, es[1]);
    var w3 := Next(w2, cfg, es[2]);
    var w4 := Next(w3, cfg, es[3]);
    var w5 := Next(w4, cfg, es[4]);
    assert w1.rows["a"].idleDeadline == 10;
    assert w3.tasks[1] == Owing("a", 8 * SECOND) && w3.gate[GateKey("a")] == 8 * SECOND;
    assert w4.tasks[2] == Checked("a");
    RunFive(w0, cfg, es);
  }

  lemma {:induction false} RunFive(w: World, cfg: Config, es: seq<Event>)
    requires |es| == 5
    ensures Run(w, cfg, es)
            == Next(Next(Next(Next(Next(w, cfg, es[0]), cfg, es[1]), cfg, es[2]), cfg, es[3]), cfg, es[4])
  {
    var w1 := Next(w, cfg, es[0]);
    var w2 := Next(w1, cfg, es[1]);
    var w3 := Next(w2, cfg, es[2]);
    var w4 := Next(w3, cfg, es[3]);
    assert es[1..][1..] == es[2..] && es[2..][1..] == es[3..] && es[3..][1..] == es[4..] && es[4..][1..] == [];
    assert Run(w4, cfg, es[4..]) == Next(w4, cfg, es[4]);
    assert Run(w3, cfg, es[3..]) == Run(w4, cfg, es[4..]);
    assert Run(w2, cfg, es[2..]) == Run(w3, cfg, es[3..]);
    assert Run(w1, cfg, es[1..]) == Run(w2, cfg, es[2..]);
  }
}
