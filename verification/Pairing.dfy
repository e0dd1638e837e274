/**
  * Pairing and init caches of server/internal/fwapp: Pair, Unpair, init fetches, hydration and restarts race
  * around one mutex. Every lock-held section is one step; slow calls are tasks that captured what they read.
  */
module Pairing {
  import opened Text

  /** Credentials; `rest` stands for the fields nobody compares. */
  datatype Creds = Creds(version: int, gid: string, eid: string, symKey: string, rest: string)

  /** One init response: the credentials that fetched it, a serial number, and what it contains. */
  datatype Response = Response(creds: Creds, serial: nat, hasRules: bool, hasObs: bool)

  /** The views parsed from a response. Optimistic host patches pile up on the rules view. */
  datatype Rules = Rules(origin: Response, patches: seq<(string, string)>)
  datatype Obs = Obs(origin: Response)
  datatype Features = Features(origin: Response)

  /** A snapshot and its refresh time; 0 is Go's zero time. */
  datatype Cached<+S> = Cached(snap: S, at: int)

  datatype Status = Status(state: string, lastErr: string, pingOk: bool, pingAt: int)

  /** The key-value store: the vault and the two persisted blobs. */
  datatype Kv = Kv(creds: Option<Creds>, rules: Option<Cached<Rules>>, obs: Option<Cached<Obs>>)

  datatype Svc = Svc(
    generation: nat,
    rules: Option<Cached<Rules>>, obs: Option<Cached<Obs>>, features: Option<Cached<Features>>,
    status: Status, kv: Kv)

  const MAX_AGE: int := 24 * 3600 * 1_000_000_000

  predicate Paired(kv: Kv) {
    kv.creds.Some? && kv.creds.value.symKey != ""
  }

  // ---------------------------------------------------------------- lock-held sections

  function Cleared(s: Svc): Svc {
    s.(rules := None, obs := None, features := None, kv := s.kv.(rules := None, obs := None))
  }

  /** Cloud pairing failed. */
  function PairFailed(s: Svc, gen: nat, err: string): Svc {
    if gen != s.generation then s else s.(status := s.status.(state := "error", lastErr := err))
  }

  /** Cloud pairing succeeded: save, bump the generation, drop everything cached or persisted. */
  function PairCommitted(s: Svc, gen: nat, creds: Creds): Svc {
    if gen != s.generation then s
    else
      var t := Cleared(s);
      t.(generation := s.generation + 1,
         kv := t.kv.(creds := Some(creds.(version := 1))),
         status := s.status.(state := "ready", lastErr := ""))
  }

  /** The LAN check after pairing. */
  function PingDone(s: Svc, gen: nat, ok: bool, now: int, err: string): Svc {
    if gen != s.generation then s
    else if ok then s.(status := Status("lan-ok", "", true, now))
    else s.(status := Status("lan-down", err, false, now))
  }

  function Unpaired(s: Svc): Svc {
    var t := Cleared(s);
    t.(generation := s.generation + 1, kv := t.kv.(creds := None), status := Status("unpaired", "", false, 0))
  }

  function FetchFailed(s: Svc, gen: nat, now: int, err: string): Svc {
    if gen != s.generation then s else s.(status := Status("lan-down", err, false, now))
  }

  /** An init response arrived: commit memory and blobs together, unless the pairing has moved on. */
  function InitApplied(s: Svc, gen: nat, c: Creds, r: Response, now: int): Svc {
    if !Paired(s.kv) || gen != s.generation then s
    else
      var c2 := s.kv.creds.value;
      if c2.gid != c.gid || c2.eid != c.eid || c2.symKey != c.symKey then s
      else
        var rules, obs := Cached(Rules(r, []), now), Cached(Obs(r), now);
        s.(rules := Some(rules), obs := Some(obs), features := Some(Cached(Features(r), now)),
           status := Status("lan-ok", "", true, now),
           kv := s.kv.(rules := Some(rules), obs := Some(obs)))
  }

  function RulesHydrated(s: Svc, now: int): Svc {
    if !Paired(s.kv) || s.kv.rules.None? || !s.kv.rules.value.snap.origin.hasRules then s
    else
      var p := s.kv.rules.value;
      s.(rules := Some(Cached(p.snap, if p.at == 0 then now else p.at)))
  }

  function ObsHydrated(s: Svc, now: int): Svc {
    if !Paired(s.kv) || s.kv.obs.None? || !s.kv.obs.value.snap.origin.hasObs || s.kv.obs.value.at == 0 then s
    else if now - s.kv.obs.value.at > MAX_AGE then s.(kv := s.kv.(obs := None))
    else s.(obs := s.kv.obs)
  }

  function HostPatched(s: Svc, mac: string, patch: string): Svc {
    if s.rules.None? then s
    else
      var c := s.rules.value;
      s.(rules := Some(c.(snap := c.snap.(patches := c.snap.patches + [(mac, patch)]))))
  }

  /** A new process: memory is gone, the store stays. */
  function Restarted(s: Svc): Svc {
    Svc(0, None, None, None, Status("unpaired", "", false, 0), s.kv)
  }

  // ---------------------------------------------------------------- interleavings

  /** A call in flight, with what it captured under the lock. */
  datatype Task = Pairing(gen: nat) | Pinging(gen: nat) | Fetching(gen: nat, creds: Creds)

  datatype World = World(svc: Svc, tasks: map<nat, Task>, next: nat)

  datatype Event =
    | StartPair
    | PairReply(task: nat, creds: Creds)
    | PairError(task: nat, err: string)
    | PingReply(task: nat, ok: bool, now: int, err: string)
    | StartFetch
    | FetchReply(task: nat, hasRules: bool, hasObs: bool, now: int)
    | FetchError(task: nat, now: int, err: string)
    | Abandon(task: nat)
    | DoUnpair
    | HydrateRules(now: int)
    | HydrateObs(now: int)
    | PatchHost(mac: string, patch: string)
    | OtherCommand(status: Status)
    | Restart

  function Drop(tasks: map<nat, Task>, t: nat): map<nat, Task> {
    tasks - {t}
  }

  /** One step. An event that does not apply changes nothing. */
  function Next(w: World, e: Event): World {
    match e
    case StartPair => w.(tasks := w.tasks[w.next := Pairing(w.svc.generation)], next := w.next + 1)
    case PairReply(t, c) =>
      if t in w.tasks && w.tasks[t].Pairing? then
        var gen := w.tasks[t].gen;
        var s := PairCommitted(w.svc, gen, c);
        var rest := Drop(w.tasks, t);
        if gen != w.svc.generation then w.(tasks := rest)
        else World(s, rest[w.next := Pinging(s.generation)], w.next + 1)
      else w
    case PairError(t, err) =>
      if t in w.tasks && w.tasks[t].Pairing?
      then w.(svc := PairFailed(w.svc, w.tasks[t].gen, err), tasks := Drop(w.tasks, t)) else w
    case PingReply(t, ok, now, err) =>
      if t in w.tasks && w.tasks[t].Pinging?
      then w.(svc := PingDone(w.svc, w.tasks[t].gen, ok, now, err), tasks := Drop(w.tasks, t)) else w
    case StartFetch =>
      if Paired(w.svc.kv)
      then w.(tasks := w.tasks[w.next := Fetching(w.svc.generation, w.svc.kv.creds.value)], next := w.next + 1)
      else w
    case FetchReply(t, hasRules, hasObs, now) =>
      if t in w.tasks && w.tasks[t].Fetching? then
        var task := w.tasks[t];
        var r := Response(task.creds, w.next, hasRules, hasObs);
        World(InitApplied(w.svc, task.gen, task.creds, r, now), Drop(w.tasks, t), w.next + 1)
      else w
    case FetchError(t, now, err) =>
      if t in w.tasks && w.tasks[t].Fetching?
      then w.(svc := FetchFailed(w.svc, w.tasks[t].gen, now, err), tasks := Drop(w.tasks, t)) else w
    case Abandon(t) => w.(tasks := Drop(w.tasks, t))
    case DoUnpair => w.(svc := Unpaired(w.svc))
    case HydrateRules(now) => w.(svc := RulesHydrated(w.svc, now))
    case HydrateObs(now) => w.(svc := ObsHydrated(w.svc, now))
    case PatchHost(mac, patch) => w.(svc := HostPatched(w.svc, mac, patch))
    case OtherCommand(status) => w.(svc := w.svc.(status := status))
    case Restart => World(Restarted(w.svc), map[], w.next)
  }

  function Run(w: World, events: seq<Event>): World
    decreases |events|
  {
    if events == [] then w else Run(Next(w, events[0]), events[1..])
  }

  function Fresh(): World {
    World(Svc(0, None, None, None, Status("unpaired", "", false, 0), Kv(None, None, None)), map[], 0)
  }

  // ---------------------------------------------------------------- what every step keeps

  /** The response behind each place that can hold a view of one. */
  ghost function Origins(s: Svc): set<Response> {
    (if s.rules.Some? then {s.rules.value.snap.origin} else {})
    + (if s.obs.Some? then {s.obs.value.snap.origin} else {})
    + (if s.features.Some? then {s.features.value.snap.origin} else {})
    + (if s.kv.rules.Some? then {s.kv.rules.value.snap.origin} else {})
    + (if s.kv.obs.Some? then {s.kv.obs.value.snap.origin} else {})
  }

  /** Everything held anywhere comes from one response, fetched with the credentials now in the vault. */
  ghost predicate OneSource(s: Svc) {
    && (forall r, q :: r in Origins(s) && q in Origins(s) ==> r == q)
    && (forall r :: r in Origins(s) ==> Paired(s.kv) && s.kv.creds == Some(r.creds))
  }

  /** No task is from the future, and a fetch of this generation holds the vault's credentials. */
  ghost predicate TasksCurrent(w: World) {
    forall t :: t in w.tasks ==>
      && t < w.next
      && w.tasks[t].gen <= w.svc.generation
      && (w.tasks[t].Fetching? && w.tasks[t].gen == w.svc.generation ==>
            Paired(w.svc.kv) && w.svc.kv.creds == Some(w.tasks[t].creds))
  }

  ghost predicate Inv(w: World) {
    OneSource(w.svc) && TasksCurrent(w)
  }

  /** Holding fewer views under the same credentials is always safe. */
  lemma {:induction false} FewerViews(s: Svc, t: Svc)
    requires OneSource(s) && Origins(t) <= Origins(s) && t.kv.creds == s.kv.creds
    ensures OneSource(t)
  {
  }

  lemma {:induction false} SameViews(s: Svc, t: Svc)
    requires OneSource(s) && t == s.(status := t.status)
    ensures OneSource(t)
  {
    FewerViews(s, t);
  }

  lemma {:induction false} HydrationKeepsOneSource(s: Svc, now: int)
    requires OneSource(s)
    ensures OneSource(RulesHydrated(s, now)) && OneSource(ObsHydrated(s, now))
  {
    FewerViews(s, RulesHydrated(s, now));
    FewerViews(s, ObsHydrated(s, now));
  }

  /** A new pairing leaves no view of an older response. */
  lemma {:induction false} PairKeepsOneSource(s: Svc, gen: nat, c: Creds)
    requires OneSource(s)
    ensures OneSource(PairCommitted(s, gen, c))
  {
    assert gen == s.generation ==> Origins(PairCommitted(s, gen, c)) == {};
  }

  /** A fetch of this generation replaces all five views at once. */
  lemma {:induction false} ApplyKeepsOneSource(w: World, task: Task, r: Response, now: int)
    requires Inv(w) && task.Fetching? && r.creds == task.creds
    requires task.gen == w.svc.generation ==> Paired(w.svc.kv) && w.svc.kv.creds == Some(task.creds)
    ensures OneSource(InitApplied(w.svc, task.gen, task.creds, r, now))
  {
    var s := InitApplied(w.svc, task.gen, task.creds, r, now);
    assert s != w.svc ==> Origins(s) == {r};
  }

  lemma {:induction false} StepKeepsOneSource(w: World, e: Event)
    requires Inv(w)
    ensures OneSource(Next(w, e).svc)
  {
    var s := Next(w, e).svc;
    match e {
      case PairReply(t, c) =>
        if t in w.tasks && w.tasks[t].Pairing? {
          PairKeepsOneSource(w.svc, w.tasks[t].gen, c);
        }
      case DoUnpair => assert Origins(s) == {};
      case FetchReply(t, hasRules, hasObs, now) =>
        if t in w.tasks && w.tasks[t].Fetching? {
          ApplyKeepsOneSource(w, w.tasks[t], Response(w.tasks[t].creds, w.next, hasRules, hasObs), now);
        }
      case HydrateRules(now) => HydrationKeepsOneSource(w.svc, now);
      case HydrateObs(now) => HydrationKeepsOneSource(w.svc, now);
      case PatchHost(mac, patch) => FewerViews(w.svc, s);
      case Restart => FewerViews(w.svc, s);
      case _ => SameViews(w.svc, s);
    }
  }

  lemma {:induction false} StepKeepsTasks(w: World, e: Event)
    requires Inv(w)
    ensures TasksCurrent(Next(w, e))
  {
  }

  lemma {:induction false} RunKeepsInv(w: World, events: seq<Event>)
    requires Inv(w)
    ensures Inv(Run(w, events))
    decreases |events|
  {
    if events != [] {
      StepKeepsOneSource(w, events[0]);
      StepKeepsTasks(w, events[0]);
      RunKeepsInv(Next(w, events[0]), events[1..]);
    }
  }

  /**
    * In every interleaving: an empty vault means five empty places, and otherwise all of them hold views of
    * one and the same response, fetched with the credentials in the vault.
    */
  lemma {:induction false} CachesMatchVault(events: seq<Event>)
    ensures var s := Run(Fresh(), events).svc;
            && (!Paired(s.kv) ==> Origins(s) == {})
            && OneSource(s)
  {
    RunKeepsInv(Fresh(), events);
  }

  // ---------------------------------------------------------------- stale calls

  /** The steps that replace the credentials. */
  ghost predicate Commits(w: World, e: Event) {
    || e.DoUnpair?
    || (e.PairReply? && e.task in w.tasks && w.tasks[e.task] == Pairing(w.svc.generation))
  }

  ghost function CommitCount(w: World, events: seq<Event>): nat
    decreases |events|
  {
    if events == [] then 0
    else (if Commits(w, events[0]) then 1 else 0) + CommitCount(Next(w, events[0]), events[1..])
  }

  lemma {:induction false} StepSeesCommit(w: World, e: Event, t: nat)
    requires TasksCurrent(w) && t < w.next && t in Next(w, e).tasks
    ensures t in w.tasks && Next(w, e).tasks[t] == w.tasks[t]
    ensures Next(w, e).svc.generation == w.svc.generation + if Commits(w, e) then 1 else 0
  {
  }

  /** A task that is still in flight has seen the generation grow by exactly the commits since. */
  lemma {:induction false} InFlightSeesCommits(w: World, events: seq<Event>, t: nat)
    requires Inv(w) && t < w.next && t in Run(w, events).tasks
    ensures t in w.tasks && Run(w, events).tasks[t] == w.tasks[t]
    ensures Run(w, events).svc.generation == w.svc.generation + CommitCount(w, events)
    decreases |events|
  {
    if events != [] {
      var v, rest := Next(w, events[0]), events[1..];
      StepKeepsOneSource(w, events[0]);
      StepKeepsTasks(w, events[0]);
      assert t < v.next;
      InFlightSeesCommits(v, rest, t);
      StepSeesCommit(w, events[0], t);
    }
  }

  ghost predicate Ends(e: Event, t: nat) {
    (e.PairReply? || e.PairError? || e.PingReply? || e.FetchReply? || e.FetchError?) && e.task == t
  }

  /** A Pair, LAN check or fetch that began before another Pair or Unpair committed changes nothing when it ends. */
  lemma {:induction false} StaleCallIsInert(w: World, events: seq<Event>, t: nat, e: Event)
    requires Inv(w) && t in w.tasks && CommitCount(w, events) > 0 && Ends(e, t)
    ensures Next(Run(w, events), e).svc == Run(w, events).svc
  {
    if t in Run(w, events).tasks {
      InFlightSeesCommits(w, events, t);
    }
  }

  /** Every pairing in flight began before the last commit. */
  ghost predicate OnlyStalePairs(w: World) {
    forall t :: t in w.tasks && w.tasks[t].Pairing? ==> w.tasks[t].gen < w.svc.generation
  }

  lemma {:induction false} NoNewPairNoVault(w: World, events: seq<Event>)
    requires OnlyStalePairs(w) && w.svc.kv.creds.None?
    requires forall i :: 0 <= i < |events| ==> !events[i].StartPair?
    ensures Run(w, events).svc.kv.creds.None?
    decreases |events|
  {
    if events != [] {
      assert !events[0].StartPair?;
      NoNewPairNoVault(Next(w, events[0]), events[1..]);
    }
  }

  /** After an Unpair nothing comes back, whatever was in flight, until a new Pair is started. */
  lemma {:induction false} UnpairSticks(w: World, events: seq<Event>)
    requires Inv(w) && forall i :: 0 <= i < |events| ==> !events[i].StartPair?
    ensures var s := Run(Next(w, DoUnpair), events).svc; s.kv.creds.None? && Origins(s) == {}
  {
    StepKeepsOneSource(w, DoUnpair);
    StepKeepsTasks(w, DoUnpair);
    RunKeepsInv(Next(w, DoUnpair), events);
    NoNewPairNoVault(Next(w, DoUnpair), events);
  }

  // ---------------------------------------------------------------- calls that nothing overtook

  /** Nothing is held anywhere. */
  predicate Blank(s: Svc) {
    s.rules == None && s.obs == None && s.features == None && s.kv.rules == None && s.kv.obs == None
  }

  /** All three caches and both blobs hold this response's views as of that time. */
  predicate Filled(s: Svc, r: Response, now: int) {
    && s.rules == Some(Cached(Rules(r, []), now)) && s.kv.rules == Some(Cached(Rules(r, []), now))
    && s.obs == Some(Cached(Obs(r), now)) && s.kv.obs == Some(Cached(Obs(r), now))
    && s.features == Some(Cached(Features(r), now))
  }

  /**
    * A fetch that is still in flight, with no Pair or Unpair committed since it began, takes effect in full when its
    * reply comes: everything is filled with that reply, under the credentials it was fetched with.
    */
  lemma {:induction false} FreshFetchFills(
    before: seq<Event>, events: seq<Event>, hasRules: bool, hasObs: bool, now: int)
    requires var w := Run(Fresh(), before);
             && Paired(w.svc.kv) && w.next in Run(Next(w, StartFetch), events).tasks
             && CommitCount(Next(w, StartFetch), events) == 0
    ensures var w := Run(Fresh(), before);
            var v := Run(Next(w, StartFetch), events);
            var g := Next(v, FetchReply(w.next, hasRules, hasObs, now));
            && Filled(g.svc, Response(w.svc.kv.creds.value, v.next, hasRules, hasObs), now)
            && g.svc.kv.creds == w.svc.kv.creds && g.svc.generation == w.svc.generation
            && g.svc.status == Status("lan-ok", "", true, now) && w.next !in g.tasks
  {
    var w := Run(Fresh(), before);
    RunKeepsInv(Fresh(), before);
    var w1 := Next(w, StartFetch);
    StepKeepsOneSource(w, StartFetch);
    StepKeepsTasks(w, StartFetch);
    RunKeepsInv(w1, events);
    InFlightSeesCommits(w1, events, w.next);
  }

  /** Likewise a pairing: the vault has the new credentials, nothing old is left, and the LAN check is under way. */
  lemma {:induction false} FreshPairCommits(before: seq<Event>, events: seq<Event>, creds: Creds)
    requires var w := Run(Fresh(), before);
             && w.next in Run(Next(w, StartPair), events).tasks && CommitCount(Next(w, StartPair), events) == 0
    ensures var w := Run(Fresh(), before);
            var v := Run(Next(w, StartPair), events);
            var g := Next(v, PairReply(w.next, creds));
            && Blank(g.svc) && g.svc.kv.creds == Some(creds.(version := 1))
            && g.svc.generation == w.svc.generation + 1
            && g.svc.status == v.svc.status.(state := "ready", lastErr := "")
            && v.next in g.tasks && g.tasks[v.next] == Pinging(w.svc.generation + 1)
  {
    var w := Run(Fresh(), before);
    RunKeepsInv(Fresh(), before);
    var w1 := Next(w, StartPair);
    StepKeepsOneSource(w, StartPair);
    StepKeepsTasks(w, StartPair);
    RunKeepsInv(w1, events);
    InFlightSeesCommits(w1, events, w.next);
  }

  /** An Unpair leaves nothing, and every call now in flight is stale. */
  lemma {:induction false} UnpairLeavesNothing(before: seq<Event>)
    ensures var w := Run(Fresh(), before);
            var g := Next(w, DoUnpair);
            && Blank(g.svc) && g.svc.kv.creds == None && g.svc.status == Status("unpaired", "", false, 0)
            && g.tasks == w.tasks && forall t :: t in g.tasks ==> g.tasks[t].gen < g.svc.generation
  {
    RunKeepsInv(Fresh(), before);
  }

  /** A new process shows the stored views of a paired box, the rules always and the observatory while it is not too old. */
  lemma {:induction false} RestartShowsStored(s: Svc, now: int)
    requires Paired(s.kv)
    ensures var t := RulesHydrated(Restarted(s), now);
            && t.kv == s.kv && t.obs == None && t.features == None
            && t.status == Status("unpaired", "", false, 0) && t.generation == 0
            && (s.kv.rules.Some? && s.kv.rules.value.snap.origin.hasRules ==>
                  t.rules == Some(Cached(s.kv.rules.value.snap, if s.kv.rules.value.at == 0 then now else s.kv.rules.value.at)))
            && (s.kv.rules.None? || !s.kv.rules.value.snap.origin.hasRules ==> t.rules == None)
    ensures var t := ObsHydrated(Restarted(s), now);
            && t.kv.creds == s.kv.creds && t.kv.rules == s.kv.rules && t.rules == None && t.features == None
            && (s.kv.obs.Some? && s.kv.obs.value.snap.origin.hasObs && s.kv.obs.value.at != 0 ==>
                  if now - s.kv.obs.value.at > 24 * 3600 * 1_000_000_000 then t.obs == None && t.kv.obs == None
                  else t.obs == s.kv.obs && t.kv.obs == s.kv.obs)
            && (s.kv.obs.None? || !s.kv.obs.value.snap.origin.hasObs || s.kv.obs.value.at == 0 ==>
                  t.obs == None && t.kv.obs == s.kv.obs)
  {
  }

  /** The first process starts as one that was restarted over an empty store. */
  lemma {:induction false} FreshIsRestarted()
    ensures Restarted(Fresh().svc) == Fresh().svc && Fresh().svc.kv == Kv(None, None, None)
  {
  }

  /** Failed calls of the current generation only change the status, and so does the LAN check. */
  lemma {:induction false} OutcomesShow(w: World, t: nat, ok: bool, now: int, err: string)
    requires t in w.tasks && w.tasks[t].gen == w.svc.generation
    ensures w.tasks[t].Pairing? ==>
              Next(w, PairError(t, err)).svc == w.svc.(status := w.svc.status.(state := "error", lastErr := err))
    ensures w.tasks[t].Pinging? ==>
              Next(w, PingReply(t, ok, now, err)).svc
              == w.svc.(status := if ok then Status("lan-ok", "", true, now) else Status("lan-down", err, false, now))
    ensures w.tasks[t].Fetching? ==>
              Next(w, FetchError(t, now, err)).svc == w.svc.(status := Status("lan-down", err, false, now))
  {
  }

  // ---------------------------------------------------------------- dying inside a section

  /**
    * What a new process finds when the old one died after it changed the vault, in a Pair or an Unpair, and before it
    * had cleared both blobs; the rules blob is cleared first.
    */
  function DiedClearing(s: Svc, vault: Option<Creds>, rulesCleared: bool): Svc {
    Restarted(s.(kv := s.kv.(creds := vault, rules := if rulesCleared then None else s.kv.rules)))
  }

  /** What it finds when the old one died in a fetch's commit, between writing the rules blob and the observatory blob. */
  function DiedStoring(s: Svc, r: Response, now: int): Svc {
    Restarted(s.(kv := s.kv.(rules := Some(Cached(Rules(r, []), now)))))
  }

  /** The response was fetched with usable credentials that are now in the vault. */
  predicate FetchedWith(vault: Option<Creds>, r: Response) {
    vault == Some(r.creds) && r.creds.symKey != ""
  }

  /**
    * A section is one step only while the process lives. Dying while the blobs are being cleared is harmless if and only
    * if every blob still there was fetched with the credentials now in the vault; after an Unpair, if none is there.
    */
  lemma {:induction false} DyingWhileClearingIsSafeIff(s: Svc, vault: Option<Creds>, rulesCleared: bool)
    requires OneSource(s)
    ensures OneSource(DiedClearing(s, vault, rulesCleared)) <==>
            && (!rulesCleared && s.kv.rules.Some? ==> FetchedWith(vault, s.kv.rules.value.snap.origin))
            && (s.kv.obs.Some? ==> FetchedWith(vault, s.kv.obs.value.snap.origin))
  {
    var t := DiedClearing(s, vault, rulesCleared);
    assert Origins(t) <= Origins(s);
    assert !rulesCleared && s.kv.rules.Some? ==> s.kv.rules.value.snap.origin in Origins(t);
    assert s.kv.obs.Some? ==> s.kv.obs.value.snap.origin in Origins(t);
  }

  /** The new credentials are saved and nothing is cleared yet. */
  lemma {:induction false} DyingInCommitIsSafeIff(s: Svc, creds: Creds)
    requires OneSource(s)
    ensures OneSource(DiedClearing(s, Some(creds.(version := 1)), false)) <==>
            && (s.kv.rules.Some? ==> creds.symKey != "" && s.kv.rules.value.snap.origin.creds == creds.(version := 1))
            && (s.kv.obs.Some? ==> creds.symKey != "" && s.kv.obs.value.snap.origin.creds == creds.(version := 1))
  {
    DyingWhileClearingIsSafeIff(s, Some(creds.(version := 1)), false);
  }

  /**
    * Dying between the two blob writes of a fetch leaves blobs of the vault's credentials, and blobs of one response if
    * and only if no older observatory blob was stored.
    */
  lemma {:induction false} DyingInFetchIsSafeIff(s: Svc, r: Response, now: int)
    requires OneSource(s) && FetchedWith(s.kv.creds, r) && r !in Origins(s)
    ensures forall q :: q in Origins(DiedStoring(s, r, now)) ==> FetchedWith(s.kv.creds, q)
    ensures OneSource(DiedStoring(s, r, now)) <==> s.kv.obs.None?
  {
    var t := DiedStoring(s, r, now);
    assert r in Origins(t) && Origins(t) <= Origins(s) + {r};
    assert s.kv.obs.Some? ==> s.kv.obs.value.snap.origin in Origins(t);
  }

  /** A pairing with one box, a fetch, and death in the commit of a pairing with another: its rules are shown. */
  lemma {:induction false} DeathShowsForeignRules(a: Creds, b: Creds)
    requires a.version == b.version == 1 && a != b && a.symKey != "" && b.symKey != ""
    ensures var s := Run(Fresh(), [StartPair, PairReply(0, a), StartFetch, FetchReply(2, true, true, 1)]).svc;
            var t := RulesHydrated(DiedClearing(s, Some(b), false), 2);
            t.kv.creds == Some(b) && t.rules.Some? && t.rules.value.snap.origin.creds == a
  {
    var events := [StartPair, PairReply(0, a), StartFetch, FetchReply(2, true, true, 1)];
    var w1 := Next(Fresh(), events[0]);
    var w2 := Next(w1, events[1]);
    var w3 := Next(w2, events[2]);
    var w4 := Next(w3, events[3]);
    assert w1.tasks[0] == Pairing(0) && w2.svc.kv.creds == Some(a);
    assert w3.tasks[2] == Fetching(1, a);
    assert w4.svc.kv.rules.value.snap.origin == Response(a, 3, true, true);
    RunFour(Fresh(), events);
  }

  lemma {:induction false} RunFour(w: World, es: seq<Event>)
    requires |es| == 4
    ensures Run(w, es) == Next(Next(Next(Next(w, es[0]), es[1]), es[2]), es[3])
  {
    var w1 := Next(w, es[0]);
    var w2 := Next(w1, es[1]);
    var w3 := Next(w2, es[2]);
    assert es[1..][1..] == es[2..] && es[2..][1..] == es[3..] && es[3..][1..] == [];
    assert Run(w3, es[3..]) == Next(w3, es[3]);
    assert Run(w2, es[2..]) == Run(w3, es[3..]);
    assert Run(w1, es[1..]) == Run(w2, es[2..]);
  }

  // ---------------------------------------------------------------- the service object

  /** The service's fields, and the sections of its methods that run under its mutex. */
  class Service {
    var pairGeneration: nat
    var rules: Option<Cached<Rules>>
    var obsCache: Option<Cached<Obs>>
    var features: Option<Cached<Features>>
    var status: Status
    var kv: Kv

    ghost function State(): Svc
      reads this
    {
      Svc(pairGeneration, rules, obsCache, features, status, kv)
    }

    constructor (store: Kv)
      ensures State() == Restarted(Svc(0, None, None, None, Status("", "", false, 0), store))
    {
      pairGeneration := 0;
      rules, obsCache, features := None, None, None;
      status := Status("unpaired", "", false, 0);
      kv := store;
    }

    method FailPair(generation: nat, err: string)
      modifies this
      ensures State() == PairFailed(old(State()), generation, err)
    {
      if generation != pairGeneration {
        return;
      }
      status := status.(state := "error", lastErr := err);
    }

    method ClearAll()
      modifies this
      ensures State() == Cleared(old(State()))
    {
      rules := None;
      obsCache := None;
      features := None;
      kv := kv.(rules := None);
      kv := kv.(obs := None);
    }

    /** Returns the new generation, or None when the pairing was overtaken. */
    method CommitPair(generation: nat, creds: Creds) returns (mine: Option<nat>)
      modifies this
      ensures State() == PairCommitted(old(State()), generation, creds)
      ensures mine == if generation == old(pairGeneration) then Some(pairGeneration) else None
      ensures mine.Some? ==> Blank(State()) && kv.creds == Some(creds.(version := 1))
    {
      if pairGeneration != generation {
        return None;
      }
      kv := kv.(creds := Some(creds.(version := 1)));
      pairGeneration := pairGeneration + 1;
      mine := Some(pairGeneration);
      ClearAll();
      status := status.(state := "ready", lastErr := "");
    }

    method FinishPing(generation: nat, ok: bool, now: int, err: string)
      modifies this
      ensures State() == PingDone(old(State()), generation, ok, now, err)
    {
      if generation != pairGeneration {
        return;
      }
      if ok {
        status := Status("lan-ok", "", true, now);
      } else {
        status := Status("lan-down", err, false, now);
      }
    }

    method Unpair()
      modifies this
      ensures State() == Unpaired(old(State()))
      ensures Blank(State()) && kv.creds == None
    {
      kv := kv.(creds := None);
      pairGeneration := pairGeneration + 1;
      ClearAll();
      status := Status("unpaired", "", false, 0);
    }

    /** What a fetch captures before it leaves the lock. */
    method BeginFetch() returns (captured: Option<(nat, Creds)>)
      ensures captured == if Paired(kv) then Some((pairGeneration, kv.creds.value)) else None
    {
      if kv.creds.None? || kv.creds.value.symKey == "" {
        return None;
      }
      captured := Some((pairGeneration, kv.creds.value));
    }

    method FailFetch(generation: nat, now: int, err: string)
      modifies this
      ensures State() == FetchFailed(old(State()), generation, now, err)
    {
      if generation == pairGeneration {
        status := Status("lan-down", err, false, now);
      }
    }

    method ApplyInit(generation: nat, c: Creds, raw: Response, now: int) returns (applied: bool)
      modifies this
      ensures State() == InitApplied(old(State()), generation, c, raw, now)
      ensures if applied then Filled(State(), raw, now) else State() == old(State())
      ensures applied <==>
        && old(kv).creds.Some? && old(kv).creds.value.symKey != "" && generation == old(pairGeneration)
        && old(kv).creds.value.gid == c.gid && old(kv).creds.value.eid == c.eid && old(kv).creds.value.symKey == c.symKey
    {
      if kv.creds.None? || kv.creds.value.symKey == "" || generation != pairGeneration {
        return false;
      }
      var c2 := kv.creds.value;
      if c2.gid != c.gid || c2.eid != c.eid || c2.symKey != c.symKey {
        return false;
      }
      rules := Some(Cached(Rules(raw, []), now));
      obsCache := Some(Cached(Obs(raw), now));
      features := Some(Cached(Features(raw), now));
      status := Status("lan-ok", "", true, now);
      kv := kv.(rules := Some(Cached(Rules(raw, []), now)));
      kv := kv.(obs := Some(Cached(Obs(raw), now)));
      applied := true;
    }

    method HydrateRulesCache(now: int)
      modifies this
      ensures State() == RulesHydrated(old(State()), now)
    {
      if kv.creds.None? || kv.creds.value.symKey == "" || kv.rules.None? {
        return;
      }
      var p := kv.rules.value;
      if !p.snap.origin.hasRules {
        return;
      }
      var at := p.at;
      if at == 0 {
        at := now;
      }
      rules := Some(Cached(p.snap, at));
    }

    method HydrateObservatoryCache(now: int)
      modifies this
      ensures State() == ObsHydrated(old(State()), now)
    {
      if kv.creds.None? || kv.creds.value.symKey == "" || kv.obs.None? {
        return;
      }
      var p := kv.obs.value;
      if !p.snap.origin.hasObs || p.at == 0 {
        return;
      }
      if now - p.at > MAX_AGE {
        kv := kv.(obs := None);
        return;
      }
      obsCache := Some(p);
    }

    method OverlayHostPolicy(mac: string, patch: string)
      modifies this
      ensures State() == HostPatched(old(State()), mac, patch)
      ensures old(rules).None? ==> rules.None?
      ensures old(rules).Some? ==>
        var c := old(rules).value;
        rules == Some(Cached(Rules(c.snap.origin, c.snap.patches + [(mac, patch)]), c.at))
    {
      if rules.Some? {
        var c := rules.value;
        rules := Some(c.(snap := c.snap.(patches := c.snap.patches + [(mac, patch)])));
      }
    }
  }
}
