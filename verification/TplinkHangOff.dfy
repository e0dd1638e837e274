/** Parent search of server/internal/tplink/merge.go: find the deepest port that saw a TP-Link switch. */
module TplinkHangOff {
  import opened Text
  import opened Inventory
  import opened ParentsFirst
  import opened Descent

  // ---------------------------------------------------------------- depth

  /** Uplinks followed from `cur` before the chain ends, leaves the catalog or repeats. */
  function Depth(m: map<string, Switch>, cur: string, seen: set<string>): nat
    decreases m.Keys - seen
  {
    if cur == "" || cur in seen || cur !in m || m[cur].parentMac == "" then 0
    else 1 + Depth(m, m[cur].parentMac, seen + {cur})
  }

  /** `parentDepth`: ends on every parent graph, cyclic or not. */
  method ParentDepth(sws: seq<Switch>, mac: string) returns (d: nat)
    ensures d == Depth(PendingOf(sws), mac, {})
  {
    var m := FillPending(sws);
    var seen: set<string> := {};
    var cur := mac;
    d := 0;
    while cur != "" && cur !in seen
      invariant d + Depth(m, cur, seen) == Depth(m, mac, {})
      decreases m.Keys - seen, cur in m
    {
      if cur !in m || m[cur].parentMac == "" {
        return;
      }
      seen, d, cur := seen + {cur}, d + 1, m[cur].parentMac;
    }
  }

  /** What the depth counts where the chain ends: the uplinks up to a switch without one, or to one not in the catalog. */
  lemma {:induction false} DepthOfChain(m: map<string, Switch>, k: string, end: string, n: nat, seen: set<string>)
    requires "" !in m && end in m && Up(m, k, n) == Some(end) && Up(m, k, n + 1).None?
    requires forall i: nat :: i <= n ==> Up(m, k, i).Some? && Up(m, k, i).value !in seen
    ensures Depth(m, k, seen) == if m[end].parentMac == "" then n else n + 1
    decreases n
  {
    assert Up(m, k, 0) == Some(k);
    if n > 0 {
      var q := m[k].parentMac;
      forall i: nat | i <= n - 1 ensures Up(m, q, i).Some? && Up(m, q, i).value !in seen + {k} {
        assert Up(m, q, i) == Up(m, k, i + 1);
        NoReturn(m, k, n, i + 1);
      }
      assert Up(m, q, n - 1) == Up(m, k, n) && Up(m, q, n) == Up(m, k, n + 1);
      DepthOfChain(m, q, end, n - 1, seen + {k});
    } else {
      OneUp(m, k);
    }
  }

  lemma {:induction false} OneUp(m: map<string, Switch>, k: string)
    requires k in m
    ensures Waits(m, m[k]) ==> Up(m, k, 1) == Some(m[k].parentMac)
  {
    assert Waits(m, m[k]) ==> Up(m, m[k].parentMac, 0) == Some(m[k].parentMac);
  }

  /** A chain that ends does not come back to where it started. */
  lemma {:induction false} NoReturn(m: map<string, Switch>, k: string, n: nat, i: nat)
    requires Up(m, k, n + 1).None? && 0 < i
    ensures Up(m, k, i) != Some(k)
  {
    if Up(m, k, i) == Some(k) {
      assert Up(m, k, 0) == Some(k);
      assert ReachesCycle(m, k);
      CycleNeverEnds(m, k);
    }
  }

  /** And where it runs into a cycle: the switches up to the first one that comes a second time, here the `back`-th. */
  lemma {:induction false} DepthOfCycle(m: map<string, Switch>, k: string, n: nat, back: nat, seen: set<string>)
    requires "" !in m && Up(m, k, n).Some? && back <= n
    requires if back < n then Up(m, k, back) == Up(m, k, n) else Up(m, k, n).value in seen
    requires forall i: nat :: i < n ==> Up(m, k, i).Some? && Up(m, k, i).value !in seen
    requires forall i: nat, j: nat :: i < j < n ==> Up(m, k, i) != Up(m, k, j)
    ensures Depth(m, k, seen) == n
    decreases n
  {
    assert Up(m, k, 0) == Some(k);
    if n > 0 {
      var q := m[k].parentMac;
      assert Up(m, k, n) == Up(m, q, n - 1);
      forall i: nat | i < n - 1 ensures Up(m, q, i).Some? && Up(m, q, i).value !in seen + {k} {
        assert Up(m, k, i + 1) == Up(m, q, i) && Up(m, k, i + 1) != Up(m, k, 0);
      }
      forall i: nat, j: nat | i < j < n - 1 ensures Up(m, q, i) != Up(m, q, j) {
        assert Up(m, k, i + 1) == Up(m, q, i) && Up(m, k, j + 1) == Up(m, q, j);
        assert Up(m, k, i + 1) != Up(m, k, j + 1);
      }
      if 0 < back < n {
        assert Up(m, k, back) == Up(m, q, back - 1);
        DepthOfCycle(m, q, n - 1, back - 1, seen + {k});
      } else {
        DepthOfCycle(m, q, n - 1, n - 1, seen + {k});
      }
    }
  }

  /** A marked MAC that is not on the chain does not shorten it. */
  lemma {:induction false} DepthIgnores(m: map<string, Switch>, k: string, n: nat, seen: set<string>, x: string)
    requires Up(m, k, n) == None && forall i: nat :: Up(m, k, i) != Some(x)
    ensures Depth(m, k, seen + {x}) == Depth(m, k, seen)
    decreases n
  {
    if k in m && k != "" && k !in seen && m[k].parentMac != "" {
      assert Up(m, k, 0) == Some(k);
      var q := m[k].parentMac;
      if q in m {
        forall i: nat ensures Up(m, q, i) != Some(x) {
          assert Up(m, k, i + 1) == Up(m, q, i);
        }
        DepthIgnores(m, q, n - 1, seen + {k}, x);
        assert seen + {k} + {x} == seen + {x} + {k};
      }
    }
  }

  /** A switch below a chain that ends is exactly one deeper. */
  lemma {:induction false} ChildIsDeeper(m: map<string, Switch>, child: string, parent: string)
    requires child in m && child != "" && parent != "" && m[child].parentMac == parent
    requires parent in m && Grounded(m, parent)
    ensures Depth(m, child, {}) == Depth(m, parent, {}) + 1
  {
    GroundedParent(m, child);
    forall i: nat ensures Up(m, parent, i) != Some(child) {
      if Up(m, parent, i) == Some(child) {
        assert Up(m, child, i + 1) == Some(child) && Up(m, child, 0) == Some(child);
        assert ReachesCycle(m, child);
        CycleNeverEnds(m, child);
      }
    }
    var n: nat :| Up(m, parent, n) == None;
    DepthIgnores(m, parent, n, {}, child);
    assert {} + {child} == {child};
  }

  // ---------------------------------------------------------------- hits

  datatype Hit = Hit(port: string, depth: nat, unifi: bool, mac: string)

  predicate Better(h: Hit, best: Hit) {
    || h.depth > best.depth
    || (h.depth == best.depth && h.unifi && !best.unifi)
    || (h.depth == best.depth && h.unifi == best.unifi && Less(h.mac, best.mac))
  }

  /** What makes a parent at least as good: depth first, then a UniFi switch, then the lesser MAC. */
  ghost predicate Tops(best: Hit, h: Hit) {
    && h.depth <= best.depth
    && (h.depth == best.depth && h.unifi ==> best.unifi)
    && (h.depth == best.depth && h.unifi == best.unifi ==> !Less(h.mac, best.mac))
  }

  lemma {:induction false} TopsMeansNotBetter(best: Hit, h: Hit)
    ensures Tops(best, h) <==> !Better(h, best)
    ensures Tops(best, best)
  {
    LessTotal(best.mac, best.mac);
  }

  lemma {:induction false} TopsOrder(a: Hit, b: Hit, c: Hit)
    requires Tops(b, a) && !Tops(b, c)
    ensures Tops(c, a) && !Tops(a, c)
  {
    LessTotal(a.mac, b.mac);
    LessTotal(b.mac, c.mac);
    LessTotal(a.mac, c.mac);
    if Less(c.mac, b.mac) && Less(b.mac, a.mac) {
      LessTransitive(c.mac, b.mac, a.mac);
    }
  }

  /** `best` is the k-th hit, it tops every hit, and no earlier one tops it. */
  ghost predicate Picks(hits: seq<Hit>, best: Hit, k: nat) {
    && k < |hits| && hits[k] == best
    && (forall h :: h in hits ==> Tops(best, h))
    && (forall j :: 0 <= j < k ==> !Tops(hits[j], best))
  }

  ghost predicate IsPick(hits: seq<Hit>, best: Hit) {
    exists at :: Picks(hits, best, at)
  }

  /** `pickBest`: the first of the best hits. */
  method PickBest(hits: seq<Hit>) returns (best: Hit)
    requires hits != []
    ensures IsPick(hits, best)
  {
    ghost var at := 0;
    best := hits[0];
    TopsMeansNotBetter(best, best);
    for i := 1 to |hits|
      invariant at < i && hits[at] == best
      invariant forall k :: 0 <= k < i ==> Tops(best, hits[k])
      invariant forall k :: 0 <= k < at ==> !Tops(hits[k], best)
    {
      TopsMeansNotBetter(hits[i], hits[i]);
      TopsMeansNotBetter(best, hits[i]);
      if Better(hits[i], best) {
        forall k | 0 <= k < i ensures Tops(hits[i], hits[k]) && !Tops(hits[k], hits[i]) {
          TopsOrder(hits[k], best, hits[i]);
        }
        best, at := hits[i], i;
      }
    }
    assert Picks(hits, best, at);
  }

  ghost predicate Spots(ports: seq<Port>, port: string, want: string) {
    exists j :: 0 <= j < |ports| && ports[j].id == port && want in ports[j].clients
  }

  ghost predicate Sees(sw: Switch, port: string, want: string) {
    Spots(sw.ports, port, want)
  }

  /** `h` records that some other switch saw the wanted MAC on that port. */
  ghost predicate IsHit(sws: seq<Switch>, want: string, h: Hit) {
    exists i :: 0 <= i < |sws| && HitAt(sws, want, h, i)
  }

  ghost predicate HitAt(sws: seq<Switch>, want: string, h: Hit, i: int)
    requires 0 <= i < |sws|
  {
    && sws[i].mac != want && sws[i].mac == h.mac && Sees(sws[i], h.port, want)
    && h.depth == Depth(PendingOf(sws), h.mac, {}) && h.unifi == (sws[i].source == "unifi")
  }

  /** The hits on the first n switches in catalog order, with the switch of each. */
  ghost predicate Listed(sws: seq<Switch>, want: string, hits: seq<Hit>, from: seq<nat>, n: nat)
    requires n <= |sws|
  {
    && |from| == |hits|
    && Placed(sws, want, hits, from, n)
    && InOrder(from)
    && FirstPorts(sws, want, hits, from)
    && AllListed(sws, want, hits, from, n)
  }

  ghost predicate Placed(sws: seq<Switch>, want: string, hits: seq<Hit>, from: seq<nat>, n: nat)
    requires n <= |sws| && |from| == |hits|
  {
    forall k :: 0 <= k < |from| ==> from[k] < n && HitAt(sws, want, hits[k], from[k])
  }

  ghost predicate InOrder(from: seq<nat>) {
    forall j, k :: 0 <= j < k < |from| ==> from[j] <= from[k]
  }

  /** A switch's first hit is on its first port that saw the MAC. */
  ghost predicate FirstPorts(sws: seq<Switch>, want: string, hits: seq<Hit>, from: seq<nat>)
    requires |from| == |hits|
  {
    forall k :: 0 <= k < |from| && NewSwitch(from, k) ==> OnFirstPort(sws, want, hits[k], from[k])
  }

  predicate NewSwitch(from: seq<nat>, k: nat)
    requires k < |from|
  {
    k > 0 ==> from[k - 1] != from[k]
  }

  ghost predicate OnFirstPort(sws: seq<Switch>, want: string, h: Hit, i: nat) {
    i < |sws| && PortOf(sws[i].ports, want) == Some(h.port)
  }

  ghost predicate AllListed(sws: seq<Switch>, want: string, hits: seq<Hit>, from: seq<nat>, n: nat)
    requires n <= |sws| && |from| == |hits|
  {
    forall h, i :: 0 <= i < n && HitAt(sws, want, h, i) ==> ListedAt(hits, from, h, i)
  }

  ghost predicate ListedAt(hits: seq<Hit>, from: seq<nat>, h: Hit, i: int) {
    exists k :: 0 <= k < |hits| && k < |from| && hits[k] == h && from[k] == i
  }

  ghost predicate IsListing(sws: seq<Switch>, want: string, hits: seq<Hit>) {
    exists from :: Listed(sws, want, hits, from, |sws|)
  }

  method PortHits(sws: seq<Switch>, want: string) returns (hits: seq<Hit>)
    ensures IsListing(sws, want, hits)
  {
    ghost var from: seq<nat> := [];
    hits := [];
    for i := 0 to |sws|
      invariant Listed(sws, want, hits, from, i)
    {
      var more := [];
      if sws[i].mac != want {
        more := HitsOn(sws, want, i);
      }
      ListedGrows(sws, want, hits, from, i, more);
      hits, from := hits + more, from + Repeat(i, |more|);
    }
    assert Listed(sws, want, hits, from, |sws|);
  }

  function Repeat(i: nat, n: nat): seq<nat> {
    seq(n, _ => i)
  }

  lemma {:induction false} ListedGrows(
    sws: seq<Switch>, want: string, hits: seq<Hit>, from: seq<nat>, i: nat, more: seq<Hit>)
    requires i < |sws| && Listed(sws, want, hits, from, i)
    requires forall h :: h in more <==> HitAt(sws, want, h, i)
    requires more != [] ==> OnFirstPort(sws, want, more[0], i)
    ensures Listed(sws, want, hits + more, from + Repeat(i, |more|), i + 1)
  {
    PlacedGrows(sws, want, hits, from, i, more);
    FirstPortsGrow(sws, want, hits, from, i, more);
    AllListedGrows(sws, want, hits, from, i, more);
    assert |Repeat(i, |more|)| == |more|;
  }

  lemma {:induction false} PlacedGrows(
    sws: seq<Switch>, want: string, hits: seq<Hit>, from: seq<nat>, i: nat, more: seq<Hit>)
    requires i < |sws| && |hits| == |from| && Placed(sws, want, hits, from, i) && InOrder(from)
    requires forall h :: h in more ==> HitAt(sws, want, h, i)
    ensures Placed(sws, want, hits + more, from + Repeat(i, |more|), i + 1) && InOrder(from + Repeat(i, |more|))
  {
    var hits', from' := hits + more, from + Repeat(i, |more|);
    forall k | 0 <= k < |from'| ensures from'[k] < i + 1 && HitAt(sws, want, hits'[k], from'[k]) {
      if k >= |hits| {
        assert hits'[k] == more[k - |hits|] && more[k - |hits|] in more;
      }
    }
    forall j, k | 0 <= j < k < |from'| ensures from'[j] <= from'[k] {
      assert k >= |from| ==> from'[k] == i;
    }
  }

  lemma {:induction false} FirstPortsGrow(
    sws: seq<Switch>, want: string, hits: seq<Hit>, from: seq<nat>, i: nat, more: seq<Hit>)
    requires |hits| == |from| && FirstPorts(sws, want, hits, from)
    requires more != [] ==> OnFirstPort(sws, want, more[0], i)
    ensures FirstPorts(sws, want, hits + more, from + Repeat(i, |more|))
  {
    var hits', from' := hits + more, from + Repeat(i, |more|);
    forall k | 0 <= k < |from'| && NewSwitch(from', k) ensures OnFirstPort(sws, want, hits'[k], from'[k]) {
      if k < |from| {
        assert hits'[k] == hits[k] && from'[k] == from[k] && (k > 0 ==> from'[k - 1] == from[k - 1]);
        assert NewSwitch(from, k);
      } else {
        assert forall x :: |from| <= x < |from'| ==> from'[x] == i;
        assert k == |from| && hits'[k] == more[0];
      }
    }
  }

  lemma {:induction false} AllListedGrows(
    sws: seq<Switch>, want: string, hits: seq<Hit>, from: seq<nat>, i: nat, more: seq<Hit>)
    requires i < |sws| && |hits| == |from| && AllListed(sws, want, hits, from, i)
    requires forall h :: HitAt(sws, want, h, i) ==> h in more
    ensures AllListed(sws, want, hits + more, from + Repeat(i, |more|), i + 1)
  {
    var hits', from' := hits + more, from + Repeat(i, |more|);
    forall h, x | 0 <= x < i + 1 && HitAt(sws, want, h, x) ensures ListedAt(hits', from', h, x) {
      if x < i {
        assert ListedAt(hits, from, h, x);
        var k :| 0 <= k < |hits| && hits[k] == h && from[k] == x;
        assert hits'[k] == h && from'[k] == x;
      } else {
        var k :| 0 <= k < |more| && more[k] == h;
        assert hits'[|hits| + k] == h && from'[|hits| + k] == x;
      }
    }
  }

  /** The inner loops over one switch's ports and their clients: one hit per occurrence. */
  method HitsOn(sws: seq<Switch>, want: string, i: nat) returns (hits: seq<Hit>)
    requires i < |sws| && sws[i].mac != want
    ensures forall h :: h in hits <==> HitAt(sws, want, h, i)
    ensures hits != [] ==> OnFirstPort(sws, want, hits[0], i)
  {
    var d := ParentDepth(sws, sws[i].mac);
    var ports := sws[i].ports;
    hits := [];
    for j := 0 to |ports|
      invariant forall h :: h in hits ==> HitAt(sws, want, h, i)
      invariant forall k :: 0 <= k < j && want in ports[k].clients ==>
                  Hit(ports[k].id, d, sws[i].source == "unifi", sws[i].mac) in hits
      invariant PortOf(ports, want) == if hits == [] then PortOf(ports[j..], want) else Some(hits[0].port)
    {
      assert ports[j..][1..] == ports[j + 1..] && ports[j..][0] == ports[j];
      ghost var before := hits;
      var more := HitsAt(ports[j].clients, Hit(ports[j].id, d, sws[i].source == "unifi", sws[i].mac), want);
      assert more != [] ==> more[0] in more;
      assert want in ports[j].clients ==> Spots(ports, ports[j].id, want);
      hits := hits + more;
      assert forall h :: h in hits <==> h in before || h in more;
    }
  }

  /** One hit per occurrence of the MAC in a client list. */
  method HitsAt(clients: seq<string>, hit: Hit, want: string) returns (hits: seq<Hit>)
    ensures forall h :: h in hits <==> h == hit && want in clients
  {
    hits := [];
    for c := 0 to |clients|
      invariant forall h :: h in hits <==> h == hit && want in clients[..c]
    {
      if clients[c] == want {
        hits := hits + [hit];
      }
    }
    assert clients[..|clients|] == clients;
  }

  // ---------------------------------------------------------------- descent

  predicate IsChild(sw: Switch, mac: string, port: string, want: string) {
    sw.mac != want && sw.parentMac == mac && sw.parentPort == port
  }

  /** `uniqueSwitchChildren`: the switches whose uplink is this port, in catalog order. */
  function ChildrenFrom(sws: seq<Switch>, at: Station, want: string, i: nat): (r: seq<nat>)
    requires i <= |sws|
    ensures forall x :: x in r <==> i <= x < |sws| && IsChild(sws[x], at.0, at.1, want)
    decreases |sws| - i
  {
    if i == |sws| then []
    else if IsChild(sws[i], at.0, at.1, want) then [i] + ChildrenFrom(sws, at, want, i + 1)
    else ChildrenFrom(sws, at, want, i + 1)
  }

  function Children(sws: seq<Switch>, at: Station, want: string): (r: seq<nat>)
    ensures forall k :: 0 <= k < |r| ==> r[k] < |sws| && IsChild(sws[r[k]], at.0, at.1, want)
  {
    var r := ChildrenFrom(sws, at, want, 0);
    assert forall k :: 0 <= k < |r| ==> r[k] in r;
    r
  }

  method ListChildren(sws: seq<Switch>, at: Station, want: string) returns (out: seq<nat>)
    ensures out == Children(sws, at, want)
  {
    out := [];
    for i := 0 to |sws|
      invariant out + ChildrenFrom(sws, at, want, i) == Children(sws, at, want)
    {
      if IsChild(sws[i], at.0, at.1, want) {
        out := out + [i];
      }
    }
  }

  lemma {:induction false} PortOfSees(ports: seq<Port>, want: string)
    ensures PortOf(ports, want).Some? ==> Spots(ports, PortOf(ports, want).value, want)
    ensures PortOf(ports, want).None? ==> forall port :: !Spots(ports, port, want)
  {
    var p := PortOfIsFirst(ports, want);
  }

  /** One turn of the descent loop: stop here, stop one level down, or go on one level down. */
  function TurnAt(sws: seq<Switch>, want: string, at: Station): Turn {
    var kids := Children(sws, at, want);
    if |kids| != 1 then Stop(At(at.0, at.1))
    else
      var child := sws[kids[0]];
      match PortOf(child.ports, want)
      case Some(id) => GoOn((child.mac, id))
      case None => Stop(At(child.mac, ""))
  }

  /**
    * What a turn does: with one child on the port, whose first port that saw the MAC is known, it goes on there; with one
    * child that never saw it, it stops at that child; and otherwise it stops where it is.
    */
  lemma {:induction false} TurnMeans(sws: seq<Switch>, want: string, at: Station, c: nat)
    requires c < |sws| && IsChild(sws[c], at.0, at.1, want)
    requires forall d :: 0 <= d < |sws| && IsChild(sws[d], at.0, at.1, want) ==> d == c
    ensures (forall port :: !Sees(sws[c], port, want)) ==> TurnAt(sws, want, at) == Stop(At(sws[c].mac, ""))
    ensures forall p :: 0 <= p < |sws[c].ports| && want in sws[c].ports[p].clients
                        && (forall q :: 0 <= q < p ==> want !in sws[c].ports[q].clients)
                        ==> TurnAt(sws, want, at) == GoOn((sws[c].mac, sws[c].ports[p].id))
  {
    var kids := Children(sws, at, want);
    OnlyChild(sws, at, want, c, 0);
    assert kids == [c];
    var first := PortOfIsFirst(sws[c].ports, want);
    PortOfSees(sws[c].ports, want);
    assert forall port :: Sees(sws[c], port, want) <==> Spots(sws[c].ports, port, want);
  }

  lemma {:induction false} OnlyChild(sws: seq<Switch>, at: Station, want: string, c: nat, i: nat)
    requires c < |sws| && i <= |sws| && IsChild(sws[c], at.0, at.1, want)
    requires forall d :: 0 <= d < |sws| && IsChild(sws[d], at.0, at.1, want) ==> d == c
    ensures ChildrenFrom(sws, at, want, i) == if i <= c then [c] else []
    decreases |sws| - i
  {
    if i < |sws| {
      OnlyChild(sws, at, want, c, i + 1);
    }
  }

  lemma {:induction false} NoChildStops(sws: seq<Switch>, want: string, at: Station)
    requires forall c :: 0 <= c < |sws| ==> !IsChild(sws[c], at.0, at.1, want)
    ensures TurnAt(sws, want, at) == Stop(At(at.0, at.1))
  {
    assert forall x :: x !in ChildrenFrom(sws, at, want, 0);
  }

  lemma {:induction false} CrowdStops(sws: seq<Switch>, want: string, at: Station, c: nat, d: nat)
    requires c < d < |sws| && IsChild(sws[c], at.0, at.1, want) && IsChild(sws[d], at.0, at.1, want)
    ensures TurnAt(sws, want, at) == Stop(At(at.0, at.1))
  {
    var kids := ChildrenFrom(sws, at, want, 0);
    assert c in kids && d in kids;
  }

  function Turns(sws: seq<Switch>, want: string): Station -> Turn {
    (at: Station) => TurnAt(sws, want, at)
  }

  ghost function Stations(sws: seq<Switch>): set<Station> {
    set i, j | 0 <= i < |sws| && 0 <= j < |sws[i].ports| :: (sws[i].mac, sws[i].ports[j].id)
  }

  lemma {:induction false} StationsClosed(sws: seq<Switch>, want: string)
    ensures Closed(Turns(sws, want), Stations(sws))
    ensures forall at :: at in Stations(sws) ==> Turns(sws, want)(at) != Stop(Forever)
  {
    forall at | at in Stations(sws) && TurnAt(sws, want, at).GoOn? ensures TurnAt(sws, want, at).at in Stations(sws) {
      var kids := Children(sws, at, want);
      var child := sws[kids[0]];
      var id := PortOf(child.ports, want).value;
      PortOfSees(child.ports, want);
      var j :| 0 <= j < |child.ports| && child.ports[j].id == id && want in child.ports[j].clients;
      assert (sws[kids[0]].mac, sws[kids[0]].ports[j].id) in Stations(sws);
    }
  }

  /** The descent loop. It reports `Forever` where the source would spin. */
  method DescendFrom(sws: seq<Switch>, want: string, start: Station) returns (place: Place)
    requires start in Stations(sws) && Closed(Turns(sws, want), Stations(sws))
    ensures place == Walk(Turns(sws, want), Stations(sws), start, {})
  {
    var at, seen: set<Station> := start, {};
    while at !in seen
      invariant at in Stations(sws)
      invariant Walk(Turns(sws, want), Stations(sws), at, seen) == Walk(Turns(sws, want), Stations(sws), start, {})
      decreases Stations(sws) - seen
    {
      var kids := ListChildren(sws, at, want);
      if |kids| != 1 {
        return At(at.0, at.1);
      }
      var child := sws[kids[0]];
      var port := FindPort(child.ports, want);
      if port.None? {
        return At(child.mac, "");
      }
      assert Turns(sws, want)(at) == GoOn((child.mac, port.value));
      at, seen := (child.mac, port.value), seen + {at};
    }
    place := Forever;
  }

  // ---------------------------------------------------------------- the search

  ghost predicate Identified(sws: seq<Switch>) {
    DistinctMacs(sws) && forall i :: 0 <= i < |sws| ==> sws[i].mac != ""
  }

  /** No other port that saw the MAC is a better parent, and among equals it is the first in catalog order. */
  ghost predicate IsBest(sws: seq<Switch>, want: string, best: Hit) {
    && IsHit(sws, want, best)
    && (exists i :: 0 <= i < |sws| && FirstAt(sws, want, best, i))
    && forall h :: IsHit(sws, want, h) ==> Tops(best, h)
  }

  ghost predicate FirstAt(sws: seq<Switch>, want: string, best: Hit, i: int)
    requires 0 <= i < |sws|
  {
    && HitAt(sws, want, best, i) && PortOf(sws[i].ports, want) == Some(best.port)
    && forall h, x :: 0 <= x < i && HitAt(sws, want, h, x) ==> !Tops(h, best)
  }

  lemma {:induction false} PickedIsBest(sws: seq<Switch>, want: string, hits: seq<Hit>, best: Hit)
    requires IsListing(sws, want, hits) && IsPick(hits, best)
    ensures IsBest(sws, want, best)
  {
    var from: seq<nat> :| Listed(sws, want, hits, from, |sws|);
    var at: nat :| Picks(hits, best, at);
    PickedFromList(sws, want, hits, from, best, at);
  }

  lemma {:induction false} PickedFromList(
    sws: seq<Switch>, want: string, hits: seq<Hit>, from: seq<nat>, best: Hit, at: nat)
    requires Listed(sws, want, hits, from, |sws|) && Picks(hits, best, at)
    ensures IsBest(sws, want, best)
  {
    var i := from[at];
    assert HitAt(sws, want, best, i);
    assert NewSwitch(from, at) by {
      LessTotal(best.mac, best.mac);
      if at > 0 {
        assert HitAt(sws, want, hits[at - 1], from[at - 1]) && !Tops(hits[at - 1], best);
      }
    }
    forall h, x | 0 <= x < i && HitAt(sws, want, h, x) ensures !Tops(h, best) {
      assert ListedAt(hits, from, h, x);
    }
    assert FirstAt(sws, want, best, i);
    forall h | IsHit(sws, want, h) ensures Tops(best, h) {
      var x :| 0 <= x < |sws| && HitAt(sws, want, h, x);
      assert ListedAt(hits, from, h, x);
    }
  }

  lemma {:induction false} NothingListed(sws: seq<Switch>, want: string)
    requires IsListing(sws, want, [])
    ensures forall h :: !IsHit(sws, want, h)
  {
    var from: seq<nat> :| Listed(sws, want, [], from, |sws|);
    forall h, i | 0 <= i < |sws| ensures !HitAt(sws, want, h, i) {
      assert !ListedAt([], from, h, i);
    }
  }

  /** There is one best hit. */
  lemma {:induction false} BestUnique(sws: seq<Switch>, want: string, a: Hit, b: Hit)
    requires IsBest(sws, want, a) && IsBest(sws, want, b)
    ensures a == b
  {
    var i :| 0 <= i < |sws| && FirstAt(sws, want, a, i);
    var j :| 0 <= j < |sws| && FirstAt(sws, want, b, j);
    assert IsHit(sws, want, a) && IsHit(sws, want, b);
    LessTotal(a.mac, b.mac);
  }

  /** The place the descent must end in: the best port, or its only child switch when that one is blind. */
  ghost predicate OneLevel(sws: seq<Switch>, want: string, best: Hit, place: Place) {
    var kids := Children(sws, (best.mac, best.port), want);
    if |kids| != 1 then place == At(best.mac, best.port)
    else
      && place == At(sws[kids[0]].mac, "")
      && forall port :: !Sees(sws[kids[0]], port, want)
  }

  lemma {:induction false} HitIsStation(sws: seq<Switch>, want: string, h: Hit)
    requires IsHit(sws, want, h)
    ensures (h.mac, h.port) in Stations(sws)
  {
    var i :| 0 <= i < |sws| && HitAt(sws, want, h, i);
    var j :| 0 <= j < |sws[i].ports| && sws[i].ports[j].id == h.port && want in sws[i].ports[j].clients;
  }

  /**
    * When the best hit's own uplink chain ends, the descent moves at most one level: a child that also saw
    * the MAC would have been a strictly deeper hit.
    */
  lemma {:induction false} DescentMovesOneLevel(sws: seq<Switch>, want: string, best: Hit)
    requires Identified(sws) && IsBest(sws, want, best) && Grounded(PendingOf(sws), best.mac)
    requires (best.mac, best.port) in Stations(sws) && Closed(Turns(sws, want), Stations(sws))
    ensures OneLevel(sws, want, best, Walk(Turns(sws, want), Stations(sws), (best.mac, best.port), {}))
  {
    var kids := Children(sws, (best.mac, best.port), want);
    if |kids| == 1 {
      BlindChild(sws, want, best, kids[0]);
      var port := PortOf(sws[kids[0]].ports, want);
      PortOfSees(sws[kids[0]].ports, want);
      assert port.Some? ==> Sees(sws[kids[0]], port.value, want);
    }
    assert Turns(sws, want)((best.mac, best.port)) == TurnAt(sws, want, (best.mac, best.port));
  }

  lemma {:induction false} DeeperThan(sws: seq<Switch>, want: string, best: Hit, c: nat)
    requires Identified(sws) && IsHit(sws, want, best) && Grounded(PendingOf(sws), best.mac)
    requires c < |sws| && sws[c].parentMac == best.mac
    ensures Depth(PendingOf(sws), sws[c].mac, {}) == best.depth + 1
  {
    PendingKeeps(sws, c);
    var i :| 0 <= i < |sws| && HitAt(sws, want, best, i);
    PendingKeeps(sws, i);
    ChildIsDeeper(PendingOf(sws), sws[c].mac, best.mac);
  }

  lemma {:induction false} BlindChild(sws: seq<Switch>, want: string, best: Hit, c: nat)
    requires Identified(sws) && IsBest(sws, want, best) && Grounded(PendingOf(sws), best.mac)
    requires c < |sws| && IsChild(sws[c], best.mac, best.port, want)
    ensures forall port :: !Sees(sws[c], port, want)
  {
    DeeperThan(sws, want, best, c);
    forall port ensures !Sees(sws[c], port, want) {
      var h := Hit(port, best.depth + 1, sws[c].source == "unifi", sws[c].mac);
      assert Sees(sws[c], port, want) ==> HitAt(sws, want, h, c);
      assert HitAt(sws, want, h, c) ==> IsHit(sws, want, h);
      assert !Tops(best, h);
    }
  }

  // ---------------------------------------------------------------- catalogs on which the descent never ends

  /** The switch is its uplink port's only child, and that port is the first of the uplink that saw the wanted MAC. */
  ghost predicate LeadsBack(sws: seq<Switch>, want: string, mac: string) {
    var m := PendingOf(sws);
    && mac in m && m[mac].parentMac in m
    && PortOf(m[m[mac].parentMac].ports, want) == Some(m[mac].parentPort)
    && var kids := Children(sws, (m[mac].parentMac, m[mac].parentPort), want);
    && |kids| == 1 && sws[kids[0]].mac == mac
  }

  /** `n` uplinks from `mac` lead back to it, through switches that each lead back to the one before. */
  ghost predicate Ring(sws: seq<Switch>, want: string, mac: string, n: nat) {
    && n > 0 && Up(PendingOf(sws), mac, n) == Some(mac)
    && forall i: nat :: i < n ==> RingAt(sws, want, mac, i)
  }

  ghost predicate RingAt(sws: seq<Switch>, want: string, mac: string, i: nat) {
    Up(PendingOf(sws), mac, i).Some? && LeadsBack(sws, want, Up(PendingOf(sws), mac, i).value)
  }

  ghost predicate OnRing(sws: seq<Switch>, want: string, mac: string) {
    exists n: nat :: Ring(sws, want, mac, n)
  }

  /** A turn that goes on names a child, which fixes the uplink it came from. */
  lemma {:induction false} TurnBack(sws: seq<Switch>, want: string, s: Station, t: Station)
    requires Identified(sws) && TurnAt(sws, want, s) == GoOn(t)
    ensures var m := PendingOf(sws);
            && t.0 in m && m[t.0].parentMac == s.0 && m[t.0].parentPort == s.1
            && PortOf(m[t.0].ports, want) == Some(t.1)
            && var kids := Children(sws, s, want);
            && |kids| == 1 && sws[kids[0]].mac == t.0
  {
    PendingKeeps(sws, Children(sws, s, want)[0]);
  }

  lemma {:induction false} DescentIsOneToOne(sws: seq<Switch>, want: string)
    requires Identified(sws)
    ensures OneToOne(Turns(sws, want))
  {
    var f := Turns(sws, want);
    forall s, t | f(s).GoOn? && f(s) == f(t) ensures s == t {
      TurnBack(sws, want, s, f(s).at);
      TurnBack(sws, want, t, f(s).at);
    }
  }

  /** The station is where the descent enters its switch: on the first port that saw the wanted MAC. */
  ghost predicate IsEntry(m: map<string, Switch>, want: string, t: Station) {
    t.0 in m && PortOf(m[t.0].ports, want) == Some(t.1)
  }

  lemma {:induction false} UplinkKnown(sws: seq<Switch>, mac: string)
    requires Identified(sws)
    requires var m := PendingOf(sws); mac in m && m[mac].parentMac in m
    ensures Up(PendingOf(sws), mac, 1) == Some(PendingOf(sws)[mac].parentMac)
  {
    var m := PendingOf(sws);
    var k :| 0 <= k < |sws| && sws[k].mac == m[mac].parentMac;
    assert Waits(m, m[mac]) && Up(m, m[mac].parentMac, 0) == Some(m[mac].parentMac);
  }

  /** One uplink of a ring is one turn of the descent, backwards. */
  lemma {:induction false} RingStep(sws: seq<Switch>, want: string, t: Station) returns (above: Station)
    requires Identified(sws) && IsEntry(PendingOf(sws), want, t) && LeadsBack(sws, want, t.0)
    ensures IsEntry(PendingOf(sws), want, above) && Up(PendingOf(sws), t.0, 1) == Some(above.0)
    ensures TurnAt(sws, want, above) == GoOn(t)
  {
    var m := PendingOf(sws);
    above := (m[t.0].parentMac, m[t.0].parentPort);
    UplinkKnown(sws, t.0);
    PendingKeeps(sws, Children(sws, above, want)[0]);
  }

  /** Turns of `f` between entries go one uplink down. */
  ghost predicate GoesDown(f: Station -> Turn, m: map<string, Switch>, entry: Station -> bool) {
    forall t :: entry(t) && f(t).GoOn? ==> entry(f(t).at) && Up(m, f(t).at.0, 1) == Some(t.0)
  }

  /** After d turns from an entry, the i-th uplink of where the descent stands is where it stood i turns before. */
  lemma {:induction false} WayBack(
    f: Station -> Turn, m: map<string, Switch>, entry: Station -> bool, s: Station, d: nat, i: nat)
    requires GoesDown(f, m, entry) && entry(s) && i <= d && After(f, s, d).GoOn? && After(f, s, d).at.0 in m
    ensures After(f, s, d - i).GoOn? && entry(After(f, s, d - i).at)
    ensures Up(m, After(f, s, d).at.0, i) == Some(After(f, s, d - i).at.0)
  {
    StillGoing(f, s, d - i, d);
    EntriesOnly(f, m, entry, s, d - i);
    if i > 0 {
      WayBack(f, m, entry, s, d, i - 1);
      UpCompose(m, After(f, s, d).at.0, i - 1, 1);
    }
  }

  lemma {:induction false} EntriesOnly(f: Station -> Turn, m: map<string, Switch>, entry: Station -> bool, s: Station, n: nat)
    requires GoesDown(f, m, entry) && entry(s) && After(f, s, n).GoOn?
    ensures entry(After(f, s, n).at)
  {
    if n > 0 {
      StillGoing(f, s, n - 1, n);
      EntriesOnly(f, m, entry, s, n - 1);
    }
  }

  /** Entries with a way back: where it comes from is an entry, one uplink up, whose turn leads here. */
  ghost predicate ComesFrom(f: Station -> Turn, m: map<string, Switch>, entry: Station -> bool, t: Station, above: Station) {
    entry(above) && Up(m, t.0, 1) == Some(above.0) && f(above) == GoOn(t)
  }

  ghost predicate HasWayBack(f: Station -> Turn, m: map<string, Switch>, entry: Station -> bool, back: string -> bool) {
    forall t :: entry(t) && back(t.0) ==> exists above :: ComesFrom(f, m, entry, t, above)
  }

  ghost predicate BackAt(m: map<string, Switch>, back: string -> bool, mac: string, i: nat) {
    Up(m, mac, i).Some? && back(Up(m, mac, i).value)
  }

  /** The i-th uplink is i turns away, as long as there is a way back at each. */
  lemma {:induction false} ClimbBack(
    f: Station -> Turn, m: map<string, Switch>, entry: Station -> bool, back: string -> bool, s: Station, i: nat)
    returns (t: Station)
    requires HasWayBack(f, m, entry, back) && entry(s) && s.0 in m
    requires forall k: nat :: k < i ==> BackAt(m, back, s.0, k)
    ensures entry(t) && Up(m, s.0, i) == Some(t.0) && After(f, t, i) == GoOn(s)
  {
    if i == 0 {
      t := s;
    } else {
      var below := ClimbBack(f, m, entry, back, s, i - 1);
      assert BackAt(m, back, s.0, i - 1);
      t :| ComesFrom(f, m, entry, below, t);
      UpCompose(m, s.0, i - 1, 1);
      AfterFirst(f, t, i - 1);
    }
  }

  /** A turn into a station, seen from below. */
  lemma {:induction false} BackStep(sws: seq<Switch>, want: string, above: Station, t: Station)
    requires Identified(sws) && IsEntry(PendingOf(sws), want, above) && TurnAt(sws, want, above) == GoOn(t)
    ensures IsEntry(PendingOf(sws), want, t) && LeadsBack(sws, want, t.0) && Up(PendingOf(sws), t.0, 1) == Some(above.0)
  {
    TurnBack(sws, want, above, t);
    UplinkKnown(sws, t.0);
  }

  /**
    * The descent from the best port runs for ever if and only if the catalog has a ring there: uplinks lead from the
    * best switch back to it, and each switch on the way is the only child of its uplink port, which is the first port
    * of its uplink that saw the wanted MAC.
    */
  lemma {:induction false} SpinsIffRing(sws: seq<Switch>, want: string, best: Hit)
    requires Identified(sws) && IsBest(sws, want, best)
    requires (best.mac, best.port) in Stations(sws) && Closed(Turns(sws, want), Stations(sws))
    ensures Walk(Turns(sws, want), Stations(sws), (best.mac, best.port), {}) == Forever <==> OnRing(sws, want, best.mac)
  {
    var f, s, m := Turns(sws, want), (best.mac, best.port), PendingOf(sws);
    StationsClosed(sws, want);
    DescentIsOneToOne(sws, want);
    ForeverMeansReturn(f, Stations(sws), s);
    var at :| 0 <= at < |sws| && FirstAt(sws, want, best, at);
    PendingKeeps(sws, at);
    assert IsEntry(m, want, s);
    if n: nat :| Ring(sws, want, best.mac, n) {
      RingReturns(sws, want, s, n);
    }
    if d: nat :| d > 0 && After(f, s, d) == GoOn(s) {
      ReturnMakesRing(sws, want, s, d);
    }
  }

  lemma {:induction false} RingReturns(sws: seq<Switch>, want: string, s: Station, n: nat)
    requires Identified(sws) && IsEntry(PendingOf(sws), want, s) && Ring(sws, want, s.0, n)
    ensures After(Turns(sws, want), s, n) == GoOn(s)
  {
    var f, m := Turns(sws, want), PendingOf(sws);
    var entry, back := (t: Station) => IsEntry(m, want, t), (mac: string) => LeadsBack(sws, want, mac);
    forall t | entry(t) && back(t.0) ensures exists above :: ComesFrom(f, m, entry, t, above) {
      var above := RingStep(sws, want, t);
      assert ComesFrom(f, m, entry, t, above);
    }
    forall k: nat | k < n ensures BackAt(m, back, s.0, k) {
      assert RingAt(sws, want, s.0, k);
    }
    var t := ClimbBack(f, m, entry, back, s, n);
    assert t == s;
  }

  ghost function Entries(sws: seq<Switch>, want: string): Station -> bool {
    (t: Station) => IsEntry(PendingOf(sws), want, t)
  }

  lemma {:induction false} TurnsGoDown(sws: seq<Switch>, want: string)
    requires Identified(sws)
    ensures GoesDown(Turns(sws, want), PendingOf(sws), Entries(sws, want))
  {
    var f, entry := Turns(sws, want), Entries(sws, want);
    forall t | entry(t) && f(t).GoOn? ensures entry(f(t).at) && Up(PendingOf(sws), f(t).at.0, 1) == Some(t.0) {
      BackStep(sws, want, t, f(t).at);
    }
  }

  lemma {:induction false} TurnIsOnRing(sws: seq<Switch>, want: string, s: Station, d: nat, i: nat)
    requires Identified(sws) && IsEntry(PendingOf(sws), want, s) && i < d
    requires After(Turns(sws, want), s, d) == GoOn(s)
    ensures RingAt(sws, want, s.0, i)
  {
    TurnsGoDown(sws, want);
    var above, below := TurnBefore(Turns(sws, want), PendingOf(sws), Entries(sws, want), s, d, i);
    BackStep(sws, want, above, below);
  }

  lemma {:induction false} TurnBefore(
    f: Station -> Turn, m: map<string, Switch>, entry: Station -> bool, s: Station, d: nat, i: nat)
    returns (above: Station, below: Station)
    requires GoesDown(f, m, entry) && entry(s) && i < d && After(f, s, d) == GoOn(s) && s.0 in m
    ensures entry(above) && f(above) == GoOn(below) && Up(m, s.0, i) == Some(below.0)
  {
    WayBack(f, m, entry, s, d, i);
    WayBack(f, m, entry, s, d, i + 1);
    above, below := After(f, s, d - i - 1).at, After(f, s, d - i).at;
  }

  lemma {:induction false} ReturnMakesRing(sws: seq<Switch>, want: string, s: Station, d: nat)
    requires Identified(sws) && IsEntry(PendingOf(sws), want, s)
    requires d > 0 && After(Turns(sws, want), s, d) == GoOn(s)
    ensures Ring(sws, want, s.0, d)
  {
    forall i: nat | i < d ensures RingAt(sws, want, s.0, i) {
      TurnIsOnRing(sws, want, s, d, i);
    }
    TurnsGoDown(sws, want);
    WayBack(Turns(sws, want), PendingOf(sws), Entries(sws, want), s, d, d);
  }

  // ---------------------------------------------------------------- hangOff

  /** UniFi nodes that list the MAC without a port. */
  ghost predicate IsNodeHit(sws: seq<Switch>, want: string, h: Hit) {
    exists i :: 0 <= i < |sws| && NodeHitAt(sws, want, h, i)
  }

  ghost predicate NodeHitAt(sws: seq<Switch>, want: string, h: Hit, i: int)
    requires 0 <= i < |sws|
  {
    && sws[i].source == "unifi" && sws[i].mac != want && want in sws[i].clients
    && h == Hit("", Depth(PendingOf(sws), sws[i].mac, {}), true, sws[i].mac)
  }

  method NodeHits(sws: seq<Switch>, want: string) returns (hits: seq<Hit>)
    ensures forall h :: h in hits <==> IsNodeHit(sws, want, h)
  {
    hits := [];
    for i := 0 to |sws|
      invariant forall h :: h in hits ==> IsNodeHit(sws, want, h)
      invariant forall h, k :: 0 <= k < i && NodeHitAt(sws, want, h, k) ==> h in hits
    {
      if sws[i].source == "unifi" && sws[i].mac != want {
        var d := ParentDepth(sws, sws[i].mac);
        var hit := Hit("", d, true, sws[i].mac);
        ghost var before := hits;
        var more := HitsAt(sws[i].clients, hit, want);
        assert want in sws[i].clients ==> NodeHitAt(sws, want, hit, i);
        hits := hits + more;
        assert forall h :: h in hits <==> h in before || h in more;
      }
    }
  }

  /** The answer `hangOff` owes its caller. */
  ghost predicate RightPlace(sws: seq<Switch>, want: string, place: Place) {
    if exists h :: IsHit(sws, want, h) then
      exists best :: IsBest(sws, want, best) && FromBest(sws, want, best, place)
    else if exists h :: IsNodeHit(sws, want, h) then
      exists best :: IsBestNode(sws, want, best) && place == At(best.mac, "")
    else place == Nowhere
  }

  ghost predicate IsBestNode(sws: seq<Switch>, want: string, best: Hit) {
    IsNodeHit(sws, want, best) && forall h :: IsNodeHit(sws, want, h) ==> Tops(best, h)
  }

  lemma {:induction false} BestNodeUnique(sws: seq<Switch>, want: string, a: Hit, b: Hit)
    requires IsBestNode(sws, want, a) && IsBestNode(sws, want, b)
    ensures a.mac == b.mac
  {
    LessTotal(a.mac, b.mac);
  }

  /**
    * Down from the best port. The place is where the source's loop stops, `Forever` exactly when it never does; with
    * distinct MACs that is exactly when the catalog has a ring there, and when the best port's uplink chain ends the
    * loop stops at most one level down.
    */
  ghost predicate FromBest(sws: seq<Switch>, want: string, best: Hit, place: Place) {
    var f, start := Turns(sws, want), (best.mac, best.port);
    && (place == Forever <==> forall n: nat :: After(f, start, n).GoOn?)
    && (place != Forever ==> exists n: nat :: After(f, start, n) == Stop(place))
    && (Identified(sws) ==> (place == Forever <==> OnRing(sws, want, best.mac)))
    && (Identified(sws) && Grounded(PendingOf(sws), best.mac) ==> OneLevel(sws, want, best, place))
  }

  lemma {:induction false} FromBestUnique(sws: seq<Switch>, want: string, best: Hit, a: Place, b: Place)
    requires FromBest(sws, want, best, a) && FromBest(sws, want, best, b)
    ensures a == b
  {
    if a != Forever && b != Forever {
      var f, s := Turns(sws, want), (best.mac, best.port);
      var m: nat :| After(f, s, m) == Stop(a);
      var n: nat :| After(f, s, n) == Stop(b);
      StopsOnce(f, s, m, n, a, b);
    }
  }

  /** There is one right place, on every catalog. */
  lemma {:induction false} RightPlaceUnique(sws: seq<Switch>, want: string, a: Place, b: Place)
    requires RightPlace(sws, want, a) && RightPlace(sws, want, b)
    ensures a == b
  {
    if exists h :: IsHit(sws, want, h) {
      var best :| IsBest(sws, want, best) && FromBest(sws, want, best, a);
      var best' :| IsBest(sws, want, best') && FromBest(sws, want, best', b);
      BestUnique(sws, want, best, best');
      FromBestUnique(sws, want, best, a, b);
    } else if exists h :: IsNodeHit(sws, want, h) {
      var best :| IsBestNode(sws, want, best) && a == At(best.mac, "");
      var best' :| IsBestNode(sws, want, best') && b == At(best'.mac, "");
      BestNodeUnique(sws, want, best, best');
    }
  }

  lemma {:induction false} DescentIsFromBest(sws: seq<Switch>, want: string, best: Hit)
    requires IsBest(sws, want, best)
    ensures (best.mac, best.port) in Stations(sws) && Closed(Turns(sws, want), Stations(sws))
    ensures FromBest(sws, want, best, Walk(Turns(sws, want), Stations(sws), (best.mac, best.port), {}))
  {
    HitIsStation(sws, want, best);
    StationsClosed(sws, want);
    var f, all, start := Turns(sws, want), Stations(sws), (best.mac, best.port);
    ForeverIsExact(f, all, start);
    if Walk(f, all, start, {}) != Forever {
      var n := WalkEnds(f, all, start, {});
    }
    if Identified(sws) {
      SpinsIffRing(sws, want, best);
    }
    if Identified(sws) && Grounded(PendingOf(sws), best.mac) {
      DescentMovesOneLevel(sws, want, best);
    }
  }

  /** `hangOff`, with `Forever` where the source would not return. */
  method HangOff(sws: seq<Switch>, want: string) returns (place: Place)
    ensures RightPlace(sws, want, place)
  {
    var hits := PortHits(sws, want);
    if hits != [] {
      var best := PickBest(hits);
      PickedIsBest(sws, want, hits, best);
      DescentIsFromBest(sws, want, best);
      place := DescendFrom(sws, want, (best.mac, best.port));
      return;
    }
    NothingListed(sws, want);
    var nodes := NodeHits(sws, want);
    if nodes != [] {
      var best := PickBest(nodes);
      assert IsBestNode(sws, want, best);
      return At(best.mac, "");
    }
    place := Nowhere;
  }

  /** A switch that names itself as its uplink, on a port that saw the wanted MAC. */
  function SelfUplink(): seq<Switch> {
    [Switch("A", "", "", "", "", "A", "1", "", [Port("1", ["T"])], [])]
  }

  lemma {:induction false} SelfUplinkTurn()
    ensures TurnAt(SelfUplink(), "T", ("A", "1")) == GoOn(("A", "1"))
  {
    var sws := SelfUplink();
    assert IsChild(sws[0], "A", "1", "T");
    assert ChildrenFrom(sws, ("A", "1"), "T", 1) == [];
    assert Children(sws, ("A", "1"), "T") == [0];
    assert PortOf(sws[0].ports, "T") == Some("1");
  }

  lemma {:induction false} SelfUplinkSpins(n: nat)
    ensures After(Turns(SelfUplink(), "T"), ("A", "1"), n) == GoOn(("A", "1"))
  {
    if n > 0 {
      SelfUplinkSpins(n - 1);
      SelfUplinkTurn();
    }
  }

  /** The cycle condition is needed: here the only right answer is that the source never returns. */
  lemma {:induction false} CycleCanSpin(place: Place)
    requires RightPlace(SelfUplink(), "T", place)
    ensures place == Forever
  {
    var sws := SelfUplink();
    var hit := Hit("1", Depth(PendingOf(sws), "A", {}), false, "A");
    assert "T" in sws[0].ports[0].clients;
    assert Spots(sws[0].ports, "1", "T");
    assert HitAt(sws, "T", hit, 0);
    assert IsHit(sws, "T", hit);
    var best :| IsBest(sws, "T", best) && FromBest(sws, "T", best, place);
    assert best.mac == "A" && best.port == "1";
    forall n: nat ensures After(Turns(sws, "T"), ("A", "1"), n).GoOn? {
      SelfUplinkSpins(n);
    }
  }

  // ---------------------------------------------------------------- adopting what is behind the port

  function FirstPort(ports: seq<Port>, id: string): Option<Port> {
    if ports == [] then None else if ports[0].id == id then Some(ports[0]) else FirstPort(ports[1..], id)
  }

  function FirstSwitch(sws: seq<Switch>, mac: string): Option<Switch> {
    if sws == [] then None else if sws[0].mac == mac then Some(sws[0]) else FirstSwitch(sws[1..], mac)
  }

  /** The port a placed switch hangs from, if it has one. */
  function UplinkPort(sws: seq<Switch>, sw: Switch): Option<Port> {
    if sw.parentMac == "" || sw.parentPort == "" then None
    else
      match FirstSwitch(sws, sw.parentMac)
      case None => None
      case Some(p) => FirstPort(p.ports, sw.parentPort)
  }

  /** The port named by the switch's uplink: of the first switch with the uplink's MAC, the first port with that id. */
  ghost predicate NamedPort(sws: seq<Switch>, sw: Switch, i: nat, j: nat) {
    && i < |sws| && j < |sws[i].ports| && sws[i].mac == sw.parentMac && sws[i].ports[j].id == sw.parentPort
    && (forall x :: 0 <= x < i ==> sws[x].mac != sw.parentMac)
    && (forall y :: 0 <= y < j ==> sws[i].ports[y].id != sw.parentPort)
  }

  lemma {:induction false} UplinkPortIsNamed(sws: seq<Switch>, sw: Switch)
    ensures UplinkPort(sws, sw).Some? <==>
            sw.parentMac != "" && sw.parentPort != "" && exists i: nat, j: nat :: NamedPort(sws, sw, i, j)
    ensures forall i: nat, j: nat :: NamedPort(sws, sw, i, j) && UplinkPort(sws, sw).Some? ==>
              UplinkPort(sws, sw).value == sws[i].ports[j]
  {
    var i := FirstSwitchAt(sws, sw.parentMac);
    if i < |sws| {
      var j := FirstPortAt(sws[i].ports, sw.parentPort);
      assert j < |sws[i].ports| ==> NamedPort(sws, sw, i, j);
      forall x: nat, y: nat | NamedPort(sws, sw, x, y) ensures x == i && y == j {
      }
    }
  }

  lemma {:induction false} FirstSwitchAt(sws: seq<Switch>, mac: string) returns (i: nat)
    ensures i <= |sws| && forall x :: 0 <= x < i ==> sws[x].mac != mac
    ensures if i < |sws| then sws[i].mac == mac && FirstSwitch(sws, mac) == Some(sws[i]) else FirstSwitch(sws, mac).None?
  {
    if sws == [] || sws[0].mac == mac {
      i := 0;
    } else {
      var k := FirstSwitchAt(sws[1..], mac);
      assert forall x :: 1 <= x < |sws| ==> sws[x] == sws[1..][x - 1];
      i := k + 1;
    }
  }

  lemma {:induction false} FirstPortAt(ports: seq<Port>, id: string) returns (j: nat)
    ensures j <= |ports| && forall y :: 0 <= y < j ==> ports[y].id != id
    ensures if j < |ports| then ports[j].id == id && FirstPort(ports, id) == Some(ports[j]) else FirstPort(ports, id).None?
  {
    if ports == [] || ports[0].id == id {
      j := 0;
    } else {
      var k := FirstPortAt(ports[1..], id);
      assert forall y :: 1 <= y < |ports| ==> ports[y] == ports[1..][y - 1];
      j := k + 1;
    }
  }

  method FindUplinkPort(sws: seq<Switch>, sw: Switch) returns (r: Option<Port>)
    ensures r == UplinkPort(sws, sw)
  {
    if sw.parentMac == "" || sw.parentPort == "" {
      return None;
    }
    for i := 0 to |sws|
      invariant FirstSwitch(sws, sw.parentMac) == FirstSwitch(sws[i..], sw.parentMac)
    {
      assert sws[i..][1..] == sws[i + 1..];
      if sws[i].mac == sw.parentMac {
        var ports := sws[i].ports;
        for j := 0 to |ports|
          invariant FirstPort(ports, sw.parentPort) == FirstPort(ports[j..], sw.parentPort)
        {
          assert ports[j..][1..] == ports[j + 1..];
          if ports[j].id == sw.parentPort {
            return Some(ports[j]);
          }
        }
        return None;
      }
    }
    r := None;
  }

  /** The other MACs in the list, each where it first occurs. */
  function FirstHeard(heard: seq<string>, own: string): (r: seq<string>)
    ensures forall i, j :: 0 <= i < j < |r| ==> r[i] != r[j]
    ensures forall c :: c in r <==> c in heard && c != "" && c != own
  {
    if heard == [] then []
    else
      var n := |heard| - 1;
      var before := FirstHeard(heard[..n], own);
      assert forall c :: c in heard <==> c in heard[..n] || c == heard[n];
      if heard[n] == "" || heard[n] == own || heard[n] in before then before else before + [heard[n]]
  }

  /** `adoptDownstreamClients`: the switch takes over, once each and in order, the MACs its uplink port saw. */
  method Adopt(sws: seq<Switch>, sw: Switch) returns (out: Switch)
    ensures out == match UplinkPort(sws, sw)
                   case None => sw
                   case Some(port) => sw.(clients := FirstHeard(port.clients, sw.mac))
  {
    var port := FindUplinkPort(sws, sw);
    if port.None? {
      return sw;
    }
    var heard := port.value.clients;
    var got: seq<string> := [];
    for i := 0 to |heard|
      invariant got == FirstHeard(heard[..i], sw.mac)
    {
      assert heard[..i + 1][..i] == heard[..i];
      if heard[i] != "" && heard[i] != sw.mac && heard[i] !in got {
        got := got + [heard[i]];
      }
    }
    assert heard[..|heard|] == heard;
    out := sw.(clients := got);
  }
}
