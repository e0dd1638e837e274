/** `STPFindings` of server/internal/unifi/stp.go: root-bridge election against the wiring. */
module StpAudit {
  import opened Text
  import opened Inventory
  import opened ParentsFirst
  import Sorting

  datatype StpPort = StpPort(id: string, up: bool, state: string)

  datatype Bridge = Bridge(version: string, priority: int, ports: seq<StpPort>)

  datatype Detail = NoDetail | Below(own: int, parent: int) | Blocked(port: string, state: string)

  datatype Kind = Off | WrongRoot | Priority | UplinkBlocking

  datatype Row = Row(mac: string, name: string, kind: Kind, detail: Detail)

  predicate StpOff(version: string) {
    ToLower(Trim(version)) in {"", "none", "off", "disabled"}
  }

  predicate Audited(sw: Switch) {
    sw.source == "unifi" && sw.kind != "ap" && sw.mac != ""
  }

  /** Off is said by no version at all or by one of three words, in any case and with any white space around. */
  lemma {:induction false} StpOffMeans(version: string)
    ensures var v := Trim(version);
            StpOff(version) <==>
            EqualFold(v, "") || EqualFold(v, "none") || EqualFold(v, "off") || EqualFold(v, "disabled")
  {
    assert ToLower("") == "" && ToLower("none") == "none" && ToLower("off") == "off" && ToLower("disabled") == "disabled";
  }

  /** Audited are the UniFi switches with a MAC that are not access points. */
  lemma {:induction false} AuditedMeans(sws: seq<Switch>, sw: Switch)
    ensures sw in AuditedOf(sws) <==> sw in sws && sw.source == "unifi" && sw.kind != "ap" && sw.mac != ""
  {
    if sws != [] {
      var n := |sws| - 1;
      AuditedMeans(sws[..n], sw);
      assert sw in sws <==> sw in sws[..n] || sw == sws[n];
    }
  }

  /** The audited switches, by MAC. */
  ghost function Bridges(sws: seq<Switch>): map<string, Switch> {
    PendingOf(AuditedOf(sws))
  }

  function AuditedOf(sws: seq<Switch>): seq<Switch> {
    if sws == [] then []
    else AuditedOf(sws[..|sws| - 1]) + (if Audited(sws[|sws| - 1]) then [sws[|sws| - 1]] else [])
  }

  /** A switch that reports STP and has it on. */
  predicate Active(m: map<string, Switch>, info: map<string, Bridge>, mac: string) {
    mac in m && mac in info && !StpOff(info[mac].version)
  }

  /** Running STP are the audited switches that report a version which does not mean off. */
  lemma {:induction false} ActiveMeans(sws: seq<Switch>, info: map<string, Bridge>, mac: string)
    ensures Active(Bridges(sws), info, mac) <==>
            && (exists sw <- sws :: sw.source == "unifi" && sw.kind != "ap" && sw.mac == mac && mac != "")
            && mac in info && Trim(info[mac].version) != ""
            && !EqualFold(Trim(info[mac].version), "none") && !EqualFold(Trim(info[mac].version), "off")
            && !EqualFold(Trim(info[mac].version), "disabled")
  {
    forall sw ensures sw in AuditedOf(sws) <==> sw in sws && sw.source == "unifi" && sw.kind != "ap" && sw.mac != "" {
      AuditedMeans(sws, sw);
    }
    if mac in info {
      StpOffMeans(info[mac].version);
      OnlyBlankIsBlank(Trim(info[mac].version));
    }
  }

  lemma {:induction false} OnlyBlankIsBlank(s: string)
    ensures EqualFold(s, "") <==> s == ""
  {
    assert |ToLower(s)| == |s|;
  }

  // ---------------------------------------------------------------- components

  /** `walkRoot`: up the uplinks to a switch without an audited uplink, or back to where a cycle closes. */
  function WalkRoot(m: map<string, Switch>, cur: string, seen: set<string>): string
    decreases m.Keys - seen
  {
    if cur in seen || cur !in m || !Waits(m, m[cur]) then cur
    else WalkRoot(m, m[cur].parentMac, seen + {cur})
  }

  function RootOf(m: map<string, Switch>, mac: string): string {
    WalkRoot(m, mac, {})
  }

  /** Where the uplinks run into a cycle, the component is named after the first switch that comes a second time. */
  lemma {:induction false} RootOfCycle(m: map<string, Switch>, k: string, n: nat, back: nat, seen: set<string>)
    requires Up(m, k, n).Some? && back <= n
    requires if back < n then Up(m, k, back) == Up(m, k, n) else Up(m, k, n).value in seen
    requires forall i: nat :: i < n ==> Up(m, k, i).Some? && Up(m, k, i).value !in seen
    requires forall i: nat, j: nat :: i < j < n ==> Up(m, k, i) != Up(m, k, j)
    ensures Up(m, k, n) == Some(WalkRoot(m, k, seen))
    decreases n
  {
    assert Up(m, k, 0) == Some(k);
    if n > 0 {
      var q := m[k].parentMac;
      assert Up(m, k, n) == Up(m, q, n - 1);
      forall i: nat | i < n - 1 ensures Up(m, q, i).Some? && Up(m, q, i).value !in seen + {k} {
        assert Up(m, k, i + 1) == Up(m, q, i) && Up(m, k, i + 1) != Up(m, k, 0);
      }
      forall i: nat, j: nat | i < j < n - 1 ensures Up(m, q, i) != Up(m, q, j) {
        assert Up(m, k, i + 1) == Up(m, q, i) && Up(m, k, j + 1) == Up(m, q, j);
        assert Up(m, k, i + 1) != Up(m, k, j + 1);
      }
      if 0 < back < n {
        assert Up(m, k, back) == Up(m, q, back - 1);
        RootOfCycle(m, q, n - 1, back - 1, seen + {k});
      } else {
        RootOfCycle(m, q, n - 1, n - 1, seen + {k});
      }
    }
  }

  method FindRoot(m: map<string, Switch>, mac: string) returns (root: string)
    ensures root == RootOf(m, mac)
  {
    var seen: set<string> := {};
    root := mac;
    while root !in seen
      invariant WalkRoot(m, root, seen) == RootOf(m, mac)
      decreases m.Keys - seen, root in m
    {
      if root !in m || !Waits(m, m[root]) {
        return;
      }
      seen, root := seen + {root}, m[root].parentMac;
    }
  }

  lemma {:induction false} WalkIgnores(m: map<string, Switch>, k: string, n: nat, seen: set<string>, x: string)
    requires Up(m, k, n) == None && forall i: nat :: Up(m, k, i) != Some(x)
    requires k in m
    ensures WalkRoot(m, k, seen + {x}) == WalkRoot(m, k, seen)
    decreases n
  {
    assert Up(m, k, 0) == Some(k);
    if k !in seen && Waits(m, m[k]) {
      var q := m[k].parentMac;
      forall i: nat ensures Up(m, q, i) != Some(x) {
        assert Up(m, k, i + 1) == Up(m, q, i);
      }
      WalkIgnores(m, q, n - 1, seen + {k}, x);
      assert seen + {k} + {x} == seen + {x} + {k};
    }
  }

  /** On an acyclic chain a switch is in its uplink's component. */
  lemma {:induction false} RootOfParent(m: map<string, Switch>, k: string)
    requires k in m && Grounded(m, k) && Waits(m, m[k])
    ensures RootOf(m, k) == RootOf(m, m[k].parentMac)
  {
    var q := m[k].parentMac;
    GroundedParent(m, k);
    forall i: nat ensures Up(m, q, i) != Some(k) {
      if Up(m, q, i) == Some(k) {
        assert Up(m, k, i + 1) == Some(k) && Up(m, k, 0) == Some(k);
        assert ReachesCycle(m, k);
        CycleNeverEnds(m, k);
      }
    }
    var n: nat :| Up(m, q, n) == None;
    WalkIgnores(m, q, n, {}, k);
    assert {} + {k} == {k};
  }

  lemma {:induction false} RootIsTop(m: map<string, Switch>, k: string, n: nat)
    requires k in m && Up(m, k, n) == None
    ensures RootOf(m, k) in m && !Waits(m, m[RootOf(m, k)])
    decreases n
  {
    if Waits(m, m[k]) {
      assert Grounded(m, k);
      RootOfParent(m, k);
      RootIsTop(m, m[k].parentMac, n - 1);
    }
  }

  // ---------------------------------------------------------------- what the rows say

  ghost predicate Elector(m: map<string, Switch>, info: map<string, Bridge>, root: string, mac: string) {
    Active(m, info, mac) && RootOf(m, mac) == root
  }

  /** Bridge-identifier order, as in clause 17.5 of IEEE 802.1D-2004: priority, then MAC. */
  predicate Outranks(info: map<string, Bridge>, a: string, b: string)
    requires a in info && b in info
  {
    info[a].priority < info[b].priority || (info[a].priority == info[b].priority && Less(a, b))
  }

  lemma {:induction false} OutranksMeans(info: map<string, Bridge>, a: string, b: string)
    requires a in info && b in info
    ensures info[a].priority < info[b].priority ==> Outranks(info, a, b) && !Outranks(info, b, a)
    ensures info[a].priority == info[b].priority ==> (Outranks(info, a, b) <==> Less(a, b))
    ensures a == b || Outranks(info, a, b) || Outranks(info, b, a)
    ensures !Outranks(info, a, b) || !Outranks(info, b, a)
  {
    LessTotal(a, b);
  }

  ghost predicate Elected(m: map<string, Switch>, info: map<string, Bridge>, root: string, mac: string) {
    && Elector(m, info, root, mac)
    && forall x :: Elector(m, info, root, x) && x != mac ==> Outranks(info, mac, x)
  }

  ghost predicate IsWrongRoot(m: map<string, Switch>, info: map<string, Bridge>, r: Row) {
    && Elected(m, info, RootOf(m, r.mac), r.mac) && Waits(m, m[r.mac])
    && r == Row(r.mac, m[r.mac].name, WrongRoot, NoDetail)
  }

  ghost predicate IsPriority(m: map<string, Switch>, info: map<string, Bridge>, r: Row) {
    && Active(m, info, r.mac) && Waits(m, m[r.mac]) && Active(m, info, m[r.mac].parentMac)
    && info[r.mac].priority < info[m[r.mac].parentMac].priority
    && r == Row(r.mac, m[r.mac].name, Priority, Below(info[r.mac].priority, info[m[r.mac].parentMac].priority))
  }

  ghost predicate HasPriorityRow(m: map<string, Switch>, info: map<string, Bridge>, mac: string) {
    exists r :: IsPriority(m, info, r) && r.mac == mac
  }

  /** Every switch of the component runs STP. */
  ghost predicate AllActive(m: map<string, Switch>, info: map<string, Bridge>, root: string) {
    forall mac :: mac in m && RootOf(m, mac) == root ==> Active(m, info, mac)
  }

  lemma {:induction false} NoRowMeansNotBelow(m: map<string, Switch>, info: map<string, Bridge>, mac: string)
    requires Active(m, info, mac) && Waits(m, m[mac]) && Active(m, info, m[mac].parentMac)
    ensures HasPriorityRow(m, info, mac) <==> info[mac].priority < info[m[mac].parentMac].priority
  {
    var r := Row(mac, m[mac].name, Priority, Below(info[mac].priority, info[m[mac].parentMac].priority));
    if info[mac].priority < info[m[mac].parentMac].priority {
      assert IsPriority(m, info, r);
    }
  }

  /** Without priority rows on the way up, nothing is below its root. */
  lemma {:induction false} PathIsOrdered(m: map<string, Switch>, info: map<string, Bridge>, mac: string, n: nat)
    requires mac in m && Up(m, mac, n) == None && AllActive(m, info, RootOf(m, mac))
    requires forall i: nat :: Up(m, mac, i).Some? ==> !HasPriorityRow(m, info, Up(m, mac, i).value)
    ensures RootOf(m, mac) in info && mac in info && info[RootOf(m, mac)].priority <= info[mac].priority
    decreases n
  {
    assert Active(m, info, mac);
    assert Up(m, mac, 0) == Some(mac);
    if Waits(m, m[mac]) {
      var q := m[mac].parentMac;
      assert Grounded(m, mac);
      RootOfParent(m, mac);
      assert Active(m, info, q);
      NoRowMeansNotBelow(m, info, mac);
      forall i: nat | Up(m, q, i).Some? ensures !HasPriorityRow(m, info, Up(m, q, i).value) {
        assert Up(m, mac, i + 1) == Up(m, q, i);
      }
      PathIsOrdered(m, info, q, n - 1);
    }
  }

  lemma {:induction false} AncestorsShareRoot(m: map<string, Switch>, mac: string, i: nat)
    requires mac in m && Grounded(m, mac) && Up(m, mac, i).Some?
    ensures Up(m, mac, i).value in m && RootOf(m, Up(m, mac, i).value) == RootOf(m, mac)
    decreases i
  {
    if i > 0 {
      RootOfParent(m, mac);
      GroundedParent(m, mac);
      AncestorsShareRoot(m, m[mac].parentMac, i - 1);
    }
  }

  /** A component without priority rows has its lowest priority at the root. */
  lemma {:induction false} NoPriorityRowMeansRootIsLowest(
    m: map<string, Switch>, info: map<string, Bridge>, root: string, mac: string)
    requires Acyclic(m) && AllActive(m, info, root)
    requires forall x :: x in m && RootOf(m, x) == root ==> !HasPriorityRow(m, info, x)
    requires mac in m && RootOf(m, mac) == root
    ensures root in info && mac in info && info[root].priority <= info[mac].priority
  {
    var n: nat :| Up(m, mac, n) == None;
    forall i: nat | Up(m, mac, i).Some? ensures !HasPriorityRow(m, info, Up(m, mac, i).value) {
      AncestorsShareRoot(m, mac, i);
    }
    PathIsOrdered(m, info, mac, n);
  }

  /** So in such a component a wrong root can only come from a MAC tie-break. */
  lemma {:induction false} WrongRootIsTieBreak(m: map<string, Switch>, info: map<string, Bridge>, r: Row)
    requires Acyclic(m) && IsWrongRoot(m, info, r) && AllActive(m, info, RootOf(m, r.mac))
    requires forall x :: x in m && RootOf(m, x) == RootOf(m, r.mac) ==> !HasPriorityRow(m, info, x)
    ensures var root := RootOf(m, r.mac);
            root in info && root != r.mac && info[r.mac].priority == info[root].priority && Less(r.mac, root)
  {
    var root := RootOf(m, r.mac);
    NoPriorityRowMeansRootIsLowest(m, info, root, r.mac);
    var n: nat :| Up(m, r.mac, n) == None;
    RootIsTop(m, r.mac, n);
    assert RootOf(m, root) == root;
    assert Elector(m, info, root, root);
  }

  /** An elected bridge strictly below its root shows up as a priority row somewhere on its way to the root. */
  lemma {:induction false} LowerBridgeShowsOnPath(m: map<string, Switch>, info: map<string, Bridge>, mac: string)
    requires Acyclic(m) && mac in m && AllActive(m, info, RootOf(m, mac))
    requires RootOf(m, mac) in info && mac in info && info[mac].priority < info[RootOf(m, mac)].priority
    ensures exists i: nat :: Up(m, mac, i).Some? && HasPriorityRow(m, info, Up(m, mac, i).value)
  {
    var n: nat :| Up(m, mac, n) == None;
    if forall i: nat :: Up(m, mac, i).Some? ==> !HasPriorityRow(m, info, Up(m, mac, i).value) {
      PathIsOrdered(m, info, mac, n);
    }
  }

  /** Two wrong-root rows never share a component. */
  lemma {:induction false} OneWrongRootPerComponent(m: map<string, Switch>, info: map<string, Bridge>, r: Row, q: Row)
    requires IsWrongRoot(m, info, r) && IsWrongRoot(m, info, q) && RootOf(m, r.mac) == RootOf(m, q.mac)
    ensures r == q
  {
    if r.mac != q.mac {
      assert Outranks(info, r.mac, q.mac) && Outranks(info, q.mac, r.mac);
      LessTotal(r.mac, q.mac);
    }
  }

  // ---------------------------------------------------------------- the other rows

  ghost predicate IsOff(sws: seq<Switch>, info: map<string, Bridge>, r: Row) {
    exists i :: 0 <= i < |sws| && OffAt(sws[i], info, r)
  }

  predicate OffAt(sw: Switch, info: map<string, Bridge>, r: Row) {
    && sw.mac in info && StpOff(info[sw.mac].version)
    && r == Row(sw.mac, sw.name, Off, NoDetail)
  }

  /** The first live port with this id. */
  function FirstUp(ports: seq<StpPort>, id: string): Option<StpPort> {
    if ports == [] then None
    else if ports[0].id == id && ports[0].up then Some(ports[0])
    else FirstUp(ports[1..], id)
  }

  /** The blocked state of a switch's own uplink port, if it is blocked. */
  function BlockedUplink(sw: Switch, b: Bridge): Option<Detail> {
    var up := Trim(sw.uplinkPort);
    if up == "" then None
    else
      match FirstUp(b.ports, up)
      case None => None
      case Some(p) =>
        var st := ToLower(Trim(p.state));
        if st == "blocking" || st == "broken" then Some(Blocked(up, st)) else None
  }

  /** Port i is the first live one with this id. */
  ghost predicate FirstLive(ports: seq<StpPort>, id: string, i: nat) {
    i < |ports| && ports[i].id == id && ports[i].up && forall j :: 0 <= j < i ==> ports[j].id != id || !ports[j].up
  }

  lemma {:induction false} FirstUpAt(ports: seq<StpPort>, id: string) returns (i: nat)
    ensures if i < |ports| then FirstLive(ports, id, i) && FirstUp(ports, id) == Some(ports[i])
            else FirstUp(ports, id).None? && forall j: nat :: !FirstLive(ports, id, j)
  {
    if ports == [] || (ports[0].id == id && ports[0].up) {
      i := 0;
    } else {
      var rest := ports[1..];
      var k := FirstUpAt(rest, id);
      forall j: nat ensures FirstLive(ports, id, j) <==> j > 0 && FirstLive(rest, id, j - 1) {
        assert forall x :: 1 <= x < |ports| ==> ports[x] == rest[x - 1];
        if j > 0 && FirstLive(rest, id, j - 1) {
          assert forall x :: 0 <= x < j ==> ports[x].id != id || !ports[x].up;
        }
        if FirstLive(ports, id, j) {
          assert forall x :: 0 <= x < j - 1 ==> rest[x] == ports[x + 1];
        }
      }
      i := k + 1;
    }
  }

  /** A blocked uplink: the first live port with the uplink's id is blocking or broken. */
  lemma {:induction false} BlockedMeans(sw: Switch, b: Bridge, d: Detail)
    ensures BlockedUplink(sw, b) == Some(d) <==>
            exists i: nat :: Trim(sw.uplinkPort) != "" && FirstLive(b.ports, Trim(sw.uplinkPort), i)
              && ToLower(Trim(b.ports[i].state)) in {"blocking", "broken"}
              && d == Blocked(Trim(sw.uplinkPort), ToLower(Trim(b.ports[i].state)))
  {
    var up := Trim(sw.uplinkPort);
    var i := FirstUpAt(b.ports, up);
    assert forall j: nat :: FirstLive(b.ports, up, j) ==> j == i;
  }

  ghost predicate IsBlocking(m: map<string, Switch>, info: map<string, Bridge>, r: Row) {
    && Active(m, info, r.mac) && BlockedUplink(m[r.mac], info[r.mac]).Some?
    && r == Row(r.mac, m[r.mac].name, UplinkBlocking, BlockedUplink(m[r.mac], info[r.mac]).value)
  }

  // ---------------------------------------------------------------- the loops

  method CollectAudited(sws: seq<Switch>) returns (uni: seq<Switch>)
    ensures uni == AuditedOf(sws)
  {
    uni := [];
    for i := 0 to |sws|
      invariant uni == AuditedOf(sws[..i])
    {
      assert sws[..i + 1][..i] == sws[..i];
      if Audited(sws[i]) {
        uni := uni + [sws[i]];
      }
    }
    assert sws[..|sws|] == sws;
  }

  /** One row for each audited switch that reports STP switched off, in catalog order. */
  function OffRowsOf(uni: seq<Switch>, info: map<string, Bridge>): (rows: seq<Row>)
    ensures forall r :: r in rows <==> IsOff(uni, info, r)
  {
    if uni == [] then []
    else
      var n := |uni| - 1;
      var before := OffRowsOf(uni[..n], info);
      assert forall k :: 0 <= k < n ==> uni[..n][k] == uni[k];
      var row := Row(uni[n].mac, uni[n].name, Off, NoDetail);
      if OffAt(uni[n], info, row) then before + [row] else before
  }

  method OffRows(uni: seq<Switch>, info: map<string, Bridge>) returns (rows: seq<Row>)
    ensures rows == OffRowsOf(uni, info)
  {
    rows := [];
    for i := 0 to |uni|
      invariant rows == OffRowsOf(uni[..i], info)
    {
      assert uni[..i + 1][..i] == uni[..i];
      if uni[i].mac in info && StpOff(info[uni[i].mac].version) {
        rows := rows + [Row(uni[i].mac, uni[i].name, Off, NoDetail)];
      }
    }
    assert uni[..|uni|] == uni;
  }

  /** The running switches of each component, gathered in whatever order the map yields them. */
  method GroupElectors(m: map<string, Switch>, info: map<string, Bridge>) returns (groups: map<string, seq<string>>)
    ensures forall root :: root in groups ==> groups[root] != []
    ensures forall root, x :: root in groups && x in groups[root] ==> Elector(m, info, root, x)
    ensures forall x :: Active(m, info, x) ==> RootOf(m, x) in groups && x in groups[RootOf(m, x)]
  {
    groups := map[];
    var left := m.Keys;
    while left != {}
      invariant left <= m.Keys
      invariant forall root :: root in groups ==> groups[root] != []
      invariant forall root, x :: root in groups && x in groups[root] ==> Elector(m, info, root, x)
      invariant forall x :: Active(m, info, x) && x !in left ==> RootOf(m, x) in groups && x in groups[RootOf(m, x)]
      decreases |left|
    {
      var x :| x in left;
      left := left - {x};
      if Active(m, info, x) {
        var root := FindRoot(m, x);
        var group := if root in groups then groups[root] else [];
        groups := groups[root := group + [x]];
        assert groups[root][|group|] == x;
      }
    }
  }

  method Elect(info: map<string, Bridge>, electors: seq<string>) returns (best: string)
    requires electors != [] && forall x :: x in electors ==> x in info
    ensures best in electors
    ensures forall x :: x in electors && x != best ==> Outranks(info, best, x)
  {
    best := electors[0];
    for i := 1 to |electors|
      invariant best in electors
      invariant forall k :: 0 <= k < i && electors[k] != best ==> Outranks(info, best, electors[k])
    {
      var e := electors[i];
      LessTotal(e, best);
      if Outranks(info, e, best) {
        forall k | 0 <= k < i && electors[k] != e ensures Outranks(info, e, electors[k]) {
          if electors[k] != best && Less(e, best) && Less(best, electors[k]) {
            LessTransitive(e, best, electors[k]);
          }
        }
        best := e;
      }
    }
  }

  /** One row per component at most. */
  ghost predicate RowsApart(m: map<string, Switch>, rows: seq<Row>) {
    forall i, j :: 0 <= i < j < |rows| ==> RootOf(m, rows[i].mac) != RootOf(m, rows[j].mac)
  }

  method WrongRootRows(m: map<string, Switch>, info: map<string, Bridge>) returns (rows: seq<Row>)
    ensures forall r :: r in rows <==> IsWrongRoot(m, info, r)
    ensures RowsApart(m, rows)
  {
    var groups := GroupElectors(m, info);
    rows := [];
    var left := groups.Keys;
    while left != {}
      invariant left <= groups.Keys
      invariant forall r :: r in rows ==> IsWrongRoot(m, info, r) && RootOf(m, r.mac) !in left
      invariant forall r :: IsWrongRoot(m, info, r) && RootOf(m, r.mac) !in left ==> r in rows
      invariant RowsApart(m, rows)
      decreases |left|
    {
      var root :| root in left;
      left := left - {root};
      var best := Elect(info, groups[root]);
      assert Elected(m, info, root, best);
      if Waits(m, m[best]) {
        var row := Row(best, m[best].name, WrongRoot, NoDetail);
        assert IsWrongRoot(m, info, row);
        ghost var before := rows;
        rows := rows + [row];
        assert rows[|before|] == row;
        assert forall i :: 0 <= i < |before| ==> before[i] in before && rows[i] == before[i];
      }
      forall r | IsWrongRoot(m, info, r) && RootOf(m, r.mac) == root ensures r in rows {
        ElectedUnique(m, info, root, best, r.mac);
      }
    }
  }

  lemma {:induction false} ElectedUnique(m: map<string, Switch>, info: map<string, Bridge>, root: string, a: string, b: string)
    requires Elected(m, info, root, a) && Elected(m, info, root, b)
    ensures a == b
  {
    LessTotal(a, b);
    assert Elector(m, info, root, a) && Elector(m, info, root, b);
  }

  /** One row per switch at most. */
  ghost predicate MacsApart(rows: seq<Row>) {
    forall i, j :: 0 <= i < j < |rows| ==> rows[i].mac != rows[j].mac
  }

  lemma {:induction false} MacsApartSnoc(rows: seq<Row>, row: Row)
    requires MacsApart(rows) && forall r <- rows :: r.mac != row.mac
    ensures MacsApart(rows + [row])
  {
  }

  method PriorityRows(m: map<string, Switch>, info: map<string, Bridge>) returns (rows: seq<Row>)
    ensures forall r :: r in rows <==> IsPriority(m, info, r)
    ensures MacsApart(rows)
  {
    rows := [];
    var left := m.Keys;
    while left != {}
      invariant left <= m.Keys
      invariant forall r :: r in rows ==> IsPriority(m, info, r) && r.mac !in left
      invariant MacsApart(rows)
      invariant forall r :: IsPriority(m, info, r) && r.mac !in left ==> r in rows
      decreases |left|
    {
      var x :| x in left;
      left := left - {x};
      if Active(m, info, x) && Waits(m, m[x]) && Active(m, info, m[x].parentMac) {
        var own, above := info[x].priority, info[m[x].parentMac].priority;
        if own < above {
          var row := Row(x, m[x].name, Priority, Below(own, above));
          MacsApartSnoc(rows, row);
          rows := rows + [row];
          assert rows[|rows| - 1] == row;
        }
      }
    }
  }

  method FindBlocked(sw: Switch, b: Bridge) returns (d: Option<Detail>)
    ensures d == BlockedUplink(sw, b)
  {
    var up := Trim(sw.uplinkPort);
    if up == "" {
      return None;
    }
    for i := 0 to |b.ports|
      invariant FirstUp(b.ports, up) == FirstUp(b.ports[i..], up)
    {
      assert b.ports[i..][1..] == b.ports[i + 1..];
      if b.ports[i].id == up && b.ports[i].up {
        var st := ToLower(Trim(b.ports[i].state));
        return if st == "blocking" || st == "broken" then Some(Blocked(up, st)) else None;
      }
    }
    d := None;
  }

  method BlockingRows(m: map<string, Switch>, info: map<string, Bridge>) returns (rows: seq<Row>)
    ensures forall r :: r in rows <==> IsBlocking(m, info, r)
    ensures MacsApart(rows)
  {
    rows := [];
    var left := m.Keys;
    while left != {}
      invariant left <= m.Keys
      invariant forall r :: r in rows ==> IsBlocking(m, info, r) && r.mac !in left
      invariant MacsApart(rows)
      invariant forall r :: IsBlocking(m, info, r) && r.mac !in left ==> r in rows
      decreases |left|
    {
      var x :| x in left;
      left := left - {x};
      if Active(m, info, x) {
        var d := FindBlocked(m[x], info[x]);
        if d.Some? {
          var row := Row(x, m[x].name, UplinkBlocking, d.value);
          MacsApartSnoc(rows, row);
          rows := rows + [row];
          assert rows[|rows| - 1] == row;
        }
      }
    }
  }

  function KindOrder(k: Kind): nat {
    match k
    case Off => 0
    case WrongRoot => 1
    case Priority => 2
    case UplinkBlocking => 3
  }

  predicate RowLess(a: Row, b: Row) {
    if a.kind != b.kind then KindOrder(a.kind) < KindOrder(b.kind)
    else NameLess(ToLower(a.name), ToLower(b.name), a.mac, b.mac)
  }

  ghost predicate IsFinding(sws: seq<Switch>, info: map<string, Bridge>, r: Row) {
    var m := Bridges(sws);
    IsOff(AuditedOf(sws), info, r) || IsWrongRoot(m, info, r) || IsPriority(m, info, r) || IsBlocking(m, info, r)
  }

  lemma {:induction false} RowOrder()
    ensures Sorting.StrictWeakOrder(RowLess)
  {
    forall a, b | RowLess(a, b) ensures !RowLess(b, a) {
      LessTotal(ToLower(a.name), ToLower(b.name));
      LessTotal(a.mac, b.mac);
    }
    forall a, b, c | !RowLess(b, a) && !RowLess(c, b) ensures !RowLess(c, a) {
      if a.kind == b.kind == c.kind {
        NamesComposed(ToLower(a.name), ToLower(b.name), ToLower(c.name), a.mac, b.mac, c.mac);
      }
    }
  }

  predicate NameLess(x: string, y: string, p: string, q: string) {
    if x != y then Less(x, y) else Less(p, q)
  }

  lemma {:induction false} NamesComposed(x: string, y: string, z: string, p: string, q: string, r: string)
    requires !NameLess(y, x, q, p) && !NameLess(z, y, r, q)
    ensures !NameLess(z, x, r, p)
  {
    LessTotal(x, y);
    LessTotal(y, z);
    NotAfterTransitive(x, y, z);
    if x == y == z {
      NotAfterTransitive(p, q, r);
    }
    if x == z {
      assert y != x ==> Less(x, y) && Less(y, z);
    }
  }

  /** Apart from the rows of switches with STP off, each of which has its own, no row occurs twice. */
  ghost predicate OnceEach(offs: seq<Row>, rows: seq<Row>) {
    exists rest :: multiset(rows) == multiset(offs + rest) && Sorting.NoRepeats(rest) && NoneOff(rest)
  }

  ghost predicate NoneOff(rows: seq<Row>) {
    forall r <- rows :: !r.kind.Off?
  }

  lemma {:induction false} KindsApart(
    m: map<string, Switch>, info: map<string, Bridge>, wrong: seq<Row>, prio: seq<Row>, blocking: seq<Row>)
    requires (forall r <- wrong :: IsWrongRoot(m, info, r)) && RowsApart(m, wrong)
    requires (forall r <- prio :: IsPriority(m, info, r)) && MacsApart(prio)
    requires (forall r <- blocking :: IsBlocking(m, info, r)) && MacsApart(blocking)
    ensures Sorting.NoRepeats(wrong + prio + blocking) && NoneOff(wrong + prio + blocking)
  {
    assert forall r <- wrong :: r.kind.WrongRoot?;
    assert forall r <- prio :: r.kind.Priority?;
    assert forall r <- blocking :: r.kind.UplinkBlocking?;
    Sorting.NoRepeatsConcat(wrong, prio);
    Sorting.NoRepeatsConcat(wrong + prio, blocking);
  }

  /** The order of the report: kind by kind, then by name in any case, then by MAC. */
  ghost predicate InReportOrder(a: Row, b: Row) {
    && (b.kind.Off? ==> a.kind.Off?)
    && (b.kind.WrongRoot? ==> a.kind.Off? || a.kind.WrongRoot?)
    && (b.kind.Priority? ==> !a.kind.UplinkBlocking?)
    && (a.kind == b.kind ==>
          && !Less(ToLower(b.name), ToLower(a.name))
          && (ToLower(a.name) == ToLower(b.name) ==> !Less(b.mac, a.mac)))
  }

  lemma {:induction false} SortedIsInReportOrder(rows: seq<Row>)
    requires Sorting.SortedBy(rows, RowLess)
    ensures forall i, j :: 0 <= i < j < |rows| ==> InReportOrder(rows[i], rows[j])
  {
    forall i, j | 0 <= i < j < |rows| ensures InReportOrder(rows[i], rows[j]) {
      assert !RowLess(rows[j], rows[i]);
      LessTotal(ToLower(rows[i].name), ToLower(rows[j].name));
    }
  }

  /**
    * `STPFindings`: exactly the rows of the four kinds, in the order of kind, name and MAC: one for each audited switch
    * with STP off, and every other row once.
    */
  method Findings(sws: seq<Switch>, info: map<string, Bridge>) returns (rows: seq<Row>)
    ensures forall r :: r in rows <==> IsFinding(sws, info, r)
    ensures forall i, j :: 0 <= i < j < |rows| ==> InReportOrder(rows[i], rows[j])
    ensures OnceEach(OffRowsOf(AuditedOf(sws), info), rows)
  {
    var uni := CollectAudited(sws);
    var m := FillPending(uni);
    var off := OffRows(uni, info);
    var wrong := WrongRootRows(m, info);
    var prio := PriorityRows(m, info);
    var blocking := BlockingRows(m, info);
    var rest := wrong + prio + blocking;
    KindsApart(m, info, wrong, prio, blocking);
    var all := off + rest;
    assert forall r :: r in all <==> r in off || r in wrong || r in prio || r in blocking;
    rows := Sorting.Sort(all, RowLess);
    RowOrder();
    Sorting.SortSorted(all, RowLess);
    Sorting.SortPermutes(all, RowLess);
    forall r ensures r in rows <==> r in all {
      Sorting.SameMembers(all, rows, r);
    }
    assert multiset(rows) == multiset(off + rest);
    SortedIsInReportOrder(rows);
  }
}
