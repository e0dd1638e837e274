/** `Merge` of server/internal/unifi/merge.go: hang the UniFi switches and access points into the catalog tree. */
module UnifiMerge {
  import opened Text
  import opened Inventory
  import opened Topology
  import opened TreeDepth
  import opened ParentsFirst
  import TreeSort

  // ---------------------------------------------------------------- dropping adopted MACs from client lists

  function Drop(macs: seq<string>, want: string): seq<string> {
    if macs == [] then []
    else if macs[0] == want then Drop(macs[1..], want)
    else [macs[0]] + Drop(macs[1..], want)
  }

  /** `dropMAC`: an in-place filter. */
  method DropMac(macs: seq<string>, want: string) returns (out: seq<string>)
    ensures out == Drop(macs, want)
  {
    out := [];
    for i := 0 to |macs|
      invariant out + Drop(macs[i..], want) == Drop(macs, want)
    {
      assert macs[i..][1..] == macs[i + 1..];
      if macs[i] != want {
        out := out + [macs[i]];
      }
    }
    assert macs[|macs|..] == [];
  }

  /** What is left of a client list once every adopted MAC is dropped. */
  function Without(macs: seq<string>, gone: seq<string>): seq<string> {
    if macs == [] then []
    else if macs[0] in gone then Without(macs[1..], gone)
    else [macs[0]] + Without(macs[1..], gone)
  }

  lemma {:induction false} WithoutNone(macs: seq<string>)
    ensures Without(macs, []) == macs
  {
    if macs != [] {
      WithoutNone(macs[1..]);
    }
  }

  lemma {:induction false} WithoutAfterDrop(macs: seq<string>, gone: seq<string>)
    requires gone != []
    ensures Without(Drop(macs, gone[0]), gone[1..]) == Without(macs, gone)
  {
    if macs != [] {
      var rest := Drop(macs[1..], gone[0]);
      WithoutAfterDrop(macs[1..], gone);
      if macs[0] == gone[0] {
        assert Drop(macs, gone[0]) == rest;
      } else {
        assert ([macs[0]] + rest)[1..] == rest;
        assert macs[0] in gone <==> macs[0] in gone[1..];
      }
    }
  }

  lemma {:induction false} WithoutMembers(macs: seq<string>, gone: seq<string>, m: string)
    ensures m in Without(macs, gone) <==> m in macs && m !in gone
  {
    if macs != [] {
      WithoutMembers(macs[1..], gone, m);
    }
  }

  /** What is left keeps its number and its order. */
  lemma {:induction false} WithoutKeeps(macs: seq<string>, gone: seq<string>, m: string)
    ensures multiset(Without(macs, gone))[m] == if m in gone then 0 else multiset(macs)[m]
    ensures forall i :: 0 <= i <= |macs| ==> Without(macs[..i], gone) <= Without(macs, gone)
  {
    if macs != [] {
      assert macs == [macs[0]] + macs[1..];
      WithoutKeeps(macs[1..], gone, m);
      forall i | 1 <= i <= |macs| ensures Without(macs[..i], gone) <= Without(macs, gone) {
        assert macs[..i][1..] == macs[1..][..i - 1];
      }
      assert multiset(macs)[m] == multiset([macs[0]])[m] + multiset(macs[1..])[m];
    }
  }

  function CleanInfo(i: Info, gone: seq<string>): Info {
    i.(clients := Without(i.clients, gone))
  }

  function StripTree(nodes: seq<Node>, mac: string): seq<Node> {
    if nodes == [] then []
    else
      [Node(nodes[0].info.(clients := Drop(nodes[0].info.clients, mac)), StripTree(nodes[0].children, mac))]
      + StripTree(nodes[1..], mac)
  }

  /** `stripTreeClients`: the recursive loop over a sibling list. */
  method StripInPlace(nodes: seq<Node>, mac: string) returns (out: seq<Node>)
    ensures out == StripTree(nodes, mac)
    decreases nodes
  {
    out := [];
    for i := 0 to |nodes|
      invariant out + StripTree(nodes[i..], mac) == StripTree(nodes, mac)
    {
      assert nodes[i..][1..] == nodes[i + 1..];
      var clients := DropMac(nodes[i].info.clients, mac);
      var kids := StripInPlace(nodes[i].children, mac);
      out := out + [Node(nodes[i].info.(clients := clients), kids)];
    }
    assert nodes[|nodes|..] == [];
  }

  function StripAll(nodes: seq<Node>, macs: seq<string>): seq<Node>
    decreases macs
  {
    if macs == [] then nodes else StripAll(StripTree(nodes, macs[0]), macs[1..])
  }

  /** The link seen before the strip. */
  ghost function Cleaned(f: Edge -> bool, gone: seq<string>): Edge -> bool {
    (e: Edge) => f(Edge(e.parent, CleanInfo(e.child, gone)))
  }

  /** The tree with every client list cleaned at once. */
  function CleanTree(nodes: seq<Node>, gone: seq<string>): seq<Node> {
    if nodes == [] then []
    else [Node(CleanInfo(nodes[0].info, gone), CleanTree(nodes[0].children, gone))] + CleanTree(nodes[1..], gone)
  }

  lemma {:induction false} CleanNothing(nodes: seq<Node>)
    ensures CleanTree(nodes, []) == nodes
  {
    if nodes != [] {
      CleanNothing(nodes[0].children);
      CleanNothing(nodes[1..]);
      WithoutNone(nodes[0].info.clients);
    }
  }

  lemma {:induction false} CleanAfterStrip(nodes: seq<Node>, gone: seq<string>)
    requires gone != []
    ensures CleanTree(StripTree(nodes, gone[0]), gone[1..]) == CleanTree(nodes, gone)
  {
    if nodes != [] {
      CleanAfterStrip(nodes[0].children, gone);
      CleanAfterStrip(nodes[1..], gone);
      WithoutAfterDrop(nodes[0].info.clients, gone);
      var s := StripTree(nodes, gone[0]);
      assert s[1..] == StripTree(nodes[1..], gone[0]);
    }
  }

  /** Stripping one MAC after another cleans all of them, and touches nothing but client lists. */
  lemma {:induction false} StripAllCleans(nodes: seq<Node>, macs: seq<string>)
    ensures StripAll(nodes, macs) == CleanTree(nodes, macs)
    decreases macs
  {
    if macs == [] {
      CleanNothing(nodes);
    } else {
      StripAllCleans(StripTree(nodes, macs[0]), macs[1..]);
      CleanAfterStrip(nodes, macs);
    }
  }

  lemma {:induction false} CleanLinks(nodes: seq<Node>, gone: seq<string>, parent: Option<string>, f: Edge -> bool)
    ensures Links(CleanTree(nodes, gone), parent, f) == Links(nodes, parent, Cleaned(f, gone))
  {
    if nodes != [] {
      var n := nodes[0];
      CleanLinks(n.children, gone, Some(n.info.mac), f);
      CleanLinks(nodes[1..], gone, parent, f);
      LinksCons(Node(CleanInfo(n.info, gone), CleanTree(n.children, gone)), CleanTree(nodes[1..], gone), parent, f);
    }
  }

  lemma {:induction false} CleanHas(nodes: seq<Node>, gone: seq<string>, mac: string)
    ensures Has(CleanTree(nodes, gone), mac) <==> Has(nodes, mac)
  {
    if nodes != [] {
      CleanHas(nodes[0].children, gone, mac);
      CleanHas(nodes[1..], gone, mac);
      assert CleanTree(nodes, gone)[1..] == CleanTree(nodes[1..], gone);
    }
  }

  lemma {:induction false} CleanBox(nodes: seq<Node>, gone: seq<string>)
    ensures BoxParent(CleanTree(nodes, gone)) == BoxParent(nodes)
  {
    if nodes != [] {
      CleanBox(nodes[1..], gone);
      assert CleanTree(nodes, gone)[1..] == CleanTree(nodes[1..], gone);
    }
  }

  // ---------------------------------------------------------------- attaching in parents-first order

  function AttachAll(tree: seq<Node>, sws: seq<Switch>): seq<Node>
    decreases sws
  {
    if sws == [] then tree else AttachAll(Attach(tree, sws[0]), sws[1..])
  }

  /** The switches are new to the tree, and none comes before its own uplink. */
  ghost predicate Attachable(tree: seq<Node>, sws: seq<Switch>) {
    && DistinctMacs(sws)
    && (forall i :: 0 <= i < |sws| ==> !Has(tree, sws[i].mac))
    && (forall i, j :: 0 <= i <= j < |sws| && sws[i].parentMac != "" ==> sws[i].parentMac != sws[j].mac)
  }

  /** The link a switch must end up with. */
  ghost function LinkFor(box: Option<string>, sw: Switch): Edge {
    Edge(if sw.parentMac == "" then box else Some(sw.parentMac), InfoOf(sw))
  }

  ghost predicate Adds(box: Option<string>, sws: seq<Switch>, e: Edge) {
    exists i :: 0 <= i < |sws| && LinkFor(box, sws[i]) == e
  }

  /** An uplink that is neither in the tree nor among the switches. */
  ghost predicate Missing(tree: seq<Node>, sws: seq<Switch>, mac: string) {
    && mac != "" && !Has(tree, mac) && !HasMac(sws, mac)
    && exists i :: 0 <= i < |sws| && sws[i].parentMac == mac
  }

  ghost predicate Invents(tree: seq<Node>, sws: seq<Switch>, e: Edge) {
    Missing(tree, sws, e.child.mac) && e == Edge(BoxParent(tree), Placeholder(e.child.mac))
  }

  ghost function Bit(b: bool): nat {
    if b then 1 else 0
  }

  ghost function Is(e: Edge): Edge -> bool {
    (x: Edge) => x == e
  }

  lemma {:induction false} GraftKeepsBox(nodes: seq<Node>, mac: string, child: Node)
    ensures BoxParent(Graft(nodes, mac, child).0) == BoxParent(nodes)
  {
    if nodes != [] {
      GraftKeepsBox(nodes[1..], mac, child);
      assert Graft(nodes, mac, child).0[0].info == nodes[0].info;
      assert Graft(nodes, mac, child).0[1..] == nodes[1..]
          || Graft(nodes, mac, child).0[1..] == Graft(nodes[1..], mac, child).0;
    }
  }

  lemma {:induction false} AppendKeepsBox(tree: seq<Node>, node: Node)
    requires node.info.typ != "box"
    ensures BoxParent(AppendUnderBox(tree, node)) == BoxParent(tree)
  {
    if tree == [] {
    } else if tree[0].info.typ == "box" {
    } else if BoxParent(tree[1..]).None? {
      SnocKeepsNoBox(tree, node);
    } else {
      AppendKeepsBox(tree[1..], node);
      assert AppendUnderBox(tree, node)[1..] == AppendUnderBox(tree[1..], node);
    }
  }

  lemma {:induction false} SnocKeepsNoBox(tree: seq<Node>, node: Node)
    requires node.info.typ != "box" && BoxParent(tree).None?
    ensures BoxParent(tree + [node]).None?
  {
    if tree != [] {
      SnocKeepsNoBox(tree[1..], node);
      assert (tree + [node])[1..] == tree[1..] + [node];
    }
  }

  lemma {:induction false} AttachKeepsBox(tree: seq<Node>, sw: Switch)
    requires !Has(tree, sw.mac)
    ensures BoxParent(Attach(tree, sw)) == BoxParent(tree)
  {
    DetachLinks(tree, sw.mac, None, Leads(sw.mac));
    var node := Node(InfoOf(sw), []);
    var hole := Node(Placeholder(sw.parentMac), []);
    GraftKeepsBox(tree, sw.parentMac, node);
    GraftKeepsBox(AppendUnderBox(tree, hole), sw.parentMac, node);
    AppendKeepsBox(tree, node);
    AppendKeepsBox(tree, hole);
  }

  lemma {:induction false} AttachHas(tree: seq<Node>, sw: Switch, mac: string)
    requires !Has(tree, sw.mac)
    ensures Has(Attach(tree, sw), mac) <==>
            Has(tree, mac) || mac == sw.mac || (mac == sw.parentMac && mac != "")
  {
    AttachLinks(tree, sw, Leads(mac));
    DetachLinks(tree, sw.mac, None, Leads(mac));
    HasIffCounted(tree, None, mac);
    HasIffCounted(Attach(tree, sw), None, mac);
  }

  /** The first attachment leaves the rest attachable and takes its own uplink off the missing list. */
  lemma {:induction false} AttachStep(tree: seq<Node>, sws: seq<Switch>)
    requires sws != [] && Attachable(tree, sws)
    ensures Attachable(Attach(tree, sws[0]), sws[1..])
    ensures forall mac :: Missing(Attach(tree, sws[0]), sws[1..], mac) <==>
                          Missing(tree, sws, mac) && mac != sws[0].parentMac
  {
    var next := Attach(tree, sws[0]);
    forall mac ensures Has(next, mac) <==>
        Has(tree, mac) || mac == sws[0].mac || (mac == sws[0].parentMac && mac != "") {
      AttachHas(tree, sws[0], mac);
    }
    forall i | 0 <= i < |sws[1..]| ensures !Has(next, sws[1..][i].mac) {
      assert sws[1..][i] == sws[i + 1];
      assert sws[0].parentMac != "" ==> sws[0].parentMac != sws[i + 1].mac;
    }
    forall mac ensures Missing(next, sws[1..], mac) <==> Missing(tree, sws, mac) && mac != sws[0].parentMac {
      MissingStep(tree, sws, next, mac);
    }
  }

  lemma {:induction false} MissingStep(tree: seq<Node>, sws: seq<Switch>, next: seq<Node>, mac: string)
    requires sws != []
    requires Has(next, mac) <==> Has(tree, mac) || mac == sws[0].mac || (mac == sws[0].parentMac && mac != "")
    ensures Missing(next, sws[1..], mac) <==> Missing(tree, sws, mac) && mac != sws[0].parentMac
  {
    var rest := sws[1..];
    assert HasMac(sws, mac) <==> mac == sws[0].mac || HasMac(rest, mac) by {
      if HasMac(sws, mac) && mac != sws[0].mac {
        var i :| 0 <= i < |sws| && sws[i].mac == mac;
        assert rest[i - 1].mac == mac;
      }
      if HasMac(rest, mac) {
        var i :| 0 <= i < |rest| && rest[i].mac == mac;
        assert sws[i + 1].mac == mac;
      }
    }
    if Missing(next, rest, mac) {
      var i :| 0 <= i < |rest| && rest[i].parentMac == mac;
      assert sws[i + 1].parentMac == mac;
    }
    if Missing(tree, sws, mac) && mac != sws[0].parentMac {
      var i :| 0 <= i < |sws| && sws[i].parentMac == mac;
      assert rest[i - 1].parentMac == mac;
    }
  }

  /** The exact tree: the old links, one link per switch under its uplink, one placeholder per missing uplink. */
  lemma {:induction false} AttachAllLinks(tree: seq<Node>, sws: seq<Switch>, e: Edge)
    requires Attachable(tree, sws)
    ensures Links(AttachAll(tree, sws), None, Is(e))
            == Links(tree, None, Is(e)) + Bit(Adds(BoxParent(tree), sws, e)) + Bit(Invents(tree, sws, e))
    decreases sws
  {
    if sws != [] {
      var sw, rest := sws[0], sws[1..];
      var next := Attach(tree, sw);
      AttachStep(tree, sws);
      AttachKeepsBox(tree, sw);
      AttachAllLinks(next, rest, e);
      AttachLinks(tree, sw, Is(e));
      DetachLinks(tree, sw.mac, None, Is(e));
      AddsStep(BoxParent(tree), sws, e);
      InventsStep(tree, sws, e);
    }
  }

  lemma {:induction false} AddsStep(box: Option<string>, sws: seq<Switch>, e: Edge)
    requires sws != [] && DistinctMacs(sws)
    ensures Bit(Adds(box, sws, e)) == Bit(LinkFor(box, sws[0]) == e) + Bit(Adds(box, sws[1..], e))
  {
    var rest := sws[1..];
    if Adds(box, rest, e) {
      var i :| 0 <= i < |rest| && LinkFor(box, rest[i]) == e;
      assert LinkFor(box, sws[i + 1]) == e && sws[i + 1].mac != sws[0].mac;
    }
    if Adds(box, sws, e) && LinkFor(box, sws[0]) != e {
      var i :| 0 <= i < |sws| && LinkFor(box, sws[i]) == e;
      assert LinkFor(box, rest[i - 1]) == e;
    }
  }

  lemma {:induction false} InventsStep(tree: seq<Node>, sws: seq<Switch>, e: Edge)
    requires sws != [] && Attachable(tree, sws)
    ensures Bit(Invents(tree, sws, e)) ==
            Bit(Invents(Attach(tree, sws[0]), sws[1..], e))
            + (if NeedsPlaceholder(tree, sws[0])
               then One(Is(e), BoxParent(Detach(tree, sws[0].mac).0), Placeholder(sws[0].parentMac)) else 0)
  {
    var sw := sws[0];
    AttachStep(tree, sws);
    AttachKeepsBox(tree, sw);
    DetachLinks(tree, sw.mac, None, Is(e));
    assert NeedsPlaceholder(tree, sw) <==> Missing(tree, sws, sw.parentMac) by {
      assert sw.parentMac != "" ==> !HasMac(sws, sw.parentMac);
    }
  }

  /** Parents-first order of switches that are new to the tree and have acyclic uplinks is attachable. */
  lemma {:induction false} OrderIsAttachable(tree: seq<Node>, added: seq<Switch>, order: seq<Switch>)
    requires Rounds(PendingOf(added), order) && Acyclic(PendingOf(added))
    requires forall i :: 0 <= i < |added| ==> !Has(tree, added[i].mac)
    ensures Attachable(tree, order)
  {
    var p := PendingOf(added);
    RoundsListEveryMac(p, order);
    RoundsOrder(p, order);
    assert SettledCount(p) == |order| by {
      if SettledCount(p) < |order| {
        assert !Grounded(p, order[SettledCount(p)].mac);
      }
    }
    forall i, j | 0 <= i <= j < |order| && order[i].parentMac != "" ensures order[i].parentMac != order[j].mac {
      assert order[i].parentMac == order[j].mac ==> Waits(p, order[i]);
    }
  }

  /** With distinct MACs the order holds the same switches as the input. */
  lemma {:induction false} OrderHasSameSwitches(added: seq<Switch>, order: seq<Switch>)
    requires DistinctMacs(added) && Rounds(PendingOf(added), order)
    ensures forall s :: s in added <==> s in order
    ensures forall mac :: HasMac(added, mac) <==> HasMac(order, mac)
  {
    var p := PendingOf(added);
    RoundsListEveryMac(p, order);
    forall i | 0 <= i < |added| ensures added[i] in order {
      PendingKeeps(added, i);
      assert HasMac(order, added[i].mac);
      var j :| 0 <= j < |order| && order[j].mac == added[i].mac;
      assert order[j] == p[added[i].mac];
    }
    forall j | 0 <= j < |order| ensures order[j] in added {
      var i :| 0 <= i < |added| && added[i].mac == order[j].mac;
      PendingKeeps(added, i);
    }
    forall mac ensures HasMac(added, mac) <==> HasMac(order, mac) {
      assert mac in p.Keys <==> HasMac(added, mac);
    }
  }

  // ---------------------------------------------------------------- the merge

  datatype Snapshot = Snapshot(switches: seq<Switch>, byId: map<string, string>, uplinkOf: map<string, string>)

  /** First catalog switch port that lists the MAC as a client. */
  function HangOff(catalog: seq<Switch>, sw: Switch): Switch {
    if catalog == [] then sw
    else
      match PortOf(catalog[0].ports, sw.mac)
      case Some(id) => sw.(parentMac := catalog[0].mac, parentPort := id)
      case None => HangOff(catalog[1..], sw)
  }

  /** The uplink a UniFi node gets: the UniFi uplink if known, else the catalog port that saw it, else its own. */
  function Resolve(snap: Snapshot, ids: map<string, string>, catalog: seq<Switch>, sw: Switch): Switch {
    var id := if sw.mac in ids then ids[sw.mac] else "";
    if id in snap.uplinkOf then
      var up := snap.uplinkOf[id];
      var mac := if up in snap.byId then snap.byId[up] else "";
      if mac != "" then sw.(parentMac := mac) else sw
    else HangOff(catalog, sw)
  }

  /** `ids` inverts `byId`; when two ids share a MAC, either may win. */
  ghost predicate Inverts(ids: map<string, string>, byId: map<string, string>) {
    && (forall m :: m in ids ==> ids[m] in byId && byId[ids[m]] == m)
    && (forall id :: id in byId ==> byId[id] in ids)
  }

  method Invert(byId: map<string, string>) returns (ids: map<string, string>)
    ensures Inverts(ids, byId)
  {
    ids := map[];
    var left := byId.Keys;
    while left != {}
      invariant left <= byId.Keys
      invariant forall m :: m in ids ==> ids[m] in byId && byId[ids[m]] == m
      invariant forall id :: id in byId && id !in left ==> byId[id] in ids
      decreases |left|
    {
      var id :| id in left;
      ids := ids[byId[id] := id];
      left := left - {id};
    }
  }

  function MacsOf(sws: seq<Switch>): seq<string> {
    seq(|sws|, i requires 0 <= i < |sws| => sws[i].mac)
  }

  function CleanPorts(ports: seq<Port>, gone: seq<string>): seq<Port> {
    seq(|ports|, i requires 0 <= i < |ports| => ports[i].(clients := Without(ports[i].clients, gone)))
  }

  function CleanSwitch(sw: Switch, gone: seq<string>): Switch {
    sw.(clients := Without(sw.clients, gone), ports := CleanPorts(sw.ports, gone))
  }

  function CleanSwitches(sws: seq<Switch>, gone: seq<string>): seq<Switch> {
    seq(|sws|, i requires 0 <= i < |sws| => CleanSwitch(sws[i], gone))
  }

  /** The id under which the controller knows the MAC; "" if it does not. */
  ghost predicate IdOf(byId: map<string, string>, mac: string, id: string) {
    if exists k :: k in byId && byId[k] == mac then id in byId && byId[id] == mac else id == ""
  }

  /** Switch c, port p is the first place in the catalog that lists the MAC as a client. */
  ghost predicate FirstSeen(catalog: seq<Switch>, mac: string, c: nat, p: nat) {
    && SeenAt(catalog, mac, c, p)
    && forall d: nat, q: nat :: SeenAt(catalog, mac, d, q) ==> c < d || (c == d && p <= q)
  }

  ghost predicate SeenAt(catalog: seq<Switch>, mac: string, c: nat, p: nat) {
    c < |catalog| && p < |catalog[c].ports| && mac in catalog[c].ports[p].clients
  }

  /**
    * What becomes of a UniFi node with this id: an uplink that the controller names and knows by MAC is its uplink; one
    * that it does not know by MAC changes nothing; and without one, the first catalog port that lists the node is.
    */
  ghost predicate UplinkFits(snap: Snapshot, catalog: seq<Switch>, id: string, sw: Switch, out: Switch) {
    if id in snap.uplinkOf then
      var up := snap.uplinkOf[id];
      if up in snap.byId && snap.byId[up] != ""
      then out == sw.(parentMac := snap.byId[up])
      else out == sw
    else if exists c: nat, p: nat :: SeenAt(catalog, sw.mac, c, p) then
      exists c: nat, p: nat :: FirstSeen(catalog, sw.mac, c, p)
        && out == sw.(parentMac := catalog[c].mac, parentPort := catalog[c].ports[p].id)
    else out == sw
  }

  ghost predicate UplinksFit(snap: Snapshot, catalog: seq<Switch>, added: seq<Switch>) {
    && |added| == |snap.switches|
    && forall i :: 0 <= i < |added| ==> UplinkFitsSomeId(snap, catalog, snap.switches[i], added[i])
  }

  ghost predicate UplinkFitsSomeId(snap: Snapshot, catalog: seq<Switch>, sw: Switch, out: Switch) {
    exists id :: IdOf(snap.byId, sw.mac, id) && UplinkFits(snap, catalog, id, sw, out)
  }

  lemma {:induction false} HangOffIsFirst(catalog: seq<Switch>, sw: Switch) returns (c: nat, p: nat)
    ensures if c < |catalog|
            then FirstSeen(catalog, sw.mac, c, p)
                 && HangOff(catalog, sw) == sw.(parentMac := catalog[c].mac, parentPort := catalog[c].ports[p].id)
            else HangOff(catalog, sw) == sw && forall d: nat, q: nat :: !SeenAt(catalog, sw.mac, d, q)
  {
    if catalog == [] {
      c, p := 0, 0;
    } else {
      p := PortOfIsFirst(catalog[0].ports, sw.mac);
      if PortOf(catalog[0].ports, sw.mac).Some? {
        c := 0;
      } else {
        var rest := catalog[1..];
        c, p := HangOffIsFirst(rest, sw);
        forall d: nat, q: nat ensures SeenAt(catalog, sw.mac, d, q) <==> d > 0 && SeenAt(rest, sw.mac, d - 1, q) {
          assert d > 0 && d < |catalog| ==> rest[d - 1] == catalog[d];
        }
        c := c + 1;
      }
    }
  }

  /** Resolving gives each node the uplink it is entitled to. */
  lemma {:induction false} ResolveFits(snap: Snapshot, ids: map<string, string>, catalog: seq<Switch>, sw: Switch)
    requires Inverts(ids, snap.byId)
    ensures UplinkFitsSomeId(snap, catalog, sw, Resolve(snap, ids, catalog, sw))
  {
    var id := if sw.mac in ids then ids[sw.mac] else "";
    assert IdOf(snap.byId, sw.mac, id);
    var c, p := HangOffIsFirst(catalog, sw);
    assert UplinkFits(snap, catalog, id, sw, Resolve(snap, ids, catalog, sw));
  }

  /** The UniFi nodes, resolved one by one. */
  ghost predicate ResolvedWith(
    snap: Snapshot, ids: map<string, string>, catalog: seq<Switch>, added: seq<Switch>) {
    |added| == |snap.switches| &&
    forall i :: 0 <= i < |added| ==> added[i] == Resolve(snap, ids, catalog, snap.switches[i])
  }

  /** `after` is `before` with client lists cleaned, each added switch under its uplink, placeholders as needed. */
  ghost predicate ExactTree(before: seq<Node>, added: seq<Switch>, after: seq<Node>) {
    forall e ::
      Links(after, None, Is(e))
      == Links(before, None, Cleaned(Is(e), MacsOf(added)))
         + Bit(Adds(BoxParent(before), added, e))
         + Bit(Invents(before, added, e))
  }

  /**
    * Under its uplink, or the first box, the tree has a node with each added switch's MAC, name, address, uplink port and
    * clients, marked as an access point or a switch; and a bare switch for each uplink known nowhere else.
    */
  ghost predicate NodesShown(before: seq<Node>, added: seq<Switch>, after: seq<Node>) {
    && (forall sw <- added :: Shows(after, Edge(
          if sw.parentMac == "" then BoxParent(before) else Some(sw.parentMac),
          Info(sw.mac, sw.name, sw.ip, if sw.kind == "ap" then "ap" else "switch", sw.parentPort, "", sw.clients))))
    && (forall mac :: Missing(before, added, mac) ==>
          Shows(after, Edge(BoxParent(before), Info(mac, "", "", "switch", "", "", []))))
  }

  ghost predicate Shows(tree: seq<Node>, e: Edge) {
    Links(tree, None, Is(e)) > 0
  }

  lemma {:induction false} ExactTreeShows(before: seq<Node>, added: seq<Switch>, after: seq<Node>)
    requires ExactTree(before, added, after)
    ensures NodesShown(before, added, after)
  {
    forall sw | sw in added
      ensures Shows(after, Edge(
        if sw.parentMac == "" then BoxParent(before) else Some(sw.parentMac),
        Info(sw.mac, sw.name, sw.ip, if sw.kind == "ap" then "ap" else "switch", sw.parentPort, "", sw.clients))) {
      var i :| 0 <= i < |added| && added[i] == sw;
      assert Adds(BoxParent(before), added, LinkFor(BoxParent(before), sw));
    }
    forall mac | Missing(before, added, mac)
      ensures Shows(after, Edge(BoxParent(before), Info(mac, "", "", "switch", "", "", []))) {
      assert Invents(before, added, Edge(BoxParent(before), Placeholder(mac)));
    }
  }

  /** What the exact tree needs: distinct UniFi MACs, not yet in the catalog tree, with acyclic uplinks. */
  ghost predicate Mergeable(tree: seq<Node>, added: seq<Switch>) {
    && DistinctMacs(added)
    && Acyclic(PendingOf(added))
    && forall i :: 0 <= i < |added| ==> !Has(tree, added[i].mac)
  }

  lemma {:induction false} MergedTreeIsExact(tree: seq<Node>, added: seq<Switch>, order: seq<Switch>)
    requires Mergeable(tree, added) && Rounds(PendingOf(added), order)
    ensures ExactTree(tree, added, TreeSort.SortTree(AttachAll(StripAll(tree, MacsOf(added)), order)))
  {
    var gone := MacsOf(added);
    var clean := CleanTree(tree, gone);
    StripAllCleans(tree, gone);
    forall mac ensures Has(clean, mac) <==> Has(tree, mac) {
      CleanHas(tree, gone, mac);
    }
    OrderIsAttachable(clean, added, order);
    OrderHasSameSwitches(added, order);
    forall e ensures Links(TreeSort.SortTree(AttachAll(clean, order)), None, Is(e))
        == Links(tree, None, Cleaned(Is(e), gone)) + Bit(Adds(BoxParent(tree), added, e)) + Bit(Invents(tree, added, e)) {
      TreeSort.SortTreeLinks(AttachAll(clean, order), None, Is(e));
      AttachAllLinks(clean, order, e);
      CleanLinks(tree, gone, None, Is(e));
      CleanBox(tree, gone);
      SameAdds(BoxParent(tree), added, order, e);
      SameInvents(tree, clean, added, order, e);
    }
  }

  lemma {:induction false} SameAdds(box: Option<string>, a: seq<Switch>, b: seq<Switch>, e: Edge)
    requires forall s :: s in a <==> s in b
    ensures Adds(box, a, e) <==> Adds(box, b, e)
  {
    if Adds(box, a, e) {
      var i :| 0 <= i < |a| && LinkFor(box, a[i]) == e;
      assert a[i] in b;
      var j :| 0 <= j < |b| && b[j] == a[i];
      assert LinkFor(box, b[j]) == e;
    }
    if Adds(box, b, e) {
      var i :| 0 <= i < |b| && LinkFor(box, b[i]) == e;
      assert b[i] in a;
      var j :| 0 <= j < |a| && a[j] == b[i];
      assert LinkFor(box, a[j]) == e;
    }
  }

  lemma {:induction false} SameInvents(s: seq<Node>, t: seq<Node>, a: seq<Switch>, b: seq<Switch>, e: Edge)
    requires forall x :: x in a <==> x in b
    requires forall mac :: HasMac(a, mac) <==> HasMac(b, mac)
    requires BoxParent(s) == BoxParent(t) && (Has(s, e.child.mac) <==> Has(t, e.child.mac))
    ensures Invents(s, a, e) <==> Invents(t, b, e)
  {
    var mac := e.child.mac;
    if Missing(s, a, mac) {
      var i :| 0 <= i < |a| && a[i].parentMac == mac;
      assert a[i] in b;
      var j :| 0 <= j < |b| && b[j] == a[i];
      assert b[j].parentMac == mac;
    }
    if Missing(t, b, mac) {
      var i :| 0 <= i < |b| && b[i].parentMac == mac;
      assert b[i] in a;
      var j :| 0 <= j < |a| && a[j] == b[i];
      assert a[j].parentMac == mac;
    }
  }

  // ---------------------------------------------------------------- what holds of any switches

  lemma {:induction false} NoAdoptedTreeClients(
    nodes: seq<Node>, gone: seq<string>, parent: Option<string>, mac: string, f: Edge -> bool)
    requires mac in gone && forall e :: f(e) ==> mac in e.child.clients
    ensures Links(CleanTree(nodes, gone), parent, f) == 0
  {
    if nodes != [] {
      var n := nodes[0];
      WithoutMembers(n.info.clients, gone, mac);
      NoAdoptedTreeClients(n.children, gone, Some(n.info.mac), mac, f);
      NoAdoptedTreeClients(nodes[1..], gone, parent, mac, f);
      LinksCons(Node(CleanInfo(n.info, gone), CleanTree(n.children, gone)), CleanTree(nodes[1..], gone), parent, f);
    }
  }

  /** Once cleaned, no catalog switch and no catalog node lists a removed MAC as a client. */
  lemma {:induction false} NoAdoptedClients(catalog: seq<Switch>, topo: seq<Node>, gone: seq<string>, mac: string)
    requires mac in gone
    ensures forall i :: 0 <= i < |catalog| ==> mac !in CleanSwitches(catalog, gone)[i].clients
    ensures forall i, j :: 0 <= i < |catalog| && 0 <= j < |catalog[i].ports| ==>
              mac !in CleanSwitches(catalog, gone)[i].ports[j].clients
    ensures Links(CleanTree(topo, gone), None, (e: Edge) => mac in e.child.clients) == 0
  {
    forall i | 0 <= i < |catalog| ensures mac !in CleanSwitches(catalog, gone)[i].clients {
      WithoutMembers(catalog[i].clients, gone, mac);
    }
    forall i, j | 0 <= i < |catalog| && 0 <= j < |catalog[i].ports|
      ensures mac !in CleanSwitches(catalog, gone)[i].ports[j].clients {
      WithoutMembers(catalog[i].ports[j].clients, gone, mac);
    }
    NoAdoptedTreeClients(topo, gone, None, mac, (e: Edge) => mac in e.child.clients);
  }

  /** `mac` is listed as a client by a node that is not one of the switches' own. */
  ghost function Stray(sws: seq<Switch>, mac: string): Edge -> bool {
    (e: Edge) => mac in e.child.clients && !OwnNode(sws, e.child)
  }

  ghost predicate OwnNode(sws: seq<Switch>, info: Info) {
    exists sw <- sws :: info == InfoOf(sw)
  }

  /** Attaching adds only the switches' own nodes and placeholders without clients. */
  lemma {:induction false} AttachAllStrays(tree: seq<Node>, sws: seq<Switch>, all: seq<Switch>, mac: string)
    requires forall sw <- sws :: sw in all
    ensures Links(AttachAll(tree, sws), None, Stray(all, mac)) <= Links(tree, None, Stray(all, mac))
    decreases sws
  {
    if sws != [] {
      assert sws[0] in all && OwnNode(all, InfoOf(sws[0]));
      AttachLinks(tree, sws[0], Stray(all, mac));
      AttachAllStrays(Attach(tree, sws[0]), sws[1..], all, mac);
    }
  }

  /** A link stays while other switches are attached, and the switch's own attachment makes it. */
  lemma {:induction false} AttachKeepsUnder(tree: seq<Node>, sw: Switch, p: string, x: string)
    requires if sw.mac == x then sw.parentMac == p && p != "" else Links(tree, None, Under(p, x)) > 0
    ensures Links(Attach(tree, sw), None, Under(p, x)) > 0
  {
    AttachLinks(tree, sw, Under(p, x));
    DetachLinks(tree, sw.mac, None, Under(p, x));
  }

  lemma {:induction false} AttachAllKeepsUnder(tree: seq<Node>, sws: seq<Switch>, p: string, x: string)
    requires Links(tree, None, Under(p, x)) > 0 && !HasMac(sws, x)
    ensures Links(AttachAll(tree, sws), None, Under(p, x)) > 0
    decreases sws
  {
    if sws != [] {
      assert forall i :: 0 <= i < |sws[1..]| ==> sws[1..][i] == sws[i + 1];
      AttachKeepsUnder(tree, sws[0], p, x);
      AttachAllKeepsUnder(Attach(tree, sws[0]), sws[1..], p, x);
    }
  }

  /** Whatever the tree and the uplinks: each switch ends up under its uplink. */
  lemma {:induction false} EachUnderItsUplink(tree: seq<Node>, sws: seq<Switch>, i: nat)
    requires DistinctMacs(sws) && i < |sws| && sws[i].parentMac != ""
    ensures Links(AttachAll(tree, sws), None, Under(sws[i].parentMac, sws[i].mac)) > 0
    decreases sws
  {
    var rest := sws[1..];
    if i == 0 {
      AttachKeepsUnder(tree, sws[0], sws[0].parentMac, sws[0].mac);
      assert !HasMac(rest, sws[0].mac);
      AttachAllKeepsUnder(Attach(tree, sws[0]), rest, sws[0].parentMac, sws[0].mac);
    } else {
      assert rest[i - 1] == sws[i];
      EachUnderItsUplink(Attach(tree, sws[0]), rest, i - 1);
    }
  }

  // ---------------------------------------------------------------- when the merged tree has distinct MACs

  lemma {:induction false} AttachableStaysDistinct(tree: seq<Node>, sws: seq<Switch>)
    requires Attachable(tree, sws) && Distinct(tree)
    ensures Distinct(AttachAll(tree, sws))
    decreases sws
  {
    if sws != [] {
      AttachStep(tree, sws);
      DetachLinks(tree, sws[0].mac, None, Leads(sws[0].mac));
      assert !Has(tree, sws[0].mac) ==> Detach(tree, sws[0].mac).1.None?;
      AttachKeepsDistinct(tree, sws[0]);
      AttachableStaysDistinct(Attach(tree, sws[0]), sws[1..]);
    }
  }

  /** In a tree with distinct MACs that has every uplink, each uplink is one level up. */
  lemma {:induction false} UplinksClimb(p: map<string, Switch>, tree: seq<Node>, k: string, d: nat, i: nat)
    requires Distinct(tree) && At(tree, k, d) && Up(p, k, i).Some?
    requires forall x :: x in p && Waits(p, p[x]) ==> Links(tree, None, Under(p[x].parentMac, x)) > 0
    ensures i <= d
    decreases i
  {
    if i > 0 {
      var q := p[k].parentMac;
      assert Links(tree, None, Under(q, k)) > 0;
      var e := LinkGoesDown(tree, None, q, k);
      assert MacCount(tree, None, k) <= 1;
      OneDepth(tree, None, k, d, e + 1);
      UplinksClimb(p, tree, q, e, i - 1);
    }
  }

  lemma {:induction false} DistinctMeansAcyclic(p: map<string, Switch>, tree: seq<Node>)
    requires Distinct(tree)
    requires forall x :: x in p && Waits(p, p[x]) ==> Links(tree, None, Under(p[x].parentMac, x)) > 0
    ensures Acyclic(p)
  {
    forall k | k in p ensures Grounded(p, k) {
      if Waits(p, p[k]) {
        var d := LinkGoesDown(tree, None, p[k].parentMac, k);
        if Up(p, k, d + 2).Some? {
          UplinksClimb(p, tree, k, d + 1, d + 2);
        }
        assert Up(p, k, d + 2) == None;
      } else {
        assert Up(p, k, 1) == None;
      }
    }
  }

  lemma {:induction false} SortKeepsDistinct(tree: seq<Node>)
    ensures Distinct(TreeSort.SortTree(tree)) <==> Distinct(tree)
  {
    forall mac ensures MacCount(TreeSort.SortTree(tree), None, mac) == MacCount(tree, None, mac) {
      TreeSort.SortTreeLinks(tree, None, Leads(mac));
    }
  }

  lemma {:induction false} CleanKeepsDistinct(tree: seq<Node>, gone: seq<string>)
    ensures Distinct(CleanTree(tree, gone)) <==> Distinct(tree)
  {
    forall mac ensures MacCount(CleanTree(tree, gone), None, mac) == MacCount(tree, None, mac) {
      CleanLinks(tree, gone, None, Leads(mac));
      var f, g := Cleaned(Leads(mac), gone), Leads(mac);
      forall e: Edge ensures f(e) == g(e) {
        assert f(e) == g(Edge(e.parent, CleanInfo(e.child, gone)));
      }
      SameLinks(tree, None, f, g);
    }
  }

  lemma {:induction false} SameLinks(nodes: seq<Node>, parent: Option<string>, f: Edge -> bool, g: Edge -> bool)
    requires forall e :: f(e) == g(e)
    ensures Links(nodes, parent, f) == Links(nodes, parent, g)
  {
    if nodes != [] {
      SameLinks(nodes[0].children, Some(nodes[0].info.mac), f, g);
      SameLinks(nodes[1..], parent, f, g);
    }
  }

  /** The tree that `Merge` makes of `topo`. */
  function MergedTree(topo: seq<Node>, added: seq<Switch>, order: seq<Switch>): seq<Node> {
    TreeSort.SortTree(AttachAll(StripAll(topo, MacsOf(added)), order))
  }

  /**
    * For distinct UniFi MACs that are new to a tree with distinct MACs: the merged tree has distinct MACs if and only
    * if the uplinks are acyclic.
    */
  lemma {:induction false} DistinctIffAcyclic(topo: seq<Node>, added: seq<Switch>, order: seq<Switch>)
    requires Distinct(topo) && DistinctMacs(added) && Rounds(PendingOf(added), order)
    requires forall i :: 0 <= i < |added| ==> !Has(topo, added[i].mac)
    ensures Distinct(MergedTree(topo, added, order)) <==> Acyclic(PendingOf(added))
  {
    var p, gone := PendingOf(added), MacsOf(added);
    var clean := CleanTree(topo, gone);
    StripAllCleans(topo, gone);
    CleanKeepsDistinct(topo, gone);
    SortKeepsDistinct(AttachAll(clean, order));
    if Acyclic(p) {
      forall mac ensures Has(clean, mac) <==> Has(topo, mac) {
        CleanHas(topo, gone, mac);
      }
      OrderIsAttachable(clean, added, order);
      AttachableStaysDistinct(clean, order);
    }
    if Distinct(AttachAll(clean, order)) {
      RoundsListEveryMac(p, order);
      forall x | x in p && Waits(p, p[x]) ensures Links(AttachAll(clean, order), None, Under(p[x].parentMac, x)) > 0 {
        var i :| 0 <= i < |order| && order[i].mac == x;
        EachUnderItsUplink(clean, order, i);
      }
      DistinctMeansAcyclic(p, AttachAll(clean, order));
    }
  }

  ghost predicate AllUnderUplinks(sws: seq<Switch>, tree: seq<Node>) {
    forall sw <- sws :: sw.parentMac != "" ==> Links(tree, None, Under(sw.parentMac, sw.mac)) > 0
  }

  lemma {:induction false} UplinksHold(topo: seq<Node>, added: seq<Switch>, order: seq<Switch>)
    requires DistinctMacs(added) && Rounds(PendingOf(added), order)
    ensures AllUnderUplinks(added, MergedTree(topo, added, order))
  {
    var p, gone := PendingOf(added), MacsOf(added);
    RoundsListEveryMac(p, order);
    forall sw | sw in added && sw.parentMac != ""
      ensures Links(MergedTree(topo, added, order), None, Under(sw.parentMac, sw.mac)) > 0 {
      var j :| 0 <= j < |added| && added[j] == sw;
      PendingKeeps(added, j);
      var i :| 0 <= i < |order| && order[i].mac == sw.mac;
      EachUnderItsUplink(StripAll(topo, gone), order, i);
      TreeSort.SortTreeLinks(AttachAll(StripAll(topo, gone), order), None, Under(sw.parentMac, sw.mac));
    }
  }

  /** All that is promised of the merged tree. */
  lemma {:induction false} MergedTreeHolds(topo: seq<Node>, added: seq<Switch>, order: seq<Switch>)
    requires Rounds(PendingOf(added), order)
    ensures var tree := MergedTree(topo, added, order);
      && (forall mac <- MacsOf(added) :: Links(tree, None, Stray(added, mac)) == 0)
      && (Mergeable(topo, added) ==> ExactTree(topo, added, tree) && NodesShown(topo, added, tree))
      && (DistinctMacs(added) ==> AllUnderUplinks(added, tree))
      && (Distinct(topo) && DistinctMacs(added) && (forall sw <- added :: !Has(topo, sw.mac)) ==>
            (Distinct(tree) <==> Acyclic(PendingOf(added))))
  {
    forall mac | mac in MacsOf(added) ensures Links(MergedTree(topo, added, order), None, Stray(added, mac)) == 0 {
      NoStrayClients(topo, added, order, mac);
    }
    if Mergeable(topo, added) {
      MergedTreeIsExact(topo, added, order);
      ExactTreeShows(topo, added, MergedTree(topo, added, order));
    }
    if DistinctMacs(added) {
      UplinksHold(topo, added, order);
    }
    if Distinct(topo) && DistinctMacs(added) && forall sw <- added :: !Has(topo, sw.mac) {
      DistinctIffAcyclic(topo, added, order);
    }
  }

  lemma {:induction false} PendingFrom(sws: seq<Switch>)
    ensures forall k :: k in PendingOf(sws) ==> PendingOf(sws)[k] in sws
  {
    if sws != [] {
      PendingFrom(sws[..|sws| - 1]);
    }
  }

  /** Whatever the UniFi switches: no node of the merged tree but their own lists one of their MACs as a client. */
  lemma {:induction false} NoStrayClients(topo: seq<Node>, added: seq<Switch>, order: seq<Switch>, mac: string)
    requires Rounds(PendingOf(added), order) && mac in MacsOf(added)
    ensures Links(MergedTree(topo, added, order), None, Stray(added, mac)) == 0
  {
    var p, gone := PendingOf(added), MacsOf(added);
    StripAllCleans(topo, gone);
    NoAdoptedTreeClients(topo, gone, None, mac, Stray(added, mac));
    RoundsListEveryMac(p, order);
    PendingFrom(added);
    forall sw | sw in order ensures sw in added {
      var i :| 0 <= i < |order| && order[i] == sw;
      assert order[i] == p[order[i].mac];
    }
    AttachAllStrays(CleanTree(topo, gone), order, added, mac);
    TreeSort.SortTreeLinks(AttachAll(CleanTree(topo, gone), order), None, Stray(added, mac));
  }

  // ---------------------------------------------------------------- the loops of Merge

  function DropFromPorts(ports: seq<Port>, mac: string): seq<Port> {
    seq(|ports|, i requires 0 <= i < |ports| => ports[i].(clients := Drop(ports[i].clients, mac)))
  }

  function DropFromSwitch(sw: Switch, mac: string): Switch {
    sw.(clients := Drop(sw.clients, mac), ports := DropFromPorts(sw.ports, mac))
  }

  function DropFromSwitches(sws: seq<Switch>, mac: string): seq<Switch> {
    seq(|sws|, i requires 0 <= i < |sws| => DropFromSwitch(sws[i], mac))
  }

  lemma {:induction false} CleanSwitchAfterDrop(sw: Switch, gone: seq<string>)
    requires gone != []
    ensures CleanSwitch(DropFromSwitch(sw, gone[0]), gone[1..]) == CleanSwitch(sw, gone)
  {
    WithoutAfterDrop(sw.clients, gone);
    forall i | 0 <= i < |sw.ports|
      ensures CleanPorts(DropFromPorts(sw.ports, gone[0]), gone[1..])[i] == CleanPorts(sw.ports, gone)[i] {
      WithoutAfterDrop(sw.ports[i].clients, gone);
    }
    assert CleanPorts(DropFromPorts(sw.ports, gone[0]), gone[1..]) == CleanPorts(sw.ports, gone);
  }

  lemma {:induction false} CleanSwitchesAfterDrop(sws: seq<Switch>, gone: seq<string>)
    requires gone != []
    ensures CleanSwitches(DropFromSwitches(sws, gone[0]), gone[1..]) == CleanSwitches(sws, gone)
  {
    forall i | 0 <= i < |sws| ensures
        CleanSwitches(DropFromSwitches(sws, gone[0]), gone[1..])[i] == CleanSwitches(sws, gone)[i] {
      CleanSwitchAfterDrop(sws[i], gone);
    }
  }

  lemma {:induction false} CleanSwitchesNothing(sws: seq<Switch>)
    ensures CleanSwitches(sws, []) == sws
  {
    forall i | 0 <= i < |sws| ensures CleanSwitch(sws[i], []) == sws[i] {
      WithoutNone(sws[i].clients);
      forall j | 0 <= j < |sws[i].ports| ensures CleanPorts(sws[i].ports, [])[j] == sws[i].ports[j] {
        WithoutNone(sws[i].ports[j].clients);
      }
      assert CleanPorts(sws[i].ports, []) == sws[i].ports;
    }
  }

  method StripPorts(ports: seq<Port>, mac: string) returns (out: seq<Port>)
    ensures out == DropFromPorts(ports, mac)
  {
    out := [];
    for i := 0 to |ports|
      invariant out == DropFromPorts(ports, mac)[..i]
    {
      var clients := DropMac(ports[i].clients, mac);
      out := out + [ports[i].(clients := clients)];
    }
  }

  method StripSwitches(sws: seq<Switch>, mac: string) returns (out: seq<Switch>)
    ensures out == DropFromSwitches(sws, mac)
  {
    out := [];
    for i := 0 to |sws|
      invariant out == DropFromSwitches(sws, mac)[..i]
    {
      var clients := DropMac(sws[i].clients, mac);
      var ports := StripPorts(sws[i].ports, mac);
      out := out + [sws[i].(clients := clients, ports := ports)];
    }
  }

  /** `hangOffFirewalla`: the nested search loops. */
  method HangOffFirewalla(catalog: seq<Switch>, sw: Switch) returns (out: Switch)
    ensures out == HangOff(catalog, sw)
  {
    for i := 0 to |catalog|
      invariant HangOff(catalog, sw) == HangOff(catalog[i..], sw)
    {
      var port := FindPort(catalog[i].ports, sw.mac);
      if port.Some? {
        return sw.(parentMac := catalog[i].mac, parentPort := port.value);
      }
      assert catalog[i..][1..] == catalog[i + 1..];
    }
    out := sw;
  }

  method ResolveAll(snap: Snapshot, ids: map<string, string>, catalog: seq<Switch>) returns (added: seq<Switch>)
    requires Inverts(ids, snap.byId)
    ensures ResolvedWith(snap, ids, catalog, added) && UplinksFit(snap, catalog, added)
  {
    added := [];
    for i := 0 to |snap.switches|
      invariant |added| == i
      invariant forall k :: 0 <= k < i ==> added[k] == Resolve(snap, ids, catalog, snap.switches[k])
      invariant forall k :: 0 <= k < i ==> UplinkFitsSomeId(snap, catalog, snap.switches[k], added[k])
    {
      ResolveFits(snap, ids, catalog, snap.switches[i]);
      var sw := snap.switches[i];
      var id := if sw.mac in ids then ids[sw.mac] else "";
      if id in snap.uplinkOf {
        var up := snap.uplinkOf[id];
        var mac := if up in snap.byId then snap.byId[up] else "";
        if mac != "" {
          sw := sw.(parentMac := mac);
        }
      } else {
        sw := HangOffFirewalla(catalog, sw);
      }
      added := added + [sw];
    }
  }

  method StripEverywhere(catalog: seq<Switch>, topo: seq<Node>, added: seq<Switch>)
    returns (switches: seq<Switch>, tree: seq<Node>)
    ensures switches == CleanSwitches(catalog, MacsOf(added))
    ensures tree == StripAll(topo, MacsOf(added))
  {
    switches, tree := catalog, topo;
    ghost var gone := MacsOf(added);
    for i := 0 to |added|
      invariant CleanSwitches(switches, gone[i..]) == CleanSwitches(catalog, gone)
      invariant StripAll(tree, gone[i..]) == StripAll(topo, gone)
    {
      assert gone[i..][0] == added[i].mac && gone[i..][1..] == gone[i + 1..];
      CleanSwitchesAfterDrop(switches, gone[i..]);
      switches := StripSwitches(switches, added[i].mac);
      tree := StripInPlace(tree, added[i].mac);
    }
    assert gone[|added|..] == [];
    CleanSwitchesNothing(switches);
  }

  method AttachTree(tree: seq<Node>, sw: Switch) returns (out: seq<Node>)
    ensures out == Attach(tree, sw)
  {
    var rest, had := DetachInPlace(tree, sw.mac);
    var node := Node(InfoOf(sw), if had.Some? then had.value.children else []);
    if sw.parentMac != "" {
      var grafted, done := GraftInPlace(rest, sw.parentMac, node);
      if done {
        return grafted;
      }
      var made := AppendUnderBox(rest, Node(Placeholder(sw.parentMac), []));
      out, done := GraftInPlace(made, sw.parentMac, node);
      return out;
    }
    out := AppendUnderBox(rest, node);
  }

  /**
    * `Merge`. Catalog switches come first with the UniFi MACs gone from every client list, then the UniFi
    * nodes with their resolved uplinks; the tree is sorted at every level, no node but the UniFi ones lists a
    * UniFi MAC as a client, and every UniFi node hangs under its uplink. The tree is exact when the UniFi nodes are
    * mergeable, and for new nodes with distinct MACs it has distinct MACs exactly when their uplinks are acyclic.
    */
  method Merge(catalog: seq<Switch>, topo: seq<Node>, snap: Snapshot)
    returns (switches: seq<Switch>, tree: seq<Node>)
    ensures snap.switches == [] ==> switches == catalog && tree == topo
    ensures |catalog| <= |switches|
    ensures snap.switches != [] ==>
      var added := switches[|catalog|..];
      && UplinksFit(snap, catalog, added)
      && switches[..|catalog|] == CleanSwitches(catalog, MacsOf(added))
      && TreeSort.SiblingsSorted(tree)
      && (forall mac <- MacsOf(added) :: Links(tree, None, Stray(added, mac)) == 0)
      && (Mergeable(topo, added) ==> ExactTree(topo, added, tree) && NodesShown(topo, added, tree))
      && (DistinctMacs(added) ==> AllUnderUplinks(added, tree))
      && (Distinct(topo) && DistinctMacs(added) && (forall sw <- added :: !Has(topo, sw.mac)) ==>
            (Distinct(tree) <==> Acyclic(PendingOf(added))))
  {
    if snap.switches == [] {
      return catalog, topo;
    }
    var ids := Invert(snap.byId);
    var added := ResolveAll(snap, ids, catalog);
    switches, tree := StripEverywhere(catalog, topo, added);
    var order := ParentsFirst.ParentsFirst(added);
    ghost var stripped := tree;
    for i := 0 to |order|
      invariant AttachAll(tree, order[i..]) == AttachAll(stripped, order)
    {
      assert order[i..][1..] == order[i + 1..];
      tree := AttachTree(tree, order[i]);
    }
    assert order[|order|..] == [];
    tree := TreeSort.SortInPlace(tree);
    TreeSort.SortTreeSorts(AttachAll(stripped, order));
    assert tree == MergedTree(topo, added, order);
    MergedTreeHolds(topo, added, order);
    var result := switches + added;
    assert result[|catalog|..] == added && result[..|catalog|] == switches;
    switches := result;
  }
}
