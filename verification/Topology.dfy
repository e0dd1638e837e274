/** The topology tree of server/internal/unifi/merge.go: detach, graft, placeholders, client stripping, sibling sort. */
module Topology {
  import opened Text
  import opened Inventory

  /** A tree node without its children. */
  datatype Info = Info(
    mac: string, name: string, ip: string, typ: string,
    parentPort: string, childPort: string, clients: seq<string>)

  datatype Node = Node(info: Info, children: seq<Node>)

  /** One parent link: the parent's MAC (None at top level) and everything known about the child. */
  datatype Edge = Edge(parent: Option<string>, child: Info)

  ghost function One(f: Edge -> bool, parent: Option<string>, child: Info): nat {
    if f(Edge(parent, child)) then 1 else 0
  }

  /**
    * How many parent links below `parent` satisfy `f`. Over all `f` this is the tree as a bag of links;
    * with distinct MACs it fixes the tree up to the order of siblings.
    */
  ghost function Links(nodes: seq<Node>, parent: Option<string>, f: Edge -> bool): nat {
    if nodes == [] then 0
    else NodeLinks(nodes[0], parent, f) + Links(nodes[1..], parent, f)
  }

  /** The links a node brings along when it is hung under `parent`. */
  ghost function NodeLinks(n: Node, parent: Option<string>, f: Edge -> bool): nat {
    One(f, parent, n.info) + Links(n.children, Some(n.info.mac), f)
  }

  ghost predicate Has(nodes: seq<Node>, mac: string) {
    nodes != [] && (nodes[0].info.mac == mac || Has(nodes[0].children, mac) || Has(nodes[1..], mac))
  }

  lemma {:induction false} LinksCons(n: Node, rest: seq<Node>, parent: Option<string>, f: Edge -> bool)
    ensures Links([n] + rest, parent, f) == NodeLinks(n, parent, f) + Links(rest, parent, f)
  {
    assert ([n] + rest)[1..] == rest;
  }

  lemma {:induction false} LinksConcat(a: seq<Node>, b: seq<Node>, parent: Option<string>, f: Edge -> bool)
    ensures Links(a + b, parent, f) == Links(a, parent, f) + Links(b, parent, f)
  {
    if a == [] {
      assert a + b == b;
    } else {
      LinksConcat(a[1..], b, parent, f);
      assert (a + b)[1..] == a[1..] + b;
    }
  }

  lemma {:induction false} LinksSnoc(a: seq<Node>, n: Node, parent: Option<string>, f: Edge -> bool)
    ensures Links(a + [n], parent, f) == Links(a, parent, f) + NodeLinks(n, parent, f)
  {
    LinksConcat(a, [n], parent, f);
    LinksCons(n, [], parent, f);
    assert [n] + [] == [n];
  }

  ghost function Leads(mac: string): Edge -> bool {
    (e: Edge) => e.child.mac == mac
  }

  /** How many nodes carry a MAC. */
  ghost function MacCount(nodes: seq<Node>, parent: Option<string>, mac: string): nat {
    Links(nodes, parent, Leads(mac))
  }

  lemma {:induction false} HasIffCounted(nodes: seq<Node>, parent: Option<string>, mac: string)
    ensures Has(nodes, mac) <==> MacCount(nodes, parent, mac) > 0
  {
    if nodes != [] {
      HasIffCounted(nodes[0].children, Some(nodes[0].info.mac), mac);
      HasIffCounted(nodes[1..], parent, mac);
      assert NodeLinks(nodes[0], parent, Leads(mac))
          == One(Leads(mac), parent, nodes[0].info) + MacCount(nodes[0].children, Some(nodes[0].info.mac), mac);
    }
  }

  ghost predicate Distinct(nodes: seq<Node>) {
    forall mac :: MacCount(nodes, None, mac) <= 1
  }

  // ---------------------------------------------------------------- graft

  /** Hangs `child` under the first node, in preorder, with the wanted MAC. */
  function Graft(nodes: seq<Node>, mac: string, child: Node): (seq<Node>, bool) {
    if nodes == [] then ([], false)
    else
      var n := nodes[0];
      if n.info.mac == mac then ([n.(children := n.children + [child])] + nodes[1..], true)
      else
        var (kids, done) := Graft(n.children, mac, child);
        if done then ([n.(children := kids)] + nodes[1..], true)
        else
          var (rest, found) := Graft(nodes[1..], mac, child);
          ([n] + rest, found)
  }

  /** Grafting adds exactly the child's links under the wanted MAC, and fails exactly when that MAC is absent. */
  lemma {:induction false} GraftLinks(nodes: seq<Node>, mac: string, child: Node, parent: Option<string>, f: Edge -> bool)
    ensures Graft(nodes, mac, child).1 <==> Has(nodes, mac)
    ensures !Has(nodes, mac) ==> Graft(nodes, mac, child).0 == nodes
    ensures Has(nodes, mac) ==> Links(Graft(nodes, mac, child).0, parent, f)
                                == Links(nodes, parent, f) + NodeLinks(child, Some(mac), f)
  {
    if nodes != [] {
      var n := nodes[0];
      assert nodes == [n] + nodes[1..];
      if n.info.mac == mac {
        LinksSnoc(n.children, child, Some(mac), f);
        LinksCons(n.(children := n.children + [child]), nodes[1..], parent, f);
      } else {
        GraftLinks(n.children, mac, child, Some(n.info.mac), f);
        if Has(n.children, mac) {
          LinksCons(n.(children := Graft(n.children, mac, child).0), nodes[1..], parent, f);
        } else {
          GraftLinks(nodes[1..], mac, child, parent, f);
          LinksCons(n, Graft(nodes[1..], mac, child).0, parent, f);
        }
      }
    }
  }

  /** One turn of the sibling loop: replace the i-th node, or move on when it took nothing. */
  lemma {:induction false} GraftTurn(nodes: seq<Node>, mac: string, child: Node, i: nat)
    requires i < |nodes|
    requires Graft(nodes, mac, child) ==
             (nodes[..i] + Graft(nodes[i..], mac, child).0, Graft(nodes[i..], mac, child).1)
    ensures var n := nodes[i];
            Graft(nodes, mac, child) ==
            if n.info.mac == mac then (nodes[i := n.(children := n.children + [child])], true)
            else if Graft(n.children, mac, child).1 then
              (nodes[i := n.(children := Graft(n.children, mac, child).0)], true)
            else (nodes[..i + 1] + Graft(nodes[i + 1..], mac, child).0, Graft(nodes[i + 1..], mac, child).1)
  {
    var n := nodes[i];
    assert nodes[i..][0] == n && nodes[i..][1..] == nodes[i + 1..];
    if n.info.mac == mac {
      assert nodes[..i] + ([n.(children := n.children + [child])] + nodes[i + 1..])
          == nodes[i := n.(children := n.children + [child])];
    } else if Graft(n.children, mac, child).1 {
      var kids := Graft(n.children, mac, child).0;
      assert nodes[..i] + ([n.(children := kids)] + nodes[i + 1..]) == nodes[i := n.(children := kids)];
    } else {
      var rest := Graft(nodes[i + 1..], mac, child).0;
      assert nodes[..i] + ([n] + rest) == nodes[..i + 1] + rest;
    }
  }

  /** `graft` as the source runs it: a loop over the siblings that stops at the first success. */
  method GraftInPlace(nodes: seq<Node>, mac: string, child: Node) returns (out: seq<Node>, done: bool)
    ensures (out, done) == Graft(nodes, mac, child)
    decreases nodes
  {
    out := nodes;
    assert nodes[0..] == nodes && nodes[..0] + Graft(nodes, mac, child).0 == Graft(nodes, mac, child).0;
    for i := 0 to |nodes|
      invariant out == nodes
      invariant Graft(nodes, mac, child) ==
                (nodes[..i] + Graft(nodes[i..], mac, child).0, Graft(nodes[i..], mac, child).1)
    {
      var n := nodes[i];
      GraftTurn(nodes, mac, child, i);
      if n.info.mac == mac {
        return nodes[i := n.(children := n.children + [child])], true;
      }
      var kids, found := GraftInPlace(n.children, mac, child);
      if found {
        return nodes[i := n.(children := kids)], true;
      }
    }
    assert nodes[|nodes|..] == [] && nodes[..|nodes|] + [] == nodes;
    done := false;
  }

  // ---------------------------------------------------------------- detach

  /** Takes out the first node, in preorder, with the given MAC, children and all. */
  function Detach(nodes: seq<Node>, mac: string): (r: (seq<Node>, Option<Node>))
    ensures r.1.Some? <==> Has(nodes, mac)
  {
    if nodes == [] then ([], None)
    else
      var n := nodes[0];
      if n.info.mac == mac then (nodes[1..], Some(n))
      else
        var (kids, got) := Detach(n.children, mac);
        if got.Some? then ([n.(children := kids)] + nodes[1..], got)
        else
          var (rest, found) := Detach(nodes[1..], mac);
          ([n] + rest, found)
  }

  /** Where the first node with this MAC hangs. */
  ghost function ParentOf(nodes: seq<Node>, parent: Option<string>, mac: string): Option<string>
    requires Has(nodes, mac)
  {
    if nodes[0].info.mac == mac then parent
    else if Has(nodes[0].children, mac) then ParentOf(nodes[0].children, Some(nodes[0].info.mac), mac)
    else ParentOf(nodes[1..], parent, mac)
  }

  /** Detaching takes away exactly one node with its subtree, and does nothing when the MAC is absent. */
  lemma {:induction false} DetachLinks(nodes: seq<Node>, mac: string, parent: Option<string>, f: Edge -> bool)
    ensures !Has(nodes, mac) ==> Detach(nodes, mac).0 == nodes
    ensures Has(nodes, mac) ==>
      var (rest, got) := Detach(nodes, mac);
      got.value.info.mac == mac &&
      Links(nodes, parent, f) == Links(rest, parent, f) + NodeLinks(got.value, ParentOf(nodes, parent, mac), f)
  {
    if nodes != [] {
      var n := nodes[0];
      assert nodes == [n] + nodes[1..];
      if n.info.mac != mac {
        DetachLinks(n.children, mac, Some(n.info.mac), f);
        if Has(n.children, mac) {
          LinksCons(n.(children := Detach(n.children, mac).0), nodes[1..], parent, f);
        } else {
          DetachLinks(nodes[1..], mac, parent, f);
          LinksCons(n, Detach(nodes[1..], mac).0, parent, f);
        }
      }
    }
  }

  /** One turn of the sibling loop: take the i-th node, or something below it, or move on. */
  lemma {:induction false} DetachTurn(nodes: seq<Node>, mac: string, i: nat)
    requires i < |nodes|
    requires Detach(nodes, mac) == (nodes[..i] + Detach(nodes[i..], mac).0, Detach(nodes[i..], mac).1)
    ensures var n := nodes[i];
            Detach(nodes, mac) ==
            if n.info.mac == mac then (nodes[..i] + nodes[i + 1..], Some(n))
            else if Detach(n.children, mac).1.Some? then
              (nodes[i := n.(children := Detach(n.children, mac).0)], Detach(n.children, mac).1)
            else (nodes[..i + 1] + Detach(nodes[i + 1..], mac).0, Detach(nodes[i + 1..], mac).1)
  {
    var n := nodes[i];
    assert nodes[i..][0] == n && nodes[i..][1..] == nodes[i + 1..];
    if n.info.mac != mac {
      if Detach(n.children, mac).1.Some? {
        var kids := Detach(n.children, mac).0;
        assert nodes[..i] + ([n.(children := kids)] + nodes[i + 1..]) == nodes[i := n.(children := kids)];
      } else {
        var rest := Detach(nodes[i + 1..], mac).0;
        assert nodes[..i] + ([n] + rest) == nodes[..i + 1] + rest;
      }
    }
  }

  /** `detach` as the source runs it. */
  method DetachInPlace(nodes: seq<Node>, mac: string) returns (out: seq<Node>, got: Option<Node>)
    ensures (out, got) == Detach(nodes, mac)
    decreases nodes
  {
    out := nodes;
    assert nodes[0..] == nodes && nodes[..0] + Detach(nodes, mac).0 == Detach(nodes, mac).0;
    for i := 0 to |nodes|
      invariant out == nodes
      invariant Detach(nodes, mac) == (nodes[..i] + Detach(nodes[i..], mac).0, Detach(nodes[i..], mac).1)
    {
      var n := nodes[i];
      DetachTurn(nodes, mac, i);
      if n.info.mac == mac {
        return nodes[..i] + nodes[i + 1..], Some(n);
      }
      var kids, found := DetachInPlace(n.children, mac);
      if found.Some? {
        return nodes[i := n.(children := kids)], found;
      }
    }
    assert nodes[|nodes|..] == [] && nodes[..|nodes|] + [] == nodes;
    got := None;
  }

  // ---------------------------------------------------------------- attach

  /** Where nodes without an uplink go: the first top-level box, or the top level itself. */
  function BoxParent(tree: seq<Node>): Option<string> {
    if tree == [] then None
    else if tree[0].info.typ == "box" then Some(tree[0].info.mac)
    else BoxParent(tree[1..])
  }

  lemma {:induction false} BoxParentIsFirst(tree: seq<Node>)
    ensures BoxParent(tree).None? <==> forall i :: 0 <= i < |tree| ==> tree[i].info.typ != "box"
    ensures forall i :: 0 <= i < |tree| && tree[i].info.typ == "box"
                        && (forall j :: 0 <= j < i ==> tree[j].info.typ != "box")
                        ==> BoxParent(tree) == Some(tree[i].info.mac)
  {
    if tree != [] && tree[0].info.typ != "box" {
      var rest := tree[1..];
      BoxParentIsFirst(rest);
      assert forall i :: 1 <= i < |tree| ==> tree[i] == rest[i - 1];
      forall i | 0 <= i < |tree| && tree[i].info.typ == "box" && forall j :: 0 <= j < i ==> tree[j].info.typ != "box"
        ensures BoxParent(tree) == Some(tree[i].info.mac) {
        assert rest[i - 1] == tree[i] && forall j :: 0 <= j < i - 1 ==> rest[j] == tree[j + 1];
      }
    }
  }

  function AppendUnderBox(tree: seq<Node>, node: Node): seq<Node> {
    if tree == [] then [node]
    else if tree[0].info.typ == "box" then [tree[0].(children := tree[0].children + [node])] + tree[1..]
    else if BoxParent(tree[1..]).None? then tree + [node]
    else [tree[0]] + AppendUnderBox(tree[1..], node)
  }

  lemma {:induction false} AppendUnderBoxLinks(tree: seq<Node>, node: Node, f: Edge -> bool)
    ensures Links(AppendUnderBox(tree, node), None, f) == Links(tree, None, f) + NodeLinks(node, BoxParent(tree), f)
  {
    if tree == [] {
      LinksCons(node, [], None, f);
      assert [node] + [] == [node];
    } else if tree[0].info.typ == "box" {
      LinksSnoc(tree[0].children, node, Some(tree[0].info.mac), f);
      LinksCons(tree[0].(children := tree[0].children + [node]), tree[1..], None, f);
    } else if BoxParent(tree[1..]).None? {
      LinksSnoc(tree, node, None, f);
    } else {
      AppendUnderBoxLinks(tree[1..], node, f);
      LinksCons(tree[0], AppendUnderBox(tree[1..], node), None, f);
    }
  }

  function InfoOf(sw: Switch): Info {
    Info(sw.mac, sw.name, sw.ip, if sw.kind == "ap" then "ap" else "switch", sw.parentPort, "", sw.clients)
  }

  function Placeholder(mac: string): Info {
    Info(mac, "", "", "switch", "", "", [])
  }

  /** `attachTree`: move or add the node for `sw`, inventing its uplink when the tree lacks it. */
  function Attach(tree: seq<Node>, sw: Switch): seq<Node> {
    var (rest, was) := Detach(tree, sw.mac);
    var node := Node(InfoOf(sw), if was.Some? then was.value.children else []);
    if sw.parentMac == "" then AppendUnderBox(rest, node)
    else
      var (grafted, done) := Graft(rest, sw.parentMac, node);
      if done then grafted
      else Graft(AppendUnderBox(rest, Node(Placeholder(sw.parentMac), [])), sw.parentMac, node).0
  }

  /** The uplink that `Attach` gives `sw`. */
  ghost function UplinkOf(tree: seq<Node>, sw: Switch): Option<string> {
    if sw.parentMac == "" then BoxParent(Detach(tree, sw.mac).0) else Some(sw.parentMac)
  }

  ghost predicate NeedsPlaceholder(tree: seq<Node>, sw: Switch) {
    sw.parentMac != "" && !Has(Detach(tree, sw.mac).0, sw.parentMac)
  }

  /**
    * The exact effect of `attachTree` on any tree: the old link to this MAC goes (its subtree stays with it),
    * the new link comes, and a missing uplink gets one placeholder under the box.
    */
  lemma {:induction false} AttachLinks(tree: seq<Node>, sw: Switch, f: Edge -> bool)
    ensures Links(Attach(tree, sw), None, f)
            + (if Has(tree, sw.mac)
               then One(f, ParentOf(tree, None, sw.mac), Detach(tree, sw.mac).1.value.info) else 0)
            == Links(tree, None, f)
               + One(f, UplinkOf(tree, sw), InfoOf(sw))
               + (if NeedsPlaceholder(tree, sw)
                  then One(f, BoxParent(Detach(tree, sw.mac).0), Placeholder(sw.parentMac)) else 0)
  {
    DetachLinks(tree, sw.mac, None, f);
    var (rest, was) := Detach(tree, sw.mac);
    var node := Node(InfoOf(sw), if was.Some? then was.value.children else []);
    if sw.parentMac == "" {
      AppendUnderBoxLinks(rest, node, f);
    } else {
      GraftLinks(rest, sw.parentMac, node, None, f);
      if !Has(rest, sw.parentMac) {
        var made := AppendUnderBox(rest, Node(Placeholder(sw.parentMac), []));
        AppendUnderBoxLinks(rest, Node(Placeholder(sw.parentMac), []), f);
        PlaceholderIsThere(rest, sw.parentMac);
        GraftLinks(made, sw.parentMac, node, None, f);
      }
    }
  }

  lemma {:induction false} PlaceholderIsThere(tree: seq<Node>, mac: string)
    ensures Has(AppendUnderBox(tree, Node(Placeholder(mac), [])), mac)
  {
    var f := Leads(mac);
    AppendUnderBoxLinks(tree, Node(Placeholder(mac), []), f);
    HasIffCounted(AppendUnderBox(tree, Node(Placeholder(mac), [])), None, mac);
  }

  /** Attaching keeps MACs distinct exactly when the uplink is not the node itself or something below it. */
  lemma {:induction false} AttachKeepsDistinct(tree: seq<Node>, sw: Switch)
    requires Distinct(tree)
    ensures Distinct(Attach(tree, sw)) <==>
            sw.parentMac == "" || (sw.parentMac != sw.mac && !Below(tree, sw.mac, sw.parentMac))
  {
    var p := sw.parentMac;
    forall mac ensures MacCount(Attach(tree, sw), None, mac)
                       == MacCount(tree, None, mac)
                          + (if mac == sw.mac && !Has(tree, mac) then 1 else 0)
                          + (if mac == p && NeedsPlaceholder(tree, sw) then 1 else 0) {
      AttachLinks(tree, sw, Leads(mac));
      DetachLinks(tree, sw.mac, None, Leads(mac));
    }
    HasIffCounted(tree, None, sw.mac);
    HasIffCounted(tree, None, p);
    if p != "" && p != sw.mac {
      BelowIffLost(tree, sw.mac, p);
      assert MacCount(Attach(tree, sw), None, p) <= 1 <==> !(NeedsPlaceholder(tree, sw) && Has(tree, p));
      assert Distinct(Attach(tree, sw)) ==> MacCount(Attach(tree, sw), None, p) <= 1;
    } else if p != "" {
      DetachLinks(tree, p, None, Leads(p));
      HasIffCounted(Detach(tree, p).0, None, p);
      assert MacCount(Attach(tree, sw), None, p) == 2;
    }
  }

  /** `mac` occurs in the subtree hanging from the first node with MAC `top`. */
  ghost predicate Below(tree: seq<Node>, top: string, mac: string) {
    var got := Detach(tree, top).1;
    got.Some? && Has(got.value.children, mac)
  }

  lemma {:induction false} BelowIffLost(tree: seq<Node>, top: string, mac: string)
    requires Distinct(tree) && mac != top
    ensures Below(tree, top, mac) <==> Has(tree, mac) && !Has(Detach(tree, top).0, mac)
  {
    DetachLinks(tree, top, None, Leads(mac));
    var (rest, got) := Detach(tree, top);
    HasIffCounted(tree, None, mac);
    HasIffCounted(rest, None, mac);
    if got.Some? {
      HasIffCounted(got.value.children, Some(top), mac);
    }
  }
}
