/** Depths in a topology tree: where MACs are distinct, a parent link goes exactly one level down. */
module TreeDepth {
  import opened Text
  import opened Topology

  /** Some node d levels down carries the MAC. */
  ghost predicate At(nodes: seq<Node>, mac: string, d: nat) {
    nodes != [] &&
    (|| (d == 0 && nodes[0].info.mac == mac)
     || (d > 0 && At(nodes[0].children, mac, d - 1))
     || At(nodes[1..], mac, d))
  }

  ghost function Under(p: string, x: string): Edge -> bool {
    (e: Edge) => e.parent == Some(p) && e.child.mac == x
  }

  lemma {:induction false} AtCounts(nodes: seq<Node>, parent: Option<string>, mac: string, d: nat)
    requires At(nodes, mac, d)
    ensures MacCount(nodes, parent, mac) > 0
  {
    AtMeansHas(nodes, mac, d);
    HasIffCounted(nodes, parent, mac);
  }

  lemma {:induction false} AtMeansHas(nodes: seq<Node>, mac: string, d: nat)
    requires At(nodes, mac, d)
    ensures Has(nodes, mac)
  {
    if d > 0 && At(nodes[0].children, mac, d - 1) {
      AtMeansHas(nodes[0].children, mac, d - 1);
    } else if At(nodes[1..], mac, d) {
      AtMeansHas(nodes[1..], mac, d);
    }
  }

  /** A MAC that occurs once occurs at one depth. */
  lemma {:induction false} OneDepth(nodes: seq<Node>, parent: Option<string>, mac: string, d: nat, e: nat)
    requires At(nodes, mac, d) && At(nodes, mac, e) && MacCount(nodes, parent, mac) <= 1
    ensures d == e
  {
    var n := nodes[0];
    var inside, beside := MacCount(n.children, Some(n.info.mac), mac), MacCount(nodes[1..], parent, mac);
    assert NodeLinks(n, parent, Leads(mac)) == One(Leads(mac), parent, n.info) + inside;
    assert MacCount(nodes, parent, mac) == One(Leads(mac), parent, n.info) + inside + beside;
    forall x: nat | At(n.children, mac, x) ensures inside > 0 {
      AtCounts(n.children, Some(n.info.mac), mac, x);
    }
    forall x: nat | At(nodes[1..], mac, x) ensures beside > 0 {
      AtCounts(nodes[1..], parent, mac, x);
    }
    if n.info.mac != mac && inside > 0 {
      OneDepth(n.children, Some(n.info.mac), mac, d - 1, e - 1);
    } else if n.info.mac != mac {
      OneDepth(nodes[1..], parent, mac, d, e);
    }
  }

  /** A link from p to x goes one level down, or comes in from above. */
  lemma {:induction false} LinkGoesDown(nodes: seq<Node>, parent: Option<string>, p: string, x: string) returns (d: nat)
    requires Links(nodes, parent, Under(p, x)) > 0
    ensures (parent == Some(p) && At(nodes, x, 0)) || (At(nodes, p, d) && At(nodes, x, d + 1))
  {
    var n := nodes[0];
    if Under(p, x)(Edge(parent, n.info)) {
      d := 0;
    } else if Links(n.children, Some(n.info.mac), Under(p, x)) > 0 {
      var k := LinkGoesDown(n.children, Some(n.info.mac), p, x);
      if n.info.mac == p && At(n.children, x, 0) {
        d := 0;
      } else {
        d := k + 1;
      }
    } else {
      d := LinkGoesDown(nodes[1..], parent, p, x);
    }
  }
}
