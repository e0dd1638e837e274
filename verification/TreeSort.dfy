/** `sortTree` of server/internal/unifi/merge.go: box first, then by port, name and MAC, at every level. */
module TreeSort {
  import opened Text
  import opened Topology
  import Sorting

  predicate AllDigits(s: string) {
    forall i :: 0 <= i < |s| ==> IsDigit(s[i])
  }

  function DigitsValue(s: string): nat
    requires AllDigits(s)
  {
    if s == "" then 0 else DigitsValue(s[..|s| - 1]) * 10 + (s[|s| - 1] as int - '0' as int)
  }

  /** `strconv.Atoi`: an optional sign, digits, and the 64-bit range. */
  function Atoi(s: string): Option<int> {
    var signed := s != "" && (s[0] == '+' || s[0] == '-');
    var digits := if signed then s[1..] else s;
    if digits == "" || !AllDigits(digits) then None
    else
      var size: int := DigitsValue(digits);
      var n := if signed && s[0] == '-' then -size else size;
      if -0x8000_0000_0000_0000 <= n <= 0x7fff_ffff_ffff_ffff then Some(n) else None
  }

  /** Numeric ports first, then named ports, then unknown ones. */
  datatype PortRank = PortRank(rank: int, num: int, rest: string)

  function RankOf(port: string): PortRank {
    var s := Trim(port);
    if s == "" then PortRank(2, 0, "")
    else
      match Atoi(s)
      case Some(n) => PortRank(0, n, "")
      case None => PortRank(1, 0, ToLower(s))
  }

  predicate NodeLess(a: Node, b: Node) {
    var aBox, bBox := a.info.typ == "box", b.info.typ == "box";
    if aBox && !bBox then true
    else if bBox && !aBox then false
    else
      var x, y := RankOf(a.info.parentPort), RankOf(b.info.parentPort);
      if x.rank != y.rank then x.rank < y.rank
      else if x.num != y.num then x.num < y.num
      else if x.rest != y.rest then Less(x.rest, y.rest)
      else
        var m, n := ToLower(a.info.name), ToLower(b.info.name);
        if m != n then Less(m, n) else Less(a.info.mac, b.info.mac)
  }

  /** What the number of a port is: an optional sign and decimal digits, most significant first. */
  lemma {:induction false} AtoiReads(digits: string, d: char)
    requires AllDigits(digits) && IsDigit(d)
    ensures DigitsValue(digits + [d]) == 10 * DigitsValue(digits) + (d as int - '0' as int)
    ensures Atoi("") == None && Atoi("x") == None && Atoi("-") == None
    ensures Atoi([d]) == Some(d as int - '0' as int) && Atoi("+" + [d]) == Atoi([d])
    ensures Atoi("-" + [d]) == Some('0' as int - d as int)
  {
    assert (digits + [d])[..|digits|] == digits;
    assert DigitsValue([d]) == DigitsValue([d][..0]) * 10 + (d as int - '0' as int);
    assert ("+" + [d])[1..] == [d] && ("-" + [d])[1..] == [d];
    assert !IsDigit("x"[0]) && "-"[1..] == "";
  }

  lemma {:induction false} BoxComesFirst(a: Node, b: Node)
    requires a.info.typ == "box" && b.info.typ != "box"
    ensures NodeLess(a, b) && !NodeLess(b, a)
  {
  }

  /** How else siblings are ordered: numbered ports by number, then named ones by name, then blank ones. */
  lemma {:induction false} SiblingsByPort(a: Node, b: Node)
    requires a.info.typ == "box" <==> b.info.typ == "box"
    ensures var p, q := Trim(a.info.parentPort), Trim(b.info.parentPort);
            && (p != "" && q == "" ==> NodeLess(a, b) && !NodeLess(b, a))
            && (Atoi(p).Some? && q != "" && Atoi(q).None? ==> NodeLess(a, b) && !NodeLess(b, a))
            && (Atoi(p).Some? && Atoi(q).Some? && Atoi(p) != Atoi(q) ==>
                  (NodeLess(a, b) <==> Atoi(p).value < Atoi(q).value))
            && (p != "" && q != "" && Atoi(p).None? && Atoi(q).None? && ToLower(p) != ToLower(q) ==>
                  (NodeLess(a, b) <==> Less(ToLower(p), ToLower(q))))
  {
    assert Atoi("").None?;
  }

  /** And on the same port: by name, then by MAC. */
  lemma {:induction false} SiblingsByName(a: Node, b: Node)
    requires a.info.typ == "box" <==> b.info.typ == "box"
    requires Trim(a.info.parentPort) == Trim(b.info.parentPort)
    ensures var m, n := ToLower(a.info.name), ToLower(b.info.name);
            NodeLess(a, b) <==> if m != n then Less(m, n) else Less(a.info.mac, b.info.mac)
  {
  }

  lemma {:induction false} NodeOrder()
    ensures Sorting.StrictWeakOrder(NodeLess)
  {
    forall a: Node, b: Node ensures NodeLess(a, b) ==> !NodeLess(b, a) {
      NodeLessAsymmetric(a, b);
    }
    forall a: Node, b: Node, c: Node | !NodeLess(b, a) && !NodeLess(c, b) ensures !NodeLess(c, a) {
      NodeLessNotAfter(a, b, c);
    }
  }

  lemma {:induction false} NodeLessAsymmetric(a: Node, b: Node)
    ensures NodeLess(a, b) ==> !NodeLess(b, a)
  {
    LessTotal(RankOf(a.info.parentPort).rest, RankOf(b.info.parentPort).rest);
    LessTotal(ToLower(a.info.name), ToLower(b.info.name));
    LessTotal(a.info.mac, b.info.mac);
  }

  lemma {:induction false} NotAfter(a: string, b: string, c: string)
    ensures !Less(b, a) && !Less(c, b) ==> !Less(c, a)
    ensures a != b ==> (Less(a, b) <==> !Less(b, a))
    ensures b != c ==> (Less(b, c) <==> !Less(c, b))
    ensures a != c ==> (Less(a, c) <==> !Less(c, a))
    ensures !Less(a, a) && !Less(b, b) && !Less(c, c)
  {
    if !Less(b, a) && !Less(c, b) {
      NotAfterTransitive(a, b, c);
    }
    LessTotal(a, b);
    LessTotal(b, c);
    LessTotal(a, c);
    LessTotal(a, a);
    LessTotal(b, b);
    LessTotal(c, c);
  }

  lemma {:induction false} NodeLessNotAfter(a: Node, b: Node, c: Node)
    requires !NodeLess(b, a) && !NodeLess(c, b)
    ensures !NodeLess(c, a)
  {
    NotAfter(RankOf(a.info.parentPort).rest, RankOf(b.info.parentPort).rest, RankOf(c.info.parentPort).rest);
    NotAfter(ToLower(a.info.name), ToLower(b.info.name), ToLower(c.info.name));
    NotAfter(a.info.mac, b.info.mac, c.info.mac);
  }

  lemma {:induction false} SortStaysInside(nodes: seq<Node>)
    ensures forall x :: x in Sorting.Sort(nodes, NodeLess) ==> x in nodes
  {
    var sorted := Sorting.Sort(nodes, NodeLess);
    Sorting.SortPermutes(nodes, NodeLess);
    forall x | x in sorted ensures x in nodes {
      Sorting.SameMembers(sorted, nodes, x);
    }
  }

  lemma {:induction false} SiblingSortSorts(nodes: seq<Node>)
    ensures Sorting.SortedBy(Sorting.Sort(nodes, NodeLess), NodeLess)
  {
    NodeOrder();
    Sorting.SortSorted(nodes, NodeLess);
  }

  lemma {:induction false} OrderSeesInfoOnly(a: Node, b: Node, x: Node, y: Node)
    requires a.info == x.info && b.info == y.info
    ensures NodeLess(a, b) <==> NodeLess(x, y)
  {
  }

  /** Siblings first, then each child list. */
  function SortTree(nodes: seq<Node>): seq<Node>
    decreases nodes, 1, 0
  {
    var sorted := Sorting.Sort(nodes, NodeLess);
    SortStaysInside(nodes);
    SortChildren(sorted, nodes)
  }

  function SortChildren(sorted: seq<Node>, level: seq<Node>): (r: seq<Node>)
    requires forall x :: x in sorted ==> x in level
    ensures |r| == |sorted|
    ensures forall i :: 0 <= i < |r| ==> r[i].info == sorted[i].info
    decreases level, 0, |sorted|
  {
    if sorted == [] then []
    else
      assert sorted[0] in level;
      [Node(sorted[0].info, SortTree(sorted[0].children))] + SortChildren(sorted[1..], level)
  }

  /** Sorted at every level. */
  ghost predicate SiblingsSorted(nodes: seq<Node>) {
    && Sorting.SortedBy(nodes, NodeLess)
    && forall i :: 0 <= i < |nodes| ==> SiblingsSorted(nodes[i].children)
  }

  lemma {:induction false} InsertLinks(x: Node, xs: seq<Node>, parent: Option<string>, f: Edge -> bool)
    ensures Links(Sorting.Insert(x, xs, NodeLess), parent, f) == NodeLinks(x, parent, f) + Links(xs, parent, f)
  {
    if xs != [] && NodeLess(xs[0], x) {
      InsertLinks(x, xs[1..], parent, f);
      LinksCons(xs[0], Sorting.Insert(x, xs[1..], NodeLess), parent, f);
    } else {
      LinksCons(x, xs, parent, f);
      assert xs == [] ==> [x] == [x] + xs;
    }
  }

  lemma {:induction false} SiblingSortLinks(xs: seq<Node>, parent: Option<string>, f: Edge -> bool)
    ensures Links(Sorting.Sort(xs, NodeLess), parent, f) == Links(xs, parent, f)
  {
    if xs != [] {
      SiblingSortLinks(xs[1..], parent, f);
      InsertLinks(xs[0], Sorting.Sort(xs[1..], NodeLess), parent, f);
    }
  }

  /** Sorting moves no node to another parent and changes no node. */
  lemma {:induction false} SortTreeLinks(nodes: seq<Node>, parent: Option<string>, f: Edge -> bool)
    ensures Links(SortTree(nodes), parent, f) == Links(nodes, parent, f)
    decreases nodes, 1, 0
  {
    var sorted := Sorting.Sort(nodes, NodeLess);
    SiblingSortLinks(nodes, parent, f);
    SortStaysInside(nodes);
    SortChildrenLinks(sorted, nodes, parent, f);
  }

  lemma {:induction false} SortChildrenLinks(
    sorted: seq<Node>, level: seq<Node>, parent: Option<string>, f: Edge -> bool)
    requires forall x :: x in sorted ==> x in level
    ensures Links(SortChildren(sorted, level), parent, f) == Links(sorted, parent, f)
    decreases level, 0, |sorted|
  {
    if sorted != [] {
      assert sorted[0] in level;
      SortTreeLinks(sorted[0].children, Some(sorted[0].info.mac), f);
      SortChildrenLinks(sorted[1..], level, parent, f);
      LinksCons(Node(sorted[0].info, SortTree(sorted[0].children)), SortChildren(sorted[1..], level), parent, f);
    }
  }

  lemma {:induction false} SortTreeSorts(nodes: seq<Node>)
    ensures SiblingsSorted(SortTree(nodes))
    decreases nodes, 1, 0
  {
    var sorted := Sorting.Sort(nodes, NodeLess);
    SiblingSortSorts(nodes);
    SortStaysInside(nodes);
    SortChildrenSorts(sorted, nodes);
    var r := SortChildren(sorted, nodes);
    forall i, j | 0 <= i < j < |r| ensures !NodeLess(r[j], r[i]) {
      OrderSeesInfoOnly(r[j], r[i], sorted[j], sorted[i]);
    }
  }

  lemma {:induction false} SortChildrenSorts(sorted: seq<Node>, level: seq<Node>)
    requires forall x :: x in sorted ==> x in level
    ensures forall i :: 0 <= i < |sorted| ==> SiblingsSorted(SortChildren(sorted, level)[i].children)
    decreases level, 0, |sorted|
  {
    if sorted != [] {
      assert sorted[0] in level;
      SortTreeSorts(sorted[0].children);
      SortChildrenSorts(sorted[1..], level);
    }
  }

  lemma {:induction false} SortChildrenAt(sorted: seq<Node>, level: seq<Node>)
    requires forall x :: x in sorted ==> x in level
    ensures |SortChildren(sorted, level)| == |sorted|
    ensures forall i :: 0 <= i < |sorted| ==>
              SortChildren(sorted, level)[i] == SortedNode(sorted[i])
  {
    if sorted != [] {
      SortChildrenAt(sorted[1..], level);
    }
  }

  function SortedNode(node: Node): Node {
    Node(node.info, SortTree(node.children))
  }

  /** `sortTree` as the source runs it: the siblings, then what is below each of them. */
  method SortInPlace(nodes: seq<Node>) returns (out: seq<Node>)
    ensures out == SortTree(nodes)
    decreases nodes, 2
  {
    var sorted := Sorting.Sort(nodes, NodeLess);
    SortStaysInside(nodes);
    out := SortBelow(sorted, nodes);
  }

  method SortBelow(sorted: seq<Node>, ghost level: seq<Node>) returns (out: seq<Node>)
    requires forall x :: x in sorted ==> x in level
    ensures out == SortChildren(sorted, level)
    decreases level, 1
  {
    out := [];
    for i := 0 to |sorted|
      invariant |out| == i
      invariant forall j :: 0 <= j < i ==> out[j] == SortedNode(sorted[j])
    {
      var node := SortNode(sorted[i], level);
      out := out + [node];
    }
    SortChildrenAt(sorted, level);
  }

  method SortNode(node: Node, ghost level: seq<Node>) returns (r: Node)
    requires node in level
    ensures r == SortedNode(node)
    decreases level, 0
  {
    var kids := SortInPlace(node.children);
    r := Node(node.info, kids);
  }
}
