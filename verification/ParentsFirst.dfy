/** `parentsFirst` of server/internal/unifi/merge.go: an order in which every node follows its uplink. */
module ParentsFirst {
  import opened Text
  import opened Inventory
  import Sorting

  /** A `pending` map: switches keyed by their own MAC. */
  ghost predicate Keyed(p: map<string, Switch>) {
    forall k :: k in p ==> p[k].mac == k
  }

  /** Later records win, as they do when the source fills its map. */
  function PendingOf(sws: seq<Switch>): (p: map<string, Switch>)
    ensures forall k :: k in p ==> p[k].mac == k
    ensures forall k :: k in p <==> HasMac(sws, k)
  {
    if sws == [] then map[]
    else
      var s := sws[|sws| - 1];
      HasMacSnoc(sws[..|sws| - 1], s);
      assert sws[..|sws| - 1] + [s] == sws;
      PendingOf(sws[..|sws| - 1])[s.mac := s]
  }

  lemma {:induction false} HasMacSnoc(sws: seq<Switch>, s: Switch)
    ensures forall k :: HasMac(sws + [s], k) <==> HasMac(sws, k) || k == s.mac
  {
    var all := sws + [s];
    assert all[|sws|] == s;
    forall k | HasMac(sws, k) ensures HasMac(all, k) {
      var i :| 0 <= i < |sws| && sws[i].mac == k;
      assert all[i].mac == k;
    }
  }

  lemma {:induction false} PendingKeeps(added: seq<Switch>, i: nat)
    requires i < |added| && DistinctMacs(added)
    ensures added[i].mac in PendingOf(added) && PendingOf(added)[added[i].mac] == added[i]
  {
    var n := |added| - 1;
    if i < n {
      PendingKeeps(added[..n], i);
    }
  }

  /** The record kept for a MAC is the last one that has it. */
  lemma {:induction false} PendingIsLast(sws: seq<Switch>, i: nat)
    requires i < |sws| && forall j :: i < j < |sws| ==> sws[j].mac != sws[i].mac
    ensures sws[i].mac in PendingOf(sws) && PendingOf(sws)[sws[i].mac] == sws[i]
  {
    var rest, s := sws[..|sws| - 1], sws[|sws| - 1];
    if i < |sws| - 1 {
      assert s.mac != sws[i].mac;
      assert rest[i] == sws[i] && forall j :: i < j < |rest| ==> rest[j] == sws[j];
      PendingIsLast(rest, i);
    }
  }

  predicate Waits(p: map<string, Switch>, s: Switch) {
    s.parentMac != "" && s.parentMac in p
  }

  function ReadyKeys(p: map<string, Switch>): set<string> {
    set k | k in p && !Waits(p, p[k])
  }

  predicate MacLess(a: Switch, b: Switch) {
    Less(a.mac, b.mac)
  }

  lemma {:induction false} MacOrder()
    ensures Sorting.StrictWeakOrder(MacLess)
  {
    forall a: Switch, b: Switch ensures MacLess(a, b) ==> !MacLess(b, a) {
      LessTotal(a.mac, b.mac);
    }
    forall a: Switch, b: Switch, c: Switch | !MacLess(b, a) && !MacLess(c, b) ensures !MacLess(c, a) {
      NotAfterTransitive(a.mac, b.mac, c.mac);
    }
  }

  ghost predicate HasMac(xs: seq<Switch>, k: string) {
    exists i :: 0 <= i < |xs| && xs[i].mac == k
  }

  /** `xs` holds exactly the pending switches with the given keys, once each. */
  ghost predicate Covers(p: map<string, Switch>, keys: set<string>, xs: seq<Switch>) {
    && keys <= p.Keys
    && DistinctMacs(xs)
    && (forall i :: 0 <= i < |xs| ==> xs[i].mac in keys && xs[i] == p[xs[i].mac])
    && (forall k :: k in keys ==> HasMac(xs, k))
  }

  /** The same, by ascending MAC. */
  ghost predicate Lists(p: map<string, Switch>, keys: set<string>, xs: seq<Switch>) {
    Covers(p, keys, xs) && Sorting.SortedBy(xs, MacLess)
  }

  lemma {:induction false} FirstIsLeast(xs: seq<Switch>, i: nat)
    requires i < |xs| && Sorting.SortedBy(xs, MacLess)
    ensures !Less(xs[i].mac, xs[0].mac)
  {
    LessTotal(xs[0].mac, xs[0].mac);
    assert i == 0 || !MacLess(xs[i], xs[0]);
  }

  lemma {:induction false} ListsHead(p: map<string, Switch>, keys: set<string>, xs: seq<Switch>, ys: seq<Switch>)
    requires Lists(p, keys, xs) && Lists(p, keys, ys) && xs != []
    ensures ys != [] && xs[0] == ys[0]
  {
    assert xs[0].mac in keys && HasMac(ys, xs[0].mac);
    var j :| 0 <= j < |ys| && ys[j].mac == xs[0].mac;
    assert ys[0].mac in keys && HasMac(xs, ys[0].mac);
    var i :| 0 <= i < |xs| && xs[i].mac == ys[0].mac;
    FirstIsLeast(xs, i);
    FirstIsLeast(ys, j);
    LessTotal(xs[0].mac, ys[0].mac);
  }

  lemma {:induction false} ListsTail(p: map<string, Switch>, keys: set<string>, xs: seq<Switch>)
    requires Lists(p, keys, xs) && xs != []
    ensures Lists(p, keys - {xs[0].mac}, xs[1..])
  {
    CoversTail(p, keys, xs);
  }

  /** There is only one such list, whatever order the map was walked in. */
  lemma {:induction false} ListsUnique(p: map<string, Switch>, keys: set<string>, xs: seq<Switch>, ys: seq<Switch>)
    requires Lists(p, keys, xs) && Lists(p, keys, ys)
    ensures xs == ys
    decreases |xs|
  {
    if xs != [] {
      ListsHead(p, keys, xs, ys);
      ListsTail(p, keys, xs);
      ListsTail(p, keys, ys);
      ListsUnique(p, keys - {xs[0].mac}, xs[1..], ys[1..]);
      assert xs == [xs[0]] + xs[1..] && ys == [ys[0]] + ys[1..];
    } else if ys != [] {
      ListsHead(p, keys, ys, xs);
    }
  }

  lemma {:induction false} CoversTail(p: map<string, Switch>, keys: set<string>, xs: seq<Switch>)
    requires Covers(p, keys, xs) && xs != []
    ensures Covers(p, keys - {xs[0].mac}, xs[1..])
  {
    var ys := xs[1..];
    forall k | k in keys - {xs[0].mac} ensures HasMac(ys, k) {
      var i :| 0 <= i < |xs| && xs[i].mac == k;
      assert ys[i - 1].mac == k;
    }
  }

  lemma {:induction false} CoversLength(p: map<string, Switch>, keys: set<string>, xs: seq<Switch>)
    requires Covers(p, keys, xs)
    ensures |xs| == |keys|
    decreases |xs|
  {
    if xs != [] {
      CoversTail(p, keys, xs);
      CoversLength(p, keys - {xs[0].mac}, xs[1..]);
      assert xs[0].mac in keys;
    } else {
      assert forall k :: k in keys ==> HasMac(xs, k);
      assert keys == {};
    }
  }

  lemma {:induction false} HasMacConcat(xs: seq<Switch>, ys: seq<Switch>, k: string)
    requires HasMac(xs, k) || HasMac(ys, k)
    ensures HasMac(xs + ys, k)
  {
    if HasMac(xs, k) {
      var i :| 0 <= i < |xs| && xs[i].mac == k;
      assert (xs + ys)[i].mac == k;
    } else {
      var i :| 0 <= i < |ys| && ys[i].mac == k;
      assert (xs + ys)[|xs| + i].mac == k;
    }
  }

  /** Covering the ready switches and then the rest covers everything. */
  lemma {:induction false} CoversConcat(p: map<string, Switch>, ready: set<string>, xs: seq<Switch>, ys: seq<Switch>)
    requires Covers(p, ready, xs) && Covers(p - ready, (p - ready).Keys, ys)
    ensures Covers(p, p.Keys, xs + ys)
  {
    var rest := p - ready;
    assert rest.Keys == p.Keys - ready;
    forall k | k in p.Keys ensures HasMac(xs + ys, k) {
      assert k in ready || k in rest;
      HasMacConcat(xs, ys, k);
    }
  }

  // ---------------------------------------------------------------- the rounds

  /** An order is right when it is a run of rounds, each emitting every switch whose uplink is no longer pending. */
  ghost predicate Rounds(p: map<string, Switch>, out: seq<Switch>)
    decreases |p|
  {
    var ready := ReadyKeys(p);
    if p == map[] then out == []
    else if ready == {} then Lists(p, p.Keys, out)
    else
      |ready| <= |out| && Lists(p, ready, out[..|ready|]) &&
      (RemoveShrinks(p, ready); Rounds(p - ready, out[|ready|..]))
  }

  lemma {:induction false} RemoveShrinks(p: map<string, Switch>, ks: set<string>)
    requires ks != {} && ks <= p.Keys
    ensures |p - ks| < |p|
  {
    var k :| k in ks;
    assert (p - ks).Keys == p.Keys - ks;
    assert (p - ks).Keys <= p.Keys - {k};
    CardinalityMonotone((p - ks).Keys, p.Keys - {k});
  }

  lemma {:induction false} CardinalityMonotone(a: set<string>, b: set<string>)
    requires a <= b
    ensures |a| <= |b|
  {
    assert b == a + (b - a);
  }

  lemma {:induction false} RoundsUnfold(p: map<string, Switch>, out: seq<Switch>) returns (head: seq<Switch>, tail: seq<Switch>)
    requires Rounds(p, out) && ReadyKeys(p) != {}
    ensures out == head + tail && |head| == |ReadyKeys(p)|
    ensures Lists(p, ReadyKeys(p), head) && Rounds(p - ReadyKeys(p), tail) && |p - ReadyKeys(p)| < |p|
  {
    RemoveShrinks(p, ReadyKeys(p));
    head, tail := out[..|ReadyKeys(p)|], out[|ReadyKeys(p)|..];
  }

  /** The rounds leave no freedom: every iteration order of the map gives the same list. */
  lemma {:induction false} RoundsUnique(p: map<string, Switch>, xs: seq<Switch>, ys: seq<Switch>)
    requires Rounds(p, xs) && Rounds(p, ys)
    ensures xs == ys
    decreases |p|
  {
    var ready := ReadyKeys(p);
    if p != map[] {
      if ready == {} {
        ListsUnique(p, p.Keys, xs, ys);
      } else {
        var xHead, xTail := RoundsUnfold(p, xs);
        var yHead, yTail := RoundsUnfold(p, ys);
        ListsUnique(p, ready, xHead, yHead);
        RoundsUnique(p - ready, xTail, yTail);
      }
    }
  }

  // ---------------------------------------------------------------- every MAC exactly once

  lemma {:induction false} RoundsListEveryMac(p: map<string, Switch>, out: seq<Switch>)
    requires Rounds(p, out)
    ensures Covers(p, p.Keys, out)
    decreases |p|
  {
    var ready := ReadyKeys(p);
    if p != map[] && ready != {} {
      var head, tail := RoundsUnfold(p, out);
      RoundsListEveryMac(p - ready, tail);
      CoversConcat(p, ready, head, tail);
    }
  }

  // ---------------------------------------------------------------- uplink chains

  /** The n-th pending ancestor of `k`, if the uplink chain gets that far without leaving the pending set. */
  ghost function Up(p: map<string, Switch>, k: string, n: nat): Option<string>
    decreases n
  {
    if k !in p then None
    else if n == 0 then Some(k)
    else if p[k].parentMac == "" then None
    else Up(p, p[k].parentMac, n - 1)
  }

  /** The uplink chain ends. */
  ghost predicate Grounded(p: map<string, Switch>, k: string) {
    exists n: nat :: Up(p, k, n) == None
  }

  ghost predicate Acyclic(p: map<string, Switch>) {
    forall k :: k in p ==> Grounded(p, k)
  }

  /** The uplink chain meets some MAC twice. */
  ghost predicate ReachesCycle(p: map<string, Switch>, k: string) {
    exists i: nat, j: nat :: i < j && Up(p, k, i).Some? && Up(p, k, i) == Up(p, k, j)
  }

  lemma {:induction false} UpStaysInside(p: map<string, Switch>, k: string, n: nat)
    ensures Up(p, k, n).Some? ==> Up(p, k, n).value in p
    decreases n
  {
    if k in p && n > 0 && Waits(p, p[k]) {
      UpStaysInside(p, p[k].parentMac, n - 1);
    }
  }

  lemma {:induction false} UpCompose(p: map<string, Switch>, k: string, m: nat, n: nat)
    ensures Up(p, k, m + n) == if Up(p, k, m).None? then None else Up(p, Up(p, k, m).value, n)
    decreases m
  {
    if k in p && m > 0 && Waits(p, p[k]) {
      UpCompose(p, p[k].parentMac, m - 1, n);
    }
  }

  lemma {:induction false} GroundedParent(p: map<string, Switch>, k: string)
    requires k in p && Waits(p, p[k])
    ensures Grounded(p, k) <==> Grounded(p, p[k].parentMac)
  {
    var q := p[k].parentMac;
    if Grounded(p, k) {
      var n: nat :| Up(p, k, n) == None;
      assert n > 0 && Up(p, q, n - 1) == None;
    }
    if Grounded(p, q) {
      var n: nat :| Up(p, q, n) == None;
      assert Up(p, k, n + 1) == None;
    }
  }

  /** Taking out the ready switches shortens chains but never mends a cycle. */
  lemma {:induction false} UpAfterRemoval(p: map<string, Switch>, k: string, n: nat)
    requires k in p - ReadyKeys(p)
    ensures Up(p, k, n).None? ==> Up(p - ReadyKeys(p), k, n).None?
    ensures Up(p - ReadyKeys(p), k, n).None? ==> Up(p, k, n + 1).None?
    decreases n
  {
    var rest := p - ReadyKeys(p);
    if n > 0 {
      var q := p[k].parentMac;
      if q in rest {
        UpAfterRemoval(p, q, n - 1);
      } else {
        assert q in ReadyKeys(p);
        assert Up(p, k, n + 1) == Up(p, q, n);
      }
    }
  }

  lemma {:induction false} GroundedAfterRemoval(p: map<string, Switch>, k: string)
    requires k in p - ReadyKeys(p)
    ensures Grounded(p, k) <==> Grounded(p - ReadyKeys(p), k)
  {
    var rest := p - ReadyKeys(p);
    if Grounded(p, k) {
      var n: nat :| Up(p, k, n) == None;
      UpAfterRemoval(p, k, n);
    }
    if Grounded(rest, k) {
      var n: nat :| Up(rest, k, n) == None;
      UpAfterRemoval(p, k, n);
    }
  }

  lemma {:induction false} ReadyIsGrounded(p: map<string, Switch>, k: string)
    requires k in ReadyKeys(p)
    ensures Grounded(p, k)
  {
    assert Up(p, k, 1) == None;
  }

  /** When nothing is ready, every chain stays pending for ever. */
  lemma {:induction false} StuckNeverEnds(p: map<string, Switch>, k: string, n: nat)
    requires ReadyKeys(p) == {} && k in p
    ensures Up(p, k, n).Some?
    decreases n
  {
    assert Waits(p, p[k]) by {
      assert k !in ReadyKeys(p);
    }
    if n > 0 {
      StuckNeverEnds(p, p[k].parentMac, n - 1);
    }
  }

  /** How many switches leave in proper rounds, before the trailing block. */
  ghost function SettledCount(p: map<string, Switch>): nat
    decreases |p|
  {
    var ready := ReadyKeys(p);
    if ready == {} then 0 else
      RemoveShrinks(p, ready);
      |ready| + SettledCount(p - ready)
  }

  /** Exactly the first `c` switches have an uplink chain that ends. */
  ghost predicate SplitAt(p: map<string, Switch>, out: seq<Switch>, c: nat) {
    c <= |out| && forall i :: 0 <= i < |out| ==> (i < c <==> Grounded(p, out[i].mac))
  }

  /** Each of the first `c` switches comes after its uplink, if that is in the set. */
  ghost predicate AfterParents(p: map<string, Switch>, out: seq<Switch>, c: nat)
    requires c <= |out|
  {
    forall i :: 0 <= i < c && Waits(p, out[i]) ==> HasMac(out[..i], out[i].parentMac)
  }

  lemma {:induction false} RoundsSplit(p: map<string, Switch>, out: seq<Switch>)
    requires Rounds(p, out)
    ensures SplitAt(p, out, SettledCount(p))
    decreases |p|
  {
    if p == map[] {
    } else if ReadyKeys(p) == {} {
      StuckBlock(p, out);
    } else {
      var head, tail := RoundsUnfold(p, out);
      RoundsSplit(p - ReadyKeys(p), tail);
      RoundsListEveryMac(p - ReadyKeys(p), tail);
      SplitStep(p, head, tail, SettledCount(p - ReadyKeys(p)));
    }
  }

  lemma {:induction false} RoundsAfterParents(p: map<string, Switch>, out: seq<Switch>)
    requires Rounds(p, out)
    ensures SettledCount(p) <= |out| && AfterParents(p, out, SettledCount(p))
    decreases |p|
  {
    if p != map[] && ReadyKeys(p) != {} {
      var head, tail := RoundsUnfold(p, out);
      RoundsAfterParents(p - ReadyKeys(p), tail);
      AfterParentsStep(p, head, tail, SettledCount(p - ReadyKeys(p)));
    }
  }

  /** The switch has exactly n pending ancestors. */
  ghost predicate HasLevel(p: map<string, Switch>, k: string, n: nat) {
    Up(p, k, n).Some? && Up(p, k, n + 1).None?
  }

  ghost predicate Precedes(p: map<string, Switch>, x: string, y: string) {
    forall a: nat, b: nat :: HasLevel(p, x, a) && HasLevel(p, y, b) ==> a < b || (a == b && Less(x, y))
  }

  /** The first c switches are ordered by the number of their pending ancestors, and by MAC among equals. */
  ghost predicate ByLevel(p: map<string, Switch>, out: seq<Switch>, c: nat)
    requires c <= |out|
  {
    forall i, j :: 0 <= i < j < c ==> Precedes(p, out[i].mac, out[j].mac)
  }

  lemma {:induction false} ReadyIsLevelZero(p: map<string, Switch>, k: string, n: nat)
    requires k in ReadyKeys(p) && HasLevel(p, k, n)
    ensures n == 0
  {
    NothingAboveReady(p, k, n);
  }

  lemma {:induction false} NothingAboveReady(p: map<string, Switch>, k: string, n: nat)
    requires k in ReadyKeys(p)
    ensures n > 0 ==> Up(p, k, n).None?
  {
    if n > 0 {
      assert Up(p, k, n) == if p[k].parentMac == "" then None else Up(p, p[k].parentMac, n - 1);
    }
  }

  lemma {:induction false} LevelDrops(p: map<string, Switch>, k: string, n: nat)
    requires k in p - ReadyKeys(p) && HasLevel(p, k, n)
    ensures n > 0 && HasLevel(p - ReadyKeys(p), k, n - 1)
    decreases n
  {
    var rest, q := p - ReadyKeys(p), p[k].parentMac;
    assert Up(p, k, 1) == Up(p, q, 0) == Some(q);
    if n > 0 {
      assert Up(p, k, n) == Up(p, q, n - 1) && Up(p, k, n + 1) == Up(p, q, n);
      if q in rest {
        LevelDrops(p, q, n - 1);
        assert Up(rest, k, n - 1) == Up(rest, q, n - 2) && Up(rest, k, n) == Up(rest, q, n - 1);
      } else {
        ReadyIsLevelZero(p, q, n - 1);
      }
    }
  }

  lemma {:induction false} RoundsByLevel(p: map<string, Switch>, out: seq<Switch>)
    requires Rounds(p, out)
    ensures SettledCount(p) <= |out| && ByLevel(p, out, SettledCount(p))
    decreases |p|
  {
    RoundsAfterParents(p, out);
    if p != map[] && ReadyKeys(p) != {} {
      var ready, rest := ReadyKeys(p), p - ReadyKeys(p);
      var head, tail := RoundsUnfold(p, out);
      RoundsByLevel(rest, tail);
      RoundsListEveryMac(rest, tail);
      forall i, j | 0 <= i < j < SettledCount(p) ensures Precedes(p, out[i].mac, out[j].mac) {
        LevelStep(p, head, tail, i, j);
      }
    }
  }

  lemma {:induction false} LevelStep(p: map<string, Switch>, head: seq<Switch>, tail: seq<Switch>, i: nat, j: nat)
    requires Lists(p, ReadyKeys(p), head)
    requires var rest := p - ReadyKeys(p); Covers(rest, rest.Keys, tail)
    requires i < j < |head| + |tail|
    requires i >= |head| ==> Precedes(p - ReadyKeys(p), tail[i - |head|].mac, tail[j - |head|].mac)
    ensures Precedes(p, (head + tail)[i].mac, (head + tail)[j].mac)
  {
    var x, y := (head + tail)[i].mac, (head + tail)[j].mac;
    forall a: nat, b: nat | HasLevel(p, x, a) && HasLevel(p, y, b) ensures a < b || (a == b && Less(x, y)) {
      if i < |head| {
        ReadyIsLevelZero(p, x, a);
      } else {
        LevelDrops(p, x, a);
      }
      if j < |head| {
        ReadyIsLevelZero(p, y, b);
        LessTotal(x, y);
      } else {
        LevelDrops(p, y, b);
      }
    }
  }

  lemma {:induction false} RoundsBlockSorted(p: map<string, Switch>, out: seq<Switch>)
    requires Rounds(p, out)
    ensures SettledCount(p) <= |out| && Sorting.SortedBy(out[SettledCount(p)..], MacLess)
    decreases |p|
  {
    if p == map[] {
    } else if ReadyKeys(p) == {} {
      assert out[0..] == out;
    } else {
      var head, tail := RoundsUnfold(p, out);
      var c := SettledCount(p - ReadyKeys(p));
      RoundsBlockSorted(p - ReadyKeys(p), tail);
      assert (head + tail)[|head| + c..] == tail[c..];
    }
  }

  /**
    * The order on every parent graph, cyclic or not: first exactly the switches whose uplink chain ends,
    * each after its uplink; then exactly the others, by MAC.
    */
  lemma {:induction false} RoundsOrder(p: map<string, Switch>, out: seq<Switch>)
    requires Rounds(p, out)
    ensures SplitAt(p, out, SettledCount(p)) && AfterParents(p, out, SettledCount(p))
    ensures Sorting.SortedBy(out[SettledCount(p)..], MacLess)
  {
    RoundsSplit(p, out);
    RoundsAfterParents(p, out);
    RoundsBlockSorted(p, out);
  }

  lemma {:induction false} StuckBlock(p: map<string, Switch>, out: seq<Switch>)
    requires ReadyKeys(p) == {} && Covers(p, p.Keys, out)
    ensures SplitAt(p, out, 0)
  {
    forall i | 0 <= i < |out| ensures !Grounded(p, out[i].mac) {
      forall n: nat ensures Up(p, out[i].mac, n).Some? {
        StuckNeverEnds(p, out[i].mac, n);
      }
    }
  }

  lemma {:induction false} SplitStep(p: map<string, Switch>, head: seq<Switch>, tail: seq<Switch>, c: nat)
    requires Covers(p, ReadyKeys(p), head) && |head| == |ReadyKeys(p)|
    requires Covers(p - ReadyKeys(p), (p - ReadyKeys(p)).Keys, tail) && SplitAt(p - ReadyKeys(p), tail, c)
    ensures SplitAt(p, head + tail, |head| + c)
  {
    var out := head + tail;
    forall i | 0 <= i < |out| ensures i < |head| + c <==> Grounded(p, out[i].mac) {
      if i < |head| {
        ReadyIsGrounded(p, head[i].mac);
      } else {
        GroundedAfterRemoval(p, tail[i - |head|].mac);
      }
    }
  }

  lemma {:induction false} AfterParentsStep(p: map<string, Switch>, head: seq<Switch>, tail: seq<Switch>, c: nat)
    requires Covers(p, ReadyKeys(p), head) && c <= |tail| && AfterParents(p - ReadyKeys(p), tail, c)
    ensures AfterParents(p, head + tail, |head| + c)
  {
    var out := head + tail;
    assert forall j :: 0 <= j < |head| ==> !Waits(p, head[j]);
    forall i | 0 <= i < |head| + c && Waits(p, out[i]) ensures HasMac(out[..i], out[i].parentMac) {
      if i >= |head| {
        var q := out[i].parentMac;
        assert q !in ReadyKeys(p) ==> Waits(p - ReadyKeys(p), tail[i - |head|]);
        HasMacConcat(head, tail[..i - |head|], q);
        assert out[..i] == head + tail[..i - |head|];
      }
    }
  }

  // ---------------------------------------------------------------- chains that never end meet a cycle

  ghost predicate IsAncestor(p: map<string, Switch>, k: string, n: nat, a: string) {
    exists i: nat :: i < n && Up(p, k, i) == Some(a)
  }

  ghost function Ancestors(p: map<string, Switch>, k: string, n: nat): set<string> {
    if n == 0 then {}
    else Ancestors(p, k, n - 1) + (if Up(p, k, n - 1).Some? then {Up(p, k, n - 1).value} else {})
  }

  lemma {:induction false} AncestorsMembers(p: map<string, Switch>, k: string, n: nat)
    ensures Ancestors(p, k, n) <= p.Keys
    ensures forall a :: a in Ancestors(p, k, n) ==> IsAncestor(p, k, n, a)
  {
    if n > 0 {
      AncestorsMembers(p, k, n - 1);
      UpStaysInside(p, k, n - 1);
    }
  }

  lemma {:induction false} AncestorsCount(p: map<string, Switch>, k: string, n: nat)
    requires !ReachesCycle(p, k) && !Grounded(p, k)
    ensures |Ancestors(p, k, n)| == n
  {
    if n > 0 {
      AncestorsCount(p, k, n - 1);
      AncestorsMembers(p, k, n - 1);
      assert Up(p, k, n - 1).Some?;
    }
  }

  /** A chain ends exactly when it meets no cycle, so the trailing block is the switches that reach one. */
  lemma {:induction false} GroundedIffNoCycle(p: map<string, Switch>, k: string)
    ensures Grounded(p, k) <==> !ReachesCycle(p, k)
  {
    if Grounded(p, k) && ReachesCycle(p, k) {
      CycleNeverEnds(p, k);
    } else if !Grounded(p, k) && !ReachesCycle(p, k) {
      AncestorsCount(p, k, |p| + 1);
      AncestorsMembers(p, k, |p| + 1);
      CardinalityMonotone(Ancestors(p, k, |p| + 1), p.Keys);
    }
  }

  lemma {:induction false} CycleStep(p: map<string, Switch>, k: string, i: nat, j: nat, n: nat)
    requires i < j && Up(p, k, i).Some? && Up(p, k, i) == Up(p, k, j)
    ensures Up(p, k, i + n * (j - i)).Some?
    ensures Up(p, k, i + n * (j - i)) == Up(p, k, i)
  {
    if n > 0 {
      CycleStep(p, k, i, j, n - 1);
      var m := i + (n - 1) * (j - i);
      assert m + (j - i) == i + n * (j - i);
      UpCompose(p, k, m, j - i);
      UpCompose(p, k, i, j - i);
    }
  }

  lemma {:induction false} CycleNeverEnds(p: map<string, Switch>, k: string)
    requires ReachesCycle(p, k)
    ensures !Grounded(p, k)
  {
    var i: nat, j: nat :| i < j && Up(p, k, i).Some? && Up(p, k, i) == Up(p, k, j);
    forall n: nat ensures Up(p, k, n).Some? {
      CycleStep(p, k, i, j, n);
      var m := i + n * (j - i);
      Grows(i, j - i, n);
      UpCompose(p, k, n, m - n);
    }
  }

  lemma {:induction false} Grows(i: nat, d: nat, n: nat)
    requires d > 0
    ensures n <= i + n * d
  {
  }

  // ---------------------------------------------------------------- the loop

  /** Collects the chosen pending switches in whatever order the map yields them. */
  method Gather(p: map<string, Switch>, keys: set<string>) returns (xs: seq<Switch>)
    requires Keyed(p) && keys <= p.Keys
    ensures Covers(p, keys, xs)
  {
    xs := [];
    var left := keys;
    while left != {}
      invariant left <= keys
      invariant DistinctMacs(xs)
      invariant forall i :: 0 <= i < |xs| ==> xs[i].mac in keys && xs[i].mac !in left && xs[i] == p[xs[i].mac]
      invariant forall k :: k in keys ==> k in left || HasMac(xs, k)
      decreases |left|
    {
      var k :| k in left;
      assert HasMac([p[k]], k) by {
        assert [p[k]][0].mac == k;
      }
      forall q | HasMac(xs, q) || HasMac([p[k]], q) ensures HasMac(xs + [p[k]], q) {
        HasMacConcat(xs, [p[k]], q);
      }
      xs := xs + [p[k]];
      left := left - {k};
    }
  }

  lemma {:induction false} SortLists(p: map<string, Switch>, keys: set<string>, xs: seq<Switch>)
    requires Covers(p, keys, xs)
    ensures Lists(p, keys, Sorting.Sort(xs, MacLess))
  {
    var ys := Sorting.Sort(xs, MacLess);
    MacOrder();
    Sorting.SortSorted(xs, MacLess);
    Sorting.SortPermutes(xs, MacLess);
    forall i | 0 <= i < |ys| ensures ys[i].mac in keys && ys[i] == p[ys[i].mac] {
      Sorting.SameMembers(xs, ys, ys[i]);
    }
    forall k | k in keys ensures HasMac(ys, k) {
      assert HasMac(xs, k);
      var i :| 0 <= i < |xs| && xs[i].mac == k;
      Sorting.SameMembers(xs, ys, xs[i]);
      var j :| 0 <= j < |ys| && ys[j] == xs[i];
      assert ys[j].mac == k;
    }
    Sorting.PermutedNoRepeats(xs, ys);
    forall i, j | 0 <= i < j < |ys| ensures ys[i].mac != ys[j].mac {
      assert ys[i] != ys[j];
    }
  }

  /** Whatever properly continues `pending` completes `out` to a proper order of `all`. */
  ghost predicate Continues(all: map<string, Switch>, out: seq<Switch>, pending: map<string, Switch>) {
    forall tail :: Rounds(pending, tail) ==> Rounds(all, out + tail)
  }

  lemma {:induction false} ContinuesStep(all: map<string, Switch>, out: seq<Switch>, p: map<string, Switch>, round: seq<Switch>)
    requires Continues(all, out, p) && ReadyKeys(p) != {} && Lists(p, ReadyKeys(p), round)
    ensures Continues(all, out + round, p - ReadyKeys(p))
  {
    RemoveShrinks(p, ReadyKeys(p));
    CoversLength(p, ReadyKeys(p), round);
    forall tail | Rounds(p - ReadyKeys(p), tail) ensures Rounds(all, (out + round) + tail) {
      assert (round + tail)[..|round|] == round && (round + tail)[|round|..] == tail;
      assert Rounds(p, round + tail);
      assert out + (round + tail) == (out + round) + tail;
    }
  }

  lemma {:induction false} ContinuesStart(all: map<string, Switch>)
    ensures Continues(all, [], all)
  {
    forall tail | Rounds(all, tail) ensures Rounds(all, [] + tail) {
      assert [] + tail == tail;
    }
  }

  lemma {:induction false} ContinuesEnd(all: map<string, Switch>, out: seq<Switch>, p: map<string, Switch>, tail: seq<Switch>)
    requires Continues(all, out, p) && Rounds(p, tail)
    ensures Rounds(all, out + tail)
  {
  }

  method FillPending(sws: seq<Switch>) returns (pending: map<string, Switch>)
    ensures pending == PendingOf(sws)
  {
    pending := map[];
    for n := 0 to |sws|
      invariant pending == PendingOf(sws[..n])
    {
      assert sws[..n + 1][..n] == sws[..n];
      pending := pending[sws[n].mac := sws[n]];
    }
    assert sws[..|sws|] == sws;
  }

  /** `parentsFirst`. The result is the one list the rounds allow, so map order does not show. */
  method ParentsFirst(sws: seq<Switch>) returns (out: seq<Switch>)
    ensures Rounds(PendingOf(sws), out)
  {
    var pending := FillPending(sws);
    out := [];
    ghost var all := pending;
    ContinuesStart(all);
    while pending != map[]
      invariant Keyed(pending) && Continues(all, out, pending)
      decreases |pending|
    {
      var keys := ReadyKeys(pending);
      if keys == {} {
        var block := Gather(pending, pending.Keys);
        SortLists(pending, pending.Keys, block);
        block := Sorting.Sort(block, MacLess);
        ContinuesEnd(all, out, pending, block);
        return out + block;
      }
      var ready := Gather(pending, keys);
      SortLists(pending, keys, ready);
      ready := Sorting.Sort(ready, MacLess);
      ContinuesStep(all, out, pending, ready);
      RemoveShrinks(pending, keys);
      out := out + ready;
      pending := pending - keys;
    }
    ContinuesEnd(all, out, pending, []);
    assert out + [] == out;
  }
}
