/** MergeSpeedtest of server/internal/store/catalog.go: new speed test points into the cached dashboard. */
module Speedtest {
  import opened Text
  import opened Sorting

  datatype Reading = Reading(down: real, up: real, ping: real, serverID: string, server: string, location: string)
  datatype Time = Time(unix: int)
  datatype Point = Point(ts: Time, reading: Reading)

  /** The columns of a WAN that a merge leaves alone. */
  datatype Plan = Plan(active: bool, down: real, up: real, jitter: real)

  /** A WAN's row: its headline is the reading of its last point. */
  datatype Row = Row(uuid: string, name: string, plan: Plan, headline: Reading, points: seq<Point>)

  datatype Dashboard = Dashboard(speedtest: seq<Row>)
  datatype Catalog = Catalog(dashboard: Option<Dashboard>)

  type ByTS = map<Time, Point>

  // ---------------------------------------------------------------- points

  function First(a: string, b: string): string {
    if a != "" then a else b
  }

  /** mergeSpeedPoint: the new point, with the older one's server where the new one names none. */
  function MergePoint(older: Point, newer: Point): Point {
    Point(newer.ts, MergeReading(older.reading, newer.reading))
  }

  function MergeReading(older: Reading, newer: Reading): Reading {
    Reading(
      newer.down, newer.up, newer.ping,
      First(newer.serverID, older.serverID), First(newer.server, older.server), First(newer.location, older.location))
  }

  predicate Usable(p: Point) {
    p.ts.unix > 0 && !(p.reading.down == 0.0 && p.reading.up == 0.0)
  }

  function Upsert(m: ByTS, p: Point): ByTS {
    if !Usable(p) then m else m[p.ts := if p.ts in m then MergePoint(m[p.ts], p) else p]
  }

  function Fold(m: ByTS, batch: seq<Point>): ByTS {
    if batch == [] then m else Upsert(Fold(m, batch[..|batch| - 1]), batch[|batch| - 1])
  }

  function MapOf(points: seq<Point>): ByTS {
    if points == [] then map[]
    else
      var p := points[|points| - 1];
      MapOf(points[..|points| - 1])[p.ts := p]
  }

  ghost predicate Keyed(m: ByTS) {
    forall k <- m :: m[k].ts == k
  }

  ghost predicate Increasing(s: seq<Point>) {
    forall i, j :: 0 <= i < j < |s| ==> s[i].ts.unix < s[j].ts.unix
  }

  ghost predicate Occurs(s: seq<Point>, k: Time) {
    exists i :: 0 <= i < |s| && s[i].ts == k
  }

  /** `s` holds the points of `m`, each once. */
  ghost predicate Holds(m: ByTS, s: seq<Point>) {
    && (forall i :: 0 <= i < |s| ==> s[i].ts in m && m[s[i].ts] == s[i])
    && (forall k <- m :: Occurs(s, k))
  }

  ghost predicate IsLast(m: ByTS, k: Time) {
    k in m && forall j <- m :: j.unix <= k.unix
  }

  lemma {:induction false} LastKeyExists(m: ByTS)
    requires |m| > 0
    ensures exists k :: IsLast(m, k)
    decreases |m|
  {
    var a :| a in m.Keys;
    var rest := m - {a};
    if |rest| > 0 {
      LastKeyExists(rest);
      var k :| IsLast(rest, k);
      assert IsLast(m, if k.unix < a.unix then a else k) by {
        assert forall j <- m :: j == a || j in rest;
      }
    } else {
      assert m.Keys == {a} by {
        assert forall j <- m :: j != a ==> j in rest;
        assert rest == map[];
      }
      assert IsLast(m, a);
    }
  }

  ghost function LastKey(m: ByTS): (k: Time)
    requires |m| > 0
    ensures IsLast(m, k)
  {
    LastKeyExists(m);
    var k :| IsLast(m, k);
    k
  }

  /** The points of `m` in time order. */
  ghost function ListOf(m: ByTS): seq<Point>
    decreases |m|
  {
    if |m| == 0 then []
    else
      var k := LastKey(m);
      ListOf(m - {k}) + [m[k]]
  }

  lemma {:induction false} ListUnfold(m: ByTS)
    requires |m| > 0
    ensures ListOf(m) == ListOf(m - {LastKey(m)}) + [m[LastKey(m)]]
  {
  }

  /** There is one such list. */
  lemma {:induction false} ListUnique(m: ByTS, s: seq<Point>)
    requires Keyed(m) && Increasing(s) && Holds(m, s)
    ensures s == ListOf(m)
    decreases |m|
  {
    if |m| == 0 {
      assert s == [];
    } else {
      var n := |s| - 1;
      LastIsLastKey(m, s);
      var rest, k, front := m - {s[n].ts}, s[n].ts, s[..n];
      HoldsWithoutLast(m, s);
      ListUnique(rest, front);
      ListUnfold(m);
      assert s == front + [s[n]];
    }
  }

  lemma {:induction false} LastIsLastKey(m: ByTS, s: seq<Point>)
    requires Increasing(s) && Holds(m, s) && |m| > 0
    ensures s != [] && s[|s| - 1].ts == LastKey(m)
  {
    var at :| 0 <= at < |s| && s[at].ts == LastKey(m);
    assert s[|s| - 1].ts.unix <= LastKey(m).unix;
  }

  lemma {:induction false} HoldsWithoutLast(m: ByTS, s: seq<Point>)
    requires Keyed(m) && Increasing(s) && Holds(m, s) && s != []
    ensures var n := |s| - 1; Increasing(s[..n]) && Holds(m - {s[n].ts}, s[..n])
  {
    var n := |s| - 1;
    forall k | k in m - {s[n].ts} ensures Occurs(s[..n], k) {
      var i :| 0 <= i < |s| && s[i].ts == k;
      assert s[..n][i].ts == k;
    }
  }

  lemma {:induction false} ListIsSorted(m: ByTS)
    requires Keyed(m)
    ensures Increasing(ListOf(m)) && Holds(m, ListOf(m))
    decreases |m|
  {
    if |m| > 0 {
      var k := LastKey(m);
      var rest := m - {k};
      ListIsSorted(rest);
      HoldsWithLast(m, k, ListOf(rest));
    }
  }

  lemma {:induction false} HoldsWithLast(m: ByTS, k: Time, s: seq<Point>)
    requires Keyed(m) && IsLast(m, k) && Increasing(s) && Holds(m - {k}, s)
    ensures Increasing(s + [m[k]]) && Holds(m, s + [m[k]])
  {
    var s', rest := s + [m[k]], m - {k};
    forall j | j in m ensures Occurs(s', j) {
      if j == k {
        assert s'[|s|].ts == j;
      } else {
        assert j in rest;
        var i :| 0 <= i < |s| && s[i].ts == j;
        assert s'[i].ts == j;
      }
    }
    forall i | 0 <= i < |s| ensures s[i].ts in m && m[s[i].ts] == s[i] && s[i].ts.unix < k.unix {
      assert s[i].ts in rest;
    }
  }

  /** Listing a map and reading the list back gives the map. */
  lemma {:induction false} MapOfList(m: ByTS, s: seq<Point>)
    requires Keyed(m) && Increasing(s) && Holds(m, s)
    ensures MapOf(s) == m
  {
    if s == [] {
      assert m == map[];
    } else {
      var n := |s| - 1;
      HoldsWithoutLast(m, s);
      MapOfList(m - {s[n].ts}, s[..n]);
    }
  }

  lemma {:induction false} MapOfKeyed(points: seq<Point>)
    ensures Keyed(MapOf(points))
  {
    if points != [] {
      MapOfKeyed(points[..|points| - 1]);
    }
  }

  lemma {:induction false} FoldKeyed(m: ByTS, batch: seq<Point>)
    requires Keyed(m)
    ensures Keyed(Fold(m, batch))
  {
    if batch != [] {
      FoldKeyed(m, batch[..|batch| - 1]);
    }
  }

  lemma {:induction false} FoldConcat(m: ByTS, a: seq<Point>, b: seq<Point>)
    ensures Fold(Fold(m, a), b) == Fold(m, a + b)
  {
    if b == [] {
      assert a + b == a;
    } else {
      var n := |b| - 1;
      FoldConcat(m, a, b[..n]);
      assert (a + b)[..|a + b| - 1] == a + b[..n];
    }
  }

  // ---------------------------------------------------------------- folding twice

  function Get(m: ByTS, k: Time): Option<Point> {
    if k in m then Some(m[k]) else None
  }

  function Join(a: Option<Point>, b: Option<Point>): Option<Point> {
    if a.None? then b else if b.None? then a else Some(MergePoint(a.value, b.value))
  }

  /** What the batch says about the time `k`. */
  function Said(batch: seq<Point>, k: Time): Option<Point> {
    if batch == [] then None
    else
      var p := batch[|batch| - 1];
      Join(Said(batch[..|batch| - 1], k), if Usable(p) && p.ts == k then Some(p) else None)
  }

  lemma {:induction false} FoldAt(m: ByTS, batch: seq<Point>, k: Time)
    ensures Get(Fold(m, batch), k) == Join(Get(m, k), Said(batch, k))
  {
    if batch != [] {
      var n := |batch| - 1;
      FoldAt(m, batch[..n], k);
      JoinAssociative(Get(m, k), Said(batch[..n], k), Some(batch[n]));
    }
  }

  lemma {:induction false} JoinAssociative(a: Option<Point>, b: Option<Point>, c: Option<Point>)
    ensures Join(Join(a, b), c) == Join(a, Join(b, c))
    ensures Join(b, b) == b
  {
  }

  /** A batch that was already merged changes nothing. */
  lemma {:induction false} FoldTwice(m: ByTS, batch: seq<Point>)
    ensures Fold(Fold(m, batch), batch) == Fold(m, batch)
  {
    var once := Fold(m, batch);
    forall k | true ensures Get(Fold(once, batch), k) == Get(once, k) {
      FoldAt(m, batch, k);
      FoldAt(once, batch, k);
      JoinAssociative(Get(m, k), Said(batch, k), Said(batch, k));
    }
    SameMap(Fold(once, batch), once);
  }

  lemma {:induction false} SameMap(a: ByTS, b: ByTS)
    requires forall k :: Get(a, k) == Get(b, k)
    ensures a == b
  {
    forall k | true ensures k in a <==> k in b {
      assert Get(a, k) == Get(b, k);
    }
    forall k | k in a ensures a[k] == b[k] {
      assert Get(a, k) == Get(b, k);
    }
  }

  // ---------------------------------------------------------------- what a batch says about a time

  /** Point i of the batch is of this time and not empty. */
  predicate Counts(batch: seq<Point>, k: Time, i: nat)
    requires i < |batch|
  {
    batch[i].ts == k && k.unix > 0 && (batch[i].reading.down != 0.0 || batch[i].reading.up != 0.0)
  }

  datatype Label = ServerID | Server | Location

  function Name(r: Reading, which: Label): string {
    match which
    case ServerID => r.serverID
    case Server => r.server
    case Location => r.location
  }

  /** Point i has this text, and no later one that counts has any. */
  ghost predicate NamesIt(batch: seq<Point>, k: Time, n: nat, which: Label, text: string, i: nat)
    requires n <= |batch|
  {
    && i < n && Counts(batch, k, i) && Name(batch[i].reading, which) == text
    && (forall j: nat :: i < j < n && Counts(batch, k, j) ==> Name(batch[j].reading, which) == "")
  }

  ghost predicate Nameless(batch: seq<Point>, k: Time, n: nat, which: Label)
    requires n <= |batch|
  {
    forall i: nat :: i < n && Counts(batch, k, i) ==> Name(batch[i].reading, which) == ""
  }

  /** The last text that the points that count give; `before` when they give none. */
  ghost predicate LastNamed(batch: seq<Point>, k: Time, n: nat, which: Label, before: string, text: string)
    requires n <= |batch|
  {
    || (text == before && Nameless(batch, k, n, which))
    || (text != "" && exists i: nat :: NamesIt(batch, k, n, which, text, i))
  }

  /** Point i is the last of the first n that counts for this time. */
  ghost predicate IsLatest(batch: seq<Point>, k: Time, n: nat, i: nat)
    requires n <= |batch|
  {
    i < n && Counts(batch, k, i) && forall j: nat :: i < j < n ==> !Counts(batch, k, j)
  }

  predicate SameFigures(a: Reading, b: Reading) {
    a.down == b.down && a.up == b.up && a.ping == b.ping
  }

  ghost predicate NoneCounts(batch: seq<Point>, k: Time, n: nat)
    requires n <= |batch|
  {
    forall i: nat :: i < n ==> !Counts(batch, k, i)
  }

  ghost predicate LatestFigures(batch: seq<Point>, k: Time, n: nat, r: Reading)
    requires n <= |batch|
  {
    exists i: nat :: IsLatest(batch, k, n, i) && SameFigures(r, batch[i].reading)
  }

  /** The point's figures are the latest given for its time, and so is each of its names, apart from the figures. */
  ghost predicate Sums(batch: seq<Point>, k: Time, n: nat, before: Option<Point>, p: Option<Point>)
    requires n <= |batch|
  {
    var was := if before.Some? then before.value.reading else Reading(0.0, 0.0, 0.0, "", "", "");
    && (p.None? <==> before.None? && NoneCounts(batch, k, n))
    && (p.Some? ==>
          && p.value.ts == k
          && (LatestFigures(batch, k, n, p.value.reading)
              || (NoneCounts(batch, k, n) && SameFigures(p.value.reading, was)))
          && forall which :: LastNamed(batch, k, n, which, Name(was, which), Name(p.value.reading, which)))
  }

  lemma {:induction false} NameStep(
    batch: seq<Point>, k: Time, n: nat, which: Label, before: string, text: string, next: string)
    requires n < |batch| && LastNamed(batch, k, n, which, before, text)
    requires next == if Counts(batch, k, n) then First(Name(batch[n].reading, which), text) else text
    ensures LastNamed(batch, k, n + 1, which, before, next)
  {
    if Counts(batch, k, n) && Name(batch[n].reading, which) != "" {
      assert NamesIt(batch, k, n + 1, which, next, n);
    } else if i: nat :| NamesIt(batch, k, n, which, text, i) {
      assert NamesIt(batch, k, n + 1, which, text, i);
    }
  }

  lemma {:induction false} NoNamesYet(batch: seq<Point>, k: Time, n: nat, before: string)
    requires n <= |batch| && NoneCounts(batch, k, n)
    ensures forall which, text :: LastNamed(batch, k, n, which, text, text)
  {
  }

  lemma {:induction false} FiguresStep(batch: seq<Point>, k: Time, n: nat, r: Reading)
    requires n < |batch|
    ensures Counts(batch, k, n) && SameFigures(r, batch[n].reading) ==> LatestFigures(batch, k, n + 1, r)
    ensures !Counts(batch, k, n) && LatestFigures(batch, k, n, r) ==> LatestFigures(batch, k, n + 1, r)
  {
    if Counts(batch, k, n) && SameFigures(r, batch[n].reading) {
      assert IsLatest(batch, k, n + 1, n);
    }
    if !Counts(batch, k, n) {
      if i: nat :| IsLatest(batch, k, n, i) && SameFigures(r, batch[i].reading) {
        assert IsLatest(batch, k, n + 1, i);
      }
    }
  }

  /** What was there, overlaid with the first n points of the batch. */
  function Overlaid(batch: seq<Point>, k: Time, n: nat, before: Option<Point>): Option<Point>
    requires n <= |batch|
  {
    Join(before, Said(batch[..n], k))
  }

  lemma {:induction false} OverlaidStep(batch: seq<Point>, k: Time, n: nat, before: Option<Point>)
    requires n < |batch|
    ensures Overlaid(batch, k, n + 1, before) ==
            Join(Overlaid(batch, k, n, before), if Counts(batch, k, n) then Some(batch[n]) else None)
  {
    assert batch[..n + 1][..n] == batch[..n];
    JoinAssociative(before, Said(batch[..n], k), Some(batch[n]));
  }

  lemma {:induction false} OverlaySums(batch: seq<Point>, k: Time, n: nat, before: Option<Point>)
    requires n <= |batch| && (before.Some? ==> before.value.ts == k)
    ensures Sums(batch, k, n, before, Overlaid(batch, k, n, before))
  {
    if n == 0 {
      NoNamesYet(batch, k, 0, "");
    } else {
      OverlaySums(batch, k, n - 1, before);
      OverlaidStep(batch, k, n - 1, before);
      SumsStep(batch, k, n - 1, before, Overlaid(batch, k, n - 1, before));
    }
  }

  lemma {:induction false} SumsStep(batch: seq<Point>, k: Time, n: nat, before: Option<Point>, p: Option<Point>)
    requires n < |batch| && Sums(batch, k, n, before, p)
    ensures Sums(batch, k, n + 1, before, Join(p, if Counts(batch, k, n) then Some(batch[n]) else None))
  {
    var next := Join(p, if Counts(batch, k, n) then Some(batch[n]) else None);
    var was := if before.Some? then before.value.reading else Reading(0.0, 0.0, 0.0, "", "", "");
    if p.None? {
      NoNamesYet(batch, k, n, "");
    }
    if next.Some? {
      FiguresStep(batch, k, n, next.value.reading);
      forall which ensures LastNamed(batch, k, n + 1, which, Name(was, which), Name(next.value.reading, which)) {
        var text := if p.Some? then Name(p.value.reading, which) else "";
        NameStep(batch, k, n, which, Name(was, which), text, Name(next.value.reading, which));
      }
    }
  }

  /** What the row shows at a time: the last point of its list there, if any. */
  ghost predicate ShownAt(points: seq<Point>, k: Time, p: Option<Point>) {
    && (p.None? <==> !Occurs(points, k))
    && (p.Some? ==> exists i: nat :: i < |points| && points[i] == p.value && p.value.ts == k
                                     && forall j: nat :: i < j < |points| ==> points[j].ts != k)
  }

  lemma {:induction false} LastWins(points: seq<Point>, k: Time)
    ensures ShownAt(points, k, Get(MapOf(points), k))
  {
    if points != [] {
      var n := |points| - 1;
      LastWins(points[..n], k);
      if points[n].ts == k {
        assert Occurs(points, k);
      } else {
        if i: nat :| i < n && points[i].ts == k {
          assert points[..n][i].ts == k;
        }
        if i: nat :| i < n && points[..n][i] == points[i] && points[i].ts == k && forall j: nat :: i < j < n ==> points[..n][j].ts != k {
          assert forall j: nat :: i < j < n ==> points[j] == points[..n][j];
        }
      }
    }
  }

  // ---------------------------------------------------------------- rows

  function WithPoints(row: Row, points: seq<Point>): Row {
    Row(row.uuid, row.name, row.plan, if points == [] then row.headline else points[|points| - 1].reading, points)
  }

  ghost function MergedRow(row: Row, batch: seq<Point>): Row {
    WithPoints(row, ListOf(Fold(MapOf(row.points), batch)))
  }

  function NewRow(uuid: string): Row {
    Row(uuid, uuid, Plan(false, 0.0, 0.0, 0.0), Reading(0.0, 0.0, 0.0, "", "", ""), [])
  }

  /** The first row of the WAN takes the batch; without one, a row is added. */
  ghost function MergedRows(rows: seq<Row>, uuid: string, batch: seq<Point>): seq<Row> {
    if rows == [] then [MergedRow(NewRow(uuid), batch)]
    else if rows[0].uuid == uuid then [MergedRow(rows[0], batch)] + rows[1..]
    else [rows[0]] + MergedRows(rows[1..], uuid, batch)
  }

  function RowsOf(cat: Option<Catalog>): seq<Row> {
    if cat.Some? && cat.value.dashboard.Some? then cat.value.dashboard.value.speedtest else []
  }

  ghost function Merged(cat: Option<Catalog>, batch: seq<Point>, uuid: string): Option<Catalog> {
    if Trim(uuid) == "" || batch == [] then cat
    else Some(Catalog(Some(Dashboard(MergedRows(RowsOf(cat), Trim(uuid), batch)))))
  }

  /**
    * A merged row: strictly increasing times, the headline of the last one, and at each time what the row already had
    * there overlaid with what the batch says about it.
    */
  lemma {:induction false} MergedRowIsExact(row: Row, batch: seq<Point>)
    ensures var r := MergedRow(row, batch);
            && Increasing(r.points)
            && (r.points != [] ==> r.headline == r.points[|r.points| - 1].reading)
            && (forall p <- r.points :: Some(p) == Join(Get(MapOf(row.points), p.ts), Said(batch, p.ts)))
            && (forall k :: Join(Get(MapOf(row.points), k), Said(batch, k)).Some? ==> Occurs(r.points, k))
  {
    var before := MapOf(row.points);
    var after := Fold(before, batch);
    var points := ListOf(after);
    MapOfKeyed(row.points);
    FoldKeyed(before, batch);
    ListIsSorted(after);
    forall p | p in points ensures Some(p) == Join(Get(before, p.ts), Said(batch, p.ts)) {
      FoldAt(before, batch, p.ts);
    }
    forall k | Join(Get(before, k), Said(batch, k)).Some? ensures Occurs(points, k) {
      FoldAt(before, batch, k);
      assert k in after;
    }
  }

  /** `row` is `was` with the batch in it, time by time. */
  ghost predicate TakesIn(was: Row, row: Row, batch: seq<Point>) {
    && row.uuid == was.uuid && row.name == was.name && row.plan == was.plan
    && Increasing(row.points)
    && row.headline == (if row.points == [] then was.headline else row.points[|row.points| - 1].reading)
    && forall k, before, after :: ShownAt(was.points, k, before) && ShownAt(row.points, k, after)
                                  ==> Sums(batch, k, |batch|, before, after)
  }

  lemma {:induction false} ShownOnce(points: seq<Point>, k: Time, a: Option<Point>, b: Option<Point>)
    requires ShownAt(points, k, a) && ShownAt(points, k, b)
    ensures a == b
  {
    if a.Some? && b.Some? {
      var i: nat :| i < |points| && points[i] == a.value && forall j: nat :: i < j < |points| ==> points[j].ts != k;
      var j: nat :| j < |points| && points[j] == b.value && forall i: nat :: j < i < |points| ==> points[i].ts != k;
    }
  }

  /** At every time a merged row shows what it had there, overlaid point by point in the order of the batch. */
  lemma {:induction false} MergedRowTakesIn(row: Row, batch: seq<Point>)
    ensures TakesIn(row, MergedRow(row, batch), batch)
  {
    var points := MergedRow(row, batch).points;
    MergedRowIsExact(row, batch);
    forall k, before, after | ShownAt(row.points, k, before) && ShownAt(points, k, after)
      ensures Sums(batch, k, |batch|, before, after)
    {
      MergedAtTime(row, batch, k);
      LastWins(row.points, k);
      ShownOnce(row.points, k, before, Get(MapOf(row.points), k));
      LastWins(points, k);
      ShownOnce(points, k, after, Get(MapOf(points), k));
      OverlaySums(batch, k, |batch|, before);
      assert batch[..|batch|] == batch;
    }
  }

  lemma {:induction false} MergedAtTime(row: Row, batch: seq<Point>, k: Time)
    ensures Get(MapOf(MergedRow(row, batch).points), k) == Join(Get(MapOf(row.points), k), Said(batch, k))
  {
    var before := MapOf(row.points);
    MapOfKeyed(row.points);
    FoldKeyed(before, batch);
    ListIsSorted(Fold(before, batch));
    MapOfList(Fold(before, batch), ListOf(Fold(before, batch)));
    FoldAt(before, batch, k);
  }

  /** Only the first row of the WAN takes the batch in; without one, a last row that is named after the WAN does. */
  ghost predicate RowsTakeIn(was: seq<Row>, rows: seq<Row>, uuid: string, batch: seq<Point>) {
    exists at: nat :: TakenAt(was, rows, uuid, batch, at)
  }

  ghost predicate TakenAt(was: seq<Row>, rows: seq<Row>, uuid: string, batch: seq<Point>, at: nat) {
    && at <= |was| && at < |rows|
    && (forall i: nat :: i < at ==> was[i].uuid != uuid)
    && (if at < |was|
        then was[at].uuid == uuid && |rows| == |was| && TakesIn(was[at], rows[at], batch)
        else |rows| == |was| + 1
             && TakesIn(Row(uuid, uuid, Plan(false, 0.0, 0.0, 0.0), Reading(0.0, 0.0, 0.0, "", "", ""), []), rows[at], batch))
    && (forall i: nat :: i < |was| && i != at ==> rows[i] == was[i])
  }

  lemma {:induction false} RowTwice(row: Row, a: seq<Point>, b: seq<Point>)
    ensures MergedRow(MergedRow(row, a), b) == MergedRow(row, a + b)
    ensures MergedRow(MergedRow(row, a), a) == MergedRow(row, a)
  {
    var m := MapOf(row.points);
    var once := Fold(m, a);
    MapOfKeyed(row.points);
    FoldKeyed(m, a);
    ListIsSorted(once);
    MapOfList(once, ListOf(once));
    assert MergedRow(row, a).points == ListOf(once);
    FoldConcat(m, a, b);
    FoldTwice(m, a);
    FoldKeyed(once, b);
    ListIsSorted(Fold(once, b));
    assert ListOf(Fold(once, b)) == [] ==> ListOf(once) == [] by {
      FoldGrows(once, b);
      if k :| k in once {
        assert k in Fold(once, b);
      }
    }
  }

  lemma {:induction false} FoldGrows(m: ByTS, batch: seq<Point>)
    ensures forall k <- m :: k in Fold(m, batch)
  {
    if batch != [] {
      FoldGrows(m, batch[..|batch| - 1]);
    }
  }

  lemma {:induction false} RowsTwice(rows: seq<Row>, uuid: string, a: seq<Point>, b: seq<Point>)
    ensures MergedRows(MergedRows(rows, uuid, a), uuid, b) == MergedRows(rows, uuid, a + b)
    ensures MergedRows(MergedRows(rows, uuid, a), uuid, a) == MergedRows(rows, uuid, a)
  {
    var once := MergedRows(rows, uuid, a);
    if rows == [] {
      RowTwice(NewRow(uuid), a, b);
      assert once[1..] == [];
    } else if rows[0].uuid == uuid {
      RowTwice(rows[0], a, b);
      assert once[1..] == rows[1..];
    } else {
      RowsTwice(rows[1..], uuid, a, b);
      assert once[1..] == MergedRows(rows[1..], uuid, a);
    }
  }

  /** Two batches in turn are one concatenated batch, and a batch again is nothing new: for every prior catalog. */
  lemma {:induction false} BatchesCompose(cat: Option<Catalog>, a: seq<Point>, b: seq<Point>, uuid: string)
    ensures Merged(Merged(cat, a, uuid), b, uuid) == Merged(cat, a + b, uuid)
    ensures Merged(Merged(cat, a, uuid), a, uuid) == Merged(cat, a, uuid)
  {
    RowsTwice(RowsOf(cat), Trim(uuid), a, b);
    assert a == [] ==> a + b == b;
    assert b == [] ==> a + b == a;
  }

  // ---------------------------------------------------------------- the store

  /** The map's points in whatever order, as ranging over it gives them. */
  method Gather(m: ByTS) returns (out: seq<Point>)
    requires Keyed(m)
    ensures Holds(m, out) && NoRepeats(out)
  {
    out := [];
    var todo := m.Keys;
    while todo != {}
      invariant todo <= m.Keys
      invariant forall i :: 0 <= i < |out| ==> out[i].ts in m && out[i].ts !in todo && m[out[i].ts] == out[i]
      invariant NoRepeats(out)
      invariant forall k <- m :: k in todo || Occurs(out, k)
    {
      var k :| k in todo;
      ghost var before := out;
      out, todo := out + [m[k]], todo - {k};
      assert out[|before|].ts == k;
      forall j | j in m && j !in todo ensures Occurs(out, j) {
        if j != k {
          var i :| 0 <= i < |before| && before[i].ts == j;
          assert out[i].ts == j;
        }
      }
    }
  }

  predicate Before(a: Point, b: Point) {
    a.ts.unix < b.ts.unix
  }

  /** Sorting what was gathered gives the one list of the map. */
  lemma {:induction false} SortedIsList(m: ByTS, xs: seq<Point>)
    requires Keyed(m) && Holds(m, xs) && NoRepeats(xs)
    ensures Sort(xs, Before) == ListOf(m)
  {
    var s := Sort(xs, Before);
    SortSorted(xs, Before);
    SortPermutes(xs, Before);
    forall i | 0 <= i < |s| ensures s[i].ts in m && m[s[i].ts] == s[i] {
      SameMembers(s, xs, s[i]);
    }
    PermutedNoRepeats(xs, s);
    forall i, j | 0 <= i < j < |s| ensures s[i].ts.unix < s[j].ts.unix {
      assert !Before(s[j], s[i]) && s[i] != s[j];
    }
    forall k | k in m ensures Occurs(s, k) {
      var i :| 0 <= i < |xs| && xs[i].ts == k;
      SameMembers(s, xs, xs[i]);
    }
    ListUnique(m, s);
  }

  method MergePoints(old': seq<Point>, batch: seq<Point>) returns (merged: seq<Point>)
    ensures merged == ListOf(Fold(MapOf(old'), batch))
  {
    var byTS: ByTS := map[];
    for i := 0 to |old'|
      invariant byTS == MapOf(old'[..i])
    {
      assert old'[..i + 1][..i] == old'[..i];
      byTS := byTS[old'[i].ts := old'[i]];
    }
    assert old'[..|old'|] == old';
    for i := 0 to |batch|
      invariant byTS == Fold(MapOf(old'), batch[..i])
    {
      assert batch[..i + 1][..i] == batch[..i];
      var p := batch[i];
      if p.ts.unix <= 0 || (p.reading.down == 0.0 && p.reading.up == 0.0) {
        continue;
      }
      byTS := byTS[p.ts := if p.ts in byTS then MergePoint(byTS[p.ts], p) else p];
    }
    assert batch[..|batch|] == batch;
    MapOfKeyed(old');
    FoldKeyed(MapOf(old'), batch);
    merged := Gather(byTS);
    SortedIsList(byTS, merged);
    merged := Sort(merged, Before);
  }

  class CatalogStore {
    var cat: Option<Catalog>

    method MergeSpeedtest(points: seq<Point>, wanUUID: string)
      modifies this
      ensures cat == Merged(old(cat), points, wanUUID)
      ensures Trim(wanUUID) == "" || points == [] ==> cat == old(cat)
      ensures Trim(wanUUID) != "" && points != []
              ==> RowsTakeIn(RowsOf(old(cat)), RowsOf(cat), Trim(wanUUID), points)
    {
      var uuid := Trim(wanUUID);
      if uuid == "" || points == [] {
        return;
      }
      var rows := RowsOf(cat);
      var idx := 0;
      while idx < |rows| && rows[idx].uuid != uuid
        invariant idx <= |rows| && forall i :: 0 <= i < idx ==> rows[i].uuid != uuid
      {
        idx := idx + 1;
      }
      MergedAt(rows, uuid, points, idx);
      if idx == |rows| {
        rows := rows + [NewRow(uuid)];
      }
      var merged := MergePoints(rows[idx].points, points);
      var row := WithPoints(rows[idx], merged);
      MergedRowTakesIn(rows[idx], points);
      rows := rows[idx := row];
      assert TakenAt(RowsOf(cat), rows, uuid, points, idx);
      assert rows == MergedRows(RowsOf(cat), uuid, points);
      cat := Some(Catalog(Some(Dashboard(rows))));
    }
  }

  lemma {:induction false} MergedAt(rows: seq<Row>, uuid: string, batch: seq<Point>, idx: nat)
    requires idx <= |rows| && forall i :: 0 <= i < idx ==> rows[i].uuid != uuid
    ensures idx < |rows| && rows[idx].uuid == uuid
            ==> MergedRows(rows, uuid, batch) == rows[idx := MergedRow(rows[idx], batch)]
    ensures idx == |rows| ==> MergedRows(rows, uuid, batch) == rows + [MergedRow(NewRow(uuid), batch)]
  {
    if idx > 0 {
      MergedAt(rows[1..], uuid, batch, idx - 1);
    }
  }
}
