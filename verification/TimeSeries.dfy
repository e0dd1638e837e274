/** timedHits of agent/internal/collect/timeseries.go: the last slots of a metric, asked for bucket by bucket. */
module TimeSeries {
  import opened Text

  const MIN15_SEC := 900
  const HOUR_SEC := 3600
  const DAY_SEC := 86400
  const WEEK_SEC := 7 * 86400

  /** A Unix time in seconds. */
  datatype Stamp = Stamp(unix: int)

  /** The hash "timedTraffic:<metric>:<gran>:<at>". */
  datatype Key = Key(metric: string, gran: string, at: Stamp)
  datatype Request = Request(key: Key, fields: seq<Stamp>)
  datatype Hit = Hit(ts: Stamp, value: int)

  /** Go's `/`: toward zero. */
  function Quotient(a: int, b: int): int
    requires b > 0
  {
    if a >= 0 then a / b else -(-a / b)
  }

  function RoundTime(precision: int, ts: int): int {
    if precision <= 0 then ts else Quotient(ts, precision) * precision
  }

  /** granParams: the slot length and the span of a bucket. */
  function GranParams(gran: string): (r: (int, int))
    ensures r.0 > 0 && r.1 > 0
  {
    if gran == "15minutes" then (MIN15_SEC, 50 * HOUR_SEC)
    else if gran == "1day" then (DAY_SEC, 52 * WEEK_SEC)
    else (HOUR_SEC, 7 * DAY_SEC)
  }

  /** Quarter hours in buckets of 50 hours, hours in buckets of a week, days in buckets of 52 weeks; hours by default. */
  lemma {:induction false} GranularitiesAre(gran: string)
    ensures GranParams("15minutes") == (900, 180_000) && GranParams("1day") == (86_400, 31_449_600)
    ensures gran != "15minutes" && gran != "1day" ==> GranParams(gran) == (3_600, 604_800)
  {
  }

  function BucketOf(metric: string, gran: string, slot: Stamp): Key {
    Key(metric, gran, Stamp(RoundTime(GranParams(gran).1, slot.unix)))
  }

  // ---------------------------------------------------------------- redis

  /** Cells that parse as a number; an absent, empty or unparsable cell is not in the map. */
  type Cells = map<Key, map<Stamp, int>>

  function Cell(cells: Cells, key: Key, field: Stamp): Option<int> {
    if key in cells && field in cells[key] then Some(cells[key][field]) else None
  }

  class Redis {
    const cells: Cells
    const failing: set<Key>
    var log: seq<Request>

    constructor (cells: Cells, failing: set<Key>)
      ensures this.cells == cells && this.failing == failing && log == []
    {
      this.cells, this.failing, log := cells, failing, [];
    }

    method HMGet(key: Key, fields: seq<Stamp>) returns (vals: Option<seq<Option<int>>>)
      modifies this
      ensures log == old(log) + [Request(key, fields)]
      ensures vals.None? <==> key in failing
      ensures vals.Some? ==> |vals.value| == |fields|
                             && forall i :: 0 <= i < |fields| ==> vals.value[i] == Cell(cells, key, fields[i])
    {
      log := log + [Request(key, fields)];
      if key in failing {
        return None;
      }
      vals := Some(seq(|fields|, i requires 0 <= i < |fields| => Cell(cells, key, fields[i])));
    }
  }

  // ---------------------------------------------------------------- slots and buckets

  /** `n` slots of length `d`, the last of them at `last`. */
  function Slots(n: nat, d: int, last: int): seq<Stamp> {
    seq(n, i requires 0 <= i < n => Stamp(last - (n - 1 - i) * d))
  }

  function FieldsOf(metric: string, gran: string, slots: seq<Stamp>, key: Key): seq<Stamp> {
    if slots == [] then []
    else
      var n := |slots| - 1;
      var before := FieldsOf(metric, gran, slots[..n], key);
      if BucketOf(metric, gran, slots[n]) == key then before + [slots[n]] else before
  }

  /** The bucket keys in order of first use. */
  function KeysOf(metric: string, gran: string, slots: seq<Stamp>): seq<Key> {
    if slots == [] then []
    else
      var n := |slots| - 1;
      var before := KeysOf(metric, gran, slots[..n]);
      var key := BucketOf(metric, gran, slots[n]);
      if key in before then before else before + [key]
  }

  function Requests(metric: string, gran: string, slots: seq<Stamp>): seq<Request> {
    var keys := KeysOf(metric, gran, slots);
    seq(|keys|, i requires 0 <= i < |keys| => Request(keys[i], FieldsOf(metric, gran, slots, keys[i])))
  }

  ghost predicate Distinct<T>(xs: seq<T>) {
    forall i, j :: 0 <= i < j < |xs| ==> xs[i] != xs[j]
  }

  ghost predicate Used(metric: string, gran: string, slots: seq<Stamp>, key: Key) {
    exists s <- slots :: BucketOf(metric, gran, s) == key
  }

  lemma {:induction false} KeysCover(metric: string, gran: string, slots: seq<Stamp>)
    ensures Distinct(KeysOf(metric, gran, slots))
    ensures forall s <- slots :: BucketOf(metric, gran, s) in KeysOf(metric, gran, slots)
    ensures forall k <- KeysOf(metric, gran, slots) :: Used(metric, gran, slots, k)
  {
    if slots != [] {
      var n := |slots| - 1;
      KeysCover(metric, gran, slots[..n]);
      assert slots[n] in slots;
      forall s | s in slots ensures BucketOf(metric, gran, s) in KeysOf(metric, gran, slots) {
        assert s == slots[n] || s in slots[..n];
      }
    }
  }

  /** The keys come in the order of first use. */
  lemma {:induction false} KeysGrow(metric: string, gran: string, slots: seq<Stamp>, n: nat)
    requires n <= |slots|
    ensures KeysOf(metric, gran, slots[..n]) <= KeysOf(metric, gran, slots)
  {
    if n == |slots| {
      assert slots[..n] == slots;
    } else {
      var front := slots[..|slots| - 1];
      KeysGrow(metric, gran, front, n);
      assert front[..n] == slots[..n];
    }
  }

  lemma {:induction false} FieldsAre(metric: string, gran: string, slots: seq<Stamp>, key: Key)
    requires Distinct(slots)
    ensures Distinct(FieldsOf(metric, gran, slots, key))
    ensures forall s :: s in FieldsOf(metric, gran, slots, key) <==> s in slots && BucketOf(metric, gran, s) == key
  {
    if slots != [] {
      var n := |slots| - 1;
      FieldsAre(metric, gran, slots[..n], key);
      assert forall s :: s in slots <==> s in slots[..n] || s == slots[n];
    }
  }

  ghost predicate AskedAt(requests: seq<Request>, r: nat, f: nat, slot: Stamp) {
    r < |requests| && f < |requests[r].fields| && requests[r].fields[f] == slot
  }

  /** One request per key, each slot asked for once, under its own key, and nothing else asked for. */
  ghost predicate AskedOnce(metric: string, gran: string, slots: seq<Stamp>, requests: seq<Request>) {
    && (forall a, b :: 0 <= a < b < |requests| ==> requests[a].key != requests[b].key)
    && (forall r <- requests :: r.fields != [])
    && (forall s <- slots :: exists r: nat, f: nat :: AskedAt(requests, r, f, s))
    && (forall r: nat, f: nat, s :: AskedAt(requests, r, f, s) ==> s in slots && requests[r].key == BucketOf(metric, gran, s))
    && (forall r: nat, f: nat, r': nat, f': nat, s :: AskedAt(requests, r, f, s) && AskedAt(requests, r', f', s) ==> r == r' && f == f')
  }

  lemma {:induction false} RequestsAskOnce(metric: string, gran: string, slots: seq<Stamp>)
    requires Distinct(slots)
    ensures AskedOnce(metric, gran, slots, Requests(metric, gran, slots))
  {
    var keys, requests := KeysOf(metric, gran, slots), Requests(metric, gran, slots);
    KeysCover(metric, gran, slots);
    forall i | 0 <= i < |keys|
      ensures requests[i].fields != [] && Distinct(requests[i].fields)
      ensures forall s :: s in requests[i].fields <==> s in slots && BucketOf(metric, gran, s) == keys[i]
    {
      FieldsAre(metric, gran, slots, keys[i]);
      assert Used(metric, gran, slots, keys[i]);
      var s :| s in slots && BucketOf(metric, gran, s) == keys[i];
      assert s in requests[i].fields;
    }
    forall s | s in slots ensures exists r: nat, f: nat :: AskedAt(requests, r, f, s) {
      var r :| 0 <= r < |keys| && keys[r] == BucketOf(metric, gran, s);
      assert s in requests[r].fields;
      var f :| 0 <= f < |requests[r].fields| && requests[r].fields[f] == s;
      assert AskedAt(requests, r, f, s);
    }
  }

  // ---------------------------------------------------------------- the window

  /** How many slots the loop over the window visits. */
  function Visited(d: int, count: int, now: int): int
    requires d > 0
  {
    Quotient(now, d) - Quotient(now - count * d, d) + 1
  }

  /** Rounding toward zero gives the window one slot too many, or none too many when it reaches across zero. */
  lemma {:induction false} WindowIsEnough(d: int, count: int, now: int)
    requires d > 0 && count > 0
    ensures count <= Visited(d, count, now) <= count + 1
    ensures RoundTime(d, now - count * d) == RoundTime(d, now) - (Visited(d, count, now) - 1) * d
  {
    var q, p, from := Quotient(now, d), Quotient(now - count * d, d), now - count * d;
    Distribute(q, p, d);
    if from >= 0 {
      Shift(from, count, d);
    } else if now < 0 {
      Shift(-now, count, d);
      assert -from == -now + count * d;
    } else {
      Shift(-now, count, d);
      Negate(now, d);
      assert -from == -now + count * d;
    }
  }

  lemma {:induction false} Distribute(a: int, b: int, d: int)
    ensures (a - b) * d == a * d - b * d
    ensures (a + b) * d == a * d + b * d
  {
  }

  lemma {:induction false} AtLeastOnce(e: int, d: int)
    requires d > 0
    ensures e >= 0 ==> e * d >= 0
    ensures e >= 1 ==> e * d >= d
    ensures e <= -1 ==> e * d <= -d
  {
    if e >= 1 {
      assert (e - 1) * d >= 0;
      Distribute(e, 1, d);
    } else if e <= -1 {
      assert (-e - 1) * d >= 0;
      Distribute(-e, 1, d);
    }
  }

  lemma {:induction false} Shift(a: int, k: int, d: int)
    requires d > 0
    ensures (a + k * d) / d == a / d + k
  {
    Distribute(a / d, k, d);
    QuotientUnique(a + k * d, a / d + k, a % d, d);
  }

  lemma {:induction false} QuotientUnique(a: int, q: int, r: int, d: int)
    requires d > 0 && 0 <= r < d && a == q * d + r
    ensures a / d == q
  {
    Distribute(a / d, q, d);
    AtLeastOnce(a / d - q, d);
  }

  lemma {:induction false} Negate(a: int, d: int)
    requires d > 0
    ensures -a / d == if a % d == 0 then -(a / d) else -(a / d) - 1
  {
    var q, r := a / d, a % d;
    Distribute(0, q, d);
    Distribute(-q, 1, d);
    if r == 0 {
      QuotientUnique(-a, -q, 0, d);
    } else {
      QuotientUnique(-a, -q - 1, d - r, d);
    }
  }

  /** Rounding goes to the multiple of the precision next to the time, on the side of zero. */
  lemma {:induction false} RoundMeans(precision: int, ts: int)
    ensures var r := RoundTime(precision, ts);
            if precision <= 0 then r == ts
            else
              && r % precision == 0
              && (ts >= 0 ==> 0 <= r <= ts < r + precision)
              && (ts < 0 ==> r - precision < ts <= r <= 0)
  {
    if precision > 0 {
      MultipleOf(Quotient(ts, precision), precision);
      FloorFits(if ts >= 0 then ts else -ts, precision);
    }
  }

  lemma {:induction false} MultipleOf(q: int, d: int)
    requires d > 0
    ensures (q * d) % d == 0
  {
    QuotientUnique(q * d, q, 0, d);
  }

  lemma {:induction false} FloorFits(a: nat, d: int)
    requires d > 0
    ensures 0 <= a / d * d <= a < a / d * d + d
    ensures -(a / d) * d == -(a / d * d)
  {
    Distribute(0, a / d, d);
    AtLeastOnce(a / d, d);
    assert a == d * (a / d) + a % d;
  }

  lemma {:induction false} SlotsDistinct(n: nat, d: int, last: int)
    requires d > 0
    ensures Distinct(Slots(n, d, last))
  {
    var slots := Slots(n, d, last);
    forall i, j | 0 <= i < j < |slots| ensures slots[i] != slots[j] {
      Distribute(n - 1 - i, n - 1 - j, d);
      AtLeastOnce(j - i, d);
      assert (n - 1 - i) - (n - 1 - j) == j - i;
    }
  }

  lemma {:induction false} LastSlots(slots: seq<Stamp>, count: nat, d: int, last: int)
    requires slots == Slots(|slots|, d, last) && count <= |slots|
    ensures slots[|slots| - count..] == Slots(count, d, last)
  {
    var from := |slots| - count;
    forall i | 0 <= i < count ensures slots[from + i] == Slots(count, d, last)[i] {
      assert |slots| - 1 - (from + i) == count - 1 - i;
    }
  }

  // ---------------------------------------------------------------- timedHits

  function Generated(gran: string, count: int, now: int): seq<Stamp>
    requires count > 0
  {
    var d := GranParams(gran).0;
    WindowIsEnough(d, count, now);
    Slots(Visited(d, count, now), d, RoundTime(d, now))
  }

  /** A look at one slot alone. */
  function Direct(cells: Cells, metric: string, gran: string, slot: Stamp): Hit {
    var c := Cell(cells, BucketOf(metric, gran, slot), slot);
    Hit(slot, if c.Some? then c.value else 0)
  }

  /** A look at each slot alone. */
  function Looks(cells: Cells, metric: string, gran: string, slots: seq<Stamp>): seq<Hit> {
    seq(|slots|, i requires 0 <= i < |slots| => Direct(cells, metric, gran, slots[i]))
  }

  /** Each shows its own time, and the cell of that time in the hash of its bucket, or 0. */
  lemma {:induction false} LooksMean(cells: Cells, metric: string, gran: string, n: nat, d: int, last: int, i: nat)
    requires i < n
    ensures var hits, at := Looks(cells, metric, gran, Slots(n, d, last)), Stamp(last - (n - 1 - i) * d);
            var key := Key(metric, gran, Stamp(RoundTime(GranParams(gran).1, at.unix)));
            && |hits| == n && hits[i].ts == at
            && hits[i].value == if key in cells && at in cells[key] then cells[key][at] else 0
  {
  }

  lemma {:induction false} LooksFrom(cells: Cells, metric: string, gran: string, slots: seq<Stamp>, from: nat)
    requires from <= |slots|
    ensures Looks(cells, metric, gran, slots)[from..] == Looks(cells, metric, gran, slots[from..])
  {
  }

  /** The window's slots differ, and its last `count` end at the rounded time. */
  lemma {:induction false} WindowFits(gran: string, count: int, now: int)
    requires count > 0
    ensures var slots, d := Generated(gran, count, now), GranParams(gran).0;
            && Distinct(slots) && count <= |slots|
            && slots[|slots| - count..] == Slots(count, d, RoundTime(d, now))
  {
    var d := GranParams(gran).0;
    WindowIsEnough(d, count, now);
    SlotsDistinct(Visited(d, count, now), d, RoundTime(d, now));
    LastSlots(Generated(gran, count, now), count, d, RoundTime(d, now));
  }

  method Window(gran: string, count: int, now: int) returns (slots: seq<Stamp>)
    requires count > 0
    ensures slots == Generated(gran, count, now)
  {
    var d := GranParams(gran).0;
    var ts, last := RoundTime(d, now - count * d), RoundTime(d, now);
    ghost var n := Visited(d, count, now);
    WindowIsEnough(d, count, now);
    slots := [];
    while ts <= last
      invariant |slots| <= n && ts == last - (n - 1 - |slots|) * d
      invariant slots == Slots(n, d, last)[..|slots|]
      decreases last - ts
    {
      AtLeastOnce(n - 1 - |slots|, d);
      Distribute(n - 1 - |slots|, 1, d);
      slots := slots + [Stamp(ts)];
      ts := ts + d;
    }
    AtLeastOnce(n - 1 - |slots|, d);
    assert Slots(n, d, last)[..n] == Slots(n, d, last);
  }

  /** The buckets of a window, and their keys in order of first use. */
  method Group(metric: string, gran: string, slots: seq<Stamp>) returns (order: seq<Key>, byKey: map<Key, seq<Stamp>>)
    ensures order == KeysOf(metric, gran, slots)
    ensures forall k :: k in byKey <==> k in order
    ensures forall k <- order :: byKey[k] == FieldsOf(metric, gran, slots, k)
  {
    order, byKey := [], map[];
    for i := 0 to |slots|
      invariant order == KeysOf(metric, gran, slots[..i])
      invariant forall k :: k in byKey <==> k in order
      invariant forall k :: (if k in byKey then byKey[k] else []) == FieldsOf(metric, gran, slots[..i], k)
    {
      assert slots[..i + 1][..i] == slots[..i];
      var key := BucketOf(metric, gran, slots[i]);
      if key !in byKey {
        byKey := byKey[key := []];
        order := order + [key];
      }
      byKey := byKey[key := byKey[key] + [slots[i]]];
    }
    assert slots[..|slots|] == slots;
  }

  /** What has been read so far: right values only, and every cell of the keys already asked. */
  ghost predicate Read(cells: Cells, metric: string, gran: string, slots: seq<Stamp>, keys: seq<Key>, got: map<Stamp, int>) {
    && (forall s <- got :: Cell(cells, BucketOf(metric, gran, s), s) == Some(got[s]))
    && (forall s <- slots :: BucketOf(metric, gran, s) in keys && Cell(cells, BucketOf(metric, gran, s), s).Some? ==> s in got)
  }

  method Fetch(r: Redis, metric: string, gran: string, slots: seq<Stamp>) returns (got: Option<map<Stamp, int>>)
    requires Distinct(slots)
    modifies r
    ensures got.Some? <==> forall k <- KeysOf(metric, gran, slots) :: k !in r.failing
    ensures got.Some? ==> Read(r.cells, metric, gran, slots, KeysOf(metric, gran, slots), got.value)
    ensures exists n :: 0 <= n <= |Requests(metric, gran, slots)|
                        && r.log == old(r.log) + Requests(metric, gran, slots)[..n]
                        && (got.Some? ==> n == |Requests(metric, gran, slots)|)
  {
    var order, byKey := Group(metric, gran, slots);
    ghost var requests := Requests(metric, gran, slots);
    var values: map<Stamp, int> := map[];
    for i := 0 to |order|
      invariant r.log == old(r.log) + requests[..i]
      invariant forall k <- order[..i] :: k !in r.failing
      invariant Read(r.cells, metric, gran, slots, order[..i], values)
    {
      var key := order[i];
      FieldsAre(metric, gran, slots, key);
      var vals := r.HMGet(key, byKey[key]);
      assert requests[..i + 1] == requests[..i] + [Request(key, byKey[key])];
      if vals.None? {
        assert r.log == old(r.log) + requests[..i + 1];
        return None;
      }
      values := Store(r.cells, metric, gran, slots, order[..i], key, byKey[key], vals.value, values);
      assert order[..i + 1] == order[..i] + [key];
    }
    assert order[..|order|] == order && requests[..|requests|] == requests;
    got := Some(values);
  }

  /** The values of one reply. */
  method Store(
    ghost cells: Cells, ghost metric: string, ghost gran: string, ghost slots: seq<Stamp>, ghost asked: seq<Key>, ghost key: Key,
    fields: seq<Stamp>, vals: seq<Option<int>>, before: map<Stamp, int>)
    returns (values: map<Stamp, int>)
    requires Read(cells, metric, gran, slots, asked, before)
    requires forall s :: s in fields <==> s in slots && BucketOf(metric, gran, s) == key
    requires |vals| == |fields| && forall i :: 0 <= i < |fields| ==> vals[i] == Cell(cells, key, fields[i])
    ensures Read(cells, metric, gran, slots, asked + [key], values)
  {
    values := before;
    for i := 0 to |fields|
      invariant Read(cells, metric, gran, slots, asked, values)
      invariant forall j :: 0 <= j < i && vals[j].Some? ==> fields[j] in values
    {
      assert fields[i] in fields;
      if vals[i].Some? {
        values := values[fields[i] := vals[i].value];
      }
    }
    forall s | s in slots && BucketOf(metric, gran, s) in asked + [key] && Cell(cells, BucketOf(metric, gran, s), s).Some?
      ensures s in values
    {
      if BucketOf(metric, gran, s) == key {
        var j :| 0 <= j < |fields| && fields[j] == s;
      }
    }
  }

  method Hits(ghost cells: Cells, metric: string, gran: string, slots: seq<Stamp>, got: map<Stamp, int>)
    returns (out: seq<Hit>)
    requires Read(cells, metric, gran, slots, KeysOf(metric, gran, slots), got)
    ensures out == Looks(cells, metric, gran, slots)
  {
    KeysCover(metric, gran, slots);
    out := [];
    for i := 0 to |slots|
      invariant |out| == i
      invariant forall j :: 0 <= j < i ==> out[j] == Direct(cells, metric, gran, slots[j])
    {
      var s := slots[i];
      assert s in slots;
      out := out + [Hit(s, if s in got then got[s] else 0)];
    }
  }

  /**
    * timedHits: exactly `count` consecutive slots that end at the rounded `now`, for any `now`, each with the value a
    * look at that slot alone would give. None is the error of the first failing key.
    */
  method TimedHits(r: Redis, metric: string, gran: string, count: int, now: int) returns (hits: Option<seq<Hit>>)
    modifies r
    ensures count <= 0 ==> hits == Some([]) && r.log == old(r.log)
    ensures count > 0 ==>
              var keys := KeysOf(metric, gran, Generated(gran, count, now));
              hits.Some? <==> forall k <- keys :: k !in r.failing
    ensures count > 0 && hits.Some? ==>
              var last := Slots(count, GranParams(gran).0, RoundTime(GranParams(gran).0, now));
              hits.value == Looks(r.cells, metric, gran, last)
    ensures count > 0 && hits.Some? ==> r.log == old(r.log) + Requests(metric, gran, Generated(gran, count, now))
  {
    if count <= 0 {
      return Some([]);
    }
    var slots := Window(gran, count, now);
    WindowFits(gran, count, now);
    var got := Fetch(r, metric, gran, slots);
    ghost var requests := Requests(metric, gran, slots);
    assert requests[..|requests|] == requests;
    if got.None? {
      return None;
    }
    var out := Hits(r.cells, metric, gran, slots, got.value);
    LooksFrom(r.cells, metric, gran, slots, |slots| - count);
    if |out| > count {
      out := out[|out| - count..];
    }
    hits := Some(out);
  }
}
