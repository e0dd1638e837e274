/**
  * The traffic tables of agent/internal/collect/dashboard.go: rows of a sumflow key are added, one direction at a
  * time, to totals per device, destination and region and to four nested tables.
  */
module Sumflow {
  import opened Text

  datatype Acc = Acc(up: int, down: int)

  /** A decoded sumflow row; `region` is the country code its country resolves to, "" if none. */
  datatype Row = Row(device: string, destIP: string, domain: string, region: string)

  /** A sorted-set member with its score. Only some members are JSON rows. */
  datatype Member = Member(text: string, score: real, row: Option<Row>)

  /** What one row contributes. "" stands for an end the row does not name. */
  datatype Event = Event(device: string, dest: string, region: string, amount: Acc)

  datatype Field = Device | Dest | Region

  type Flat = map<string, Acc>
  type Nested = map<string, Flat>

  const ZERO := Acc(0, 0)

  function Plus(a: Acc, b: Acc): Acc {
    Acc(a.up + b.up, a.down + b.down)
  }

  function Amount(upload: bool, n: int): Acc {
    if upload then Acc(n, 0) else Acc(0, n)
  }

  function Part(e: Event, f: Field): string {
    match f
    case Device => e.device
    case Dest => e.dest
    case Region => e.region
  }

  function DestOf(row: Row): string {
    var id := if row.domain != "" then row.domain else row.destIP;
    if id == "0.0.0.0" then "" else id
  }

  function EventOf(m: Member, upload: bool): Option<Event> {
    if m.text == "_" || m.text == "" || m.score <= 0.0 || m.row.None? then None
    else
      var n := m.score.Floor;
      Some(Event(
        ToUpper(m.row.value.device), DestOf(m.row.value), m.row.value.region,
        Amount(upload, n)))
  }

  function EventsOf(members: seq<Member>, upload: bool): seq<Event> {
    if members == [] then []
    else
      var n := |members| - 1;
      var before := EventsOf(members[..n], upload);
      match EventOf(members[n], upload)
      case None => before
      case Some(e) => before + [e]
  }

  function RowsOf(members: Option<seq<Member>>, upload: bool): seq<Event> {
    if members.None? then [] else EventsOf(members.value, upload)
  }

  function AllRows(keys: seq<Option<seq<Member>>>, upload: bool): seq<Event> {
    if keys == [] then []
    else AllRows(keys[..|keys| - 1], upload) + RowsOf(keys[|keys| - 1], upload)
  }

  // ---------------------------------------------------------------- what the tables must hold

  /** The event names `a` as its `f`. */
  predicate Names(e: Event, f: Field, a: string) {
    a != "" && Part(e, f) == a
  }

  /** Every byte of the history between `a` and `b`. */
  function Between(h: seq<Event>, f: Field, a: string, g: Field, b: string): Acc {
    if h == [] then ZERO
    else
      var n := |h| - 1;
      var before := Between(h[..n], f, a, g, b);
      if Names(h[n], f, a) && Names(h[n], g, b) then Plus(before, h[n].amount) else before
  }

  function Of(h: seq<Event>, f: Field, a: string): Acc {
    Between(h, f, a, f, a)
  }

  /** The bytes of `a` in rows that do not name a `g`. */
  function Lacking(h: seq<Event>, f: Field, a: string, g: Field): Acc {
    if h == [] then ZERO
    else
      var n := |h| - 1;
      var before := Lacking(h[..n], f, a, g);
      if Names(h[n], f, a) && Part(h[n], g) == "" then Plus(before, h[n].amount) else before
  }

  ghost predicate Seen(h: seq<Event>, f: Field, a: string, g: Field, b: string) {
    exists i :: 0 <= i < |h| && Names(h[i], f, a) && Names(h[i], g, b)
  }

  /** One entry per name that occurs, holding its total. */
  ghost predicate FlatIs(t: Flat, h: seq<Event>, f: Field) {
    forall a :: (a in t <==> Seen(h, f, a, f, a)) && (a in t ==> t[a] == Of(h, f, a))
  }

  /** One entry per pair that occurs together, holding what flowed between the two. */
  ghost predicate NestedIs(t: Nested, h: seq<Event>, f: Field, g: Field) {
    && (forall a, b :: Has(t, a, b) <==> Seen(h, f, a, g, b))
    && (forall a, b :: Has(t, a, b) ==> t[a][b] == Between(h, f, a, g, b))
  }

  predicate Has(t: Nested, a: string, b: string) {
    a in t && b in t[a]
  }

  function Inner(t: Nested, a: string): Flat {
    if a in t then t[a] else map[]
  }

  // ---------------------------------------------------------------- one row

  function Put(t: Flat, a: string, n: Acc): Flat {
    t[a := Plus(if a in t then t[a] else ZERO, n)]
  }

  function PutNested(t: Nested, a: string, b: string, n: Acc): Nested {
    t[a := Put(Inner(t, a), b, n)]
  }

  function AddTo(t: Flat, e: Event, f: Field): Flat {
    if Part(e, f) == "" then t else Put(t, Part(e, f), e.amount)
  }

  function AddToNested(t: Nested, e: Event, f: Field, g: Field): Nested {
    if Part(e, f) == "" || Part(e, g) == "" then t else PutNested(t, Part(e, f), Part(e, g), e.amount)
  }

  lemma {:induction false} SeenSnoc(h: seq<Event>, e: Event, f: Field, a: string, g: Field, b: string)
    ensures Seen(h + [e], f, a, g, b) <==> Seen(h, f, a, g, b) || (Names(e, f, a) && Names(e, g, b))
  {
    var h' := h + [e];
    assert h'[|h|] == e && forall i :: 0 <= i < |h| ==> h'[i] == h[i];
  }

  lemma {:induction false} BetweenSnoc(h: seq<Event>, e: Event, f: Field, a: string, g: Field, b: string)
    ensures Between(h + [e], f, a, g, b)
            == if Names(e, f, a) && Names(e, g, b) then Plus(Between(h, f, a, g, b), e.amount) else Between(h, f, a, g, b)
  {
    var h' := h + [e];
    assert h'[..|h'| - 1] == h && h'[|h'| - 1] == e;
  }

  /** What one more event does to a pair of names. */
  lemma {:induction false} PairSnoc(h: seq<Event>, e: Event, f: Field, a: string, g: Field, b: string)
    ensures Seen(h + [e], f, a, g, b) <==> Seen(h, f, a, g, b) || (Names(e, f, a) && Names(e, g, b))
    ensures !Seen(h, f, a, g, b) ==> Between(h, f, a, g, b) == ZERO
    ensures Between(h + [e], f, a, g, b)
            == if Names(e, f, a) && Names(e, g, b) then Plus(Between(h, f, a, g, b), e.amount) else Between(h, f, a, g, b)
  {
    SeenSnoc(h, e, f, a, g, b);
    BetweenSnoc(h, e, f, a, g, b);
    if !Seen(h, f, a, g, b) {
      UnseenIsZero(h, f, a, g, b);
    }
  }

  lemma {:induction false} UnseenIsZero(h: seq<Event>, f: Field, a: string, g: Field, b: string)
    requires !Seen(h, f, a, g, b)
    ensures Between(h, f, a, g, b) == ZERO
  {
    if h != [] {
      var n := |h| - 1;
      assert forall i :: 0 <= i < n ==> h[..n][i] == h[i];
      UnseenIsZero(h[..n], f, a, g, b);
    }
  }

  lemma {:induction false} FlatStep(t: Flat, h: seq<Event>, e: Event, f: Field)
    requires FlatIs(t, h, f)
    ensures FlatIs(AddTo(t, e, f), h + [e], f)
  {
    forall a | true
      ensures var t' := AddTo(t, e, f);
              (a in t' <==> Seen(h + [e], f, a, f, a)) && (a in t' ==> t'[a] == Of(h + [e], f, a))
    {
      PairSnoc(h, e, f, a, f, a);
    }
  }

  lemma {:induction false} NestedStep(t: Nested, h: seq<Event>, e: Event, f: Field, g: Field)
    requires NestedIs(t, h, f, g)
    ensures NestedIs(AddToNested(t, e, f, g), h + [e], f, g)
  {
    var t' := AddToNested(t, e, f, g);
    forall a, b | true
      ensures (Has(t', a, b) <==> Seen(h + [e], f, a, g, b))
              && (Has(t', a, b) ==> t'[a][b] == Between(h + [e], f, a, g, b))
    {
      PairSnoc(h, e, f, a, g, b);
      assert Has(t, a, b) ==> t[a][b] == Between(h, f, a, g, b);
    }
  }

  /** The seven tables. */
  datatype Book = Book(
    byDev: Flat, byDest: Flat, byReg: Flat, byRegDev: Nested, byRegDest: Nested, byDevDest: Nested, byDestDev: Nested)

  /** The tables are those of the history `h`. */
  ghost predicate BookIs(t: Book, h: seq<Event>) {
    && FlatIs(t.byDev, h, Device) && FlatIs(t.byDest, h, Dest) && FlatIs(t.byReg, h, Region)
    && NestedIs(t.byRegDev, h, Region, Device) && NestedIs(t.byRegDest, h, Region, Dest)
    && NestedIs(t.byDevDest, h, Device, Dest) && NestedIs(t.byDestDev, h, Dest, Device)
  }

  function AddEvent(t: Book, e: Event): Book {
    Book(
      AddTo(t.byDev, e, Device), AddTo(t.byDest, e, Dest), AddTo(t.byReg, e, Region),
      AddToNested(t.byRegDev, e, Region, Device), AddToNested(t.byRegDest, e, Region, Dest),
      AddToNested(t.byDevDest, e, Device, Dest), AddToNested(t.byDestDev, e, Dest, Device))
  }

  lemma {:induction false} BookStep(t: Book, h: seq<Event>, e: Event)
    requires BookIs(t, h)
    ensures BookIs(AddEvent(t, e), h + [e])
  {
    FlatStep(t.byDev, h, e, Device);
    FlatStep(t.byDest, h, e, Dest);
    FlatStep(t.byReg, h, e, Region);
    NestedStep(t.byRegDev, h, e, Region, Device);
    NestedStep(t.byRegDest, h, e, Region, Dest);
    NestedStep(t.byDevDest, h, e, Device, Dest);
    NestedStep(t.byDestDev, h, e, Dest, Device);
  }

  // ---------------------------------------------------------------- the tables

  // ---------------------------------------------------------------- what a pass over a key's rows does, from the rows

  /** Not a marker, of positive weight, and a JSON row. */
  predicate Readable(m: Member) {
    m.text != "_" && m.text != "" && m.score > 0.0 && m.row.Some?
  }

  /** The row's device in upper case, its domain or else its address unless that is unspecified, its region. */
  predicate RowNames(row: Row, f: Field, a: string) {
    a != "" &&
    match f
    case Device => ToUpper(row.device) == a
    case Dest => a != "0.0.0.0" && a == (if row.domain != "" then row.domain else row.destIP)
    case Region => row.region == a
  }

  predicate MemberNames(m: Member, f: Field, a: string, g: Field, b: string) {
    Readable(m) && RowNames(m.row.value, f, a) && RowNames(m.row.value, g, b)
  }

  ghost predicate Mentioned(ms: seq<Member>, f: Field, a: string, g: Field, b: string) {
    exists m <- ms :: MemberNames(m, f, a, g, b)
  }

  /** The whole bytes of the rows that name both ends. */
  function Bytes(ms: seq<Member>, f: Field, a: string, g: Field, b: string): int {
    if ms == [] then 0
    else
      var n := |ms| - 1;
      Bytes(ms[..n], f, a, g, b) + (if MemberNames(ms[n], f, a, g, b) then ms[n].score.Floor else 0)
  }

  /** An upload adds to `up` only, a download to `down` only. */
  predicate Grew(before: Acc, after: Acc, upload: bool, n: int) {
    if upload then after.up == before.up + n && after.down == before.down
    else after.down == before.down + n && after.up == before.up
  }

  function Entry(t: Flat, a: string): Acc {
    if a in t then t[a] else Acc(0, 0)
  }

  ghost predicate FlatRaised(t: Flat, t': Flat, ms: seq<Member>, upload: bool, f: Field) {
    && (forall a :: a in t' <==> a in t || Mentioned(ms, f, a, f, a))
    && (forall a :: a in t' ==> Grew(Entry(t, a), t'[a], upload, Bytes(ms, f, a, f, a)))
  }

  ghost predicate NestedRaised(t: Nested, t': Nested, ms: seq<Member>, upload: bool, f: Field, g: Field) {
    && (forall a, b :: Has(t', a, b) <==> Has(t, a, b) || Mentioned(ms, f, a, g, b))
    && (forall a, b :: Has(t', a, b) ==> Grew(Entry(Inner(t, a), b), t'[a][b], upload, Bytes(ms, f, a, g, b)))
  }

  ghost predicate BookRaised(t: Book, t': Book, ms: seq<Member>, upload: bool) {
    && FlatRaised(t.byDev, t'.byDev, ms, upload, Device)
    && FlatRaised(t.byDest, t'.byDest, ms, upload, Dest)
    && FlatRaised(t.byReg, t'.byReg, ms, upload, Region)
    && NestedRaised(t.byRegDev, t'.byRegDev, ms, upload, Region, Device)
    && NestedRaised(t.byRegDest, t'.byRegDest, ms, upload, Region, Dest)
    && NestedRaised(t.byDevDest, t'.byDevDest, ms, upload, Device, Dest)
    && NestedRaised(t.byDestDev, t'.byDestDev, ms, upload, Dest, Device)
  }

  lemma {:induction false} EventMeans(m: Member, upload: bool)
    ensures EventOf(m, upload).Some? <==> Readable(m)
    ensures Readable(m) ==> Grew(ZERO, EventOf(m, upload).value.amount, upload, m.score.Floor)
    ensures forall f, a :: Readable(m) ==> (Names(EventOf(m, upload).value, f, a) <==> RowNames(m.row.value, f, a))
  {
  }

  lemma {:induction false} EventsSum(ms: seq<Member>, upload: bool, f: Field, a: string, g: Field, b: string)
    ensures Grew(ZERO, Between(EventsOf(ms, upload), f, a, g, b), upload, Bytes(ms, f, a, g, b))
  {
    if ms != [] {
      var n := |ms| - 1;
      EventsSum(ms[..n], upload, f, a, g, b);
      EventMeans(ms[n], upload);
      if Readable(ms[n]) {
        var before, e := EventsOf(ms[..n], upload), EventOf(ms[n], upload).value;
        assert EventsOf(ms, upload) == before + [e];
        BetweenSnoc(before, e, f, a, g, b);
      }
    }
  }

  lemma {:induction false} EventsSeen(ms: seq<Member>, upload: bool, f: Field, a: string, g: Field, b: string)
    ensures Seen(EventsOf(ms, upload), f, a, g, b) <==> Mentioned(ms, f, a, g, b)
  {
    if ms != [] {
      var n := |ms| - 1;
      EventsSeen(ms[..n], upload, f, a, g, b);
      EventMeans(ms[n], upload);
      assert forall m :: m in ms <==> m in ms[..n] || m == ms[n];
      assert Mentioned(ms, f, a, g, b) <==> Mentioned(ms[..n], f, a, g, b) || MemberNames(ms[n], f, a, g, b);
      if Readable(ms[n]) {
        var before, e := EventsOf(ms[..n], upload), EventOf(ms[n], upload).value;
        assert EventsOf(ms, upload) == before + [e];
        SeenSnoc(before, e, f, a, g, b);
      } else {
        assert EventsOf(ms, upload) == EventsOf(ms[..n], upload);
      }
    }
  }

  lemma {:induction false} BetweenConcat(h: seq<Event>, more: seq<Event>, f: Field, a: string, g: Field, b: string)
    ensures Between(h + more, f, a, g, b) == Plus(Between(h, f, a, g, b), Between(more, f, a, g, b))
  {
    if more == [] {
      assert h + more == h;
    } else {
      var rest, e := more[..|more| - 1], more[|more| - 1];
      var most, all := h + rest, h + more;
      assert all == most + [e] && more == rest + [e];
      BetweenConcat(h, rest, f, a, g, b);
      BetweenSnoc(most, e, f, a, g, b);
      BetweenSnoc(rest, e, f, a, g, b);
      var x, y := Between(h, f, a, g, b), Between(rest, f, a, g, b);
      assert Plus(Plus(x, y), e.amount) == Plus(x, Plus(y, e.amount));
    }
  }

  lemma {:induction false} SeenConcat(h: seq<Event>, more: seq<Event>, f: Field, a: string, g: Field, b: string)
    ensures Seen(h + more, f, a, g, b) <==> Seen(h, f, a, g, b) || Seen(more, f, a, g, b)
  {
    var all := h + more;
    assert forall i :: 0 <= i < |h| ==> all[i] == h[i];
    assert forall i :: 0 <= i < |more| ==> all[|h| + i] == more[i];
    if Seen(more, f, a, g, b) {
      var i :| 0 <= i < |more| && Names(more[i], f, a) && Names(more[i], g, b);
      assert Names(all[|h| + i], f, a) && Names(all[|h| + i], g, b);
    }
    if Seen(all, f, a, g, b) {
      var i :| 0 <= i < |all| && Names(all[i], f, a) && Names(all[i], g, b);
      assert i >= |h| ==> all[i] == more[i - |h|];
    }
  }

  /** What the rows add to a pair of ends. */
  lemma {:induction false} RowsAdd(
    h: seq<Event>, ms: seq<Member>, upload: bool, f: Field, a: string, g: Field, b: string)
    ensures Grew(
      Between(h, f, a, g, b), Between(h + EventsOf(ms, upload), f, a, g, b), upload, Bytes(ms, f, a, g, b))
    ensures Seen(h + EventsOf(ms, upload), f, a, g, b) <==> Seen(h, f, a, g, b) || Mentioned(ms, f, a, g, b)
    ensures !Seen(h, f, a, g, b) ==> Between(h, f, a, g, b) == ZERO
  {
    BetweenConcat(h, EventsOf(ms, upload), f, a, g, b);
    SeenConcat(h, EventsOf(ms, upload), f, a, g, b);
    EventsSum(ms, upload, f, a, g, b);
    EventsSeen(ms, upload, f, a, g, b);
    if !Seen(h, f, a, g, b) {
      UnseenIsZero(h, f, a, g, b);
    }
  }

  lemma {:induction false} FlatRaises(t: Flat, t': Flat, h: seq<Event>, ms: seq<Member>, upload: bool, f: Field)
    requires FlatIs(t, h, f) && FlatIs(t', h + EventsOf(ms, upload), f)
    ensures FlatRaised(t, t', ms, upload, f)
  {
    forall a | true
      ensures a in t' <==> a in t || Mentioned(ms, f, a, f, a)
      ensures a in t' ==> Grew(Entry(t, a), t'[a], upload, Bytes(ms, f, a, f, a))
    {
      RowsAdd(h, ms, upload, f, a, f, a);
    }
  }

  lemma {:induction false} NestedRaises(
    t: Nested, t': Nested, h: seq<Event>, ms: seq<Member>, upload: bool, f: Field, g: Field)
    requires NestedIs(t, h, f, g) && NestedIs(t', h + EventsOf(ms, upload), f, g)
    ensures NestedRaised(t, t', ms, upload, f, g)
  {
    forall a, b | true
      ensures Has(t', a, b) <==> Has(t, a, b) || Mentioned(ms, f, a, g, b)
      ensures Has(t', a, b) ==> Grew(Entry(Inner(t, a), b), t'[a][b], upload, Bytes(ms, f, a, g, b))
    {
      RowsAdd(h, ms, upload, f, a, g, b);
      assert Has(t', a, b) ==> t'[a][b] == Between(h + EventsOf(ms, upload), f, a, g, b);
      assert Has(t, a, b) ==> t[a][b] == Between(h, f, a, g, b);
      assert b in Inner(t, a) <==> Has(t, a, b);
    }
  }

  lemma {:induction false} BookRaises(t: Book, t': Book, h: seq<Event>, ms: seq<Member>, upload: bool)
    requires BookIs(t, h) && BookIs(t', h + EventsOf(ms, upload))
    ensures BookRaised(t, t', ms, upload)
  {
    FlatRaises(t.byDev, t'.byDev, h, ms, upload, Device);
    FlatRaises(t.byDest, t'.byDest, h, ms, upload, Dest);
    FlatRaises(t.byReg, t'.byReg, h, ms, upload, Region);
    NestedRaises(t.byRegDev, t'.byRegDev, h, ms, upload, Region, Device);
    NestedRaises(t.byRegDest, t'.byRegDest, h, ms, upload, Region, Dest);
    NestedRaises(t.byDevDest, t'.byDevDest, h, ms, upload, Device, Dest);
    NestedRaises(t.byDestDev, t'.byDestDev, h, ms, upload, Dest, Device);
  }

  function MembersOf(key: Option<seq<Member>>): seq<Member> {
    if key.None? then [] else key.value
  }

  /** All members of the keys, one key after the other. */
  function AllMembers(keys: seq<Option<seq<Member>>>): seq<Member> {
    if keys == [] then [] else AllMembers(keys[..|keys| - 1]) + MembersOf(keys[|keys| - 1])
  }

  ghost predicate SomeReadable(ms: seq<Member>) {
    exists m <- ms :: Readable(m)
  }

  lemma {:induction false} EventsConcat(xs: seq<Member>, ys: seq<Member>, upload: bool)
    ensures EventsOf(xs + ys, upload) == EventsOf(xs, upload) + EventsOf(ys, upload)
  {
    if ys == [] {
      assert xs + ys == xs;
    } else {
      var n := |ys| - 1;
      EventsConcat(xs, ys[..n], upload);
      assert (xs + ys)[..|xs + ys| - 1] == xs + ys[..n];
    }
  }

  lemma {:induction false} AllRowsAreMembers(keys: seq<Option<seq<Member>>>, upload: bool)
    ensures AllRows(keys, upload) == EventsOf(AllMembers(keys), upload)
  {
    if keys != [] {
      var n := |keys| - 1;
      AllRowsAreMembers(keys[..n], upload);
      EventsConcat(AllMembers(keys[..n]), MembersOf(keys[n]), upload);
    }
  }

  lemma {:induction false} RowsIffReadable(ms: seq<Member>, upload: bool)
    ensures EventsOf(ms, upload) != [] <==> SomeReadable(ms)
  {
    if ms != [] {
      var n := |ms| - 1;
      RowsIffReadable(ms[..n], upload);
      EventMeans(ms[n], upload);
      assert forall m :: m in ms <==> m in ms[..n] || m == ms[n];
    }
  }

  // ---------------------------------------------------------------- the object

  class Tables {
    var byDev: Flat
    var byDest: Flat
    var byReg: Flat
    var byRegDev: Nested
    var byRegDest: Nested
    var byDevDest: Nested
    var byDestDev: Nested

    function Contents(): Book
      reads this
    {
      Book(byDev, byDest, byReg, byRegDev, byRegDest, byDevDest, byDestDev)
    }

    ghost predicate Holds(h: seq<Event>)
      reads this
    {
      BookIs(Contents(), h)
    }

    constructor ()
      ensures Holds([])
    {
      byDev, byDest, byReg := map[], map[], map[];
      byRegDev, byRegDest, byDevDest, byDestDev := map[], map[], map[], map[];
    }

    /**
      * accumulateSumflowKey on the members of one key; None when the read failed. `got` says some row was readable.
      * What the pass did is said of the rows: an upload raises `up` alone, a download `down` alone, at every end and pair
      * of ends that a readable row names, by the whole bytes of those rows.
      */
    method AccumulateKey(members: Option<seq<Member>>, upload: bool, ghost h: seq<Event>) returns (got: bool)
      requires Holds(h)
      modifies this
      ensures got <==> SomeReadable(MembersOf(members))
      ensures Holds(h + RowsOf(members, upload))
      ensures BookRaised(old(Contents()), Contents(), MembersOf(members), upload)
    {
      got := AddKey(members, upload, h);
      assert RowsOf(members, upload) == EventsOf(MembersOf(members), upload);
      RowsIffReadable(MembersOf(members), upload);
      BookRaises(old(Contents()), Contents(), h, MembersOf(members), upload);
    }

    method AddKey(members: Option<seq<Member>>, upload: bool, ghost h: seq<Event>) returns (got: bool)
      requires Holds(h)
      modifies this
      ensures got <==> RowsOf(members, upload) != []
      ensures Holds(h + RowsOf(members, upload))
    {
      assert h + [] == h;
      if members.None? {
        return false;
      }
      got := false;
      var ms := members.value;
      for i := 0 to |ms|
        invariant got <==> EventsOf(ms[..i], upload) != []
        invariant Holds(h + EventsOf(ms[..i], upload))
      {
        ghost var before := EventsOf(ms[..i], upload);
        assert ms[..i + 1][..i] == ms[..i];
        var m := ms[i];
        if m.text == "_" || m.text == "" || m.score <= 0.0 || m.row.None? {
          continue;
        }
        got := true;
        ghost var e := EventOf(m, upload).value;
        TakeRow(m.row.value, upload, m.score.Floor, h + before, e);
        assert h + before + [e] == h + (before + [e]);
      }
      assert ms[..|ms|] == ms;
    }

    /** accumulateSumflow: the rows of the current key if it has a readable one, or else those of the hourly keys. */
    method Accumulate(current: Option<seq<Member>>, hourly: seq<Option<seq<Member>>>, upload: bool, ghost h: seq<Event>)
      requires Holds(h)
      modifies this
      ensures BookRaised(
        old(Contents()), Contents(),
        if SomeReadable(MembersOf(current)) then MembersOf(current) else AllMembers(hourly), upload)
      ensures Holds(h + if RowsOf(current, upload) != [] then RowsOf(current, upload) else AllRows(hourly, upload))
    {
      RowsIffReadable(MembersOf(current), upload);
      var got := AddKey(current, upload, h);
      if got {
        BookRaises(old(Contents()), Contents(), h, MembersOf(current), upload);
        return;
      }
      assert h + [] == h;
      AddHourly(hourly, upload, h);
      AllRowsAreMembers(hourly, upload);
      BookRaises(old(Contents()), Contents(), h, AllMembers(hourly), upload);
    }

    method AddHourly(hourly: seq<Option<seq<Member>>>, upload: bool, ghost h: seq<Event>)
      requires Holds(h)
      modifies this
      ensures Holds(h + AllRows(hourly, upload))
    {
      assert h + [] == h;
      for i := 0 to |hourly|
        invariant Holds(h + AllRows(hourly[..i], upload))
      {
        assert hourly[..i + 1][..i] == hourly[..i];
        ghost var before := AllRows(hourly[..i], upload);
        ghost var rows := RowsOf(hourly[i], upload);
        var got := AddKey(hourly[i], upload, h + before);
        assert h + before + rows == h + (before + rows);
      }
      assert hourly[..|hourly|] == hourly;
    }

    method TakeRow(row: Row, upload: bool, bytes: int, ghost h: seq<Event>, ghost e: Event)
      requires Holds(h)
      requires e == Event(ToUpper(row.device), DestOf(row), row.region, Amount(upload, bytes))
      modifies this
      ensures Holds(h + [e])
    {
      BookStep(Contents(), h, e);
      AddRow(row, upload, bytes, e);
    }

    /** One row that is not skipped. */
    method AddRow(row: Row, upload: bool, bytes: int, ghost e: Event)
      requires e == Event(ToUpper(row.device), DestOf(row), row.region, Amount(upload, bytes))
      modifies this
      ensures Contents() == AddEvent(old(Contents()), e)
    {
      var mac := "";
      if row.device != "" {
        mac := ToUpper(row.device);
        byDev := AddDir(byDev, mac, upload, bytes);
      }
      var dest := row.domain;
      if dest == "" {
        dest := row.destIP;
      }
      if dest == "0.0.0.0" {
        dest := "";
      }
      if dest != "" {
        byDest := AddDir(byDest, dest, upload, bytes);
      }
      if row.region != "" {
        byReg := AddDir(byReg, row.region, upload, bytes);
      }
      AddPairs(mac, dest, row.region, upload, bytes, e);
    }

    /** The four nested tables, for the ends that the row names. */
    method AddPairs(mac: string, dest: string, region: string, upload: bool, bytes: int, ghost e: Event)
      requires e == Event(mac, dest, region, Amount(upload, bytes))
      modifies this`byRegDev, this`byRegDest, this`byDevDest, this`byDestDev
      ensures byRegDev == AddToNested(old(byRegDev), e, Region, Device)
      ensures byRegDest == AddToNested(old(byRegDest), e, Region, Dest)
      ensures byDevDest == AddToNested(old(byDevDest), e, Device, Dest)
      ensures byDestDev == AddToNested(old(byDestDev), e, Dest, Device)
    {
      if region != "" {
        if mac != "" {
          byRegDev := BumpNested(byRegDev, region, mac, upload, bytes);
        }
        if dest != "" {
          byRegDest := BumpNested(byRegDest, region, dest, upload, bytes);
        }
      }
      if mac != "" && dest != "" {
        byDevDest := BumpNested(byDevDest, mac, dest, upload, bytes);
        byDestDev := BumpNested(byDestDev, dest, mac, upload, bytes);
      }
    }
  }

  method AddDir(t: Flat, a: string, upload: bool, n: int) returns (t': Flat)
    ensures t' == Put(t, a, Amount(upload, n))
    ensures t'.Keys == t.Keys + {a} && Grew(Entry(t, a), t'[a], upload, n)
    ensures forall b <- t :: b != a ==> t'[b] == t[b]
  {
    var acc := if a in t then t[a] else ZERO;
    acc := if upload then acc.(up := acc.up + n) else acc.(down := acc.down + n);
    t' := t[a := acc];
  }

  method BumpNested(t: Nested, outer: string, id: string, upload: bool, n: int) returns (t': Nested)
    ensures t' == PutNested(t, outer, id, Amount(upload, n))
    ensures Has(t', outer, id) && Grew(Entry(Inner(t, outer), id), t'[outer][id], upload, n)
    ensures forall a, b :: a != outer || b != id ==>
              (Has(t', a, b) <==> Has(t, a, b)) && (Has(t, a, b) ==> t'[a][b] == t[a][b])
  {
    var inner := if outer in t then t[outer] else map[];
    inner := AddDir(inner, id, upload, n);
    t' := t[outer := inner];
  }

  // ---------------------------------------------------------------- what the totals add up to

  /** The sum of a table's entries. */
  ghost function Total(t: Flat): Acc {
    if t == map[] then ZERO
    else
      var a :| a in t;
      Plus(t[a], Total(t - {a}))
  }

  lemma {:induction false} TotalAt(t: Flat, a: string)
    requires a in t
    ensures Total(t) == Plus(t[a], Total(t - {a}))
    decreases |t|
  {
    var first :| first in t && Total(t) == Plus(t[first], Total(t - {first}));
    if first != a {
      var noFirst, noA := t - {first}, t - {a};
      TotalAt(noFirst, a);
      TotalAt(noA, first);
      assert noFirst - {a} == noA - {first};
      assert noFirst[a] == t[a] && noA[first] == t[first];
      assert Plus(t[first], Plus(t[a], Total(noA - {first}))) == Plus(t[a], Plus(t[first], Total(noA - {first})));
    }
  }

  lemma {:induction false} TotalPut(t: Flat, a: string, n: Acc)
    ensures Total(Put(t, a, n)) == Plus(Total(t), n)
  {
    var t' := Put(t, a, n);
    TotalAt(t', a);
    if a in t {
      TotalAt(t, a);
      assert t' - {a} == t - {a};
    } else {
      assert t' - {a} == t;
    }
  }

  /** The table of what flowed between `a` and each `g`. */
  function Spread(h: seq<Event>, f: Field, a: string, g: Field): Flat {
    if h == [] then map[]
    else
      var n := |h| - 1;
      var before := Spread(h[..n], f, a, g);
      if Names(h[n], f, a) && Part(h[n], g) != "" then Put(before, Part(h[n], g), h[n].amount) else before
  }

  lemma {:induction false} SpreadAt(h: seq<Event>, f: Field, a: string, g: Field, b: string)
    ensures b in Spread(h, f, a, g) <==> Seen(h, f, a, g, b)
    ensures b in Spread(h, f, a, g) ==> Spread(h, f, a, g)[b] == Between(h, f, a, g, b)
  {
    if h != [] {
      var n := |h| - 1;
      assert h[..n] + [h[n]] == h;
      SpreadAt(h[..n], f, a, g, b);
      PairSnoc(h[..n], h[n], f, a, g, b);
    }
  }

  lemma {:induction false} SpreadTotal(h: seq<Event>, f: Field, a: string, g: Field)
    ensures Of(h, f, a) == Plus(Total(Spread(h, f, a, g)), Lacking(h, f, a, g))
  {
    if h != [] {
      var n := |h| - 1;
      SpreadTotal(h[..n], f, a, g);
      if Names(h[n], f, a) && Part(h[n], g) != "" {
        TotalPut(Spread(h[..n], f, a, g), Part(h[n], g), h[n].amount);
      }
    }
  }

  /** Each total is the sum of its nested entries and the bytes of the rows that lack the other end. */
  lemma {:induction false} TotalsAddUp(h: seq<Event>, flat: Flat, nested: Nested, f: Field, g: Field, a: string)
    requires FlatIs(flat, h, f) && NestedIs(nested, h, f, g) && a in flat
    ensures flat[a] == Plus(Total(Inner(nested, a)), Lacking(h, f, a, g))
  {
    forall b | true
      ensures b in Inner(nested, a) <==> b in Spread(h, f, a, g)
      ensures b in Inner(nested, a) ==> Inner(nested, a)[b] == Spread(h, f, a, g)[b]
    {
      SpreadAt(h, f, a, g, b);
      assert b in Inner(nested, a) <==> Has(nested, a, b);
    }
    assert Inner(nested, a) == Spread(h, f, a, g);
    SpreadTotal(h, f, a, g);
  }

  /** The two nested tables of a pair of ends are each other's transpose. */
  lemma {:induction false} Transposes(h: seq<Event>, t: Nested, back: Nested, f: Field, g: Field, a: string, b: string)
    requires NestedIs(t, h, f, g) && NestedIs(back, h, g, f)
    ensures Has(t, a, b) <==> Has(back, b, a)
    ensures Has(t, a, b) ==> t[a][b] == back[b][a]
  {
    BetweenSwaps(h, f, a, g, b);
    assert Seen(h, f, a, g, b) <==> Seen(h, g, b, f, a);
  }

  lemma {:induction false} BetweenSwaps(h: seq<Event>, f: Field, a: string, g: Field, b: string)
    ensures Between(h, f, a, g, b) == Between(h, g, b, f, a)
  {
    if h != [] {
      BetweenSwaps(h[..|h| - 1], f, a, g, b);
    }
  }

  ghost predicate AddsUp(flat: Flat, nested: Nested, h: seq<Event>, f: Field, g: Field) {
    forall a <- flat :: flat[a] == Plus(Total(Inner(nested, a)), Lacking(h, f, a, g))
  }

  ghost predicate Transposed(t: Nested, back: Nested) {
    && (forall a, b :: Has(t, a, b) <==> Has(back, b, a))
    && (forall a, b :: Has(t, a, b) ==> t[a][b] == back[b][a])
  }

  /** Whatever rows came in, the seven tables fit together. */
  lemma {:induction false} TablesAgree(t: Book, h: seq<Event>)
    requires BookIs(t, h)
    ensures Transposed(t.byDevDest, t.byDestDev)
    ensures AddsUp(t.byDev, t.byDevDest, h, Device, Dest) && AddsUp(t.byDest, t.byDestDev, h, Dest, Device)
    ensures AddsUp(t.byReg, t.byRegDev, h, Region, Device) && AddsUp(t.byReg, t.byRegDest, h, Region, Dest)
  {
    forall a, b | true
      ensures Has(t.byDevDest, a, b) <==> Has(t.byDestDev, b, a)
      ensures Has(t.byDevDest, a, b) ==> t.byDevDest[a][b] == t.byDestDev[b][a]
    {
      Transposes(h, t.byDevDest, t.byDestDev, Device, Dest, a, b);
    }
    forall a | a in t.byDev
      ensures t.byDev[a] == Plus(Total(Inner(t.byDevDest, a)), Lacking(h, Device, a, Dest))
    {
      TotalsAddUp(h, t.byDev, t.byDevDest, Device, Dest, a);
    }
    forall a | a in t.byDest
      ensures t.byDest[a] == Plus(Total(Inner(t.byDestDev, a)), Lacking(h, Dest, a, Device))
    {
      TotalsAddUp(h, t.byDest, t.byDestDev, Dest, Device, a);
    }
    forall a | a in t.byReg
      ensures t.byReg[a] == Plus(Total(Inner(t.byRegDev, a)), Lacking(h, Region, a, Device))
      ensures t.byReg[a] == Plus(Total(Inner(t.byRegDest, a)), Lacking(h, Region, a, Dest))
    {
      TotalsAddUp(h, t.byReg, t.byRegDev, Region, Device, a);
      TotalsAddUp(h, t.byReg, t.byRegDest, Region, Dest, a);
    }
  }
}
