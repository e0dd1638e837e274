/** Name sync of server/internal/unifi: names.go (diff), apply.go (writes), autofill.go (empty aliases only). */
module NameSync {
  import opened Text
  import opened MacText
  import Sorting

  datatype Host = Host(mac: string, name: string, localDomain: string, ip: string)

  datatype User = User(id: string, mac: string, name: string, hostname: string, ip: string)

  datatype State = Empty | Conflict

  datatype NameRow = NameRow(mac: string, ip: string, firewalla: string, unifi: string, status: State)

  predicate UsableName(name: string, mac: string) {
    Trim(name) != "" && MacKey(Trim(name)) != MacKey(mac)
  }

  function FirewallaName(h: Host): string {
    if UsableName(Trim(h.name), h.mac) then Trim(h.name)
    else if UsableName(Trim(h.localDomain), h.mac) then Trim(h.localDomain)
    else ""
  }

  function UnifiAlias(u: User): string {
    if UsableName(u.name, u.mac) then Trim(u.name) else ""
  }

  function UnifiDisplay(u: User): string {
    if UnifiAlias(u) != "" then UnifiAlias(u)
    else if UsableName(u.hostname, u.mac) then Trim(u.hostname)
    else ""
  }

  /** Neither blank nor just the MAC in some spelling. */
  predicate Telling(name: string, mac: string) {
    name != "" && MacKey(name) != MacKey(mac)
  }

  /** The host's own name if it tells something, else its local domain if that does. */
  lemma {:induction false} FirewallaNameMeans(h: Host)
    ensures var name, domain := Trim(h.name), Trim(h.localDomain);
            FirewallaName(h) == if Telling(name, h.mac) then name else if Telling(domain, h.mac) then domain else ""
  {
    TrimIsTrimmed(h.name);
    TrimIsTrimmed(h.localDomain);
  }

  /** The user's alias if it tells something; what is shown is that, or else a telling hostname. */
  lemma {:induction false} UnifiNamesMean(u: User)
    ensures UnifiAlias(u) == if Telling(Trim(u.name), u.mac) then Trim(u.name) else ""
    ensures UnifiDisplay(u) ==
            if Telling(Trim(u.name), u.mac) then Trim(u.name)
            else if Telling(Trim(u.hostname), u.mac) then Trim(u.hostname) else ""
  {
  }

  /** Users by MAC key; later ones win. */
  function ByKey(users: seq<User>): (m: map<string, User>)
    ensures forall k :: k in m ==> m[k] in users && MacKey(m[k].mac) == k
  {
    if users == [] then map[]
    else
      var last := users[|users| - 1];
      ByKey(users[..|users| - 1])[MacKey(last.mac) := last]
  }

  /** The row for one host, if its UniFi alias is missing or different. */
  function RowFor(h: Host, users: map<string, User>, hw: set<string>): Option<NameRow> {
    var k := MacKey(h.mac);
    var fw := FirewallaName(h);
    if k in hw || fw == "" || k !in users then None
    else
      var u := users[k];
      var alias := UnifiAlias(u);
      if alias != "" && EqualFold(Trim(fw), Trim(alias)) then None
      else
        var ip := if Trim(h.ip) == "" then Trim(u.ip) else Trim(h.ip);
        Some(NameRow(NormalizeMac(h.mac), ip, fw, UnifiDisplay(u), if alias == "" then Empty else Conflict))
  }

  /**
    * A host has a row when it is not hardware, has a name and a UniFi user, and that user's alias is missing or another
    * name. The row carries the host's MAC and name, its address or else the user's, and what UniFi shows.
    */
  lemma {:induction false} RowForMeans(h: Host, users: map<string, User>, hw: set<string>)
    ensures var k, fw := MacKey(h.mac), FirewallaName(h);
            RowFor(h, users, hw).Some? <==>
            && k !in hw && fw != "" && k in users
            && (UnifiAlias(users[k]) == "" || !EqualFold(Trim(fw), Trim(UnifiAlias(users[k]))))
    ensures RowFor(h, users, hw).Some? ==>
            var u, r := users[MacKey(h.mac)], RowFor(h, users, hw).value;
            && r.mac == NormalizeMac(h.mac) && r.firewalla == FirewallaName(h) && r.unifi == UnifiDisplay(u)
            && (r.status == Empty <==> UnifiAlias(u) == "")
            && r.ip == if Trim(h.ip) != "" then Trim(h.ip) else Trim(u.ip)
  {
  }

  /** The users by keys that are at hand. */
  function Indexed(users: seq<User>, keys: seq<string>): map<string, User>
    requires |keys| == |users|
  {
    if users == [] then map[]
    else
      var n := |users| - 1;
      Indexed(users[..n], keys[..n])[keys[n] := users[n]]
  }

  /** The user found for a key is the last one that has it. */
  lemma {:induction false} IndexedIsLast(users: seq<User>, keys: seq<string>, i: nat)
    requires i < |users| == |keys| && forall j :: i < j < |keys| ==> keys[j] != keys[i]
    ensures keys[i] in Indexed(users, keys) && Indexed(users, keys)[keys[i]] == users[i]
  {
    var n := |users| - 1;
    if i < n {
      assert keys[n] != keys[i];
      assert forall j :: i < j < n ==> keys[..n][j] == keys[j];
      IndexedIsLast(users[..n], keys[..n], i);
    }
  }

  lemma {:induction false} ByKeyIsIndexed(users: seq<User>, keys: seq<string>)
    requires |keys| == |users| && forall j :: 0 <= j < |keys| ==> keys[j] == MacKey(users[j].mac)
    ensures ByKey(users) == Indexed(users, keys)
  {
    if users != [] {
      var n := |users| - 1;
      assert keys[n] == MacKey(users[n].mac);
      ByKeyIsIndexed(users[..n], keys[..n]);
    }
  }

  function RowsFor(hosts: seq<Host>, users: map<string, User>, hw: set<string>): seq<NameRow> {
    if hosts == [] then []
    else
      var n := |hosts| - 1;
      WithRow(RowsFor(hosts[..n], users, hw), RowFor(hosts[n], users, hw))
  }

  function WithRow(rows: seq<NameRow>, r: Option<NameRow>): seq<NameRow> {
    match r
    case Some(row) => rows + [row]
    case None => rows
  }

  /** How many hosts have this row. */
  function HostsWith(hosts: seq<Host>, users: map<string, User>, hw: set<string>, r: NameRow): nat {
    if hosts == [] then 0
    else (if RowFor(hosts[0], users, hw) == Some(r) then 1 else 0) + HostsWith(hosts[1..], users, hw, r)
  }

  lemma {:induction false} RowsCount(hosts: seq<Host>, users: map<string, User>, hw: set<string>, r: NameRow)
    ensures multiset(RowsFor(hosts, users, hw))[r] == HostsWith(hosts, users, hw, r)
  {
    if hosts != [] {
      var n := |hosts| - 1;
      var row := RowFor(hosts[n], users, hw);
      RowsCount(hosts[..n], users, hw, r);
      HostsWithLast(hosts[..n], hosts[n], users, hw, r);
      assert hosts[..n] + [hosts[n]] == hosts;
      WithRowCount(RowsFor(hosts[..n], users, hw), row, r);
    }
  }

  lemma {:induction false} WithRowCount(rows: seq<NameRow>, row: Option<NameRow>, r: NameRow)
    ensures multiset(WithRow(rows, row))[r] == multiset(rows)[r] + if row == Some(r) then 1 else 0
  {
  }

  lemma {:induction false} HostsWithLast(hosts: seq<Host>, h: Host, users: map<string, User>, hw: set<string>, r: NameRow)
    ensures HostsWith(hosts + [h], users, hw, r) == HostsWith(hosts, users, hw, r) + HostsWith([h], users, hw, r)
  {
    if hosts != [] {
      HostsWithLast(hosts[1..], h, users, hw, r);
      assert (hosts + [h])[1..] == hosts[1..] + [h];
    } else {
      assert hosts + [h] == [h];
    }
  }

  predicate RowLess(a: NameRow, b: NameRow) {
    if a.status != b.status then a.status.Conflict?
    else Less(ToLower(a.firewalla), ToLower(b.firewalla))
  }

  // ---------------------------------------------------------------- the diff loop

  function KeySet(macs: seq<string>): set<string> {
    if macs == [] then {} else KeySet(macs[..|macs| - 1]) + {MacKey(macs[|macs| - 1])}
  }

  ghost predicate KeyOfSome(macs: seq<string>, k: string, blanks: bool) {
    exists m <- macs :: MacKey(m) == k && (blanks || Trim(m) != "")
  }

  lemma {:induction false} KeySetMeans(macs: seq<string>)
    ensures forall k :: k in KeySet(macs) <==> KeyOfSome(macs, k, true)
  {
    if macs != [] {
      var n := |macs| - 1;
      KeySetMeans(macs[..n]);
      KeyOfLast(macs[..n], macs[n], true);
      assert macs[..n] + [macs[n]] == macs;
    }
  }

  lemma {:induction false} KeyOfLast(macs: seq<string>, last: string, blanks: bool)
    ensures forall k :: KeyOfSome(macs + [last], k, blanks) <==>
                        KeyOfSome(macs, k, blanks) || (MacKey(last) == k && (blanks || Trim(last) != ""))
  {
    var all, key, counts := macs + [last], MacKey(last), blanks || Trim(last) != "";
    assert forall m :: m in all <==> m in macs || m == last;
    forall k ensures KeyOfSome(all, k, blanks) <==> KeyOfSome(macs, k, blanks) || (key == k && counts) {
      if KeyOfSome(macs, k, blanks) {
        var m :| m in macs && MacKey(m) == k && (blanks || Trim(m) != "");
        assert m in all;
      }
      if key == k && counts {
        assert last in all;
      }
    }
  }

  method CollectKeys(macs: seq<string>) returns (keys: set<string>)
    ensures keys == KeySet(macs)
  {
    keys := {};
    for i := 0 to |macs|
      invariant keys == KeySet(macs[..i])
    {
      assert macs[..i + 1][..i] == macs[..i];
      keys := keys + {MacKey(macs[i])};
    }
    assert macs[..|macs|] == macs;
  }

  method IndexUsers(users: seq<User>) returns (m: map<string, User>)
    ensures m == ByKey(users)
  {
    m := map[];
    for i := 0 to |users|
      invariant m == ByKey(users[..i])
    {
      assert users[..i + 1][..i] == users[..i];
      m := m[MacKey(users[i].mac) := users[i]];
    }
    assert users[..|users|] == users;
  }

  lemma {:induction false} RowOrder()
    ensures Sorting.StrictWeakOrder(RowLess)
  {
    forall a, b | RowLess(a, b) ensures !RowLess(b, a) {
      LessTotal(ToLower(a.firewalla), ToLower(b.firewalla));
    }
    forall a, b, c | !RowLess(b, a) && !RowLess(c, b) ensures !RowLess(c, a) {
      if a.status == b.status == c.status {
        NotAfterTransitive(ToLower(a.firewalla), ToLower(b.firewalla), ToLower(c.firewalla));
      }
    }
  }

  /** Conflicts come before empty names, and equal kinds by name in any case. */
  ghost predicate InListOrder(a: NameRow, b: NameRow) {
    && (b.status.Conflict? ==> a.status.Conflict?)
    && (a.status == b.status ==> !Less(ToLower(b.firewalla), ToLower(a.firewalla)))
  }

  /** `Diff`: exactly the hosts' rows, conflicts first and then by name. The final sort may order ties either way. */
  method Diff(hosts: seq<Host>, users: seq<User>, hardware: seq<string>) returns (rows: seq<NameRow>)
    ensures multiset(rows) == multiset(RowsFor(hosts, ByKey(users), KeySet(hardware)))
    ensures forall i, j :: 0 <= i < j < |rows| ==> InListOrder(rows[i], rows[j])
  {
    var hw := CollectKeys(hardware);
    var m := IndexUsers(users);
    var found: seq<NameRow> := [];
    for i := 0 to |hosts|
      invariant found == RowsFor(hosts[..i], m, hw)
    {
      assert hosts[..i + 1][..i] == hosts[..i];
      var row := RowFor(hosts[i], m, hw);
      if row.Some? {
        found := found + [row.value];
      }
    }
    assert hosts[..|hosts|] == hosts;
    rows := Sorting.Sort(found, RowLess);
    SortLists(found);
  }

  lemma {:induction false} SortLists(found: seq<NameRow>)
    ensures var rows := Sorting.Sort(found, RowLess);
            && multiset(rows) == multiset(found)
            && forall i, j :: 0 <= i < j < |rows| ==> InListOrder(rows[i], rows[j])
  {
    var rows := Sorting.Sort(found, RowLess);
    RowOrder();
    Sorting.SortSorted(found, RowLess);
    Sorting.SortPermutes(found, RowLess);
    forall i, j | 0 <= i < j < |rows| ensures InListOrder(rows[i], rows[j]) {
      assert !RowLess(rows[j], rows[i]);
    }
  }

  // ---------------------------------------------------------------- choosing rows

  /** The rows whose MAC is, or is not, among the keys, in order. */
  function Keep(rows: seq<NameRow>, keys: set<string>, inside: bool): seq<NameRow> {
    if rows == [] then []
    else
      var n := |rows| - 1;
      var rest := Keep(rows[..n], keys, inside);
      if (MacKey(rows[n].mac) in keys) == inside then rest + [rows[n]] else rest
  }

  lemma {:induction false} KeepLengths(rows: seq<NameRow>, keys: set<string>)
    ensures |Keep(rows, keys, false)| + |Keep(rows, keys, true)| == |rows|
  {
    if rows != [] {
      KeepLengths(rows[..|rows| - 1], keys);
    }
  }

  /** The rows that are marked, in order. */
  function Marked(rows: seq<NameRow>, marks: seq<bool>): seq<NameRow>
    requires |marks| == |rows|
  {
    if rows == [] then []
    else (if marks[0] then [rows[0]] else []) + Marked(rows[1..], marks[1..])
  }

  lemma {:induction false} MarkedLast(rows: seq<NameRow>, marks: seq<bool>)
    requires |marks| == |rows| > 0
    ensures var n := |rows| - 1;
            Marked(rows, marks) == Marked(rows[..n], marks[..n]) + if marks[n] then [rows[n]] else []
  {
    var n := |rows| - 1;
    if n > 0 {
      MarkedLast(rows[1..], marks[1..]);
      assert rows[..n][1..] == rows[1..][..n - 1] && marks[..n][1..] == marks[1..][..n - 1];
    } else {
      assert marks[1..] == [] && rows[1..] == [];
    }
  }

  /** Kept are the rows marked for their own MAC. */
  lemma {:induction false} KeepIsMarked(rows: seq<NameRow>, keys: set<string>, inside: bool, marks: seq<bool>)
    requires |marks| == |rows| && forall i :: 0 <= i < |rows| ==> (marks[i] <==> (MacKey(rows[i].mac) in keys <==> inside))
    ensures Keep(rows, keys, inside) == Marked(rows, marks)
  {
    if rows != [] {
      var n := |rows| - 1;
      assert marks[n] <==> (MacKey(rows[n].mac) in keys <==> inside);
      KeepIsMarked(rows[..n], keys, inside, marks[..n]);
      MarkedLast(rows, marks);
    }
  }

  /** `PartitionExcluded`: excluded MACs aside, order kept, nothing lost. */
  method PartitionExcluded(rows: seq<NameRow>, excluded: seq<string>) returns (active: seq<NameRow>, ignored: seq<NameRow>)
    ensures var skip := KeySet(excluded);
            active == Keep(rows, skip, false) && ignored == Keep(rows, skip, true)
    ensures |active| + |ignored| == |rows|
  {
    var skip := CollectKeys(excluded);
    active, ignored := [], [];
    for i := 0 to |rows|
      invariant active == Keep(rows[..i], skip, false) && ignored == Keep(rows[..i], skip, true)
    {
      assert rows[..i + 1][..i] == rows[..i];
      if MacKey(rows[i].mac) in skip {
        ignored := ignored + [rows[i]];
      } else {
        active := active + [rows[i]];
      }
    }
    assert rows[..|rows|] == rows;
    KeepLengths(rows, skip);
  }

  /** No wanted MACs means no filter. */
  predicate Wanted(r: NameRow, want: set<string>, emptyOnly: bool) {
    (emptyOnly ==> r.status == Empty) && (want != {} ==> MacKey(r.mac) in want) && Trim(r.firewalla) != ""
  }

  function Select(rows: seq<NameRow>, want: set<string>, emptyOnly: bool): (out: seq<NameRow>)
    ensures forall r :: r in out <==> r in rows && Wanted(r, want, emptyOnly)
  {
    if rows == [] then []
    else
      var n := |rows| - 1;
      assert rows == rows[..n] + [rows[n]];
      var rest := Select(rows[..n], want, emptyOnly);
      if Wanted(rows[n], want, emptyOnly) then rest + [rows[n]] else rest
  }

  lemma {:induction false} SelectConcat(a: seq<NameRow>, b: seq<NameRow>, want: set<string>, emptyOnly: bool)
    ensures Select(a + b, want, emptyOnly) == Select(a, want, emptyOnly) + Select(b, want, emptyOnly)
    ensures |a| == 1 ==> Select(a, want, emptyOnly) == if Wanted(a[0], want, emptyOnly) then a else []
  {
    if b == [] {
      assert a + b == a;
    } else {
      var n := |b| - 1;
      SelectConcat(a, b[..n], want, emptyOnly);
      assert (a + b)[..|a + b| - 1] == a + b[..n];
    }
  }

  function WantedKeys(macs: seq<string>): set<string> {
    if macs == [] then {}
    else
      var n := |macs| - 1;
      if Trim(macs[n]) != "" then WantedKeys(macs[..n]) + {MacKey(macs[n])} else WantedKeys(macs[..n])
  }

  lemma {:induction false} WantedKeysMean(macs: seq<string>)
    ensures forall k :: k in WantedKeys(macs) <==> KeyOfSome(macs, k, false)
  {
    if macs != [] {
      var n := |macs| - 1;
      WantedKeysMean(macs[..n]);
      KeyOfLast(macs[..n], macs[n], false);
      assert macs[..n] + [macs[n]] == macs;
    }
  }

  method CollectWanted(macs: seq<string>) returns (want: set<string>, filter: bool)
    ensures want == WantedKeys(macs) && (filter <==> want != {})
  {
    want, filter := {}, false;
    for i := 0 to |macs|
      invariant want == WantedKeys(macs[..i]) && (filter <==> want != {})
    {
      assert macs[..i + 1][..i] == macs[..i];
      if Trim(macs[i]) != "" {
        want := want + {MacKey(macs[i])};
        filter := true;
      }
    }
    assert macs[..|macs|] == macs;
  }

  method SelectRows(rows: seq<NameRow>, macs: seq<string>, emptyOnly: bool) returns (out: seq<NameRow>)
    ensures out == Select(rows, WantedKeys(macs), emptyOnly)
  {
    var want, filter := CollectWanted(macs);
    out := [];
    for i := 0 to |rows|
      invariant out == Select(rows[..i], want, emptyOnly)
    {
      assert rows[..i + 1][..i] == rows[..i];
      var r := rows[i];
      if !(emptyOnly && r.status != Empty) && !(filter && MacKey(r.mac) !in want) && Trim(r.firewalla) != "" {
        out := out + [r];
      }
    }
    assert rows[..|rows|] == rows;
  }

  // ---------------------------------------------------------------- writing aliases

  /** The controller's reply to one PUT. */
  datatype Reply = Accepted | Rejected(code: int, text: string)

  function Message(r: Reply): string
    requires r.Rejected?
  {
    "HTTP " + r.text
  }

  /** What two attempts come to: a 429 is tried once more. */
  function Outcome(attempt: (Reply, Reply)): Reply {
    if attempt.0.Rejected? && attempt.0.code == 429 then attempt.1 else attempt.0
  }

  datatype ApplyResult = ApplyResult(mac: string, ok: bool, error: string)

  /** The user table after a successful PUT. */
  function Put(users: seq<User>, id: string, name: string): seq<User> {
    seq(|users|, i requires 0 <= i < |users| => if users[i].id == id then users[i].(name := name) else users[i])
  }

  predicate Denied(r: Reply) {
    r.Rejected? && (r.code == 401 || r.code == 403)
  }

  /** The user id a row is written to, if the user database has one. */
  function Target(m: map<string, User>, r: NameRow): Option<string> {
    var k := MacKey(r.mac);
    if k in m && m[k].id != "" then Some(m[k].id) else None
  }

  function Targets(m: map<string, User>, rows: seq<NameRow>): (ts: seq<Option<string>>)
    ensures |ts| == |rows|
  {
    seq(|rows|, i requires 0 <= i < |rows| => Target(m, rows[i]))
  }

  /** The results so far, the user table now, and the abort message. */
  datatype Progress = Progress(out: seq<ApplyResult>, table: seq<User>, abort: string)

  function Advance(p: Progress, r: NameRow, target: Option<string>, reply: Reply): Progress {
    if p.abort != "" then p.(out := p.out + [ApplyResult(r.mac, false, p.abort)])
    else if target.None? then p.(out := p.out + [ApplyResult(r.mac, false, "not in UniFi user db")])
    else if reply.Rejected? then
      p.(out := p.out + [ApplyResult(r.mac, false, Message(reply))], abort := if Denied(reply) then Message(reply) else "")
    else p.(out := p.out + [ApplyResult(r.mac, true, "")], table := Put(p.table, target.value, r.firewalla))
  }

  /** `ApplyNames` after its first n rows. */
  function Apply(
    users: seq<User>, rows: seq<NameRow>, targets: seq<Option<string>>, tries: seq<(Reply, Reply)>, n: nat): Progress
    requires n <= |rows| == |tries| == |targets|
  {
    if n == 0 then Progress([], users, "")
    else Advance(Apply(users, rows, targets, tries, n - 1), rows[n - 1], targets[n - 1], Outcome(tries[n - 1]))
  }

  /** One turn of the loop: up to two PUTs. */
  method ApplyOne(p: Progress, r: NameRow, target: Option<string>, attempt: (Reply, Reply)) returns (q: Progress)
    ensures q == Advance(p, r, target, Outcome(attempt))
  {
    if p.abort != "" {
      return p.(out := p.out + [ApplyResult(r.mac, false, p.abort)]);
    }
    if target.None? {
      return p.(out := p.out + [ApplyResult(r.mac, false, "not in UniFi user db")]);
    }
    var reply := attempt.0;
    if reply.Rejected? && reply.code == 429 {
      reply := attempt.1;
    }
    if reply.Rejected? {
      var abort := "";
      if reply.code == 401 || reply.code == 403 {
        abort := Message(reply);
      }
      return p.(out := p.out + [ApplyResult(r.mac, false, Message(reply))], abort := abort);
    }
    q := p.(out := p.out + [ApplyResult(r.mac, true, "")], table := Put(p.table, target.value, r.firewalla));
  }

  method ApplyNames(users: seq<User>, rows: seq<NameRow>, tries: seq<(Reply, Reply)>)
    returns (out: seq<ApplyResult>, table: seq<User>)
    requires |tries| == |rows|
    ensures var p := Apply(users, rows, Targets(ByKey(users), rows), tries, |rows|);
            out == p.out && table == p.table
  {
    var m := IndexUsers(users);
    var p := ApplyRows(users, rows, Targets(m, rows), tries);
    out, table := p.out, p.table;
  }

  /** The loop; the users' table does not change, so each row's user can be looked up beforehand. */
  method ApplyRows(users: seq<User>, rows: seq<NameRow>, targets: seq<Option<string>>, tries: seq<(Reply, Reply)>)
    returns (p: Progress)
    requires |tries| == |rows| == |targets|
    ensures p == Apply(users, rows, targets, tries, |rows|)
  {
    p := Progress([], users, "");
    for i := 0 to |rows|
      invariant p == Apply(users, rows, targets, tries, i)
    {
      p := ApplyOne(p, rows[i], targets[i], tries[i]);
    }
  }

  /** Results match rows one to one. */
  lemma {:induction false} ResultsMatchRows(
    users: seq<User>, rows: seq<NameRow>, targets: seq<Option<string>>, tries: seq<(Reply, Reply)>, n: nat)
    requires n <= |rows| == |tries| == |targets|
    ensures var out := Apply(users, rows, targets, tries, n).out;
            |out| == n && forall i :: 0 <= i < n ==> out[i].mac == rows[i].mac
  {
    if n > 0 {
      ResultsMatchRows(users, rows, targets, tries, n - 1);
    }
  }

  lemma {:induction false} NoDenialNoAbort(
    users: seq<User>, rows: seq<NameRow>, targets: seq<Option<string>>, tries: seq<(Reply, Reply)>, n: nat)
    requires n <= |rows| == |tries| == |targets|
    requires forall k :: 0 <= k < n ==> targets[k].None? || !Denied(Outcome(tries[k]))
    ensures Apply(users, rows, targets, tries, n).abort == ""
  {
    if n > 0 {
      NoDenialNoAbort(users, rows, targets, tries, n - 1);
    }
  }

  ghost predicate AllFail(out: seq<ApplyResult>, rows: seq<NameRow>, from: nat, to: nat, error: string)
    requires to <= |rows|
  {
    |out| == to && forall k :: from <= k < to ==> out[k] == ApplyResult(rows[k].mac, false, error)
  }

  lemma {:induction false} AbortedRow(p: Progress, r: NameRow, target: Option<string>, reply: Reply)
    requires p.abort != ""
    ensures Advance(p, r, target, reply) == Progress(p.out + [ApplyResult(r.mac, false, p.abort)], p.table, p.abort)
  {
  }

  lemma {:induction false} DeniedRow(p: Progress, r: NameRow, target: Option<string>, reply: Reply)
    requires p.abort == "" && target.Some? && Denied(reply)
    ensures Message(reply) != ""
    ensures Advance(p, r, target, reply)
            == Progress(p.out + [ApplyResult(r.mac, false, Message(reply))], p.table, Message(reply))
  {
  }

  lemma {:induction false} AllFailSnoc(out: seq<ApplyResult>, rows: seq<NameRow>, from: nat, n: nat, error: string)
    requires from <= n < |rows| && AllFail(out, rows, from, n, error)
    ensures AllFail(out + [ApplyResult(rows[n].mac, false, error)], rows, from, n + 1, error)
  {
  }

  /** From an abort on, every row fails with its message and the table stays. */
  lemma {:induction false} AbortIsFinal(
    users: seq<User>, rows: seq<NameRow>, targets: seq<Option<string>>, tries: seq<(Reply, Reply)>,
    i: nat, n: nat, error: string)
    requires i < n <= |rows| == |tries| == |targets| && error != ""
    requires var p := Apply(users, rows, targets, tries, i + 1);
             p.abort == error && AllFail(p.out, rows, i, i + 1, error)
    ensures var p := Apply(users, rows, targets, tries, n);
            && AllFail(p.out, rows, i, n, error) && p.abort == error
            && p.table == Apply(users, rows, targets, tries, i + 1).table
    decreases n
  {
    if i + 1 < n {
      AbortIsFinal(users, rows, targets, tries, i, n - 1, error);
      var before := Apply(users, rows, targets, tries, n - 1);
      AbortedRow(before, rows[n - 1], targets[n - 1], Outcome(tries[n - 1]));
      AllFailSnoc(before.out, rows, i, n - 1, error);
    }
  }

  /** A 401 or 403 that reaches row i stops all writing: later rows carry its message and the table is final. */
  lemma {:induction false} DenialStopsWriting(
    users: seq<User>, rows: seq<NameRow>, targets: seq<Option<string>>, tries: seq<(Reply, Reply)>, i: nat)
    requires i < |rows| == |tries| == |targets| && targets[i].Some? && Denied(Outcome(tries[i]))
    requires forall k :: 0 <= k < i ==> targets[k].None? || !Denied(Outcome(tries[k]))
    ensures var p := Apply(users, rows, targets, tries, |rows|);
            && AllFail(p.out, rows, i, |rows|, Message(Outcome(tries[i])))
            && p.table == Apply(users, rows, targets, tries, i).table
  {
    var before := Apply(users, rows, targets, tries, i);
    var error := Message(Outcome(tries[i]));
    ResultsMatchRows(users, rows, targets, tries, i);
    NoDenialNoAbort(users, rows, targets, tries, i);
    DeniedRow(before, rows[i], targets[i], Outcome(tries[i]));
    assert AllFail(before.out, rows, i, i, error);
    AllFailSnoc(before.out, rows, i, i, error);
    AbortIsFinal(users, rows, targets, tries, i, |rows|, error);
  }

  // ---------------------------------------------------------------- what each result says

  /** What the controller says in the end: to one PUT, or to a second one after a 429. */
  function LastReply(attempt: (Reply, Reply)): Reply {
    match attempt.0
    case Rejected(code, _) => if code == 429 then attempt.1 else attempt.0
    case Accepted => Accepted
  }

  /** The write of row k is refused for lack of rights. */
  predicate Refused(targets: seq<Option<string>>, tries: seq<(Reply, Reply)>, k: nat)
    requires k < |targets| == |tries|
  {
    && targets[k].Some? && LastReply(tries[k]).Rejected?
    && (LastReply(tries[k]).code == 401 || LastReply(tries[k]).code == 403)
  }

  lemma {:induction false} ResultStays(
    users: seq<User>, rows: seq<NameRow>, targets: seq<Option<string>>, tries: seq<(Reply, Reply)>, i: nat, n: nat)
    requires i < n <= |rows| == |tries| == |targets|
    ensures |Apply(users, rows, targets, tries, n).out| == n && |Apply(users, rows, targets, tries, i + 1).out| == i + 1
    ensures Apply(users, rows, targets, tries, n).out[i] == Apply(users, rows, targets, tries, i + 1).out[i]
    decreases n
  {
    ResultsMatchRows(users, rows, targets, tries, n);
    ResultsMatchRows(users, rows, targets, tries, n - 1);
    ResultsMatchRows(users, rows, targets, tries, i + 1);
    if i + 1 < n {
      ResultStays(users, rows, targets, tries, i, n - 1);
    }
  }

  /**
    * A row comes out ok exactly when it has a user to write to, the controller accepts in the end, and no earlier write
    * was refused for lack of rights; and what it says otherwise.
    */
  lemma {:induction false} ResultMeans(
    users: seq<User>, rows: seq<NameRow>, targets: seq<Option<string>>, tries: seq<(Reply, Reply)>, i: nat)
    requires i < |rows| == |tries| == |targets|
    ensures var out := Apply(users, rows, targets, tries, |rows|).out;
            && |out| == |rows|
            && (out[i].ok <==>
                  && targets[i].Some? && LastReply(tries[i]) == Accepted
                  && forall k :: 0 <= k < i ==> !Refused(targets, tries, k))
            && (out[i].ok ==> out[i].error == "")
            && ((forall k :: 0 <= k < i ==> !Refused(targets, tries, k)) ==>
                  && (targets[i].None? ==> out[i].error == "not in UniFi user db")
                  && (targets[i].Some? && LastReply(tries[i]).Rejected? ==>
                        out[i].error == "HTTP " + LastReply(tries[i]).text))
  {
    ResultStays(users, rows, targets, tries, i, |rows|);
    ResultsMatchRows(users, rows, targets, tries, i);
    assert forall k :: 0 <= k < |rows| ==> (Refused(targets, tries, k) <==> targets[k].Some? && Denied(Outcome(tries[k])));
    if forall k :: 0 <= k < i ==> !Refused(targets, tries, k) {
      NoDenialNoAbort(users, rows, targets, tries, i);
    } else {
      var k := FirstRefused(targets, tries, i);
      DenialStopsWriting(users, rows, targets, tries, k);
    }
  }

  lemma {:induction false} FirstRefused(targets: seq<Option<string>>, tries: seq<(Reply, Reply)>, n: nat) returns (k: nat)
    requires n <= |targets| == |tries| && exists j :: 0 <= j < n && Refused(targets, tries, j)
    ensures k < n && Refused(targets, tries, k) && forall j :: 0 <= j < k ==> !Refused(targets, tries, j)
  {
    k := 0;
    while !Refused(targets, tries, k)
      invariant k < n && forall j :: 0 <= j < k ==> !Refused(targets, tries, j)
      decreases n - k
    {
      k := k + 1;
    }
  }

  // ---------------------------------------------------------------- one round is enough

  ghost predicate DistinctHosts(hosts: seq<Host>) {
    forall i, j :: 0 <= i < j < |hosts| ==> MacKey(hosts[i].mac) != MacKey(hosts[j].mac)
  }

  /** Ids identify users; several users may be without one. */
  ghost predicate DistinctIds(users: seq<User>) {
    forall i, j :: 0 <= i < j < |users| && users[i].id != "" ==> users[i].id != users[j].id
  }

  /** The name a user has after the first n rows are written. */
  ghost function NameAfter(rows: seq<NameRow>, targets: seq<Option<string>>, n: nat, u: User): string
    requires n <= |rows| == |targets|
  {
    if n == 0 then u.name
    else if targets[n - 1] == Some(u.id) then rows[n - 1].firewalla
    else NameAfter(rows, targets, n - 1, u)
  }

  ghost function UserAfter(rows: seq<NameRow>, targets: seq<Option<string>>, n: nat, u: User): User
    requires n <= |rows| == |targets|
  {
    u.(name := NameAfter(rows, targets, n, u))
  }

  ghost function UsersAfter(rows: seq<NameRow>, targets: seq<Option<string>>, n: nat, users: seq<User>): seq<User>
    requires n <= |rows| == |targets|
  {
    seq(|users|, i requires 0 <= i < |users| => UserAfter(rows, targets, n, users[i]))
  }

  ghost predicate AllOk(out: seq<ApplyResult>) {
    forall i :: 0 <= i < |out| ==> out[i].ok
  }

  lemma {:induction false} PutAfter(rows: seq<NameRow>, targets: seq<Option<string>>, n: nat, users: seq<User>)
    requires n < |rows| == |targets| && targets[n].Some?
    ensures Put(UsersAfter(rows, targets, n, users), targets[n].value, rows[n].firewalla)
            == UsersAfter(rows, targets, n + 1, users)
  {
  }

  lemma {:induction false} UntouchedUser(rows: seq<NameRow>, targets: seq<Option<string>>, n: nat, u: User)
    requires n <= |rows| == |targets| && forall j :: 0 <= j < n ==> targets[j] != Some(u.id)
    ensures NameAfter(rows, targets, n, u) == u.name
  {
    if n > 0 {
      UntouchedUser(rows, targets, n - 1, u);
    }
  }

  /** A user that some rows write ends up with their name, when they agree on it. */
  lemma {:induction false} WrittenUser(
    rows: seq<NameRow>, targets: seq<Option<string>>, n: nat, u: User, name: string, i: nat)
    requires i < n <= |rows| == |targets| && targets[i] == Some(u.id)
    requires forall k :: 0 <= k < n && targets[k] == Some(u.id) ==> rows[k].firewalla == name
    ensures NameAfter(rows, targets, n, u) == name
  {
    if targets[n - 1] != Some(u.id) {
      WrittenUser(rows, targets, n - 1, u, name, i);
    }
  }

  lemma {:induction false} ByKeyAfter(rows: seq<NameRow>, targets: seq<Option<string>>, users: seq<User>)
    requires |rows| == |targets|
    ensures ByKey(UsersAfter(rows, targets, |rows|, users)).Keys == ByKey(users).Keys
    ensures forall k :: k in ByKey(users) ==>
              ByKey(UsersAfter(rows, targets, |rows|, users))[k] == UserAfter(rows, targets, |rows|, ByKey(users)[k])
    decreases |users|
  {
    if users != [] {
      var n := |users| - 1;
      ByKeyAfter(rows, targets, users[..n]);
      assert UsersAfter(rows, targets, |rows|, users)[..n] == UsersAfter(rows, targets, |rows|, users[..n]);
    }
  }

  lemma {:induction false} SameIdSameKey(users: seq<User>, k: string, l: string)
    requires DistinctIds(users) && k in ByKey(users) && l in ByKey(users) && ByKey(users)[k].id == ByKey(users)[l].id
    requires ByKey(users)[k].id != ""
    ensures k == l
  {
    var u, v := ByKey(users)[k], ByKey(users)[l];
    var i :| 0 <= i < |users| && users[i] == u;
    var j :| 0 <= j < |users| && users[j] == v;
    assert i == j;
  }

  function KeysOf(rows: seq<NameRow>): set<string> {
    set i | 0 <= i < |rows| :: MacKey(rows[i].mac)
  }

  lemma {:induction false} RowIsFor(h: Host, users: map<string, User>, hw: set<string>)
    requires RowFor(h, users, hw).Some?
    ensures var r := RowFor(h, users, hw).value;
            MacKey(r.mac) == MacKey(h.mac) && r.firewalla == FirewallaName(h) && MacKey(h.mac) in users
  {
    KeyOfNormalized(h.mac);
  }

  /** Once the alias is the Firewalla name, the host has no row. */
  lemma {:induction false} SyncedHasNoRow(h: Host, users: map<string, User>, hw: set<string>)
    requires var k := MacKey(h.mac); k in users && MacKey(users[k].mac) == k && users[k].name == FirewallaName(h)
    ensures RowFor(h, users, hw).None?
  {
    TrimIsTrimmed(h.name);
    TrimIsTrimmed(h.localDomain);
    TrimIsTrimmed(Trim(h.name));
    TrimIsTrimmed(Trim(h.localDomain));
    var fw := FirewallaName(h);
    assert fw != "" ==> Trim(fw) == fw && UsableName(fw, users[MacKey(h.mac)].mac);
  }

  /** Every chosen row is the row of some host. */
  ghost predicate FromHosts(hosts: seq<Host>, users: map<string, User>, hw: set<string>, chosen: seq<NameRow>) {
    forall r :: r in chosen ==> exists i :: 0 <= i < |hosts| && RowFor(hosts[i], users, hw) == Some(r)
  }

  /** The chosen rows that write host i's user are host i's own row. */
  lemma {:induction false} WritersAreOwn(
    hosts: seq<Host>, users: seq<User>, hw: set<string>, chosen: seq<NameRow>, i: nat, j: nat)
    requires DistinctHosts(hosts) && DistinctIds(users) && i < |hosts| && j < |chosen|
    requires FromHosts(hosts, ByKey(users), hw, chosen) && MacKey(hosts[i].mac) in ByKey(users)
    requires Target(ByKey(users), chosen[j]) == Some(ByKey(users)[MacKey(hosts[i].mac)].id)
    ensures MacKey(chosen[j].mac) == MacKey(hosts[i].mac) && chosen[j].firewalla == FirewallaName(hosts[i])
  {
    SameIdSameKey(users, MacKey(chosen[j].mac), MacKey(hosts[i].mac));
    ChosenIsOwn(hosts, ByKey(users), hw, chosen, i, chosen[j]);
  }

  /** The name a host's user has after the round. */
  lemma {:induction false} NextName(hosts: seq<Host>, users: seq<User>, hw: set<string>, chosen: seq<NameRow>, i: nat)
    requires DistinctHosts(hosts) && DistinctIds(users) && i < |hosts|
    requires FromHosts(hosts, ByKey(users), hw, chosen) && MacKey(hosts[i].mac) in ByKey(users)
    requires forall j :: 0 <= j < |chosen| ==> Target(ByKey(users), chosen[j]).Some?
    ensures var u := ByKey(users)[MacKey(hosts[i].mac)];
            NameAfter(chosen, Targets(ByKey(users), chosen), |chosen|, u) ==
            if MacKey(hosts[i].mac) in KeysOf(chosen) then FirewallaName(hosts[i]) else u.name
  {
    var m, k := ByKey(users), MacKey(hosts[i].mac);
    var u, ts := m[k], Targets(m, chosen);
    forall j | 0 <= j < |chosen| && ts[j] == Some(u.id)
      ensures MacKey(chosen[j].mac) == k && chosen[j].firewalla == FirewallaName(hosts[i]) {
      WritersAreOwn(hosts, users, hw, chosen, i, j);
    }
    if k in KeysOf(chosen) {
      var j :| 0 <= j < |chosen| && MacKey(chosen[j].mac) == k;
      assert Target(m, chosen[j]).Some?;
      WrittenUser(chosen, ts, |chosen|, u, FirewallaName(hosts[i]), j);
    } else {
      forall j | 0 <= j < |chosen| ensures ts[j] != Some(u.id) {
        assert MacKey(chosen[j].mac) in KeysOf(chosen);
      }
      UntouchedUser(chosen, ts, |chosen|, u);
    }
  }

  /** The user database after a round in which every write succeeded. */
  ghost function TableAfter(users: seq<User>, chosen: seq<NameRow>): seq<User> {
    UsersAfter(chosen, Targets(ByKey(users), chosen), |chosen|, users)
  }

  /** Writing the chosen rows changes the next row of a host exactly by removing it if it was chosen. */
  lemma {:induction false} NextRow(hosts: seq<Host>, users: seq<User>, hw: set<string>, chosen: seq<NameRow>, i: nat)
    requires DistinctHosts(hosts) && DistinctIds(users) && i < |hosts|
    requires FromHosts(hosts, ByKey(users), hw, chosen)
    requires forall j :: 0 <= j < |chosen| ==> Target(ByKey(users), chosen[j]).Some?
    ensures RowFor(hosts[i], ByKey(TableAfter(users, chosen)), hw) ==
            if MacKey(hosts[i].mac) in KeysOf(chosen) then None else RowFor(hosts[i], ByKey(users), hw)
  {
    var m, k := ByKey(users), MacKey(hosts[i].mac);
    var after := ByKey(TableAfter(users, chosen));
    ByKeyAfter(chosen, Targets(m, chosen), users);
    if k in m {
      NextName(hosts, users, hw, chosen, i);
    }
    if k in m && k in KeysOf(chosen) {
      SyncedHasNoRow(hosts[i], after, hw);
    } else {
      SameUserSameRow(hosts[i], after, m, hw);
      if k in KeysOf(chosen) {
        NoUserNoChoice(hosts, m, hw, chosen, i);
      }
    }
  }

  lemma {:induction false} SameUserSameRow(h: Host, a: map<string, User>, b: map<string, User>, hw: set<string>)
    requires var k := MacKey(h.mac); (k in a <==> k in b) && (k in a ==> a[k] == b[k])
    ensures RowFor(h, a, hw) == RowFor(h, b, hw)
  {
  }

  lemma {:induction false} NoUserNoChoice(hosts: seq<Host>, m: map<string, User>, hw: set<string>, chosen: seq<NameRow>, i: nat)
    requires i < |hosts| && FromHosts(hosts, m, hw, chosen) && MacKey(hosts[i].mac) in KeysOf(chosen)
    ensures MacKey(hosts[i].mac) in m
  {
    var j :| 0 <= j < |chosen| && MacKey(chosen[j].mac) == MacKey(hosts[i].mac);
    assert chosen[j] in chosen;
    var n :| 0 <= n < |hosts| && RowFor(hosts[n], m, hw) == Some(chosen[j]);
    RowIsFor(hosts[n], m, hw);
  }

  lemma {:induction false} ChosenIsOwn(
    hosts: seq<Host>, m: map<string, User>, hw: set<string>, chosen: seq<NameRow>, i: nat, r: NameRow)
    requires DistinctHosts(hosts) && i < |hosts| && FromHosts(hosts, m, hw, chosen)
    requires r in chosen && MacKey(r.mac) == MacKey(hosts[i].mac)
    ensures r.firewalla == FirewallaName(hosts[i])
  {
    var j :| 0 <= j < |hosts| && RowFor(hosts[j], m, hw) == Some(r);
    RowIsFor(hosts[j], m, hw);
    assert i == j;
  }

  lemma {:induction false} RowsForSnoc(hosts: seq<Host>, users: map<string, User>, hw: set<string>, i: nat)
    requires 0 < i <= |hosts|
    ensures RowsFor(hosts[..i], users, hw) == WithRow(RowsFor(hosts[..i - 1], users, hw), RowFor(hosts[i - 1], users, hw))
  {
    assert hosts[..i][i - 1] == hosts[i - 1] && hosts[..i][..i - 1] == hosts[..i - 1];
  }

  /** Rows of the first hosts, after the round. */
  lemma {:induction false} NextRows(hosts: seq<Host>, users: seq<User>, hw: set<string>, chosen: seq<NameRow>, i: nat)
    requires DistinctHosts(hosts) && DistinctIds(users) && i <= |hosts|
    requires FromHosts(hosts, ByKey(users), hw, chosen)
    requires forall j :: 0 <= j < |chosen| ==> Target(ByKey(users), chosen[j]).Some?
    ensures RowsFor(hosts[..i], ByKey(TableAfter(users, chosen)), hw)
            == Keep(RowsFor(hosts[..i], ByKey(users), hw), KeysOf(chosen), false)
  {
    if i > 0 {
      var m := ByKey(users);
      NextRow(hosts, users, hw, chosen, i - 1);
      NextRows(hosts, users, hw, chosen, i - 1);
      RowsForSnoc(hosts, m, hw, i);
      RowsForSnoc(hosts, ByKey(TableAfter(users, chosen)), hw, i);
      var row := RowFor(hosts[i - 1], m, hw);
      if row.Some? {
        RowIsFor(hosts[i - 1], m, hw);
      }
      KeepSnoc(RowsFor(hosts[..i - 1], m, hw), row, KeysOf(chosen));
    }
  }

  lemma {:induction false} KeepSnoc(rows: seq<NameRow>, row: Option<NameRow>, keys: set<string>)
    ensures Keep(WithRow(rows, row), keys, false)
            == WithRow(Keep(rows, keys, false), if row.Some? && MacKey(row.value.mac) in keys then None else row)
  {
    if row.Some? {
      assert (rows + [row.value])[..|rows|] == rows;
    }
  }

  /** The rows whose result is ok. */
  function OkRows(rows: seq<NameRow>, out: seq<ApplyResult>): seq<NameRow>
    requires |out| <= |rows|
    decreases |out|
  {
    if out == [] then []
    else
      var n := |out| - 1;
      var before := OkRows(rows, out[..n]);
      if out[n].ok then before + [rows[n]] else before
  }

  lemma {:induction false} OkRowsSnoc(rows: seq<NameRow>, out: seq<ApplyResult>, r: ApplyResult)
    requires |out| < |rows|
    ensures OkRows(rows, out + [r]) == if r.ok then OkRows(rows, out) + [rows[|out|]] else OkRows(rows, out)
  {
    assert (out + [r])[..|out|] == out;
  }

  lemma {:induction false} AllOkRows(rows: seq<NameRow>, out: seq<ApplyResult>)
    requires |out| <= |rows| && AllOk(out)
    ensures OkRows(rows, out) == rows[..|out|]
    decreases |out|
  {
    if out != [] {
      var n := |out| - 1;
      AllOkRows(rows, out[..n]);
      assert rows[..n] + [rows[n]] == rows[..n + 1];
    }
  }

  lemma {:induction false} NameAfterPrefix(
    rows: seq<NameRow>, targets: seq<Option<string>>, row: NameRow, target: Option<string>, n: nat, u: User)
    requires n <= |rows| == |targets|
    ensures NameAfter(rows + [row], targets + [target], n, u) == NameAfter(rows, targets, n, u)
  {
    if n > 0 {
      NameAfterPrefix(rows, targets, row, target, n - 1, u);
    }
  }

  lemma {:induction false} TableSnoc(users: seq<User>, chosen: seq<NameRow>, row: NameRow)
    requires Target(ByKey(users), row).Some?
    ensures TableAfter(users, chosen + [row])
            == Put(TableAfter(users, chosen), Target(ByKey(users), row).value, row.firewalla)
  {
    var m := ByKey(users);
    var targets, target, n := Targets(m, chosen), Target(m, row), |chosen|;
    var rows', targets' := chosen + [row], targets + [target];
    assert Targets(m, rows') == targets';
    forall i | 0 <= i < |users| ensures UserAfter(rows', targets', n, users[i]) == UserAfter(chosen, targets, n, users[i]) {
      NameAfterPrefix(chosen, targets, row, target, n, users[i]);
    }
    assert UsersAfter(rows', targets', n, users) == UsersAfter(chosen, targets, n, users);
    PutAfter(rows', targets', n, users);
  }

  /** Every row that came out ok is a chosen one, and has a user to write to. */
  ghost predicate Writable(m: map<string, User>, chosen: seq<NameRow>, written: seq<NameRow>) {
    forall r <- written :: r in chosen && Target(m, r).Some?
  }

  lemma {:induction false} OkStep(
    users: seq<User>, m: map<string, User>, chosen: seq<NameRow>, p: Progress, target: Option<string>, reply: Reply)
    requires m == ByKey(users) && |p.out| < |chosen| && target == Target(m, chosen[|p.out|])
    requires p.table == TableAfter(users, OkRows(chosen, p.out)) && Writable(m, chosen, OkRows(chosen, p.out))
    ensures var q := Advance(p, chosen[|p.out|], target, reply);
            && |q.out| == |p.out| + 1 && q.table == TableAfter(users, OkRows(chosen, q.out))
            && Writable(m, chosen, OkRows(chosen, q.out))
  {
    var q, row := Advance(p, chosen[|p.out|], target, reply), chosen[|p.out|];
    var result := q.out[|p.out|];
    assert q.out == p.out + [result];
    OkRowsSnoc(chosen, p.out, result);
    if result.ok {
      TableSnoc(users, OkRows(chosen, p.out), row);
    }
  }

  /** What the table is like after any round: as if just the rows that came out ok had been written. */
  lemma {:induction false} OkWrites(
    users: seq<User>, m: map<string, User>, chosen: seq<NameRow>, targets: seq<Option<string>>,
    tries: seq<(Reply, Reply)>, n: nat)
    requires m == ByKey(users) && n <= |chosen| == |tries| == |targets|
    requires forall i :: 0 <= i < |chosen| ==> targets[i] == Target(m, chosen[i])
    ensures var p := Apply(users, chosen, targets, tries, n);
            && |p.out| == n && p.table == TableAfter(users, OkRows(chosen, p.out))
            && Writable(m, chosen, OkRows(chosen, p.out))
  {
    if n == 0 {
      assert TableAfter(users, []) == users;
    } else {
      OkWrites(users, m, chosen, targets, tries, n - 1);
      OkStep(users, m, chosen, Apply(users, chosen, targets, tries, n - 1), targets[n - 1], Outcome(tries[n - 1]));
    }
  }

  /** Whatever the controller answers: the next diff has exactly the rows that did not come out ok. */
  lemma {:induction false} NextDiffDropsWritten(
    hosts: seq<Host>, users: seq<User>, hw: set<string>, chosen: seq<NameRow>, tries: seq<(Reply, Reply)>)
    requires DistinctHosts(hosts) && DistinctIds(users) && |tries| == |chosen|
    requires FromHosts(hosts, ByKey(users), hw, chosen)
    ensures var p := Apply(users, chosen, Targets(ByKey(users), chosen), tries, |chosen|);
            && |p.out| == |chosen|
            && RowsFor(hosts, ByKey(p.table), hw)
               == Keep(RowsFor(hosts, ByKey(users), hw), KeysOf(OkRows(chosen, p.out)), false)
  {
    var targets := Targets(ByKey(users), chosen);
    OkWrites(users, ByKey(users), chosen, targets, tries, |chosen|);
    var written := OkRows(chosen, Apply(users, chosen, targets, tries, |chosen|).out);
    forall j | 0 <= j < |written| ensures Target(ByKey(users), written[j]).Some? {
      assert written[j] in written;
    }
    NextRows(hosts, users, hw, written, |hosts|);
    assert hosts[..|hosts|] == hosts;
  }

  /**
    * So name sync reaches its fixed point in one round: when every write of the chosen rows succeeds, the next
    * diff has exactly the rows that were not chosen.
    */
  lemma {:induction false} OneRoundIsEnough(
    hosts: seq<Host>, users: seq<User>, hw: set<string>, chosen: seq<NameRow>, tries: seq<(Reply, Reply)>)
    requires DistinctHosts(hosts) && DistinctIds(users) && |tries| == |chosen|
    requires FromHosts(hosts, ByKey(users), hw, chosen)
    requires AllOk(Apply(users, chosen, Targets(ByKey(users), chosen), tries, |chosen|).out)
    ensures var table := Apply(users, chosen, Targets(ByKey(users), chosen), tries, |chosen|).table;
            RowsFor(hosts, ByKey(table), hw) == Keep(RowsFor(hosts, ByKey(users), hw), KeysOf(chosen), false)
  {
    NextDiffDropsWritten(hosts, users, hw, chosen, tries);
    AllOkRows(chosen, Apply(users, chosen, Targets(ByKey(users), chosen), tries, |chosen|).out);
    assert chosen[..|chosen|] == chosen;
  }

  // ---------------------------------------------------------------- auto-fill

  lemma {:induction false} RowsAreFromHosts(hosts: seq<Host>, users: map<string, User>, hw: set<string>, r: NameRow)
    requires r in RowsFor(hosts, users, hw)
    ensures exists i :: 0 <= i < |hosts| && RowFor(hosts[i], users, hw) == Some(r)
  {
    var n := |hosts| - 1;
    if r in RowsFor(hosts[..n], users, hw) {
      RowsAreFromHosts(hosts[..n], users, hw, r);
      var i :| 0 <= i < n && RowFor(hosts[..n][i], users, hw) == Some(r);
      assert RowFor(hosts[i], users, hw) == Some(r);
    }
  }

  /** A row of status Empty is about a user without a usable alias. */
  lemma {:induction false} EmptyRowHasNoAlias(hosts: seq<Host>, users: map<string, User>, hw: set<string>, r: NameRow)
    requires r in RowsFor(hosts, users, hw) && r.status == Empty
    ensures MacKey(r.mac) in users && UnifiAlias(users[MacKey(r.mac)]) == ""
  {
    RowsAreFromHosts(hosts, users, hw, r);
    var i :| 0 <= i < |hosts| && RowFor(hosts[i], users, hw) == Some(r);
    RowIsFor(hosts[i], users, hw);
  }

  lemma {:induction false} KeepMembers(rows: seq<NameRow>, keys: set<string>, inside: bool, r: NameRow)
    ensures r in Keep(rows, keys, inside) <==> r in rows && (MacKey(r.mac) in keys) == inside
  {
    if rows != [] {
      var n := |rows| - 1;
      assert r in rows <==> r in rows[..n] || r == rows[n];
      KeepMembers(rows[..n], keys, inside, r);
    }
  }

  /** What auto-fill may write: a row of the diff that is empty, has a name to give and is not excluded. */
  ghost predicate Fillable(hosts: seq<Host>, users: seq<User>, hardware: seq<string>, excluded: seq<string>, r: NameRow) {
    && r in RowsFor(hosts, ByKey(users), KeySet(hardware))
    && r.status == Empty && Trim(r.firewalla) != "" && MacKey(r.mac) !in KeySet(excluded)
  }

  /** `AutoFillEmpty`, once prefs allow it: diff, set the excluded aside, take exactly the empty rows. */
  method AutoFill(hosts: seq<Host>, users: seq<User>, hardware: seq<string>, excluded: seq<string>)
    returns (chosen: seq<NameRow>)
    ensures forall r :: r in chosen <==> Fillable(hosts, users, hardware, excluded, r)
  {
    var all := Diff(hosts, users, hardware);
    var active, ignored := PartitionExcluded(all, excluded);
    chosen := SelectRows(active, [], true);
    ghost var skip, rows := KeySet(excluded), RowsFor(hosts, ByKey(users), KeySet(hardware));
    forall r | true ensures r in active <==> r in rows && MacKey(r.mac) !in skip {
      KeepMembers(all, skip, false, r);
      Sorting.SameMembers(all, rows, r);
    }
  }

  /** Rows aimed at other users leave a user as it is, whatever the controller answers. */
  lemma {:induction false} OtherUsersSurvive(
    users: seq<User>, rows: seq<NameRow>, targets: seq<Option<string>>, tries: seq<(Reply, Reply)>, n: nat, i: nat)
    requires n <= |rows| == |tries| == |targets| && i < |users|
    requires forall j :: 0 <= j < n ==> targets[j] != Some(users[i].id)
    ensures var table := Apply(users, rows, targets, tries, n).table;
            |table| == |users| && table[i] == users[i]
  {
    if n > 0 {
      OtherUsersSurvive(users, rows, targets, tries, n - 1, i);
    }
  }

  /** So auto-fill leaves every usable alias as it was. */
  lemma {:induction false} UsableAliasSurvives(
    hosts: seq<Host>, users: seq<User>, hardware: seq<string>, excluded: seq<string>, chosen: seq<NameRow>,
    tries: seq<(Reply, Reply)>, i: nat)
    requires DistinctIds(users) && |chosen| == |tries| && i < |users| && UnifiAlias(users[i]) != ""
    requires forall r :: r in chosen ==> Fillable(hosts, users, hardware, excluded, r)
    ensures var table := Apply(users, chosen, Targets(ByKey(users), chosen), tries, |chosen|).table;
            |table| == |users| && table[i] == users[i]
  {
    var targets := Targets(ByKey(users), chosen);
    forall j | 0 <= j < |chosen| ensures targets[j] != Some(users[i].id) {
      assert chosen[j] in chosen;
      EmptyRowHasNoAlias(hosts, ByKey(users), KeySet(hardware), chosen[j]);
      OtherId(users, MacKey(chosen[j].mac), i);
    }
    OtherUsersSurvive(users, chosen, targets, tries, |chosen|, i);
  }

  lemma {:induction false} OtherId(users: seq<User>, k: string, i: nat)
    requires DistinctIds(users) && i < |users| && k in ByKey(users)
    requires UnifiAlias(users[i]) != "" && UnifiAlias(ByKey(users)[k]) == ""
    ensures ByKey(users)[k].id != "" ==> users[i].id != ByKey(users)[k].id
  {
    var j :| 0 <= j < |users| && users[j] == ByKey(users)[k];
    assert i != j;
  }
}
