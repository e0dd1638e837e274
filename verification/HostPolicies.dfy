/**
  * Device-level host policy of server/internal/fwapp: the value SetHostPolicy sends, the optimistic overlay it
  * leaves in the rules cache, and the decoder that reads the box's own answer (rules_parse.go).
  */
module HostPolicies {
  import opened Text

  datatype HostPolicy = HostPolicy(
    mac: string, title: string, monitor: bool, isolated: bool, emergency: bool, adblock: bool, family: bool,
    note: string, tags: seq<string>)

  datatype Patch = Patch(
    monitor: Option<bool>, isolation: Option<bool>, emergency: Option<bool>, adblock: Option<bool>,
    family: Option<bool>, note: Option<string>, tags: Option<seq<string>>)

  /** The policy as the box stores it. `acl` is the opposite of emergency access. */
  datatype Raw = Raw(
    monitor: Option<bool>, acl: Option<bool>, isolation: Option<(bool, bool)>, adblock: Option<bool>,
    family: Option<bool>, note: string, tags: seq<string>)

  /** The keys of a set/policy value. */
  datatype Wire = Wire(
    monitor: Option<bool>, acl: Option<bool>, isolation: Option<bool>, adblock: Option<bool>,
    family: Option<bool>, note: Option<string>, tags: Option<seq<string>>)

  predicate IsEmpty(p: Patch) {
    p == Patch(None, None, None, None, None, None, None)
  }

  function Or<T>(first: Option<T>, second: Option<T>): Option<T> {
    if first.Some? then first else second
  }

  // ---------------------------------------------------------------- the sent value

  /** SetHostPolicy's value: turning monitoring on ends an emergency, starting an emergency ends monitoring. */
  method BuildValue(p: Patch) returns (value: Option<Wire>)
    ensures value.None? <==>
              p.monitor.None? && p.isolation.None? && p.emergency.None? && p.adblock.None? && p.family.None?
              && p.note.None? && p.tags.None?
    ensures value.Some? ==> value.value == WireOf(p)
    ensures value.Some? ==>
              var w := value.value;
              && (w.monitor == if p.monitor.Some? then p.monitor else if p.emergency == Some(true) then Some(false) else None)
              && (w.acl == Some(true) <==> p.emergency == Some(false) || (p.emergency.None? && p.monitor == Some(true)))
              && (w.acl == Some(false) <==> p.emergency == Some(true))
              && w.isolation == p.isolation && w.adblock == p.adblock && w.family == p.family
              && w.note == p.note && w.tags == p.tags
  {
    if IsEmpty(p) {
      return None;
    }
    var v := Wire(None, None, None, None, None, None, None);
    if p.monitor.Some? {
      v := v.(monitor := p.monitor);
      if p.monitor.value && p.emergency.None? {
        v := v.(acl := Some(true));
      }
    }
    if p.isolation.Some? {
      v := v.(isolation := p.isolation);
    }
    if p.emergency.Some? {
      v := v.(acl := Some(!p.emergency.value));
      if p.emergency.value && p.monitor.None? {
        v := v.(monitor := Some(false));
      }
    }
    if p.adblock.Some? {
      v := v.(adblock := p.adblock);
    }
    if p.family.Some? {
      v := v.(family := p.family);
    }
    if p.note.Some? {
      v := v.(note := p.note);
    }
    if p.tags.Some? {
      v := v.(tags := p.tags);
    }
    value := Some(v);
  }

  function WireOf(p: Patch): Wire {
    Wire(
      if p.monitor.None? && p.emergency == Some(true) then Some(false) else p.monitor,
      if p.emergency.Some? then Some(!p.emergency.value)
      else if p.monitor == Some(true) then Some(true) else None,
      p.isolation, p.adblock, p.family, p.note, p.tags)
  }

  /** The box replaces the keys it is sent and keeps the rest. */
  function Stored(raw: Raw, w: Wire): Raw {
    Raw(
      Or(w.monitor, raw.monitor), Or(w.acl, raw.acl),
      if w.isolation.Some? then Some((w.isolation.value, false)) else raw.isolation,
      Or(w.adblock, raw.adblock), Or(w.family, raw.family),
      if w.note.Some? then w.note.value else raw.note,
      if w.tags.Some? then w.tags.value else raw.tags)
  }

  // ---------------------------------------------------------------- the decoder

  function CleanTags(tags: seq<string>): (r: seq<string>)
    ensures |r| <= |tags|
  {
    if tags == [] then []
    else if Trim(tags[0]) == "" then CleanTags(tags[1..])
    else [Trim(tags[0])] + CleanTags(tags[1..])
  }

  method DecodeTags(tags: seq<string>) returns (out: seq<string>)
    ensures out == CleanTags(tags)
  {
    out := [];
    for i := 0 to |tags|
      invariant out + CleanTags(tags[i..]) == CleanTags(tags)
    {
      assert tags[i..][1..] == tags[i + 1..];
      var id := Trim(tags[i]);
      if id != "" {
        out := out + [id];
      }
    }
    assert tags[|tags|..] == [];
  }

  /** applyRawHostPolicy on the fresh policy that parseHostPolicies makes. */
  function Decoded(mac: string, title: string, raw: Raw): HostPolicy {
    HostPolicy(
      mac, title,
      if raw.monitor.Some? then raw.monitor.value else true,
      if raw.isolation.Some? then raw.isolation.value.0 else false,
      if raw.acl.Some? then !raw.acl.value else false,
      if raw.adblock.Some? then raw.adblock.value else false,
      if raw.family.Some? then raw.family.value else false,
      Trim(raw.note), CleanTags(raw.tags))
  }

  /** What a stored policy shows: monitoring unless it says no, everything else only if it says so, acl turned round. */
  lemma {:induction false} DecodedMeans(mac: string, title: string, raw: Raw)
    ensures var hp := Decoded(mac, title, raw);
            && hp.mac == mac && hp.title == title
            && (hp.monitor <==> raw.monitor != Some(false)) && (hp.emergency <==> raw.acl == Some(false))
            && (hp.isolated <==> raw.isolation.Some? && raw.isolation.value.0)
            && (hp.adblock <==> raw.adblock == Some(true)) && (hp.family <==> raw.family == Some(true))
            && hp.note == Trim(raw.note) && Trimmed(hp.note)
            && (forall t <- hp.tags :: t != "" && Trimmed(t))
            && (forall t :: t in hp.tags <==> t != "" && exists u <- raw.tags :: Trim(u) == t)
  {
    TrimIsTrimmed(raw.note);
    CleanTagsMembers(raw.tags);
  }

  lemma {:induction false} CleanTagsMembers(tags: seq<string>)
    ensures forall t :: t in CleanTags(tags) <==> t != "" && exists u <- tags :: Trim(u) == t
    ensures forall t <- CleanTags(tags) :: Trimmed(t)
  {
    if tags != [] {
      CleanTagsMembers(tags[1..]);
      TrimIsTrimmed(tags[0]);
      assert forall u :: u in tags <==> u == tags[0] || u in tags[1..];
    }
  }

  /** Tag by tag, in order. */
  lemma {:induction false} CleanTagsConcat(a: seq<string>, b: seq<string>)
    ensures CleanTags(a + b) == CleanTags(a) + CleanTags(b)
  {
    if a == [] {
      assert a + b == b;
    } else {
      CleanTagsConcat(a[1..], b);
      assert (a + b)[1..] == a[1..] + b;
    }
  }

  /** applyRawHostPolicy. */
  method ApplyRaw(mac: string, title: string, raw: Raw) returns (hp: HostPolicy)
    ensures hp == Decoded(mac, title, raw)
  {
    var monitor, isolated, emergency, adblock, family := true, false, false, false, false;
    if raw.monitor.Some? {
      monitor := raw.monitor.value;
    }
    if raw.isolation.Some? {
      isolated := raw.isolation.value.0;
    }
    if raw.acl.Some? {
      emergency := !raw.acl.value;
    }
    if raw.adblock.Some? {
      adblock := raw.adblock.value;
    }
    if raw.family.Some? {
      family := raw.family.value;
    }
    var tags := DecodeTags(raw.tags);
    hp := HostPolicy(mac, title, monitor, isolated, emergency, adblock, family, Trim(raw.note), tags);
  }

  // ---------------------------------------------------------------- the overlay

  /** applyHostPolicyPatch, the on/off fields and then the text ones. */
  method ApplyPatch(before: HostPolicy, p: Patch) returns (hp: HostPolicy)
    ensures hp == Patched(before, p)
  {
    var monitor, emergency := before.monitor, before.emergency;
    if p.monitor.Some? {
      monitor := p.monitor.value;
      if p.monitor.value && p.emergency.None? {
        emergency := false;
      }
    }
    if p.emergency.Some? {
      emergency := p.emergency.value;
      if p.emergency.value && p.monitor.None? {
        monitor := false;
      }
    }
    assert monitor == Given(p.monitor, p.emergency != Some(true) && before.monitor);
    assert emergency == Given(p.emergency, p.monitor != Some(true) && before.emergency);
    var isolated, adblock, family := before.isolated, before.adblock, before.family;
    if p.isolation.Some? {
      isolated := p.isolation.value;
    }
    if p.adblock.Some? {
      adblock := p.adblock.value;
    }
    if p.family.Some? {
      family := p.family.value;
    }
    var note := if p.note.Some? then p.note.value else before.note;
    var tags := if p.tags.Some? then p.tags.value else before.tags;
    hp := HostPolicy(before.mac, before.title, monitor, isolated, emergency, adblock, family, note, tags);
  }

  function Given(sent: Option<bool>, kept: bool): bool {
    if sent.Some? then sent.value else kept
  }

  function Patched(hp: HostPolicy, p: Patch): HostPolicy {
    HostPolicy(
      hp.mac, hp.title,
      Given(p.monitor, p.emergency != Some(true) && hp.monitor),
      Given(p.isolation, hp.isolated),
      Given(p.emergency, p.monitor != Some(true) && hp.emergency),
      Given(p.adblock, hp.adblock), Given(p.family, hp.family),
      if p.note.Some? then p.note.value else hp.note,
      if p.tags.Some? then p.tags.value else hp.tags)
  }

  /** What is sent shows, what is not sent stays; but starting an emergency ends monitoring, and the other way round. */
  lemma {:induction false} PatchedMeans(hp: HostPolicy, p: Patch)
    ensures var r := Patched(hp, p);
            && r.mac == hp.mac && r.title == hp.title
            && (p.monitor == Some(r.monitor) || p.monitor.None?) && (p.emergency == Some(r.emergency) || p.emergency.None?)
            && (p.monitor.None? ==> (r.monitor <==> hp.monitor && p.emergency != Some(true)))
            && (p.emergency.None? ==> (r.emergency <==> hp.emergency && p.monitor != Some(true)))
            && (if p.isolation.None? then r.isolated == hp.isolated else p.isolation == Some(r.isolated))
            && (if p.adblock.None? then r.adblock == hp.adblock else p.adblock == Some(r.adblock))
            && (if p.family.None? then r.family == hp.family else p.family == Some(r.family))
            && (if p.note.None? then r.note == hp.note else p.note == Some(r.note))
            && (if p.tags.None? then r.tags == hp.tags else p.tags == Some(r.tags))
  {
  }

  // ---------------------------------------------------------------- the overlay agrees with the wire

  ghost predicate AllClean(tags: seq<string>) {
    forall i :: 0 <= i < |tags| ==> tags[i] != "" && Trimmed(tags[i])
  }

  ghost predicate CleanText(p: Patch) {
    && (p.note.Some? ==> Trimmed(p.note.value))
    && (p.tags.Some? ==> AllClean(p.tags.value))
  }

  lemma {:induction false} CleanTagsUnchanged(tags: seq<string>)
    ensures CleanTags(tags) == tags <==> AllClean(tags)
  {
    if tags != [] {
      CleanTagsUnchanged(tags[1..]);
      TrimIsTrimmed(tags[0]);
      assert tags == [tags[0]] + tags[1..];
      assert CleanTags(tags) == tags ==> tags[0] == Trim(tags[0]) && tags[1..] == CleanTags(tags[1..]) by {
        assert |CleanTags(tags[1..])| <= |tags| - 1;
        assert CleanTags(tags) == tags ==> Trim(tags[0]) != "";
      }
      assert forall i :: 1 <= i < |tags| ==> tags[i] == tags[1..][i - 1];
      assert forall i :: 0 <= i < |tags| - 1 ==> tags[1..][i] == tags[i + 1];
    }
  }

  /**
    * The optimistic overlay shows what the box will say, for every stored policy, exactly when the patch's
    * note is trimmed and its tags are trimmed and not blank.
    */
  lemma {:induction false} OverlayCommutesWithWire(mac: string, title: string, raw: Raw, p: Patch)
    ensures Decoded(mac, title, Stored(raw, WireOf(p))) == Patched(Decoded(mac, title, raw), p) <==> CleanText(p)
  {
    var got, want := Decoded(mac, title, Stored(raw, WireOf(p))), Patched(Decoded(mac, title, raw), p);
    assert got.monitor == want.monitor && got.emergency == want.emergency;
    assert got.isolated == want.isolated && got.adblock == want.adblock && got.family == want.family;
    assert got.note == want.note <==> (p.note.Some? ==> Trimmed(p.note.value)) by {
      if p.note.Some? {
        TrimIsTrimmed(p.note.value);
      }
    }
    assert got.tags == want.tags <==> (p.tags.Some? ==> AllClean(p.tags.value)) by {
      if p.tags.Some? {
        CleanTagsUnchanged(p.tags.value);
      }
    }
  }

  // ---------------------------------------------------------------- the rules cache

  function Unknown(mac: string): HostPolicy {
    HostPolicy(mac, "", true, false, false, false, false, "", [])
  }

  /** LookupHostPolicy on the cached hosts. */
  function Lookup(hosts: seq<HostPolicy>, mac: string): HostPolicy {
    if hosts == [] then Unknown(mac) else if hosts[0].mac == mac then hosts[0] else Lookup(hosts[1..], mac)
  }

  function PatchedHosts(hosts: seq<HostPolicy>, mac: string, p: Patch): seq<HostPolicy> {
    if hosts == [] then [Patched(Unknown(mac), p)]
    else if hosts[0].mac == mac then [Patched(hosts[0], p)] + hosts[1..]
    else [hosts[0]] + PatchedHosts(hosts[1..], mac, p)
  }

  ghost predicate Absent(hosts: seq<HostPolicy>, mac: string) {
    forall h <- hosts :: h.mac != mac
  }

  /** The first entry of the MAC is the one that changes; without one, an entry is added at the end. */
  lemma {:induction false} PatchedAt(hosts: seq<HostPolicy>, mac: string, p: Patch, i: nat)
    requires i <= |hosts| && Absent(hosts[..i], mac)
    ensures i < |hosts| && hosts[i].mac == mac ==> PatchedHosts(hosts, mac, p) == hosts[i := Patched(hosts[i], p)]
    ensures i == |hosts| ==> PatchedHosts(hosts, mac, p) == hosts + [Patched(Unknown(mac), p)]
  {
    if i > 0 {
      assert hosts[..i][0] == hosts[0] && hosts[1..][..i - 1] == hosts[..i][1..];
      PatchedAt(hosts[1..], mac, p, i - 1);
    }
  }

  /** After the overlay every lookup, of a known MAC or not, is the patched lookup; other MACs are as before. */
  lemma {:induction false} LookupAfterPatch(hosts: seq<HostPolicy>, mac: string, p: Patch, other: string)
    ensures Lookup(PatchedHosts(hosts, mac, p), other)
            == if other == mac then Patched(Lookup(hosts, mac), p) else Lookup(hosts, other)
  {
    if hosts != [] {
      LookupAfterPatch(hosts[1..], mac, p, other);
      var after := PatchedHosts(hosts, mac, p);
      if hosts[0].mac == mac {
        assert after[1..] == hosts[1..];
      } else {
        assert after[1..] == PatchedHosts(hosts[1..], mac, p);
      }
    } else {
      assert PatchedHosts(hosts, mac, p)[1..] == [];
    }
  }

  class RulesCache {
    var hosts: seq<HostPolicy>
    var refreshedAt: int
    var ok: bool

    constructor ()
      ensures !ok
    {
      hosts, refreshedAt, ok := [], 0, false;
    }

    method Set(snap: seq<HostPolicy>, at: int)
      modifies this
      ensures ok && hosts == snap && refreshedAt == at
    {
      hosts, refreshedAt, ok := snap, at, true;
    }

    method Clear()
      modifies this
      ensures !ok && hosts == []
    {
      hosts, refreshedAt, ok := [], 0, false;
    }

    /** The first cached policy of the MAC; a host that is not known is monitored and nothing else. */
    method Find(mac: string) returns (hp: HostPolicy)
      ensures hp == if ok then Lookup(hosts, mac) else Unknown(mac)
      ensures if ok && !Absent(hosts, mac)
              then exists i :: 0 <= i < |hosts| && hosts[i] == hp && hp.mac == mac && Absent(hosts[..i], mac)
              else hp == HostPolicy(mac, "", true, false, false, false, false, "", [])
    {
      if ok {
        for i := 0 to |hosts|
          invariant Lookup(hosts, mac) == Lookup(hosts[i..], mac) && Absent(hosts[..i], mac)
        {
          assert hosts[i..][1..] == hosts[i + 1..];
          if hosts[i].mac == mac {
            hp := hosts[i];
            assert hosts[i] in hosts;
            return;
          }
        }
        assert hosts[..|hosts|] == hosts;
      }
      hp := Unknown(mac);
    }

    /** PatchHost: edits the first entry of the MAC in place, or appends one. An empty cache stays empty. */
    method PatchHost(mac: string, p: Patch)
      modifies this
      ensures ok == old(ok) && refreshedAt == old(refreshedAt)
      ensures hosts == if ok then PatchedHosts(old(hosts), mac, p) else old(hosts)
    {
      if !ok {
        return;
      }
      for i := 0 to |hosts|
        invariant hosts == old(hosts) && ok == old(ok) && refreshedAt == old(refreshedAt)
        invariant Absent(hosts[..i], mac)
      {
        if hosts[i].mac == mac {
          PatchedAt(hosts, mac, p, i);
          var patched := ApplyPatch(hosts[i], p);
          hosts := hosts[i := patched];
          return;
        }
      }
      assert hosts[..|hosts|] == hosts;
      PatchedAt(hosts, mac, p, |hosts|);
      var fresh' := ApplyPatch(Unknown(mac), p);
      hosts := hosts + [fresh'];
    }
  }
}
