/** The catalog records shared by the UniFi, TP-Link and STP code. MACs are canonical; "" means none. */
module Inventory {
  import opened Text

  datatype Port = Port(id: string, clients: seq<string>)

  datatype Switch = Switch(
    mac: string, name: string, ip: string, kind: string, source: string,
    parentMac: string, parentPort: string, uplinkPort: string, ports: seq<Port>, clients: seq<string>)

  ghost predicate DistinctMacs(sws: seq<Switch>) {
    forall i, j :: 0 <= i < j < |sws| ==> sws[i].mac != sws[j].mac
  }

  /** The first port that lists the MAC as a client. */
  function PortOf(ports: seq<Port>, want: string): Option<string> {
    if ports == [] then None
    else if want in ports[0].clients then Some(ports[0].id)
    else PortOf(ports[1..], want)
  }

  lemma {:induction false} PortOfIsFirst(ports: seq<Port>, want: string) returns (p: nat)
    ensures if PortOf(ports, want).None? then p == |ports|
            else p < |ports| && want in ports[p].clients && PortOf(ports, want) == Some(ports[p].id)
    ensures forall q :: 0 <= q < p ==> want !in ports[q].clients
  {
    if ports == [] || want in ports[0].clients {
      p := 0;
    } else {
      var k := PortOfIsFirst(ports[1..], want);
      assert forall q :: 1 <= q < |ports| ==> ports[q] == ports[1..][q - 1];
      p := k + 1;
    }
  }

  method FindPort(ports: seq<Port>, want: string) returns (r: Option<string>)
    ensures r == PortOf(ports, want)
  {
    for i := 0 to |ports|
      invariant PortOf(ports, want) == PortOf(ports[i..], want)
    {
      assert ports[i..][1..] == ports[i + 1..];
      if want in ports[i].clients {
        return Some(ports[i].id);
      }
    }
    r := None;
  }
}
