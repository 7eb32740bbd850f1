/** `all.hosts`: an insertion-ordered dictionary from host names to their options. */
module Hosts {
  import opened Wrappers
  import opened Ordered
  import Sequences

  type Opts = map<string, string>

  datatype Host = Host(name: string, opts: Opts)

  /** The options of a host the program creates (inventory.py:247-249). */
  function Record(ip: string, access: string): Opts {
    map["ansible_host" := access, "ip" := ip, "access_ip" := access]
  }

  function Names(hosts: seq<Host>): (names: seq<string>)
    ensures |names| == |hosts|
    ensures forall i | 0 <= i < |hosts| :: names[i] == hosts[i].name
  {
    if hosts == [] then [] else [hosts[0].name] + Names(hosts[1..])
  }

  /** `hosts[name] = opts`: in place for a known name, otherwise at the end. */
  function Put(hosts: seq<Host>, name: string, opts: Opts): seq<Host> {
    if hosts == [] then [Host(name, opts)]
    else if hosts[0].name == name then [Host(name, opts)] + hosts[1..]
    else [hosts[0]] + Put(hosts[1..], name, opts)
  }

  function PutAll(hosts: seq<Host>, added: seq<Host>): seq<Host>
    decreases |added|
  {
    if added == [] then hosts else PutAll(Put(hosts, added[0].name, added[0].opts), added[1..])
  }

  /** `hosts.pop(name)` */
  function Remove(hosts: seq<Host>, name: string): seq<Host> {
    if hosts == [] then []
    else if hosts[0].name == name then hosts[1..]
    else [hosts[0]] + Remove(hosts[1..], name)
  }

  function KeepHosts(hosts: seq<Host>, keep: set<string>): seq<Host> {
    if hosts == [] then []
    else if hosts[0].name in keep then [hosts[0]] + KeepHosts(hosts[1..], keep)
    else KeepHosts(hosts[1..], keep)
  }

  /** inventory.py:155-159 */
  function GetIp(opts: Opts): Result<string> {
    if "ip" in opts then Success(opts["ip"]) else Failure(ValueError)
  }

  /** inventory.py:298-302: the scan stops at the first match and raises at a host without an ip before it. */
  function ExistsIp(hosts: seq<Host>, ip: string): Result<bool> {
    if hosts == [] then Success(false)
    else
      var first :- GetIp(hosts[0].opts);
      if first == ip then Success(true) else ExistsIp(hosts[1..], ip)
  }

  /** inventory.py:304-309 */
  function DeleteByIp(hosts: seq<Host>, ip: string): Result<seq<Host>> {
    if hosts == [] then Failure(ValueError)
    else
      var first :- GetIp(hosts[0].opts);
      if first == ip then Success(hosts[1..])
      else
        var rest :- DeleteByIp(hosts[1..], ip);
        Success([hosts[0]] + rest)
  }

  ghost predicate DistinctNames(hosts: seq<Host>) {
    Distinct(Names(hosts))
  }

  /** Every host has an ip and no two hosts share one. */
  ghost predicate DistinctIps(hosts: seq<Host>) {
    && (forall h | h in hosts :: "ip" in h.opts)
    && (forall i, j | 0 <= i < j < |hosts| :: hosts[i].opts["ip"] != hosts[j].opts["ip"])
  }

  ghost predicate HasIp(hosts: seq<Host>, ip: string) {
    exists h :: h in hosts && GetIp(h.opts) == Success(ip)
  }

  lemma {:induction false} NamesConcat(a: seq<Host>, b: seq<Host>)
    ensures Names(a + b) == Names(a) + Names(b)
  {
  }

  lemma {:induction false} NameOf(hosts: seq<Host>, name: string) returns (i: nat)
    requires name in Names(hosts)
    ensures i < |hosts| && hosts[i].name == name
  {
    i :| 0 <= i < |hosts| && Names(hosts)[i] == name;
  }

  lemma {:induction false} PutNew(hosts: seq<Host>, name: string, opts: Opts)
    requires name !in Names(hosts)
    ensures Put(hosts, name, opts) == hosts + [Host(name, opts)]
  {
    if hosts != [] {
      PutNew(hosts[1..], name, opts);
      assert hosts == [hosts[0]] + hosts[1..];
    }
  }

  lemma {:induction false} KeepNames(hosts: seq<Host>, keep: set<string>)
    ensures Names(KeepHosts(hosts, keep)) == Filter(Names(hosts), keep)
  {
    if hosts != [] {
      KeepNames(hosts[1..], keep);
    }
  }

  lemma {:induction false} RemoveIsKeep(hosts: seq<Host>, name: string)
    requires DistinctNames(hosts)
    ensures Remove(hosts, name) == KeepHosts(hosts, Elements(Names(hosts)) - {name})
  {
    if hosts != [] {
      var rest := hosts[1..];
      var keep := Elements(Names(hosts)) - {name};
      assert Names(hosts)[1..] == Names(rest);
      assert hosts[0].name !in Names(rest);
      if hosts[0].name == name {
        KeepAll(rest, keep);
      } else {
        RemoveIsKeep(rest, name);
        KeepCong(rest, Elements(Names(rest)) - {name}, keep);
      }
    }
  }

  lemma {:induction false} KeepAll(hosts: seq<Host>, keep: set<string>)
    requires Elements(Names(hosts)) <= keep
    ensures KeepHosts(hosts, keep) == hosts
  {
    if hosts != [] {
      assert Names(hosts)[0] in Elements(Names(hosts));
      assert Elements(Names(hosts[1..])) <= Elements(Names(hosts));
      KeepAll(hosts[1..], keep);
    }
  }

  lemma {:induction false} KeepCong(hosts: seq<Host>, keep: set<string>, keep': set<string>)
    requires forall x | x in Names(hosts) :: x in keep <==> x in keep'
    ensures KeepHosts(hosts, keep) == KeepHosts(hosts, keep')
  {
    if hosts != [] {
      assert hosts[0].name == Names(hosts)[0];
      assert Names(hosts)[1..] == Names(hosts[1..]);
      KeepCong(hosts[1..], keep, keep');
    }
  }

  lemma {:induction false} KeepMembers(hosts: seq<Host>, keep: set<string>)
    ensures forall h :: h in KeepHosts(hosts, keep) <==> h in hosts && h.name in keep
  {
    if hosts != [] {
      KeepMembers(hosts[1..], keep);
      assert hosts == [hosts[0]] + hosts[1..];
    }
  }

  lemma {:induction false} KeepConcat(a: seq<Host>, b: seq<Host>, keep: set<string>)
    ensures KeepHosts(a + b, keep) == KeepHosts(a, keep) + KeepHosts(b, keep)
  {
    if a == [] {
      assert a + b == b;
    } else {
      KeepConcat(a[1..], b, keep);
      assert (a + b)[1..] == a[1..] + b;
    }
  }

  lemma {:induction false} KeepTwice(hosts: seq<Host>, keep: set<string>, keep': set<string>)
    ensures KeepHosts(KeepHosts(hosts, keep), keep') == KeepHosts(hosts, keep * keep')
  {
    if hosts != [] {
      KeepTwice(hosts[1..], keep, keep');
      if hosts[0].name in keep {
        assert KeepHosts(hosts, keep)[1..] == KeepHosts(hosts[1..], keep);
      }
    }
  }

  /** Keeping some hosts keeps their ips distinct. */
  lemma {:induction false} KeepDistinctIps(hosts: seq<Host>, keep: set<string>)
    requires DistinctIps(hosts)
    ensures DistinctIps(KeepHosts(hosts, keep))
  {
    if hosts != [] {
      KeepDistinctIps(hosts[1..], keep);
      KeepMembers(hosts[1..], keep);
    }
  }

  lemma {:induction false} PutReplaces(hosts: seq<Host>, i: nat, opts: Opts)
    requires DistinctNames(hosts) && i < |hosts|
    ensures Put(hosts, hosts[i].name, opts) == hosts[i := Host(hosts[i].name, opts)]
  {
    if i > 0 {
      var h := Host(hosts[i].name, opts);
      assert Names(hosts)[0] != Names(hosts)[i];
      assert Names(hosts)[1..] == Names(hosts[1..]);
      PutReplaces(hosts[1..], i - 1, opts);
      Sequences.UpdateTail(hosts, i, h);
    }
  }

  lemma {:induction false} PutDistinctNames(hosts: seq<Host>, name: string, opts: Opts)
    requires DistinctNames(hosts)
    ensures DistinctNames(Put(hosts, name, opts))
    ensures Names(Put(hosts, name, opts)) == AddName(Names(hosts), name)
  {
    if name in Names(hosts) {
      var i := NameOf(hosts, name);
      PutReplaces(hosts, i, opts);
      assert Names(hosts[i := Host(name, opts)]) == Names(hosts);
    } else {
      PutNew(hosts, name, opts);
      NamesConcat(hosts, [Host(name, opts)]);
    }
  }

  lemma {:induction false} AppendIp(hosts: seq<Host>, h: Host)
    requires DistinctIps(hosts) && "ip" in h.opts
    requires forall k | 0 <= k < |hosts| :: hosts[k].opts["ip"] != h.opts["ip"]
    ensures DistinctIps(hosts + [h])
  {
  }

  /** Giving a host an ip nobody has keeps ips distinct, also when it overwrites a record. */
  lemma {:induction false} PutDistinctIps(hosts: seq<Host>, name: string, ip: string, access: string)
    requires DistinctNames(hosts) && DistinctIps(hosts) && !HasIp(hosts, ip)
    ensures DistinctIps(Put(hosts, name, Record(ip, access)))
  {
    var h := Host(name, Record(ip, access));
    if name in Names(hosts) {
      var i := NameOf(hosts, name);
      PutReplaces(hosts, i, h.opts);
    } else {
      PutNew(hosts, name, h.opts);
      AppendIp(hosts, h);
    }
  }

  /** On hosts that all have an ip, the scan for an ip does not raise and answers correctly. */
  lemma {:induction false} ExistsIpCorrect(hosts: seq<Host>, ip: string)
    requires forall h | h in hosts :: "ip" in h.opts
    ensures ExistsIp(hosts, ip) == Success(HasIp(hosts, ip))
  {
    if hosts != [] {
      ExistsIpCorrect(hosts[1..], ip);
      assert hosts == [hosts[0]] + hosts[1..];
    }
  }

  /** A host found by its ip is found again when it is deleted (inventory.py:218-220). */
  lemma {:induction false} FoundIsDeleted(hosts: seq<Host>, ip: string)
    requires ExistsIp(hosts, ip) == Success(true)
    ensures DeleteByIp(hosts, ip).Success?
    ensures DistinctNames(hosts) ==> exists i ::
              0 <= i < |hosts| && GetIp(hosts[i].opts) == Success(ip) && DeleteByIp(hosts, ip) == Success(Remove(hosts, hosts[i].name))
  {
    if GetIp(hosts[0].opts) != Success(ip) {
      FoundIsDeleted(hosts[1..], ip);
      if DistinctNames(hosts) {
        assert Names(hosts)[1..] == Names(hosts[1..]);
        var i :| 0 <= i < |hosts[1..]| && GetIp(hosts[1..][i].opts) == Success(ip)
          && DeleteByIp(hosts[1..], ip) == Success(Remove(hosts[1..], hosts[1..][i].name));
        assert Names(hosts)[0] != Names(hosts)[i + 1];
        assert DeleteByIp(hosts, ip) == Success(Remove(hosts, hosts[i + 1].name));
      }
    } else {
      assert DeleteByIp(hosts, ip) == Success(Remove(hosts, hosts[0].name));
    }
  }

  /** A match stays the first match when hosts are appended. */
  lemma {:induction false} ExistsIpStays(hosts: seq<Host>, more: seq<Host>, ip: string)
    requires ExistsIp(hosts, ip) == Success(true)
    ensures ExistsIp(hosts + more, ip) == Success(true)
  {
    assert (hosts + more)[1..] == hosts[1..] + more;
    if GetIp(hosts[0].opts) != Success(ip) {
      ExistsIpStays(hosts[1..], more, ip);
    }
  }

  lemma {:induction false} ExistsIpAppended(hosts: seq<Host>, h: Host, ip: string)
    requires ExistsIp(hosts, ip) == Success(false) && GetIp(h.opts) == Success(ip)
    ensures ExistsIp(hosts + [h], ip) == Success(true)
  {
    if hosts != [] {
      assert (hosts + [h])[1..] == hosts[1..] + [h];
      ExistsIpAppended(hosts[1..], h, ip);
    }
  }

  lemma {:induction false} PutAllNames(hosts: seq<Host>, added: seq<Host>)
    requires DistinctNames(hosts)
    ensures Names(PutAll(hosts, added)) == AddAll(Names(hosts), Names(added))
    ensures DistinctNames(PutAll(hosts, added))
    decreases |added|
  {
    if added != [] {
      PutDistinctNames(hosts, added[0].name, added[0].opts);
      PutAllNames(Put(hosts, added[0].name, added[0].opts), added[1..]);
      assert Names(added)[1..] == Names(added[1..]);
    }
  }

  lemma {:induction false} PutPresent(hosts: seq<Host>, h: Host)
    requires DistinctNames(hosts) && h in hosts
    ensures Put(hosts, h.name, h.opts) == hosts
  {
    var i :| 0 <= i < |hosts| && hosts[i] == h;
    PutReplaces(hosts, i, h.opts);
  }

  lemma {:induction false} PutAllPresent(hosts: seq<Host>, added: seq<Host>)
    requires DistinctNames(hosts) && forall h | h in added :: h in hosts
    ensures PutAll(hosts, added) == hosts
    decreases |added|
  {
    if added != [] {
      PutPresent(hosts, added[0]);
      PutAllPresent(hosts, added[1..]);
    }
  }

  /** Every record of `added` ends up in the dictionary, and only names outside it keep an older record. */
  lemma {:induction false} PutAllRecord(hosts: seq<Host>, added: seq<Host>, h: Host)
    requires DistinctNames(hosts) && DistinctNames(added)
    ensures h in PutAll(hosts, added) <==> h in added || (h in hosts && h.name !in Names(added))
    decreases |added|
  {
    if added != [] {
      var first, rest := added[0], added[1..];
      Sequences.HeadTail(added);
      assert Names(added) == [first.name] + Names(rest);
      assert DistinctNames(rest) && first.name !in Names(rest);
      PutDistinctNames(hosts, first.name, first.opts);
      PutRecord(hosts, first.name, first.opts, h);
      PutAllRecord(Put(hosts, first.name, first.opts), rest, h);
    }
  }

  lemma {:induction false} PutAllRecords(hosts: seq<Host>, added: seq<Host>)
    requires DistinctNames(hosts) && DistinctNames(added)
    ensures forall h :: h in PutAll(hosts, added) <==> h in added || (h in hosts && h.name !in Names(added))
  {
    forall h {
      PutAllRecord(hosts, added, h);
    }
  }

  lemma {:induction false} NameIn(hosts: seq<Host>, h: Host)
    requires h in hosts
    ensures h.name in Names(hosts)
  {
    var i :| 0 <= i < |hosts| && hosts[i] == h;
    assert Names(hosts)[i] == h.name;
  }

  lemma {:induction false} PutRecord(hosts: seq<Host>, name: string, opts: Opts, h: Host)
    requires DistinctNames(hosts)
    ensures h in Put(hosts, name, opts) <==> h == Host(name, opts) || (h in hosts && h.name != name)
  {
    if name in Names(hosts) {
      var i := NameOf(hosts, name);
      PutReplaces(hosts, i, opts);
      forall j | 0 <= j < |hosts| && j != i
        ensures hosts[j].name != name
      {
        assert Names(hosts)[j] != Names(hosts)[i];
      }
      var r := hosts[i := Host(name, opts)];
      assert r[i] == Host(name, opts);
      if h in hosts && h.name != name {
        var k :| 0 <= k < |hosts| && hosts[k] == h;
        assert r[k] == h;
      }
    } else {
      PutNew(hosts, name, opts);
      if h in hosts {
        NameIn(hosts, h);
      }
    }
  }

  /** `hosts` lists the first names of `added`, and its first `i` records are already those of `added`. */
  ghost predicate Overlays(hosts: seq<Host>, added: seq<Host>, i: nat) {
    && i <= |hosts| <= |added|
    && (forall k | 0 <= k < i :: hosts[k] == added[k])
    && forall k | 0 <= k < |hosts| :: hosts[k].name == added[k].name
  }

  lemma {:induction false} OverlaysStep(hosts: seq<Host>, added: seq<Host>, i: nat)
    requires DistinctNames(added) && Overlays(hosts, added, i) && i < |added|
    ensures Overlays(Put(hosts, added[i].name, added[i].opts), added, i + 1)
  {
    var h := added[i];
    if i < |hosts| {
      PutReplaces(hosts, i, h.opts);
    } else {
      assert forall k | 0 <= k < |hosts| :: Names(hosts)[k] == Names(added)[k] != Names(added)[i];
      PutNew(hosts, h.name, h.opts);
    }
  }

  /** Copying hosts over a dictionary that lists a prefix of their names gives exactly those hosts. */
  lemma {:induction false} PutAllOverPrefix(hosts: seq<Host>, added: seq<Host>)
    requires DistinctNames(added) && Names(hosts) <= Names(added)
    ensures PutAll(hosts, added) == added
  {
    assert forall k | 0 <= k < |hosts| :: Names(hosts)[k] == Names(added)[k];
    assert added[0..] == added;
    PutAllFrom(hosts, added, 0);
  }

  lemma {:induction false} PutAllFrom(hosts: seq<Host>, added: seq<Host>, i: nat)
    requires DistinctNames(added) && Overlays(hosts, added, i)
    ensures PutAll(hosts, added[i..]) == added
    decreases |added| - i
  {
    if i < |added| {
      OverlaysStep(hosts, added, i);
      Sequences.SuffixStep(added, i);
      PutAllFrom(Put(hosts, added[i].name, added[i].opts), added, i + 1);
    } else {
      assert hosts == added;
    }
  }
}
