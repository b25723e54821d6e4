/** The network-policy latency measurement: which pod addresses every selector names,
    which (client, server) pairs are tested, and which policies each result counts for. */
module Netpol {
  import opened Options
  import opened Sequences

  // ----- The pod address cache -----

  /** The cluster's pods, as addresses by namespace and selector: pods[ns](sel), with
      None the absent selector. Selectors are identified by what they print. */
  type Cluster = (string, Option<string>) -> seq<string>

  /** The key addPodsByLabel caches under: the printed selector, or the namespace when
      there is none. */
  function SelectorKey(ns: string, selector: Option<string>): string {
    if selector.Some? then selector.value else ns
  }

  type PodCache = map<string, map<string, seq<string>>>

  /** What is cached for a key; a missing list and an empty one are treated alike. */
  function Cached(cache: PodCache, ns: string, key: string): seq<string> {
    if ns in cache && key in cache[ns] then cache[ns][key] else []
  }

  /** A call, with what the cluster answers to it at that moment. */
  datatype Call = Call(ns: string, selector: Option<string>, answer: seq<string>)

  function KeyOfCall(call: Call): string { SelectorKey(call.ns, call.selector) }

  /** The cache and the result after a call. */
  function AddPods(cache: PodCache, call: Call): (PodCache, seq<string>) {
    var key := KeyOfCall(call);
    if call.ns == "" then (cache, [])
    else if Cached(cache, call.ns, key) == [] then
      (cache[call.ns := (if call.ns in cache then cache[call.ns] else map[])[key := call.answer]], call.answer)
    else (cache, Cached(cache, call.ns, key))
  }

  class PodAddresses {
    var cache: PodCache

    /** addPodsByLabel. */
    method AddPodsByLabel(cluster: Cluster, ns: string, selector: Option<string>) returns (addresses: seq<string>)
      modifies this
      ensures (cache, addresses) == AddPods(old(cache), Call(ns, selector, cluster(ns, selector)))
    {
      if ns == "" {
        return [];
      }
      var key := SelectorKey(ns, selector);
      if ns !in cache || key !in cache[ns] || cache[ns][key] == [] {
        addresses := cluster(ns, selector);
        if ns !in cache {
          cache := cache[ns := map[key := addresses]];
        } else {
          cache := cache[ns := cache[ns][key := addresses]];
        }
      } else {
        addresses := cache[ns][key];
      }
    }
  }

  /** The cache after a history of calls. */
  function After(calls: seq<Call>): PodCache {
    if calls == [] then map[] else AddPods(After(calls[..|calls| - 1]), calls[|calls| - 1]).0
  }

  /** The first answer to a call under that key that was not empty. */
  function FirstAnswer(calls: seq<Call>, ns: string, key: string): seq<string> {
    if calls == [] then []
    else
      var before, last := FirstAnswer(calls[..|calls| - 1], ns, key), calls[|calls| - 1];
      if before != [] then before
      else if last.ns == ns && KeyOfCall(last) == key then last.answer
      else []
  }

  lemma {:induction false} CachedIsFirst(calls: seq<Call>, ns: string, key: string)
    requires ns != ""
    ensures Cached(After(calls), ns, key) == FirstAnswer(calls, ns, key)
    decreases |calls|
  {
    if calls != [] {
      CachedIsFirst(calls[..|calls| - 1], ns, key);
    }
  }

  /** After any history of calls, on a cluster whose pods come and go, the result is the
      cluster's answer of the moment if and only if no earlier call with the same
      namespace and key found pods, or the first that did found the same. */
  lemma AnswerRightIff(calls: seq<Call>, call: Call)
    requires call.ns != ""
    ensures
      var first := FirstAnswer(calls, call.ns, KeyOfCall(call));
      AddPods(After(calls), call).1 == call.answer <==> first == [] || first == call.answer
  {
    CachedIsFirst(calls, call.ns, KeyOfCall(call));
  }

  /** The second of two calls is right if and only if the namespaces or the keys differ,
      the first found no pods, or both find the same. */
  lemma SecondCallRightIff(a: Call, b: Call)
    requires b.ns != ""
    ensures AddPods(After([a]), b).1 == b.answer
       <==> a.ns != b.ns || KeyOfCall(a) != KeyOfCall(b) || a.answer == [] || a.answer == b.answer
  {
    assert [a][..0] == [];
    AnswerRightIff([a], b);
  }

  /** Two different selectors share a key only if one is absent and the other prints as
      the namespace's name. */
  lemma SharedKeyIff(ns: string, a: Option<string>, b: Option<string>)
    requires a != b
    ensures SelectorKey(ns, a) == SelectorKey(ns, b) <==> (a == None && b == Some(ns)) || (b == None && a == Some(ns))
  {
  }

  /** Namespace job-0 with pods 1 and 2, of which only pod 1 has a label job-0: after a
      peer without a pod selector, one that asks for the label gets both pods. */
  lemma SelectorConfused()
    ensures
      var all, labelled := Call("job-0", None, ["1", "2"]), Call("job-0", Some("job-0"), ["1"]);
      AddPods(After([all]), labelled).1 == ["1", "2"] != labelled.answer
  {
    var all, labelled := Call("job-0", None, ["1", "2"]), Call("job-0", Some("job-0"), ["1"]);
    assert [all][..0] == [];
    assert |all.answer| == 2 && |labelled.answer| == 1;
  }

  /** A pod that is replaced by another one between two jobs: the second job is given the
      address of the first. */
  lemma StaleCase()
    ensures
      var first, second := Call("job-0", Some("app=a"), ["10.0.0.1"]), Call("job-0", Some("app=a"), ["10.0.0.22"]);
      AddPods(After([first]), second).1 == ["10.0.0.1"] != second.answer
  {
    var first, second := Call("job-0", Some("app=a"), ["10.0.0.1"]), Call("job-0", Some("app=a"), ["10.0.0.22"]);
    assert [first][..0] == [];
    assert |first.answer[0]| != |second.answer[0]|;
  }

  // ----- The pairs to test -----

  /** One peer of an ingress rule: whether it has a selector at all, and the addresses
      its selectors name, namespace after namespace. */
  datatype Peer = Peer(selective: bool, remotes: seq<string>)

  /** An ingress rule, and whether its ports list the server's port. */
  datatype Ingress = Ingress(peers: seq<Peer>, serverPort: bool)

  /** A policy as prepareConnections sees it: its name, the addresses of the pods it
      selects and its ingress rules. */
  datatype Policy = Policy(name: string, locals: seq<string>, rules: seq<Ingress>)

  /** An entry of a client's work list; `ports` is how often the server's port is in it. */
  datatype Connection = Connection(addresses: seq<string>, ports: nat, netpol: string)

  /** addrReuse's key for a pair. */
  function PairKey(remote: string, local: string): string { remote + ":" + local }

  /** The innermost loop's input: a client address with a policy's pods. */
  datatype Visit = Visit(remote: string, locals: seq<string>, policy: string, ports: nat)

  /** One pair that a policy allows and the loop looks at. */
  datatype Touch = Touch(remote: string, local: string, policy: string)

  function KeyOf(t: Touch): string { PairKey(t.remote, t.local) }

  /** The pairs of the first n pods of a visit; a pod is not tested against itself. */
  function TouchesOf(v: Visit, n: nat): seq<Touch>
    requires n <= |v.locals|
  {
    if n == 0 then []
    else TouchesOf(v, n - 1) + if v.locals[n - 1] != v.remote then [Touch(v.remote, v.locals[n - 1], v.policy)] else []
  }

  function Touches(vs: seq<Visit>): seq<Touch> {
    if vs == [] then [] else Touches(vs[..|vs| - 1]) + TouchesOf(vs[|vs| - 1], |vs[|vs| - 1].locals|)
  }

  /** addrReuse after the pairs of ts. */
  function ReuseOf(ts: seq<Touch>): map<string, seq<string>> {
    if ts == [] then map[]
    else
      var before, t := ReuseOf(ts[..|ts| - 1]), ts[|ts| - 1];
      if KeyOf(t) !in before then before[KeyOf(t) := [t.policy]]
      else if t.policy in before[KeyOf(t)] then before
      else before[KeyOf(t) := before[KeyOf(t)] + [t.policy]]
  }

  /** otherIPs after n pods of a visit that follows the pairs of ts. */
  function NewLocals(ts: seq<Touch>, v: Visit, n: nat): seq<string>
    requires n <= |v.locals|
  {
    if n == 0 then []
    else
      var local := v.locals[n - 1];
      NewLocals(ts, v, n - 1)
      + if local != v.remote && PairKey(v.remote, local) !in ReuseOf(ts + TouchesOf(v, n - 1)) then [local] else []
  }

  /** connections after the visits of vs. */
  function ConnectionsOf(vs: seq<Visit>): map<string, seq<Connection>> {
    if vs == [] then map[]
    else
      var before, v := ConnectionsOf(vs[..|vs| - 1]), vs[|vs| - 1];
      var others := NewLocals(Touches(vs[..|vs| - 1]), v, |v.locals|);
      if others == [] then before
      else before[v.remote := (if v.remote in before then before[v.remote] else [])
                              + [Connection(others, v.ports, v.policy)]]
  }

  // ----- addrReuse names the covering policies -----

  lemma {:induction false} ReuseCovers(ts: seq<Touch>, key: string)
    ensures key in ReuseOf(ts) <==> exists t :: t in ts && KeyOf(t) == key
    ensures key in ReuseOf(ts) ==>
      && NoRepeats(ReuseOf(ts)[key]) && ReuseOf(ts)[key] != []
      && forall name :: name in ReuseOf(ts)[key] <==> exists t :: t in ts && KeyOf(t) == key && t.policy == name
    decreases |ts|
  {
    hide PairKey, KeyOf;
    if ts != [] {
      ReuseCovers(ts[..|ts| - 1], key);
      assert forall t :: t in ts <==> t in ts[..|ts| - 1] || t == ts[|ts| - 1];
    }
  }

  // ----- connections lists each pair once -----

  /** How often the client's work lists name a pair. */
  function Occurrences(conns: seq<Connection>, local: string): nat {
    if conns == [] then 0
    else Occurrences(conns[..|conns| - 1], local) + Count(conns[|conns| - 1].addresses, local)
  }

  function PairCount(connections: map<string, seq<Connection>>, remote: string, local: string): nat {
    if remote in connections then Occurrences(connections[remote], local) else 0
  }

  /** How often the pair is met with a key not met before. */
  function NewCount(ts: seq<Touch>, remote: string, local: string): nat {
    if ts == [] then 0
    else
      var before, t := ts[..|ts| - 1], ts[|ts| - 1];
      NewCount(before, remote, local) + One(t.remote == remote && t.local == local && KeyOf(t) !in ReuseOf(before))
  }

  lemma NewCountMore(before: seq<Touch>, t: Touch, remote: string, local: string)
    ensures NewCount(before + [t], remote, local)
         == NewCount(before, remote, local)
            + One(t.remote == remote && t.local == local && KeyOf(t) !in ReuseOf(before))
  {
    assert (before + [t])[..|before|] == before;
  }

  /** A pod that may or may not be new to the work list. */
  lemma CountMaybe(list: seq<string>, isNew: bool, last: string, local: string)
    ensures Count(list + if isNew then [last] else [], local) == Count(list, local) + One(isNew && last == local)
  {
    CountConcat(list, if isNew then [last] else [], local);
    CountSingle(last, local);
    CountNone(local);
  }

  lemma {:induction false} NewLocalsCount(ts: seq<Touch>, v: Visit, n: nat, remote: string, local: string)
    requires n <= |v.locals|
    ensures NewCount(ts + TouchesOf(v, n), remote, local)
         == NewCount(ts, remote, local) + (if v.remote == remote then Count(NewLocals(ts, v, n), local) else 0)
    decreases n
  {
    hide PairKey, ReuseOf, NewCount;
    if n == 0 {
      assert ts + [] == ts;
    } else {
      var last := v.locals[n - 1];
      NewLocalsCount(ts, v, n - 1, remote, local);
      var before := ts + TouchesOf(v, n - 1);
      if last != v.remote {
        var t := Touch(v.remote, last, v.policy);
        assert ts + TouchesOf(v, n) == before + [t];
        NewCountMore(before, t, remote, local);
        CountMaybe(NewLocals(ts, v, n - 1), PairKey(v.remote, last) !in ReuseOf(before), last, local);
        hide Count, TouchesOf;
      } else {
        assert ts + TouchesOf(v, n) == before;
        assert NewLocals(ts, v, n) == NewLocals(ts, v, n - 1);
      }
    }
  }

  lemma PairCountMore(before: map<string, seq<Connection>>, v: Visit, others: seq<string>,
                      remote: string, local: string)
    ensures
      var list := if v.remote in before then before[v.remote] else [];
      var after := before[v.remote := list + [Connection(others, v.ports, v.policy)]];
      PairCount(after, remote, local)
      == PairCount(before, remote, local) + if v.remote == remote then Count(others, local) else 0
  {
    hide Count;
    var list := if v.remote in before then before[v.remote] else [];
    var more := list + [Connection(others, v.ports, v.policy)];
    assert more[..|list|] == list;
    assert Occurrences(more, local) == Occurrences(list, local) + Count(others, local);
  }

  lemma {:induction false} ConnectionsCount(vs: seq<Visit>, remote: string, local: string)
    ensures PairCount(ConnectionsOf(vs), remote, local) == NewCount(Touches(vs), remote, local)
    decreases |vs|
  {
    hide ReuseOf, PairKey, TouchesOf, NewLocals, PairCount;
    if vs == [] {
      NothingListed(remote, local);
    } else {
      var rest, v := vs[..|vs| - 1], vs[|vs| - 1];
      ConnectionsCount(rest, remote, local);
      NewLocalsCount(Touches(rest), v, |v.locals|, remote, local);
      hide NewCount;
      var others := NewLocals(Touches(rest), v, |v.locals|);
      PairCountMore(ConnectionsOf(rest), v, others, remote, local);
    }
  }

  lemma NothingListed(remote: string, local: string)
    ensures PairCount(map[], remote, local) == 0
  {
  }

  // ----- whose connection a pair is in -----

  /** A pair's list of policies only grows at its end. */
  lemma {:induction false} ReuseGrows(ts: seq<Touch>, more: seq<Touch>, key: string)
    requires key in ReuseOf(ts) && ReuseOf(ts)[key] != []
    ensures key in ReuseOf(ts + more) && ReuseOf(ts)[key] <= ReuseOf(ts + more)[key]
    decreases |more|
  {
    hide KeyOf;
    if more == [] {
      assert ts + more == ts;
    } else {
      var rest, last := more[..|more| - 1], more[|more| - 1];
      ReuseGrows(ts, rest, key);
      assert (ts + more)[..|ts + more| - 1] == ts + rest;
    }
  }

  lemma {:induction false} NewLocalFirst(ts: seq<Touch>, v: Visit, n: nat, local: string)
    requires n <= |v.locals| && local in NewLocals(ts, v, n)
    ensures
      var reuse, key := ReuseOf(ts + TouchesOf(v, n)), PairKey(v.remote, local);
      key in reuse && reuse[key] != [] && reuse[key][0] == v.policy
    decreases n
  {
    hide PairKey, ReuseOf;
    var last, before := v.locals[n - 1], ts + TouchesOf(v, n - 1);
    var key := PairKey(v.remote, local);
    if local in NewLocals(ts, v, n - 1) {
      NewLocalFirst(ts, v, n - 1, local);
      var more := if last != v.remote then [Touch(v.remote, last, v.policy)] else [];
      ReuseGrows(before, more, key);
      assert ts + TouchesOf(v, n) == before + more;
    } else {
      var t := Touch(v.remote, last, v.policy);
      assert local == last && ts + TouchesOf(v, n) == before + [t];
      ReuseMore(before, t);
    }
  }

  /** A connection carries the name of the first policy that covers its pairs: the one
      its sample is sent under. */
  lemma {:induction false} ConnectionsNameFirst(vs: seq<Visit>, remote: string, k: nat, local: string)
    requires remote in ConnectionsOf(vs) && k < |ConnectionsOf(vs)[remote]|
    requires local in ConnectionsOf(vs)[remote][k].addresses
    ensures
      var reuse, key := ReuseOf(Touches(vs)), PairKey(remote, local);
      key in reuse && reuse[key] != [] && reuse[key][0] == ConnectionsOf(vs)[remote][k].netpol
    decreases |vs|
  {
    hide PairKey, ReuseOf, NewLocals, TouchesOf;
    var rest, v := vs[..|vs| - 1], vs[|vs| - 1];
    var before := ConnectionsOf(rest);
    if remote in before && k < |before[remote]| {
      assert ConnectionsOf(vs)[remote][k] == before[remote][k];
      ConnectionsNameFirst(rest, remote, k, local);
      ReuseGrows(Touches(rest), TouchesOf(v, |v.locals|), PairKey(remote, local));
    } else {
      assert remote == v.remote;
      NewLocalFirst(Touches(rest), v, |v.locals|, local);
    }
  }

  /** The pair that brought in each key. */
  function Owner(ts: seq<Touch>): (m: map<string, (string, string)>)
    ensures forall key :: key in m <==> key in ReuseOf(ts)
  {
    if ts == [] then map[]
    else
      var before, t := Owner(ts[..|ts| - 1]), ts[|ts| - 1];
      if KeyOf(t) in before then before else before[KeyOf(t) := (t.remote, t.local)]
  }

  lemma {:induction false} NewCountIsOwner(ts: seq<Touch>, remote: string, local: string)
    ensures NewCount(ts, remote, local)
         == One(PairKey(remote, local) in Owner(ts) && Owner(ts)[PairKey(remote, local)] == (remote, local))
    decreases |ts|
  {
    hide PairKey, ReuseOf;
    if ts != [] {
      NewCountIsOwner(ts[..|ts| - 1], remote, local);
    }
  }

  lemma {:induction false} OwnerTouched(ts: seq<Touch>, key: string)
    requires key in Owner(ts)
    ensures exists t :: t in ts && KeyOf(t) == key && Owner(ts)[key] == (t.remote, t.local)
    decreases |ts|
  {
    hide PairKey, ReuseOf, KeyOf;
    var before, t := ts[..|ts| - 1], ts[|ts| - 1];
    if key in Owner(before) {
      OwnerTouched(before, key);
    }
  }

  /** The printed keys tell the allowed pairs apart. */
  ghost predicate KeysDistinguish(ts: seq<Touch>) {
    forall t, u :: t in ts && u in ts && KeyOf(t) == KeyOf(u) ==> t.remote == u.remote && t.local == u.local
  }

  /** No pair is listed twice and none that no policy allows. */
  lemma AtMostOnce(vs: seq<Visit>, remote: string, local: string)
    ensures PairCount(ConnectionsOf(vs), remote, local) <= 1
    ensures PairCount(ConnectionsOf(vs), remote, local) == 1 ==>
      exists t :: t in Touches(vs) && t.remote == remote && t.local == local
  {
    ConnectionsCount(vs, remote, local);
    NewCountIsOwner(Touches(vs), remote, local);
    hide PairKey, Owner, ConnectionsOf, ReuseOf;
    if PairCount(ConnectionsOf(vs), remote, local) == 1 {
      OwnerTouched(Touches(vs), PairKey(remote, local));
    }
  }

  /** Every allowed pair is listed exactly once, exactly when the printed keys tell the
      allowed pairs apart. */
  lemma ExactlyOnceIff(vs: seq<Visit>)
    ensures (forall t :: t in Touches(vs) ==> PairCount(ConnectionsOf(vs), t.remote, t.local) == 1)
       <==> KeysDistinguish(Touches(vs))
  {
    var ts := Touches(vs);
    forall t | t in ts
      ensures KeyOf(t) in Owner(ts)
      ensures PairCount(ConnectionsOf(vs), t.remote, t.local) == 1 <==> Owner(ts)[KeyOf(t)] == (t.remote, t.local)
    {
      ConnectionsCount(vs, t.remote, t.local);
      NewCountIsOwner(ts, t.remote, t.local);
      ReuseCovers(ts, KeyOf(t));
    }
    if KeysDistinguish(ts) {
      forall t | t in ts ensures Owner(ts)[KeyOf(t)] == (t.remote, t.local) {
        OwnerTouched(ts, KeyOf(t));
      }
    }
    hide PairKey, Owner, ConnectionsOf, ReuseOf, Touches;
  }

  /** Addresses without a colon, as in IPv4, always give distinguishing keys. */
  lemma ColonFreeDistinguishes(r1: string, l1: string, r2: string, l2: string)
    requires ':' !in r1 && ':' !in r2 && PairKey(r1, l1) == PairKey(r2, l2)
    ensures r1 == r2 && l1 == l2
  {
    var key := PairKey(r1, l1);
    assert key[|r1|] == ':' && key[|r2|] == ':';
    assert forall k :: 0 <= k < |r1| ==> key[k] == r1[k] && r1[k] in r1;
    assert forall k :: 0 <= k < |r2| ==> key[k] == r2[k] && r2[k] in r2;
    assert r1 == key[..|r1|] && r2 == key[..|r2|];
    assert l1 == key[|r1| + 1..] && l2 == key[|r2| + 1..];
  }

  // ----- The loops -----

  /** How often the server's port has been appended when the first p peers of a rule
      are done: ingressPorts belongs to the rule and every selective peer appends. */
  function PortsAfter(rule: Ingress, p: nat): nat
    requires p <= |rule.peers|
  {
    if p == 0 then 0 else PortsAfter(rule, p - 1) + One(rule.peers[p - 1].selective && rule.serverPort)
  }

  function PeerVisits(policy: Policy, remotes: seq<string>, ports: nat): seq<Visit> {
    seq(|remotes|, k requires 0 <= k < |remotes| => Visit(remotes[k], policy.locals, policy.name, ports))
  }

  function RuleVisits(policy: Policy, rule: Ingress, p: nat): seq<Visit>
    requires p <= |rule.peers|
  {
    if p == 0 then []
    else RuleVisits(policy, rule, p - 1)
         + if rule.peers[p - 1].selective then PeerVisits(policy, rule.peers[p - 1].remotes, PortsAfter(rule, p))
           else []
  }

  function PolicyVisits(policy: Policy, r: nat): seq<Visit>
    requires r <= |policy.rules|
  {
    if r == 0 then []
    else PolicyVisits(policy, r - 1) + RuleVisits(policy, policy.rules[r - 1], |policy.rules[r - 1].peers|)
  }

  function AllVisits(policies: seq<Policy>): seq<Visit> {
    if policies == [] then []
    else AllVisits(policies[..|policies| - 1])
         + PolicyVisits(policies[|policies| - 1], |policies[|policies| - 1].rules|)
  }

  /** A policy lets remote reach local: some peer of some rule names remote, and local
      is one of the policy's pods. */
  ghost predicate Allows(policy: Policy, remote: string, local: string) {
    && remote != local && local in policy.locals
    && exists r, p :: 0 <= r < |policy.rules| && 0 <= p < |policy.rules[r].peers|
         && policy.rules[r].peers[p].selective && remote in policy.rules[r].peers[p].remotes
  }

  class NetpolLatency {
    var addrReuse: map<string, seq<string>>
    var connections: map<string, seq<Connection>>
    var npResults: map<string, seq<int>>

    /** The tables are those of the visits so far. */
    ghost predicate Holds(vs: seq<Visit>)
      reads this
    {
      addrReuse == ReuseOf(Touches(vs)) && connections == ConnectionsOf(vs)
    }

    /** The body of the loop over client addresses. */
    method VisitRemote(v: Visit, ghost vs: seq<Visit>)
      requires Holds(vs)
      modifies this
      ensures Holds(vs + [v]) && npResults == old(npResults)
    {
      var otherIPs: seq<string> := [];
      ghost var ts := Touches(vs);
      VisitStart(ts, v);
      hide ReuseOf, TouchesOf, NewLocals, ConnectionsOf, Touches, PairKey;
      for n := 0 to |v.locals|
        invariant addrReuse == ReuseOf(ts + TouchesOf(v, n)) && otherIPs == NewLocals(ts, v, n)
        invariant connections == ConnectionsOf(vs) && npResults == old(npResults)
      {
        var ip := v.locals[n];
        VisitMore(ts, v, n);
        if ip != v.remote {
          var key := PairKey(v.remote, ip);
          if key !in addrReuse {
            addrReuse := addrReuse[key := [v.policy]];
            otherIPs := otherIPs + [ip];
          } else if v.policy !in addrReuse[key] {
            addrReuse := addrReuse[key := addrReuse[key] + [v.policy]];
          }
        }
      }
      VisitEnd(vs, v);
      if otherIPs == [] {
        return;
      }
      var conn := Connection(otherIPs, v.ports, v.policy);
      connections := connections[v.remote := (if v.remote in connections then connections[v.remote] else []) + [conn]];
    }

    /** prepareConnections over the policies of the job, in order. The tables still hold
        the visits `earlier` of the jobs before: nothing resets them. */
    method PrepareConnections(policies: seq<Policy>, ghost earlier: seq<Visit>)
      requires Holds(earlier)
      modifies this
      ensures Holds(earlier + AllVisits(policies)) && npResults == old(npResults)
    {
      hide Holds, PolicyVisits;
      ghost var vs := earlier;
      assert earlier + AllVisits([]) == earlier;
      for j := 0 to |policies|
        invariant vs == earlier + AllVisits(policies[..j]) && Holds(vs) && npResults == old(npResults)
      {
        vs := VisitPolicy(policies[j], vs);
        assert policies[..j + 1][..j] == policies[..j];
      }
      assert policies[..|policies|] == policies;
    }

    method VisitPolicy(policy: Policy, ghost vs: seq<Visit>) returns (ghost vs2: seq<Visit>)
      requires Holds(vs)
      modifies this
      ensures vs2 == vs + PolicyVisits(policy, |policy.rules|) && Holds(vs2) && npResults == old(npResults)
    {
      hide Holds, RuleVisits;
      vs2 := vs;
      for r := 0 to |policy.rules|
        invariant vs2 == vs + PolicyVisits(policy, r) && Holds(vs2) && npResults == old(npResults)
      {
        vs2 := VisitRule(policy, policy.rules[r], vs2);
      }
    }

    method VisitRule(policy: Policy, rule: Ingress, ghost vs: seq<Visit>) returns (ghost vs2: seq<Visit>)
      requires Holds(vs)
      modifies this
      ensures vs2 == vs + RuleVisits(policy, rule, |rule.peers|) && Holds(vs2) && npResults == old(npResults)
    {
      hide Holds, PeerVisits;
      vs2 := vs;
      var ingressPorts: nat := 0;
      for p := 0 to |rule.peers|
        invariant ingressPorts == PortsAfter(rule, p)
        invariant vs2 == vs + RuleVisits(policy, rule, p) && Holds(vs2) && npResults == old(npResults)
      {
        var peer := rule.peers[p];
        if !peer.selective {
          continue;
        }
        if rule.serverPort {
          ingressPorts := ingressPorts + 1;
        }
        vs2 := VisitPeer(policy, peer.remotes, ingressPorts, vs2);
      }
    }

    method VisitPeer(policy: Policy, remotes: seq<string>, ports: nat, ghost vs: seq<Visit>)
      returns (ghost vs2: seq<Visit>)
      requires Holds(vs)
      modifies this
      ensures vs2 == vs + PeerVisits(policy, remotes, ports) && Holds(vs2) && npResults == old(npResults)
    {
      hide Holds;
      vs2 := vs;
      ghost var all := PeerVisits(policy, remotes, ports);
      for k := 0 to |remotes|
        invariant vs2 == vs + all[..k] && Holds(vs2) && npResults == old(npResults)
      {
        var v := Visit(remotes[k], policy.locals, policy.name, ports);
        VisitRemote(v, vs2);
        assert all[..k + 1] == all[..k] + [v];
        vs2 := vs2 + [v];
      }
      assert all[..|remotes|] == all;
    }

    /** processResults: a policy's list of latencies grows by one for each connection result
        whose key it covers, in the order of the results, and by nothing else. */
    method ProcessResults(results: seq<Result>, creationTime: map<string, int>, ghost vs: seq<Visit>)
      requires Holds(vs)
      modifies this
      ensures Holds(vs)
      ensures forall name ::
        Samples(npResults, name) == Samples(old(npResults), name) + Gained(Touches(vs), results, creationTime, name)
      ensures forall name ::
        name in npResults <==> name in old(npResults) || Gained(Touches(vs), results, creationTime, name) != []
    {
      hide Holds, ReuseOf, ConnectionsOf, Touches, Gained, Samples, GrownBy;
      ghost var ts, start := Touches(vs), npResults;
      KeptTables(vs);
      NotGrown(ts, results[..0], creationTime, start);
      for r := 0 to |results|
        invariant Holds(vs) && GrownBy(ts, results[..r], creationTime, start, npResults)
      {
        assert results[..r + 1] == results[..r] + [results[r]];
        ghost var before := npResults;
        AddSamples(results[r], creationTime, vs);
        GrownMore(ts, results[..r], results[r], creationTime, start, before, npResults);
      }
      assert results[..|results|] == results;
      GrownMeans(ts, results, creationTime, start, npResults);
    }

    lemma KeptTables(vs: seq<Visit>)
      requires Holds(vs)
      ensures addrReuse == ReuseOf(Touches(vs)) && connections == ConnectionsOf(vs)
    {
    }

    /** The body of its loop over results. */
    method AddSamples(result: Result, creationTime: map<string, int>, ghost vs: seq<Visit>)
      requires Holds(vs)
      modifies this
      ensures Holds(vs)
      ensures AddedFor(Touches(vs), result, creationTime, old(npResults), npResults)
    {
      var key := KeyOfResult(result);
      AppendLatencies(if key in addrReuse then addrReuse[key] else [], result, creationTime);
      ReuseAppends(Touches(vs), result, creationTime, old(npResults));
      hide ReuseOf, ConnectionsOf, Touches, PairKey, AddedFor, Appended;
    }

    method AppendLatencies(names: seq<string>, result: Result, creationTime: map<string, int>)
      modifies this`npResults
      ensures npResults == Appended(old(npResults), names, result, creationTime)
    {
      assert Appended(npResults, names[..0], result, creationTime) == npResults;
      hide Appended;
      for k := 0 to |names|
        invariant npResults == Appended(old(npResults), names[..k], result, creationTime)
      {
        AppendedStep(old(npResults), names, k, result, creationTime);
        var created := if names[k] in creationTime then creationTime[names[k]] else 0;
        npResults := npResults[names[k] := (if names[k] in npResults then npResults[names[k]] else [])
                                           + [result.2 - created]];
      }
      assert names[..|names|] == names;
    }
  }

  /** A connection result: client, server and the moment the connection was made. */
  type Result = (string, string, int)

  function KeyOfResult(result: (string, string, int)): string { PairKey(result.0, result.1) }

  /** Some pair with that key was met under a policy of that name. */
  ghost predicate Covers(ts: seq<Touch>, key: string, name: string) {
    exists t :: t in ts && KeyOf(t) == key && t.policy == name
  }

  /** The latencies recorded under a name. */
  function Samples(results: map<string, seq<int>>, name: string): seq<int> {
    if name in results then results[name] else []
  }

  /** From the policy's creation to the connection; a policy that is missing from
      creationTime counts from 0. */
  function Latency(result: Result, creationTime: map<string, int>, name: string): int {
    result.2 - if name in creationTime then creationTime[name] else 0
  }

  /** What one result adds to a policy. */
  ghost function Sample(ts: seq<Touch>, result: Result, creationTime: map<string, int>, name: string): seq<int> {
    if Covers(ts, PairKey(result.0, result.1), name) then [Latency(result, creationTime, name)] else []
  }

  /** What all results add to it, in their order. */
  ghost function Gained(ts: seq<Touch>, results: seq<Result>, creationTime: map<string, int>, name: string)
    : seq<int>
  {
    if results == [] then []
    else Gained(ts, results[..|results| - 1], creationTime, name)
         + Sample(ts, results[|results| - 1], creationTime, name)
  }

  /** From `before` to `after` every policy's list has grown by what it gained. */
  ghost predicate GrownBy(ts: seq<Touch>, results: seq<Result>, creationTime: map<string, int>,
                          before: map<string, seq<int>>, after: map<string, seq<int>>) {
    forall name ::
      && Samples(after, name) == Samples(before, name) + Gained(ts, results, creationTime, name)
      && (name in after <==> name in before || Gained(ts, results, creationTime, name) != [])
  }

  ghost predicate AddedFor(ts: seq<Touch>, result: Result, creationTime: map<string, int>,
                           before: map<string, seq<int>>, after: map<string, seq<int>>) {
    forall name ::
      && Samples(after, name) == Samples(before, name) + Sample(ts, result, creationTime, name)
      && (name in after <==> name in before || Sample(ts, result, creationTime, name) != [])
  }

  lemma NotGrown(ts: seq<Touch>, results: seq<Result>, creationTime: map<string, int>, before: map<string, seq<int>>)
    requires results == []
    ensures GrownBy(ts, results, creationTime, before, before)
  {
  }

  lemma GrownMeans(ts: seq<Touch>, results: seq<Result>, creationTime: map<string, int>,
                   before: map<string, seq<int>>, after: map<string, seq<int>>)
    requires GrownBy(ts, results, creationTime, before, after)
    ensures forall name :: Samples(after, name) == Samples(before, name) + Gained(ts, results, creationTime, name)
    ensures forall name :: name in after <==> name in before || Gained(ts, results, creationTime, name) != []
  {
    hide Samples, Gained;
  }

  lemma GrownMore(ts: seq<Touch>, results: seq<Result>, result: Result, creationTime: map<string, int>,
                  start: map<string, seq<int>>, before: map<string, seq<int>>, after: map<string, seq<int>>)
    requires GrownBy(ts, results, creationTime, start, before) && AddedFor(ts, result, creationTime, before, after)
    ensures GrownBy(ts, results + [result], creationTime, start, after)
  {
    forall name
      ensures Samples(after, name) == Samples(start, name) + Gained(ts, results + [result], creationTime, name)
      ensures name in after <==> name in start || Gained(ts, results + [result], creationTime, name) != []
    {
      GrownMoreAt(ts, results, result, creationTime, start, before, after, name);
    }
    hide Samples, Gained, AddedFor;
  }

  lemma GrownMoreAt(ts: seq<Touch>, results: seq<Result>, result: Result, creationTime: map<string, int>,
                    start: map<string, seq<int>>, before: map<string, seq<int>>, after: map<string, seq<int>>,
                    name: string)
    requires GrownBy(ts, results, creationTime, start, before) && AddedFor(ts, result, creationTime, before, after)
    ensures Samples(after, name) == Samples(start, name) + Gained(ts, results + [result], creationTime, name)
    ensures name in after <==> name in start || Gained(ts, results + [result], creationTime, name) != []
  {
    hide Samples, Gained, Sample;
    GainedMore(ts, results, result, creationTime, name);
    assert Samples(before, name) == Samples(start, name) + Gained(ts, results, creationTime, name);
  }

  lemma GainedMore(ts: seq<Touch>, results: seq<Result>, result: Result, creationTime: map<string, int>, name: string)
    ensures Gained(ts, results + [result], creationTime, name)
         == Gained(ts, results, creationTime, name) + Sample(ts, result, creationTime, name)
  {
    assert (results + [result])[..|results|] == results;
  }

  /** The result's latency appended under each name. */
  function Appended(before: map<string, seq<int>>, names: seq<string>, result: Result, creationTime: map<string, int>)
    : map<string, seq<int>>
  {
    if names == [] then before
    else
      var rest, last := Appended(before, names[..|names| - 1], result, creationTime), names[|names| - 1];
      rest[last := Samples(rest, last) + [Latency(result, creationTime, last)]]
  }

  lemma AppendedStep(before: map<string, seq<int>>, names: seq<string>, k: nat, result: Result,
                     creationTime: map<string, int>)
    requires k < |names|
    ensures
      var rest, created := Appended(before, names[..k], result, creationTime),
                           if names[k] in creationTime then creationTime[names[k]] else 0;
      Appended(before, names[..k + 1], result, creationTime)
      == rest[names[k] := (if names[k] in rest then rest[names[k]] else []) + [result.2 - created]]
  {
    assert names[..k + 1][..k] == names[..k];
  }

  lemma {:induction false} AppendedTo(before: map<string, seq<int>>, names: seq<string>, result: Result,
                                      creationTime: map<string, int>, name: string)
    requires NoRepeats(names)
    ensures
      var after := Appended(before, names, result, creationTime);
      && Samples(after, name)
         == Samples(before, name) + (if name in names then [Latency(result, creationTime, name)] else [])
      && (name in after <==> name in before || name in names)
    decreases |names|
  {
    if names != [] {
      var rest, last := names[..|names| - 1], names[|names| - 1];
      AppendedTo(before, rest, result, creationTime, name);
      assert names == rest + [last];
      hide Latency;
    }
  }

  lemma ReuseAppends(ts: seq<Touch>, result: Result, creationTime: map<string, int>, before: map<string, seq<int>>)
    ensures
      var reuse, key := ReuseOf(ts), PairKey(result.0, result.1);
      AddedFor(ts, result, creationTime, before,
               Appended(before, if key in reuse then reuse[key] else [], result, creationTime))
  {
    var key := PairKey(result.0, result.1);
    ReuseCovers(ts, key);
    hide ReuseOf, PairKey, KeyOf;
    var names := if key in ReuseOf(ts) then ReuseOf(ts)[key] else [];
    forall name
      ensures var after := Appended(before, names, result, creationTime);
              && Samples(after, name) == Samples(before, name) + Sample(ts, result, creationTime, name)
              && (name in after <==> name in before || Sample(ts, result, creationTime, name) != [])
    {
      AppendedTo(before, names, result, creationTime, name);
      assert name in names <==> Covers(ts, key, name);
      hide Samples, Appended, Latency;
    }
  }

  lemma ReuseMore(before: seq<Touch>, t: Touch)
    ensures ReuseOf(before + [t])
         == if KeyOf(t) !in ReuseOf(before) then ReuseOf(before)[KeyOf(t) := [t.policy]]
            else if t.policy in ReuseOf(before)[KeyOf(t)] then ReuseOf(before)
            else ReuseOf(before)[KeyOf(t) := ReuseOf(before)[KeyOf(t)] + [t.policy]]
  {
    assert (before + [t])[..|before|] == before;
  }

  lemma VisitStart(ts: seq<Touch>, v: Visit)
    ensures ts + TouchesOf(v, 0) == ts && NewLocals(ts, v, 0) == []
  {
  }

  /** One more pod of a visit. */
  lemma VisitMore(ts: seq<Touch>, v: Visit, n: nat)
    requires n < |v.locals|
    ensures
      var reuse, reuse2 := ReuseOf(ts + TouchesOf(v, n)), ReuseOf(ts + TouchesOf(v, n + 1));
      var list, list2 := NewLocals(ts, v, n), NewLocals(ts, v, n + 1);
      var key := PairKey(v.remote, v.locals[n]);
      if v.locals[n] == v.remote then reuse2 == reuse && list2 == list
      else if key !in reuse then reuse2 == reuse[key := [v.policy]] && list2 == list + [v.locals[n]]
      else list2 == list && reuse2 == if v.policy in reuse[key] then reuse else reuse[key := reuse[key] + [v.policy]]
  {
    hide ReuseOf;
    var before := ts + TouchesOf(v, n);
    if v.locals[n] == v.remote {
      assert ts + TouchesOf(v, n + 1) == before;
      assert NewLocals(ts, v, n + 1) == NewLocals(ts, v, n);
    } else {
      var t := Touch(v.remote, v.locals[n], v.policy);
      ReuseMore(before, t);
      assert ts + TouchesOf(v, n + 1) == before + [t];
      assert NewLocals(ts, v, n) + [] == NewLocals(ts, v, n);
    }
  }

  lemma VisitEnd(vs: seq<Visit>, v: Visit)
    ensures Touches(vs + [v]) == Touches(vs) + TouchesOf(v, |v.locals|)
    ensures
      var before, others := ConnectionsOf(vs), NewLocals(Touches(vs), v, |v.locals|);
      ConnectionsOf(vs + [v])
      == if others == [] then before
         else before[v.remote := (if v.remote in before then before[v.remote] else [])
                                 + [Connection(others, v.ports, v.policy)]]
  {
    assert (vs + [v])[..|vs|] == vs;
    hide NewLocals, TouchesOf;
  }

  // ----- From policies to pairs -----

  lemma {:induction false} VisitTouches(v: Visit, n: nat, t: Touch)
    requires n <= |v.locals|
    ensures t in TouchesOf(v, n)
       <==> t.remote == v.remote && t.policy == v.policy && t.local != t.remote && t.local in v.locals[..n]
  {
    if n > 0 {
      VisitTouches(v, n - 1, t);
      assert v.locals[..n] == v.locals[..n - 1] + [v.locals[n - 1]];
    }
  }

  lemma {:induction false} TouchesIn(vs: seq<Visit>, t: Touch)
    ensures t in Touches(vs)
       <==> t.local != t.remote
            && exists v :: v in vs && v.remote == t.remote && v.policy == t.policy && t.local in v.locals
    decreases |vs|
  {
    if vs != [] {
      var rest, last := vs[..|vs| - 1], vs[|vs| - 1];
      TouchesIn(rest, t);
      VisitTouches(last, |last.locals|, t);
      assert last.locals[..|last.locals|] == last.locals;
      hide Touches, TouchesOf;
      assert forall v :: v in vs <==> v in rest || v == last;
    }
  }

  /** remote is a client of the rule's first p peers. */
  ghost predicate Named(rule: Ingress, p: nat, remote: string)
    requires p <= |rule.peers|
  {
    exists k :: 0 <= k < p && rule.peers[k].selective && remote in rule.peers[k].remotes
  }

  lemma {:induction false} RuleVisitsIn(policy: Policy, rule: Ingress, p: nat, remote: string)
    requires p <= |rule.peers|
    ensures (exists v :: v in RuleVisits(policy, rule, p) && v.remote == remote) <==> Named(rule, p, remote)
    ensures forall v :: v in RuleVisits(policy, rule, p) ==> v.locals == policy.locals && v.policy == policy.name
  {
    if p > 0 {
      RuleVisitsIn(policy, rule, p - 1, remote);
      var peer := rule.peers[p - 1];
      var more := PeerVisits(policy, peer.remotes, PortsAfter(rule, p));
      assert forall v :: v in more ==> v.remote in peer.remotes && v.locals == policy.locals && v.policy == policy.name;
      if remote in peer.remotes {
        var k :| 0 <= k < |peer.remotes| && peer.remotes[k] == remote;
        assert more[k].remote == remote && more[k] in more;
      }
      hide PeerVisits, PortsAfter;
    }
  }

  lemma {:induction false} PolicyVisitsIn(policy: Policy, r: nat, remote: string)
    requires r <= |policy.rules|
    ensures (exists v :: v in PolicyVisits(policy, r) && v.remote == remote)
       <==> exists k :: 0 <= k < r && Named(policy.rules[k], |policy.rules[k].peers|, remote)
    ensures forall v :: v in PolicyVisits(policy, r) ==> v.locals == policy.locals && v.policy == policy.name
  {
    if r > 0 {
      hide Named, RuleVisits;
      PolicyVisitsIn(policy, r - 1, remote);
      RuleVisitsIn(policy, policy.rules[r - 1], |policy.rules[r - 1].peers|, remote);
    }
  }

  lemma PolicyAllows(policy: Policy, remote: string, local: string)
    requires remote != local && local in policy.locals
    ensures Allows(policy, remote, local)
       <==> exists v :: v in PolicyVisits(policy, |policy.rules|) && v.remote == remote
  {
    PolicyVisitsIn(policy, |policy.rules|, remote);
    if Allows(policy, remote, local) {
      var r, p :| 0 <= r < |policy.rules| && 0 <= p < |policy.rules[r].peers|
        && policy.rules[r].peers[p].selective && remote in policy.rules[r].peers[p].remotes;
      assert Named(policy.rules[r], |policy.rules[r].peers|, remote);
    }
  }

  /** The pairs the loops look at are exactly the pairs some policy allows. */
  lemma {:induction false} TouchedIffAllowed(policies: seq<Policy>, t: Touch)
    ensures t in Touches(AllVisits(policies))
       <==> exists policy :: policy in policies && policy.name == t.policy && Allows(policy, t.remote, t.local)
    decreases |policies|
  {
    if policies != [] {
      var rest, last := policies[..|policies| - 1], policies[|policies| - 1];
      TouchedIffAllowed(rest, t);
      var more := PolicyVisits(last, |last.rules|);
      TouchesIn(AllVisits(rest), t);
      TouchesIn(AllVisits(policies), t);
      PolicyVisitsIn(last, |last.rules|, t.remote);
      if t.remote != t.local && t.local in last.locals {
        PolicyAllows(last, t.remote, t.local);
      }
      hide Touches, PolicyVisits, Allows;
      assert forall p :: p in policies <==> p in rest || p == last;
      assert forall v :: v in AllVisits(policies) <==> v in AllVisits(rest) || v in more;
    }
  }

  /** addrReuse after prepareConnections: under each pair's key exactly the names of
      the policies that allow a pair with that key, without repeats. */
  lemma ReuseIsCoverage(policies: seq<Policy>, remote: string, local: string, name: string)
    ensures
      var reuse, key := ReuseOf(Touches(AllVisits(policies))), PairKey(remote, local);
      && (key in reuse ==> NoRepeats(reuse[key]))
      && ((key in reuse && name in reuse[key])
          <==> exists t: Touch :: KeyOf(t) == key && t.policy == name
                 && exists policy :: policy in policies && policy.name == name && Allows(policy, t.remote, t.local))
  {
    var ts, key := Touches(AllVisits(policies)), PairKey(remote, local);
    ReuseCovers(ts, key);
    hide ReuseOf, Allows, PairKey, AllVisits, Touches;
    forall t: Touch | KeyOf(t) == key && t.policy == name
      ensures t in ts
         <==> exists policy :: policy in policies && policy.name == name && Allows(policy, t.remote, t.local)
    {
      TouchedIffAllowed(policies, t);
    }
  }

  /** Every ordered pair of different addresses that some policy allows is tested
      exactly once and no other pair is, when the keys tell the allowed pairs apart. */
  lemma TestedOnce(policies: seq<Policy>, remote: string, local: string)
    requires KeysDistinguish(Touches(AllVisits(policies)))
    ensures PairCount(ConnectionsOf(AllVisits(policies)), remote, local)
         == One(exists policy :: policy in policies && Allows(policy, remote, local))
  {
    var vs := AllVisits(policies);
    ExactlyOnceIff(vs);
    AtMostOnce(vs, remote, local);
    hide Touches, ConnectionsOf, KeysDistinguish, Allows, AllVisits;
    if policy :| policy in policies && Allows(policy, remote, local) {
      TouchedIffAllowed(policies, Touch(remote, local, policy.name));
    }
    if PairCount(ConnectionsOf(vs), remote, local) == 1 {
      var t :| t in Touches(vs) && t.remote == remote && t.local == local;
      TouchedIffAllowed(policies, t);
    }
  }

  /** IPv4 clients are enough for that. */
  lemma ColonFreeClients(ts: seq<Touch>)
    requires forall t :: t in ts ==> ':' !in t.remote
    ensures KeysDistinguish(ts)
  {
    forall t, u | t in ts && u in ts && KeyOf(t) == KeyOf(u) ensures t.remote == u.remote && t.local == u.local {
      ColonFreeDistinguishes(t.remote, t.local, u.remote, u.local);
    }
  }

  /** The policies of several jobs are visited as those of one. */
  lemma {:induction false} VisitsOfJobs(earlier: seq<Policy>, policies: seq<Policy>)
    ensures AllVisits(earlier) + AllVisits(policies) == AllVisits(earlier + policies)
    decreases |policies|
  {
    hide PolicyVisits;
    if policies == [] {
      assert earlier + policies == earlier;
      assert AllVisits(earlier) + [] == AllVisits(earlier);
    } else {
      var rest := policies[..|policies| - 1];
      VisitsOfJobs(earlier, rest);
      assert (earlier + policies)[..|earlier + policies| - 1] == earlier + rest;
    }
  }

  /** A result's key belongs to a pair that a policy of that name allows. */
  ghost predicate AllowedKey(policies: seq<Policy>, key: string, name: string) {
    exists t: Touch :: KeyOf(t) == key && t.policy == name
      && exists policy :: policy in policies && policy.name == name && Allows(policy, t.remote, t.local)
  }

  /** How many results are of a key that a policy of that name allows. */
  ghost function ResultsFor(policies: seq<Policy>, results: seq<Result>, name: string): nat {
    if results == [] then 0
    else ResultsFor(policies, results[..|results| - 1], name)
         + var last := results[|results| - 1]; One(AllowedKey(policies, PairKey(last.0, last.1), name))
  }

  /** End to end, over all policies prepared so far: the results add as many latencies to a
      policy as there are results whose key a policy of that name allows. */
  lemma {:induction false} SamplesPerPolicy(policies: seq<Policy>, results: seq<Result>,
                                            creationTime: map<string, int>, name: string)
    ensures |Gained(Touches(AllVisits(policies)), results, creationTime, name)| == ResultsFor(policies, results, name)
    decreases |results|
  {
    if results != [] {
      var last := results[|results| - 1];
      SamplesPerPolicy(policies, results[..|results| - 1], creationTime, name);
      CoversIffAllowed(policies, PairKey(last.0, last.1), name);
      hide Touches, AllVisits, Covers, PairKey, AllowedKey;
    }
  }

  /** The latency of result r comes after those of the results before it, and is the time
      from the policy's creation to the connection. */
  lemma {:induction false} SampleValue(policies: seq<Policy>, results: seq<Result>, creationTime: map<string, int>,
                                       name: string, r: nat)
    requires r < |results| && AllowedKey(policies, PairKey(results[r].0, results[r].1), name)
    ensures
      var gained, place := Gained(Touches(AllVisits(policies)), results, creationTime, name),
                           ResultsFor(policies, results[..r], name);
      place < |gained|
      && gained[place] == results[r].2 - if name in creationTime then creationTime[name] else 0
    decreases |results|
  {
    var n, ts := |results| - 1, Touches(AllVisits(policies));
    var init, last := results[..n], results[n];
    assert results == init + [last];
    GainedMore(ts, init, last, creationTime, name);
    SamplesPerPolicy(policies, init, creationTime, name);
    CoversIffAllowed(policies, PairKey(last.0, last.1), name);
    hide Touches, AllVisits, Covers, PairKey, AllowedKey, Gained;
    if r < n {
      SampleValue(policies, init, creationTime, name, r);
      assert init[..r] == results[..r];
    }
  }

  lemma CoversIffAllowed(policies: seq<Policy>, key: string, name: string)
    ensures Covers(Touches(AllVisits(policies)), key, name) <==> AllowedKey(policies, key, name)
  {
    hide Touches, AllVisits, Allows, KeyOf;
    forall t: Touch
      ensures t in Touches(AllVisits(policies))
         <==> exists policy :: policy in policies && policy.name == t.policy && Allows(policy, t.remote, t.local)
    {
      TouchedIffAllowed(policies, t);
    }
  }

  // ----- Two pairs with one key -----

  /** A policy that lets one address reach another. */
  function OnePair(name: string, remote: string, local: string): Policy {
    Policy(name, [local], [Ingress([Peer(true, [remote])], true)])
  }

  lemma OnePairAllows(name: string, remote: string, local: string)
    requires remote != local
    ensures Allows(OnePair(name, remote, local), remote, local)
  {
    var policy := OnePair(name, remote, local);
    assert policy.rules[0].peers[0].selective && remote in policy.rules[0].peers[0].remotes;
  }

  lemma OnePairVisits(name: string, remote: string, local: string)
    ensures
      var policy := OnePair(name, remote, local);
      PolicyVisits(policy, |policy.rules|) == [Visit(remote, [local], name, 1)]
  {
    var policy := OnePair(name, remote, local);
    var rule := policy.rules[0];
    assert PortsAfter(rule, 1) == 1;
    assert RuleVisits(policy, rule, 0) == [] && RuleVisits(policy, rule, 1) == PeerVisits(policy, [remote], 1);
    assert PolicyVisits(policy, 0) == [];
  }

  /** Of two policies whose pairs have one key, the second allows a pair that is in no
      work list. */
  lemma CollisionUntested(r1: string, l1: string, r2: string, l2: string)
    requires r1 != l1 && r2 != l2 && r1 != r2 && PairKey(r1, l1) == PairKey(r2, l2)
    ensures
      var policies := [OnePair("a", r1, l1), OnePair("b", r2, l2)];
      && Allows(policies[1], r2, l2)
      && PairCount(ConnectionsOf(AllVisits(policies)), r2, l2) == 0
  {
    var policies := [OnePair("a", r1, l1), OnePair("b", r2, l2)];
    var v1, v2 := Visit(r1, [l1], "a", 1), Visit(r2, [l2], "b", 1);
    OnePairAllows("b", r2, l2);
    OnePairVisits("a", r1, l1);
    OnePairVisits("b", r2, l2);
    hide PolicyVisits, Allows, OnePair, PairKey;
    assert policies[..1] == [policies[0]] && policies[..1][..0] == [];
    assert AllVisits(policies[..1]) == [v1];
    assert AllVisits(policies) == [v1, v2];
    SecondUnlisted(v1, v2, l1, l2);
  }

  lemma OnePod(v: Visit, local: string)
    requires v.locals == [local] && v.remote != local
    ensures TouchesOf(v, 0) == [] && TouchesOf(v, 1) == [Touch(v.remote, local, v.policy)]
  {
  }

  lemma KnownKey(t: Touch, v: Visit, local: string)
    requires v.locals == [local] && v.remote != local && PairKey(v.remote, local) == KeyOf(t)
    ensures NewLocals([t], v, 1) == []
  {
    hide PairKey;
    OnePod(v, local);
    assert [t] + TouchesOf(v, 0) == [t] && [t][..0] == [];
    assert KeyOf(t) in ReuseOf([t]);
  }

  lemma SecondUnlisted(v1: Visit, v2: Visit, l1: string, l2: string)
    requires v1.locals == [l1] && v2.locals == [l2] && v1.remote != l1 && v2.remote != l2 && v1.remote != v2.remote
    requires PairKey(v1.remote, l1) == PairKey(v2.remote, l2)
    ensures v2.remote !in ConnectionsOf([v1, v2])
  {
    hide PairKey, TouchesOf, NewLocals, ReuseOf;
    var t := Touch(v1.remote, l1, v1.policy);
    OnePod(v1, l1);
    KnownKey(t, v2, l2);
    var one := [v1];
    assert [v1, v2][..1] == one && one[..0] == [];
    assert Touches(one) == [t];
    hide Touches;
    assert v2.remote !in ConnectionsOf(one);
  }

  /** Two IPv6 clients and servers: the second pair is allowed and never tested. */
  lemma Ipv6Collision()
    ensures
      var policies := [OnePair("a", "1::2", "3:4::5"), OnePair("b", "1::2:3", "4::5")];
      && Allows(policies[1], "1::2:3", "4::5")
      && PairCount(ConnectionsOf(AllVisits(policies)), "1::2:3", "4::5") == 0
  {
    assert PairKey("1::2", "3:4::5") == PairKey("1::2:3", "4::5");
    assert |"1::2"| != |"1::2:3"|;
    CollisionUntested("1::2", "3:4::5", "1::2:3", "4::5");
  }

  // ----- The ports of a connection -----

  /** The selective ones among a rule's first p peers. */
  function SelectiveUpTo(rule: Ingress, p: nat): nat
    requires p <= |rule.peers|
  {
    if p == 0 then 0 else SelectiveUpTo(rule, p - 1) + One(rule.peers[p - 1].selective)
  }

  lemma {:induction false} PortsCountPeers(rule: Ingress, p: nat)
    requires p <= |rule.peers|
    ensures PortsAfter(rule, p) == if rule.serverPort then SelectiveUpTo(rule, p) else 0
  {
    if p > 0 {
      PortsCountPeers(rule, p - 1);
    }
  }

  /** Where in AllVisits the visits of peer p of rule r of policy j begin. */
  function PeerStart(policies: seq<Policy>, j: nat, r: nat, p: nat): nat
    requires j < |policies| && r < |policies[j].rules| && p < |policies[j].rules[r].peers|
  {
    |AllVisits(policies[..j])| + |PolicyVisits(policies[j], r)| + |RuleVisits(policies[j], policies[j].rules[r], p)|
  }

  /** Visit number m is the one of peer p of rule r of policy j for its remote address
      number m - PeerStart. */
  ghost predicate IsPeerVisit(policies: seq<Policy>, m: nat, j: nat, r: nat, p: nat) {
    && m < |AllVisits(policies)| && j < |policies| && r < |policies[j].rules| && p < |policies[j].rules[r].peers|
    && var policy, rule, peer, v :=
         policies[j], policies[j].rules[r], policies[j].rules[r].peers[p], AllVisits(policies)[m];
       var x := m - PeerStart(policies, j, r, p);
       && peer.selective && 0 <= x < |peer.remotes|
       && v == Visit(peer.remotes[x], policy.locals, policy.name,
                     if rule.serverPort then SelectiveUpTo(rule, p + 1) else 0)
  }

  /** The rule's visit number m belongs to a peer. */
  lemma {:induction false} RulePosition(policy: Policy, rule: Ingress, n: nat, m: nat) returns (p: nat)
    requires n <= |rule.peers| && m < |RuleVisits(policy, rule, n)|
    ensures p < n && rule.peers[p].selective
    ensures 0 <= m - |RuleVisits(policy, rule, p)| < |rule.peers[p].remotes|
    ensures RuleVisits(policy, rule, n)[m]
         == Visit(rule.peers[p].remotes[m - |RuleVisits(policy, rule, p)|], policy.locals, policy.name,
                  if rule.serverPort then SelectiveUpTo(rule, p + 1) else 0)
    decreases n
  {
    if m < |RuleVisits(policy, rule, n - 1)| {
      p := RulePosition(policy, rule, n - 1, m);
    } else {
      p := n - 1;
      PortsCountPeers(rule, n);
    }
  }

  lemma {:induction false} PolicyPosition(policy: Policy, n: nat, m: nat) returns (r: nat)
    requires n <= |policy.rules| && m < |PolicyVisits(policy, n)|
    ensures r < n && 0 <= m - |PolicyVisits(policy, r)| < |RuleVisits(policy, policy.rules[r], |policy.rules[r].peers|)|
    ensures PolicyVisits(policy, n)[m]
         == RuleVisits(policy, policy.rules[r], |policy.rules[r].peers|)[m - |PolicyVisits(policy, r)|]
    decreases n
  {
    hide RuleVisits;
    if m < |PolicyVisits(policy, n - 1)| {
      r := PolicyPosition(policy, n - 1, m);
    } else {
      r := n - 1;
    }
  }

  lemma {:induction false} Position(policies: seq<Policy>, m: nat) returns (j: nat)
    requires m < |AllVisits(policies)|
    ensures j < |policies| && 0 <= m - |AllVisits(policies[..j])| < |PolicyVisits(policies[j], |policies[j].rules|)|
    ensures AllVisits(policies)[m]
         == PolicyVisits(policies[j], |policies[j].rules|)[m - |AllVisits(policies[..j])|]
    decreases |policies|
  {
    hide PolicyVisits;
    var n := |policies| - 1;
    if m < |AllVisits(policies[..n])| {
      j := Position(policies[..n], m);
      assert policies[..n][..j] == policies[..j];
    } else {
      j := n;
    }
  }

  /** Every visit is that of one place in the loop nest. */
  lemma VisitHasPeer(policies: seq<Policy>, m: nat) returns (j: nat, r: nat, p: nat)
    requires m < |AllVisits(policies)|
    ensures IsPeerVisit(policies, m, j, r, p)
  {
    j := Position(policies, m);
    var inPolicy := m - |AllVisits(policies[..j])|;
    r := PolicyPosition(policies[j], |policies[j].rules|, inPolicy);
    var rule := policies[j].rules[r];
    p := RulePosition(policies[j], rule, |rule.peers|, inPolicy - |PolicyVisits(policies[j], r)|);
    hide AllVisits, PolicyVisits, RuleVisits, SelectiveUpTo;
  }

  /** Visit number m recorded the client's connection number k. */
  ghost predicate RecordedAt(vs: seq<Visit>, m: nat, remote: string, k: nat) {
    && m < |vs| && vs[m].remote == remote
    && var before, after := ConnectionsOf(vs[..m]), ConnectionsOf(vs[..m + 1]);
       && k == (if remote in before then |before[remote]| else 0)
       && remote in after && |after[remote]| == k + 1
       && after[remote][k].ports == vs[m].ports && after[remote][k].netpol == vs[m].policy
  }

  /** A connection stays as the visit that recorded it left it. */
  lemma {:induction false} RecordingVisit(vs: seq<Visit>, remote: string, k: nat) returns (m: nat)
    requires remote in ConnectionsOf(vs) && k < |ConnectionsOf(vs)[remote]|
    ensures RecordedAt(vs, m, remote, k) && ConnectionsOf(vs)[remote][k] == ConnectionsOf(vs[..m + 1])[remote][k]
    decreases |vs|
  {
    hide ConnectionsOf;
    var n := |vs| - 1;
    var rest := if n >= 0 then vs[..n] else [];
    LastVisit(vs);
    assert vs[..n + 1] == vs;
    if remote in ConnectionsOf(rest) && k < |ConnectionsOf(rest)[remote]| {
      m := RecordingVisit(rest, remote, k);
      assert rest[..m] == vs[..m] && rest[..m + 1] == vs[..m + 1];
    } else {
      m := n;
    }
  }

  /** The last visit adds one connection of its client at most. */
  lemma LastVisit(vs: seq<Visit>)
    ensures vs == [] ==> ConnectionsOf(vs) == map[]
    ensures vs != [] ==>
      var before, v, after := ConnectionsOf(vs[..|vs| - 1]), vs[|vs| - 1], ConnectionsOf(vs);
      || after == before
      || exists others :: after == before[v.remote := (if v.remote in before then before[v.remote] else [])
                                                       + [Connection(others, v.ports, v.policy)]]
  {
    hide NewLocals, Touches;
  }

  /** The port list belongs to the rule and every selective peer appends to it: each
      connection names the server's port once for every selective peer of its rule up to
      and with the peer in whose visit it was recorded. */
  lemma PortsPileUp(policies: seq<Policy>, remote: string, k: nat) returns (m: nat, j: nat, r: nat, p: nat)
    requires remote in ConnectionsOf(AllVisits(policies)) && k < |ConnectionsOf(AllVisits(policies))[remote]|
    ensures RecordedAt(AllVisits(policies), m, remote, k) && IsPeerVisit(policies, m, j, r, p)
    ensures
      var conn, rule := ConnectionsOf(AllVisits(policies))[remote][k], policies[j].rules[r];
      && conn.netpol == policies[j].name
      && conn.ports == if rule.serverPort then SelectiveUpTo(rule, p + 1) else 0
  {
    m := RecordingVisit(AllVisits(policies), remote, k);
    j, r, p := VisitHasPeer(policies, m);
    hide AllVisits, ConnectionsOf, PolicyVisits, RuleVisits, SelectiveUpTo;
  }

  /** One rule for the server's port with two selective peers: the connection of the
      second peer's client names the port twice. */
  lemma TwoPortsCase()
    ensures
      var rule := Ingress([Peer(true, ["10.0.0.1"]), Peer(true, ["10.0.0.2"])], true);
      var policies := [Policy("a", ["10.0.0.9"], [rule])];
      var connections := ConnectionsOf(AllVisits(policies));
      && "10.0.0.2" in connections && |connections["10.0.0.2"]| == 1 && connections["10.0.0.2"][0].ports == 2
  {
    var rule := Ingress([Peer(true, ["10.0.0.1"]), Peer(true, ["10.0.0.2"])], true);
    var policy := Policy("a", ["10.0.0.9"], [rule]);
    var v1, v2 := Visit("10.0.0.1", ["10.0.0.9"], "a", 1), Visit("10.0.0.2", ["10.0.0.9"], "a", 2);
    TwoPeers(policy, rule, v1, v2);
    hide PolicyVisits, PairKey;
    assert [policy][..0] == [];
    assert AllVisits([policy]) == [v1, v2];
    DifferentDigit();
    PairsApart("10.0.0.1", "10.0.0.2", "10.0.0.9");
    TwoClients(v1, v2, "10.0.0.9");
  }

  lemma DifferentDigit()
    ensures "10.0.0.1" != "10.0.0.2" && "10.0.0.2" != "10.0.0.9" && "10.0.0.1" != "10.0.0.9"
  {
    assert "10.0.0.1"[7] == '1' && "10.0.0.2"[7] == '2' && "10.0.0.9"[7] == '9';
  }

  lemma PairsApart(a: string, b: string, local: string)
    requires a != b && |a| == |b|
    ensures PairKey(a, local) != PairKey(b, local)
  {
    assert PairKey(a, local)[..|a|] == a && PairKey(b, local)[..|b|] == b;
  }

  lemma TwoPeers(policy: Policy, rule: Ingress, v1: Visit, v2: Visit)
    requires policy.rules == [rule] && |rule.peers| == 2 && rule.serverPort
    requires rule.peers[0] == Peer(true, [v1.remote]) && rule.peers[1] == Peer(true, [v2.remote])
    requires v1 == Visit(v1.remote, policy.locals, policy.name, 1)
    requires v2 == Visit(v2.remote, policy.locals, policy.name, 2)
    ensures PolicyVisits(policy, 1) == [v1, v2]
  {
    assert PortsAfter(rule, 1) == 1 && PortsAfter(rule, 2) == 2;
    assert RuleVisits(policy, rule, 0) == [] && RuleVisits(policy, rule, 1) == [v1];
    assert RuleVisits(policy, rule, 2) == [v1, v2];
    assert PolicyVisits(policy, 0) == [];
  }

  /** One more visit, of a client without connections to a single pod under a new key. */
  lemma NewClient(vs: seq<Visit>, v: Visit, local: string)
    requires v.locals == [local] && v.remote != local && v.remote !in ConnectionsOf(vs)
    requires PairKey(v.remote, local) !in ReuseOf(Touches(vs))
    ensures ConnectionsOf(vs + [v]) == ConnectionsOf(vs)[v.remote := [Connection([local], v.ports, v.policy)]]
    ensures Touches(vs + [v]) == Touches(vs) + [Touch(v.remote, local, v.policy)]
  {
    hide PairKey, NewLocals, TouchesOf, ReuseOf, Touches, ConnectionsOf;
    FirstPod(Touches(vs), v, local);
    OnePod(v, local);
    VisitEnd(vs, v);
    var conn := Connection([local], v.ports, v.policy);
    assert [] + [conn] == [conn];
  }

  lemma TwoClients(v1: Visit, v2: Visit, local: string)
    requires v1.locals == v2.locals == [local] && v1.remote != v2.remote && v1.remote != local && v2.remote != local
    requires PairKey(v1.remote, local) != PairKey(v2.remote, local)
    ensures ConnectionsOf([v1, v2])
         == map[v1.remote := [Connection([local], v1.ports, v1.policy)],
                v2.remote := [Connection([local], v2.ports, v2.policy)]]
  {
    hide PairKey;
    var t := Touch(v1.remote, local, v1.policy);
    assert [t][..0] == [] && PairKey(v2.remote, local) !in ReuseOf([t]);
    hide ReuseOf;
    assert [] + [v1] == [v1] && [v1] + [v2] == [v1, v2] && [] + [t] == [t];
    NewClient([], v1, local);
    hide Touches, ConnectionsOf;
    NewClient([v1], v2, local);
  }

  lemma FirstPod(ts: seq<Touch>, v: Visit, local: string)
    requires v.locals == [local] && v.remote != local && PairKey(v.remote, local) !in ReuseOf(ts)
    ensures NewLocals(ts, v, 1) == [local]
  {
    hide PairKey;
    OnePod(v, local);
    assert ts + TouchesOf(v, 0) == ts && NewLocals(ts, v, 0) == [];
  }
}
