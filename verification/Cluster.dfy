/** Several nodes of one cluster, each with its own subnet and its own allocator file. */
module Cluster {
  import opened Words
  import opened Cidrs
  import opened Ip
  import opened IpRuns

  /** One acquisition on node `node`. */
  datatype Event = Event(node: nat, env: Env)

  ghost predicate OnNodes(cfgs: seq<Config>, events: seq<Event>) {
    forall i :: 0 <= i < |events| ==> events[i].node < |cfgs| && !events[i].env.existsRefused
  }

  /** The files of all nodes after acquisitions in any order across the cluster. */
  function Files(cfgs: seq<Config>, events: seq<Event>): (files: seq<Option<string>>)
    requires OnNodes(cfgs, events)
    ensures |files| == |cfgs|
  {
    if events == [] then seq(|cfgs|, _ => None)
    else
      var files := Files(cfgs, events[..|events| - 1]);
      var e := events[|events| - 1];
      files[e.node := Acquire(files[e.node], cfgs[e.node], e.env).file]
  }

  function AnswerAt(cfgs: seq<Config>, events: seq<Event>, i: nat): Result<string>
    requires OnNodes(cfgs, events) && i < |events|
  {
    var n := events[i].node;
    Acquire(Files(cfgs, events[..i])[n], cfgs[n], events[i].env).result
  }

  /** What node `n` met, in its own order. */
  function Local(events: seq<Event>, n: nat): seq<Env> {
    if events == [] then []
    else
      var e := events[|events| - 1];
      Local(events[..|events| - 1], n) + if e.node == n then [e.env] else []
  }

  lemma {:induction false} LocalNeverRefused(cfgs: seq<Config>, events: seq<Event>, n: nat)
    requires OnNodes(cfgs, events)
    ensures NeverRefused(Local(events, n))
    decreases |events|
  {
    if events != [] { LocalNeverRefused(cfgs, events[..|events| - 1], n); }
  }

  /** Each node's file is what its own run alone would have left. */
  lemma {:induction false} FilesAreLocal(cfgs: seq<Config>, events: seq<Event>, n: nat)
    requires OnNodes(cfgs, events) && n < |cfgs|
    ensures Files(cfgs, events)[n] == FileAfter(cfgs[n], Local(events, n))
    decreases |events|
  {
    hide Acquire;
    if events != [] {
      var init, e := events[..|events| - 1], events[|events| - 1];
      FilesAreLocal(cfgs, init, n);
      var l := Local(events, n);
      if e.node == n {
        assert l[..|l| - 1] == Local(init, n) && l[|l| - 1] == e.env;
      } else {
        assert l == Local(init, n);
      }
    }
  }

  lemma {:induction false} LocalPrefix(events: seq<Event>, n: nat, i: nat)
    requires i <= |events|
    ensures Local(events[..i], n) <= Local(events, n)
    decreases |events|
  {
    if i < |events| {
      assert events[..|events| - 1][..i] == events[..i];
      LocalPrefix(events[..|events| - 1], n, i);
    } else {
      assert events[..i] == events;
    }
  }

  /** The `i`-th cluster event is the `LocalIndex`-th acquisition of its node. */
  function LocalIndex(events: seq<Event>, i: nat): nat
    requires i < |events|
  {
    |Local(events[..i], events[i].node)|
  }

  lemma AnswerIsLocal(cfgs: seq<Config>, events: seq<Event>, i: nat)
    requires OnNodes(cfgs, events) && i < |events|
    ensures var n := events[i].node;
      LocalIndex(events, i) < |Local(events, n)|
      && AnswerAt(cfgs, events, i) == Answer(cfgs[n], Local(events, n), LocalIndex(events, i))
  {
    hide Acquire;
    var n := events[i].node;
    assert events[..i + 1][..i] == events[..i];
    LocalPrefix(events, n, i + 1);
    var l, k := Local(events, n), LocalIndex(events, i);
    assert Local(events[..i + 1], n) == Local(events[..i], n) + [events[i].env];
    assert l[..k] == Local(events[..i], n) && l[k] == events[i].env;
    FilesAreLocal(cfgs, events[..i], n);
  }

  lemma LocalIndexGrows(events: seq<Event>, i: nat, j: nat)
    requires i < j < |events| && events[i].node == events[j].node
    ensures LocalIndex(events, i) < LocalIndex(events, j)
  {
    var n := events[i].node;
    assert events[..i + 1][..i] == events[..i];
    assert events[..j][..i + 1] == events[..i + 1];
    LocalPrefix(events[..j], n, i + 1);
  }

  // ---------------------------------------------------------------- the address plan

  function Size(prefix: int): nat
    requires 0 <= prefix <= 32
  {
    Pow2(32 - prefix)
  }

  predicate Disjoint(b: word, m: nat, c: word, n: nat) {
    b + m <= c || c + n <= b
  }

  /** `cfg` is an aligned subnet of at least four addresses inside the block of `cluster`, and
      prints addresses with the cluster's prefix. */
  predicate Planned(cfg: Config, cluster: Cidr) {
    && Parse(cfg.subnet).Ok? && Parse(cfg.clusterCidr) == Ok(cluster)
    && var p := Parse(cfg.subnet).value.prefix;
    && 0 <= cluster.prefix <= p <= 30
    && Base(cfg) % Size(p) == 0
    && Base(cfg) / Size(cluster.prefix) == cluster.addr / Size(cluster.prefix)
  }

  function BlockSize(cfg: Config, cluster: Cidr): nat
    requires Planned(cfg, cluster)
  {
    Size(Parse(cfg.subnet).value.prefix)
  }

  ghost predicate Plan(cfgs: seq<Config>, cluster: Cidr) {
    && (forall n :: 0 <= n < |cfgs| ==> Planned(cfgs[n], cluster))
    && (forall m, n :: 0 <= m < n < |cfgs| ==>
        Disjoint(Base(cfgs[m]), BlockSize(cfgs[m], cluster), Base(cfgs[n]), BlockSize(cfgs[n], cluster)))
  }

  ghost predicate WithinCapacity(cfgs: seq<Config>, cluster: Cidr, events: seq<Event>)
    requires Plan(cfgs, cluster) && OnNodes(cfgs, events)
  {
    forall n :: 0 <= n < |cfgs| ==> Advances(cfgs[n], Local(events, n)) <= BlockSize(cfgs[n], cluster) - 3
  }

  /** The subnets 10.250.0.0/24 and 10.250.1.0/24 in 10.250.0.0/16 are a plan. */
  lemma ExamplePlan()
    ensures var cluster := Cidr(Join(0, 0, 250, 10), 16);
      var first, second := Cidr(Join(0, 0, 250, 10), 24), Cidr(Join(0, 1, 250, 10), 24);
      Plan([Config(Print(first), Print(cluster)), Config(Print(second), Print(cluster))], cluster)
  {
    hide Parse, Print;
    var cluster := Cidr(Join(0, 0, 250, 10), 16);
    var first, second := Cidr(Join(0, 0, 250, 10), 24), Cidr(Join(0, 1, 250, 10), 24);
    RoundTrip(cluster);
    RoundTrip(first);
    RoundTrip(second);
    PlannedExample(Config(Print(first), Print(cluster)), first, cluster);
    PlannedExample(Config(Print(second), Print(cluster)), second, cluster);
  }

  lemma PlannedExample(cfg: Config, subnet: Cidr, cluster: Cidr)
    requires Parse(cfg.subnet) == Ok(subnet) && Parse(cfg.clusterCidr) == Ok(cluster)
    requires subnet.prefix == 24 && cluster.prefix == 16
    requires subnet.addr % 256 == 0 && subnet.addr / 0x1_0000 == cluster.addr / 0x1_0000
    ensures Planned(cfg, cluster) && Base(cfg) == subnet.addr && BlockSize(cfg, cluster) == 256
  {
    hide Parse;
    Pow2At32();
    Pow2Product(8, 8);
    assert Size(24) == Pow2(8) && Size(16) == Pow2(16);
  }

  /** Addresses of one aligned block lie in one network of any shorter prefix. */
  lemma BlockInNetwork(base: nat, p: nat, q: nat, address: nat)
    requires q <= p <= 32 && base % Size(p) == 0 && base <= address < base + Size(p)
    ensures address / Size(q) == base / Size(q)
  {
    Pow2Product(32 - p, p - q);
    AlignedDivision(Size(p), Pow2(p - q), base, address);
  }

  lemma AlignedDivision(s: nat, m: nat, base: nat, address: nat)
    requires s > 0 && m > 0 && base % s == 0 && base <= address < base + s
    ensures s * m > 0 && address / (s * m) == base / (s * m)
  {
    var k := base / s;
    var q, t := k / m, k % m;
    assert k == m * q + t;
    assert base == s * k;
    NestedBlocks(s, m, q, t, k, address - base);
    NestedBlocks(s, m, q, t, k, 0);
  }

  lemma NestedBlocks(s: nat, m: nat, q: nat, t: nat, k: nat, r: nat)
    requires s > 0 && m > 0 && k == m * q + t && t < m && r < s
    ensures s * m > 0 && (s * k + r) / (s * m) == s * k / (s * m)
  {
    assert s * k == s * m * q + s * t by { Distribute(s, m, q, t); }
    MultipleGrows(s, t + 1, m);
    MultipleGrows(s, t, t);
    MultipleGrows(s, 1, m);
    MultipleGrows(s, 0, t);
    QuotientIs(s * k + r, s * m, q, s * t + r);
    QuotientIs(s * k, s * m, q, s * t);
  }

  lemma Distribute(s: nat, m: nat, q: nat, t: nat)
    ensures s * (m * q + t) == s * m * q + s * t
  {
  }

  // ---------------------------------------------------------------- cluster-wide agreement

  lemma CapacityBound(cfg: Config, cluster: Cidr)
    requires Planned(cfg, cluster)
    ensures 4 <= BlockSize(cfg, cluster) <= TWO_32 - Base(cfg)
  {
    hide Parse, Base;
    CapacityIsExact(Base(cfg), Parse(cfg.subnet).value.prefix, 1);
  }

  /** What one answer looks like: a usable address of the answering node's own subnet. */
  lemma AnswerInOwnSubnet(cfgs: seq<Config>, cluster: Cidr, events: seq<Event>, i: nat)
    requires Plan(cfgs, cluster) && OnNodes(cfgs, events) && WithinCapacity(cfgs, cluster, events)
    requires i < |events| && AnswerAt(cfgs, events, i).Ok?
    ensures var cfg := cfgs[events[i].node];
      && AddressIn(AnswerAt(cfgs, events, i)).Some?
      && UsableByPod(Base(cfg), BlockSize(cfg, cluster), AddressIn(AnswerAt(cfgs, events, i)).value)
  {
    hide Acquire, Parse, AddressIn, Nth, Pow2, PodCidr, Answer, Advances, FileAfter, AnswerAt, LocalIndex;
    var n := events[i].node;
    var cfg, l, k := cfgs[n], Local(events, n), LocalIndex(events, i);
    assert Planned(cfg, cluster);
    LocalNeverRefused(cfgs, events, n);
    AnswerIsLocal(cfgs, events, i);
    AnswerIsNumbered(cfg, l, k);
    AdvancesGrow(cfg, l, k + 1);
    var a := Advances(cfg, l[..k + 1]);
    CapacityBound(cfg, cluster);
    AddressOfPod(cfg, Nth(Base(cfg), a));
    CapacityIsExact(Base(cfg), Parse(cfg.subnet).value.prefix, a);
  }

  /** Nodes with disjoint aligned subnets inside one cluster block, each within its capacity, never
      hand out an address twice nor any node's bridge address, in any interleaving. */
  lemma ClusterAddressesDistinct(cfgs: seq<Config>, cluster: Cidr, events: seq<Event>, i: nat, j: nat)
    requires Plan(cfgs, cluster) && OnNodes(cfgs, events) && WithinCapacity(cfgs, cluster, events)
    requires i < j < |events| && AnswerAt(cfgs, events, i).Ok? && AnswerAt(cfgs, events, j).Ok?
    ensures AddressIn(AnswerAt(cfgs, events, i)) != AddressIn(AnswerAt(cfgs, events, j))
  {
    hide Acquire, Parse, AddressIn, Pow2, AnswerAt, Answer, LocalIndex, Advances, FileAfter, Files, Nth;
    AnswerInOwnSubnet(cfgs, cluster, events, i);
    AnswerInOwnSubnet(cfgs, cluster, events, j);
    var m, n := events[i].node, events[j].node;
    if m == n {
      AnswerIsLocal(cfgs, events, i);
      AnswerIsLocal(cfgs, events, j);
      LocalIndexGrows(events, i, j);
      LocalNeverRefused(cfgs, events, n);
      CapacityBound(cfgs[n], cluster);
      RunsHandOutDistinctAddresses(cfgs[n], Local(events, n), LocalIndex(events, i), LocalIndex(events, j));
    }
  }

  lemma BridgeInOwnSubnet(cfg: Config, cluster: Cidr)
    requires Planned(cfg, cluster)
    ensures Bridge(cfg).Ok? && Base(cfg) + 1 < TWO_32 && AddressIn(Bridge(cfg)) == Some(Base(cfg) + 1)
  {
    hide Parse, AddressIn, Bridge, Base, Nth, Pow2, Size, PodCidr, Print;
    BridgeAddress(cfg);
    CapacityBound(cfg, cluster);
    NthUnwrapped(Base(cfg), 0);
  }

  lemma NthUnwrapped(base: word, n: nat)
    requires base + 1 + n < TWO_32
    ensures Nth(base, n) == base + 1 + n
  {
  }

  /** The bridges of a plan have one address each. */
  lemma BridgesApart(cfgs: seq<Config>, cluster: Cidr, m: nat, n: nat)
    requires Plan(cfgs, cluster) && m < n < |cfgs|
    ensures Bridge(cfgs[m]).Ok? && Bridge(cfgs[n]).Ok?
    ensures AddressIn(Bridge(cfgs[m])) != AddressIn(Bridge(cfgs[n]))
  {
    hide Parse, AddressIn, Bridge, Pow2, Size, Base, Nth;
    BridgeInOwnSubnet(cfgs[m], cluster);
    BridgeInOwnSubnet(cfgs[n], cluster);
    CapacityBound(cfgs[m], cluster);
    CapacityBound(cfgs[n], cluster);
  }

  /** No pod anywhere gets the address of any node's bridge. */
  lemma PodsAvoidBridges(cfgs: seq<Config>, cluster: Cidr, events: seq<Event>, i: nat, n: nat)
    requires Plan(cfgs, cluster) && OnNodes(cfgs, events) && WithinCapacity(cfgs, cluster, events)
    requires i < |events| && n < |cfgs| && AnswerAt(cfgs, events, i).Ok?
    ensures Bridge(cfgs[n]).Ok? && AddressIn(AnswerAt(cfgs, events, i)) != AddressIn(Bridge(cfgs[n]))
  {
    hide Parse, AddressIn, Bridge, Pow2, Size, Base, AnswerAt, Files, Nth;
    AnswerInOwnSubnet(cfgs, cluster, events, i);
    BridgeInOwnSubnet(cfgs[n], cluster);
    CapacityBound(cfgs[n], cluster);
    CapacityBound(cfgs[events[i].node], cluster);
  }

  /** Every address handed out, pods' and bridges', is on-link for every pod of the cluster: it lies
      in the cluster's network under the prefix that is printed with it. */
  lemma ClusterIsOneNetwork(cfgs: seq<Config>, cluster: Cidr, events: seq<Event>, i: nat, n: nat)
    requires Plan(cfgs, cluster) && OnNodes(cfgs, events) && WithinCapacity(cfgs, cluster, events)
    requires i < |events| && n < |cfgs| && AnswerAt(cfgs, events, i).Ok?
    ensures var network := cluster.addr / Size(cluster.prefix);
      && AddressIn(AnswerAt(cfgs, events, i)).Some? && AddressIn(Bridge(cfgs[n])).Some?
      && AddressIn(AnswerAt(cfgs, events, i)).value / Size(cluster.prefix) == network
      && AddressIn(Bridge(cfgs[n])).value / Size(cluster.prefix) == network
  {
    hide Parse, AddressIn, Pow2, AnswerAt, Bridge, Files, Base, Nth, Size;
    AnswerInOwnSubnet(cfgs, cluster, events, i);
    BridgeInOwnSubnet(cfgs[n], cluster);
    CapacityBound(cfgs[n], cluster);
    InNetwork(cfgs[events[i].node], cluster, AddressIn(AnswerAt(cfgs, events, i)).value);
    InNetwork(cfgs[n], cluster, AddressIn(Bridge(cfgs[n])).value);
  }

  lemma InNetwork(cfg: Config, cluster: Cidr, address: word)
    requires Planned(cfg, cluster) && Base(cfg) <= address < Base(cfg) + BlockSize(cfg, cluster)
    ensures address / Size(cluster.prefix) == cluster.addr / Size(cluster.prefix)
  {
    hide Parse, Pow2, Base;
    BlockInNetwork(Base(cfg), Parse(cfg.subnet).value.prefix, cluster.prefix, address);
  }
}
