/** ADDs and DELs on all nodes of a cluster, in any order, with faults anywhere: what holds between pods
    and bridges of different nodes. */
module ClusterRuns {
  import opened Cidrs
  import opened Kernels
  import opened NetSteps
  import opened Ip
  import opened IpRuns
  import opened Cmd
  import opened Cluster
  import NodeRuns

  datatype Happening = Happening(node: nat, event: NodeRuns.Event)

  ghost predicate Deployed(nodes: seq<Settings>, history: seq<Happening>) {
    && (forall n :: 0 <= n < |nodes| ==> Defined(nodes[n]))
    && (forall i :: 0 <= i < |history| ==> history[i].node < |nodes|)
  }

  /** All nodes after events in any order across the cluster. */
  function Worlds(nodes: seq<Settings>, start: seq<NodeRuns.World>, history: seq<Happening>): (r: seq<NodeRuns.World>)
    requires Deployed(nodes, history) && |start| == |nodes|
    ensures |r| == |nodes|
  {
    if history == [] then start
    else
      var before, e := Worlds(nodes, start, history[..|history| - 1]), history[|history| - 1];
      before[e.node := NodeRuns.Step(nodes[e.node], before[e.node], e.event)]
  }

  /** What happened on node `n`, in its own order. */
  function EventsAt(history: seq<Happening>, n: nat): seq<NodeRuns.Event> {
    if history == [] then []
    else
      var e := history[|history| - 1];
      EventsAt(history[..|history| - 1], n) + if e.node == n then [e.event] else []
  }

  /** Each node is as its own run alone would have left it. */
  lemma {:induction false} WorldsAreLocal(nodes: seq<Settings>, start: seq<NodeRuns.World>, history: seq<Happening>,
                                          n: nat)
    requires Deployed(nodes, history) && n < |nodes| == |start|
    ensures Worlds(nodes, start, history)[n] == NodeRuns.Run(nodes[n], start[n], EventsAt(history, n))
    decreases |history|
  {
    hide NodeRuns.Step, Defined;
    if history != [] {
      var init, e := history[..|history| - 1], history[|history| - 1];
      WorldsAreLocal(nodes, start, init, n);
      var l := EventsAt(history, n);
      if e.node == n {
        assert l[..|l| - 1] == EventsAt(init, n) && l[|l| - 1] == e.event;
      } else {
        assert l == EventsAt(init, n);
      }
    }
  }

  function Nets(nodes: seq<Settings>): (cfgs: seq<Config>)
    ensures |cfgs| == |nodes| && forall n :: 0 <= n < |nodes| ==> cfgs[n] == nodes[n].net
  {
    seq(|nodes|, n requires 0 <= n < |nodes| => nodes[n].net)
  }

  /** Nodes the plugin never ran on before, under an address plan, each within its capacity, with
      truthful existence checks. */
  ghost predicate Operated(nodes: seq<Settings>, start: seq<NodeRuns.World>, history: seq<Happening>, cluster: Cidr) {
    && Deployed(nodes, history) && |start| == |nodes| && Plan(Nets(nodes), cluster)
    && forall n :: 0 <= n < |nodes| ==>
      (NodeRuns.Untouched(start[n]) && NodeRuns.NoFalseAbsence(EventsAt(history, n))
       && Worlds(nodes, start, history)[n].advances <= BlockSize(nodes[n].net, cluster) - 3)
  }

  /** The pod's interface has exactly this address. */
  predicate HasAddress(w: NodeRuns.World, h: string, c: Cidr) {
    h in w.live && w.live[h].end in w.node.k.links && w.node.k.links[w.live[h].end].addrs == {c}
  }

  /** The address lies in the cluster's network, under the prefix it carries. */
  predicate OnLink(cluster: Cidr, c: Cidr)
    requires 0 <= cluster.prefix <= 32
  {
    c.prefix == cluster.prefix && c.addr / Size(cluster.prefix) == cluster.addr / Size(cluster.prefix)
  }

  function PodAddress(s: Settings, p: NodeRuns.Pod, cluster: Cidr): Cidr {
    Cidr(Nth(Base(s.net), p.number), cluster.prefix)
  }

  /** A live pod's address is a usable one of its node's own subnet, the one of its number. */
  lemma LivePod(nodes: seq<Settings>, start: seq<NodeRuns.World>, history: seq<Happening>, cluster: Cidr,
                n: nat, h: string)
    requires Operated(nodes, start, history, cluster) && n < |nodes| && h in Worlds(nodes, start, history)[n].live
    ensures var w, s := Worlds(nodes, start, history)[n], nodes[n];
      var c := PodAddress(s, w.live[h], cluster);
      && HasAddress(w, h, c) && OnLink(cluster, c)
      && Base(s.net) + 1 < c.addr < Base(s.net) + BlockSize(s.net, cluster) - 1
      && c.addr == Base(s.net) + 1 + w.live[h].number
  {
    hide Worlds, EventsAt, NodeRuns.Run, NodeRuns.Untouched, NodeRuns.NoFalseAbsence, Base, Nth, Parse, Size, Defined,
      NodeRuns.BridgeAsMade, NodeRuns.RulesNumbered, Sound, BlockSize;
    var w, s := Worlds(nodes, start, history)[n], nodes[n];
    assert Nets(nodes)[n] == s.net;
    WorldsAreLocal(nodes, start, history, n);
    NodeRuns.EveryRunIsHealthy(s, start[n], EventsAt(history, n));
    assert NodeRuns.PodWorks(s, w.node.k, h, w.live[h]);
    CapacityBound(s.net, cluster);
    NthUnwrapped(Base(s.net), w.live[h].number);
    InNetwork(s.net, cluster, Nth(Base(s.net), w.live[h].number));
  }

  /** No two live pods anywhere in the cluster have one address. */
  lemma LivePodsDiffer(nodes: seq<Settings>, start: seq<NodeRuns.World>, history: seq<Happening>, cluster: Cidr,
                       m: nat, h: string, n: nat, i: string)
    requires Operated(nodes, start, history, cluster) && m < |nodes| && n < |nodes| && (m != n || h != i)
    requires var r := Worlds(nodes, start, history); h in r[m].live && i in r[n].live
    ensures var r := Worlds(nodes, start, history);
      exists c, d :: HasAddress(r[m], h, c) && HasAddress(r[n], i, d) && c.addr != d.addr
  {
    hide Worlds, EventsAt, NodeRuns.Run, NodeRuns.Untouched, NodeRuns.NoFalseAbsence, Base, Nth, Parse, Size, Defined,
      NodeRuns.BridgeAsMade, NodeRuns.RulesNumbered, Sound, HasAddress, OnLink, BlockSize, NodeRuns.PodsWork;
    var r := Worlds(nodes, start, history);
    LivePod(nodes, start, history, cluster, m, h);
    LivePod(nodes, start, history, cluster, n, i);
    assert Nets(nodes)[m] == nodes[m].net && Nets(nodes)[n] == nodes[n].net;
    if m == n {
      WorldsAreLocal(nodes, start, history, n);
      NodeRuns.EveryRunIsHealthy(nodes[n], start[n], EventsAt(history, n));
    }
  }

  /** Every bridge address is in the cluster's network, and no live pod of any node has it. */
  lemma PodsDifferFromBridges(nodes: seq<Settings>, start: seq<NodeRuns.World>, history: seq<Happening>,
                              cluster: Cidr, m: nat, h: string, n: nat)
    requires Operated(nodes, start, history, cluster) && m < |nodes| && n < |nodes|
    requires var r := Worlds(nodes, start, history); h in r[m].live && BR in r[n].node.k.links
    ensures var r := Worlds(nodes, start, history);
      exists c :: HasAddress(r[m], h, c) && OnLink(cluster, c)
        && forall b :: b in r[n].node.k.links[BR].addrs ==> OnLink(cluster, b) && b.addr != c.addr
  {
    hide Worlds, EventsAt, NodeRuns.Run, NodeRuns.Untouched, NodeRuns.NoFalseAbsence, Base, Nth, Parse, Size, Defined,
      NodeRuns.RulesNumbered, Sound, HasAddress, BlockSize, NodeRuns.PodsWork;
    var r := Worlds(nodes, start, history);
    LivePod(nodes, start, history, cluster, m, h);
    var c := PodAddress(nodes[m], r[m].live[h], cluster);
    assert Nets(nodes)[m] == nodes[m].net && Nets(nodes)[n] == nodes[n].net;
    WorldsAreLocal(nodes, start, history, n);
    NodeRuns.EveryRunIsHealthy(nodes[n], start[n], EventsAt(history, n));
    CapacityBound(nodes[m].net, cluster);
    CapacityBound(nodes[n].net, cluster);
    NthUnwrapped(Base(nodes[n].net), 0);
    InNetwork(nodes[n].net, cluster, Nth(Base(nodes[n].net), 0));
    assert HasAddress(r[m], h, c) && OnLink(cluster, c);
  }
}
