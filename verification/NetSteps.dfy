/** Each function of `net_utils.c` and `net.c` on its own: exactly when it succeeds, and exactly
    what it leaves behind however far it got. */
module NetSteps {
  import opened Cidrs
  import opened Naming
  import opened Nft
  import opened Kernels
  import opened Net

  const BR := Key(HOST, HOST_BRIDGE_NAME)
  const VX := Key(HOST, HOST_VXLAN_NAME)

  function HostKey(id: PodId): Key { Key(HOST, HostName(id)) }

  function TmpKey(id: PodId): Key { Key(HOST, TmpName(id)) }

  const BRIDGE_CALLS: Faults := {BridgeAlloc, BridgeAdd, BridgeIndex, BridgeAddrBuild, BridgeAddrAdd}
  const VXLAN_CALLS: Faults := {VxlanAlloc, VxlanGroup, VxlanUnderlay, VxlanAdd}
  const VETH_CALLS: Faults := {VethCreate, TmpIndex, TmpGet, MoveAlloc, MoveToPod}
  const ENABLE_CALLS: Faults := {HostVethGet, HostVethAlloc, HostVethUp}
  const ENSLAVE_CALLS: Faults := {BridgeGet, VxlanGet, VethGet, ChangesAlloc, EnslaveVxlan, EnslaveVeth}
  const NFT_CALLS: Faults := {NftOpen, NftBind, NftAlloc, NftSend, NftAck}
  const DETACH_CALLS: Faults := {SocketAlloc, SocketConnect, DeleteGet, DeleteLink}

  /** The text parses to an address the kernel accepts on an interface. */
  predicate Assignable(cidr: string) {
    Parse(cidr).Ok? && ValidPrefix(Parse(cidr).value.prefix)
  }

  function NewBridge(addrs: set<Cidr>): Link { Link(BridgeLink, true, None, addrs, None) }

  lemma BridgeStep(k: Kernel, f: Faults, cidr: string)
    requires k.cur == HOST
    ensures var r := CreateBridge(k, f, HOST, cidr);
      && (r.ok <==> BR in k.links || (f !! BRIDGE_CALLS && Assignable(cidr)))
      && (r.k == if BR in k.links || BridgeAlloc in f || BridgeAdd in f then k
                 else Put(k, BR, NewBridge(if r.ok then {Parse(cidr).value} else {})))
  {
    hide Parse, AddrAdd;
    if Parse(cidr).Ok? {
      FirstAddress(Put(k, BR, NewBridge({})), HOST, HOST_BRIDGE_NAME, Parse(cidr).value);
      PutTwice(k, BR, NewBridge({}), NewBridge({Parse(cidr).value}));
    }
  }

  /** A first address on an interface that has none. */
  lemma FirstAddress(k: Kernel, sk: Ns, name: string, c: Cidr)
    requires var q := Key(sk, name); q in k.links && k.links[q].addrs == {}
    ensures var r, q := AddrAdd(k, sk, name, c), Key(sk, name);
      && (r.ok <==> ValidPrefix(c.prefix))
      && r.k == if r.ok then Put(k, q, k.links[q].(addrs := {c})) else k
  {
    assert {} + {c} == {c};
  }

  lemma PutTwice(k: Kernel, q: Key, l: Link, m: Link)
    ensures Put(Put(k, q, l), q, m) == Put(k, q, m)
  {
    assert k.links[q := l][q := m] == k.links[q := m];
  }

  lemma VxlanStep(k: Kernel, f: Faults, physicalIf: string)
    requires k.cur == HOST
    ensures var r := CreateVxlan(k, f, HOST, physicalIf);
      && (r.ok <==> VX in k.links || (f !! VXLAN_CALLS && Key(HOST, physicalIf) in k.links))
      && (r.k == if VX in k.links || !r.ok then k
                 else Put(k, VX, Link(VxlanLink(physicalIf, "239.1.1.100", 100, 4789), true, None, {}, None)))
  {
  }

  function Pair(k: Kernel, h: Key, e: Key, up: bool): Kernel {
    Put(Put(k, h, Link(VethLink, false, None, {}, Some(e))), e, Link(VethLink, up, None, {}, Some(h)))
  }

  lemma MovedPair(k: Kernel, h: Key, t: Key, e: Key)
    requires Sound(k) && h !in k.links && t !in k.links && h != t && t.ns == HOST
    ensures var r := LinkMove(Pair(k, h, t, false), HOST, t.name, e);
      && (r.ok <==> e !in k.links && e != h)
      && (r.k == if r.ok then Pair(k, h, e, true) else Pair(k, h, t, false))
  {
    var p := Pair(k, h, t, false);
    var r := LinkMove(p, HOST, t.name, e);
    assert DropRoutes(p.routes, {t}) == k.routes;
    if r.ok {
      assert r.k.links == Pair(k, h, e, true).links;
    }
  }

  lemma VethStep(k: Kernel, f: Faults, id: PodId, ns: Ns)
    requires k.cur == HOST && Sound(k)
    ensures var r, h, t, e := CreateVeth(k, f, HOST, id, ns), HostKey(id), TmpKey(id), Key(ns, id.ifname);
      && (r.ok <==> f !! VETH_CALLS && h !in k.links && t !in k.links && e !in k.links && e != h)
      && (r.k == if VethCreate in f || h in k.links || t in k.links then k
                 else if r.ok then Pair(k, h, e, true) else Pair(k, h, t, false))
  {
    hide HostName, TmpName, LinkMove, Sound;
    var h, t, e := HostKey(id), TmpKey(id), Key(ns, id.ifname);
    GeneratedNamesApart(id, id);
    if h !in k.links && t !in k.links {
      MovedPair(k, h, t, e);
    }
  }

  /** The pod end after its address, the routes after the default route. */
  function Addressed(k: Kernel, q: Key, c: Cidr): map<Key, Link>
    requires q in k.links
  {
    k.links[q := k.links[q].(addrs := {c})]
  }

  predicate Entered(f: Faults) { f !! {OpenSelfNs, EnterNs} }

  predicate GivesAddress(f: Faults, cidr: string) {
    && Entered(f) && Assignable(cidr)
    && f !! {PodSocketAlloc, PodSocketConnect, PodIndex, PodGet, PodAddrBuild, PodAddrAdd}
  }

  predicate GivesRoute(f: Faults, cidr: string, bridgeCidr: string) {
    GivesAddress(f, cidr) && f !! {RouteBuild, RouteInstall} && Parse(bridgeCidr).Ok?
  }

  function Routed(k: Kernel, ns: Ns, bridgeCidr: string, dev: string): map<Ns, Route>
    requires Parse(bridgeCidr).Ok?
  {
    k.routes[ns := Route(Parse(bridgeCidr).value.addr, dev)]
  }

  /** How far configuring the pod's end gets, and where it leaves the process: back where it started
      unless the second attempt to go back fails as well. */
  lemma ConfigureStep(k: Kernel, f: Faults, ns: Ns, dev: string, cidr: string, bridgeCidr: string)
    requires var q := Key(ns, dev); q in k.links && k.links[q].addrs == {}
    ensures var r, q := ConfigureContainerVeth(k, f, ns, dev, cidr, bridgeCidr), Key(ns, dev);
      && (r.ok <==> GivesRoute(f, cidr, bridgeCidr) && LeaveNs !in f)
      && r.k == k.(links := if GivesAddress(f, cidr) then Addressed(k, q, Parse(cidr).value) else k.links,
                   routes := if GivesRoute(f, cidr, bridgeCidr) then Routed(k, ns, bridgeCidr, dev) else k.routes,
                   cur := if Entered(f) && !r.ok && RestoreNs in f then ns else k.cur)
  {
    hide Parse, AddrAdd, AddDefaultRoute;
    var inside, q := k.(cur := ns), Key(ns, dev);
    if Parse(cidr).Ok? {
      var c := Parse(cidr).value;
      FirstAddress(inside, ns, dev, c);
      RouteStep(inside.(links := Addressed(k, q, c)), f, ns, bridgeCidr, dev);
    }
  }

  lemma RouteStep(k: Kernel, f: Faults, sk: Ns, gateway: string, dev: string)
    requires Key(sk, dev) in k.links
    ensures var r := AddDefaultRoute(k, f, sk, gateway, dev);
      && (r.ok <==> RouteBuild !in f && RouteInstall !in f && Parse(gateway).Ok?)
      && r.k == if r.ok then k.(routes := k.routes[sk := Route(Parse(gateway).value.addr, dev)]) else k
  {
    hide Parse;
  }

  lemma EnableStep(k: Kernel, f: Faults, name: string)
    requires Key(HOST, name) in k.links
    ensures var r, q := EnableVeth(k, f, HOST, name), Key(HOST, name);
      && (r.ok <==> f !! ENABLE_CALLS)
      && (r.k == if r.ok then Put(k, q, k.links[q].(up := true)) else k)
  {
  }

  function Mastered(l: Link): Link { l.(master := Some(HOST_BRIDGE_NAME)) }

  lemma EnslaveStep(k: Kernel, f: Faults, name: string)
    requires BR in k.links && VX in k.links && Key(HOST, name) in k.links
    requires name != HOST_BRIDGE_NAME && name != HOST_VXLAN_NAME
    ensures var r, q := AttachIfsToBridge(k, f, HOST, name), Key(HOST, name);
      var half := Put(k, VX, Mastered(k.links[VX]));
      && (r.ok <==> f !! ENSLAVE_CALLS && k.links[BR].kind == BridgeLink)
      && r.k == if r.ok then Put(half, q, Mastered(k.links[q]))
                else if f !! ENSLAVE_CALLS - {EnslaveVeth} && k.links[BR].kind == BridgeLink then half
                else k
  {
  }

  lemma RuleStep(k: Kernel, f: Faults, physicalIf: string, cidr: string)
    requires Assignable(cidr)
    ensures var r := InstallRule(k, f, physicalIf, cidr);
      && (r.ok <==> f !! NFT_CALLS)
      && r.k == if f !! NFT_CALLS - {NftAck}
                then k.(chain := k.chain + [NatRule(physicalIf, Parse(cidr).value)]) else k
  {
    hide Parse, NatRule;
  }

  lemma DetachStep(k: Kernel, f: Faults, id: PodId)
    requires k.cur == HOST
    ensures var r := Detach(k, f, id);
      && (r.ok <==> f !! DETACH_CALLS && HostKey(id) in k.links)
      && r.k == if r.ok then LinkDelete(k, HOST, HostName(id)).k else k
  {
    hide HostName, LinkDelete;
    assert LinkDelete(k, HOST, HostName(id)).ok <==> HostKey(id) in k.links by { DeleteSucceeds(k, HostName(id)); }
  }

  lemma DeleteSucceeds(k: Kernel, name: string)
    ensures LinkDelete(k, HOST, name).ok <==> Key(HOST, name) in k.links
    ensures !LinkDelete(k, HOST, name).ok ==> LinkDelete(k, HOST, name).k == k
  {
  }
}
