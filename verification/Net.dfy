/** What `net_utils.c` and `net.c` do to the kernel, as functions of the kernel and the faults. */
module Net {
  import opened Cidrs
  import opened Naming
  import opened Nft
  import opened Kernels

  const HOST_BRIDGE_NAME := "brsknf"
  const HOST_VXLAN_NAME := "vxsknf"
  const HOST_VXLAN_GROUP := "239.1.1.100"
  const HOST_VXLAN_VNI_ID := 100
  const VXLAN_PORT := 4789

  datatype AttachArgs = AttachArgs(id: PodId, cidr: string, bridgeCidr: string, physicalIf: string)

  /** `nft_nat_rule` shifts by `32 - prefix`, which C defines only for these prefixes. */
  predicate ShiftDefined(cidr: string) {
    Parse(cidr).Ok? ==> ValidPrefix(Parse(cidr).value.prefix)
  }

  function Vxlan(physicalIf: string): Kind {
    VxlanLink(physicalIf, HOST_VXLAN_GROUP, HOST_VXLAN_VNI_ID, VXLAN_PORT)
  }

  /** `nu_rtnl_addr_build`. */
  function AddrBuild(k: Kernel, cidr: string): Outcome { Outcome(k, Parse(cidr).Ok?) }

  function CreateBridge(k: Kernel, f: Faults, sk: Ns, cidr: string): Outcome {
    if Key(k.cur, HOST_BRIDGE_NAME) in k.links then Outcome(k, true)
    else
      var k :- Plain(k, f, BridgeAlloc);
      var k :- Attempt(k, f, BridgeAdd, LinkAdd(k, sk, HOST_BRIDGE_NAME, BridgeLink));
      var k :- Attempt(k, f, BridgeIndex, Index(k, HOST_BRIDGE_NAME));
      var k :- Attempt(k, f, BridgeAddrBuild, AddrBuild(k, cidr));
      Attempt(k, f, BridgeAddrAdd, AddrAdd(k, sk, HOST_BRIDGE_NAME, Parse(cidr).value))
  }

  function CreateVxlan(k: Kernel, f: Faults, sk: Ns, physicalIf: string): Outcome {
    if Key(k.cur, HOST_VXLAN_NAME) in k.links then Outcome(k, true)
    else
      var k :- Plain(k, f, VxlanAlloc);
      var k :- Plain(k, f, VxlanGroup);
      var k :- Attempt(k, f, VxlanUnderlay, Index(k, physicalIf));
      Attempt(k, f, VxlanAdd, LinkAdd(k, sk, HOST_VXLAN_NAME, Vxlan(physicalIf)))
  }

  function CreateVeth(k: Kernel, f: Faults, sk: Ns, id: PodId, ns: Ns): Outcome {
    var k :- Attempt(k, f, VethCreate, VethAdd(k, sk, HostName(id), TmpName(id)));
    var k :- Attempt(k, f, TmpIndex, Index(k, TmpName(id)));
    var k :- Attempt(k, f, TmpGet, LinkGet(k, sk, TmpName(id)));
    var k :- Plain(k, f, MoveAlloc);
    Attempt(k, f, MoveToPod, LinkMove(k, sk, TmpName(id), Key(ns, id.ifname)))
  }

  /** `nu_add_routing_rule` for the default route: `nl_addr_parse` takes the bridge's CIDR text and
      the kernel uses its address. */
  function AddDefaultRoute(k: Kernel, f: Faults, sk: Ns, gateway: string, dev: string): Outcome {
    var k :- Attempt(k, f, RouteBuild, AddrBuild(k, gateway));
    Attempt(k, f, RouteInstall, RouteAdd(k, sk, Parse(gateway).value.addr, dev))
  }

  /** The steps of `configure_container_veth` up to its `out:` label. */
  function ConfigureInside(k: Kernel, f: Faults, ns: Ns, dev: string, cidr: string, bridgeCidr: string): Outcome {
    var main := k.cur;
    var k :- Plain(k, f, OpenSelfNs);
    var k :- Attempt(k, f, EnterNs, Setns(k, ns));
    var k :- Plain(k, f, PodSocketAlloc);
    var k :- Plain(k, f, PodSocketConnect);
    var sk := k.cur;
    var k :- Attempt(k, f, PodIndex, Index(k, dev));
    var k :- Attempt(k, f, PodGet, LinkGet(k, sk, dev));
    var k :- Attempt(k, f, PodAddrBuild, AddrBuild(k, cidr));
    var k :- Attempt(k, f, PodAddrAdd, AddrAdd(k, sk, dev, Parse(cidr).value));
    var k :- AddDefaultRoute(k, f, sk, bridgeCidr, dev);
    Attempt(k, f, LeaveNs, Setns(k, main))
  }

  /** `configure_container_veth`: a failure after entering the pod's namespace tries once to go
      back.  Before that point going back changes nothing. */
  function ConfigureContainerVeth(k: Kernel, f: Faults, ns: Ns, dev: string, cidr: string, bridgeCidr: string): Outcome
  {
    var r := ConfigureInside(k, f, ns, dev, cidr, bridgeCidr);
    if !r.ok && RestoreNs !in f then Outcome(r.k.(cur := k.cur), false) else r
  }

  function EnableVeth(k: Kernel, f: Faults, sk: Ns, name: string): Outcome {
    var k :- Attempt(k, f, HostVethGet, LinkGet(k, sk, name));
    var k :- Plain(k, f, HostVethAlloc);
    Attempt(k, f, HostVethUp, SetUp(k, sk, name))
  }

  function AttachIfsToBridge(k: Kernel, f: Faults, sk: Ns, hostName: string): Outcome {
    var k :- Attempt(k, f, BridgeGet, LinkGet(k, sk, HOST_BRIDGE_NAME));
    var k :- Attempt(k, f, VxlanGet, LinkGet(k, sk, HOST_VXLAN_NAME));
    var k :- Attempt(k, f, VethGet, LinkGet(k, sk, hostName));
    var k :- Plain(k, f, ChangesAlloc);
    var k :- Attempt(k, f, EnslaveVxlan, Enslave(k, sk, HOST_VXLAN_NAME, HOST_BRIDGE_NAME));
    Attempt(k, f, EnslaveVeth, Enslave(k, sk, hostName, HOST_BRIDGE_NAME))
  }

  /** `nft_nat_rule`: the batch takes effect when it is sent; only the acknowledgement can fail
      after that. */
  function InstallRule(k: Kernel, f: Faults, physicalIf: string, cidr: string): Outcome
    requires ShiftDefined(cidr)
  {
    if Parse(cidr).Err? then Outcome(k, false)
    else
      var k :- Plain(k, f, NftOpen);
      var k :- Plain(k, f, NftBind);
      var k :- Plain(k, f, NftAlloc);
      var k :- Attempt(k, f, NftSend, AddRule(k, NatRule(physicalIf, Parse(cidr).value)));
      Plain(k, f, NftAck)
  }

  function SetupVeth(k: Kernel, f: Faults, sk: Ns, a: AttachArgs, ns: Ns): Outcome {
    var k :- CreateVeth(k, f, sk, a.id, ns);
    var k :- ConfigureContainerVeth(k, f, ns, a.id.ifname, a.cidr, a.bridgeCidr);
    EnableVeth(k, f, sk, HostName(a.id))
  }

  /** `net_attach_container`. */
  function Attach(k: Kernel, f: Faults, a: AttachArgs): Outcome
    requires ShiftDefined(a.cidr)
  {
    var sk := k.cur;
    var k :- Plain(k, f, SocketAlloc);
    var k :- Plain(k, f, SocketConnect);
    var k :- Attempt(k, f, OpenNetns, Outcome(k, a.id.netns in k.paths));
    var ns := k.paths[a.id.netns];
    var k :- CreateBridge(k, f, sk, a.bridgeCidr);
    var k :- CreateVxlan(k, f, sk, a.physicalIf);
    var k :- SetupVeth(k, f, sk, a, ns);
    var k :- AttachIfsToBridge(k, f, sk, HostName(a.id));
    InstallRule(k, f, a.physicalIf, a.cidr)
  }

  /** `net_detach_container`. */
  function Detach(k: Kernel, f: Faults, id: PodId): Outcome {
    var sk := k.cur;
    var k :- Plain(k, f, SocketAlloc);
    var k :- Plain(k, f, SocketConnect);
    var k :- Attempt(k, f, DeleteGet, LinkGet(k, sk, HostName(id)));
    Attempt(k, f, DeleteLink, LinkDelete(k, sk, HostName(id)))
  }
}
