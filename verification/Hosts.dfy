/** `net_utils.c` and `net.c` as they run: step by step over mutable kernel state, stopping at the
    first failure. */
module Hosts {
  import opened Words
  import opened Text
  import opened Cidrs
  import opened Naming
  import opened Nft
  import opened Kernels
  import opened Net
  import opened NetSteps
  import opened NetTheorems
  import opened Leftovers

  /** The kernel of one machine and the namespace of the calling process.  Requests go through a
      netlink socket bound to the namespace `sk`; `f` are the call sites that fail. */
  class Host {
    var links: map<Key, Link>
    var routes: map<Ns, Route>
    var cur: Ns
    var chain: seq<Rule>
    const paths: map<string, Ns>

    function State(): Kernel
      reads this
    {
      Kernel(links, routes, paths, cur, chain)
    }

    constructor (k: Kernel)
      ensures State() == k
    {
      links, routes, paths, cur, chain := k.links, k.routes, k.paths, k.cur, k.chain;
    }

    // -------------------------------------------------------------- kernel requests

    /** Allocations, sockets and the like. */
    method Prepare(f: Faults, call: Call) returns (ok: bool)
      ensures Outcome(State(), ok) == Plain(State(), f, call)
    {
      return call !in f;
    }

    method IfNameToIndex(f: Faults, call: Call, name: string) returns (ok: bool)
      ensures Outcome(State(), ok) == Attempt(State(), f, call, Index(State(), name))
    {
      return call !in f && Key(cur, name) in links;
    }

    method RtnlLinkGetKernel(f: Faults, call: Call, sk: Ns, name: string) returns (ok: bool)
      ensures Outcome(State(), ok) == Attempt(State(), f, call, LinkGet(State(), sk, name))
    {
      return call !in f && Key(sk, name) in links;
    }

    method RtnlLinkAdd(f: Faults, call: Call, sk: Ns, name: string, kind: Kind) returns (ok: bool)
      modifies this
      ensures Outcome(State(), ok) == Attempt(old(State()), f, call, LinkAdd(old(State()), sk, name, kind))
    {
      if call in f || Key(sk, name) in links {
        return false;
      }
      links := links[Key(sk, name) := Link(kind, true, None, {}, None)];
      return true;
    }

    method RtnlLinkVethAdd(f: Faults, call: Call, sk: Ns, host: string, peer: string) returns (ok: bool)
      modifies this
      ensures Outcome(State(), ok) == Attempt(old(State()), f, call, VethAdd(old(State()), sk, host, peer))
    {
      var a, b := Key(sk, host), Key(cur, peer);
      if call in f || a in links || b in links || a == b {
        return false;
      }
      links := links[a := Link(VethLink, false, None, {}, Some(b))];
      links := links[b := Link(VethLink, false, None, {}, Some(a))];
      return true;
    }

    /** `rtnl_link_change` with a new namespace, a new name and IFF_UP. */
    method RtnlLinkMove(f: Faults, call: Call, sk: Ns, name: string, to: Key) returns (ok: bool)
      modifies this
      ensures Outcome(State(), ok) == Attempt(old(State()), f, call, LinkMove(old(State()), sk, name, to))
    {
      var from := Key(sk, name);
      if call in f || from !in links || (to in links && to != from) {
        return false;
      }
      links := Moved(links, from, to);
      routes := DropRoutes(routes, {from});
      return true;
    }

    method RtnlAddrAdd(f: Faults, call: Call, sk: Ns, name: string, c: Cidr) returns (ok: bool)
      modifies this
      ensures Outcome(State(), ok) == Attempt(old(State()), f, call, AddrAdd(old(State()), sk, name, c))
    {
      var q := Key(sk, name);
      if call in f || q !in links || !ValidPrefix(c.prefix) || c in links[q].addrs {
        return false;
      }
      links := links[q := links[q].(addrs := links[q].addrs + {c})];
      return true;
    }

    method RtnlRouteAdd(f: Faults, call: Call, sk: Ns, gateway: word, dev: string) returns (ok: bool)
      modifies this
      ensures Outcome(State(), ok) == Attempt(old(State()), f, call, RouteAdd(old(State()), sk, gateway, dev))
    {
      if call in f || Key(sk, dev) !in links {
        return false;
      }
      routes := routes[sk := Route(gateway, dev)];
      return true;
    }

    method RtnlLinkUp(f: Faults, call: Call, sk: Ns, name: string) returns (ok: bool)
      modifies this
      ensures Outcome(State(), ok) == Attempt(old(State()), f, call, SetUp(old(State()), sk, name))
    {
      var q := Key(sk, name);
      if call in f || q !in links {
        return false;
      }
      links := links[q := links[q].(up := true)];
      return true;
    }

    method RtnlLinkEnslave(f: Faults, call: Call, sk: Ns, name: string, master: string) returns (ok: bool)
      modifies this
      ensures Outcome(State(), ok) == Attempt(old(State()), f, call, Enslave(old(State()), sk, name, master))
    {
      var q, m := Key(sk, name), Key(sk, master);
      if call in f || q !in links || m !in links || links[m].kind != BridgeLink || q == m {
        return false;
      }
      links := links[q := links[q].(master := Some(master))];
      return true;
    }

    method EnterNamespace(f: Faults, call: Call, ns: Ns) returns (ok: bool)
      modifies this
      ensures Outcome(State(), ok) == Attempt(old(State()), f, call, Setns(old(State()), ns))
    {
      if call in f {
        return false;
      }
      cur := ns;
      return true;
    }

    method RtnlLinkDelete(f: Faults, call: Call, sk: Ns, name: string) returns (ok: bool)
      modifies this
      ensures Outcome(State(), ok) == Attempt(old(State()), f, call, LinkDelete(old(State()), sk, name))
    {
      var q := Key(sk, name);
      if call in f || q !in links {
        return false;
      }
      var gone := Gone(links, q);
      links := Remaining(links, gone);
      routes := DropRoutes(routes, gone);
      return true;
    }

    method SendBatch(f: Faults, call: Call, r: Rule) returns (ok: bool)
      modifies this
      ensures Outcome(State(), ok) == Attempt(old(State()), f, call, AddRule(old(State()), r))
    {
      if call in f {
        return false;
      }
      chain := chain + [r];
      return true;
    }

    // -------------------------------------------------------------- net_utils.c

    method NuCreateBridge(f: Faults, sk: Ns, cidr: string) returns (rc: int)
      requires '\0' !in cidr && |cidr| < CIDR_BUFFER_LEN
      modifies this
      ensures State() == CreateBridge(old(State()), f, sk, cidr).k
      ensures rc == if CreateBridge(old(State()), f, sk, cidr).ok then 0 else 1
    {
      hide Parse, LinkAdd, AddrAdd;
      if Key(cur, HOST_BRIDGE_NAME) in links {
        return 0;
      }
      var ok := Prepare(f, BridgeAlloc);
      if !ok { return 1; }
      ok := RtnlLinkAdd(f, BridgeAdd, sk, HOST_BRIDGE_NAME, BridgeLink);
      if !ok { return 1; }
      ok := IfNameToIndex(f, BridgeIndex, HOST_BRIDGE_NAME);
      if !ok { return 1; }
      var addr;
      ok, addr := NuRtnlAddrBuild(f, BridgeAddrBuild, cidr);
      if !ok { return 1; }
      ok := RtnlAddrAdd(f, BridgeAddrAdd, sk, HOST_BRIDGE_NAME, addr);
      if !ok { return 1; }
      return 0;
    }

    method NuRtnlAddrBuild(f: Faults, call: Call, cidr: string) returns (ok: bool, c: Cidr)
      requires '\0' !in cidr && |cidr| < CIDR_BUFFER_LEN
      ensures Outcome(State(), ok) == Attempt(State(), f, call, AddrBuild(State(), cidr))
      ensures ok ==> Parse(cidr) == Ok(c)
    {
      hide Parse;
      var rc, addr, prefix := CidrParse(cidr);
      return rc == 0 && call !in f, Cidr(ByteSwap(addr), prefix);
    }

    method NuCreateVxlan(f: Faults, sk: Ns, physicalIf: string) returns (rc: int)
      modifies this
      ensures State() == CreateVxlan(old(State()), f, sk, physicalIf).k
      ensures rc == if CreateVxlan(old(State()), f, sk, physicalIf).ok then 0 else 1
      ensures old(cur) == HOST == sk && VX !in old(links) ==>
        links == if rc != 0 then old(links)
                 else old(links)[VX := Link(VxlanLink(physicalIf, "239.1.1.100", 100, 4789), true, None, {}, None)]
    {
      hide LinkAdd;
      if cur == HOST { VxlanStep(State(), f, physicalIf); }
      if Key(cur, HOST_VXLAN_NAME) in links {
        return 0;
      }
      var ok := Prepare(f, VxlanAlloc);
      if !ok { return 1; }
      ok := Prepare(f, VxlanGroup);
      if !ok { return 1; }
      ok := IfNameToIndex(f, VxlanUnderlay, physicalIf);
      if !ok { return 1; }
      ok := RtnlLinkAdd(f, VxlanAdd, sk, HOST_VXLAN_NAME,
                        VxlanLink(physicalIf, HOST_VXLAN_GROUP, HOST_VXLAN_VNI_ID, VXLAN_PORT));
      if !ok { return 1; }
      return 0;
    }

    method NuCreateVeth(f: Faults, sk: Ns, ns: Ns, podName: string, tmpName: string, hostName: string,
                        ghost id: PodId) returns (rc: int)
      requires podName == id.ifname && tmpName == TmpName(id) && hostName == HostName(id)
      modifies this
      ensures State() == CreateVeth(old(State()), f, sk, id, ns).k
      ensures rc == if CreateVeth(old(State()), f, sk, id, ns).ok then 0 else 1
    {
      hide HostName, TmpName, VethAdd, LinkMove;
      var ok := RtnlLinkVethAdd(f, VethCreate, sk, hostName, tmpName);
      if !ok { return 1; }
      ok := IfNameToIndex(f, TmpIndex, tmpName);
      if !ok { return 1; }
      ok := RtnlLinkGetKernel(f, TmpGet, sk, tmpName);
      if !ok { return 1; }
      ok := Prepare(f, MoveAlloc);
      if !ok { return 1; }
      ok := RtnlLinkMove(f, MoveToPod, sk, tmpName, Key(ns, podName));
      if !ok { return 1; }
      return 0;
    }

    method NuAddRoutingRule(f: Faults, sk: Ns, gateway: string, dev: string) returns (rc: int)
      requires '\0' !in gateway && |gateway| < CIDR_BUFFER_LEN
      modifies this
      ensures State() == AddDefaultRoute(old(State()), f, sk, gateway, dev).k
      ensures rc == if AddDefaultRoute(old(State()), f, sk, gateway, dev).ok then 0 else 1
    {
      hide Parse, RouteAdd;
      var ok, next := NuRtnlAddrBuild(f, RouteBuild, gateway);
      if !ok { return 1; }
      ok := RtnlRouteAdd(f, RouteInstall, sk, next.addr, dev);
      if !ok { return 1; }
      return 0;
    }

    method NuEnableVeth(f: Faults, sk: Ns, name: string) returns (rc: int)
      modifies this
      ensures State() == EnableVeth(old(State()), f, sk, name).k
      ensures rc == if EnableVeth(old(State()), f, sk, name).ok then 0 else 1
    {
      var ok := RtnlLinkGetKernel(f, HostVethGet, sk, name);
      if !ok { return 1; }
      ok := Prepare(f, HostVethAlloc);
      if !ok { return 1; }
      ok := RtnlLinkUp(f, HostVethUp, sk, name);
      if !ok { return 1; }
      return 0;
    }

    // -------------------------------------------------------------- net.c

    method ConfigureVeth(f: Faults, ns: Ns, dev: string, cidr: string, bridgeCidr: string) returns (rc: int)
      requires '\0' !in cidr && |cidr| < CIDR_BUFFER_LEN && '\0' !in bridgeCidr && |bridgeCidr| < CIDR_BUFFER_LEN
      modifies this
      ensures State() == ConfigureContainerVeth(old(State()), f, ns, dev, cidr, bridgeCidr).k
      ensures rc == if ConfigureContainerVeth(old(State()), f, ns, dev, cidr, bridgeCidr).ok then 0 else 1
    {
      hide Parse, AddrAdd, AddDefaultRoute;
      var main := cur;
      var switched;
      rc, switched := ConfigureSteps(f, main, ns, dev, cidr, bridgeCidr);
      if switched {
        var back := EnterNamespace(f, RestoreNs, main);
      }
    }

    /** The part before the `out:` label; `switched` is `switched_ns` when it is reached. */
    method ConfigureSteps(f: Faults, main: Ns, ns: Ns, dev: string, cidr: string, bridgeCidr: string)
      returns (rc: int, switched: bool)
      requires '\0' !in cidr && |cidr| < CIDR_BUFFER_LEN && '\0' !in bridgeCidr && |bridgeCidr| < CIDR_BUFFER_LEN
      requires main == cur
      modifies this
      ensures State() == ConfigureInside(old(State()), f, ns, dev, cidr, bridgeCidr).k
      ensures rc == if ConfigureInside(old(State()), f, ns, dev, cidr, bridgeCidr).ok then 0 else 1
      ensures rc == 0 ==> !switched
      ensures rc != 0 && !switched ==> cur == main
    {
      hide Parse, AddrAdd, AddDefaultRoute;
      switched := false;
      var ok := Prepare(f, OpenSelfNs);
      if !ok { return 1, switched; }
      ok := EnterNamespace(f, EnterNs, ns);
      if !ok { return 1, switched; }
      switched := true;
      ok := Prepare(f, PodSocketAlloc);
      if !ok { return 1, switched; }
      ok := Prepare(f, PodSocketConnect);
      if !ok { return 1, switched; }
      var sk := cur;
      ok := IfNameToIndex(f, PodIndex, dev);
      if !ok { return 1, switched; }
      ok := RtnlLinkGetKernel(f, PodGet, sk, dev);
      if !ok { return 1, switched; }
      var addr;
      ok, addr := NuRtnlAddrBuild(f, PodAddrBuild, cidr);
      if !ok { return 1, switched; }
      ok := RtnlAddrAdd(f, PodAddrAdd, sk, dev, addr);
      if !ok { return 1, switched; }
      rc := NuAddRoutingRule(f, sk, bridgeCidr, dev);
      if rc != 0 { return 1, switched; }
      ok := EnterNamespace(f, LeaveNs, main);
      if !ok { return 1, switched; }
      return 0, false;
    }

    method SetUpVeth(f: Faults, sk: Ns, ns: Ns, podName: string, tmpName: string, hostName: string,
                     cidr: string, bridgeCidr: string, ghost a: AttachArgs) returns (rc: int)
      requires '\0' !in cidr && |cidr| < CIDR_BUFFER_LEN && '\0' !in bridgeCidr && |bridgeCidr| < CIDR_BUFFER_LEN
      requires podName == a.id.ifname && tmpName == TmpName(a.id) && hostName == HostName(a.id)
      requires cidr == a.cidr && bridgeCidr == a.bridgeCidr
      modifies this
      ensures State() == SetupVeth(old(State()), f, sk, a, ns).k
      ensures rc == if SetupVeth(old(State()), f, sk, a, ns).ok then 0 else 1
    {
      hide HostName, TmpName, Parse, CreateVeth, ConfigureContainerVeth, EnableVeth;
      rc := NuCreateVeth(f, sk, ns, podName, tmpName, hostName, a.id);
      if rc != 0 { return 1; }
      rc := ConfigureVeth(f, ns, podName, cidr, bridgeCidr);
      if rc != 0 { return 1; }
      rc := NuEnableVeth(f, sk, hostName);
      if rc != 0 { return 1; }
      return 0;
    }

    method AttachToBridge(f: Faults, sk: Ns, hostName: string) returns (rc: int)
      modifies this
      ensures State() == AttachIfsToBridge(old(State()), f, sk, hostName).k
      ensures rc == if AttachIfsToBridge(old(State()), f, sk, hostName).ok then 0 else 1
    {
      hide Enslave;
      var ok := RtnlLinkGetKernel(f, BridgeGet, sk, HOST_BRIDGE_NAME);
      if !ok { return 1; }
      ok := RtnlLinkGetKernel(f, VxlanGet, sk, HOST_VXLAN_NAME);
      if !ok { return 1; }
      ok := RtnlLinkGetKernel(f, VethGet, sk, hostName);
      if !ok { return 1; }
      ok := Prepare(f, ChangesAlloc);
      if !ok { return 1; }
      ok := RtnlLinkEnslave(f, EnslaveVxlan, sk, HOST_VXLAN_NAME, HOST_BRIDGE_NAME);
      if !ok { return 1; }
      ok := RtnlLinkEnslave(f, EnslaveVeth, sk, hostName, HOST_BRIDGE_NAME);
      if !ok { return 1; }
      return 0;
    }

    method NftNatRule(f: Faults, physicalIf: string, cidr: string) returns (rc: int)
      requires '\0' !in cidr && |cidr| < CIDR_BUFFER_LEN && ShiftDefined(cidr)
      modifies this
      ensures State() == InstallRule(old(State()), f, physicalIf, cidr).k
      ensures rc == if InstallRule(old(State()), f, physicalIf, cidr).ok then 0 else 1
    {
      hide Parse, NatRule;
      var rule;
      rc, rule := BuildRule(physicalIf, cidr);
      if rc != 0 { return 1; }
      var ok := Prepare(f, NftOpen);
      if !ok { return 1; }
      ok := Prepare(f, NftBind);
      if !ok { return 1; }
      ok := Prepare(f, NftAlloc);
      if !ok { return 1; }
      ok := SendBatch(f, NftSend, rule);
      if !ok { return 1; }
      ok := Prepare(f, NftAck);
      if !ok { return 1; }
      return 0;
    }

    method NetAttachContainer(f: Faults, a: AttachArgs) returns (rc: int)
      requires '\0' !in a.cidr && |a.cidr| < CIDR_BUFFER_LEN && ShiftDefined(a.cidr)
      requires '\0' !in a.bridgeCidr && |a.bridgeCidr| < CIDR_BUFFER_LEN
      requires '\0' !in a.id.netns && '\0' !in a.id.ifname && '\0' !in a.id.containerId
      modifies this
      ensures State() == Attach(old(State()), f, a).k
      ensures rc == if Attach(old(State()), f, a).ok then 0 else 1
      ensures Sound(old(State())) && old(cur) == HOST ==>
        AttachResult(old(State()), State(), rc == 0, f, a) && LeftBehind(old(State()), State(), f, a)
    {
      hide HostName, TmpName, Parse, CreateBridge, CreateVxlan, SetupVeth, AttachIfsToBridge, InstallRule, CString,
        Sound, AttachResult, LeftBehind;
      if Sound(State()) && cur == HOST {
        AttachStep(State(), f, a);
        AttachLeaves(State(), f, a);
      }
      var sk := cur;
      var ok := Prepare(f, SocketAlloc);
      if !ok { return 1; }
      ok := Prepare(f, SocketConnect);
      if !ok { return 1; }
      if OpenNetns in f || a.id.netns !in paths { return 1; }
      var ns := paths[a.id.netns];
      var hostName, tmpName := GenerateNames(a.id);
      rc := NuCreateBridge(f, sk, a.bridgeCidr);
      if rc != 0 { return 1; }
      rc := NuCreateVxlan(f, sk, a.physicalIf);
      if rc != 0 { return 1; }
      rc := SetUpVeth(f, sk, ns, a.id.ifname, tmpName, hostName, a.cidr, a.bridgeCidr, a);
      if rc != 0 { return 1; }
      rc := AttachToBridge(f, sk, hostName);
      if rc != 0 { return 1; }
      rc := NftNatRule(f, a.physicalIf, a.cidr);
      if rc != 0 { return 1; }
      return 0;
    }

    /** The two `char[16]` name buffers. */
    static method GenerateNames(id: PodId) returns (hostName: string, tmpName: string)
      requires '\0' !in id.netns && '\0' !in id.ifname && '\0' !in id.containerId
      ensures hostName == HostName(id) && tmpName == TmpName(id)
    {
      var buffer := new char[16](_ => '\0');
      GenerateHostIfName(buffer, id);
      hostName := CString(buffer[..]);
      var tmpBuffer := new char[16](_ => '\0');
      GenerateContainerIfTemporaryName(tmpBuffer, id);
      tmpName := CString(tmpBuffer[..]);
    }

    method NetDetachContainer(f: Faults, id: PodId) returns (rc: int)
      requires '\0' !in id.netns && '\0' !in id.ifname && '\0' !in id.containerId
      modifies this
      ensures State() == Detach(old(State()), f, id).k
      ensures rc == if Detach(old(State()), f, id).ok then 0 else 1
      ensures old(cur) == HOST ==>
        && (rc == 0 <==> f !! DETACH_CALLS && HostKey(id) in old(links))
        && State() == if rc == 0 then LinkDelete(old(State()), HOST, HostName(id)).k else old(State())
    {
      hide HostName, TmpName, LinkDelete;
      if cur == HOST { DetachStep(State(), f, id); }
      var sk := cur;
      var ok := Prepare(f, SocketAlloc);
      if !ok { return 1; }
      ok := Prepare(f, SocketConnect);
      if !ok { return 1; }
      var hostName, tmpName := GenerateNames(id);
      ok := RtnlLinkGetKernel(f, DeleteGet, sk, hostName);
      if !ok { return 1; }
      ok := RtnlLinkDelete(f, DeleteLink, sk, hostName);
      if !ok { return 1; }
      return 0;
    }
  }
}
