/** `cmd_add` and `cmd_del`: one invocation of the plugin on one node. */
module Cmd {
  import opened Text
  import opened Cidrs
  import opened Naming
  import opened Nft
  import opened Kernels
  import opened Net
  import opened NetSteps
  import opened Io
  import opened Ip
  import Hosts

  datatype Settings = Settings(net: Config, physicalIf: string)

  /** What survives an invocation. */
  datatype Node = Node(k: Kernel, file: Option<string>)

  datatype Reply = Reply(node: Node, result: Result<string>, ok: bool)

  /** Configurations for which C defines what happens: texts that fit, a prefix that can be shifted. */
  predicate Defined(s: Settings) {
    && FitsBuffers(s.net)
    && (Parse(s.net.clusterCidr).Ok? ==> ValidPrefix(Parse(s.net.clusterCidr).value.prefix))
  }

  lemma AcquiredIsShiftable(s: Settings, file: Option<string>, env: Env)
    requires Defined(s)
    ensures var r := Acquire(file, s.net, env).result;
      r.Ok? ==> ShiftDefined(r.value) && '\0' !in r.value && |r.value| < CIDR_BUFFER_LEN
  {
    hide Parse, Print, AfterWrite, LastAcquired;
    var l := LastAcquired(file, s.net.subnet, env);
    if l.Ok? && NextCidr(l.value, s.net.clusterCidr).Ok? {
      RoundTrip(NextCidr(l.value, s.net.clusterCidr).value);
    }
  }

  /** `cmd_add`: an address is taken before attaching starts and is not given back. */
  function CmdAdd(s: Settings, n: Node, id: PodId, f: Faults, env: Env): Reply
    requires Defined(s)
  {
    if EnableNetfilter in f then Reply(n, Err(NetfilterFailed), false)
    else
      match Bridge(s.net)
      case Err(e) => Reply(n, Err(e), false)
      case Ok(bridge) =>
        var acquired := Acquire(n.file, s.net, env);
        match acquired.result
        case Err(e) => Reply(n.(file := acquired.file), Err(e), false)
        case Ok(cidr) =>
          AcquiredIsShiftable(s, n.file, env);
          var r := Attach(n.k.(cur := HOST), f, AttachArgs(id, cidr, bridge, s.physicalIf));
          Reply(Node(r.k, acquired.file), Ok(cidr), r.ok)
  }

  /** `cmd_del`. */
  function CmdDel(k: Kernel, id: PodId, f: Faults): Outcome {
    Detach(k.(cur := HOST), f, id)
  }

  predicate CStrings(id: PodId) {
    '\0' !in id.netns && '\0' !in id.ifname && '\0' !in id.containerId
  }

  method RunCmdAdd(s: Settings, host: Hosts.Host, disk: Disk, id: PodId, f: Faults)
    returns (rc: int, cidr: string, ghost env: Env)
    requires Defined(s) && CStrings(id) && host.cur == HOST
    modifies host, disk`file
    ensures var r := CmdAdd(s, Node(old(host.State()), old(disk.file)), id, f, env);
      && host.State() == r.node.k && disk.file == r.node.file
      && rc == (if r.ok then 0 else 1)
      && (rc == 0 ==> r.result == Ok(cidr))
    ensures !disk.faulty ==> env == NO_FAULT
  {
    hide Parse, Bridge, Acquire, Attach, CString;
    cidr, env := "", NO_FAULT;
    if EnableNetfilter in f {
      return 1, cidr, env;
    }
    var bridgeCidr := new char[CIDR_BUFFER_LEN](_ => '\0');
    rc := IpBridge(s.net, bridgeCidr);
    if rc != 0 {
      return 1, cidr, env;
    }
    var containerCidr := new char[CIDR_BUFFER_LEN](_ => '\0');
    rc, env := IpContainerAcquire(disk, s.net, containerCidr);
    if rc != 0 {
      return 1, cidr, env;
    }
    cidr := CString(containerCidr[..]);
    AcquiredIsShiftable(s, old(disk.file), env);
    BridgeFits(s.net);
    rc := host.NetAttachContainer(f, AttachArgs(id, cidr, CString(bridgeCidr[..]), s.physicalIf));
    if rc != 0 {
      return 1, cidr, env;
    }
  }

  lemma BridgeFits(cfg: Config)
    ensures Bridge(cfg).Ok? ==> '\0' !in Bridge(cfg).value && |Bridge(cfg).value| < CIDR_BUFFER_LEN
  {
    hide Parse, Print;
    if NextCidr(cfg.subnet, cfg.clusterCidr).Ok? {
      RoundTrip(NextCidr(cfg.subnet, cfg.clusterCidr).value);
    }
  }

  method RunCmdDel(host: Hosts.Host, id: PodId, f: Faults) returns (rc: int)
    requires CStrings(id) && host.cur == HOST
    modifies host
    ensures var r := CmdDel(old(host.State()), id, f);
      host.State() == r.k && rc == if r.ok then 0 else 1
    ensures rc == 0 <==> f !! DETACH_CALLS && HostKey(id) in old(host.links)
    ensures rc == 0 ==>
      forall q :: q in host.links <==> q in old(host.links) && q !in Gone(old(host.links), HostKey(id))
    ensures rc != 0 ==> host.State() == old(host.State())
  {
    hide Detach, HostName, Gone;
    rc := host.NetDetachContainer(f, id);
    if rc != 0 {
      return 1;
    }
  }
}
