/** The part of the kernel the plugin changes: interfaces by namespace and name, one default route
    per namespace, the plugin's NAT chain, and the namespace the process is in.

    Every request either takes effect or fails and changes nothing.  It fails when the kernel has a
    reason that the model knows (a name that is taken or missing, a bad prefix) or when its call site
    is among the faults chosen for the invocation. */
module Kernels {
  import opened Words
  import opened Cidrs
  import opened Nft

  type Ns = nat

  /** The namespace every invocation starts in. */
  const HOST: Ns := 0

  datatype Key = Key(ns: Ns, name: string)

  datatype Kind =
    | BridgeLink
    | VxlanLink(underlay: string, group: string, vni: int, port: int)
    | VethLink
    | OtherLink

  datatype Link = Link(kind: Kind, up: bool, master: Option<string>, addrs: set<Cidr>, peer: Option<Key>)

  /** A default route. */
  datatype Route = Route(gateway: word, dev: string)

  /** `paths` maps the namespace files that can be opened to their namespaces. */
  datatype Kernel = Kernel(links: map<Key, Link>, routes: map<Ns, Route>, paths: map<string, Ns>,
                           cur: Ns, chain: seq<Rule>)

  /** The fallible call sites of `cmd_add` and `cmd_del`, each reached at most once per invocation. */
  datatype Call =
    | EnableNetfilter
    | SocketAlloc | SocketConnect | OpenNetns
    | BridgeAlloc | BridgeAdd | BridgeIndex | BridgeAddrBuild | BridgeAddrAdd
    | VxlanAlloc | VxlanGroup | VxlanUnderlay | VxlanAdd
    | VethCreate | TmpIndex | TmpGet | MoveAlloc | MoveToPod
    | OpenSelfNs | EnterNs | PodSocketAlloc | PodSocketConnect | PodIndex | PodGet
    | PodAddrBuild | PodAddrAdd | RouteBuild | RouteInstall | LeaveNs | RestoreNs
    | HostVethGet | HostVethAlloc | HostVethUp
    | BridgeGet | VxlanGet | VethGet | ChangesAlloc | EnslaveVxlan | EnslaveVeth
    | NftOpen | NftBind | NftAlloc | NftSend | NftAck
    | DeleteGet | DeleteLink

  type Faults = set<Call>

  /** The state after a request or a sequence of them, and whether all went well. */
  datatype Outcome = Outcome(k: Kernel, ok: bool) {
    predicate IsFailure() { !ok }
    function PropagateFailure(): Outcome
      requires !ok
    {
      this
    }
    function Extract(): Kernel
      requires ok
    {
      k
    }
  }

  function Attempt(k: Kernel, f: Faults, call: Call, r: Outcome): Outcome {
    if call in f then Outcome(k, false) else r
  }

  /** A call that can only fail for reasons outside the model. */
  function Plain(k: Kernel, f: Faults, call: Call): Outcome {
    Outcome(k, call !in f)
  }

  function Put(k: Kernel, q: Key, l: Link): Kernel {
    k.(links := k.links[q := l])
  }

  /** `if_nametoindex`: looks in the namespace the process is in. */
  function Index(k: Kernel, name: string): Outcome {
    Outcome(k, Key(k.cur, name) in k.links)
  }

  /** `rtnl_link_get_kernel`: looks in the namespace the socket `sk` was opened in. */
  function LinkGet(k: Kernel, sk: Ns, name: string): Outcome {
    Outcome(k, Key(sk, name) in k.links)
  }

  function LinkAdd(k: Kernel, sk: Ns, name: string, kind: Kind): Outcome {
    if Key(sk, name) in k.links then Outcome(k, false)
    else Outcome(Put(k, Key(sk, name), Link(kind, true, None, {}, None)), true)
  }

  /** A pair, both ends down; the second end is created in the caller's own namespace. */
  function VethAdd(k: Kernel, sk: Ns, host: string, peer: string): Outcome {
    var a, b := Key(sk, host), Key(k.cur, peer);
    if a in k.links || b in k.links || a == b then Outcome(k, false)
    else
      var one := Put(k, a, Link(VethLink, false, None, {}, Some(b)));
      Outcome(Put(one, b, Link(VethLink, false, None, {}, Some(a))), true)
  }

  function DropRoutes(routes: map<Ns, Route>, gone: set<Key>): map<Ns, Route> {
    map ns | ns in routes && Key(ns, routes[ns].dev) !in gone :: routes[ns]
  }

  function Moved(links: map<Key, Link>, from: Key, to: Key): map<Key, Link>
    requires from in links
  {
    var l := links[from].(up := true);
    var moved := (links - {from})[to := if to.ns == from.ns then l else l.(addrs := {}, master := None)];
    if l.peer.Some? && l.peer.value in moved
    then moved[l.peer.value := moved[l.peer.value].(peer := Some(to))] else moved
  }

  /** Change an interface's namespace and name and bring it up; leaving a namespace drops addresses,
      master and routes. */
  function LinkMove(k: Kernel, sk: Ns, name: string, to: Key): Outcome {
    var from := Key(sk, name);
    if from !in k.links || (to in k.links && to != from) then Outcome(k, false)
    else Outcome(k.(links := Moved(k.links, from, to), routes := DropRoutes(k.routes, {from})), true)
  }

  function AddrAdd(k: Kernel, sk: Ns, name: string, c: Cidr): Outcome {
    var q := Key(sk, name);
    if q !in k.links || !ValidPrefix(c.prefix) || c in k.links[q].addrs then Outcome(k, false)
    else Outcome(Put(k, q, k.links[q].(addrs := k.links[q].addrs + {c})), true)
  }

  /** Install the default route, replacing whichever there is. */
  function RouteAdd(k: Kernel, sk: Ns, gateway: word, dev: string): Outcome {
    if Key(sk, dev) !in k.links then Outcome(k, false)
    else Outcome(k.(routes := k.routes[sk := Route(gateway, dev)]), true)
  }

  function SetUp(k: Kernel, sk: Ns, name: string): Outcome {
    var q := Key(sk, name);
    if q !in k.links then Outcome(k, false) else Outcome(Put(k, q, k.links[q].(up := true)), true)
  }

  function Enslave(k: Kernel, sk: Ns, name: string, master: string): Outcome {
    var q, m := Key(sk, name), Key(sk, master);
    if q !in k.links || m !in k.links || k.links[m].kind != BridgeLink || q == m then Outcome(k, false)
    else Outcome(Put(k, q, k.links[q].(master := Some(master))), true)
  }

  function Setns(k: Kernel, ns: Ns): Outcome { Outcome(k.(cur := ns), true) }

  function AddRule(k: Kernel, r: Rule): Outcome { Outcome(k.(chain := k.chain + [r]), true) }

  /** Deleting one end of a pair deletes both; slaves are released and routes go. */
  function Gone(links: map<Key, Link>, q: Key): set<Key>
    requires q in links
  {
    {q} + if links[q].peer.Some? then {links[q].peer.value} else {}
  }

  function Release(l: Link, ns: Ns, gone: set<Key>): Link {
    if l.master.Some? && Key(ns, l.master.value) in gone then l.(master := None) else l
  }

  function Remaining(links: map<Key, Link>, gone: set<Key>): map<Key, Link> {
    map p | p in links && p !in gone :: Release(links[p], p.ns, gone)
  }

  function LinkDelete(k: Kernel, sk: Ns, name: string): Outcome {
    var q := Key(sk, name);
    if q !in k.links then Outcome(k, false)
    else
      var gone := Gone(k.links, q);
      Outcome(k.(links := Remaining(k.links, gone), routes := DropRoutes(k.routes, gone)), true)
  }

  /** Every master is an interface of the same namespace. */
  ghost predicate MastersExist(k: Kernel) {
    forall q :: q in k.links && k.links[q].master.Some? ==> Key(q.ns, k.links[q].master.value) in k.links
  }

  /** Peers point at each other, masters exist, and routes leave through interfaces that exist. */
  ghost predicate Sound(k: Kernel) {
    && MastersExist(k)
    && (forall q :: q in k.links && k.links[q].peer.Some? ==>
         var p := k.links[q].peer.value; p != q && p in k.links && k.links[p].peer == Some(q))
    && (forall ns :: ns in k.routes ==> Key(ns, k.routes[ns].dev) in k.links)
  }
}
