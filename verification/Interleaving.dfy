/** Invocations of the allocator running side by side on one file, without a lock: every process
    checks that the file exists, reads it, truncates it and writes it, in separate steps, and each
    step can fail. */
module Interleaving {
  import opened Words
  import opened Text
  import opened Cidrs
  import opened Io
  import opened Ip
  import opened IpRuns

  datatype Process =
    | Idle
    | Checked(present: bool)
    | Ready(cidr: Cidr)
    | Opened(cidr: Cidr)
    | Done(cidr: Cidr)
    | Failed

  datatype State = State(file: Option<string>, procs: seq<Process>)

  /** How a step goes wrong; a fault that does not fit the step has no effect. */
  datatype Fault = Smooth | CheckRefused | ReadFails | OpenFails | TearsAfter(kept: nat)

  datatype Move = Move(proc: nat, fault: Fault)

  function Start(k: nat): State { State(None, seq(k, _ => Idle)) }

  /** A write from offset 0 over whatever the file holds by then. */
  function Overlay(text: string, current: string): string {
    text + current[Min(|text|, |current|)..]
  }

  function Current(s: State): string {
    if s.file.Some? then s.file.value else ""
  }

  /** What a process in state Checked computes from the file as it is now. */
  function ReadAndCompute(cfg: Config, file: Option<string>, present: bool, fails: bool): Process {
    match LastAcquired(file, cfg.subnet, Env(!present, fails, Complete))
    case Err(_) => Failed
    case Ok(last) =>
      match NextCidr(last, cfg.clusterCidr)
      case Err(_) => Failed
      case Ok(c) => Ready(c)
  }

  /** One step of one process. */
  function Next(cfg: Config, s: State, m: Move): (t: State)
    requires m.proc < |s.procs|
    ensures |t.procs| == |s.procs|
  {
    match s.procs[m.proc]
    case Idle => s.(procs := s.procs[m.proc := Checked(s.file.Some? && !m.fault.CheckRefused?)])
    case Checked(present) =>
      s.(procs := s.procs[m.proc := ReadAndCompute(cfg, s.file, present, m.fault.ReadFails?)])
    case Ready(c) =>
      if m.fault.OpenFails? then s.(procs := s.procs[m.proc := Failed])
      else State(Some(""), s.procs[m.proc := Opened(c)])
    case Opened(c) =>
      if m.fault.TearsAfter?
      then State(Some(Overlay(Print(c)[..Min(m.fault.kept, |Print(c)|)], Current(s))), s.procs[m.proc := Failed])
      else State(Some(Overlay(Print(c), Current(s))), s.procs[m.proc := Done(c)])
    case Done(_) => s
    case Failed => s
  }

  /** The faults of one acquisition, step by step. */
  function Steps(i: nat, env: Env): seq<Move> {
    [Move(i, if env.existsRefused then CheckRefused else Smooth),
     Move(i, if env.readFailed then ReadFails else Smooth),
     Move(i, if env.write.OpenRefused? then OpenFails else Smooth),
     Move(i, if env.write.Torn? then TearsAfter(env.write.kept) else Smooth)]
  }

  lemma OverlayOfNothing(text: string)
    ensures Overlay(text, "") == text
    ensures forall k :: 0 <= k <= |text| ==> Overlay(text[..k], "") == text[..k]
  {
  }

  predicate Schedule(k: nat, sched: seq<Move>) { forall n :: 0 <= n < |sched| ==> sched[n].proc < k }

  function Run(cfg: Config, k: nat, sched: seq<Move>): (s: State)
    requires Schedule(k, sched)
    ensures |s.procs| == k
  {
    if sched == [] then Start(k)
    else Next(cfg, Run(cfg, k, sched[..|sched| - 1]), sched[|sched| - 1])
  }

  // ---------------------------------------------------------------- any interleaving

  /** The process got past computing its address. */
  function Holds(p: Process): nat {
    if p.Idle? || p.Checked? then 0 else 1
  }

  predicate Holding(p: Process) { p.Ready? || p.Opened? || p.Done? }

  function Holders(procs: seq<Process>): (n: nat)
    ensures n <= |procs|
  {
    if procs == [] then 0 else Holders(procs[..|procs| - 1]) + Holds(procs[|procs| - 1])
  }

  lemma {:induction false} HoldersUpdate(procs: seq<Process>, i: nat, p: Process)
    requires i < |procs|
    ensures Holders(procs[i := p]) == Holders(procs) - Holds(procs[i]) + Holds(p)
    decreases |procs|
  {
    var k := |procs| - 1;
    if i < k {
      assert procs[i := p][..k] == procs[..k][i := p];
      HoldersUpdate(procs[..k], i, p);
    } else {
      assert procs[i := p][..k] == procs[..k];
    }
  }

  predicate CidrText(t: string) {
    |t| <= 27 && forall i :: 0 <= i < |t| ==> IsDigit(t[i]) || t[i] in {'.', '/', '-'}
  }

  /** `a` is one of the first `m` addresses after the bridge's. */
  predicate AmongFirst(base: word, a: word, m: nat) { base + 2 <= a <= base + 1 + m }

  /** The text is refused, or parses to one of the first `m` addresses. */
  predicate GoodText(base: word, t: string, m: nat) {
    CidrText(t) && (Parse(t).Ok? ==> AmongFirst(base, Parse(t).value.addr, m))
  }

  ghost predicate Bounded(base: word, s: State) {
    var m := Holders(s.procs);
    && (s.file.Some? ==> GoodText(base, s.file.value, m))
    && (forall i :: 0 <= i < |s.procs| && Holding(s.procs[i]) ==> AmongFirst(base, s.procs[i].cidr.addr, m))
  }

  /** A write that stops does no harm when it stops before the first byte, after the slash, or over an
      empty file. */
  predicate SafeMove(s: State, m: Move)
    requires m.proc < |s.procs|
  {
    s.procs[m.proc].Opened? && m.fault.TearsAfter? ==>
      m.fault.kept == 0 || m.fault.kept > |Ntop(s.procs[m.proc].cidr.addr)| || Current(s) == ""
  }

  ghost predicate SafeTears(cfg: Config, k: nat, sched: seq<Move>)
    requires Schedule(k, sched)
  {
    forall n :: 0 <= n < |sched| ==> SafeMove(Run(cfg, k, sched[..n]), sched[n])
  }

  lemma StoredTextOfCidrText(t: string)
    requires CidrText(t)
    ensures StoredText(t) == t
  {
    TrimDropsBlanks(t, "");
    assert t + "" == t;
    IndexOfAbsent(t, '\0');
  }

  lemma PrintIsCidrText(c: Cidr)
    ensures CidrText(Print(c))
  {
    hide Ntop;
    RoundTrip(c);
    NtopShape(c.addr);
    var n, d := Ntop(c.addr), DecimalInt(c.prefix);
    forall i | 0 <= i < |Print(c)| ensures IsDigit(Print(c)[i]) || Print(c)[i] in {'.', '/', '-'} {
      if i < |n| { assert AddressChar(n[i]); }
    }
  }

  lemma OverlayIsCidrText(t: string, current: string)
    requires CidrText(t) && CidrText(current)
    ensures CidrText(Overlay(t, current))
  {
  }

  /** Whatever text was left behind, a write that got past the slash decides the address. */
  lemma OverlayKeepsAddress(base: word, c: Cidr, kept: nat, t: string, m: nat)
    requires CidrText(t) && AmongFirst(base, c.addr, m) && |Ntop(c.addr)| < kept <= |Print(c)|
    ensures GoodText(base, Overlay(Print(c)[..kept], t), m)
  {
    hide Ntop;
    var n, o := Ntop(c.addr), Overlay(Print(c)[..kept], t);
    PrintIsCidrText(c);
    OverlayIsCidrText(Print(c)[..kept], t);
    assert n + "/" == Print(c)[..|n| + 1] == o[..|n| + 1];
    ParseExactly(o, Cidr(c.addr, Atoi(o[|n| + 1..])));
  }

  lemma TornWriteStaysGood(base: word, c: Cidr, kept: nat, t: string, m: nat)
    requires GoodText(base, t, m) && AmongFirst(base, c.addr, m)
    requires kept == 0 || kept > |Ntop(c.addr)| || t == ""
    ensures GoodText(base, Overlay(Print(c)[..Min(kept, |Print(c)|)], t), m)
  {
    hide Parse, Ntop, AmongFirst;
    var k := Min(kept, |Print(c)|);
    PrintIsCidrText(c);
    if kept == 0 {
      assert Overlay(Print(c)[..0], t) == t;
    } else if k > |Ntop(c.addr)| {
      OverlayKeepsAddress(base, c, k, t, m);
    } else {
      TornText(c, k);
      OverlayOfNothing(Print(c));
    }
  }

  lemma IncrementWithin(base: word, a: word, m: nat)
    requires base + 1 <= a <= base + 1 + m && base + 1 + m + 1 < TWO_32
    ensures AmongFirst(base, Increment(a), m + 1)
  {
  }

  lemma EmptyDoesNotParse()
    ensures Parse("").Err?
  {
  }

  lemma BridgeUnwrapped(base: word)
    requires base + 1 < TWO_32
    ensures Nth(base, 0) == base + 1
  {
  }

  lemma ComputeStaysBounded(cfg: Config, file: Option<string>, present: bool, fails: bool, m: nat)
    requires Base(cfg) + 1 + m + 1 < TWO_32
    requires file.Some? ==> GoodText(Base(cfg), file.value, m)
    ensures var p := ReadAndCompute(cfg, file, present, fails);
      p == Failed || (p.Ready? && AmongFirst(Base(cfg), p.cidr.addr, m + 1))
  {
    hide Parse, StoredText, Increment, Nth;
    var f := if present then file else None;
    var l := LastAcquired(f, cfg.subnet, NO_FAULT.(readFailed := fails));
    if file.Some? { StoredTextOfCidrText(file.value); }
    assert LastAcquired(file, cfg.subnet, Env(!present, fails, Complete)) == l;
    if l.Ok? && Parse(l.value).Ok? {
      if f.None? {
        LastAcquiredByCounter(None, cfg, NO_FAULT);
        AbsOfMissing();
        BridgeUnwrapped(Base(cfg));
      }
      IncrementWithin(Base(cfg), Parse(l.value).value.addr, m);
    }
  }

  lemma MoreAddresses(base: word, m: nat, n: nat)
    requires m <= n
    ensures forall a: word :: AmongFirst(base, a, m) ==> AmongFirst(base, a, n)
    ensures forall t :: GoodText(base, t, m) ==> GoodText(base, t, n)
  {
  }

  lemma NextStaysBounded(cfg: Config, s: State, m: Move)
    requires m.proc < |s.procs| && Base(cfg) + 1 + |s.procs| < TWO_32
    requires Bounded(Base(cfg), s) && SafeMove(s, m)
    ensures Bounded(Base(cfg), Next(cfg, s, m))
  {
    hide Parse, GoodText, AmongFirst, Print, ReadAndCompute, Base, Ntop;
    var base, h, i := Base(cfg), Holders(s.procs), m.proc;
    var s' := Next(cfg, s, m);
    HoldersUpdate(s.procs, i, s'.procs[i]);
    EmptyIsGood(base, h);
    match s.procs[i]
    case Checked(present) =>
      HoldersUpdate(s.procs, i, Failed);
      assert h + 1 <= |s.procs|;
      ComputeStaysBounded(cfg, s.file, present, m.fault.ReadFails?, h);
      MoreAddresses(base, h, h + 1);
    case Opened(c) =>
      if m.fault.TearsAfter? {
        TornWriteStaysGood(base, c, m.fault.kept, Current(s), h);
      } else {
        TornWriteStaysGood(base, c, |Ntop(c.addr)| + |Print(c)| + 1, Current(s), h);
        assert Print(c)[..|Print(c)|] == Print(c);
      }
    case _ =>
  }

  lemma EmptyIsGood(base: word, m: nat)
    ensures GoodText(base, "", m)
  {
  }

  /** In any interleaving of `k` invocations, with any faults but a write that stops before its slash over
      text that is already there, and no wrap-around, every address handed out is one of the `k` after
      the bridge's. */
  lemma {:induction false} AnyInterleavingIsBounded(cfg: Config, k: nat, sched: seq<Move>)
    requires Schedule(k, sched) && Base(cfg) + 1 + k < TWO_32 && SafeTears(cfg, k, sched)
    ensures Bounded(Base(cfg), Run(cfg, k, sched))
    ensures forall i :: 0 <= i < k && Run(cfg, k, sched).procs[i].Done? ==>
      Base(cfg) + 2 <= Run(cfg, k, sched).procs[i].cidr.addr <= Base(cfg) + 1 + k
    decreases |sched|
  {
    hide Next, Base, GoodText, SafeMove;
    if sched == [] {
      assert forall i :: 0 <= i < k ==> Start(k).procs[i] == Idle;
      NobodyHolds(Start(k).procs);
    } else {
      var init := sched[..|sched| - 1];
      assert forall n :: 0 <= n < |init| ==> init[..n] == sched[..n];
      AnyInterleavingIsBounded(cfg, k, init);
      NextStaysBounded(cfg, Run(cfg, k, init), sched[|sched| - 1]);
    }
  }

  lemma NobodyHolds(procs: seq<Process>)
    requires forall i :: 0 <= i < |procs| ==> procs[i] == Idle
    ensures Holders(procs) == 0
  {
  }

  // ---------------------------------------------------------------- traces

  /** A run continued by more moves. */
  function Play(cfg: Config, s: State, moves: seq<Move>): (t: State)
    requires Schedule(|s.procs|, moves)
    ensures |t.procs| == |s.procs|
    decreases |moves|
  {
    if moves == [] then s else Play(cfg, Next(cfg, s, moves[0]), moves[1..])
  }

  lemma {:induction false} RunThenPlay(cfg: Config, k: nat, sched: seq<Move>, moves: seq<Move>)
    requires Schedule(k, sched) && Schedule(k, moves)
    ensures Run(cfg, k, sched + moves) == Play(cfg, Run(cfg, k, sched), moves)
    decreases |moves|
  {
    hide Next;
    if moves == [] {
      assert sched + moves == sched;
    } else {
      var more := sched + [moves[0]];
      assert more[..|sched|] == sched;
      assert sched + moves == more + moves[1..];
      RunThenPlay(cfg, k, more, moves[1..]);
    }
  }

  lemma PlayFour(cfg: Config, s: State, a: Move, b: Move, c: Move, d: Move)
    requires a.proc < |s.procs| && b.proc < |s.procs| && c.proc < |s.procs| && d.proc < |s.procs|
    ensures Schedule(|s.procs|, [a, b, c, d])
    ensures Play(cfg, s, [a, b, c, d]) == Next(cfg, Next(cfg, Next(cfg, Next(cfg, s, a), b), c), d)
  {
    hide Next;
    var s1 := Next(cfg, s, a);
    var s2 := Next(cfg, s1, b);
    var s3 := Next(cfg, s2, c);
    assert [a, b, c, d][1..] == [b, c, d] && [b, c, d][1..] == [c, d] && [c, d][1..] == [d] && [d][1..] == [];
    assert Play(cfg, s3, [d]) == Next(cfg, s3, d);
    assert Play(cfg, s2, [c, d]) == Play(cfg, s3, [d]);
    assert Play(cfg, s1, [b, c, d]) == Play(cfg, s2, [c, d]);
  }

  /** A process that runs through without interruption does one acquisition, whatever goes wrong. */
  lemma UninterruptedIsAcquire(cfg: Config, s: State, i: nat, env: Env)
    requires i < |s.procs| && s.procs[i].Idle?
    ensures Schedule(|s.procs|, Steps(i, env))
    ensures var t, a := Play(cfg, s, Steps(i, env)), Acquire(s.file, cfg, env);
      && t.file == a.file
      && match t.procs[i]
         case Done(c) => a.result == Ok(Print(c))
         case Failed => a.result.Err?
         case _ => false
  {
    hide NextCidr, Print, StoredText, FirstAllocable, Play;
    var m := Steps(i, env);
    PlayFour(cfg, s, m[0], m[1], m[2], m[3]);
    assert m == [m[0], m[1], m[2], m[3]];
    var present := s.file.Some? && !env.existsRefused;
    var l := LastAcquired(s.file, cfg.subnet, env);
    assert LastAcquired(s.file, cfg.subnet, Env(!present, env.readFailed, Complete)) == l;
    if l.Ok? && NextCidr(l.value, cfg.clusterCidr).Ok? {
      OverlayOfNothing(Print(NextCidr(l.value, cfg.clusterCidr).value));
    }
  }

  /** What a process computes when the file shows the `d`-th address. */
  lemma ComputeInTurn(cfg: Config, file: Option<string>, d: nat)
    requires Parse(cfg.subnet).Ok? && Parse(cfg.clusterCidr).Ok?
    requires file == if d == 0 then None else Some(Print(PodCidr(cfg, Nth(Base(cfg), d))))
    ensures ReadAndCompute(cfg, file, d > 0, false) == Ready(PodCidr(cfg, Nth(Base(cfg), d + 1)))
  {
    hide Parse, StoredText, Increment, Nth, Print, Abs;
    var l := LastAcquired(file, cfg.subnet, NO_FAULT);
    assert LastAcquired(file, cfg.subnet, Env(!(d > 0), false, Complete)) == l;
    if d == 0 {
      AbsOfMissing();
    } else {
      AbsOfPrinted(PodCidr(cfg, Nth(Base(cfg), d)));
    }
    LastAcquiredByCounter(file, cfg, NO_FAULT);
    NthStep(Base(cfg), d);
  }

  function Go(i: nat): Move { Move(i, Smooth) }

  /** Processes 0 and 1 check and read in turns. */
  function BothRead(): seq<Move> { [Go(0), Go(1), Go(0), Go(1)] }

  lemma BothCompute(cfg: Config, k: nat, c: Cidr)
    requires Parse(cfg.subnet).Ok? && Parse(cfg.clusterCidr).Ok? && k >= 2
    requires c == PodCidr(cfg, Nth(Base(cfg), 1))
    ensures Schedule(k, BothRead())
    ensures Play(cfg, Start(k), BothRead()) == State(None, Start(k).procs[0 := Ready(c)][1 := Ready(c)])
  {
    hide Parse, Nth, Base, ReadAndCompute, PodCidr, Play;
    PlayFour(cfg, Start(k), Go(0), Go(1), Go(0), Go(1));
    ComputeInTurn(cfg, None, 0);
  }

  /** Two invocations that both check before either writes take the same address. */
  lemma OverlapHandsOutTwice(cfg: Config)
    requires Parse(cfg.subnet).Ok? && Parse(cfg.clusterCidr).Ok?
    ensures var sched := BothRead() + [Go(0), Go(0), Go(1), Go(1)];
      var c := PodCidr(cfg, Nth(Base(cfg), 1));
      Schedule(2, sched) && Run(cfg, 2, sched).procs == [Done(c), Done(c)]
  {
    hide Parse, Nth, Base, PodCidr, Play, Run, Print, Overlay;
    var c := PodCidr(cfg, Nth(Base(cfg), 1));
    var rest := [Go(0), Go(0), Go(1), Go(1)];
    BothCompute(cfg, 2, c);
    StartRun(cfg, 2);
    RunThenPlay(cfg, 2, [], BothRead());
    assert [] + BothRead() == BothRead();
    RunThenPlay(cfg, 2, BothRead(), rest);
    assert Start(2).procs[0 := Ready(c)][1 := Ready(c)] == [Ready(c), Ready(c)];
    PlayFour(cfg, State(None, [Ready(c), Ready(c)]), Go(0), Go(0), Go(1), Go(1));
  }

  /** When a write of `x.9` stops after the address while the file holds `x.10`, the text left behind
      names `x.90`. */
  lemma PartialOverlay(a: nat, b: nat, c: nat, p: int32)
    requires a < 256 && b < 256 && c < 256
    ensures var nine, ten, ninety := Cidr(Join(9, c, b, a), p), Cidr(Join(10, c, b, a), p), Cidr(Join(90, c, b, a), p);
      Overlay(Print(nine)[..|Ntop(nine.addr)|], Print(ten)) == Print(ninety)
  {
    hide Dotted, Join, Octet, DecimalInt, Parse;
    OctetsOfJoin(9, c, b, a);
    OctetsOfJoin(10, c, b, a);
    OctetsOfJoin(90, c, b, a);
    var d := Dotted([a, b, c]);
    assert Decimal(1) == "1" && Decimal(9) == "9";
    assert Decimal(10) == "1" + "0" && Decimal(90) == "9" + "0";
    assert Print(Cidr(Join(9, c, b, a), p))[..|d| + 1] == d + "9";
    assert Print(Cidr(Join(10, c, b, a), p))[|d| + 1..] == "0" + "/" + DecimalInt(p);
  }

  /** The trace below: 0 and 1 both compute x.9; 0 finishes, 2 reads x.9 and computes x.10; 2 and 1 both
      truncate, 2 writes x.10 and 1 stops writing after its address; 3 runs through. */
  function TornTrace(kept: nat): seq<Move> {
    BothRead() + [Go(0), Go(0), Go(2), Go(2)] + [Go(2), Go(1), Go(2), Move(1, TearsAfter(kept))] + Steps(3, NO_FAULT)
  }

  /** Contents must be replaced in one piece: with one torn write, four invocations on the subnet x.7
      hand out x.91, far beyond the four addresses that any interleaving of whole writes can reach. */
  lemma TornOverlapLeavesTheBound(cfg: Config, a: nat, b: nat, c: nat)
    requires Parse(cfg.subnet).Ok? && Parse(cfg.clusterCidr).Ok?
    requires a < 256 && b < 256 && c < 256 && Base(cfg) == Join(7, c, b, a)
    ensures var nine := PodCidr(cfg, Join(9, c, b, a));
      var sched := TornTrace(|Ntop(nine.addr)|);
      && Schedule(4, sched)
      && Run(cfg, 4, sched).procs
         == [Done(nine), Failed, Done(PodCidr(cfg, Join(10, c, b, a))), Done(PodCidr(cfg, Join(91, c, b, a)))]
      && Join(91, c, b, a) > Base(cfg) + 1 + 4
  {
    hide Parse, Play, Run, Print, Overlay, Ntop, ReadAndCompute, Start, Base, Nth;
    var nine, ten := PodCidr(cfg, Join(9, c, b, a)), PodCidr(cfg, Join(10, c, b, a));
    var ninety := PodCidr(cfg, Join(90, c, b, a));
    var p1, p2 := BothRead(), [Go(0), Go(0), Go(2), Go(2)];
    var p3, p4 := [Go(2), Go(1), Go(2), Move(1, TearsAfter(|Ntop(nine.addr)|))], Steps(3, NO_FAULT);
    NumbersFromSeven(cfg, a, b, c);
    StartRun(cfg, 4);
    RunThenPlay(cfg, 4, [], p1);
    assert [] + p1 == p1;
    RunThenPlay(cfg, 4, p1, p2);
    RunThenPlay(cfg, 4, p1 + p2, p3);
    RunThenPlay(cfg, 4, p1 + p2 + p3, p4);
    BothCompute(cfg, 4, nine);
    StartOfFour(nine);
    SecondPhase(cfg, nine, ten);
    PartialOverlay(a, b, c, nine.prefix);
    AddressComesFirst(nine);
    ThirdPhase(cfg, nine, ten, ninety);
    LastPhase(cfg, State(Some(Print(ninety)), [Done(nine), Failed, Done(ten), Idle]), ninety);
  }

  lemma AddressComesFirst(c: Cidr)
    ensures |Ntop(c.addr)| <= |Print(c)|
  {
  }

  lemma NumbersFromSeven(cfg: Config, a: nat, b: nat, c: nat)
    requires a < 256 && b < 256 && c < 256 && Base(cfg) == Join(7, c, b, a)
    ensures Nth(Base(cfg), 1) == Join(9, c, b, a) && Nth(Base(cfg), 2) == Join(10, c, b, a)
    ensures Increment(Join(90, c, b, a)) == Join(91, c, b, a)
    ensures Join(91, c, b, a) > Base(cfg) + 5
  {
    hide Base;
  }

  lemma StartOfFour(nine: Cidr)
    ensures Start(4).procs[0 := Ready(nine)][1 := Ready(nine)] == [Ready(nine), Ready(nine), Idle, Idle]
  {
  }

  lemma SecondPhase(cfg: Config, nine: Cidr, ten: Cidr)
    requires Parse(cfg.subnet).Ok? && Parse(cfg.clusterCidr).Ok?
    requires nine == PodCidr(cfg, Nth(Base(cfg), 1)) && ten == PodCidr(cfg, Nth(Base(cfg), 2))
    ensures Play(cfg, State(None, [Ready(nine), Ready(nine), Idle, Idle]), [Go(0), Go(0), Go(2), Go(2)])
         == State(Some(Print(nine)), [Done(nine), Ready(nine), Ready(ten), Idle])
  {
    hide Parse, Play, Print, Overlay, Base, Nth, ReadAndCompute, PodCidr;
    PlayFour(cfg, State(None, [Ready(nine), Ready(nine), Idle, Idle]), Go(0), Go(0), Go(2), Go(2));
    OverlayOfNothing(Print(nine));
    ComputeInTurn(cfg, Some(Print(nine)), 1);
  }

  lemma ThirdPhase(cfg: Config, nine: Cidr, ten: Cidr, ninety: Cidr)
    requires |Ntop(nine.addr)| <= |Print(nine)|
    requires Overlay(Print(nine)[..|Ntop(nine.addr)|], Print(ten)) == Print(ninety)
    ensures Play(cfg, State(Some(Print(nine)), [Done(nine), Ready(nine), Ready(ten), Idle]),
                 [Go(2), Go(1), Go(2), Move(1, TearsAfter(|Ntop(nine.addr)|))])
         == State(Some(Print(ninety)), [Done(nine), Failed, Done(ten), Idle])
  {
    hide Play, Print, Overlay, Ntop;
    PlayFour(cfg, State(Some(Print(nine)), [Done(nine), Ready(nine), Ready(ten), Idle]),
             Go(2), Go(1), Go(2), Move(1, TearsAfter(|Ntop(nine.addr)|)));
    OverlayOfNothing(Print(ten));
  }

  lemma LastPhase(cfg: Config, s: State, c: Cidr)
    requires Parse(cfg.clusterCidr).Ok? && s.file == Some(Print(c)) && |s.procs| == 4 && s.procs[3] == Idle
    ensures Schedule(4, Steps(3, NO_FAULT))
    ensures Play(cfg, s, Steps(3, NO_FAULT)).procs == s.procs[3 := Done(PodCidr(cfg, Increment(c.addr)))]
  {
    hide Parse, Play, Print, Increment, Base, Overlay;
    AbsOfPrinted(c);
    ReadsShown(cfg, c);
    PlayFour(cfg, s, Go(3), Go(3), Go(3), Go(3));
    assert Steps(3, NO_FAULT) == [Go(3), Go(3), Go(3), Go(3)];
  }

  lemma ReadsShown(cfg: Config, c: Cidr)
    requires Parse(cfg.clusterCidr).Ok?
    ensures ReadAndCompute(cfg, Some(Print(c)), true, false) == Ready(PodCidr(cfg, Increment(c.addr)))
  {
    hide Parse, Print, Increment, StoredText;
    RoundTrip(c);
    StoredTextOfPrinted(c, "");
    assert Print(c) + "" == Print(c);
  }

  lemma StartRun(cfg: Config, k: nat)
    ensures Run(cfg, k, []) == Start(k)
  {
  }
}
