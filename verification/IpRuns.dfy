/** The allocator over whole runs: the file refines a counter that only ever moves forward. */
module IpRuns {
  import opened Words
  import opened Text
  import opened Cidrs
  import opened Io
  import opened Ip

  /** What a file means to the next acquisition: nothing handed out yet, `last` handed out, or a file
      no acquisition can get past. */
  datatype Counter = Fresh | At(last: word) | Stuck

  function Abs(file: Option<string>): Counter {
    match file
    case None => Fresh
    case Some(t) =>
      if |t| >= CIDR_BUFFER_LEN - 1 then Stuck
      else
        match Parse(StoredText(t))
        case Err(_) => Stuck
        case Ok(c) => At(c.addr)
  }

  /** The subnet's own address. */
  function Base(cfg: Config): word {
    match Parse(cfg.subnet)
    case Err(_) => 0
    case Ok(c) => c.addr
  }

  /** The `n`-th address after the bridge's, as the code computes it: modulo 2^32. */
  function Nth(base: word, n: nat): word { (base + 1 + n) % TWO_32 }

  /** The address an acquisition in counter state `c` would hand out. */
  function Upcoming(c: Counter, base: word): word {
    match c
    case At(w) => Increment(w)
    case _ => Nth(base, 1)
  }

  /** An address as the code prints it for pods and for the bridge. */
  function PodCidr(cfg: Config, address: word): Cidr
    requires Parse(cfg.clusterCidr).Ok?
  {
    Cidr(address, Parse(cfg.clusterCidr).value.prefix)
  }

  // ---------------------------------------------------------------- one step

  lemma AbsOfMissing()
    ensures Abs(None) == Fresh
  {
  }

  lemma AbsOfPrinted(c: Cidr)
    ensures Abs(Some(Print(c))) == At(c.addr)
  {
    StoredTextOfPrinted(c, "");
    assert Print(c) + "" == Print(c);
    RoundTrip(c);
  }

  /** A file torn while an address was being written holds that address or is stuck. */
  lemma AbsOfTorn(c: Cidr, k: nat)
    requires k <= |Print(c)|
    ensures Abs(Some(Print(c)[..k])) == if k <= |Ntop(c.addr)| then Stuck else At(c.addr)
  {
    var t := Print(c)[..k];
    RoundTrip(c);
    TornText(c, k);
    if k > 0 { NotBlankAt(c, k); }
    TrimDropsBlanks(t, "");
    assert t + "" == t;
    IndexOfAbsent(t, '\0');
  }

  lemma NotBlankAt(c: Cidr, k: nat)
    requires 0 < k <= |Print(c)|
    ensures !IsBlank(Print(c)[k - 1])
  {
    NtopShape(c.addr);
    var n, d := Ntop(c.addr), DecimalInt(c.prefix);
    if k <= |n| {
      assert Print(c)[k - 1] == n[k - 1];
      assert AddressChar(n[k - 1]);
    } else if k > |n| + 1 {
      assert Print(c)[k - 1] == d[k - |n| - 2];
    }
  }

  /** What every acquisition finds to continue from, by counter state. */
  lemma LastAcquiredByCounter(file: Option<string>, cfg: Config, env: Env)
    requires file.Some? ==> !env.existsRefused
    ensures var l := LastAcquired(file, cfg.subnet, env);
      match Abs(file)
      case Stuck => l.Ok? ==> Parse(l.value).Err?
      case Fresh => if Parse(cfg.subnet).Ok?
        then l.Ok? && Parse(l.value).Ok? && Parse(l.value).value.addr == Nth(Base(cfg), 0)
        else l.Err?
      case At(w) => if env.readFailed then l.Err?
        else l.Ok? && Parse(l.value).Ok? && Parse(l.value).value.addr == w
  {
    hide Parse, StoredText, Print;
    if file.None? && Parse(cfg.subnet).Ok? {
      var s := Parse(cfg.subnet).value;
      RoundTrip(Cidr(Increment(s.addr), s.prefix));
    }
  }

  lemma AbsAfterWrite(file: Option<string>, c: Cidr, w: WriteOutcome)
    ensures var after := Abs(AfterWrite(file, Print(c), w));
      match w
      case Complete => after == At(c.addr)
      case OpenRefused => after == Abs(file)
      case Torn(k) => after == if k <= |Ntop(c.addr)| then Stuck else At(c.addr)
  {
    AbsOfPrinted(c);
    if w.Torn? { AbsOfTorn(c, Min(w.kept, |Print(c)|)); }
  }

  /** Exactly when an acquisition succeeds, and what it hands out. */
  lemma AcquireSucceedsExactlyWhen(file: Option<string>, cfg: Config, env: Env)
    requires file.Some? ==> !env.existsRefused
    ensures Acquire(file, cfg, env).result.Ok? <==> GetsToWrite(file, cfg, env) && env.write.Complete?
    ensures Acquire(file, cfg, env).result.Ok? ==>
      Acquire(file, cfg, env).result == Ok(Print(PodCidr(cfg, Upcoming(Abs(file), Base(cfg)))))
  {
    LastAcquiredByCounter(file, cfg, env);
    var l := LastAcquired(file, cfg.subnet, env);
    if l.Ok? && Parse(l.value).Ok? { UpcomingIsIncrement(file, cfg, env); }
  }

  lemma UpcomingIsIncrement(file: Option<string>, cfg: Config, env: Env)
    requires file.Some? ==> !env.existsRefused
    requires LastAcquired(file, cfg.subnet, env).Ok?
    requires Parse(LastAcquired(file, cfg.subnet, env).value).Ok?
    ensures Increment(Parse(LastAcquired(file, cfg.subnet, env).value).value.addr)
         == Upcoming(Abs(file), Base(cfg))
  {
    LastAcquiredByCounter(file, cfg, env);
    NthStep(Base(cfg), 0);
  }

  lemma NthStep(base: word, n: nat)
    ensures Increment(Nth(base, n)) == Nth(base, n + 1)
  {
  }

  /** One acquisition is one step of the counter: it stays, moves to the upcoming address, or gets
      stuck; a stuck file is never touched again; an address is returned only with the move. */
  lemma AcquireStepsTheCounter(file: Option<string>, cfg: Config, env: Env)
    requires file.Some? ==> !env.existsRefused
    ensures var a, next := Acquire(file, cfg, env), Upcoming(Abs(file), Base(cfg));
      && Abs(a.file) in {Abs(file), At(next), Stuck}
      && (Abs(file).Stuck? ==> a.file == file)
      && (a.result.Ok? ==> Abs(a.file) == At(next))
  {
    hide Parse, StoredText, Print, Abs, LastAcquired, Increment, AfterWrite;
    LastAcquiredByCounter(file, cfg, env);
    var l := LastAcquired(file, cfg.subnet, env);
    var next := Upcoming(Abs(file), Base(cfg));
    if l.Ok? && NextCidr(l.value, cfg.clusterCidr).Ok? {
      UpcomingIsIncrement(file, cfg, env);
      AbsAfterWrite(file, NextCidr(l.value, cfg.clusterCidr).value, env.write);
    }
  }

  /** The acquisition gets as far as writing an address. */
  predicate GetsToWrite(file: Option<string>, cfg: Config, env: Env) {
    && Parse(cfg.clusterCidr).Ok?
    && match Abs(file)
       case Stuck => false
       case Fresh => Parse(cfg.subnet).Ok?
       case At(_) => !env.readFailed
  }

  /** What an acquisition leaves in the file, byte for byte, and that it answers with what it wrote. */
  lemma AcquireLeaves(file: Option<string>, cfg: Config, env: Env)
    requires file.Some? ==> !env.existsRefused
    ensures var a := Acquire(file, cfg, env);
      && (a.result.Ok? ==> a.file == Some(a.result.value))
      && if !GetsToWrite(file, cfg, env) then a.file == file
         else
           var text := Print(PodCidr(cfg, Upcoming(Abs(file), Base(cfg))));
           match env.write
           case OpenRefused => a.file == file
           case Torn(kept) => a.file == Some(text[..Min(kept, |text|)])
           case Complete => a.file == Some(text)
  {
    hide Parse, StoredText, Print, Abs, LastAcquired, Increment;
    LastAcquiredByCounter(file, cfg, env);
    var l := LastAcquired(file, cfg.subnet, env);
    if l.Ok? && Parse(l.value).Ok? { UpcomingIsIncrement(file, cfg, env); }
  }

  // ---------------------------------------------------------------- whole runs from a missing file

  /** The file after acquisitions that met `envs` one after the other. */
  function FileAfter(cfg: Config, envs: seq<Env>): Option<string> {
    if envs == [] then None
    else Acquire(FileAfter(cfg, envs[..|envs| - 1]), cfg, envs[|envs| - 1]).file
  }

  /** What the `i`-th acquisition of the run returned. */
  function Answer(cfg: Config, envs: seq<Env>, i: nat): Result<string>
    requires i < |envs|
  {
    Acquire(FileAfter(cfg, envs[..i]), cfg, envs[i]).result
  }

  /** Whether the counter moved to a new address. */
  function Moves(before: Option<string>, after: Option<string>): nat {
    if Abs(after).At? && Abs(after) != Abs(before) then 1 else 0
  }

  /** How many acquisitions moved the counter to a new address, whether or not they returned it. */
  function Advances(cfg: Config, envs: seq<Env>): (n: nat)
    ensures n <= |envs|
  {
    if envs == [] then 0
    else
      var init := envs[..|envs| - 1];
      Advances(cfg, init) + Moves(FileAfter(cfg, init), FileAfter(cfg, envs))
  }

  /** No existing file ever looked absent. */
  predicate NeverRefused(envs: seq<Env>) {
    forall i :: 0 <= i < |envs| ==> !envs[i].existsRefused
  }

  /** The file shows the `n`-th address, unless it is stuck. */
  predicate CounterShows(cfg: Config, file: Option<string>, n: nat) {
    match Abs(file)
    case Fresh => n == 0
    case At(w) => n > 0 && w == Nth(Base(cfg), n)
    case Stuck => true
  }

  /** The concrete file always shows the address that the number of advances says, unless it is
      stuck. */
  lemma {:induction false} RunRefinesCounter(cfg: Config, envs: seq<Env>)
    requires NeverRefused(envs)
    ensures CounterShows(cfg, FileAfter(cfg, envs), Advances(cfg, envs))
    decreases |envs|
  {
    hide Acquire, Abs, Parse, Increment, Nth;
    AbsOfMissing();
    if envs != [] {
      var init, last := envs[..|envs| - 1], envs[|envs| - 1];
      RunRefinesCounter(cfg, init);
      AcquireStepsTheCounter(FileAfter(cfg, init), cfg, last);
      NthStep(Base(cfg), Advances(cfg, init));
    }
  }

  lemma {:induction false} AdvancesGrow(cfg: Config, envs: seq<Env>, i: nat)
    requires i <= |envs|
    ensures Advances(cfg, envs[..i]) <= Advances(cfg, envs)
    decreases |envs|
  {
    if i < |envs| {
      assert envs[..|envs| - 1][..i] == envs[..i];
      AdvancesGrow(cfg, envs[..|envs| - 1], i);
    } else {
      assert envs[..i] == envs;
    }
  }

  /** A returned address is the one numbered by the advances so far, its own included. */
  lemma AnswerIsNumbered(cfg: Config, envs: seq<Env>, i: nat)
    requires NeverRefused(envs) && i < |envs| && Answer(cfg, envs, i).Ok?
    ensures Parse(cfg.clusterCidr).Ok?
    ensures Advances(cfg, envs[..i + 1]) == Advances(cfg, envs[..i]) + 1
    ensures Answer(cfg, envs, i) == Ok(Print(PodCidr(cfg, Nth(Base(cfg), Advances(cfg, envs[..i + 1])))))
  {
    hide Acquire, Abs, Parse, Increment, Nth;
    var before, here := envs[..i], envs[..i + 1];
    assert here[..|here| - 1] == before;
    RunRefinesCounter(cfg, before);
    RunRefinesCounter(cfg, here);
    AcquireSucceedsExactlyWhen(FileAfter(cfg, before), cfg, envs[i]);
    AcquireStepsTheCounter(FileAfter(cfg, before), cfg, envs[i]);
    NthStep(Base(cfg), Advances(cfg, before));
  }

  /** Numbers below 2^32 give different addresses, none of them the bridge's. */
  lemma NthApart(base: word, m: nat, n: nat)
    requires 0 < m < n < TWO_32
    ensures Nth(base, m) != Nth(base, n)
    ensures Nth(base, 0) !in {Nth(base, m), Nth(base, n)}
  {
  }

  function AddressIn(r: Result<string>): Option<word> {
    if r.Ok? && Parse(r.value).Ok? then Some(Parse(r.value).value.addr) else None
  }

  lemma AddressOfPod(cfg: Config, address: word)
    requires Parse(cfg.clusterCidr).Ok?
    ensures AddressIn(Ok(Print(PodCidr(cfg, address)))) == Some(address)
  {
    RoundTrip(PodCidr(cfg, address));
  }

  /** Over any run with fewer than 2^32 advances, with reads and writes failing or tearing at any
      byte, the addresses returned are pairwise different and never the bridge's. */
  lemma RunsHandOutDistinctAddresses(cfg: Config, envs: seq<Env>, i: nat, j: nat)
    requires NeverRefused(envs) && Advances(cfg, envs) < TWO_32
    requires i < j < |envs| && Answer(cfg, envs, i).Ok? && Answer(cfg, envs, j).Ok?
    ensures var a, b := AddressIn(Answer(cfg, envs, i)), AddressIn(Answer(cfg, envs, j));
      a.Some? && b.Some? && a != b && Bridge(cfg).Ok? && AddressIn(Bridge(cfg)) !in {a, b}
  {
    hide Acquire, Abs, Parse, Nth, AddressIn, Bridge, FileAfter, PodCidr, Base, Answer, Print, Advances;
    AnswerIsNumbered(cfg, envs, i);
    AnswerIsNumbered(cfg, envs, j);
    var m, n := Advances(cfg, envs[..i + 1]), Advances(cfg, envs[..j + 1]);
    assert envs[..j][..i + 1] == envs[..i + 1];
    AdvancesGrow(cfg, envs[..j], i + 1);
    AdvancesGrow(cfg, envs, j + 1);
    NthApart(Base(cfg), m, n);
    AddressOfPod(cfg, Nth(Base(cfg), m));
    AddressOfPod(cfg, Nth(Base(cfg), n));
    SomeoneAnsweredMeansSubnetParses(cfg, envs, i);
    BridgeAddress(cfg);
  }

  lemma BridgeAddress(cfg: Config)
    ensures Bridge(cfg).Ok? <==> Parse(cfg.subnet).Ok? && Parse(cfg.clusterCidr).Ok?
    ensures Bridge(cfg).Ok? ==>
      Bridge(cfg) == Ok(Print(PodCidr(cfg, Nth(Base(cfg), 0)))) && AddressIn(Bridge(cfg)) == Some(Nth(Base(cfg), 0))
  {
    if Bridge(cfg).Ok? {
      AddressOfPod(cfg, Nth(Base(cfg), 0));
    }
  }

  lemma {:induction false} FileNeedsSubnet(cfg: Config, envs: seq<Env>)
    requires NeverRefused(envs)
    ensures FileAfter(cfg, envs).Some? ==> Parse(cfg.subnet).Ok?
    decreases |envs|
  {
    if envs != [] {
      FileNeedsSubnet(cfg, envs[..|envs| - 1]);
    }
  }

  lemma SomeoneAnsweredMeansSubnetParses(cfg: Config, envs: seq<Env>, i: nat)
    requires NeverRefused(envs) && i < |envs| && Answer(cfg, envs, i).Ok?
    ensures Parse(cfg.subnet).Ok?
  {
    FileNeedsSubnet(cfg, envs[..i]);
  }

  /** Once a write was torn before the slash, every later acquisition fails and leaves the file as
      it is: the counter is never rewound. */
  lemma {:induction false} StuckForever(cfg: Config, envs: seq<Env>, i: nat, j: nat)
    requires NeverRefused(envs) && i <= j < |envs| && Abs(FileAfter(cfg, envs[..i])).Stuck?
    ensures FileAfter(cfg, envs[..j + 1]) == FileAfter(cfg, envs[..i])
    ensures Answer(cfg, envs, j).Err?
    decreases j
  {
    hide Acquire, Abs, Parse;
    if j > i { StuckForever(cfg, envs, i, j - 1); }
    assert envs[..j + 1][..j] == envs[..j];
    AcquireStepsTheCounter(FileAfter(cfg, envs[..j]), cfg, envs[j]);
  }

  /** The existence check is the one call whose failure loses the counter: past the first address,
      a successful acquisition continues from the file exactly when the file did not look absent. */
  lemma OnlyTheExistsCheckRewinds(file: string, cfg: Config, env: Env, n: nat)
    requires 0 < n < TWO_32 && Abs(Some(file)) == At(Nth(Base(cfg), n))
    requires Acquire(Some(file), cfg, env).result.Ok?
    ensures AddressIn(Acquire(Some(file), cfg, env).result) == Some(Nth(Base(cfg), n + 1)) <==> !env.existsRefused
    ensures env.existsRefused ==> AddressIn(Acquire(Some(file), cfg, env).result) == Some(Nth(Base(cfg), 1))
  {
    var base := Base(cfg);
    NthStep(base, n);
    if env.existsRefused {
      AcquireSucceedsExactlyWhen(None, cfg, env);
      AddressOfPod(cfg, Nth(base, 1));
      SuccessorsApart(base, n);
    } else {
      AcquireSucceedsExactlyWhen(Some(file), cfg, env);
      AddressOfPod(cfg, Nth(base, n + 1));
    }
  }

  lemma SuccessorsApart(base: word, n: nat)
    requires 0 < n < TWO_32
    ensures Nth(base, n + 1) != Nth(base, 1)
  {
  }

  // ---------------------------------------------------------------- capacity

  function Quiet(n: nat): seq<Env> { seq(n, _ => NO_FAULT) }

  /** Without faults the `n`-th acquisition returns the `n`-th address, however many pods were
      deleted meanwhile: nothing is ever given back. */
  lemma {:induction false} QuietRun(cfg: Config, n: nat)
    requires Parse(cfg.subnet).Ok? && Parse(cfg.clusterCidr).Ok?
    ensures Advances(cfg, Quiet(n)) == n
    ensures n > 0 ==> Abs(FileAfter(cfg, Quiet(n))) == At(Nth(Base(cfg), n))
    ensures n > 0 ==> Answer(cfg, Quiet(n), n - 1) == Ok(Print(PodCidr(cfg, Nth(Base(cfg), n))))
    decreases n
  {
    hide Acquire, Abs, Parse, Increment, Nth, Print;
    AbsOfMissing();
    if n > 0 {
      QuietRun(cfg, n - 1);
      assert Quiet(n)[..n - 1] == Quiet(n - 1);
      var file := FileAfter(cfg, Quiet(n - 1));
      AcquireSucceedsExactlyWhen(file, cfg, NO_FAULT);
      AcquireStepsTheCounter(file, cfg, NO_FAULT);
      NthStep(Base(cfg), n - 1);
    }
  }

  /** `address` can be given to a pod of the subnet `base/prefix`: not the subnet's own, not the
      bridge's, not the broadcast address, and inside. */
  predicate UsableByPod(base: word, size: nat, address: word) {
    base + 1 < address < base + size - 1
  }

  /** With an aligned subnet of `size` addresses, the numbers that give usable pod addresses are
      exactly `1 .. size - 3`; number `size - 2` gives the broadcast address. */
  lemma CapacityIsExact(base: word, prefix: nat, n: nat)
    requires prefix <= 30 && base % Pow2(32 - prefix) == 0
    requires 0 < n <= TWO_32
    ensures 4 <= Pow2(32 - prefix) <= TWO_32 - base
    ensures UsableByPod(base, Pow2(32 - prefix), Nth(base, n)) <==> n <= Pow2(32 - prefix) - 3
    ensures n == Pow2(32 - prefix) - 2 ==> Nth(base, n) == base + Pow2(32 - prefix) - 1
  {
    AlignedBlockFits(base, prefix);
    Pow2Grows(2, 32 - prefix);
    assert Pow2(2) == 4;
  }

  lemma AlignedBlockFits(base: word, prefix: nat)
    requires prefix <= 32 && base % Pow2(32 - prefix) == 0
    ensures base + Pow2(32 - prefix) <= TWO_32
  {
    var size := Pow2(32 - prefix);
    assert TWO_32 == size * Pow2(prefix) by {
      Pow2At32();
      Pow2Product(32 - prefix, prefix);
    }
    hide Pow2;
    assert base == size * (base / size);
    NextMultipleFits(size, base / size, Pow2(prefix));
  }

  lemma NextMultipleFits(size: nat, k: nat, blocks: nat)
    requires size * k < size * blocks
    ensures size * k + size <= size * blocks
  {
    if k + 1 > blocks {
      MultipleGrows(size, blocks, k);
    } else {
      MultipleGrows(size, k + 1, blocks);
      MultipleGrows(size, k, k);
    }
  }
}
