/** The address allocator of `ip.c`: the last address handed out is kept as CIDR text in one file. */
module Ip {
  import opened Words
  import opened Text
  import opened Cidrs
  import opened Io

  /** The part of the plugin's configuration that addressing depends on. */
  datatype Config = Config(subnet: string, clusterCidr: string)

  /** The C strings of the configuration fit `util_cidr_parse`'s `strcpy` target. */
  predicate FitsBuffers(cfg: Config) {
    && '\0' !in cfg.subnet && |cfg.subnet| < CIDR_BUFFER_LEN
    && '\0' !in cfg.clusterCidr && |cfg.clusterCidr| < CIDR_BUFFER_LEN
  }

  /** What the environment did to one acquisition. */
  datatype Env = Env(existsRefused: bool, readFailed: bool, write: WriteOutcome)

  const NO_FAULT := Env(false, false, Complete)

  datatype Acquired = Acquired(file: Option<string>, result: Result<string>)

  /** The next address, with no subnet check. */
  function NextCidr(last: string, clusterCidr: string): Result<Cidr> {
    match Parse(last)
    case Err(e) => Err(e)
    case Ok(l) =>
      match Parse(clusterCidr)
      case Err(e) => Err(e)
      case Ok(c) => Ok(Cidr(Increment(l.addr), c.prefix))
  }

  /** `ip_bridge`: the first address of the subnet with the cluster's prefix. */
  function Bridge(cfg: Config): Result<string> {
    match NextCidr(cfg.subnet, cfg.clusterCidr)
    case Err(e) => Err(e)
    case Ok(c) => Ok(Print(c))
  }

  /** `get_first_allocable_ip`: the bridge's address with the subnet's prefix. */
  function FirstAllocable(subnet: string): Result<string> {
    match Parse(subnet)
    case Err(e) => Err(e)
    case Ok(s) => Ok(Print(Cidr(Increment(s.addr), s.prefix)))
  }

  /** The text stands for the subnet's second address, prefix included. */
  lemma FirstAllocableParses(subnet: string)
    requires Parse(subnet).Ok?
    ensures FirstAllocable(subnet).Ok?
    ensures Parse(FirstAllocable(subnet).value)
         == Ok(Cidr((Parse(subnet).value.addr + 1) % TWO_32, Parse(subnet).value.prefix))
  {
    RoundTrip(Cidr(Increment(Parse(subnet).value.addr), Parse(subnet).value.prefix));
  }

  predicate IsBlank(c: char) { c == '\n' || c == '\r' || c == ' ' || c == '\t' }

  function Trim(s: string): string {
    if s != [] && IsBlank(s[|s| - 1]) then Trim(s[..|s| - 1]) else s
  }

  /** The text found in a stored file: trailing blanks dropped, then up to the first NUL. */
  function StoredText(file: string): string { CString(Trim(file)) }

  function LastAcquired(file: Option<string>, subnet: string, env: Env): Result<string> {
    if file.Some? && !env.existsRefused then
      if env.readFailed || |file.value| >= CIDR_BUFFER_LEN - 1 then Err(ReadFailed)
      else Ok(StoredText(file.value))
    else
      FirstAllocable(subnet)
  }

  /** `ip_container_acquire`. */
  function Acquire(file: Option<string>, cfg: Config, env: Env): Acquired {
    match LastAcquired(file, cfg.subnet, env)
    case Err(e) => Acquired(file, Err(e))
    case Ok(last) =>
      match NextCidr(last, cfg.clusterCidr)
      case Err(e) => Acquired(file, Err(e))
      case Ok(c) =>
        Acquired(AfterWrite(file, Print(c), env.write),
                 if env.write.Complete? then Ok(Print(c)) else Err(WriteFailed))
  }

  // ---------------------------------------------------------------- trimming

  /** `Trim(s)` is the longest prefix of `s` that does not end in a blank. */
  lemma {:induction false} TrimIsLongest(s: string)
    ensures Trim(s) <= s && (Trim(s) != [] ==> Trim(s)[|Trim(s)| - 1] !in ['\n', '\r', ' ', '\t'])
    ensures forall k :: |Trim(s)| <= k < |s| ==> s[k] in ['\n', '\r', ' ', '\t']
    decreases |s|
  {
    if s != [] && IsBlank(s[|s| - 1]) { TrimIsLongest(s[..|s| - 1]); }
  }

  /** Only that prefix has those properties. */
  lemma {:induction false} TrimDropsBlanks(s: string, blanks: string)
    requires s != [] ==> !IsBlank(s[|s| - 1])
    requires forall k :: 0 <= k < |blanks| ==> IsBlank(blanks[k])
    ensures Trim(s + blanks) == s
    decreases |blanks|
  {
    if blanks == [] {
      assert s + blanks == s;
    } else {
      assert (s + blanks)[..|s + blanks| - 1] == s + blanks[..|blanks| - 1];
      TrimDropsBlanks(s, blanks[..|blanks| - 1]);
    }
  }

  lemma DecimalIntEnds(n: int32)
    ensures DecimalInt(n) != [] && IsDigit(DecimalInt(n)[|DecimalInt(n)| - 1])
  {
  }

  /** What was printed into the file is read back whatever blanks follow it. */
  lemma StoredTextOfPrinted(c: Cidr, blanks: string)
    requires forall k :: 0 <= k < |blanks| ==> IsBlank(blanks[k])
    ensures StoredText(Print(c) + blanks) == Print(c)
  {
    var t := Print(c);
    RoundTrip(c);
    DecimalIntEnds(c.prefix);
    assert t[|t| - 1] == DecimalInt(c.prefix)[|DecimalInt(c.prefix)| - 1];
    TrimDropsBlanks(t, blanks);
    IndexOfAbsent(t, '\0');
  }

  /** Trailing blanks that leave the file below the read limit of 63 bytes change nothing about the next
      acquisition: it answers the same, and rewrites the file the same way or leaves it alone.  From 63
      bytes on it fails and leaves the file alone. */
  lemma BlanksDoNotMatter(c: Cidr, blanks: string, cfg: Config, env: Env)
    requires forall k :: 0 <= k < |blanks| ==> blanks[k] in ['\n', '\r', ' ', '\t']
    ensures var plain, padded := Acquire(Some(Print(c)), cfg, env), Acquire(Some(Print(c) + blanks), cfg, env);
      if |Print(c)| + |blanks| < 63 || env.existsRefused then
        && plain.result == padded.result
        && (plain.file == padded.file || (plain.file == Some(Print(c)) && padded.file == Some(Print(c) + blanks)))
      else
        padded.result.Err? && padded.file == Some(Print(c) + blanks)
  {
    hide Parse, Print, StoredText, NextCidr;
    StoredTextOfPrinted(c, blanks);
    StoredTextOfPrinted(c, "");
    assert Print(c) + "" == Print(c);
  }

  // ---------------------------------------------------------------- the code

  method GetFirstAllocableIp(cidr: string, out: array<char>) returns (rc: int)
    requires '\0' !in cidr && |cidr| < CIDR_BUFFER_LEN == out.Length
    modifies out
    ensures rc == if FirstAllocable(cidr).Ok? then 0 else 1
    ensures rc == 0 ==> FirstAllocable(cidr) == Ok(CString(out[..])) && '\0' in out[..]
  {
    var addr, prefix;
    rc, addr, prefix := CidrParse(cidr);
    if rc != 0 {
      return 1;
    }
    var ipInt := ByteSwap(addr);
    ipInt := Increment(ipInt);
    addr := ByteSwap(ipInt);
    ByteSwapTwice(ipInt);
    rc := CidrSerialize(addr, prefix, out);
  }

  method IpBridge(cfg: Config, out: array<char>) returns (rc: int)
    requires FitsBuffers(cfg) && out.Length == CIDR_BUFFER_LEN
    modifies out
    ensures rc == if Bridge(cfg).Ok? then 0 else 1
    ensures rc == 0 ==> Bridge(cfg) == Ok(CString(out[..]))
  {
    var nodeAddr, nodePrefix, clusterAddr, clusterPrefix;
    rc, nodeAddr, nodePrefix := CidrParse(cfg.subnet);
    if rc != 0 {
      return 1;
    }
    rc, clusterAddr, clusterPrefix := CidrParse(cfg.clusterCidr);
    if rc != 0 {
      return 1;
    }
    var ipInt := ByteSwap(nodeAddr);
    ipInt := Increment(ipInt);
    nodeAddr := ByteSwap(ipInt);
    ByteSwapTwice(ipInt);
    rc := CidrSerialize(nodeAddr, clusterPrefix, out);
  }

  /** The in-place trim loop: blanks at the end become NULs. */
  method TrimInPlace(buf: array<char>, length: nat) returns (trimmed: nat)
    requires length < buf.Length
    modifies buf
    ensures trimmed <= length && buf[..trimmed] == Trim(old(buf[..length])) && buf[trimmed] == '\0'
  {
    trimmed := length;
    while trimmed > 0 && IsBlank(buf[trimmed - 1])
      invariant trimmed <= length && buf[..trimmed] == old(buf[..trimmed])
      invariant Trim(buf[..trimmed]) == Trim(old(buf[..length]))
    {
      assert buf[..trimmed][..trimmed - 1] == buf[..trimmed - 1];
      trimmed := trimmed - 1;
      buf[trimmed] := '\0';
    }
    buf[trimmed] := '\0';
  }

  method IpContainerAcquire(disk: Disk, cfg: Config, out: array<char>) returns (rc: int, ghost env: Env)
    requires FitsBuffers(cfg) && out.Length == CIDR_BUFFER_LEN
    modifies disk`file, out
    ensures disk.file == Acquire(old(disk.file), cfg, env).file
    ensures rc == if Acquire(old(disk.file), cfg, env).result.Ok? then 0 else 1
    ensures rc == 0 ==> Acquire(old(disk.file), cfg, env).result == Ok(CString(out[..]))
    ensures !disk.faulty ==> env == NO_FAULT
  {
    hide Parse, Print, ByteSwap, Increment, Trim, CString, AfterWrite, FirstAllocable;
    env := NO_FAULT;
    var lastAcquired := new char[CIDR_BUFFER_LEN](_ => '\0');
    var found;
    ghost var refused, failed;
    found, refused := disk.FileExists();
    env := env.(existsRefused := refused);
    if found {
      var length;
      rc, length, failed := disk.ReadFileInto(lastAcquired, CIDR_BUFFER_LEN);
      env := env.(readFailed := failed);
      if rc != 0 {
        return 1, env;
      }
      assert lastAcquired[..length] == disk.file.value;
      length := TrimInPlace(lastAcquired, length);
      CStringBefore(lastAcquired[..], length);
    } else {
      rc := GetFirstAllocableIp(cfg.subnet, lastAcquired);
      if rc != 0 {
        return 1, env;
      }
      FirstAllocableFits(cfg.subnet);
    }
    var addr, prefix, clusterAddr, clusterPrefix;
    rc, addr, prefix := CidrParse(CString(lastAcquired[..]));
    if rc != 0 {
      return 1, env;
    }
    rc, clusterAddr, clusterPrefix := CidrParse(cfg.clusterCidr);
    if rc != 0 {
      return 1, env;
    }
    var ipInt := ByteSwap(addr);
    ipInt := Increment(ipInt);
    addr := ByteSwap(ipInt);
    ByteSwapTwice(ipInt);
    rc := CidrSerialize(addr, clusterPrefix, out);
    ghost var outcome;
    rc, outcome := disk.WriteText(out);
    env := env.(write := outcome);
    if rc != 0 {
      return 1, env;
    }
  }

  lemma FirstAllocableFits(subnet: string)
    ensures FirstAllocable(subnet).Ok? ==>
      |FirstAllocable(subnet).value| < CIDR_BUFFER_LEN && '\0' !in FirstAllocable(subnet).value
  {
    if FirstAllocable(subnet).Ok? {
      RoundTrip(Cidr(Increment(Parse(subnet).value.addr), Parse(subnet).value.prefix));
    }
  }
}
