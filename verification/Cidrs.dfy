/** The CIDR codec of `util.c`: `a.b.c.d/prefix`, with `inet_pton` and `inet_ntop` for the address
    part (notation of section 3.1 of RFC 4632). */
module Cidrs {
  import opened Words
  import opened Text

  const CIDR_BUFFER_LEN := 64

  datatype Option<+T> = None | Some(value: T)

  datatype Error =
    | MissingSlash
    | InvalidAddress
    | ReadFailed
    | WriteFailed
    | NetfilterFailed

  datatype Result<+T> = Ok(value: T) | Err(error: Error)

  /** `addr` is the address as a number, `ntohl` of `in_addr.s_addr`. */
  datatype Cidr = Cidr(addr: word, prefix: int32)

  // ---------------------------------------------------------------- inet_pton and inet_ntop

  predicate Octets(o: seq<nat>) { forall i :: 0 <= i < |o| ==> o[i] < 256 }

  /** The scanning loop of `inet_pton(AF_INET, ..)`: `done` are the finished octets, `octet` the
      one being read and `sawDigit` whether any of its digits was seen. */
  function PtonScan(s: string, done: seq<nat>, octet: nat, sawDigit: bool): (r: Option<seq<nat>>)
    requires |done| <= 3 && Octets(done) && octet < 256 && (sawDigit || octet == 0)
    ensures r.Some? ==> |r.value| == 4 && Octets(r.value)
  {
    if s == [] then
      if |done| == 3 && sawDigit then Some(done + [octet]) else None
    else if IsDigit(s[0]) then
      var next := octet * 10 + DigitValue(s[0]);
      if sawDigit && octet == 0 then None
      else if next > 255 then None
      else PtonScan(s[1..], done, next, true)
    else if s[0] == '.' && sawDigit then
      if |done| == 3 then None else PtonScan(s[1..], done + [octet], 0, false)
    else
      None
  }

  function Pton(s: string): Option<word> {
    match PtonScan(s, [], 0, false)
    case None => None
    case Some(o) => Some(Join(o[3], o[2], o[1], o[0]))
  }

  /** Each octet in decimal, followed by a dot. */
  function Dotted(o: seq<nat>): string {
    if o == [] then "" else Dotted(o[..|o| - 1]) + Decimal(o[|o| - 1]) + "."
  }

  function Ntop(a: word): string {
    Dotted([Octet(a, 3), Octet(a, 2), Octet(a, 1)]) + Decimal(Octet(a, 0))
  }

  lemma {:induction false} PtonReadsOctet(n: nat, rest: string, done: seq<nat>)
    requires n < 256 && |done| <= 3 && Octets(done)
    ensures PtonScan(Decimal(n) + rest, done, 0, false) == PtonScan(rest, done, n, true)
    decreases n
  {
    var d := [DigitChar(n % 10)];
    assert (d + rest)[1..] == rest;
    if n >= 10 {
      PtonReadsOctet(n / 10, d + rest, done);
      assert Decimal(n) + rest == Decimal(n / 10) + (d + rest);
    }
  }

  lemma PtonReadsPart(n: nat, rest: string, done: seq<nat>)
    requires n < 256 && |done| <= 2 && Octets(done)
    ensures PtonScan(Decimal(n) + "." + rest, done, 0, false) == PtonScan(rest, done + [n], 0, false)
  {
    assert Decimal(n) + "." + rest == Decimal(n) + ("." + rest);
    PtonReadsOctet(n, "." + rest, done);
    assert ("." + rest)[1..] == rest;
  }

  lemma {:induction false} PtonReadsDotted(o: seq<nat>, rest: string)
    requires |o| <= 3 && Octets(o)
    ensures PtonScan(Dotted(o) + rest, [], 0, false) == PtonScan(rest, o, 0, false)
    decreases |o|
  {
    if o == [] {
      assert Dotted(o) + rest == rest;
    } else {
      var init, last := o[..|o| - 1], o[|o| - 1];
      PtonReadsDotted(init, Decimal(last) + "." + rest);
      assert Dotted(o) + rest == Dotted(init) + (Decimal(last) + "." + rest);
      PtonReadsPart(last, rest, init);
      assert init + [last] == o;
    }
  }

  lemma PtonReadsLast(n: nat, done: seq<nat>)
    requires n < 256 && |done| == 3 && Octets(done)
    ensures PtonScan(Decimal(n), done, 0, false) == Some(done + [n])
  {
    PtonReadsOctet(n, "", done);
    assert Decimal(n) + "" == Decimal(n);
  }

  lemma DottedExtends(o: seq<nat>, n: nat)
    ensures Dotted(o + [n]) == Dotted(o) + Decimal(n) + "."
  {
    assert (o + [n])[..|o|] == o;
  }

  /** `inet_pton` reads back every address `inet_ntop` prints. */
  lemma PtonOfNtop(a: word)
    ensures Pton(Ntop(a)) == Some(a)
  {
    var o := [Octet(a, 3), Octet(a, 2), Octet(a, 1)];
    PtonReadsDotted(o, Decimal(Octet(a, 0)));
    PtonReadsLast(Octet(a, 0), o);
    JoinOfOctets(a);
  }

  lemma {:induction false} PtonScanSound(s: string, done: seq<nat>, octet: nat, sawDigit: bool)
    requires |done| <= 3 && Octets(done) && octet < 256 && (sawDigit || octet == 0)
    requires PtonScan(s, done, octet, sawDigit).Some?
    ensures var o := PtonScan(s, done, octet, sawDigit).value;
      Dotted(done) + (if sawDigit then Decimal(octet) else "") + s == Dotted(o[..3]) + Decimal(o[3])
    decreases |s|
  {
    if s == [] {
      assert (done + [octet])[..3] == done;
    } else if IsDigit(s[0]) {
      PtonScanSound(s[1..], done, octet * 10 + DigitValue(s[0]), true);
      DigitExtends(octet, s[0], sawDigit);
      MoveOver(Dotted(done), if sawDigit then Decimal(octet) else "", s);
    } else {
      PtonScanSound(s[1..], done + [octet], 0, false);
      DottedExtends(done, octet);
      MoveOver(Dotted(done), Decimal(octet), s);
    }
  }

  lemma MoveOver(x: string, y: string, s: string)
    requires s != []
    ensures x + y + s == x + (y + [s[0]]) + s[1..] == x + y + [s[0]] + "" + s[1..]
  {
  }

  lemma DigitExtends(octet: nat, c: char, sawDigit: bool)
    requires IsDigit(c) && (if sawDigit then octet != 0 else octet == 0)
    ensures (if sawDigit then Decimal(octet) else "") + [c] == Decimal(octet * 10 + DigitValue(c))
  {
    var n := octet * 10 + DigitValue(c);
    assert DigitChar(n % 10) == c && n / 10 == octet;
  }

  /** `inet_pton` accepts nothing but what `inet_ntop` prints: one text for each address. */
  lemma PtonExactly(s: string, a: word)
    ensures Pton(s) == Some(a) <==> s == Ntop(a)
  {
    PtonOfNtop(a);
    if Pton(s) == Some(a) {
      PtonScanSound(s, [], 0, false);
      var o := PtonScan(s, [], 0, false).value;
      OctetsOfJoin(o[3], o[2], o[1], o[0]);
      assert o[..3] == [o[0], o[1], o[2]];
    }
  }

  predicate AddressChar(c: char) { IsDigit(c) || c == '.' }

  lemma {:induction false} DottedShape(o: seq<nat>)
    requires Octets(o)
    ensures |Dotted(o)| <= 4 * |o|
    ensures forall i :: 0 <= i < |Dotted(o)| ==> AddressChar(Dotted(o)[i])
  {
    if o != [] {
      DottedShape(o[..|o| - 1]);
      Pow10Values();
      DecimalLength(o[|o| - 1], 3);
    }
  }

  lemma NtopShape(a: word)
    ensures 0 < |Ntop(a)| <= 15
    ensures forall i :: 0 <= i < |Ntop(a)| ==> AddressChar(Ntop(a)[i])
    ensures '/' !in Ntop(a) && '\0' !in Ntop(a)
  {
    DottedShape([Octet(a, 3), Octet(a, 2), Octet(a, 1)]);
    Pow10Values();
    DecimalLength(Octet(a, 0), 3);
  }

  // ---------------------------------------------------------------- the codec

  /** What `util_cidr_parse` accepts and finds. */
  function Parse(t: string): Result<Cidr> {
    var slash := IndexOf(t, '/');
    if slash == |t| then Err(MissingSlash)
    else
      match Pton(t[..slash])
      case None => Err(InvalidAddress)
      case Some(a) => Ok(Cidr(a, Atoi(t[slash + 1..])))
  }

  /** What `util_cidr_serialize` prints. */
  function Print(c: Cidr): string {
    Ntop(c.addr) + "/" + DecimalInt(c.prefix)
  }

  /** The texts that parse to `c` are its address, a slash, and anything `atoi` reads as its
      prefix. */
  lemma ParseExactly(t: string, c: Cidr)
    ensures Parse(t) == Ok(c) <==>
      Ntop(c.addr) + "/" <= t && Atoi(t[|Ntop(c.addr)| + 1..]) == c.prefix
  {
    var n, slash := Ntop(c.addr), IndexOf(t, '/');
    NtopShape(c.addr);
    if n + "/" <= t {
      assert t == n + ['/'] + t[|n| + 1..];
      IndexOfSkips(n, '/', t[|n| + 1..]);
      assert t[..slash] == n;
      PtonOfNtop(c.addr);
    }
    if Parse(t) == Ok(c) {
      PtonExactly(t[..slash], c.addr);
      assert t[..slash] == n && t[slash] == '/';
      assert n + "/" == t[..|n| + 1];
    }
  }

  lemma HasSlash(n: string, t: string)
    ensures n + "/" <= t ==> '/' in t
  {
    if n + "/" <= t { assert t[|n|] == '/'; }
  }

  /** The other texts have no slash, or no address in front of the first one. */
  lemma ParseFails(t: string)
    ensures Parse(t) == Err(MissingSlash) <==> '/' !in t
    ensures Parse(t) == Err(InvalidAddress) <==> '/' in t && forall a :: !(Ntop(a) + "/" <= t)
  {
    var slash := IndexOf(t, '/');
    if slash == |t| {
      assert t[..slash] == t;
      forall a ensures Ntop(a) + "/" <= t ==> '/' in t { HasSlash(Ntop(a), t); }
    } else {
      assert t[slash] == '/';
      forall a | Ntop(a) + "/" <= t ensures Parse(t).Ok? {
        ParseExactly(t, Cidr(a, Atoi(t[|Ntop(a)| + 1..])));
      }
      if Parse(t).Ok? { ParseExactly(t, Parse(t).value); }
    }
  }

  /** Every address with every C `int` as prefix survives printing and parsing, and the text fits
      the 64-byte buffers with room to spare. */
  lemma RoundTrip(c: Cidr)
    ensures Parse(Print(c)) == Ok(c)
    ensures |Print(c)| <= 27 && '\0' !in Print(c)
  {
    var n, d := Ntop(c.addr), DecimalInt(c.prefix);
    ParseExactly(Print(c), c);
    assert Print(c)[|n| + 1..] == d;
    AtoiOfDecimal(c.prefix);
    NtopShape(c.addr);
    DecimalIntLength(c.prefix);
  }

  /** Printing what was parsed and parsing it again changes nothing, for every accepted text. */
  lemma Reprint(t: string)
    requires Parse(t).Ok?
    ensures Parse(Print(Parse(t).value)) == Parse(t)
  {
    RoundTrip(Parse(t).value);
  }

  /** A printed CIDR cut short anywhere is refused while the slash is missing and otherwise still
      names the same address. */
  lemma TornText(c: Cidr, k: nat)
    requires k <= |Print(c)|
    ensures k <= |Ntop(c.addr)| ==> Parse(Print(c)[..k]) == Err(MissingSlash)
    ensures k > |Ntop(c.addr)| ==> Parse(Print(c)[..k]).Ok? && Parse(Print(c)[..k]).value.addr == c.addr
  {
    var n, t := Ntop(c.addr), Print(c)[..k];
    NtopShape(c.addr);
    if k <= |n| {
      assert t == n[..k];
      IndexOfAbsent(t, '/');
    } else {
      assert n + "/" == t[..|n| + 1];
      ParseExactly(t, Cidr(c.addr, Atoi(t[|n| + 1..])));
    }
  }

  /** `util_cidr_parse`: copy, cut the copy at the slash in place, read both halves.  `addr` is
      `in_addr.s_addr`, so in network byte order. */
  method CidrParse(cidr: string) returns (rc: int, addr: word, prefix: int32)
    requires '\0' !in cidr && |cidr| < CIDR_BUFFER_LEN
    ensures rc == if Parse(cidr).Ok? then 0 else 1
    ensures rc == 0 ==> Parse(cidr) == Ok(Cidr(ByteSwap(addr), prefix))
  {
    addr, prefix := 0, 0;
    var buffer := new char[CIDR_BUFFER_LEN](_ => '\0');
    Strcpy(buffer, cidr);
    var slash := IndexOf(CString(buffer[..]), '/');
    if slash == |CString(buffer[..])| {
      return 1, addr, prefix;
    }
    assert buffer[slash + 1..][..|cidr| - slash - 1] == cidr[slash + 1..];
    CStringOf(buffer[slash + 1..], cidr[slash + 1..]);
    prefix := Atoi(CString(buffer[slash + 1..]));
    buffer[slash] := '\0';
    CStringOf(buffer[..], cidr[..slash]);
    match Pton(CString(buffer[..]))
    case None => return 1, addr, prefix;
    case Some(a) =>
      ByteSwapTwice(a);
      return 0, ByteSwap(a), prefix;
  }

  method Strcpy(buffer: array<char>, s: string)
    requires '\0' !in s && |s| < buffer.Length
    modifies buffer
    ensures buffer[..|s|] == s && buffer[|s|] == '\0'
    ensures CString(buffer[..]) == s
  {
    forall i | 0 <= i < |s| { buffer[i] := s[i]; }
    buffer[|s|] := '\0';
    CStringOf(buffer[..], s);
  }

  /** `util_cidr_serialize`: `snprintf` keeps at most 63 characters, which is never a limit. */
  method CidrSerialize(addr: word, prefix: int32, out: array<char>) returns (rc: int)
    requires out.Length == CIDR_BUFFER_LEN
    modifies out
    ensures rc == 0 && CString(out[..]) == Print(Cidr(ByteSwap(addr), prefix)) && '\0' in out[..]
  {
    var text := Ntop(ByteSwap(addr)) + "/" + DecimalInt(prefix);
    RoundTrip(Cidr(ByteSwap(addr), prefix));
    Strcpy(out, text[..Min(|text|, CIDR_BUFFER_LEN - 1)]);
    return 0;
  }
}
