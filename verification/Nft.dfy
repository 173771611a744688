/** The NAT rule of `nft.c`: how its mask and network are computed, and which packets it matches. */
module Nft {
  import opened Words
  import opened Cidrs

  /** Output interface, then mask and masked network as the register words they are compared with:
      in network byte order, so with the octets reversed. */
  datatype Rule = Rule(ifname: string, mask: word, net: word)

  type octet = x: nat | x < 256

  /** A packet leaving through `oif`, from the start of its IPv4 header. */
  datatype Packet = Packet(oif: string, header: seq<octet>)

  predicate Ipv4(p: Packet) { |p.header| >= 20 }

  /** The source address field (offset 12, section 3.1 of RFC 791), most significant octet first. */
  function Source(p: Packet): word
    requires Ipv4(p)
  {
    Join(p.header[15], p.header[14], p.header[13], p.header[12])
  }

  predicate ValidPrefix(p: int) { 0 <= p <= 32 }

  function Mask(prefix: int): word
    requires ValidPrefix(prefix)
  {
    if prefix == 0 then 0 else ByteSwap(ShiftLeft(0xFFFF_FFFF, 32 - prefix))
  }

  function NatRule(ifname: string, cidr: Cidr): Rule
    requires ValidPrefix(cidr.prefix)
  {
    AndIsWord(ByteSwap(cidr.addr), Mask(cidr.prefix));
    Rule(ifname, Mask(cidr.prefix), And(ByteSwap(cidr.addr), Mask(cidr.prefix)))
  }

  lemma AndIsWord(x: word, y: word)
    ensures And(x, y) < TWO_32
  {
    AndBound(x, y);
  }

  /** The rule's expressions in order: compare the output interface, load four octets from offset 12
      into a register, AND with the mask and XOR with zero, compare. */
  predicate Matches(r: Rule, p: Packet)
    requires Ipv4(p)
  {
    && p.oif == r.ifname
    && var register := Join(p.header[12], p.header[13], p.header[14], p.header[15]);
    && Xor(And(register, r.mask), 0) == r.net
  }

  predicate Masquerades(chain: seq<Rule>, p: Packet)
    requires Ipv4(p)
  {
    exists i :: 0 <= i < |chain| && Matches(chain[i], p)
  }

  /** The addresses of a prefix share a block: the quotient by the block size, in host byte order. */
  function Block(address: word, prefix: int): int
    requires ValidPrefix(prefix)
  {
    address / Pow2(32 - prefix)
  }

  lemma {:induction false} XorZero(x: nat)
    ensures Xor(x, 0) == x
    decreases x
  {
    if x != 0 { XorZero(x / 2); }
  }

  /** The shifted mask has exactly its high bits set. */
  lemma ShiftedMask(k: nat)
    requires k <= 32
    ensures Pow2(k) <= TWO_32 && ShiftLeft(0xFFFF_FFFF, k) == TWO_32 - Pow2(k)
  {
    Pow2At32();
    Pow2Grows(k, 32);
    var m := Pow2(k);
    QuotientIs(0xFFFF_FFFF * m, TWO_32, m - 1, TWO_32 - m);
  }

  /** Masking two addresses in network byte order compares their blocks in host byte order. */
  lemma MaskedEqualIsSameBlock(x: word, y: word, prefix: int)
    requires ValidPrefix(prefix)
    ensures And(ByteSwap(x), Mask(prefix)) == And(ByteSwap(y), Mask(prefix)) <==> Block(x, prefix) == Block(y, prefix)
  {
    hide ByteSwap, And, ClearLow, Pow2;
    Pow2At32();
    if prefix == 0 {
      AndOfZero(ByteSwap(x), 0);
      AndOfZero(ByteSwap(y), 0);
      QuotientIs(x, TWO_32, 0, x);
      QuotientIs(y, TWO_32, 0, y);
    } else {
      var k := 32 - prefix;
      ShiftedMask(k);
      var m: word := TWO_32 - Pow2(k);
      AndOfSwapped(x, m);
      AndOfSwapped(y, m);
      ByteSwapTwice(And(x, m));
      ByteSwapTwice(And(y, m));
      AndWithMask(x, 32, k);
      AndWithMask(y, 32, k);
      SameBlock(x, y, k);
    }
  }

  lemma SourceIsSwappedRegister(p: Packet)
    requires Ipv4(p)
    ensures Join(p.header[12], p.header[13], p.header[14], p.header[15]) == ByteSwap(Source(p))
  {
    OctetsOfJoin(p.header[15], p.header[14], p.header[13], p.header[12]);
  }

  /** A rule matches exactly the packets that leave through its interface from its block. */
  lemma RuleMatchesItsBlock(ifname: string, cidr: Cidr, p: Packet)
    requires ValidPrefix(cidr.prefix) && Ipv4(p)
    ensures Matches(NatRule(ifname, cidr), p) <==>
      p.oif == ifname && Block(Source(p), cidr.prefix) == Block(cidr.addr, cidr.prefix)
  {
    hide ByteSwap, And, Mask, Block, Source;
    SourceIsSwappedRegister(p);
    XorZero(And(ByteSwap(Source(p)), Mask(cidr.prefix)));
    MaskedEqualIsSameBlock(Source(p), cidr.addr, cidr.prefix);
  }

  /** A chain filled by pods of one block: any number of rules decides like a single one. */
  lemma ChainIsBlockMembership(ifname: string, block: Cidr, chain: seq<Rule>, addresses: seq<word>, p: Packet)
    requires ValidPrefix(block.prefix) && Ipv4(p)
    requires |chain| == |addresses| > 0
    requires forall i :: 0 <= i < |chain| ==>
      && chain[i] == NatRule(ifname, Cidr(addresses[i], block.prefix))
      && Block(addresses[i], block.prefix) == Block(block.addr, block.prefix)
    ensures Masquerades(chain, p) <==>
      p.oif == ifname && Block(Source(p), block.prefix) == Block(block.addr, block.prefix)
  {
    hide ByteSwap, Mask, Block, Source, NatRule, Matches;
    forall i | 0 <= i < |chain|
      ensures Matches(chain[i], p) <==>
        p.oif == ifname && Block(Source(p), block.prefix) == Block(block.addr, block.prefix)
    {
      RuleMatchesItsBlock(ifname, Cidr(addresses[i], block.prefix), p);
    }
    assert Masquerades(chain, p) <==> Matches(chain[0], p);
  }

  /** The arithmetic part of `nft_nat_rule`: parse, mask, AND. */
  method BuildRule(ifname: string, cidr: string) returns (rc: int, rule: Rule)
    requires '\0' !in cidr && |cidr| < CIDR_BUFFER_LEN
    requires Parse(cidr).Ok? ==> ValidPrefix(Parse(cidr).value.prefix)
    ensures rc == if Parse(cidr).Ok? then 0 else 1
    ensures rc == 0 ==> rule == NatRule(ifname, Parse(cidr).value)
  {
    hide Parse, ByteSwap, And;
    var addr, prefix;
    rule := Rule(ifname, 0, 0);
    rc, addr, prefix := CidrParse(cidr);
    if rc != 0 {
      return 1, rule;
    }
    ByteSwapTwice(addr);
    var mask := 0;
    if prefix != 0 {
      mask := ByteSwap(ShiftLeft(0xFFFF_FFFF, 32 - prefix));
    }
    AndIsWord(addr, mask);
    rule := Rule(ifname, mask, And(addr, mask));
  }
}
