/** Deterministic interface names: the FNV-1a hash of `util.c` and the two generators of `net.c`. */
module Naming {
  import opened Words
  import opened Text
  import opened Cidrs

  const FNV_OFFSET: word := 2166136261
  const FNV_PRIME := 16777619
  /** The inverse of FNV_PRIME modulo 2^32. */
  const FNV_PRIME_INVERSE := 899433627

  /** One pod attachment as the container runtime names it. */
  datatype PodId = PodId(netns: string, ifname: string, containerId: string)

  function Byte(c: char): (b: nat)
    ensures b < 256
  {
    c as int % 256
  }

  /** The loop body of `util_fnv1a32`: XOR in one byte, multiply modulo 2^32. */
  function FnvStep(h: word, c: char): word {
    Xor(h, Byte(c)) * FNV_PRIME % TWO_32
  }

  function FnvFrom(h: word, s: string): word
    decreases |s|
  {
    if s == [] then h else FnvFrom(FnvStep(h, s[0]), s[1..])
  }

  function Fnv(s: string): word { FnvFrom(FNV_OFFSET, s) }

  function Combined(p: PodId): word {
    var h := Xor(Xor(Xor(FNV_OFFSET, Fnv(p.netns)), Fnv(p.ifname)), Fnv(p.containerId));
    CombinedFits(p);
    h
  }

  function HostName(p: PodId): string { "sknf" + Hex(Combined(p), 8) }

  function TmpName(p: PodId): string { "tmp" + Hex(Combined(p), 8) }

  lemma XorOfWords(x: word, y: word)
    ensures Xor(x, y) < TWO_32
  {
    Pow2At32();
    XorBound(x, y, 32);
  }

  lemma CombinedFits(p: PodId)
    ensures Xor(Xor(Xor(FNV_OFFSET, Fnv(p.netns)), Fnv(p.ifname)), Fnv(p.containerId)) < TWO_32
  {
    XorOfWords(FNV_OFFSET, Fnv(p.netns));
    XorOfWords(Xor(FNV_OFFSET, Fnv(p.netns)), Fnv(p.ifname));
    XorOfWords(Xor(Xor(FNV_OFFSET, Fnv(p.netns)), Fnv(p.ifname)), Fnv(p.containerId));
  }

  // ---------------------------------------------------------------- the hash is stepwise one to one

  /** Multiplying by the prime is undone by multiplying by its inverse. */
  lemma PrimeIsInvertible(x: word)
    ensures x * FNV_PRIME % TWO_32 * FNV_PRIME_INVERSE % TWO_32 == x
  {
    var y := x * FNV_PRIME;
    InverseUndoes(x, y / TWO_32, y % TWO_32);
  }

  lemma InverseUndoes(x: word, k: int, r: int)
    requires x * FNV_PRIME == TWO_32 * k + r
    ensures r * FNV_PRIME_INVERSE % TWO_32 == x
  {
    // FNV_PRIME * FNV_PRIME_INVERSE == 3513497 * 2^32 + 1
    QuotientIs(r * FNV_PRIME_INVERSE, TWO_32, 3513497 * x - k * FNV_PRIME_INVERSE, x);
  }

  /** Each hash step is a permutation of the words for a fixed byte, and separates bytes for a
      fixed word. */
  lemma FnvStepOneToOne(g: word, h: word, b: char, c: char)
    ensures FnvStep(g, b) == FnvStep(h, b) <==> g == h
    ensures FnvStep(h, b) == FnvStep(h, c) <==> Byte(b) == Byte(c)
  {
    XorOfWords(g, Byte(b)); XorOfWords(h, Byte(b)); XorOfWords(h, Byte(c));
    PrimeIsInvertible(Xor(g, Byte(b)));
    PrimeIsInvertible(Xor(h, Byte(b)));
    PrimeIsInvertible(Xor(h, Byte(c)));
    XorOneToOne(g, h, Byte(b));
    XorOneToOne(Byte(b), Byte(c), h);
  }

  lemma {:induction false} FnvFromOneToOne(g: word, h: word, s: string)
    ensures FnvFrom(g, s) == FnvFrom(h, s) <==> g == h
    decreases |s|
  {
    if s != [] {
      FnvStepOneToOne(g, h, s[0], s[0]);
      FnvFromOneToOne(FnvStep(g, s[0]), FnvStep(h, s[0]), s[1..]);
    }
  }

  /** The strings have one length and differ in exactly one byte. */
  ghost predicate OneByteApart(s: string, t: string) {
    && |s| == |t|
    && exists i :: 0 <= i < |s| && Byte(s[i]) != Byte(t[i]) && s[..i] == t[..i] && s[i + 1..] == t[i + 1..]
  }

  lemma {:induction false} FnvFromSeparates(h: word, s: string, t: string, i: nat)
    requires i < |s| == |t| && Byte(s[i]) != Byte(t[i])
    requires s[..i] == t[..i] && s[i + 1..] == t[i + 1..]
    ensures FnvFrom(h, s) != FnvFrom(h, t)
    decreases i
  {
    if i == 0 {
      FnvStepOneToOne(h, h, s[0], t[0]);
      FnvFromOneToOne(FnvStep(h, s[0]), FnvStep(h, t[0]), s[1..]);
    } else {
      assert s[0] == s[..i][0] == t[..i][0] == t[0];
      assert s[1..][..i - 1] == s[..i][1..] && t[1..][..i - 1] == t[..i][1..];
      assert s[1..][i..] == s[i + 1..] && t[1..][i..] == t[i + 1..];
      FnvFromSeparates(FnvStep(h, s[0]), s[1..], t[1..], i - 1);
    }
  }

  lemma FnvSeparates(s: string, t: string)
    requires OneByteApart(s, t)
    ensures Fnv(s) != Fnv(t)
  {
    var i :| 0 <= i < |s| && Byte(s[i]) != Byte(t[i]) && s[..i] == t[..i] && s[i + 1..] == t[i + 1..];
    FnvFromSeparates(FNV_OFFSET, s, t, i);
  }

  /** The hash from the end: undoing the last multiplication and taking out the hash of what comes
      before leaves the last byte.  The empty string has the offset basis. */
  lemma FnvReadsBack(s: string, c: char)
    ensures Fnv("") == 2166136261
    ensures Xor(Fnv(s + [c]) * 899433627 % 0x1_0000_0000, Fnv(s)) == c as int % 256
  {
    var h := Fnv(s);
    FnvAppend(FNV_OFFSET, s, c);
    XorOfWords(h, Byte(c));
    PrimeIsInvertible(Xor(h, Byte(c)));
    XorCommutes(h, Byte(c));
    XorCancels(Byte(c), h);
  }

  lemma {:induction false} FnvAppend(h: word, s: string, c: char)
    ensures FnvFrom(h, s + [c]) == FnvStep(FnvFrom(h, s), c)
    decreases |s|
  {
    if s == [] {
      assert s + [c] == [c] && [c][1..] == [];
      assert FnvFrom(FnvStep(h, c), [c][1..]) == FnvStep(h, c);
    } else {
      assert (s + [c])[1..] == s[1..] + [c];
      FnvAppend(FnvStep(h, s[0]), s[1..], c);
    }
  }

  // ---------------------------------------------------------------- which attachments share a name

  /** The names spell it out: the XOR of the offset basis and the three hashes, as eight hexadecimal
      digits behind `sknf` or `tmp`. */
  lemma NamesSpellTheHash(p: PodId)
    ensures var h := Xor(Xor(Xor(2166136261, Fnv(p.netns)), Fnv(p.ifname)), Fnv(p.containerId));
      var digits := HostName(p)[|"sknf"|..];
      && HostName(p) == "sknf" + digits && TmpName(p) == "tmp" + digits
      && |digits| == 8 && AllHexDigits(digits) && HexNumber(digits, 0) == h
  {
    Pow2At32();
    HexReadsBack(Combined(p), 8);
    assert HostName(p)[4..] == Hex(Combined(p), 8);
  }

  /** `%08x` loses nothing: names agree exactly when the combined hashes do. */
  lemma SameNameIsSameHash(p: PodId, q: PodId)
    ensures HostName(p) == HostName(q) <==> Combined(p) == Combined(q)
    ensures TmpName(p) == TmpName(q) <==> Combined(p) == Combined(q)
  {
    assert HostName(p)[4..] == Hex(Combined(p), 8) && HostName(q)[4..] == Hex(Combined(q), 8);
    assert TmpName(p)[3..] == Hex(Combined(p), 8) && TmpName(q)[3..] == Hex(Combined(q), 8);
    Pow2At32();
    if Hex(Combined(p), 8) == Hex(Combined(q), 8) {
      HexOneToOne(Combined(p), Combined(q), 8);
    }
  }

  /** Attachments that differ in one component share a name exactly when that component's hashes
      agree. */
  lemma OneComponentApart(p: PodId, q: PodId)
    ensures p == q.(netns := p.netns) ==> (HostName(p) == HostName(q) <==> Fnv(p.netns) == Fnv(q.netns))
    ensures p == q.(ifname := p.ifname) ==> (HostName(p) == HostName(q) <==> Fnv(p.ifname) == Fnv(q.ifname))
    ensures p == q.(containerId := p.containerId) ==>
      (HostName(p) == HostName(q) <==> Fnv(p.containerId) == Fnv(q.containerId))
  {
    var p1, q1 := Xor(FNV_OFFSET, Fnv(p.netns)), Xor(FNV_OFFSET, Fnv(q.netns));
    var p2, q2 := Xor(p1, Fnv(p.ifname)), Xor(q1, Fnv(q.ifname));
    SameNameIsSameHash(p, q);
    XorOneToOne(Fnv(p.netns), Fnv(q.netns), FNV_OFFSET);
    XorOneToOne(p1, q1, Fnv(p.ifname));
    XorOneToOne(Fnv(p.ifname), Fnv(q.ifname), p1);
    XorOneToOne(p2, q2, Fnv(p.containerId));
    XorOneToOne(Fnv(p.containerId), Fnv(q.containerId), p2);
  }

  /** Changing one byte of one component always changes the interface name. */
  lemma OneByteChangesTheName(p: PodId, q: PodId)
    requires || (OneByteApart(p.netns, q.netns) && p == q.(netns := p.netns))
             || (OneByteApart(p.ifname, q.ifname) && p == q.(ifname := p.ifname))
             || (OneByteApart(p.containerId, q.containerId) && p == q.(containerId := p.containerId))
    ensures HostName(p) != HostName(q) && TmpName(p) != TmpName(q)
  {
    OneComponentApart(p, q);
    SameNameIsSameHash(p, q);
    if OneByteApart(p.netns, q.netns) { FnvSeparates(p.netns, q.netns); }
    if OneByteApart(p.ifname, q.ifname) { FnvSeparates(p.ifname, q.ifname); }
    if OneByteApart(p.containerId, q.containerId) { FnvSeparates(p.containerId, q.containerId); }
  }

  /** The generator cannot be one to one on attachments: XOR forgets which component a hash came
      from, and two equal components cancel. */
  lemma NamesCollide(a: string, b: string, c: string)
    ensures HostName(PodId(a, b, c)) == HostName(PodId(b, a, c))
    ensures HostName(PodId(a, b, c)) == HostName(PodId(a, c, b))
    ensures HostName(PodId(a, a, c)) == HostName(PodId(b, b, c))
  {
    var x, y, z := Fnv(a), Fnv(b), Fnv(c);
    XorSwapsRight(FNV_OFFSET, x, y);
    XorSwapsRight(Xor(FNV_OFFSET, x), y, z);
    XorCancels(FNV_OFFSET, x);
    XorCancels(FNV_OFFSET, y);
  }

  /** Generated names fit `char[16]` and never clash with each other's kind or with the bridge and
      VXLAN names. */
  lemma GeneratedNamesApart(p: PodId, q: PodId)
    ensures |HostName(p)| == 12 && |TmpName(p)| == 11
    ensures HostName(p) != TmpName(q)
    ensures HostName(p) !in {"brsknf", "vxsknf"} && TmpName(p) !in {"brsknf", "vxsknf"}
    ensures '\0' !in HostName(p) && '\0' !in TmpName(p)
  {
    HexHasNoNul(Combined(p), 8);
  }

  lemma {:induction false} HexHasNoNul(x: nat, n: nat)
    ensures '\0' !in Hex(x, n)
  {
    if n > 0 { HexHasNoNul(x / 16, n - 1); }
  }

  // ---------------------------------------------------------------- the code

  method UtilFnv1a32(s: string) returns (h: word)
    requires '\0' !in s
    ensures h == Fnv(s)
  {
    h := FNV_OFFSET;
    var i := 0;
    assert s[0..] == s;
    while i < |s|
      invariant 0 <= i <= |s|
      invariant FnvFrom(h, s[i..]) == Fnv(s)
    {
      assert s[i..][1..] == s[i + 1..];
      XorOfWords(h, Byte(s[i]));
      h := Xor(h, Byte(s[i]));
      h := h * FNV_PRIME % TWO_32;
      i := i + 1;
    }
  }

  /** The XOR chain both generators run. */
  method CombineHashes(p: PodId) returns (h: word)
    requires '\0' !in p.netns && '\0' !in p.ifname && '\0' !in p.containerId
    ensures h == Combined(p)
  {
    CombinedFits(p);
    XorOfWords(FNV_OFFSET, Fnv(p.netns));
    XorOfWords(Xor(FNV_OFFSET, Fnv(p.netns)), Fnv(p.ifname));
    h := FNV_OFFSET;
    var n := UtilFnv1a32(p.netns);
    h := Xor(h, n);
    n := UtilFnv1a32(p.ifname);
    h := Xor(h, n);
    n := UtilFnv1a32(p.containerId);
    h := Xor(h, n);
  }

  method GenerateHostIfName(buffer: array<char>, p: PodId)
    requires buffer.Length == 16
    requires '\0' !in p.netns && '\0' !in p.ifname && '\0' !in p.containerId
    modifies buffer
    ensures CString(buffer[..]) == HostName(p)
  {
    var h := CombineHashes(p);
    GeneratedNamesApart(p, p);
    Strcpy(buffer, "sknf" + Hex(h, 8));
  }

  method GenerateContainerIfTemporaryName(buffer: array<char>, p: PodId)
    requires buffer.Length == 16
    requires '\0' !in p.netns && '\0' !in p.ifname && '\0' !in p.containerId
    modifies buffer
    ensures CString(buffer[..]) == TmpName(p)
  {
    var h := CombineHashes(p);
    GeneratedNamesApart(p, p);
    Strcpy(buffer, "tmp" + Hex(h, 8));
  }
}
