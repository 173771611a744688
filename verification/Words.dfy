/** 32-bit words as the C code uses them: `unsigned`, `uint32_t`, `in_addr.s_addr`.

    A word is a number below 2^32; every operation that can leave that range says how it comes
    back.  The bitwise operators are defined bit by bit from the low end. */
module Words {

  const TWO_32 := 0x1_0000_0000

  type word = x: int | 0 <= x < 0x1_0000_0000

  type int32 = x: int | -0x8000_0000 <= x < 0x8000_0000

  function Pow2(n: nat): (r: nat)
    ensures r > 0
  {
    if n == 0 then 1 else 2 * Pow2(n - 1)
  }

  /** The C expression `x + 1` on `uint32_t`. */
  function Increment(x: word): (r: word)
    ensures r != x
  {
    (x + 1) % TWO_32
  }

  /** The C expression `x << n` on `uint32_t`, for `n` below 32. */
  function ShiftLeft(x: word, n: nat): word {
    (x * Pow2(n)) % TWO_32
  }

  /** The word whose octets, lowest address first, are `a`, `b`, `c` and `d`. */
  function Join(a: nat, b: nat, c: nat, d: nat): (x: word)
    requires a < 256 && b < 256 && c < 256 && d < 256
  {
    a + 256 * (b + 256 * (c + 256 * d))
  }

  /** Octet number `i` of `x`, counted from the low end. */
  function Octet(x: nat, i: nat): (o: nat)
    ensures o < 256
    decreases i
  {
    if i == 0 then x % 256 else Octet(x / 256, i - 1)
  }

  /** `htonl` and `ntohl` on a little-endian machine: the four octets in reverse order. */
  function ByteSwap(x: word): word {
    Join(Octet(x, 3), Octet(x, 2), Octet(x, 1), Octet(x, 0))
  }

  lemma OctetsOfJoin(a: nat, b: nat, c: nat, d: nat)
    requires a < 256 && b < 256 && c < 256 && d < 256
    ensures var x := Join(a, b, c, d);
      Octet(x, 0) == a && Octet(x, 1) == b && Octet(x, 2) == c && Octet(x, 3) == d
  {
    var x := Join(a, b, c, d);
    assert x % 256 == a && x / 256 == b + 256 * (c + 256 * d);
    assert x / 256 / 256 == c + 256 * d;
  }

  lemma JoinOfOctets(x: word)
    ensures Join(Octet(x, 0), Octet(x, 1), Octet(x, 2), Octet(x, 3)) == x
  {
    assert x == x % 256 + 256 * (x / 256);
    assert x / 256 == x / 256 % 256 + 256 * (x / 256 / 256);
    assert x / 256 / 256 == x / 256 / 256 % 256 + 256 * (x / 256 / 256 / 256);
  }

  lemma ByteSwapTwice(x: word)
    ensures ByteSwap(ByteSwap(x)) == x
  {
    OctetsOfJoin(Octet(x, 3), Octet(x, 2), Octet(x, 1), Octet(x, 0));
    JoinOfOctets(x);
  }

  function Xor(x: nat, y: nat): nat {
    if x == 0 && y == 0 then 0
    else (if x % 2 != y % 2 then 1 else 0) + 2 * Xor(x / 2, y / 2)
  }

  function And(x: nat, y: nat): nat {
    if x == 0 || y == 0 then 0
    else (if x % 2 == 1 && y % 2 == 1 then 1 else 0) + 2 * And(x / 2, y / 2)
  }

  lemma {:induction false} XorBound(x: nat, y: nat, n: nat)
    requires x < Pow2(n) && y < Pow2(n)
    ensures Xor(x, y) < Pow2(n)
    decreases n
  {
    if n > 0 { XorBound(x / 2, y / 2, n - 1); }
  }

  lemma {:induction false} XorCommutes(x: nat, y: nat)
    ensures Xor(x, y) == Xor(y, x)
    decreases x + y
  {
    if x != 0 || y != 0 { XorCommutes(x / 2, y / 2); }
  }

  lemma {:induction false} XorCancels(x: nat, y: nat)
    ensures Xor(Xor(x, y), y) == x
    decreases x + y
  {
    if x != 0 || y != 0 {
      XorCancels(x / 2, y / 2);
      XorHalves(x, y);
    }
  }

  lemma {:induction false} XorSwapsRight(x: nat, y: nat, z: nat)
    ensures Xor(Xor(x, y), z) == Xor(Xor(x, z), y)
    decreases x + y + z
  {
    if x != 0 || y != 0 || z != 0 {
      XorSwapsRight(x / 2, y / 2, z / 2);
      XorHalves(x, y);
      XorHalves(x, z);
    }
  }

  lemma XorHalves(x: nat, y: nat)
    ensures Xor(x, y) / 2 == Xor(x / 2, y / 2)
    ensures Xor(x, y) % 2 == if x % 2 != y % 2 then 1 else 0
  {
  }

  /** XOR with a fixed operand on either side is one to one. */
  lemma XorOneToOne(x: nat, y: nat, z: nat)
    ensures Xor(x, z) == Xor(y, z) <==> x == y
    ensures Xor(z, x) == Xor(z, y) <==> x == y
  {
    XorCancels(x, z);
    XorCancels(y, z);
    XorCommutes(x, z);
    XorCommutes(y, z);
  }

  lemma {:induction false} AndBound(x: nat, y: nat)
    ensures And(x, y) <= x
    decreases x
  {
    if x != 0 && y != 0 { AndBound(x / 2, y / 2); }
  }

  lemma AndDouble(x: nat, i: nat, y: nat, j: nat)
    requires i < 2 && j < 2
    ensures And(2 * x + i, 2 * y + j) == (if i == 1 && j == 1 then 1 else 0) + 2 * And(x, y)
  {
    assert (2 * x + i) / 2 == x && (2 * x + i) % 2 == i;
    assert (2 * y + j) / 2 == y && (2 * y + j) % 2 == j;
  }

  /** `x * 2^n`, by doubling. */
  function Scale(x: nat, n: nat): nat {
    if n == 0 then x else 2 * Scale(x, n - 1)
  }

  /** AND works on the low `n` bits and on the rest separately. */
  lemma {:induction false} AndSplits(a: nat, b: nat, c: nat, d: nat, n: nat)
    requires a < Pow2(n) && c < Pow2(n)
    ensures And(a + Scale(b, n), c + Scale(d, n)) == And(a, c) + Scale(And(b, d), n)
    decreases n
  {
    AndOfZero(a, c);
    hide And;
    if n > 0 {
      AndSplits(a / 2, b, c / 2, d, n - 1);
      AndOfSums(a / 2, a % 2, Scale(b, n - 1), c / 2, c % 2, Scale(d, n - 1));
      assert 2 * (a / 2) + a % 2 == a && 2 * (c / 2) + c % 2 == c;
    }
  }

  lemma AndOfZero(x: nat, y: nat)
    ensures x == 0 || y == 0 ==> And(x, y) == 0
  {
  }

  lemma AndOfSums(a: nat, i: nat, s: nat, c: nat, j: nat, t: nat)
    requires i < 2 && j < 2
    ensures And(2 * a + i + 2 * s, 2 * c + j + 2 * t) - And(2 * a + i, 2 * c + j) == 2 * (And(a + s, c + t) - And(a, c))
  {
    AndDouble(a, i, c, j);
    AndDouble(a + s, i, c + t, j);
    assert 2 * a + i + 2 * s == 2 * (a + s) + i && 2 * c + j + 2 * t == 2 * (c + t) + j;
  }

  lemma AndOfOctet(a: nat, b: nat, c: nat, d: nat)
    requires a < 256 && c < 256
    ensures And(a + 256 * b, c + 256 * d) == And(a, c) + 256 * And(b, d)
  {
    Pow2At32();
    ScaleBy256(b);
    ScaleBy256(d);
    ScaleBy256(And(b, d));
    AndSplits(a, b, c, d, 8);
  }

  lemma ScaleBy256(x: nat)
    ensures Scale(x, 8) == 256 * x
  {
    assert Scale(x, 1) == 2 * x;
    assert Scale(x, 2) == 4 * x;
    assert Scale(x, 4) == 4 * Scale(x, 2);
    assert Scale(x, 6) == 4 * Scale(x, 4);
    assert Scale(x, 8) == 4 * Scale(x, 6);
  }

  /** AND commutes with the change of byte order. */
  lemma AndOfSwapped(x: word, y: word)
    ensures And(x, y) < TWO_32
    ensures And(ByteSwap(x), ByteSwap(y)) == ByteSwap(And(x, y))
  {
    AndBound(x, y);
    AndOfJoined(Octet(x, 0), Octet(x, 1), Octet(x, 2), Octet(x, 3),
                Octet(y, 0), Octet(y, 1), Octet(y, 2), Octet(y, 3));
    AndOfJoined(Octet(x, 3), Octet(x, 2), Octet(x, 1), Octet(x, 0),
                Octet(y, 3), Octet(y, 2), Octet(y, 1), Octet(y, 0));
    JoinOfOctets(x);
    JoinOfOctets(y);
    OctetsOfJoin(And(Octet(x, 0), Octet(y, 0)), And(Octet(x, 1), Octet(y, 1)),
                 And(Octet(x, 2), Octet(y, 2)), And(Octet(x, 3), Octet(y, 3)));
  }

  lemma AndOfJoined(a: nat, b: nat, c: nat, d: nat, e: nat, f: nat, g: nat, h: nat)
    requires a < 256 && b < 256 && c < 256 && d < 256
    requires e < 256 && f < 256 && g < 256 && h < 256
    ensures And(a, e) < 256 && And(b, f) < 256 && And(c, g) < 256 && And(d, h) < 256
    ensures And(Join(a, b, c, d), Join(e, f, g, h)) == Join(And(a, e), And(b, f), And(c, g), And(d, h))
  {
    AndBound(a, e); AndBound(b, f); AndBound(c, g); AndBound(d, h);
    AndOfFour(a, b, c, d, e, f, g, h);
  }

  lemma AndOfFour(a: nat, b: nat, c: nat, d: nat, e: nat, f: nat, g: nat, h: nat)
    requires a < 256 && b < 256 && c < 256 && e < 256 && f < 256 && g < 256
    ensures And(a + 256 * (b + 256 * (c + 256 * d)), e + 256 * (f + 256 * (g + 256 * h)))
         == And(a, e) + 256 * (And(b, f) + 256 * (And(c, g) + 256 * And(d, h)))
  {
    AndOfOctet(c, d, g, h);
    AndOfLayers(a, b, c + 256 * d, e, f, g + 256 * h);
  }

  lemma AndOfLayers(a: nat, b: nat, x: nat, e: nat, f: nat, y: nat)
    requires a < 256 && b < 256 && e < 256 && f < 256
    ensures And(a + 256 * (b + 256 * x), e + 256 * (f + 256 * y)) == And(a, e) + 256 * (And(b, f) + 256 * And(x, y))
  {
    AndOfOctet(b, x, f, y);
    AndOfOctet(a, b + 256 * x, e, f + 256 * y);
  }

  /** `x` with its low `k` bits cleared. */
  function ClearLow(x: nat, k: nat): nat {
    if k == 0 then x else 2 * ClearLow(x / 2, k - 1)
  }

  lemma {:induction false} AndWithOnes(x: nat, n: nat)
    requires x < Pow2(n)
    ensures And(x, Pow2(n) - 1) == x
    decreases n
  {
    if n > 0 {
      AndWithOnes(x / 2, n - 1);
      AndDouble(x / 2, x % 2, Pow2(n - 1) - 1, 1);
    }
  }

  /** ANDing with the mask whose bits `k .. n-1` are set clears the low `k` bits. */
  lemma {:induction false} AndWithMask(x: nat, n: nat, k: nat)
    requires x < Pow2(n) && k <= n
    ensures Pow2(k) <= Pow2(n)
    ensures And(x, Pow2(n) - Pow2(k)) == ClearLow(x, k)
    decreases k
  {
    if k == 0 {
      AndWithOnes(x, n);
    } else {
      AndWithMask(x / 2, n - 1, k - 1);
      AndDouble(x / 2, x % 2, Pow2(n - 1) - Pow2(k - 1), 0);
    }
  }

  lemma QuotientIs(x: int, m: nat, q: int, r: int)
    requires m > 0 && x == m * q + r && 0 <= r < m
    ensures x / m == q && x % m == r
  {
    if x / m > q {
      MultipleGrows(m, q + 1, x / m);
    } else if x / m < q {
      MultipleGrows(m, x / m + 1, q);
    }
  }

  lemma MultipleGrows(m: nat, p: int, q: int)
    requires p <= q
    ensures m * p <= m * q
    ensures m * (p - 1) == m * p - m && m * (p + 1) == m * p + m
  {
  }

  lemma DivideTwice(x: nat, m: nat)
    requires m > 0
    ensures x / 2 / m == x / (2 * m)
  {
    var q, r := x / 2 / m, x / 2 % m;
    assert x / 2 == m * q + r;
    assert x == 2 * (m * q) + (2 * r + x % 2);
    assert (2 * m) * q == 2 * (m * q);
    QuotientIs(x, 2 * m, q, 2 * r + x % 2);
  }

  /** Words agree after their low `k` bits are cleared exactly when they agree divided by `2^k`. */
  lemma {:induction false} SameBlock(x: nat, y: nat, k: nat)
    ensures ClearLow(x, k) == ClearLow(y, k) <==> x / Pow2(k) == y / Pow2(k)
    decreases k
  {
    if k > 0 {
      SameBlock(x / 2, y / 2, k - 1);
      DivideTwice(x, Pow2(k - 1));
      DivideTwice(y, Pow2(k - 1));
    }
  }

  lemma Pow2At32()
    ensures Pow2(8) == 256 && Pow2(32) == TWO_32
  {
    Pow2Steps(0); Pow2Steps(4); Pow2Steps(8); Pow2Steps(12);
    Pow2Steps(16); Pow2Steps(20); Pow2Steps(24); Pow2Steps(28);
  }

  lemma Pow2Steps(n: nat)
    ensures Pow2(n + 4) == 16 * Pow2(n)
  {
    assert Pow2(n + 2) == 4 * Pow2(n);
  }

  lemma {:induction false} Pow2Grows(m: nat, n: nat)
    requires m <= n
    ensures Pow2(m) <= Pow2(n)
    decreases n - m
  {
    if m < n { Pow2Grows(m, n - 1); }
  }

  lemma {:induction false} Pow2Product(m: nat, n: nat)
    ensures Pow2(m + n) == Pow2(m) * Pow2(n)
    decreases n
  {
    if n > 0 {
      Pow2Product(m, n - 1);
      DoubleOfProduct(Pow2(m), Pow2(n - 1));
    }
  }

  lemma DoubleOfProduct(x: nat, y: nat)
    ensures 2 * (x * y) == x * (2 * y)
  {
  }
}
