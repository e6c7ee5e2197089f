/**
 * The 32-bit words of the hash and the generator, as numbers below 2^32. The
 * program's bit operations work modulo 2^32, whichever sign it prints them with.
 */
module Word32 {
  import opened Arithmetic
  import opened Prelude

  const TWO_32: nat := 0x1_0000_0000

  type Word = w: nat | w < TWO_32

  /** Bit by bit, from the lowest: 1 where exactly one operand has a 1. */
  function XorBits(x: nat, y: nat): nat {
    if x == 0 && y == 0 then 0 else 2 * XorBits(x / 2, y / 2) + XorBit(x % 2, y % 2)
  }

  /** Bit by bit, from the lowest: 1 where some operand has a 1. */
  function OrBits(x: nat, y: nat): nat {
    if x == 0 && y == 0 then 0 else 2 * OrBits(x / 2, y / 2) + (if x % 2 + y % 2 > 0 then 1 else 0)
  }

  lemma {:induction false} BitsStayInWidth(x: nat, y: nat, width: nat)
    requires x < TwoTo(width) && y < TwoTo(width)
    ensures XorBits(x, y) < TwoTo(width) && OrBits(x, y) < TwoTo(width)
    decreases width
  {
    if x != 0 || y != 0 {
      BitsStayInWidth(x / 2, y / 2, width - 1);
    }
  }

  lemma WordWidth()
    ensures TwoTo(32) == TWO_32
  {
    assert TwoTo(8) == 256;
    assert TwoTo(16) == 65536 by { assert TwoTo(12) == 4096; }
    assert TwoTo(24) == 0x100_0000 by { assert TwoTo(20) == 0x10_0000; }
    assert TwoTo(28) == 0x1000_0000;
  }

  function Xor(x: Word, y: Word): Word {
    WordWidth();
    BitsStayInWidth(x, y, 32);
    XorBits(x, y)
  }

  function Or(x: Word, y: Word): Word {
    WordWidth();
    BitsStayInWidth(x, y, 32);
    OrBits(x, y)
  }

  /** Multiplication that keeps the low 32 bits. */
  function Imul(x: Word, y: Word): Word {
    x * y % TWO_32
  }

  function Add(x: Word, y: Word): Word {
    (x + y) % TWO_32
  }

  lemma RemainderIs(n: int, q: int, r: Word)
    requires n == q * TWO_32 + r
    ensures n % TWO_32 == r && n / TWO_32 == q
  {
  }

  function XorBit(a: nat, b: nat): nat {
    if a == b then 0 else 1
  }

  lemma XorUnfolds(x: nat, y: nat)
    ensures XorBits(x, y) == 2 * XorBits(x / 2, y / 2) + XorBit(x % 2, y % 2)
    ensures XorBits(x, y) / 2 == XorBits(x / 2, y / 2) && XorBits(x, y) % 2 == XorBit(x % 2, y % 2)
  {
  }

  lemma XorBitTwice(a: nat, b: nat)
    requires a < 2 && b < 2
    ensures XorBit(XorBit(a, b), b) == a
  {
  }

  lemma {:induction false} XorTwice(x: nat, y: nat)
    ensures XorBits(XorBits(x, y), y) == x
    decreases x + y
  {
    if x != 0 || y != 0 {
      XorUnfolds(x, y);
      XorUnfolds(XorBits(x, y), y);
      XorTwice(x / 2, y / 2);
      XorBitTwice(x % 2, y % 2);
    }
  }

  lemma {:induction false} XorCommutes(x: nat, y: nat)
    ensures XorBits(x, y) == XorBits(y, x)
    decreases x + y
  {
    if x != 0 || y != 0 {
      XorCommutes(x / 2, y / 2);
    }
  }

  // ----- What the operations do to each bit -----

  /** Bit k, from the lowest. */
  function Bit(x: nat, k: nat): nat {
    if k == 0 then x % 2 else Bit(x / 2, k - 1)
  }

  /** Exclusive or, bit for bit. */
  lemma {:induction false} XorIsBitwise(x: nat, y: nat, k: nat)
    ensures Bit(XorBits(x, y), k) == if Bit(x, k) == Bit(y, k) then 0 else 1
    decreases k
  {
    XorUnfolds(x, y);
    if k > 0 {
      XorIsBitwise(x / 2, y / 2, k - 1);
    }
  }

  lemma OrUnfolds(x: nat, y: nat)
    ensures OrBits(x, y) / 2 == OrBits(x / 2, y / 2)
    ensures OrBits(x, y) % 2 == if x % 2 == 1 || y % 2 == 1 then 1 else 0
  {
  }

  /** Or, bit for bit. */
  lemma {:induction false} OrIsBitwise(x: nat, y: nat, k: nat)
    ensures Bit(OrBits(x, y), k) == if Bit(x, k) == 1 || Bit(y, k) == 1 then 1 else 0
    decreases k
  {
    OrUnfolds(x, y);
    if k > 0 {
      OrIsBitwise(x / 2, y / 2, k - 1);
    }
  }

  /** Halving moves every bit down one place, so dividing by p = 2^n is a shift by n. */
  lemma {:induction false} DivisionShifts(x: nat, n: nat, p: nat, k: nat)
    requires p == TwoTo(n)
    ensures Bit(Over(x, p), k) == Bit(x, n + k)
    decreases n
  {
    if n == 0 {
      OverIs(x, p, x);
    } else {
      var q := TwoTo(n - 1);
      HalfThenRest(x, p, q);
      DivisionShifts(x / 2, n - 1, q, k);
    }
  }

  lemma HalfThenRest(x: nat, p: nat, q: nat)
    requires q > 0 && p == 2 * q
    ensures Over(x, p) == Over(x / 2, q)
  {
    var d := Over(x / 2, q);
    assert d * p == 2 * (d * q);
    OverIs(x, p, d);
  }

  // ----- Words put together from two parts -----

  /** x with k zero bits put below it. */
  function Up(x: nat, k: nat): nat {
    if k == 0 then x else 2 * Up(x, k - 1)
  }

  lemma XorPush(x: nat, y: nat, a: nat, b: nat, x': nat, y': nat)
    requires x' == 2 * x + a % 2 && y' == 2 * y + b % 2
    ensures XorBits(x', y') == 2 * XorBits(x, y) + XorBit(a % 2, b % 2)
  {
    assert x' / 2 == x && y' / 2 == y;
  }

  /** Words are combined part by part, wherever they are split. */
  lemma {:induction false} XorSplit(k: nat, x: nat, a: nat, y: nat, b: nat, x': nat, y': nat, z: nat)
    requires a < TwoTo(k) && b < TwoTo(k) && x' == Up(x, k) + a && y' == Up(y, k) + b
    requires z == Up(XorBits(x, y), k) + XorBits(a, b)
    ensures XorBits(x', y') == z
    decreases k
  {
    if k == 0 {
      assert a == 0 && b == 0;
    } else {
      var x1, y1 := Up(x, k - 1) + a / 2, Up(y, k - 1) + b / 2;
      XorSplit(k - 1, x, a / 2, y, b / 2, x1, y1, Up(XorBits(x, y), k - 1) + XorBits(a / 2, b / 2));
      XorPush(x1, y1, a, b, x', y');
      XorPush(a / 2, b / 2, a, b, a, b);
    }
  }

  lemma {:induction false} UpIsProduct(x: nat, k: nat, p: nat)
    requires p == TwoTo(k)
    ensures Up(x, k) == p * x
  {
    if k > 0 {
      var q := TwoTo(k - 1);
      UpIsProduct(x, k - 1, q);
      assert p * x == 2 * (q * x);
    }
  }

  lemma XorParts(k: nat, p: nat, x: nat, a: nat, y: nat, b: nat, high: nat, low: nat)
    requires p == TwoTo(k) && a < p && b < p && XorBits(x, y) == high && XorBits(a, b) == low
    ensures XorBits(p * x + a, p * y + b) == p * high + low
  {
    UpIsProduct(x, k, p);
    UpIsProduct(y, k, p);
    UpIsProduct(high, k, p);
    XorSplit(k, x, a, y, b, p * x + a, p * y + b, p * high + low);
  }

  lemma OrPush(x: nat, y: nat, a: nat, b: nat, x': nat, y': nat)
    requires x' == 2 * x + a % 2 && y' == 2 * y + b % 2
    ensures OrBits(x', y') == 2 * OrBits(x, y) + if a % 2 == 1 || b % 2 == 1 then 1 else 0
  {
    assert x' / 2 == x && y' / 2 == y;
  }

  lemma {:induction false} OrSplit(k: nat, x: nat, a: nat, y: nat, b: nat, x': nat, y': nat, z: nat)
    requires a < TwoTo(k) && b < TwoTo(k) && x' == Up(x, k) + a && y' == Up(y, k) + b
    requires z == Up(OrBits(x, y), k) + OrBits(a, b)
    ensures OrBits(x', y') == z
    decreases k
  {
    if k == 0 {
      assert a == 0 && b == 0;
    } else {
      var x1, y1 := Up(x, k - 1) + a / 2, Up(y, k - 1) + b / 2;
      OrSplit(k - 1, x, a / 2, y, b / 2, x1, y1, Up(OrBits(x, y), k - 1) + OrBits(a / 2, b / 2));
      OrPush(x1, y1, a, b, x', y');
      OrPush(a / 2, b / 2, a, b, a, b);
    }
  }

  lemma OrParts(k: nat, p: nat, x: nat, a: nat, y: nat, b: nat, high: nat, low: nat)
    requires p == TwoTo(k) && a < p && b < p && OrBits(x, y) == high && OrBits(a, b) == low
    ensures OrBits(p * x + a, p * y + b) == p * high + low
  {
    UpIsProduct(x, k, p);
    UpIsProduct(y, k, p);
    UpIsProduct(high, k, p);
    OrSplit(k, x, a, y, b, p * x + a, p * y + b, p * high + low);
  }

  lemma {:induction false} WithZero(x: nat)
    ensures XorBits(x, 0) == x && XorBits(0, x) == x && OrBits(x, 0) == x && OrBits(0, x) == x
  {
    if x > 0 {
      WithZero(x / 2);
    }
  }
}

/** The 32-bit string hash and the small generator behind the daily challenge. */
module SeededRandom {
  import opened Word32

  /** A UTF-16 code unit. */
  type CodeUnit = c: nat | c < 0x1_0000

  const FNV_OFFSET: Word := 0x811c9dc5
  const FNV_PRIME: Word := 0x01000193
  // FNV_PRIME * FNV_PRIME_INVERSE == 1 + FNV_QUOTIENT * 2^32
  const FNV_PRIME_INVERSE: nat := 0x359c449b
  const FNV_QUOTIENT: nat := 3513497

  function HashStep(hash: Word, c: CodeUnit): Word {
    Imul(Xor(hash, c), FNV_PRIME)
  }

  function HashFrom(hash: Word, s: seq<CodeUnit>): Word {
    if s == [] then hash else HashStep(HashFrom(hash, s[..|s| - 1]), s[|s| - 1])
  }

  method HashSeed(seed: seq<CodeUnit>) returns (hash: Word)
    ensures hash == HashFrom(FNV_OFFSET, seed)
  {
    hash := FNV_OFFSET;
    for i := 0 to |seed|
      invariant hash == HashFrom(FNV_OFFSET, seed[..i])
    {
      assert seed[..i + 1][..i] == seed[..i];
      hash := Xor(hash, seed[i]);
      hash := Imul(hash, FNV_PRIME);
    }
    assert seed[..|seed|] == seed;
  }

  /** Multiplying by the prime loses nothing: it is invertible modulo 2^32. */
  lemma PrimeIsInvertible(x: Word)
    ensures Imul(x, FNV_PRIME) * FNV_PRIME_INVERSE % TWO_32 == x
  {
    var q := x * FNV_PRIME / TWO_32;
    var y := x * FNV_PRIME - q * TWO_32;
    assert y == Imul(x, FNV_PRIME);
    RemainderIs(y * FNV_PRIME_INVERSE, x * FNV_QUOTIENT - q * FNV_PRIME_INVERSE, x);
  }

  /** One hash step is injective in the state, and in the code unit. */
  lemma HashStepIsInjective(g: Word, h: Word, c: CodeUnit, d: CodeUnit)
    requires HashStep(g, c) == HashStep(h, d)
    ensures g == h <==> c == d
  {
    PrimeIsInvertible(Xor(g, c));
    PrimeIsInvertible(Xor(h, d));
    assert XorBits(g, c) == XorBits(h, d);
    XorTwice(g, c);
    XorTwice(h, d);
    XorCommutes(g, c);
    XorCommutes(h, d);
    XorTwice(c, g);
    XorTwice(d, h);
  }

  lemma {:induction false} HashAppend(hash: Word, a: seq<CodeUnit>, b: seq<CodeUnit>)
    ensures HashFrom(hash, a + b) == HashFrom(HashFrom(hash, a), b)
    decreases |b|
  {
    if b == [] {
      assert a + b == a;
    } else {
      HashAppend(hash, a, b[..|b| - 1]);
      assert (a + b)[..|a + b| - 1] == a + b[..|b| - 1];
    }
  }

  lemma {:induction false} HashIsInjectiveInTheState(g: Word, h: Word, s: seq<CodeUnit>)
    requires HashFrom(g, s) == HashFrom(h, s)
    ensures g == h
  {
    if s != [] {
      var n := |s| - 1;
      HashStepIsInjective(HashFrom(g, s[..n]), HashFrom(h, s[..n]), s[n], s[n]);
      HashIsInjectiveInTheState(g, h, s[..n]);
    }
  }

  /** A shared suffix neither makes nor hides a collision, whatever the lengths before it. */
  lemma SuffixKeepsCollisions(a: seq<CodeUnit>, b: seq<CodeUnit>, suffix: seq<CodeUnit>)
    ensures HashFrom(FNV_OFFSET, a + suffix) == HashFrom(FNV_OFFSET, b + suffix)
       <==> HashFrom(FNV_OFFSET, a) == HashFrom(FNV_OFFSET, b)
  {
    HashAppend(FNV_OFFSET, a, suffix);
    HashAppend(FNV_OFFSET, b, suffix);
    if HashFrom(FNV_OFFSET, a + suffix) == HashFrom(FNV_OFFSET, b + suffix) {
      HashIsInjectiveInTheState(HashFrom(FNV_OFFSET, a), HashFrom(FNV_OFFSET, b), suffix);
    }
  }

  /** Changing exactly one code unit always changes the hash. */
  lemma OneUnitChangesTheHash(s: seq<CodeUnit>, k: nat, c: CodeUnit)
    requires k < |s| && s[k] != c
    ensures HashFrom(FNV_OFFSET, s) != HashFrom(FNV_OFFSET, s[k := c])
  {
    var before, after := s[..k], s[k + 1..];
    assert s == before + [s[k]] + after;
    assert s[k := c] == before + [c] + after;
    SuffixKeepsCollisions(before + [s[k]], before + [c], after);
    assert (before + [s[k]])[..k] == before && (before + [c])[..k] == before;
    if HashFrom(FNV_OFFSET, before + [s[k]]) == HashFrom(FNV_OFFSET, before + [c]) {
      HashStepIsInjective(HashFrom(FNV_OFFSET, before), HashFrom(FNV_OFFSET, before), s[k], c);
    }
  }

  // ----- mulberry32 -----

  const INCREMENT: Word := 0x6d2b79f5

  /** The state after k calls. */
  function StateAfter(seed: Word, k: nat): Word {
    (seed + k * INCREMENT) % TWO_32
  }

  function MixFirst(t: Word): Word {
    Imul(Xor(t, t / 0x8000), Or(t, 1))
  }

  function MixSecond(u: Word): Word {
    Xor(u, Add(u, Imul(Xor(u, u / 0x80), Or(u, 61))))
  }

  function MixThird(v: Word): Word {
    Xor(v, v / 0x4000)
  }

  function Mix(state: Word): Word {
    MixThird(MixSecond(MixFirst(state)))
  }

  /** The k-th number drawn, for k from 1. */
  function Drawn(seed: Word, k: nat): (r: real)
    ensures 0.0 <= r < 1.0
  {
    Mix(StateAfter(seed, k)) as real / TWO_32 as real
  }

  class Generator {
    var state: Word
    ghost const seed: Word
    ghost var calls: nat

    ghost predicate Valid()
      reads this
    {
      state == StateAfter(seed, calls)
    }

    constructor (seed: Word)
      ensures Valid() && this.seed == seed && calls == 0
    {
      this.state := seed;
      this.seed := seed;
      this.calls := 0;
    }

    method Next() returns (r: real)
      requires Valid()
      modifies this
      ensures Valid() && calls == old(calls) + 1
      ensures r == Drawn(seed, calls)
    {
      NextState(seed, calls);
      calls := calls + 1;
      state := Add(state, INCREMENT);
      var t := state;
      t := Imul(Xor(t, t / 0x8000), Or(t, 1));
      t := Xor(t, Add(t, Imul(Xor(t, t / 0x80), Or(t, 61))));
      r := Xor(t, t / 0x4000) as real / TWO_32 as real;
    }
  }

  lemma NextState(seed: Word, k: nat)
    ensures StateAfter(seed, k + 1) == Add(StateAfter(seed, k), INCREMENT)
  {
    var a := seed + k * INCREMENT;
    var sum := StateAfter(seed, k) + INCREMENT;
    RemainderIs(a + INCREMENT, a / TWO_32 + sum / TWO_32, sum % TWO_32);
  }

  // INVERSE * INCREMENT == 1 + INVERSE_QUOTIENT * 2^32
  const INVERSE: nat := 3696798301
  const INVERSE_QUOTIENT: nat := 1576479847

  /** No state comes back within 2^32 calls, ... */
  lemma StatesAreDistinct(seed: Word, i: nat, j: nat)
    requires i < j < i + TWO_32
    ensures StateAfter(seed, i) != StateAfter(seed, j)
  {
    var a, b, d := seed + i * INCREMENT, seed + j * INCREMENT, j - i;
    var q := b / TWO_32 - a / TWO_32;
    assert INVERSE * INCREMENT == 1 + INVERSE_QUOTIENT * TWO_32;
    assert b - a == d * INCREMENT;
    assert a % TWO_32 == b % TWO_32 ==> d * INCREMENT == q * TWO_32;
    assert d * INCREMENT == q * TWO_32 ==> d == TWO_32 * (q * INVERSE - d * INVERSE_QUOTIENT);
  }

  /** ... the 2^32 states in a row are all the 32-bit values, ... */
  lemma EveryStateIsReached(seed: Word, v: Word) returns (k: nat)
    ensures k < TWO_32 && StateAfter(seed, k) == v
  {
    var wanted := (v - seed) * INVERSE;
    k := wanted % TWO_32;
    var w := wanted / TWO_32;
    assert k == wanted - w * TWO_32;
    RemainderIs(seed + k * INCREMENT, (v - seed) * INVERSE_QUOTIENT - w * INCREMENT, v);
  }

  /** ... and the next call starts over. */
  lemma PeriodIsFull(seed: Word, k: nat)
    ensures StateAfter(seed, k + TWO_32) == StateAfter(seed, k)
  {
    var a := seed + k * INCREMENT;
    RemainderIs(seed + (k + TWO_32) * INCREMENT, a / TWO_32 + INCREMENT, a % TWO_32);
  }
}

/** The daily selection: a sorted pool, shuffled in place as far as needed. */
module DailyPick {
  import opened Arithmetic
  import opened Prelude
  import opened Sorting
  import opened Word32
  import opened SeededRandom

  // ----- The shuffle as a function of its draws -----

  /** Draw i picks one of the positions not yet settled. */
  predicate ValidDraws(draws: seq<nat>, n: nat) {
    |draws| <= n && forall i :: 0 <= i < |draws| ==> draws[i] < n - i
  }

  /** The pool with position d brought to the front, front dropped. */
  function Rest<T>(pool: seq<T>, d: nat): seq<T>
    requires d < |pool|
  {
    pool[d := pool[0]][1..]
  }

  function Pick<T>(pool: seq<T>, draws: seq<nat>): seq<T>
    requires ValidDraws(draws, |pool|)
    decreases |draws|
  {
    if draws == [] then []
    else
      RestOfDraws(draws, |pool|);
      [pool[draws[0]]] + Pick(Rest(pool, draws[0]), draws[1..])
  }

  lemma RestOfDraws(draws: seq<nat>, n: nat)
    requires draws != [] && ValidDraws(draws, n)
    ensures draws[0] < n && ValidDraws(draws[1..], n - 1)
  {
    forall i | 0 <= i < |draws[1..]|
      ensures draws[1..][i] < n - 1 - i
    {
      assert draws[1..][i] == draws[i + 1];
    }
  }

  /** d is u times k, rounded down. */
  predicate FloorOf(u: real, k: nat, d: nat) {
    d as real <= u * k as real < d as real + 1.0
  }

  /** floor(u * k) for a fraction u: a position below k. */
  function PositionBelow(u: real, k: nat): (d: nat)
    requires 0.0 <= u < 1.0 && k > 0
    ensures d < k
    ensures FloorOf(u, k, d)
  {
    assert 0.0 <= u * k as real < k as real;
    (u * k as real).Floor
  }

  /** The offset drawn for position i of n. */
  function Offset(seed: Word, i: nat, n: nat): (d: nat)
    requires i < n
    ensures d < n - i
  {
    PositionBelow(Drawn(seed, i + 1), n - i)
  }

  function Draws(seed: Word, n: nat, take: nat): (draws: seq<nat>)
    requires take <= n
    ensures |draws| == take && ValidDraws(draws, n)
  {
    seq(take, i requires 0 <= i < take => Offset(seed, i, n))
  }

  /** m 2^32-ths of k, rounded down. */
  function Stretched(m: Word, k: nat): (d: nat)
    ensures k > 0 ==> d < k
  {
    if k == 0 then 0
    else
      ProductOrder(m + 1, TWO_32, k);
      OverIsBelow(m * k, TWO_32, k);
      Over(m * k, TWO_32)
  }

  /** The i-th offset is the i-th number drawn, stretched over the positions left and rounded down. */
  lemma DrawsAreFloors(seed: Word, n: nat, take: nat, i: nat, u: real)
    requires i < take <= n && u == Drawn(seed, i + 1)
    ensures FloorOf(u, n - i, Draws(seed, n, take)[i])
  {
    assert Draws(seed, n, take)[i] == PositionBelow(u, n - i);
  }

  /** The same in whole numbers. */
  lemma DrawsAreStretched(seed: Word, n: nat, take: nat, i: nat, m: Word)
    requires i < take <= n && Drawn(seed, i + 1) == m as real / TWO_32 as real
    ensures Draws(seed, n, take)[i] == Stretched(m, n - i)
  {
    var u := m as real / TWO_32 as real;
    DrawsAreFloors(seed, n, take, i, u);
    FloorOfRatio(u, m, n - i, Draws(seed, n, take)[i]);
  }

  lemma FloorOfRatio(u: real, m: Word, k: nat, d: nat)
    requires k > 0 && u == m as real / TWO_32 as real && FloorOf(u, k, d)
    ensures d == Stretched(m, k)
  {
    var t := TWO_32 as real;
    assert u * t == m as real;
    assert u * k as real * t == (m * k) as real by {
      assert u * k as real * t == u * t * k as real;
    }
    assert (d * TWO_32) as real <= (m * k) as real < ((d + 1) * TWO_32) as real;
    OverIs(m * k, TWO_32, d);
  }

  /** Every position below k is the one some fraction of 2^32 leads to, for every k up to 2^32. */
  lemma EveryPositionIsDrawn(k: nat, d: nat) returns (m: Word)
    requires d < k <= TWO_32
    ensures Stretched(m, k) == d
  {
    var n := d * TWO_32 + k - 1;
    ProductOrder(d + 1, k, TWO_32);
    OverIsBelow(n, k, TWO_32);
    m := Over(n, k);
    OverIs(m * k, TWO_32, d);
  }

  /** Keeping the first k elements, where a negative k counts from the end. */
  function SliceTo<T>(s: seq<T>, k: int): seq<T>
    requires k <= |s|
  {
    if k >= 0 then s[..k] else s[..Max(|s| + k, 0)]
  }

  function Picked(ids: seq<int>, count: int, seed: Word): seq<int> {
    var pool := Sort(ids);
    if count >= 0 then Pick(pool, Draws(seed, |pool|, Min(count, |pool|))) else SliceTo(pool, count)
  }

  method PickDeterministic(ids: seq<int>, count: int, seed: seq<CodeUnit>) returns (r: seq<int>)
    ensures r == Picked(ids, count, HashFrom(FNV_OFFSET, seed))
  {
    var sorted := Sort(ids);
    var n := |sorted|;
    var pool := new int[n](i requires 0 <= i < n => sorted[i]);
    assert pool[..] == sorted;
    var hash := HashSeed(seed);
    var random := new Generator(hash);
    var take := Min(count, n);
    if take >= 0 {
      Shuffle(pool, take, random);
      r := pool[..take];
    } else {
      r := pool[..Max(n + take, 0)];
    }
  }

  /** Partial Fisher-Yates, in place: only the first `take` positions are settled. */
  method Shuffle(pool: array<int>, take: nat, random: Generator)
    requires take <= pool.Length && random.Valid() && random.calls == 0
    modifies pool, random
    ensures pool[..take] == Pick(old(pool[..]), Draws(random.seed, pool.Length, take))
  {
    ghost var sorted := pool[..];
    ghost var draws := Draws(random.seed, pool.Length, take);
    var i := 0;
    while i < take
      invariant i <= take
      invariant random.Valid() && random.calls == i
      invariant Settled(sorted, pool[..], draws, i)
    {
      var u := random.Next();
      var j := i + PositionBelow(u, pool.Length - i);
      ghost var before := pool[..];
      pool[i], pool[j] := pool[j], pool[i];
      SwapSettles(sorted, before, pool[..], draws, i, j);
      i := i + 1;
    }
    assert draws[take..] == [];
  }

  /** The first i positions hold the first i picks, and the rest of the picks come from the rest of the pool. */
  ghost predicate Settled<T>(sorted: seq<T>, pool: seq<T>, draws: seq<nat>, i: nat) {
    && |pool| == |sorted| && ValidDraws(draws, |sorted|)
    && i <= |draws| && ValidDraws(draws[i..], |pool| - i)
    && pool[..i] + Pick(pool[i..], draws[i..]) == Pick(sorted, draws)
  }

  lemma SwapInSlice<T>(before: seq<T>, after: seq<T>, i: nat, j: nat)
    requires i <= j < |before| && after == before[i := before[j]][j := before[i]]
    ensures Rest(before[i..], j - i) == after[i + 1..]
    ensures after[..i + 1] == before[..i] + [before[j]]
  {
  }

  /** One swap settles position i as the picked element. */
  lemma SwapSettles<T>(sorted: seq<T>, before: seq<T>, after: seq<T>, draws: seq<nat>, i: nat, j: nat)
    requires i < |draws| && Settled(sorted, before, draws, i)
    requires i <= j < |before| && draws[i] == j - i
    requires after == before[i := before[j]][j := before[i]]
    ensures Settled(sorted, after, draws, i + 1)
  {
    assert draws[i..][1..] == draws[i + 1..];
    RestOfDraws(draws[i..], |before| - i);
    SwapInSlice(before, after, i, j);
    var more := Pick(after[i + 1..], draws[i + 1..]);
    assert Pick(before[i..], draws[i..]) == [before[j]] + more;
    assert before[..i] + ([before[j]] + more) == before[..i] + [before[j]] + more;
  }

  // ----- What the selection is -----

  /** Only members, each at most as often as the pool holds it. */
  lemma {:induction false} PickIsFromThePool<T>(pool: seq<T>, draws: seq<nat>)
    requires ValidDraws(draws, |pool|)
    ensures |Pick(pool, draws)| == |draws|
    ensures multiset(Pick(pool, draws)) <= multiset(pool)
    decreases |draws|
  {
    if draws != [] {
      RestOfDraws(draws, |pool|);
      RestRemovesOne(pool, draws[0]);
      PickIsFromThePool(Rest(pool, draws[0]), draws[1..]);
    }
  }

  lemma RestRemovesOne<T>(pool: seq<T>, d: nat)
    requires d < |pool|
    ensures multiset(pool) == multiset{pool[d]} + multiset(Rest(pool, d))
  {
    var swapped := pool[d := pool[0]][0 := pool[d]];
    assert swapped == [pool[d]] + Rest(pool, d);
    assert multiset(swapped) == multiset(pool);
  }

  lemma PickUnfolds<T>(pool: seq<T>, d: seq<nat>)
    requires d != [] && ValidDraws(d, |pool|)
    ensures d[0] < |pool| && ValidDraws(d[1..], |pool| - 1)
    ensures Pick(pool, d) != [] && Pick(pool, d)[0] == pool[d[0]]
    ensures Pick(pool, d)[1..] == Pick(Rest(pool, d[0]), d[1..])
  {
    RestOfDraws(d, |pool|);
  }

  /** Asking for fewer gives the beginning of the longer answer. */
  lemma {:induction false} FewerDrawsArePrefix<T>(pool: seq<T>, draws: seq<nat>, k: nat)
    requires ValidDraws(draws, |pool|) && k <= |draws|
    ensures ValidDraws(draws[..k], |pool|)
    ensures |Pick(pool, draws)| == |draws| && Pick(pool, draws[..k]) == Pick(pool, draws)[..k]
    decreases k
  {
    PickIsFromThePool(pool, draws);
    if k > 0 {
      var some := draws[..k];
      PickUnfolds(pool, draws);
      PickUnfolds(pool, some);
      assert some[1..] == draws[1..][..k - 1];
      FewerDrawsArePrefix(Rest(pool, draws[0]), draws[1..], k - 1);
      FirstThenRest(Pick(pool, draws), Pick(pool, some), k);
    }
  }

  lemma FirstThenRest<T>(whole: seq<T>, part: seq<T>, k: nat)
    requires 0 < k <= |whole| && part != [] && part[0] == whole[0] && part[1..] == whole[1..][..k - 1]
    ensures part == whole[..k]
  {
    assert part == [part[0]] + part[1..];
  }

  predicate Distinct<T(==)>(s: seq<T>) {
    forall i, j :: 0 <= i < j < |s| ==> s[i] != s[j]
  }

  lemma DistinctCounts<T>(s: seq<T>)
    ensures Distinct(s) <==> forall x :: multiset(s)[x] <= 1
  {
    if Distinct(s) {
      AtMostOnce(s);
    } else {
      var i, j :| 0 <= i < j < |s| && s[i] == s[j];
      assert s == s[..j] + [s[j]] + s[j + 1..];
      assert s[i] in s[..j];
      assert multiset(s)[s[j]] >= 2;
    }
  }

  lemma {:induction false} AtMostOnce<T>(s: seq<T>)
    requires Distinct(s)
    ensures forall x :: multiset(s)[x] <= 1
  {
    if s != [] {
      var t, last := s[..|s| - 1], s[|s| - 1];
      AtMostOnce(t);
      assert s == t + [last];
      assert last !in t;
    }
  }

  lemma RestStaysDistinct<T>(pool: seq<T>, d: nat)
    requires d < |pool| && Distinct(pool)
    ensures Distinct(Rest(pool, d)) && pool[d] !in Rest(pool, d)
  {
    RestRemovesOne(pool, d);
    DistinctCounts(pool);
    DistinctCounts(Rest(pool, d));
    assert multiset(pool)[pool[d]] == 1 + multiset(Rest(pool, d))[pool[d]];
  }

  /** An ordered selection of distinct members of the pool. */
  predicate Selection<T(==)>(pool: seq<T>, chosen: seq<T>) {
    Distinct(chosen) && forall i :: 0 <= i < |chosen| ==> chosen[i] in pool
  }

  /** From a pool of distinct ids every run of draws gives an ordered selection, ... */
  lemma PickIsSelection<T>(pool: seq<T>, draws: seq<nat>)
    requires Distinct(pool) && ValidDraws(draws, |pool|)
    ensures |Pick(pool, draws)| == |draws| && Selection(pool, Pick(pool, draws))
  {
    PickIsFromThePool(pool, draws);
    DistinctCounts(pool);
    var r := Pick(pool, draws);
    assert forall x :: multiset(r)[x] <= multiset(pool)[x];
    DistinctCounts(r);
    forall i | 0 <= i < |r|
      ensures r[i] in pool
    {
      assert r[i] in multiset(r);
    }
  }

  /** ... two different runs give different selections, ... */
  lemma {:induction false} DifferentDrawsPickDifferently<T>(pool: seq<T>, d: seq<nat>, e: seq<nat>)
    requires Distinct(pool) && ValidDraws(d, |pool|) && ValidDraws(e, |pool|)
    requires Pick(pool, d) == Pick(pool, e)
    ensures d == e
    decreases |d|
  {
    PickIsFromThePool(pool, d);
    PickIsFromThePool(pool, e);
    if d != [] {
      PickUnfolds(pool, d);
      PickUnfolds(pool, e);
      assert d[0] == e[0];
      RestStaysDistinct(pool, d[0]);
      DifferentDrawsPickDifferently(Rest(pool, d[0]), d[1..], e[1..]);
      assert d == [d[0]] + d[1..] == [e[0]] + e[1..] == e;
    }
  }

  /** Taking the first chosen member out leaves a selection of the rest. */
  lemma RestOfSelection<T>(pool: seq<T>, chosen: seq<T>, d: nat)
    requires Distinct(pool) && Selection(pool, chosen) && chosen != [] && d < |pool| && pool[d] == chosen[0]
    ensures Selection(Rest(pool, d), chosen[1..])
  {
    RestRemovesOne(pool, d);
    forall i | 0 <= i < |chosen[1..]|
      ensures chosen[1..][i] in Rest(pool, d)
    {
      assert chosen[1..][i] == chosen[i + 1] && chosen[i + 1] in pool;
      assert chosen[i + 1] in multiset(pool) && chosen[i + 1] != pool[d];
      assert chosen[i + 1] in multiset(Rest(pool, d));
    }
  }

  /** ... and every ordered selection is reached: the shuffle is a bijection on its draws. */
  lemma {:induction false} EverySelectionIsPicked<T>(pool: seq<T>, chosen: seq<T>) returns (draws: seq<nat>)
    requires Distinct(pool) && Selection(pool, chosen)
    ensures |draws| == |chosen| && ValidDraws(draws, |pool|) && Pick(pool, draws) == chosen
    decreases |chosen|
  {
    if chosen == [] {
      draws := [];
    } else {
      assert chosen[0] in pool;
      var d :| 0 <= d < |pool| && pool[d] == chosen[0];
      RestStaysDistinct(pool, d);
      RestOfSelection(pool, chosen, d);
      var tail := EverySelectionIsPicked(Rest(pool, d), chosen[1..]);
      draws := [d] + tail;
      assert draws[1..] == tail;
      assert chosen == [chosen[0]] + chosen[1..];
    }
  }

  // ----- What the daily set promises -----

  /** The caller's order of the pool does not matter. */
  lemma OrderOfIdsDoesNotMatter(ids: seq<int>, other: seq<int>, count: int, seed: Word)
    requires multiset(ids) == multiset(other)
    ensures Picked(ids, count, seed) == Picked(other, count, seed)
  {
    SortDependsOnContents(ids, other);
  }

  lemma SortKeepsSize(ids: seq<int>)
    ensures |Sort(ids)| == |ids| && multiset(Sort(ids)) == multiset(ids)
  {
    SortPermutes(ids);
    assert |multiset(Sort(ids))| == |multiset(ids)|;
  }

  lemma DrawnSize(ids: seq<int>, count: nat, seed: Word)
    ensures |Picked(ids, count, seed)| == Min(count, |ids|)
    ensures multiset(Picked(ids, count, seed)) <= multiset(ids)
  {
    SortKeepsSize(ids);
    PickIsFromThePool(Sort(ids), Draws(seed, |ids|, Min(count, |ids|)));
  }

  lemma NegativeCount(ids: seq<int>, count: int, seed: Word)
    requires count < 0
    ensures |Sort(ids)| == |ids| && Picked(ids, count, seed) == Sort(ids)[..Max(|ids| + count, 0)]
    ensures multiset(Picked(ids, count, seed)) <= multiset(ids)
  {
    SortKeepsSize(ids);
    var k := Max(|ids| + count, 0);
    assert Sort(ids) == Sort(ids)[..k] + Sort(ids)[k..];
  }

  /**
   * The size is the smaller of count and pool size, a negative count counting as
   * none, exactly when the count is not negative or drops the whole pool. With a
   * negative count the answer is not drawn at all: it is the front of the sorted
   * pool, short of that many of the highest ids. Always members of the pool.
   */
  lemma PickedSize(ids: seq<int>, count: int, seed: Word)
    ensures |Picked(ids, count, seed)| == Min(Max(count, 0), |ids|) <==> count >= 0 || |ids| + count <= 0
    ensures |Sort(ids)| == |ids|
    ensures count < 0 ==> Picked(ids, count, seed) == Sort(ids)[..Max(|ids| + count, 0)]
    ensures multiset(Picked(ids, count, seed)) <= multiset(ids)
  {
    SortKeepsSize(ids);
    if count >= 0 {
      DrawnSize(ids, count, seed);
    } else {
      NegativeCount(ids, count, seed);
    }
  }

  /** With the same seed and pool, a smaller set is the beginning of a larger one. */
  lemma SmallerSetIsPrefix(ids: seq<int>, k: nat, m: nat, seed: Word)
    requires k <= m
    ensures Picked(ids, k, seed) <= Picked(ids, m, seed)
  {
    var n := |Sort(ids)|;
    var draws := Draws(seed, n, Min(m, n));
    FewerDrawsArePrefix(Sort(ids), draws, Min(k, n));
    assert draws[..Min(k, n)] == Draws(seed, n, Min(k, n));
  }
}
