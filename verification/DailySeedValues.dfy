/**
 * Values of the hash and of the generator. The hash of "a" is the published
 * 32-bit FNV-1a value; two seeds show that the daily set depends on its seed.
 */
module SeedValues {
  import opened Arithmetic
  import opened Prelude
  import opened Sorting
  import opened Word32
  import opened SeededRandom
  import opened DailyPick

  lemma PowersOfTwo()
    ensures TwoTo(4) == 16 && TwoTo(6) == 64 && TwoTo(8) == 0x100
  {
  }

  // ----- The hash -----

  lemma XorOfLowByte()
    ensures XorBits(0xc5, 0x61) == 0xa4
  {
    PowersOfTwo();
    assert XorBits(0xc, 0x6) == 0xa;
    assert XorBits(0x5, 0x1) == 0x4;
    XorSplit(4, 0xc, 0x5, 0x6, 0x1, 0xc5, 0x61, 0xa4);
  }

  lemma XorOfOffset()
    ensures Xor(0x811c9dc5, 0x61) == 0x811c9da4
  {
    PowersOfTwo();
    XorOfLowByte();
    WithZero(0x811c9d);
    XorSplit(8, 0x811c9d, 0xc5, 0, 0x61, 0x811c9dc5, 0x61, 0x811c9da4);
  }

  lemma TimesPrime(h: Word)
    requires h - 1 == 0x811c9da3
    ensures Imul(h, FNV_PRIME) == 0xe40c292c
  {
    RemainderIs(h * FNV_PRIME, 8461672, 0xe40c292c);
  }

  /** The published values for the empty text and for "a". */
  lemma PublishedHashes(s: seq<CodeUnit>)
    ensures s == [] ==> HashFrom(FNV_OFFSET, s) == 0x811c9dc5
    ensures |s| == 1 && s[0] == 0x61 ==> HashFrom(FNV_OFFSET, s) == 0xe40c292c
  {
    if |s| == 1 && s[0] == 0x61 {
      XorOfOffset();
      TimesPrime(Xor(FNV_OFFSET, s[0]));
      assert HashFrom(FNV_OFFSET, s[..0]) == FNV_OFFSET;
    }
  }

  // ----- The generator -----

  lemma StagesOfZero(t: Word)
    requires t < 1
    ensures MixFirst(t) == 0 && MixThird(t) == 0
  {
    WithZero(t);
  }

  lemma SecondOfZero(u: Word)
    requires u < 1
    ensures MixSecond(u) == 0
  {
    WithZero(u);
    assert XorBits(u, u / 0x80) == 0;
    TimesNothing(0, Or(u, 61));
  }

  lemma TimesNothing(x: Word, y: Word)
    requires x < 1
    ensures Imul(x, y) == 0
  {
  }

  lemma MixOfZero(t: Word)
    requires t < 1
    ensures Mix(t) == 0
  {
    StagesOfZero(t);
    SecondOfZero(MixFirst(t));
    StagesOfZero(MixSecond(MixFirst(t)));
  }

  lemma FirstOf16(t: Word)
    requires t - 1 == 15
    ensures MixFirst(t) - 1 == 271
  {
    WithZero(t);
    WithZero(t / 2);
    OrPush(t / 2, 0, 0, 1, t, 1);
  }

  lemma XorOf272(u: Word)
    requires u - 1 == 271
    ensures XorBits(u, u / 0x80) == u + 2
  {
    var half := u / 2;
    WithZero(u / 4);
    XorPush(u / 4, 0, 0, 1, half, 1);
    XorPush(half, 1, 0, 0, u, u / 0x80);
  }

  lemma OrOf272(u: Word)
    requires u - 1 == 271
    ensures OrBits(u, 61) == u + 45
  {
    PowersOfTwo();
    WithZero(4);
    assert OrBits(16, 61) == 61;
    OrParts(6, 64, u / 64, 16, 0, 61, u / 64, 61);
  }

  lemma XorOfLowPart(low: nat)
    requires low - 1 == 89
    ensures XorBits(16, low) == low - 16
  {
    PowersOfTwo();
    assert XorBits(1, 5) == 4;
    WithZero(10);
    XorParts(4, 16, 1, 0, 5, 10, 4, 10);
  }

  lemma XorOfSum(u: Word, f: Word)
    requires u - 1 == 271 && f - 1 == 87129
    ensures XorBits(u, f) - 1 == 87369
  {
    PowersOfTwo();
    var high, low := f / 256, f % 256;
    WithZero(high / 2);
    XorPush(0, high / 2, 1, 0, 1, high);
    XorOfLowPart(low);
    XorParts(8, 256, 1, 16, high, low, high + 1, low - 16);
  }

  lemma SecondOf272(u: Word)
    requires u - 1 == 271
    ensures MixSecond(u) - 1 == 87369
  {
    XorOf272(u);
    OrOf272(u);
    var e := Imul(u + 2, u + 45);
    assert e - 1 == 86857;
    XorOfSum(u, Add(u, e));
  }

  lemma LastDigit(v: nat, high: nat, five: nat)
    requires v == 16 * high + 10 && five - 1 == 4
    ensures XorBits(v, five) == v + 5
  {
    PowersOfTwo();
    WithZero(high);
    assert XorBits(10, 5) == 15;
    XorParts(4, 16, high, 10, 0, five, high, 15);
  }

  lemma ThirdOf87370(v: Word)
    requires v - 1 == 87369
    ensures MixThird(v) - 1 == 87374
  {
    var five := v / 0x4000;
    LastDigit(v, v / 16, five);
  }

  lemma MixOf16(t: Word)
    requires t - 1 == 15
    ensures Mix(t) - 1 == 87374
  {
    FirstOf16(t);
    SecondOf272(MixFirst(t));
    ThirdOf87370(MixSecond(MixFirst(t)));
  }

  // ----- The set depends on the seed -----

  lemma FirstPick(pool: seq<int>, seed: Word, m: Word)
    requires pool != [] && Drawn(seed, 1) == m as real / TWO_32 as real
    ensures Pick(pool, Draws(seed, |pool|, 1)) == [pool[Stretched(m, |pool|)]]
  {
    DrawsAreStretched(seed, |pool|, 1, 0, m);
    OneDraw(pool, Draws(seed, |pool|, 1));
  }

  lemma OneDraw(pool: seq<int>, draws: seq<nat>)
    requires |draws| == 1 && ValidDraws(draws, |pool|)
    ensures Pick(pool, draws) == [pool[draws[0]]]
  {
    assert draws[1..] == [];
  }

  lemma StateOf(seed: Word, t: Word)
    requires seed == 0x92d4_860b + t && t < 100
    ensures StateAfter(seed, 1) == t
  {
    RemainderIs(seed + INCREMENT, 1, t);
  }

  /** On every pool of 65536 different songs these two seeds start with different ones. */
  lemma SeedsPickDifferently(ids: seq<int>, s: Word, t: Word)
    requires |ids| == 0x1_0000 && Distinct(ids) && s == 0x92d4_860b && t == s + 16
    ensures Picked(ids, 1, s) != Picked(ids, 1, t)
  {
    SortKeepsSize(ids);
    var pool := Sort(ids);
    DistinctCounts(ids);
    DistinctCounts(pool);
    StateOf(s, 0);
    StateOf(t, 16);
    MixOfZero(StateAfter(s, 1));
    MixOf16(StateAfter(t, 1));
    FirstPick(pool, s, 0);
    FirstPick(pool, t, Mix(StateAfter(t, 1)));
    assert pool[0] != pool[1];
  }
}
