/** The two token-set similarities used for partial matches. */
module TokenOverlap {

  function Tokens<T>(a: seq<T>): set<T> {
    set x | x in a
  }

  function JaccardOf<T>(a: set<T>, b: set<T>): real {
    if a + b == {} then 0.0 else |a * b| as real / |a + b| as real
  }

  function DiceOf<T>(a: set<T>, b: set<T>): real {
    if a + b == {} then 0.0 else 2.0 * |a * b| as real / (|a| + |b|) as real
  }

  method Jaccard<T(==)>(a: seq<T>, b: seq<T>) returns (r: real)
    ensures r == JaccardOf(Tokens(a), Tokens(b))
  {
    var setA, setB := Tokens(a), Tokens(b);
    var intersection := CountShared(setA, setB);
    var union := |setA + setB|;
    r := if union == 0 then 0.0 else intersection as real / union as real;
  }

  method Dice<T(==)>(a: seq<T>, b: seq<T>) returns (r: real)
    ensures r == DiceOf(Tokens(a), Tokens(b))
  {
    var setA, setB := Tokens(a), Tokens(b);
    var intersection := CountShared(setA, setB);
    var total := |setA| + |setB|;
    assert total == 0 <==> setA + setB == {};
    r := if total == 0 then 0.0 else (2 * intersection) as real / total as real;
  }

  /** The counting loop both similarities share; the visiting order does not matter. */
  method CountShared<T(==)>(setA: set<T>, setB: set<T>) returns (intersection: nat)
    ensures intersection == |setA * setB|
  {
    intersection := 0;
    var rest := setA;
    while rest != {}
      invariant rest <= setA
      invariant intersection + |rest * setB| == |setA * setB|
      decreases rest
    {
      var token :| token in rest;
      if token in setB {
        intersection := intersection + 1;
        assert rest * setB == (rest - {token}) * setB + {token};
      } else {
        assert rest * setB == (rest - {token}) * setB;
      }
      rest := rest - {token};
    }
  }

  lemma UnionSize<T>(a: set<T>, b: set<T>)
    ensures |a + b| + |a * b| == |a| + |b|
  {
    assert a + b == a + (b - a);
    assert |a + (b - a)| == |a| + |b - a|;
    assert b == (b - a) + (a * b);
  }

  lemma SubsetSize<T>(a: set<T>, b: set<T>)
    requires a <= b
    ensures |a| <= |b|
    ensures |a| == |b| ==> a == b
  {
    assert b == a + (b - a);
    if |a| == |b| {
      assert b - a == {};
    }
  }

  /**
   * Jaccard is the share of the union that is shared, Dice the share of both sizes
   * that is shared on each side. Either score determines the other, Dice is the more forgiving one, and the
   * ends of the scale mean what they should: 1 is "same tokens", 0 is "nothing
   * shared".
   */
  lemma SimilarityScale<T>(a: set<T>, b: set<T>)
    ensures JaccardOf(a, b) * |a + b| as real == |a * b| as real
    ensures DiceOf(a, b) * (|a| + |b|) as real == 2.0 * |a * b| as real
    ensures DiceOf(a, b) * (1.0 + JaccardOf(a, b)) == 2.0 * JaccardOf(a, b)
    ensures 0.0 <= JaccardOf(a, b) <= DiceOf(a, b) <= 1.0
    ensures JaccardOf(a, b) == 1.0 <==> a == b && a != {}
    ensures DiceOf(a, b) == 1.0 <==> a == b && a != {}
    ensures JaccardOf(a, b) == 0.0 <==> a * b == {}
    ensures DiceOf(a, b) == 0.0 <==> a * b == {}
  {
    UnionSize(a, b);
    SubsetSize(a * b, a + b);
    if a + b != {} {
      var i, u := |a * b| as real, |a + b| as real;
      assert DiceOf(a, b) == 2.0 * i / (u + i);
      Ratios(i, u);
      assert i == u <==> a == b by {
        if a == b { assert a * b == a + b; }
        if i == u { assert a * b == a + b; }
      }
      assert i == 0.0 <==> a * b == {};
    }
  }

  lemma Ratios(i: real, u: real)
    requires 0.0 <= i <= u && 0.0 < u
    ensures 2.0 * i / (u + i) * (1.0 + i / u) == 2.0 * (i / u)
    ensures 0.0 <= i / u <= 2.0 * i / (u + i) <= 1.0
    ensures i / u == 1.0 <==> i == u
    ensures 2.0 * i / (u + i) == 1.0 <==> i == u
    ensures i / u == 0.0 <==> i == 0.0
    ensures 2.0 * i / (u + i) == 0.0 <==> i == 0.0
  {
    var j, d := i / u, 2.0 * i / (u + i);
    assert j * u == i;
    assert d * (u + i) == 2.0 * i;
    assert u + i == u * (1.0 + j);
    assert d * (1.0 + j) * u == 2.0 * j * u;
    assert d * (1.0 + j) == 2.0 * j;
    assert j <= 1.0;
  }
}
