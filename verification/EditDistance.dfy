/**
 * The edit distance used for typo-tolerant matching. The table-filling loops
 * are proved to compute the least number of single-element edits, where an edit
 * script is defined on its own, with no reference to the table.
 */
module EditDistance {
  import opened Prelude

  datatype Edit<T> =
    | Insert(at: nat, item: T)
    | Delete(at: nat)
    | Substitute(at: nat, item: T)

  predicate Applicable<T>(s: seq<T>, e: Edit<T>) {
    match e
    case Insert(i, _) => i <= |s|
    case Delete(i) => i < |s|
    case Substitute(i, _) => i < |s|
  }

  function Apply<T>(s: seq<T>, e: Edit<T>): seq<T>
    requires Applicable(s, e)
  {
    match e
    case Insert(i, x) => s[..i] + [x] + s[i..]
    case Delete(i) => s[..i] + s[i + 1..]
    case Substitute(i, x) => s[..i] + [x] + s[i + 1..]
  }

  /** Running the script on a, one edit at a time, ends in b. */
  ghost predicate Turns<T>(a: seq<T>, script: seq<Edit<T>>, b: seq<T>)
    decreases |script|
  {
    if script == [] then a == b
    else Applicable(a, script[0]) && Turns(Apply(a, script[0]), script[1..], b)
  }

  /** n edits suffice to turn a into b, and no shorter script does. */
  ghost predicate IsLeastEdits<T(!new)>(a: seq<T>, b: seq<T>, n: nat) {
    && (exists script: seq<Edit<T>> :: |script| == n && Turns(a, script, b))
    && (forall script: seq<Edit<T>> :: Turns(a, script, b) ==> n <= |script|)
  }

  function Front<T>(s: seq<T>): seq<T>
    requires s != []
  {
    s[..|s| - 1]
  }

  /** The recurrence the table holds: entry (i, j) is the value for a[..i] and b[..j]. */
  function Distance<T(==)>(a: seq<T>, b: seq<T>): nat
    decreases |a| + |b|
  {
    if a == [] then |b|
    else if b == [] then |a|
    else
      var a', b' := a[..|a| - 1], b[..|b| - 1];
      var cost := if a[|a| - 1] == b[|b| - 1] then 0 else 1;
      Min(Min(Distance(a', b) + 1, Distance(a, b') + 1), Distance(a', b') + cost)
  }

  /** The value the table owes at row i, column j. */
  ghost function Cell<T>(a: seq<T>, b: seq<T>, i: nat, j: nat): nat
    requires i <= |a| && j <= |b|
  {
    Distance(a[..i], b[..j])
  }

  ghost predicate FilledTo<T>(dp: array2<nat>, a: seq<T>, b: seq<T>, rows: nat, cols: nat)
    requires dp.Length0 == |a| + 1 && dp.Length1 == |b| + 1
    requires rows <= dp.Length0 && cols <= dp.Length1
    reads dp
  {
    forall x, y :: 0 <= x < rows && 0 <= y < cols ==> dp[x, y] == Cell(a, b, x, y)
  }

  /** The inner loop: row i, once the rows above it and the first column are right. */
  method FillRow<T(==)>(dp: array2<nat>, a: seq<T>, b: seq<T>, i: nat)
    requires dp.Length0 == |a| + 1 && dp.Length1 == |b| + 1 && 1 <= i <= |a|
    requires FilledTo(dp, a, b, |a| + 1, 1) && FilledTo(dp, a, b, i, |b| + 1)
    modifies dp
    ensures FilledTo(dp, a, b, |a| + 1, 1) && FilledTo(dp, a, b, i + 1, |b| + 1)
  {
    for j := 1 to |b| + 1
      invariant FilledTo(dp, a, b, |a| + 1, 1) && FilledTo(dp, a, b, i, |b| + 1) && FilledTo(dp, a, b, i + 1, j)
    {
      var cost := if a[i - 1] == b[j - 1] then 0 else 1;
      var up, left, diagonal := dp[i - 1, j], dp[i, j - 1], dp[i - 1, j - 1];
      assert up == Cell(a, b, i - 1, j) && left == Cell(a, b, i, j - 1) && diagonal == Cell(a, b, i - 1, j - 1);
      Recurrence(a, b, i, j);
      dp[i, j] := Min(Min(up + 1, left + 1), diagonal + cost);
    }
  }

  method Levenshtein<T(==, !new)>(a: seq<T>, b: seq<T>) returns (r: nat)
    ensures r == Distance(a, b)
    ensures IsLeastEdits(a, b, r)
  {
    var rows, cols := |a| + 1, |b| + 1;
    var dp := new nat[rows, cols]((_, _) => 0);

    for i := 0 to rows
      invariant FilledTo(dp, a, b, i, 1)
    {
      Borders(a, b, i, 0);
      dp[i, 0] := i;
    }
    for j := 0 to cols
      invariant FilledTo(dp, a, b, rows, 1) && FilledTo(dp, a, b, 1, j)
    {
      Borders(a, b, 0, j);
      dp[0, j] := j;
    }

    for i := 1 to rows
      invariant FilledTo(dp, a, b, rows, 1) && FilledTo(dp, a, b, i, cols)
    {
      FillRow(dp, a, b, i);
    }

    r := dp[|a|, |b|];
    assert a[..|a|] == a && b[..|b|] == b;
    DistanceIsLeast(a, b);
  }

  lemma Borders<T>(a: seq<T>, b: seq<T>, i: nat, j: nat)
    requires i <= |a| && j <= |b| && (i == 0 || j == 0)
    ensures Cell(a, b, i, j) == i + j
  {
  }

  lemma Recurrence<T>(a: seq<T>, b: seq<T>, i: nat, j: nat)
    requires 0 < i <= |a| && 0 < j <= |b|
    ensures Cell(a, b, i, j)
         == Min(Min(Cell(a, b, i - 1, j) + 1, Cell(a, b, i, j - 1) + 1),
                Cell(a, b, i - 1, j - 1) + (if a[i - 1] == b[j - 1] then 0 else 1))
  {
    assert a[..i][..i - 1] == a[..i - 1];
    assert b[..j][..j - 1] == b[..j - 1];
  }

  // ----- A script of that length exists -----

  lemma {:induction false} ScriptOfDistance<T>(a: seq<T>, b: seq<T>) returns (script: seq<Edit<T>>)
    ensures |script| == Distance(a, b) && Turns(a, script, b)
    decreases |a| + |b|
  {
    if a == [] {
      script := AppendAll(a, b);
    } else if b == [] {
      script := ScriptOfDistance(Front(a), b);
      script := DeleteLastThen(a, script, b);
    } else {
      var way := LeastWay(a, b);
      if way == 0 {
        script := ScriptOfDistance(Front(a), b);
        script := DeleteLastThen(a, script, b);
      } else if way == 1 {
        script := ScriptOfDistance(a, Front(b));
        script := ThenAppendLast(a, script, b);
      } else {
        script := ScriptOfDistance(Front(a), Front(b));
        script := ThenMatchLast(a, script, b);
      }
    }
  }

  /** Which of the three neighbours the recurrence takes its value from. */
  lemma LeastWay<T>(a: seq<T>, b: seq<T>) returns (way: nat)
    requires a != [] && b != []
    ensures way == 0 ==> Distance(a, b) == Distance(Front(a), b) + 1
    ensures way == 1 ==> Distance(a, b) == Distance(a, Front(b)) + 1
    ensures way > 1 ==>
              Distance(a, b) == Distance(Front(a), Front(b)) + if a[|a| - 1] == b[|b| - 1] then 0 else 1
  {
    way := if Distance(a, b) == Distance(Front(a), b) + 1 then 0
           else if Distance(a, b) == Distance(a, Front(b)) + 1 then 1 else 2;
  }

  lemma DeleteLastThen<T>(a: seq<T>, s: seq<Edit<T>>, b: seq<T>) returns (script: seq<Edit<T>>)
    requires a != [] && Turns(Front(a), s, b)
    ensures |script| == |s| + 1 && Turns(a, script, b)
  {
    assert Apply(a, Delete(|a| - 1)) == Front(a);
    script := [Delete(|a| - 1)] + s;
    assert script[1..] == s;
  }

  lemma ThenAppendLast<T>(a: seq<T>, s: seq<Edit<T>>, b: seq<T>) returns (script: seq<Edit<T>>)
    requires b != [] && Turns(a, s, Front(b))
    ensures |script| == |s| + 1 && Turns(a, script, b)
  {
    script := ThenAppend(a, s, Front(b), b[|b| - 1]);
    assert Front(b) + [b[|b| - 1]] == b;
  }

  lemma SubstituteLastThen<T>(a: seq<T>, s: seq<Edit<T>>, b: seq<T>, y: T) returns (script: seq<Edit<T>>)
    requires a != [] && Turns(Front(a) + [y], s, b)
    ensures |script| == |s| + 1 && Turns(a, script, b)
  {
    assert Apply(a, Substitute(|a| - 1, y)) == Front(a) + [y];
    script := [Substitute(|a| - 1, y)] + s;
    assert script[1..] == s;
  }

  lemma ThenMatchLast<T>(a: seq<T>, s: seq<Edit<T>>, b: seq<T>) returns (script: seq<Edit<T>>)
    requires a != [] && b != [] && Turns(Front(a), s, Front(b))
    ensures Turns(a, script, b)
    ensures |script| == |s| + if a[|a| - 1] == b[|b| - 1] then 0 else 1
  {
    var y := b[|b| - 1];
    if a[|a| - 1] == y {
      Suffix(Front(a), s, Front(b), [y], a, b);
      script := s;
    } else {
      Suffix(Front(a), s, Front(b), [y], Front(a) + [y], b);
      script := SubstituteLastThen(a, s, b, y);
    }
  }

  lemma {:induction false} AppendAll<T>(a: seq<T>, b: seq<T>) returns (script: seq<Edit<T>>)
    requires a <= b
    ensures |script| == |b| - |a| && Turns(a, script, b)
    decreases |b| - |a|
  {
    if a == b {
      script := [];
    } else {
      script := AppendAll(a + [b[|a|]], b);
      assert Apply(a, Insert(|a|, b[|a|])) == a + [b[|a|]];
      script := [Insert(|a|, b[|a|])] + script;
    }
  }

  lemma ApplyBeforeTail<T>(a: seq<T>, e: Edit<T>, tail: seq<T>)
    requires Applicable(a, e)
    ensures Applicable(a + tail, e) && Apply(a + tail, e) == Apply(a, e) + tail
  {
    var i, s := e.at, a + tail;
    assert s[..i] == a[..i] && s[i..] == a[i..] + tail;
    if i < |a| {
      assert s[i + 1..] == a[i + 1..] + tail;
    }
    match e {
      case Insert(_, x) => assert Apply(s, e) == a[..i] + [x] + (a[i..] + tail);
      case Delete(_) => assert Apply(s, e) == a[..i] + (a[i + 1..] + tail);
      case Substitute(_, x) => assert Apply(s, e) == a[..i] + [x] + (a[i + 1..] + tail);
    }
  }

  /** A script still works when the same suffix follows both ends. */
  lemma {:induction false} Suffix<T>(
      a: seq<T>, script: seq<Edit<T>>, b: seq<T>, tail: seq<T>, longerA: seq<T>, longerB: seq<T>)
    requires Turns(a, script, b) && longerA == a + tail && longerB == b + tail
    ensures Turns(longerA, script, longerB)
    decreases |script|
  {
    if script != [] {
      ApplyBeforeTail(a, script[0], tail);
      Suffix(Apply(a, script[0]), script[1..], b, tail, Apply(longerA, script[0]), longerB);
    }
  }

  lemma {:induction false} Compose<T>(
      a: seq<T>, s: seq<Edit<T>>, b: seq<T>, t: seq<Edit<T>>, c: seq<T>, both: seq<Edit<T>>)
    requires Turns(a, s, b) && Turns(b, t, c) && both == s + t
    ensures Turns(a, both, c)
    decreases |s|
  {
    if s == [] {
      assert both == t;
    } else {
      Compose(Apply(a, s[0]), s[1..], b, t, c, both[1..]);
    }
  }

  lemma ThenAppend<T>(a: seq<T>, s: seq<Edit<T>>, b: seq<T>, y: T) returns (script: seq<Edit<T>>)
    requires Turns(a, s, b)
    ensures |script| == |s| + 1 && Turns(a, script, b + [y])
  {
    var last := Insert(|b|, y);
    assert Apply(b, last) == b + [y];
    OneEdit(b, last);
    script := s + [last];
    Compose(a, s, b, [last], b + [y], script);
  }

  // ----- No script is shorter -----

  lemma ShorterByOne<T>(a: seq<T>, b: seq<T>)
    requires b != []
    ensures Distance(a, b) <= Distance(a, Front(b)) + 1
  {
  }

  /** The three neighbours being close, the corner is close, when both strings end alike. */
  lemma SameLastStaysClose<T>(s: seq<T>, t: seq<T>, b: seq<T>)
    requires s != [] && t != [] && b != [] && s[|s| - 1] == t[|t| - 1]
    requires Distance(Front(s), b) <= Distance(Front(t), b) + 1
    requires Distance(s, Front(b)) <= Distance(t, Front(b)) + 1
    requires Distance(Front(s), Front(b)) <= Distance(Front(t), Front(b)) + 1
    ensures Distance(s, b) <= Distance(t, b) + 1
  {
  }

  /** Dropping, adding or changing the last element. */
  lemma LastElementStaysClose<T>(s: seq<T>, t: seq<T>, b: seq<T>)
    requires b != [] && Distance(s, Front(b)) <= Distance(t, Front(b)) + 1
    requires (t != [] && s == Front(t)) || (s != [] && t == Front(s)) || (s != [] && t != [] && Front(s) == Front(t))
    ensures Distance(s, b) <= Distance(t, b) + 1
  {
    ShorterByOne(s, b);
    if t != [] && s == Front(t) {
    } else if s != [] && t == Front(s) {
    } else {
      ShorterByOne(Front(s), b);
    }
  }

  lemma OneChangeAtEnd<T>(u: seq<T>, x: seq<T>, y: seq<T>)
    requires |x| <= 1 && |y| <= 1 && (x != [] || y != [])
    ensures var s, t := u + x, u + y;
            (t != [] && s == Front(t)) || (s != [] && t == Front(s)) || (s != [] && t != [] && Front(s) == Front(t))
  {
    assert x == [] ==> u + x == u;
    assert y == [] ==> u + y == u;
    assert x != [] ==> Front(u + x) == u;
    assert y != [] ==> Front(u + y) == u;
  }

  /** Replacing at most one element by at most one element moves the distance by at most 1. */
  lemma {:induction false} OneEditApart<T>(u: seq<T>, x: seq<T>, y: seq<T>, v: seq<T>, b: seq<T>)
    requires |x| <= 1 && |y| <= 1
    ensures Distance(u + x + v, b) <= Distance(u + y + v, b) + 1
    decreases |v| + |b|
  {
    var s, t := u + x + v, u + y + v;
    if b == [] {
      assert Distance(s, b) == |s| && Distance(t, b) == |t|;
    } else if v == [] {
      OneEditApart(u, x, y, v, Front(b));
      assert s == u + x && t == u + y;
      if x != [] || y != [] {
        OneChangeAtEnd(u, x, y);
        LastElementStaysClose(s, t, b);
      }
    } else {
      assert Front(s) == u + x + Front(v) && Front(t) == u + y + Front(v);
      OneEditApart(u, x, y, v, Front(b));
      OneEditApart(u, x, y, Front(v), b);
      OneEditApart(u, x, y, Front(v), Front(b));
      SameLastStaysClose(s, t, b);
    }
  }

  /** One edit of the left side moves the distance by at most 1. */
  lemma EditMovesByOne<T>(a: seq<T>, e: Edit<T>, b: seq<T>)
    requires Applicable(a, e)
    ensures Distance(a, b) <= Distance(Apply(a, e), b) + 1
  {
    var i := e.at;
    match e {
      case Insert(_, item) =>
        OneEditApart(a[..i], [], [item], a[i..], b);
        assert a[..i] + [] + a[i..] == a;
      case Delete(_) =>
        OneEditApart(a[..i], [a[i]], [], a[i + 1..], b);
        assert a[..i] + [a[i]] + a[i + 1..] == a;
        assert a[..i] + [] + a[i + 1..] == Apply(a, e);
      case Substitute(_, item) =>
        OneEditApart(a[..i], [a[i]], [item], a[i + 1..], b);
        assert a[..i] + [a[i]] + a[i + 1..] == a;
    }
  }

  lemma {:induction false} ScriptsAreNoShorter<T>(a: seq<T>, script: seq<Edit<T>>, b: seq<T>)
    requires Turns(a, script, b)
    ensures Distance(a, b) <= |script|
    decreases |script|
  {
    if script == [] {
      DistanceToItself(a);
    } else {
      ScriptsAreNoShorter(Apply(a, script[0]), script[1..], b);
      EditMovesByOne(a, script[0], b);
    }
  }

  lemma {:induction false} DistanceToItself<T>(a: seq<T>)
    ensures Distance(a, a) == 0
  {
    if a != [] {
      DistanceToItself(a[..|a| - 1]);
    }
  }

  lemma DistanceIsLeast<T(!new)>(a: seq<T>, b: seq<T>)
    ensures IsLeastEdits(a, b, Distance(a, b))
  {
    var script := ScriptOfDistance(a, b);
    forall other: seq<Edit<T>> | Turns(a, other, b)
      ensures Distance(a, b) <= |other|
    {
      ScriptsAreNoShorter(a, other, b);
    }
  }

  // ----- The metric laws, read off edit scripts -----

  lemma {:induction false} ZeroExactlyWhenEqual<T(!new)>(a: seq<T>, b: seq<T>)
    ensures Distance(a, b) == 0 <==> a == b
  {
    DistanceToItself(a);
    var script := ScriptOfDistance(a, b);
    assert Distance(a, b) == 0 ==> script == [];
  }

  lemma {:induction false} TriangleInequality<T(!new)>(a: seq<T>, b: seq<T>, c: seq<T>)
    ensures Distance(a, c) <= Distance(a, b) + Distance(b, c)
  {
    var s := ScriptOfDistance(a, b);
    var t := ScriptOfDistance(b, c);
    Compose(a, s, b, t, c, s + t);
    ScriptsAreNoShorter(a, s + t, c);
  }

  lemma UndoInsert<T>(a: seq<T>, i: nat, x: T)
    requires i <= |a|
    ensures Applicable(a[..i] + [x] + a[i..], Delete(i)) && Apply(a[..i] + [x] + a[i..], Delete(i)) == a
  {
    var s := a[..i] + [x] + a[i..];
    assert s[..i] == a[..i] && s[i + 1..] == a[i..];
  }

  lemma UndoDelete<T>(a: seq<T>, i: nat)
    requires i < |a|
    ensures Applicable(a[..i] + a[i + 1..], Insert(i, a[i])) && Apply(a[..i] + a[i + 1..], Insert(i, a[i])) == a
  {
    var s := a[..i] + a[i + 1..];
    assert s[..i] == a[..i] && s[i..] == a[i + 1..];
  }

  lemma UndoSubstitute<T>(a: seq<T>, i: nat, x: T)
    requires i < |a|
    ensures var s := a[..i] + [x] + a[i + 1..];
            Applicable(s, Substitute(i, a[i])) && Apply(s, Substitute(i, a[i])) == a
  {
    var s := a[..i] + [x] + a[i + 1..];
    assert s[..i] == a[..i] && s[i + 1..] == a[i + 1..];
  }

  lemma Inverse<T>(a: seq<T>, e: Edit<T>) returns (inverse: Edit<T>)
    requires Applicable(a, e)
    ensures Applicable(Apply(a, e), inverse) && Apply(Apply(a, e), inverse) == a
  {
    match e {
      case Insert(i, x) =>
        UndoInsert(a, i, x);
        inverse := Delete(i);
      case Delete(i) =>
        UndoDelete(a, i);
        inverse := Insert(i, a[i]);
      case Substitute(i, x) =>
        UndoSubstitute(a, i, x);
        inverse := Substitute(i, a[i]);
    }
  }

  lemma OneEdit<T>(a: seq<T>, e: Edit<T>)
    requires Applicable(a, e)
    ensures Turns(a, [e], Apply(a, e))
  {
    assert [e][1..] == [];
  }

  /** Every script can be undone by one of the same length. */
  lemma {:induction false} Undo<T>(a: seq<T>, script: seq<Edit<T>>, b: seq<T>) returns (back: seq<Edit<T>>)
    requires Turns(a, script, b)
    ensures |back| == |script| && Turns(b, back, a)
    decreases |script|
  {
    if script == [] {
      back := [];
    } else {
      var next := Apply(a, script[0]);
      back := Undo(next, script[1..], b);
      var inverse := Inverse(a, script[0]);
      OneEdit(next, inverse);
      Compose(b, back, next, [inverse], a, back + [inverse]);
      back := back + [inverse];
    }
  }

  lemma {:induction false} Symmetric<T(!new)>(a: seq<T>, b: seq<T>)
    ensures Distance(a, b) == Distance(b, a)
  {
    var s := ScriptOfDistance(a, b);
    var s' := Undo(a, s, b);
    ScriptsAreNoShorter(b, s', a);
    var t := ScriptOfDistance(b, a);
    var t' := Undo(b, t, a);
    ScriptsAreNoShorter(a, t', b);
  }

  /** The distance lies between the difference of the lengths and the longer length. */
  lemma {:induction false} LengthBounds<T>(a: seq<T>, b: seq<T>)
    ensures Max(|a|, |b|) - Min(|a|, |b|) <= Distance(a, b) <= Max(|a|, |b|)
    decreases |a| + |b|
  {
    if a != [] && b != [] {
      LengthBounds(a[..|a| - 1], b);
      LengthBounds(a, b[..|b| - 1]);
      LengthBounds(a[..|a| - 1], b[..|b| - 1]);
    }
  }
}
