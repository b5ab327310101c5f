/** The calculator's order statistics over exact numbers: percentiles, the median, the adjacent values and the
    outliers. */
module OrderStatistics {

  predicate Ascending(s: seq<real>) { forall i, j :: 0 <= i <= j < |s| ==> s[i] <= s[j] }

  function Insert(v: real, s: seq<real>): (t: seq<real>)
    ensures |t| == |s| + 1
    ensures forall x :: x in t <==> x == v || x in s
  {
    if s == [] || v <= s[0] then
      assert forall x :: x in [v] + s <==> x == v || x in s;
      [v] + s
    else
      var head, rest := s[0], Insert(v, s[1..]);
      assert s == [head] + s[1..];
      assert forall x :: x in [head] + s[1..] <==> x == head || x in s[1..];
      assert forall x :: x in [head] + rest <==> x == head || x in rest;
      [head] + rest
  }

  /** sorted(xs) */
  function Sorted(xs: seq<real>): (s: seq<real>)
    ensures |s| == |xs|
  {
    if xs == [] then [] else Insert(xs[0], Sorted(xs[1..]))
  }

  lemma {:induction false} Headed(a: real, t: seq<real>)
    requires Ascending(t) && forall x :: x in t ==> a <= x
    ensures Ascending([a] + t)
  {
    forall i | 0 <= i < |t|
      ensures a <= t[i]
    {
      var x: real := t[i];
      assert x in t;
    }
  }

  lemma {:induction false} InsertAscends(v: real, s: seq<real>)
    requires Ascending(s)
    ensures Ascending(Insert(v, s))
  {
    if s != [] && v > s[0] {
      InsertAscends(v, s[1..]);
      assert forall x :: x in s[1..] ==> s[0] <= x;
      Headed(s[0], Insert(v, s[1..]));
    } else {
      assert forall x :: x in s ==> v <= x;
      Headed(v, s);
    }
  }

  lemma {:induction false} InsertKeeps(v: real, s: seq<real>)
    ensures multiset(Insert(v, s)) == multiset(s) + multiset{v}
  {
    if s != [] && v > s[0] {
      InsertKeeps(v, s[1..]);
      assert s == [s[0]] + s[1..];
    }
  }

  /** Sorting orders the values and keeps each as often as it came. */
  lemma {:induction false} SortedIsSorted(xs: seq<real>)
    ensures Ascending(Sorted(xs)) && multiset(Sorted(xs)) == multiset(xs)
  {
    if xs != [] {
      SortedIsSorted(xs[1..]);
      InsertAscends(xs[0], Sorted(xs[1..]));
      InsertKeeps(xs[0], Sorted(xs[1..]));
      assert xs == [xs[0]] + xs[1..];
    }
  }

  /** From `a` the share `f` of the way to `b`. */
  function Mix(a: real, b: real, f: real): real { a + f * (b - a) }

  lemma {:induction false} Product(x: real, y: real)
    requires x >= 0.0 && y >= 0.0
    ensures x * y >= 0.0
  {
  }

  lemma {:induction false} MixBetween(a: real, b: real, f: real)
    requires a <= b && 0.0 <= f <= 1.0
    ensures a <= Mix(a, b, f) <= b
  {
    Product(f, b - a);
    Product(1.0 - f, b - a);
    assert (1.0 - f) * (b - a) == (b - a) - f * (b - a);
  }

  lemma {:induction false} MixGrows(a: real, b: real, f: real, g: real)
    requires a <= b && f <= g
    ensures Mix(a, b, f) <= Mix(a, b, g)
  {
    Product(g - f, b - a);
    assert g * (b - a) == f * (b - a) + (g - f) * (b - a);
  }

  /** The value at the place `h` of a sorted list, between two of its values when `h` is. */
  function At(s: seq<real>, h: real): real
    requires 0.0 <= h <= (|s| - 1) as real
  {
    var lo := h.Floor;
    var hi := if lo as real == h then lo else lo + 1;
    Mix(s[lo], s[hi], h - lo as real)
  }

  /** `_pct`, interpolated between the values around p. */
  function Pct(xs: seq<real>, p: real): real
    requires xs != [] && 0.0 <= p <= 1.0
  {
    At(Sorted(xs), Position(|xs|, p))
  }

  /** The place of the percentile p among n values. */
  function Position(n: nat, p: real): (h: real)
    requires n > 0 && 0.0 <= p <= 1.0
    ensures 0.0 <= h <= (n - 1) as real
  {
    var last := (n - 1) as real;
    Product(last, p);
    Product(last, 1.0 - p);
    assert last * (1.0 - p) == last - last * p;
    last * p
  }

  lemma {:induction false} PositionGrows(n: nat, p: real, q: real)
    requires n > 0 && 0.0 <= p <= q <= 1.0
    ensures Position(n, p) <= Position(n, q)
  {
    var last := (n - 1) as real;
    Product(last, q - p);
    assert last * q == last * p + last * (q - p);
  }

  /** `_median` */
  function Median(xs: seq<real>): real
    requires xs != []
  {
    var s, n := Sorted(xs), |xs|;
    if n % 2 == 1 then s[(n - 1) / 2] else (s[n / 2 - 1] + s[n / 2]) / 2.0
  }

  function Q1(xs: seq<real>): real
    requires xs != []
  {
    Pct(xs, 0.25)
  }

  function Q3(xs: seq<real>): real
    requires xs != []
  {
    Pct(xs, 0.75)
  }

  function Iqr(xs: seq<real>): real
    requires xs != []
  {
    Q3(xs) - Q1(xs)
  }

  function MaxOf(xs: seq<real>, least: real): (m: real)
    ensures m >= least && (m == least || m in xs) && forall v :: v in xs ==> v <= m
  {
    if xs == [] then least
    else
      var m := MaxOf(xs[1..], least);
      assert forall v :: v in xs ==> v == xs[0] || v in xs[1..];
      if xs[0] > m then xs[0] else m
  }

  function MinOf(xs: seq<real>, most: real): (m: real)
    ensures m <= most && (m == most || m in xs) && forall v :: v in xs ==> m <= v
  {
    if xs == [] then most
    else
      var m := MinOf(xs[1..], most);
      assert forall v :: v in xs ==> v == xs[0] || v in xs[1..];
      if xs[0] < m then xs[0] else m
  }

  function Filter(xs: seq<real>, keep: real -> bool): (ys: seq<real>)
    ensures forall v :: v in ys <==> v in xs && keep(v)
  {
    if xs == [] then []
    else
      assert forall v :: v in xs <==> v == xs[0] || v in xs[1..];
      if keep(xs[0]) then [xs[0]] + Filter(xs[1..], keep) else Filter(xs[1..], keep)
  }

  /** The upper and lower fences: one and a half ranges past the quartiles. */
  function UpperFence(xs: seq<real>): real
    requires xs != []
  {
    Q3(xs) + 1.5 * Iqr(xs)
  }

  function LowerFence(xs: seq<real>): real
    requires xs != []
  {
    Q1(xs) - 1.5 * Iqr(xs)
  }

  /** `_uav`: the largest value inside the upper fence, the third quartile at the least. */
  function Uav(xs: seq<real>): real
    requires xs != []
  {
    MaxOf(Filter(xs, v => v <= UpperFence(xs)), Q3(xs))
  }

  /** `_lav` */
  function Lav(xs: seq<real>): real
    requires xs != []
  {
    MinOf(Filter(xs, v => v >= LowerFence(xs)), Q1(xs))
  }

  /** `_outliers` */
  function Outliers(xs: seq<real>): nat
    requires xs != []
  {
    |Filter(xs, v => v > Uav(xs) || v < Lav(xs))|
  }

  /** Between its floor and the next place the interpolation stays between the two values. */
  lemma {:induction false} AtStays(s: seq<real>, h: real)
    requires Ascending(s) && 0.0 <= h <= (|s| - 1) as real
    ensures s[h.Floor] <= At(s, h)
    ensures h.Floor + 1 < |s| ==> At(s, h) <= s[h.Floor + 1]
    ensures h == h.Floor as real ==> At(s, h) == s[h.Floor]
  {
    var lo := h.Floor;
    if lo as real != h {
      hide Mix;
      MixBetween(s[lo], s[lo + 1], h - lo as real);
    } else {
      assert Mix(s[lo], s[lo], 0.0) == s[lo];
    }
  }

  lemma {:induction false} AtGrows(s: seq<real>, h: real, k: real)
    requires Ascending(s) && 0.0 <= h <= k <= (|s| - 1) as real
    ensures At(s, h) <= At(s, k)
  {
    hide Mix;
    AtStays(s, h);
    AtStays(s, k);
    var lo := h.Floor;
    if lo == k.Floor {
      if k != lo as real && h != lo as real {
        MixGrows(s[lo], s[lo + 1], h - lo as real, k - lo as real);
      }
    } else {
      assert lo + 1 <= k.Floor;
      assert s[lo + 1] <= s[k.Floor];
    }
  }

  /** A percentile grows with p. */
  lemma {:induction false} PctGrows(xs: seq<real>, p: real, q: real)
    requires xs != [] && 0.0 <= p <= q <= 1.0
    ensures Pct(xs, p) <= Pct(xs, q)
  {
    hide At, Sorted, Position;
    SortedIsSorted(xs);
    PositionGrows(|xs|, p, q);
    AtGrows(Sorted(xs), Position(|xs|, p), Position(|xs|, q));
  }

  lemma {:induction false} PctEnds(xs: seq<real>)
    requires xs != []
    ensures Pct(xs, 0.0) == Sorted(xs)[0] && Pct(xs, 1.0) == Sorted(xs)[|xs| - 1]
  {
    hide Sorted;
    assert Position(|xs|, 0.0) == 0.0 && Position(|xs|, 1.0) == (|xs| - 1) as real;
    assert forall v: real :: Mix(v, v, 0.0) == v;
  }

  lemma {:induction false} InList(xs: seq<real>, v: real)
    requires v in xs
    ensures xs != [] && Sorted(xs)[0] <= v <= Sorted(xs)[|xs| - 1]
  {
    SortedIsSorted(xs);
    assert v in multiset(Sorted(xs));
    assert v in Sorted(xs);
  }

  /** A percentile lies between the least and the greatest value. */
  lemma {:induction false} PctBetween(xs: seq<real>, p: real)
    requires xs != [] && 0.0 <= p <= 1.0
    ensures var s := Sorted(xs);
            && s[0] in xs && s[|xs| - 1] in xs
            && s[0] <= Pct(xs, p) <= s[|xs| - 1]
            && forall v :: v in xs ==> s[0] <= v <= s[|xs| - 1]
  {
    hide At, Position, Sorted, Pct;
    PctGrows(xs, 0.0, p);
    PctGrows(xs, p, 1.0);
    PctEnds(xs);
    SortedIsSorted(xs);
    var s := Sorted(xs);
    assert s[0] in multiset(s) && s[|s| - 1] in multiset(s);
    assert s[0] in multiset(xs) && s[|s| - 1] in multiset(xs);
    forall v | v in xs
      ensures s[0] <= v <= s[|s| - 1]
    {
      InList(xs, v);
    }
  }

  /** The median is the fiftieth percentile, for odd and even counts. */
  lemma {:induction false} MedianIsHalf(xs: seq<real>)
    requires xs != []
    ensures Median(xs) == Pct(xs, 0.5)
  {
    var n := |xs|;
    hide Sorted;
    var h := Position(n, 0.5);
    var s := Sorted(xs);
    if n % 2 == 1 {
      assert n == 2 * ((n - 1) / 2) + 1;
      assert h == ((n - 1) / 2) as real;
      assert Mix(s[(n - 1) / 2], s[(n - 1) / 2], 0.0) == s[(n - 1) / 2];
    } else {
      assert n == 2 * (n / 2);
      assert h == (n / 2 - 1) as real + 0.5;
      assert h.Floor == n / 2 - 1;
    }
  }

  /** The five numbers stand in their order. */
  lemma {:induction false} FiveInOrder(xs: seq<real>)
    requires xs != []
    ensures Lav(xs) <= Q1(xs) <= Median(xs) <= Q3(xs) <= Uav(xs)
  {
    MedianIsHalf(xs);
    PctGrows(xs, 0.25, 0.5);
    PctGrows(xs, 0.5, 0.75);
  }

  lemma {:induction false} FilterAlike(xs: seq<real>, f: real -> bool, g: real -> bool)
    requires forall v :: v in xs ==> f(v) == g(v)
    ensures Filter(xs, f) == Filter(xs, g)
  {
    if xs != [] {
      assert forall v :: v in xs[1..] ==> v in xs;
      FilterAlike(xs[1..], f, g);
      var x: real := xs[0];
      assert x in xs && f(x) == g(x);
      assert Filter(xs, f) == if f(xs[0]) then [xs[0]] + Filter(xs[1..], f) else Filter(xs[1..], f);
      assert Filter(xs, g) == if g(xs[0]) then [xs[0]] + Filter(xs[1..], g) else Filter(xs[1..], g);
    }
  }

  /** The outliers are exactly the values outside the fences - the adjacent values cut where the fences do. */
  lemma {:induction false} OutliersOutsideFences(xs: seq<real>)
    requires xs != []
    ensures Outliers(xs) == |Filter(xs, v => v > UpperFence(xs) || v < LowerFence(xs))|
  {
    FiveInOrder(xs);
    assert Iqr(xs) >= 0.0;
    forall v | v in xs
      ensures (v > Uav(xs) || v < Lav(xs)) == (v > UpperFence(xs) || v < LowerFence(xs))
    {
      var inside := Filter(xs, v => v <= UpperFence(xs));
      var above := Filter(xs, v => v >= LowerFence(xs));
      assert v <= UpperFence(xs) ==> v in inside;
      assert v >= LowerFence(xs) ==> v in above;
      assert Uav(xs) == Q3(xs) || Uav(xs) in inside;
      assert Lav(xs) == Q1(xs) || Lav(xs) in above;
    }
    FilterAlike(xs, v => v > Uav(xs) || v < Lav(xs), v => v > UpperFence(xs) || v < LowerFence(xs));
  }

  /** The order the values come in does not matter: two lists of the same values have the same percentiles. */
  lemma {:induction false} OrderDoesNotMatter(xs: seq<real>, ys: seq<real>, p: real)
    requires multiset(xs) == multiset(ys) && xs != [] && ys != [] && 0.0 <= p <= 1.0
    ensures Pct(xs, p) == Pct(ys, p)
  {
    SortedIsSorted(xs);
    SortedIsSorted(ys);
    OneSorting(Sorted(xs), Sorted(ys));
  }

  lemma {:induction false} OneSorting(s: seq<real>, t: seq<real>)
    requires Ascending(s) && Ascending(t) && multiset(s) == multiset(t)
    ensures s == t
  {
    assert |multiset(s)| == |s| && |multiset(t)| == |t|;
    if s != [] {
      OneLeast(s, t);
      OneLeast(t, s);
      LessItsLeast(s);
      LessItsLeast(t);
      hide Ascending;
      OneSorting(s[1..], t[1..]);
      assert s == [s[0]] + s[1..] && t == [t[0]] + t[1..];
    }
  }

  lemma {:induction false} OneLeast(s: seq<real>, t: seq<real>)
    requires s != [] && t != [] && Ascending(s) && multiset(s) == multiset(t)
    ensures s[0] <= t[0]
  {
    assert t[0] in multiset(s);
    assert t[0] in s;
  }

  lemma {:induction false} LessItsLeast(s: seq<real>)
    requires s != [] && Ascending(s)
    ensures multiset(s[1..]) == multiset(s) - multiset{s[0]} && Ascending(s[1..])
  {
    assert s == [s[0]] + s[1..];
  }

  // ---- where the quartiles and the fences stand --------------------------------------------------------------------

  /** A quarter's place among the sorted values: r quarters past the k-th on the way to the next. */
  lemma {:induction false} QuartersStand(xs: seq<real>, quarters: nat, k: nat, r: nat)
    requires xs != [] && quarters <= 4 && r < 4 && quarters * (|xs| - 1) == 4 * k + r
    ensures var s := Sorted(xs);
            && k < |xs| && (r > 0 ==> k + 1 < |xs|)
            && 4.0 * Pct(xs, quarters as real / 4.0)
               == (4 - r) as real * s[k] + (if r > 0 then r as real * s[k + 1] else 0.0)
  {
    var s, n := Sorted(xs), |xs|;
    hide Sorted;
    var h := Position(n, quarters as real / 4.0);
    QuarterPlace(n, quarters, k, r);
    assert h.Floor == k;
    var f := h - k as real;
    assert 4.0 * f == r as real;
    if r > 0 {
      assert 4.0 * Mix(s[k], s[k + 1], f) == 4.0 * s[k] + 4.0 * f * (s[k + 1] - s[k]);
    } else {
      assert f == 0.0;
    }
  }

  lemma {:induction false} QuarterPlace(n: nat, quarters: nat, k: nat, r: nat)
    requires n > 0 && quarters <= 4 && r < 4 && quarters * (n - 1) == 4 * k + r
    ensures 4.0 * Position(n, quarters as real / 4.0) == (4 * k + r) as real
    ensures k < n && (r > 0 ==> k + 1 < n)
  {
    assert 4.0 * ((n - 1) as real * (quarters as real / 4.0)) == (n - 1) as real * quarters as real;
    assert (quarters * (n - 1)) as real == quarters as real * (n - 1) as real;
    assert quarters * (n - 1) <= 4 * (n - 1);
  }

  /** The quartiles are the first and third quarter, the median the second, and the fences stand three halves of the
      range between them beyond. */
  lemma {:induction false} FencesStand(xs: seq<real>)
    requires xs != []
    ensures Q1(xs) == Pct(xs, 1.0 / 4.0) && Q3(xs) == Pct(xs, 3.0 / 4.0) && Median(xs) == Pct(xs, 2.0 / 4.0)
    ensures 2.0 * (UpperFence(xs) - Q3(xs)) == 3.0 * (Q3(xs) - Q1(xs)) == 2.0 * (Q1(xs) - LowerFence(xs))
  {
    MedianIsHalf(xs);
    hide Pct, Median;
  }
}
