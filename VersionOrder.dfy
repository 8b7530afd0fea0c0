/** Numeric comparison of version strings (`compareVersions`): the strings
    are split at dots, each piece is read with `strconv.Atoi` with its error
    ignored, a missing trailing piece counts as 0, and the first position
    where the two numbers differ decides. */
module VersionOrder {
  import opened GoStrings
  import opened GoStrconv

  /** The numbers `compareVersions` reads from the pieces of `v`: the value
      `Atoi` returns, so 0 for a piece that is no integer. */
  function Segments(v: string): seq<int> {
    var parts := Split(v, '.');
    seq(|parts|, k requires 0 <= k < |parts| => Atoi(parts[k]).value)
  }

  /** Segment `k` of `segs`, with every missing segment read as 0. */
  function Pad(segs: seq<int>, k: nat): int {
    if k < |segs| then segs[k] else 0
  }

  /** Segment `k` of version `v` as `compareVersions` sees it. */
  function SegmentAt(v: string, k: nat): int {
    Pad(Segments(v), k)
  }

  function Max(x: nat, y: nat): nat {
    if x < y then y else x
  }

  /** The comparison of positions `i` up to `n` of two segment sequences. */
  function CompareFrom(a: seq<int>, b: seq<int>, i: nat, n: nat): (r: int)
    ensures r == -1 || r == 0 || r == 1
    decreases n - i
  {
    if i >= n then 0
    else if Pad(a, i) > Pad(b, i) then 1
    else if Pad(a, i) < Pad(b, i) then -1
    else CompareFrom(a, b, i + 1, n)
  }

  function CompareSegments(a: seq<int>, b: seq<int>): int {
    CompareFrom(a, b, 0, Max(|a|, |b|))
  }

  /** The value `compareVersions(v1, v2)` returns: only -1, 0 or 1. */
  function Compare(v1: string, v2: string): (r: int)
    ensures r == -1 || r == 0 || r == 1
  {
    CompareSegments(Segments(v1), Segments(v2))
  }

  /** `compareVersions`: walks to the longer of the two piece lists and
      returns at the first position where the numbers differ. */
  method CompareVersions(v1: string, v2: string) returns (r: int)
    ensures r == Compare(v1, v2)
  {
    var parts1 := Split(v1, '.');
    var parts2 := Split(v2, '.');
    ghost var a, b := Segments(v1), Segments(v2);
    var maxLen := |parts1|;
    if |parts2| > maxLen {
      maxLen := |parts2|;
    }
    var i := 0;
    while i < maxLen
      invariant 0 <= i <= maxLen
      invariant CompareFrom(a, b, i, maxLen) == Compare(v1, v2)
    {
      var p1, p2 := 0, 0;
      if i < |parts1| {
        p1 := Atoi(parts1[i]).value;
      }
      if i < |parts2| {
        p2 := Atoi(parts2[i]).value;
      }
      assert p1 == Pad(a, i) && p2 == Pad(b, i);
      if p1 > p2 {
        return 1;
      } else if p1 < p2 {
        return -1;
      }
      i := i + 1;
    }
    return 0;
  }

  // ---- Properties of the segment comparison ----

  /** Past the end of both sequences nothing differs. */
  lemma {:induction false} CompareFromTail(a: seq<int>, b: seq<int>, i: nat, n: nat)
    requires i >= Max(|a|, |b|)
    ensures CompareFrom(a, b, i, n) == 0
    decreases n - i
  {
    if i < n {
      CompareFromTail(a, b, i + 1, n);
    }
  }

  /** Any bound at or beyond both lengths gives the same comparison. */
  lemma {:induction false} CompareFromBound(a: seq<int>, b: seq<int>, i: nat, n: nat)
    requires n >= Max(|a|, |b|)
    ensures CompareFrom(a, b, i, n) == CompareFrom(a, b, i, Max(|a|, |b|))
    decreases Max(|a|, |b|) - i
  {
    if i >= Max(|a|, |b|) {
      CompareFromTail(a, b, i, n);
    } else {
      CompareFromBound(a, b, i + 1, n);
    }
  }

  lemma {:induction false} CompareFromAntisymmetric(a: seq<int>, b: seq<int>, i: nat, n: nat)
    ensures CompareFrom(a, b, i, n) == -CompareFrom(b, a, i, n)
    decreases n - i
  {
    if i < n {
      CompareFromAntisymmetric(a, b, i + 1, n);
    }
  }

  lemma {:induction false} CompareFromReflexive(a: seq<int>, i: nat, n: nat)
    ensures CompareFrom(a, a, i, n) == 0
    decreases n - i
  {
    if i < n {
      CompareFromReflexive(a, i + 1, n);
    }
  }

  lemma {:induction false} CompareFromTransitive(a: seq<int>, b: seq<int>, c: seq<int>, i: nat, n: nat)
    requires CompareFrom(a, b, i, n) >= 0 && CompareFrom(b, c, i, n) >= 0
    ensures CompareFrom(a, c, i, n) >= 0
    decreases n - i
  {
    if i < n && Pad(a, i) == Pad(b, i) && Pad(b, i) == Pad(c, i) {
      CompareFromTransitive(a, b, c, i + 1, n);
    }
  }

  /** Sequences that agree once padded with zeros compare alike. */
  lemma {:induction false} CompareFromPadded(a: seq<int>, a': seq<int>, b: seq<int>, i: nat, n: nat)
    requires forall k: nat :: Pad(a, k) == Pad(a', k)
    ensures CompareFrom(a, b, i, n) == CompareFrom(a', b, i, n)
    decreases n - i
  {
    if i < n {
      CompareFromPadded(a, a', b, i + 1, n);
    }
  }

  /** From position `i` on, the comparison is decided by the first position
      where the padded segments differ. */
  lemma {:induction false} CompareFromFirstDifference(a: seq<int>, b: seq<int>, i: nat, n: nat)
    requires n >= Max(|a|, |b|)
    ensures CompareFrom(a, b, i, n) == 0 <==> forall k: nat :: k >= i ==> Pad(a, k) == Pad(b, k)
    ensures CompareFrom(a, b, i, n) == 1 <==>
      exists k: nat :: k >= i && Pad(a, k) > Pad(b, k) &&
        forall j: nat :: i <= j < k ==> Pad(a, j) == Pad(b, j)
    decreases n - i
  {
    if i >= n {
      assert forall k: nat :: k >= i ==> Pad(a, k) == 0 && Pad(b, k) == 0;
    } else if Pad(a, i) > Pad(b, i) {
      assert forall j: nat :: i <= j < i ==> Pad(a, j) == Pad(b, j);
    } else if Pad(a, i) < Pad(b, i) {
    } else {
      CompareFromFirstDifference(a, b, i + 1, n);
      if CompareFrom(a, b, i + 1, n) == 1 {
        var k: nat :| k >= i + 1 && Pad(a, k) > Pad(b, k) && forall j: nat :: i + 1 <= j < k ==> Pad(a, j) == Pad(b, j);
        assert forall j: nat :: i <= j < k ==> Pad(a, j) == Pad(b, j);
      }
      if exists k: nat :: k >= i && Pad(a, k) > Pad(b, k) && forall j: nat :: i <= j < k ==> Pad(a, j) == Pad(b, j) {
        var k: nat :| k >= i && Pad(a, k) > Pad(b, k) && forall j: nat :: i <= j < k ==> Pad(a, j) == Pad(b, j);
        assert k >= i + 1 && forall j: nat :: i + 1 <= j < k ==> Pad(a, j) == Pad(b, j);
      }
    }
  }

  // ---- Properties of compareVersions ----

  /** Swapping the arguments negates the result. */
  lemma CompareAntisymmetric(v1: string, v2: string)
    ensures Compare(v1, v2) == -Compare(v2, v1)
  {
    var a, b := Segments(v1), Segments(v2);
    CompareFromAntisymmetric(a, b, 0, Max(|a|, |b|));
    assert Max(|a|, |b|) == Max(|b|, |a|);
  }

  /** Every version is equal to itself. */
  lemma CompareReflexive(v: string)
    ensures Compare(v, v) == 0
  {
    var a := Segments(v);
    CompareFromReflexive(a, 0, Max(|a|, |a|));
  }

  /** "At least as new as" is transitive. */
  lemma CompareTransitive(v1: string, v2: string, v3: string)
    requires Compare(v1, v2) >= 0 && Compare(v2, v3) >= 0
    ensures Compare(v1, v3) >= 0
  {
    var a, b, c := Segments(v1), Segments(v2), Segments(v3);
    var n := Max(Max(|a|, |b|), |c|);
    CompareFromBound(a, b, 0, n);
    CompareFromBound(b, c, 0, n);
    CompareFromBound(a, c, 0, n);
    CompareFromTransitive(a, b, c, 0, n);
  }

  /** `compareVersions` is decided by the first segment where the numbers
      read by `Atoi` differ: 1 when the left one is larger there, -1 when it
      is smaller, 0 when no segment differs. */
  lemma CompareFirstDifference(v1: string, v2: string)
    ensures Compare(v1, v2) == 0 <==> forall k: nat :: SegmentAt(v1, k) == SegmentAt(v2, k)
    ensures Compare(v1, v2) == 1 <==>
      exists k: nat :: SegmentAt(v1, k) > SegmentAt(v2, k) &&
        forall j: nat :: j < k ==> SegmentAt(v1, j) == SegmentAt(v2, j)
    ensures Compare(v1, v2) == -1 <==>
      exists k: nat :: SegmentAt(v1, k) < SegmentAt(v2, k) &&
        forall j: nat :: j < k ==> SegmentAt(v1, j) == SegmentAt(v2, j)
  {
    var a, b := Segments(v1), Segments(v2);
    CompareFromFirstDifference(a, b, 0, Max(|a|, |b|));
    CompareFromFirstDifference(b, a, 0, Max(|b|, |a|));
    CompareAntisymmetric(v1, v2);
    assert forall k: nat :: SegmentAt(v1, k) == Pad(a, k) && SegmentAt(v2, k) == Pad(b, k);
    if forall k: nat :: k >= 0 ==> Pad(a, k) == Pad(b, k) {
      assert forall k: nat :: SegmentAt(v1, k) == SegmentAt(v2, k);
    }
  }

  /** A trailing `.0` changes nothing: missing segments count as 0. */
  lemma CompareTrailingZero(v: string, w: string)
    ensures Compare(v + ".0", w) == Compare(v, w)
    ensures Compare(w, v + ".0") == Compare(w, v)
  {
    SplitAround(v, '.', "0");
    assert v + ".0" == v + ['.'] + "0";
    SplitNoSeparator("0", '.');
    assert Atoi("0").value == 0;
    var a, a', b := Segments(v), Segments(v + ".0"), Segments(w);
    assert a' == a + [0];
    assert forall k: nat :: Pad(a', k) == Pad(a, k);
    CompareFromPadded(a', a, b, 0, Max(|a'|, |b|));
    CompareFromBound(a, b, 0, Max(|a'|, |b|));
    CompareAntisymmetric(v + ".0", w);
    CompareAntisymmetric(v, w);
  }

  /** A version and the same version with `.0` appended are equal. */
  lemma ComparePadding(v: string)
    ensures Compare(v, v + ".0") == 0
  {
    CompareTrailingZero(v, v);
    CompareReflexive(v);
  }

  /** Segments beyond the range of `int64` are all read as the largest
      `int64`, so versions that differ only there compare equal: the order
      is numeric only below that bound. */
  lemma ClampedSegmentsTie(x: string, y: string)
    requires IsDigits(x) && IsDigits(y)
    requires DecimalValue(x) > MAX_INT64 && DecimalValue(y) > MAX_INT64
    ensures Compare(x, y) == 0
  {
    AtoiOfDigits(x);
    AtoiOfDigits(y);
    SplitNoSeparator(x, '.');
    SplitNoSeparator(y, '.');
    assert Segments(x) == Segments(y);
    CompareReflexive(x);
  }

  /** The decimal forms of 2^63 and 2^63 + 1, one-segment versions just
      past the `int64` range, differ and still compare equal. */
  lemma ClampedSegmentsExample()
    ensures DecimalString(MAX_INT64 + 1) != DecimalString(MAX_INT64 + 2)
    ensures Compare(DecimalString(MAX_INT64 + 1), DecimalString(MAX_INT64 + 2)) == 0
  {
    DecimalRoundTrip(MAX_INT64 + 1);
    DecimalRoundTrip(MAX_INT64 + 2);
    ClampedSegmentsTie(DecimalString(MAX_INT64 + 1), DecimalString(MAX_INT64 + 2));
  }

  lemma SegmentsOfTwo(x: string, y: string)
    requires '.' !in x && '.' !in y
    ensures Segments(x + "." + y) == [Atoi(x).value, Atoi(y).value]
  {
    SplitNoSeparator(x, '.');
    SplitNoSeparator(y, '.');
    SplitAround(x, '.', y);
    assert x + "." + y == x + ['.'] + y;
  }

  lemma SegmentsOfThree(x: string, y: string, z: string)
    requires '.' !in x && '.' !in y && '.' !in z
    ensures Segments(x + "." + y + "." + z) == [Atoi(x).value, Atoi(y).value, Atoi(z).value]
  {
    SplitNoSeparator(x, '.');
    SplitNoSeparator(y, '.');
    SplitNoSeparator(z, '.');
    SplitAround(x, '.', y);
    SplitAround(x + "." + y, '.', z);
    assert x + "." + y == x + ['.'] + y;
    assert x + "." + y + "." + z == (x + "." + y) + ['.'] + z;
  }

  lemma SmallSegmentValues()
    ensures Atoi("1").value == 1 && Atoi("3").value == 3 && Atoi("4").value == 4
    ensures Atoi("6").value == 6 && Atoi("20").value == 20 && Atoi("21").value == 21
  {
  }

  lemma Segments1214()
    ensures Segments("1.21.4") == [1, 21, 4]
  {
    SmallSegmentValues();
    SegmentsOfThree("1", "21", "4");
    assert "1" + "." + "21" + "." + "4" == "1.21.4";
  }

  lemma Segments1213()
    ensures Segments("1.21.3") == [1, 21, 3]
  {
    SmallSegmentValues();
    SegmentsOfThree("1", "21", "3");
    assert "1" + "." + "21" + "." + "3" == "1.21.3";
  }

  lemma Segments121()
    ensures Segments("1.21") == [1, 21]
  {
    SmallSegmentValues();
    SegmentsOfTwo("1", "21");
    assert "1" + "." + "21" == "1.21";
  }

  lemma Segments1206()
    ensures Segments("1.20.6") == [1, 20, 6]
  {
    SmallSegmentValues();
    SegmentsOfThree("1", "20", "6");
    assert "1" + "." + "20" + "." + "6" == "1.20.6";
  }

  lemma PatchExample()
    ensures Compare("1.21.4", "1.21.3") == 1
  {
    Segments1214();
    Segments1213();
    assert CompareFrom([1, 21, 4], [1, 21, 3], 0, 3) == 1;
  }

  lemma MinorExample()
    ensures Compare("1.21", "1.20.6") == 1
  {
    Segments121();
    Segments1206();
    assert CompareFrom([1, 21], [1, 20, 6], 0, 3) == 1;
  }

  /** The cases of the launcher's unit test table for `compareVersions`. */
  lemma CompareExamples()
    ensures Compare("1.21.4", "1.21.3") == 1
    ensures Compare("1.21.3", "1.21.4") == -1
    ensures Compare("1.21.4", "1.21.4") == 0
    ensures Compare("1.21", "1.20.6") == 1
    ensures Compare("1.20.6", "1.21") == -1
    ensures Compare("1.20", "1.20.0") == 0
  {
    PatchExample();
    MinorExample();
    CompareAntisymmetric("1.21.4", "1.21.3");
    CompareReflexive("1.21.4");
    CompareAntisymmetric("1.21", "1.20.6");
    ComparePadding("1.20");
    assert "1.20" + ".0" == "1.20.0";
  }
}
