/** Discovery of the Paper versions already downloaded
    (`getVersionsFromJars`): from the names of the jar files present, keep
    those of the form `paper-<version>.jar`, strip prefix and suffix, and
    order the versions newest first. The directory listing itself is an
    input here. */
module LocalVersions {
  import opened GoStrings
  import opened Naming
  import opened VersionOrder

  /** The test the loop applies to each file name. */
  predicate IsJarName(file: string) {
    HasPrefix(file, JAR_PREFIX) && HasSuffix(file, JAR_SUFFIX)
  }

  /** `TrimPrefix` of `paper-` followed by `TrimSuffix` of `.jar`. */
  function StripJarName(file: string): string {
    TrimSuffix(TrimPrefix(file, JAR_PREFIX), JAR_SUFFIX)
  }

  /** The versions the loop collects, in the order of the file names; at
      most one per file name. */
  function JarVersions(files: seq<string>): (vs: seq<string>)
    ensures |vs| <= |files|
  {
    if files == [] then []
    else
      var kept := JarVersions(files[..|files| - 1]);
      var file := files[|files| - 1];
      if IsJarName(file) then kept + [StripJarName(file)] else kept
  }

  /** Each version is at least as new as the next one. */
  predicate Descending(vs: seq<string>) {
    forall k :: 0 < k < |vs| ==> Compare(vs[k - 1], vs[k]) >= 0
  }

  /** `getVersionsFromJars` on a given list of file names: the collecting
      loop, then the sort with `compareVersions(a, b) > 0` as "less". */
  method GetVersionsFromJars(files: seq<string>) returns (versions: seq<string>)
    ensures multiset(versions) == multiset(JarVersions(files))
    ensures Descending(versions)
  {
    var found: seq<string> := [];
    for k := 0 to |files|
      invariant found == JarVersions(files[..k])
    {
      var file := files[k];
      assert files[..k + 1][..k] == files[..k];
      if HasPrefix(file, JAR_PREFIX) && HasSuffix(file, JAR_SUFFIX) {
        var version := TrimPrefix(file, JAR_PREFIX);
        version := TrimSuffix(version, JAR_SUFFIX);
        found := found + [version];
      }
    }
    assert files[..|files|] == files;
    var a := new string[|found|](i requires 0 <= i < |found| => found[i]);
    assert a[..] == found;
    SortDescending(a);
    versions := a[..];
  }

  /** An in-place sort of `a`, newest version first. The source calls
      `sort.Slice`, which promises an ordering and a permutation and nothing
      about the order of equal versions; insertion sort is one such sort. */
  method SortDescending(a: array<string>)
    modifies a
    ensures multiset(a[..]) == multiset(old(a[..]))
    ensures Descending(a[..])
  {
    if a.Length < 2 {
      return;
    }
    var i := 1;
    while i < a.Length
      invariant 1 <= i <= a.Length
      invariant DescendingBetween(a[..], 0, i)
      invariant multiset(a[..]) == multiset(old(a[..]))
    {
      InsertDown(a, i);
      i := i + 1;
    }
  }

  /** Neighbours at positions `lo` to `hi - 1` of `s` are in descending
      order. */
  ghost predicate DescendingBetween(s: seq<string>, lo: nat, hi: nat)
    requires hi <= |s|
  {
    forall k :: lo < k < hi ==> Compare(s[k - 1], s[k]) >= 0
  }

  /** Where the element being inserted stands at position `j`, with the
      sorted prefix to its left and the part already moved past to its
      right. */
  ghost predicate Inserting(s: seq<string>, j: nat, i: nat)
    requires j <= i < |s|
  {
    && DescendingBetween(s, 0, j)
    && DescendingBetween(s, j + 1, i + 1)
    && (0 < j < i ==> Compare(s[j - 1], s[j + 1]) >= 0)
    && (j < i ==> Compare(s[j], s[j + 1]) >= 0)
  }

  /** Swapping the inserted element with a strictly older left neighbour
      keeps the insertion invariant one position further left. */
  lemma InsertingStep(s: seq<string>, j: nat, i: nat)
    requires 0 < j <= i < |s| && Inserting(s, j, i)
    requires Compare(s[j], s[j - 1]) > 0
    ensures Inserting(s[j - 1 := s[j]][j := s[j - 1]], j - 1, i)
  {
    var t := s[j - 1 := s[j]][j := s[j - 1]];
    assert forall k :: 0 <= k < |s| && k != j - 1 && k != j ==> t[k] == s[k];
    assert DescendingBetween(t, 0, j - 1) by {
      forall k | 0 < k < j - 1 ensures Compare(t[k - 1], t[k]) >= 0 {
        assert t[k - 1] == s[k - 1] && t[k] == s[k];
      }
    }
    assert DescendingBetween(t, j, i + 1) by {
      forall k | j < k < i + 1 ensures Compare(t[k - 1], t[k]) >= 0 {
        if k > j + 1 {
          assert t[k - 1] == s[k - 1] && t[k] == s[k];
        }
      }
    }
  }

  /** Once the inserted element is no newer than its left neighbour, or
      has reached the front, the whole prefix up to `i` is descending. */
  lemma InsertingDone(s: seq<string>, j: nat, i: nat)
    requires j <= i < |s| && Inserting(s, j, i)
    requires 0 < j ==> Compare(s[j - 1], s[j]) >= 0
    ensures DescendingBetween(s, 0, i + 1)
  {
  }

  /** Moves `a[i]` down into the descending prefix `a[..i]`. */
  method InsertDown(a: array<string>, i: nat)
    requires i < a.Length
    requires DescendingBetween(a[..], 0, i)
    modifies a
    ensures DescendingBetween(a[..], 0, i + 1)
    ensures multiset(a[..]) == multiset(old(a[..]))
    ensures a[i + 1..] == old(a[i + 1..])
  {
    var j := i;
    while 0 < j
      invariant 0 <= j <= i
      invariant Inserting(a[..], j, i)
      invariant multiset(a[..]) == multiset(old(a[..]))
      invariant a[i + 1..] == old(a[i + 1..])
    {
      var c := CompareVersions(a[j - 1], a[j]);
      if c >= 0 {
        break;
      }
      CompareAntisymmetric(a[j - 1], a[j]);
      InsertingStep(a[..], j, i);
      Swap(a, j - 1, j);
      j := j - 1;
    }
    InsertingDone(a[..], j, i);
  }

  method Swap(a: array<string>, i: nat, j: nat)
    requires i < j < a.Length
    modifies a
    ensures a[..] == old(a[..])[i := old(a[j])][j := old(a[i])]
    ensures multiset(a[..]) == multiset(old(a[..]))
  {
    a[i], a[j] := a[j], a[i];
  }

  // ---- Properties ----

  /** Newest first holds between any two positions, not only neighbours. */
  lemma {:induction false} DescendingPairwise(vs: seq<string>, i: nat, j: nat)
    requires Descending(vs) && i <= j < |vs|
    ensures Compare(vs[i], vs[j]) >= 0
    decreases j - i
  {
    if i == j {
      CompareReflexive(vs[i]);
    } else {
      DescendingPairwise(vs, i, j - 1);
      CompareTransitive(vs[i], vs[j - 1], vs[j]);
    }
  }

  /** The name written for a version passes the test and strips back to
      the version. */
  lemma StripJarPath(version: string)
    ensures IsJarName(JarPath(version))
    ensures StripJarName(JarPath(version)) == version
  {
    var p := JarPath(version);
    assert TrimPrefix(p, JAR_PREFIX) == version + JAR_SUFFIX;
    assert HasSuffix(version + JAR_SUFFIX, JAR_SUFFIX);
  }

  /** A name that passes the test is the name written for its stripped
      version: prefix and suffix never overlap. */
  lemma JarNameIsJarPath(file: string)
    requires IsJarName(file)
    ensures JarPath(StripJarName(file)) == file
  {
    var n := |file|;
    assert n >= 10 by {
      var p := n - 4;
      assert file[p] == file[n - 4..][0] == '.';
      assert forall k :: 0 <= k < 6 ==> file[k] == file[..6][k] && JAR_PREFIX[k] != '.';
      if p < 6 {
        assert false;
      }
    }
    var middle := file[6..n - 4];
    assert TrimPrefix(file, JAR_PREFIX) == file[6..];
    assert file[6..][|file[6..]| - 4..] == file[n - 4..];
    assert StripJarName(file) == middle;
    assert file == file[..6] + middle + file[n - 4..];
  }

  /** A version occurs in the collected list exactly as often as its jar
      name occurs among the file names; every other name contributes
      nothing. */
  lemma {:induction false} JarVersionsCount(files: seq<string>, version: string)
    ensures multiset(JarVersions(files))[version] == multiset(files)[JarPath(version)]
    decreases |files|
  {
    if files != [] {
      var init, file := files[..|files| - 1], files[|files| - 1];
      assert files == init + [file];
      JarVersionsCount(init, version);
      StripJarPath(version);
      if IsJarName(file) {
        JarNameIsJarPath(file);
        if file == JarPath(version) {
          assert StripJarName(file) == version;
        } else {
          assert StripJarName(file) != version;
        }
      } else {
        assert file != JarPath(version);
      }
    }
  }

  /** Every entry comes from a kept file name; names without the prefix or
      the suffix are dropped. */
  lemma JarVersionsMembers(files: seq<string>, version: string)
    ensures version in JarVersions(files) <==> JarPath(version) in files
  {
    JarVersionsCount(files, version);
  }

  /** Listing the jars written for some versions gives those versions
      back, in order. */
  lemma {:induction false} JarVersionsOfJarPaths(versions: seq<string>)
    ensures JarVersions(seq(|versions|, k requires 0 <= k < |versions| => JarPath(versions[k]))) == versions
    decreases |versions|
  {
    var files := seq(|versions|, k requires 0 <= k < |versions| => JarPath(versions[k]));
    if versions != [] {
      var init := versions[..|versions| - 1];
      JarVersionsOfJarPaths(init);
      assert files[..|files| - 1] == seq(|init|, k requires 0 <= k < |init| => JarPath(init[k]));
      StripJarPath(versions[|versions| - 1]);
      assert versions == init + [versions[|versions| - 1]];
    }
  }
}
