/** The names the launcher derives from a version and a build number: the
    local jar file, the build-list URL and the download URL of the Paper
    API. */
module Naming {
  import opened GoStrings

  const JAR_PREFIX: string := "paper-"
  const JAR_SUFFIX: string := ".jar"
  const API_VERSIONS: string := "https://api.papermc.io/v2/projects/paper/versions/"

  /** `fmt.Sprintf("paper-%s.jar", version)`: the local jar of a version.
      It keeps the `paper-` prefix and the `.jar` suffix that local
      discovery looks for, with the version between them. */
  function JarPath(version: string): (p: string)
    ensures HasPrefix(p, JAR_PREFIX) && HasSuffix(p, JAR_SUFFIX)
    ensures |p| == |version| + 10 && p[6..|p| - 4] == version
  {
    var p := JAR_PREFIX + version + JAR_SUFFIX;
    assert p[..|JAR_PREFIX|] == JAR_PREFIX;
    assert p[|p| - |JAR_SUFFIX|..] == JAR_SUFFIX;
    p
  }

  /** The URL that lists the builds of a version: the API's versions path,
      the version, then `/builds`. */
  function BuildsURL(version: string): (u: string)
    ensures HasPrefix(u, API_VERSIONS) && HasSuffix(u, "/builds")
    ensures |u| == |API_VERSIONS| + |version| + 7 && u[|API_VERSIONS|..|u| - 7] == version
  {
    var u := API_VERSIONS + version + "/builds";
    assert u[..|API_VERSIONS|] == API_VERSIONS;
    assert u[|u| - 7..] == "/builds";
    u
  }

  /** The file name the API gives the jar of one build. */
  function ArtifactName(version: string, build: string): string {
    "paper-" + version + "-" + build + ".jar"
  }

  /** The URL the jar of one build is downloaded from. */
  function DownloadURL(version: string, build: string): string {
    API_VERSIONS + version + "/builds/" + build + "/downloads/paper-" + version + "-" + build + ".jar"
  }

  /** The download URL lies below the build-list URL and ends in the
      artifact name. */
  lemma DownloadURLShape(version: string, build: string)
    ensures DownloadURL(version, build) ==
      BuildsURL(version) + "/" + build + "/downloads/" + ArtifactName(version, build)
  {
  }

  /** Distinct versions get distinct local jar names. */
  lemma JarPathInjective(v1: string, v2: string)
    requires JarPath(v1) == JarPath(v2)
    ensures v1 == v2
  {
  }

  /** For a valid version (digits and dots, so no `/`) and a build number
      without `/`, the download URL determines both. */
  lemma DownloadURLInjective(v1: string, b1: string, v2: string, b2: string)
    requires '/' !in v1 && '/' !in v2 && '/' !in b1 && '/' !in b2
    requires DownloadURL(v1, b1) == DownloadURL(v2, b2)
    ensures v1 == v2 && b1 == b2
  {
    var r1, t1 := DownloadURLTail(v1, b1);
    var r2, t2 := DownloadURLTail(v2, b2);
    FirstSlash(v1, r1, v2, r2);
    assert r1[7..] == b1 + "/" + t1;
    assert r2[7..] == b2 + "/" + t2;
    FirstSlash(b1, t1, b2, t2);
  }

  lemma DownloadURLTail(v: string, b: string) returns (r: string, t: string)
    ensures DownloadURL(v, b)[|API_VERSIONS|..] == v + "/" + r
    ensures r == "builds/" + b + "/" + t
    ensures t == "downloads/paper-" + v + "-" + b + ".jar"
  {
    t := "downloads/paper-" + v + "-" + b + ".jar";
    r := "builds/" + b + "/" + t;
    var u := DownloadURL(v, b);
    var x := v + "/" + r;
    assert u == API_VERSIONS + x;
  }

  /** Two strings without `/` that are each followed by `/` in the same
      string are equal, and so is what follows the `/`. */
  lemma FirstSlash(x: string, rest1: string, y: string, rest2: string)
    requires '/' !in x && '/' !in y
    requires x + "/" + rest1 == y + "/" + rest2
    ensures x == y && rest1 == rest2
  {
    var s := x + "/" + rest1;
    assert s[|x|] == '/';
    assert s == y + "/" + rest2;
    assert s[|y|] == '/';
    assert x == s[..|x|];
    assert y == s[..|y|];
    assert rest1 == s[|x| + 1..];
    assert rest2 == s[|y| + 1..];
  }
}
