# Paper server launcher: version and artifact resolution

This project models, in Dafny, the part of the `mc` launcher (`main.go`)
that decides which Paper server jar to run and where it comes from:

- `isValidVersion` checks a Minecraft version string against
  `^\d+\.\d+(\.\d+)?$`.
- `compareVersions` orders version strings segment by segment, with
  numbers read by `strconv.Atoi`.
- `getVersionsFromJars` finds the versions already downloaded
  (`paper-<version>.jar`) and sorts them newest first.
- `extractLatestBuild` picks the largest build number out of the build
  list the Paper API returns.
- The launcher names the local jar and builds the two API URLs from a
  version and a build.

The Go library calls the core depends on are modelled in two modules:

- `GoStrings` models `strings.Split`, `HasPrefix`, `HasSuffix`,
  `TrimPrefix` and `TrimSuffix`.
- `GoStrconv` models `strconv.Atoi` and `strconv.Itoa`:
  - It assumes a 64-bit platform.
  - A syntax error reads as 0.
  - A value outside the `int64` range gives a range error, with the value
    clamped to the nearest bound, as `strconv.ParseInt` does.

The modules follow the program's structure:

- `VersionFormat`: the regular expression, written as a character scanner.
- `VersionOrder`: `compareVersions`, as a loop proved equal to a function,
  plus the order's properties.
- `LocalVersions`: the discovery loop and an in-place sort on an array.
- `LatestBuild`: the match scan, the maximum loop and its properties.
- `Naming`: the jar name and the URLs.

`compareVersions` reads every segment through `strconv.Atoi` and ignores
the error, so every segment above the `int64` maximum reads as that
maximum. Versions that differ only in such segments therefore compare equal
(`VersionOrder.ClampedSegmentsTie`). The order is numeric only below that
bound.

## Model

| member | source | states |
|---|---|---|
| GoStrings.Split | main.go:230-231 | `strings.Split` on `.` gives one more piece than there are dots, and no piece holds a dot |
| GoStrings.JoinSplit | main.go:230-231 | joining the pieces with the separator gives back the string that was split |
| GoStrings.HasPrefix | main.go:215 | `strings.HasPrefix`: the string starts with the prefix |
| GoStrings.HasSuffix | main.go:215 | `strings.HasSuffix`: the string ends with the suffix |
| GoStrings.TrimPrefix | main.go:216 | with the prefix present, the input is the prefix followed by the result; otherwise the input comes back unchanged |
| GoStrings.TrimSuffix | main.go:217 | with the suffix present, the input is the result followed by the suffix; otherwise the input comes back unchanged |
| GoStrconv.Atoi | main.go:241-245 | `strconv.Atoi` always returns a value in the `int64` range; a syntax error returns 0; a range error returns `MinInt64` exactly when the string starts with `-`, and `MaxInt64` otherwise |
| GoStrconv.ScanUint | main.go:241-245 | the digit loop of `strconv.ParseUint`: success only on all digits, with their value, which fits in 64 unsigned bits; a syntax error only when some character is no digit |
| GoStrconv.AtoiNonNumeric | main.go:241-245 | a string that is not a number reads as 0 with a syntax error, so such a segment counts as 0: an optional sign and at most 19 digits followed by a non-digit, the empty string, or a lone sign |
| GoStrconv.AtoiNonNumericExamples | main.go:241-245 | `abc`, `1x` and `-` read as 0 with a syntax error |
| GoStrconv.AtoiOfDigits | main.go:341 | on a run of digits, `Atoi` returns the decimal value without error when it fits in `int64`, and otherwise `MaxInt64` with a range error |
| GoStrconv.DecimalString | main.go:348 | the decimal form of a number is a non-empty run of digits with no leading zero |
| GoStrconv.DecimalRoundTrip | main.go:348 | reading back the decimal form of `n` gives `n` |
| GoStrconv.Itoa | main.go:348 | `strconv.Itoa` writes a minus sign exactly for negative numbers, then the digits of the magnitude, without leading zeros |
| GoStrconv.AtoiItoa | main.go:348 | `Atoi(Itoa(n))` is `n` with no error for every `int64` `n` |
| VersionFormat.IsValidVersion | main.go:201-205 | `isValidVersion`, the regular expression run as a character scanner; its meaning is stated by `ValidIffDottedDigits` and `ValidVersionShape` |
| VersionFormat.ValidIffDottedDigits | main.go:201-205 | the scanner accepts exactly the strings whose pieces, split on `.`, are two or three non-empty runs of ASCII digits |
| VersionFormat.ValidVersionShape | main.go:201-205 | `isValidVersion` holds exactly for `digits.digits` and `digits.digits.digits` |
| VersionFormat.ValidVersionExamples | main_test.go:13-20 | the unit-test table: `1.21.4`, `1.20`, `1.19.2` and `1.8.8` are accepted; `invalid`, `1.2.3.4`, the empty string and `1` are rejected |
| VersionOrder.Compare | main.go:229-254 | the value `compareVersions` returns is only ever -1, 0 or 1 |
| VersionOrder.CompareFrom | main.go:238-253 | the comparison from a given segment on returns -1, 0 or 1 |
| VersionOrder.CompareVersions | main.go:229-254 | the loop with its early returns computes `Compare`, the value that all the order lemmas are stated about |
| VersionOrder.CompareAntisymmetric | main.go:238-253 | swapping the arguments negates the result |
| VersionOrder.CompareReflexive | main.go:238-253 | every version compares equal to itself |
| VersionOrder.CompareTransitive | main.go:238-253 | "at least as new as" is transitive, so the sort predicate is a consistent order |
| VersionOrder.CompareFirstDifference | main.go:238-253 | the result is 1 or -1 exactly when the first segment index whose `Atoi` values differ has the larger or smaller value on the left, and 0 exactly when no index differs, with missing segments read as 0 |
| VersionOrder.CompareTrailingZero | main.go:239-245 | appending `.0` to either argument leaves the result unchanged |
| VersionOrder.ComparePadding | main.go:239-245 | `v` and `v.0` compare equal, e.g. `1.20` and `1.20.0` |
| VersionOrder.ClampedSegmentsTie | main.go:241-245 | two digit strings above the `int64` maximum compare equal, because both are read as that maximum |
| VersionOrder.ClampedSegmentsExample | main.go:241-245 | the decimal forms of 2^63 and 2^63+1 differ yet compare equal |
| VersionOrder.CompareExamples | main_test.go:36-41 | the unit-test table: `1.21.4` against `1.21.3` both ways, `1.21.4` against itself, `1.21` against `1.20.6` both ways, and `1.20` against `1.20.0` |
| LocalVersions.GetVersionsFromJars | main.go:207-227 | the result is a permutation of the stripped names that have both the `paper-` prefix and the `.jar` suffix, and each entry is at least as new as the next |
| LocalVersions.SortDescending | main.go:222-224 | the in-place sort permutes the array and leaves each element at least as new as the next |
| LocalVersions.InsertDown | main.go:222-224 | one insertion step extends the descending prefix by one element, only permutes the array, and leaves every element after position `i` as it was |
| LocalVersions.DescendingPairwise | main.go:222-224 | in the sorted output, every earlier entry is at least as new as every later one |
| LocalVersions.StripJarPath | main.go:213-217 | the name `paper-<v>.jar` passes the filter and strips back to `v` |
| LocalVersions.JarNameIsJarPath | main.go:213-217 | every name that passes the filter is `paper-<stripped>.jar`: the prefix and suffix never overlap |
| LocalVersions.JarVersions | main.go:213-220 | the collecting loop keeps at most one version per file name |
| LocalVersions.JarVersionsCount | main.go:213-220 | a version occurs in the collected list exactly as often as its jar name occurs among the files |
| LocalVersions.JarVersionsMembers | main.go:213-220 | a version is collected exactly when its jar name is among the files; other names are dropped |
| LocalVersions.JarVersionsOfJarPaths | main.go:151 | listing the jars written for some versions gives back those versions, in order |
| Naming.JarPath | main.go:151 | the local jar name carries the `paper-` prefix and the `.jar` suffix, with exactly the version between them |
| Naming.JarPathInjective | main.go:151 | distinct versions get distinct jar names |
| Naming.BuildsURL | main.go:284 | the build-list URL is the API's versions path, then exactly the version, then `/builds` |
| Naming.DownloadURL | main.go:306-307 | the download URL of a version and a build; `DownloadURLShape` states its layout |
| Naming.DownloadURLShape | main.go:306-307 | the download URL is the build-list URL of line 284, then `/<build>/downloads/`, then the artifact name `paper-<v>-<b>.jar` |
| Naming.DownloadURLInjective | main.go:306-307 | for a version and a build without `/`, the download URL determines both |
| LatestBuild.DigitRun | main.go:330 | the greedy `\d+` takes the longest run of digits |
| LatestBuild.Capture | main.go:330 | the captured group `(\d+)` of a match is a non-empty run of digits |
| LatestBuild.Matches | main.go:330-332 | every captured group of `"build":(\d+)` is a non-empty run of digits |
| LatestBuild.NoMatchInside | main.go:330-332 | no match starts inside another one, so the non-overlapping search misses none |
| LatestBuild.MatchesComplete | main.go:330-332 | every position where `"build":` and a digit start yields its digits among the matches |
| LatestBuild.MatchesSound | main.go:330-332 | every match is the digit run after some position where `"build":` and a digit start |
| LatestBuild.ExtractLatestBuild | main.go:329-351 | the loop returns the decimal form of the largest build number read without error; the result is non-empty exactly when some match reads as a positive number, that is, exactly when some `"build":<digits>` in the document does |
| LatestBuild.MaxBuild | main.go:338-345 | the accumulator stays between 0 and `MaxInt64` |
| LatestBuild.LatestBuildText | main.go:347-350 | the result is empty, or a run of digits without a leading zero |
| LatestBuild.MaxBuildIsMaximum | main.go:338-345 | the accumulator ends at least 0 and at least every build number read without error, and when positive it equals one of them |
| LatestBuild.MaxBuildUnique | main.go:338-345 | any value with those properties is the one the loop computes |
| LatestBuild.LatestBuildMeaning | main.go:338-350 | the result is non-empty exactly when some match reads as a positive number; then it reads back as the maximum, which is achieved by a match and bounds every match |
| LatestBuild.LatestBuildOrderIndependent | main.go:338-345 | matches in any order, with the same multiplicities, give the same result |
| LatestBuild.LatestBuildOfDocument | main.go:329-351 | in terms of the document: non-empty exactly when some `"build":<digits>` in it reads as a positive number, and at least every build number read without error |
| LatestBuild.ZeroBuildIsNoBuild | main.go:347-350 | when no match reads as a positive number without error, for instance a lone build 0, the result is empty |
| LatestBuild.SkipUnquoted | main.go:332 | no match starts inside text without a double quote |
| LatestBuild.MatchStep | main.go:332 | a match yields its digits, and the search resumes right after them |
| LatestBuild.ThreeBuilds | main.go:332 | a build list of three numeric builds yields their three numbers, in order |
| LatestBuild.QuotedWordNoMatch | main.go:332 | a quoted word of any length, then text without a quote that does not start with a colon, holds no match |
| LatestBuild.QuotedBuild | main.go:332 | a build whose value is a quoted word, of any length, produces no match |
| LatestBuild.ThreeBuildsExample | main_test.go:56-64 | builds 123, 124 and 125 give `125` |
| LatestBuild.EmptyBuildsExample | main_test.go:67-73 | `{"builds":[]}` gives the empty string |
| LatestBuild.MalformedBuildExample | main_test.go:76-82 | `{"builds":[{"build":"not-a-number"}]}` gives the empty string |
| LatestBuild.ZeroBuildExample | main.go:347-350 | `{"build":0}` gives the empty string |

## Left out

- `proc_posix.go` and `proc_windows.go` are not part of this model. They handle process groups, signal forwarding and timed kill escalation: OS signals, concurrency and wall-clock time.
- The network and disk side of `downloadPaper` (main.go:283-327) is left out: `http.Get`, the status checks, `io.ReadAll` and `io.Copy` to the jar file. Only its URL formatting is modelled, in `Naming`.
- `filepath.Glob("paper-*.jar")` and its error branch (main.go:208-211) are left out. `GetVersionsFromJars` takes the list of file names as its input.
- `os.Stat` of the jar (main.go:153), the configuration file (`loadConfig`, `saveConfig`), the EULA file, the Java checks, `runServer` and the `main` orchestration with its `os.Exit` calls are left out. They are I/O and process execution.
- The selection UI (`model`, `selectVersion`) is left out: it is a terminal UI framework wrapper.
- `setServerProperty` and `parseArgs` are not part of this model. Only their tests are available, not their code.
- `strconv.Atoi` works on bytes. The model works on characters, and every character `Atoi` and the patterns treat specially is ASCII, so the two agree. Go's `int` is taken to be 64 bits wide.
- `sort.Slice` promises no particular order among versions that compare equal. `LocalVersions.SortDescending` therefore states only what `sort.Slice` guarantees, a permutation in descending order, and is an insertion sort.
- `LatestBuild.Matches` models `FindAllStringSubmatch` for the one pattern `"build":(\d+)` only, as a scan for that literal followed by a greedy digit run. It is not a general regular-expression engine. Each match has the group at index 1, so the source's `len(match) > 1` test always holds.
