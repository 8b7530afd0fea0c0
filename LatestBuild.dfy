/** Choice of the build to download (`extractLatestBuild`): every
    `"build":<digits>` in the build-list document is a candidate, and the
    largest build number that `strconv.Atoi` reads without error wins. */
module LatestBuild {
  import opened GoStrings
  import opened GoStrconv

  /** The literal part of the pattern `"build":(\d+)`. */
  const BUILD_KEY: string := "\"build\":"

  /** Length of the run of digits at the start of `s`, the greedy `\d+`. */
  function DigitRun(s: string): (n: nat)
    ensures n <= |s|
    ensures AllDigits(s[..n])
    ensures n < |s| ==> !IsAsciiDigit(s[n])
  {
    if s != [] && IsAsciiDigit(s[0]) then 1 + DigitRun(s[1..]) else 0
  }

  /** Does a match of `"build":(\d+)` start right at the front of `t`? */
  predicate MatchHere(t: string) {
    HasPrefix(t, BUILD_KEY) && DigitRun(t[|BUILD_KEY|..]) > 0
  }

  /** The captured digits of the successive non-overlapping matches of
      `"build":(\d+)` in `t`, leftmost first, each search resuming right
      after the previous match (`FindAllStringSubmatch` with no limit). */
  function Matches(t: string): (ms: seq<string>)
    ensures forall k :: 0 <= k < |ms| ==> IsDigits(ms[k])
    decreases |t|
  {
    if t == [] then []
    else if MatchHere(t) then
      var rest := t[|BUILD_KEY|..];
      var d := DigitRun(rest);
      assert rest[..d] == t[|BUILD_KEY|..|BUILD_KEY| + d];
      [rest[..d]] + Matches(rest[d..])
    else Matches(t[1..])
  }

  /** The digits captured by a match at the front of `t`. */
  function Capture(t: string): (d: string)
    requires MatchHere(t)
    ensures IsDigits(d)
  {
    var rest := t[|BUILD_KEY|..];
    rest[..DigitRun(rest)]
  }

  /** `m` is a match that `Atoi` reads as the build number `b`. */
  predicate ReadsAs(m: string, b: int) {
    Atoi(m) == AtoiResult(b, NoError)
  }

  /** The value of `latestBuild` after the loop has seen `ms`: it starts at
      0 and takes every build number read without error that is larger. */
  function MaxBuild(ms: seq<string>): (best: int)
    ensures 0 <= best <= MAX_INT64
  {
    if ms == [] then 0
    else
      var best := MaxBuild(ms[..|ms| - 1]);
      var parsed := Atoi(ms[|ms| - 1]);
      if parsed.err == NoError && parsed.value > best then parsed.value else best
  }

  /** The string `extractLatestBuild` returns for the matches `ms`. */
  function LatestBuildText(ms: seq<string>): (r: string)
    ensures r != "" ==> IsDigits(r) && r[0] != '0'
  {
    var best := MaxBuild(ms);
    if best > 0 then Itoa(best) else ""
  }

  /** `extractLatestBuild`. */
  method ExtractLatestBuild(jsonBody: string) returns (build: string)
    ensures build == LatestBuildText(Matches(jsonBody))
    ensures build != "" <==> exists k, b :: 0 <= k < |Matches(jsonBody)| && b > 0 && ReadsAs(Matches(jsonBody)[k], b)
    ensures build != "" <==> exists p, b :: 0 <= p < |jsonBody| && MatchHere(jsonBody[p..]) && b > 0 && ReadsAs(Capture(jsonBody[p..]), b)
  {
    var matches := Matches(jsonBody);
    LatestBuildMeaning(matches);
    LatestBuildOfDocument(jsonBody);
    if |matches| == 0 {
      return "";
    }
    var latestBuild := 0;
    // Each match of a pattern with one group has the group at index 1, so
    // the source's `len(match) > 1` test always holds.
    for k := 0 to |matches|
      invariant latestBuild == MaxBuild(matches[..k])
    {
      assert matches[..k + 1][..k] == matches[..k];
      var parsed := Atoi(matches[k]);
      if parsed.err == NoError && parsed.value > latestBuild {
        latestBuild := parsed.value;
      }
    }
    assert matches[..|matches|] == matches;
    if latestBuild > 0 {
      return Itoa(latestBuild);
    }
    return "";
  }

  // ---- Properties ----

  /** `MaxBuild` is the largest build number read without error, or 0 when
      there is no positive one. */
  lemma {:induction false} MaxBuildIsMaximum(ms: seq<string>)
    ensures MaxBuild(ms) >= 0
    ensures forall k, b :: 0 <= k < |ms| && ReadsAs(ms[k], b) ==> b <= MaxBuild(ms)
    ensures MaxBuild(ms) > 0 ==> exists k :: 0 <= k < |ms| && ReadsAs(ms[k], MaxBuild(ms))
    decreases |ms|
  {
    if ms != [] {
      var init := ms[..|ms| - 1];
      MaxBuildIsMaximum(init);
      assert forall k :: 0 <= k < |init| ==> init[k] == ms[k];
      if MaxBuild(ms) > 0 && MaxBuild(ms) == MaxBuild(init) {
        var k :| 0 <= k < |init| && ReadsAs(init[k], MaxBuild(init));
        assert ReadsAs(ms[k], MaxBuild(ms));
      }
    }
  }

  /** Any two values with the defining properties of `MaxBuild` are equal. */
  lemma MaxBuildUnique(ms: seq<string>, m: int)
    requires m >= 0
    requires forall k, b :: 0 <= k < |ms| && ReadsAs(ms[k], b) ==> b <= m
    requires m > 0 ==> exists k :: 0 <= k < |ms| && ReadsAs(ms[k], m)
    ensures MaxBuild(ms) == m
  {
    MaxBuildIsMaximum(ms);
    if m > 0 {
      var k :| 0 <= k < |ms| && ReadsAs(ms[k], m);
    }
    if MaxBuild(ms) > 0 {
      var k :| 0 <= k < |ms| && ReadsAs(ms[k], MaxBuild(ms));
    }
  }

  /** What `extractLatestBuild` returns: the decimal form of the largest
      positive build number read without error, which reads back as that
      number, and the empty string when there is none. */
  lemma LatestBuildMeaning(ms: seq<string>)
    ensures LatestBuildText(ms) != "" <==> exists k, b :: 0 <= k < |ms| && b > 0 && ReadsAs(ms[k], b)
    ensures LatestBuildText(ms) != "" ==>
      && ReadsAs(LatestBuildText(ms), MaxBuild(ms))
      && (exists k :: 0 <= k < |ms| && ReadsAs(ms[k], MaxBuild(ms)))
      && forall k, b :: 0 <= k < |ms| && ReadsAs(ms[k], b) ==> b <= MaxBuild(ms)
  {
    MaxBuildIsMaximum(ms);
    var best := MaxBuild(ms);
    if best > 0 {
      var k :| 0 <= k < |ms| && ReadsAs(ms[k], best);
      assert best <= MAX_INT64;
      AtoiItoa(best);
      assert |Itoa(best)| > 0;
    }
  }

  /** The result does not depend on the order in which the builds are
      listed. */
  lemma LatestBuildOrderIndependent(ms1: seq<string>, ms2: seq<string>)
    requires multiset(ms1) == multiset(ms2)
    ensures LatestBuildText(ms1) == LatestBuildText(ms2)
  {
    MaxBuildIsMaximum(ms1);
    MaxBuildIsMaximum(ms2);
    var m := MaxBuild(ms1);
    forall k, b | 0 <= k < |ms2| && ReadsAs(ms2[k], b) ensures b <= m {
      assert ms2[k] in multiset(ms1);
      var k1 :| 0 <= k1 < |ms1| && ms1[k1] == ms2[k];
    }
    if m > 0 {
      var k1 :| 0 <= k1 < |ms1| && ReadsAs(ms1[k1], m);
      assert ms1[k1] in multiset(ms2);
      var k2 :| 0 <= k2 < |ms2| && ms2[k2] == ms1[k1];
    }
    MaxBuildUnique(ms2, m);
  }

  /** A build numbered 0 is no build: the result is then empty. */
  lemma ZeroBuildIsNoBuild(ms: seq<string>)
    requires forall k :: 0 <= k < |ms| ==> Atoi(ms[k]).err != NoError || Atoi(ms[k]).value <= 0
    ensures LatestBuildText(ms) == ""
  {
    MaxBuildIsMaximum(ms);
  }

  /** No other match starts inside a match: the key holds a quote only at
      its front and at index 6, which a colon follows, not the `b` a match
      would need, and the captured digits hold no quote at all. */
  lemma NoMatchInside(t: string, p: nat)
    requires MatchHere(t)
    requires 0 < p < |BUILD_KEY| + DigitRun(t[|BUILD_KEY|..])
    ensures !MatchHere(t[p..])
  {
    var rest := t[|BUILD_KEY|..];
    assert t[..|BUILD_KEY|] == BUILD_KEY;
    if |BUILD_KEY| <= |t[p..]| {
      var key := t[p..][..|BUILD_KEY|];
      if p == 6 {
        assert key[1] == t[7] == BUILD_KEY[7];
      } else if p < |BUILD_KEY| {
        assert key[0] == t[p] == BUILD_KEY[p];
      } else {
        assert key[0] == rest[..DigitRun(rest)][p - |BUILD_KEY|];
      }
    }
  }

  /** How far `Matches` advances from the front of `t`: past the match
      when one starts there, otherwise by one character. */
  function Advance(t: string): (n: nat)
    requires t != []
    ensures 0 < n <= |t|
    ensures Matches(t) == (if MatchHere(t) then [Capture(t)] else []) + Matches(t[n..])
  {
    if MatchHere(t) then |BUILD_KEY| + DigitRun(t[|BUILD_KEY|..]) else 1
  }

  /** `Matches` finds every match: each position where `"build":` and a
      digit start yields its digits. */
  lemma {:induction false} MatchesComplete(t: string)
    ensures forall p :: 0 <= p < |t| && MatchHere(t[p..]) ==> Capture(t[p..]) in Matches(t)
    decreases |t|
  {
    if t != [] {
      var n := Advance(t);
      var u := t[n..];
      MatchesComplete(u);
      forall p | 0 <= p < |t| && MatchHere(t[p..])
        ensures Capture(t[p..]) in Matches(t)
      {
        if p == 0 {
          assert t[0..] == t;
        } else {
          if MatchHere(t) && p < n {
            NoMatchInside(t, p);
          }
          assert t[p..] == u[p - n..];
        }
      }
    }
  }

  /** `Matches` finds nothing else: each capture comes from a position where
      `"build":` and a digit start. */
  lemma {:induction false} MatchesSound(t: string)
    ensures forall m :: m in Matches(t) ==> exists p :: 0 <= p < |t| && MatchHere(t[p..]) && m == Capture(t[p..])
    decreases |t|
  {
    if t != [] {
      var n := Advance(t);
      var u := t[n..];
      MatchesSound(u);
      forall m | m in Matches(t)
        ensures exists p :: 0 <= p < |t| && MatchHere(t[p..]) && m == Capture(t[p..])
      {
        if MatchHere(t) && m == Capture(t) {
          assert t[0..] == t;
        } else {
          assert m in Matches(u);
          var q :| 0 <= q < |u| && MatchHere(u[q..]) && m == Capture(u[q..]);
          assert u[q..] == t[n + q..];
        }
      }
    }
  }

  /** `extractLatestBuild` in terms of the document itself: the result is
      non-empty exactly when some `"build":<digits>` in it reads as a
      positive number, and it bounds every build number read without
      error. */
  lemma LatestBuildOfDocument(jsonBody: string)
    ensures LatestBuildText(Matches(jsonBody)) != "" <==>
      exists p, b :: 0 <= p < |jsonBody| && MatchHere(jsonBody[p..]) && b > 0 && ReadsAs(Capture(jsonBody[p..]), b)
    ensures forall p, b :: 0 <= p < |jsonBody| && MatchHere(jsonBody[p..]) && ReadsAs(Capture(jsonBody[p..]), b) ==>
      b <= MaxBuild(Matches(jsonBody))
  {
    var ms := Matches(jsonBody);
    MatchesComplete(jsonBody);
    MatchesSound(jsonBody);
    LatestBuildMeaning(ms);
    MaxBuildIsMaximum(ms);
    forall p, b | 0 <= p < |jsonBody| && MatchHere(jsonBody[p..]) && ReadsAs(Capture(jsonBody[p..]), b)
      ensures b <= MaxBuild(ms) && (b > 0 ==> LatestBuildText(ms) != "")
    {
      var k :| 0 <= k < |ms| && ms[k] == Capture(jsonBody[p..]);
    }
    if LatestBuildText(ms) != "" {
      var k, b :| 0 <= k < |ms| && b > 0 && ReadsAs(ms[k], b);
      assert ms[k] in ms;
      var p :| 0 <= p < |jsonBody| && MatchHere(jsonBody[p..]) && ms[k] == Capture(jsonBody[p..]);
    }
  }

  /** A stretch without a double quote holds no match start, since every
      match begins with the quote of `"build":`. */
  lemma {:induction false} SkipUnquoted(x: string, t: string)
    requires '"' !in x
    ensures Matches(x + t) == Matches(t)
    decreases |x|
  {
    if x != [] {
      assert (x + t)[0] == x[0] && x[0] in x;
      assert (x + t)[1..] == x[1..] + t;
      assert !MatchHere(x + t) by {
        if |BUILD_KEY| <= |x + t| {
          assert (x + t)[..|BUILD_KEY|][0] == x[0];
        }
      }
      assert Matches(x + t) == Matches(x[1..] + t);
      SkipUnquoted(x[1..], t);
    } else {
      assert x + t == t;
    }
  }

  /** The digit run of `digits + rest` is `digits` when `rest` does not
      start with a digit. */
  lemma {:induction false} DigitRunOf(digits: string, rest: string)
    requires AllDigits(digits)
    requires rest == [] || !IsAsciiDigit(rest[0])
    ensures DigitRun(digits + rest) == |digits|
    decreases |digits|
  {
    if digits != [] {
      assert (digits + rest)[1..] == digits[1..] + rest;
      DigitRunOf(digits[1..], rest);
    }
  }

  /** A match contributes its digits and the search resumes right after
      them. */
  lemma MatchStep(digits: string, rest: string)
    requires IsDigits(digits) && (rest == [] || !IsAsciiDigit(rest[0]))
    ensures Matches(BUILD_KEY + digits + rest) == [digits] + Matches(rest)
  {
    var t := BUILD_KEY + digits + rest;
    assert t[|BUILD_KEY|..] == digits + rest;
    assert t[..|BUILD_KEY|] == BUILD_KEY;
    DigitRunOf(digits, rest);
    assert (digits + rest)[..|digits|] == digits;
    assert (digits + rest)[|digits|..] == rest;
  }

  /** No match in a text without a double quote. */
  lemma NoQuoteNoMatch(x: string)
    requires '"' !in x
    ensures Matches(x) == []
  {
    SkipUnquoted(x, []);
    assert x + [] == x;
  }

  /** Text without a double quote, then a match. */
  lemma SkipThenMatch(x: string, digits: string, rest: string)
    requires '"' !in x
    requires IsDigits(digits) && (rest == [] || !IsAsciiDigit(rest[0]))
    ensures Matches(x + BUILD_KEY + digits + rest) == [digits] + Matches(rest)
  {
    var m := BUILD_KEY + digits + rest;
    assert x + BUILD_KEY + digits + rest == x + m;
    MatchStep(digits, rest);
    SkipUnquoted(x, m);
    assert Matches(x + m) == [digits] + Matches(rest);
  }

  lemma SkipOne(t: string)
    requires t != [] && !MatchHere(t)
    ensures Matches(t) == Matches(t[1..])
  {
  }

  /** The opening `{"builds":` of the build list holds no match. */
  lemma BuildsHeader(t: string)
    ensures Matches("{\"builds\":" + t) == Matches(t)
  {
    var v := "\":" + t;
    var u := "builds" + v;
    var w := "\"" + u;
    assert "{\"builds\":" + t == "{" + w;
    assert w[1..] == u && v[1..] == ":" + t;
    assert !MatchHere(w) by {
      assert w[6] == 's';
      if |BUILD_KEY| <= |w| {
        assert w[..|BUILD_KEY|][6] == 's';
      }
    }
    assert !MatchHere(v) by {
      assert v[1] == ':';
      if |BUILD_KEY| <= |v| {
        assert v[..|BUILD_KEY|][1] == ':';
      }
    }
    SkipOne(w);
    SkipOne(v);
    SkipUnquoted("builds", v);
    SkipUnquoted(":", t);
    SkipUnquoted("{", w);
  }

  /** A build list of three builds yields their three numbers, in order. */
  lemma ThreeBuilds(d1: string, d2: string, d3: string)
    requires IsDigits(d1) && IsDigits(d2) && IsDigits(d3)
    ensures Matches("{\"builds\":" + "[{" + BUILD_KEY + d1 + "},{" + BUILD_KEY + d2 + "},{" + BUILD_KEY + d3 + "}]}") == [d1, d2, d3]
  {
    var t3 := "}]}";
    var t2 := "},{" + BUILD_KEY + d3 + t3;
    var t1 := "},{" + BUILD_KEY + d2 + t2;
    var t0 := "[{" + BUILD_KEY + d1 + t1;
    assert "{\"builds\":" + "[{" + BUILD_KEY + d1 + "},{" + BUILD_KEY + d2 + "},{" + BUILD_KEY + d3 + "}]}" == "{\"builds\":" + t0;
    NoQuoteNoMatch(t3);
    SkipThenMatch("},{", d3, t3);
    SkipThenMatch("},{", d2, t2);
    SkipThenMatch("[{", d1, t1);
    BuildsHeader(t0);
  }

  /** The closing quote and colon of a key hold no match. */
  lemma QuoteColon(t: string)
    ensures Matches("\"" + ":" + t) == Matches(t)
  {
    var v := "\"" + ":" + t;
    assert !MatchHere(v) by {
      if |BUILD_KEY| <= |v| {
        assert v[..|BUILD_KEY|][1] == ':';
      }
    }
    assert v[1..] == ":" + t;
    SkipOne(v);
    SkipUnquoted(":", t);
  }

  /** The key followed by a quote rather than a digit is no match. */
  lemma KeyThenQuote(t: string)
    requires t != [] && t[0] == '"'
    ensures Matches(BUILD_KEY + t) == Matches(t)
  {
    var v := "\"" + ":" + t;
    var m := BUILD_KEY + t;
    assert m[|BUILD_KEY|..] == t && DigitRun(t) == 0;
    assert m[1..] == "build" + v;
    SkipOne(m);
    SkipUnquoted("build", v);
    QuoteColon(t);
  }

  /** A single quote, then text without a quote, holds no match. */
  lemma LoneQuoteNoMatch(tail: string)
    requires '"' !in tail
    ensures Matches("\"" + tail) == []
  {
    var u := "\"" + tail;
    assert !MatchHere(u) by {
      if |BUILD_KEY| <= |u| {
        assert u[..|BUILD_KEY|][6] == tail[5] && tail[5] in tail;
      }
    }
    assert u[1..] == tail;
    SkipOne(u);
    NoQuoteNoMatch(tail);
  }

  /** A quoted word followed by something other than a colon is not the
      key: the key's second quote stands at index 6 and a colon follows it. */
  lemma QuotedWordNotKey(w: string, tail: string)
    requires '"' !in w
    requires tail == [] || tail[0] != ':'
    ensures !MatchHere("\"" + w + "\"" + tail)
  {
    var t := "\"" + w + "\"" + tail;
    if |BUILD_KEY| <= |t| {
      var key := t[..|BUILD_KEY|];
      if |w| > 5 {
        assert key[6] == w[5] && w[5] in w;
      } else if |w| == 5 {
        assert key[7] == tail[0];
      } else {
        assert key[1 + |w|] == '"' != BUILD_KEY[1 + |w|];
      }
    }
  }

  /** A quoted word, then text without a quote that does not start with a
      colon, holds no match. */
  lemma QuotedWordNoMatch(w: string, tail: string)
    requires '"' !in w && '"' !in tail
    requires tail == [] || tail[0] != ':'
    ensures Matches("\"" + w + "\"" + tail) == []
  {
    var u := "\"" + tail;
    var t := "\"" + (w + u);
    assert "\"" + w + "\"" + tail == t;
    QuotedWordNotKey(w, tail);
    assert t[1..] == w + u;
    SkipOne(t);
    SkipUnquoted(w, u);
    LoneQuoteNoMatch(tail);
  }

  /** A build whose value is a quoted word rather than digits is no match. */
  lemma QuotedBuild(w: string)
    requires '"' !in w
    ensures Matches("{\"builds\":" + "[{" + BUILD_KEY + "\"" + w + "\"" + "}]}") == []
  {
    var q := "\"" + w + "\"" + "}]}";
    var t0 := "[{" + (BUILD_KEY + q);
    assert "{\"builds\":" + "[{" + BUILD_KEY + "\"" + w + "\"" + "}]}" == "{\"builds\":" + t0;
    QuotedWordNoMatch(w, "}]}");
    KeyThenQuote(q);
    SkipUnquoted("[{", BUILD_KEY + q);
    BuildsHeader(t0);
  }

  lemma MaxOfTestBuilds()
    ensures LatestBuildText(["123", "124", "125"]) == "125"
  {
    var ms := ["123", "124", "125"];
    assert Atoi("123") == AtoiResult(123, NoError);
    assert Atoi("124") == AtoiResult(124, NoError);
    assert Atoi("125") == AtoiResult(125, NoError);
    assert ms[..2] == ["123", "124"] && ms[..2][..1] == ["123"] && ["123"][..0] == [];
    assert MaxBuild(ms) == 125;
    assert Itoa(125) == "125";
  }

  /** The launcher's unit test for `extractLatestBuild`: of builds 123,
      124 and 125 the last is chosen. */
  lemma ThreeBuildsExample()
    ensures LatestBuildText(Matches("{\"builds\":" + "[{" + BUILD_KEY + "123" + "},{" + BUILD_KEY + "124" + "},{" + BUILD_KEY + "125" + "}]}")) == "125"
  {
    ThreeBuilds("123", "124", "125");
    MaxOfTestBuilds();
  }

  /** An empty build list gives the empty string. */
  lemma EmptyBuildsExample()
    ensures LatestBuildText(Matches("{\"builds\":" + "[]}")) == ""
  {
    BuildsHeader("[]}");
    NoQuoteNoMatch("[]}");
  }

  /** A build that is not a number gives the empty string. */
  lemma MalformedBuildExample()
    ensures LatestBuildText(Matches("{\"builds\":" + "[{" + BUILD_KEY + "\"" + "not-a-number" + "\"" + "}]}")) == ""
  {
    QuotedBuild("not-a-number");
  }

  /** A lone build numbered 0 gives the empty string. */
  lemma ZeroBuildExample()
    ensures LatestBuildText(Matches("{" + BUILD_KEY + "0" + "}")) == ""
  {
    NoQuoteNoMatch("}");
    SkipThenMatch("{", "0", "}");
    assert Atoi("0") == AtoiResult(0, NoError);
    assert ["0"] + [] == ["0"] && ["0"][..0] == [];
  }
}
