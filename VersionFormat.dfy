/** Validation of a Minecraft version string (`isValidVersion`): the
    regular expression `^\d+\.\d+(\.\d+)?$`, written out as a scanner over
    the characters of the string. Go's `\d` is the ASCII digits and its `$`
    only matches at the very end of the text. */
module VersionFormat {
  import opened GoStrings

  /** Scanner state: `Scan(dots, inSegment)` has seen `dots` separators and,
      when `inSegment`, at least one digit since the last separator. */
  datatype ScanState = Scan(dots: nat, inSegment: bool) | Reject

  const START: ScanState := Scan(0, false)

  function Step(q: ScanState, c: char): ScanState {
    match q
    case Reject => Reject
    case Scan(dots, inSegment) =>
      if IsAsciiDigit(c) then Scan(dots, true)
      else if c == '.' && inSegment && dots < 2 then Scan(dots + 1, false)
      else Reject
  }

  function Run(q: ScanState, s: string): ScanState
    decreases |s|
  {
    if s == [] then q else Run(Step(q, s[0]), s[1..])
  }

  predicate Accepting(q: ScanState) {
    q.Scan? && q.inSegment && q.dots >= 1
  }

  /** `isValidVersion(version)`. */
  predicate IsValidVersion(version: string) {
    Accepting(Run(START, version))
  }

  /** The same language described by its pieces: two or three non-empty
      runs of digits separated by dots. */
  predicate IsDottedDigits(version: string) {
    var parts := Split(version, '.');
    (|parts| == 2 || |parts| == 3) && forall k :: 0 <= k < |parts| ==> IsDigits(parts[k])
  }

  lemma {:induction false} RejectIsFinal(s: string)
    ensures Run(Reject, s) == Reject
    decreases |s|
  {
    if s != [] {
      RejectIsFinal(s[1..]);
    }
  }

  /** The condition on the pieces of the rest of a string under which the
      scanner accepts from `Scan(dots, inSegment)`: the first piece
      continues the current segment, every later one is a full segment, and
      there are two or three segments in all. */
  predicate PiecesAccepted(dots: nat, inSegment: bool, parts: seq<string>)
    requires |parts| >= 1
  {
    && AllDigits(parts[0])
    && (inSegment || |parts[0]| > 0)
    && (forall k :: 1 <= k < |parts| ==> IsDigits(parts[k]))
    && (dots + |parts| == 2 || dots + |parts| == 3)
  }

  lemma PiecesDigit(c: char, dots: nat, inSegment: bool, rest: seq<string>)
    requires IsAsciiDigit(c) && |rest| >= 1
    ensures PiecesAccepted(dots, inSegment, [[c] + rest[0]] + rest[1..]) <==> PiecesAccepted(dots, true, rest)
  {
    var parts := [[c] + rest[0]] + rest[1..];
    assert forall i :: 0 <= i < |rest[0]| ==> parts[0][i + 1] == rest[0][i];
    assert forall k :: 1 <= k < |parts| ==> parts[k] == rest[k];
  }

  lemma PiecesDot(dots: nat, inSegment: bool, rest: seq<string>)
    requires |rest| >= 1
    ensures PiecesAccepted(dots, inSegment, [[]] + rest) <==> inSegment && dots < 2 && PiecesAccepted(dots + 1, false, rest)
  {
    var parts := [[]] + rest;
    if forall j :: 0 <= j < |rest| ==> IsDigits(rest[j]) {
      forall k | 1 <= k < |parts| ensures IsDigits(parts[k]) {
        assert parts[k] == rest[k - 1];
      }
    }
    if forall k :: 1 <= k < |parts| ==> IsDigits(parts[k]) {
      forall j | 0 <= j < |rest| ensures IsDigits(rest[j]) {
        assert rest[j] == parts[j + 1];
      }
    }
  }

  lemma PiecesOther(c: char, dots: nat, inSegment: bool, rest: seq<string>)
    requires !IsAsciiDigit(c) && |rest| >= 1
    ensures !PiecesAccepted(dots, inSegment, [[c] + rest[0]] + rest[1..])
  {
    var parts := [[c] + rest[0]] + rest[1..];
    assert parts[0][0] == c;
  }

  /** What the scanner accepts from a state in the middle of a string, in
      terms of the pieces of the rest of the string. */
  lemma {:induction false} RunPieces(dots: nat, inSegment: bool, s: string)
    requires dots <= 2
    ensures Accepting(Run(Scan(dots, inSegment), s)) <==> PiecesAccepted(dots, inSegment, Split(s, '.'))
    decreases |s|
  {
    if s != [] {
      var c := s[0];
      var rest := Split(s[1..], '.');
      if IsAsciiDigit(c) {
        RunPieces(dots, true, s[1..]);
        PiecesDigit(c, dots, inSegment, rest);
      } else if c == '.' {
        PiecesDot(dots, inSegment, rest);
        if inSegment && dots < 2 {
          RunPieces(dots + 1, false, s[1..]);
        } else {
          RejectIsFinal(s[1..]);
        }
      } else {
        RejectIsFinal(s[1..]);
        PiecesOther(c, dots, inSegment, rest);
      }
    }
  }

  /** The scanner accepts exactly two or three non-empty digit runs joined
      by dots. */
  lemma ValidIffDottedDigits(version: string)
    ensures IsValidVersion(version) <==> IsDottedDigits(version)
  {
    RunPieces(0, false, version);
  }

  /** `isValidVersion` accepts exactly the strings of the shape
      `digits.digits` or `digits.digits.digits`. */
  lemma ValidVersionShape(version: string)
    ensures IsValidVersion(version) <==>
      || (exists a, b :: IsDigits(a) && IsDigits(b) && version == a + "." + b)
      || (exists a, b, c :: IsDigits(a) && IsDigits(b) && IsDigits(c) && version == a + "." + b + "." + c)
  {
    ValidIffDottedDigits(version);
    if IsDottedDigits(version) {
      DottedDigitsShape(version);
    }
    if exists a, b :: IsDigits(a) && IsDigits(b) && version == a + "." + b {
      var a, b :| IsDigits(a) && IsDigits(b) && version == a + "." + b;
      TwoSegmentsDotted(a, b);
    }
    if exists a, b, c :: IsDigits(a) && IsDigits(b) && IsDigits(c) && version == a + "." + b + "." + c {
      var a, b, c :| IsDigits(a) && IsDigits(b) && IsDigits(c) && version == a + "." + b + "." + c;
      ThreeSegmentsDotted(a, b, c);
    }
  }

  lemma DottedDigitsShape(version: string)
    requires IsDottedDigits(version)
    ensures
      || (exists a, b :: IsDigits(a) && IsDigits(b) && version == a + "." + b)
      || (exists a, b, c :: IsDigits(a) && IsDigits(b) && IsDigits(c) && version == a + "." + b + "." + c)
  {
    var parts := Split(version, '.');
    JoinSplit(version, '.');
    if |parts| == 2 {
      assert Join(parts, '.') == parts[0] + "." + parts[1];
      assert IsDigits(parts[0]) && IsDigits(parts[1]);
    } else {
      assert Join(parts[2..], '.') == parts[2];
      assert Join(parts, '.') == parts[0] + "." + parts[1] + "." + parts[2];
      assert IsDigits(parts[0]) && IsDigits(parts[1]) && IsDigits(parts[2]);
    }
  }

  lemma TwoSegmentsDotted(a: string, b: string)
    requires IsDigits(a) && IsDigits(b)
    ensures IsDottedDigits(a + "." + b)
  {
    DigitsSplit(a);
    DigitsSplit(b);
    SplitAround(a, '.', b);
    assert a + "." + b == a + ['.'] + b;
  }

  lemma ThreeSegmentsDotted(a: string, b: string, c: string)
    requires IsDigits(a) && IsDigits(b) && IsDigits(c)
    ensures IsDottedDigits(a + "." + b + "." + c)
  {
    DigitsSplit(a);
    DigitsSplit(b);
    DigitsSplit(c);
    SplitAround(a, '.', b);
    SplitAround(a + "." + b, '.', c);
    assert a + "." + b == a + ['.'] + b;
    assert a + "." + b + "." + c == (a + "." + b) + ['.'] + c;
  }

  lemma DigitsSplit(a: string)
    requires IsDigits(a)
    ensures Split(a, '.') == [a]
  {
    SplitNoSeparator(a, '.');
  }

  /** The cases of the launcher's unit test table for `isValidVersion`. */
  lemma ValidVersionExamples()
    ensures IsValidVersion("1.21.4")
    ensures IsValidVersion("1.20")
    ensures IsValidVersion("1.19.2")
    ensures IsValidVersion("1.8.8")
    ensures !IsValidVersion("invalid")
    ensures !IsValidVersion("1.2.3.4")
    ensures !IsValidVersion("")
    ensures !IsValidVersion("1")
  {
    RejectIsFinal("nvalid");
    RejectIsFinal("4");
  }
}
