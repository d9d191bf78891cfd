/**
 * The release check: dotted version strings are parsed into integer segments,
 * padded with zeros to a common length and compared segment by segment; an
 * update is reported when the latest release tag, stripped of its leading
 * `v`s, compares greater than the running version.
 */
module UpdateChecker {
  import opened Options
  import opened Text

  /** `APP_VERSION`. */
  const AppVersion: string := "1.1"

  /** What `int()` accepts here: decimal digits with an optional sign. */
  predicate IsInteger(part: string) {
    IsDigits(part) || (|part| >= 2 && (part[0] == '-' || part[0] == '+') && IsDigits(part[1..]))
  }

  /** `int(part)`, with the `ValueError` for anything else read as 0. */
  function SegmentValue(part: string): int {
    if IsDigits(part) then DigitsValue(part)
    else if |part| >= 2 && part[0] == '-' && IsDigits(part[1..]) then -(DigitsValue(part[1..]) as int)
    else if |part| >= 2 && part[0] == '+' && IsDigits(part[1..]) then DigitsValue(part[1..])
    else 0
  }

  /** The segments of a version string, each read by `SegmentValue`. */
  function Segments(v: string): (r: seq<int>)
    ensures |r| == |Split(v, '.')|
    ensures forall i :: 0 <= i < |r| ==> r[i] == SegmentValue(Split(v, '.')[i])
  {
    var parts := Split(v, '.');
    seq(|parts|, i requires 0 <= i < |parts| => SegmentValue(parts[i]))
  }

  /** `parse_version(v)`. */
  method ParseVersion(v: string) returns (parts: seq<int>)
    ensures parts == Segments(v)
  {
    var pieces := Split(v, '.');
    parts := [];
    for i := 0 to |pieces|
      invariant |parts| == i
      invariant forall j :: 0 <= j < i ==> parts[j] == SegmentValue(pieces[j])
    {
      parts := parts + [SegmentValue(pieces[i])];
    }
    assert |parts| == |Segments(v)|;
  }

  function Zeros(n: nat): (r: seq<int>)
    ensures |r| == n && forall i :: 0 <= i < n ==> r[i] == 0
  {
    seq(n, i => 0)
  }

  /** `parts.extend([0] * (n - len(parts)))`. */
  function Pad(parts: seq<int>, n: nat): (r: seq<int>)
    ensures |r| == if |parts| <= n then n else |parts|
    ensures r[..|parts|] == parts
    ensures forall i :: |parts| <= i < |r| ==> r[i] == 0
  {
    if |parts| <= n then parts + Zeros(n - |parts|) else parts
  }

  /** The segment-by-segment comparison of two equally long lists: the first difference decides. */
  function Lex(a: seq<int>, b: seq<int>): (r: int)
    requires |a| == |b|
    ensures r == -1 || r == 0 || r == 1
  {
    if a == [] then 0
    else if a[0] > b[0] then 1
    else if a[0] < b[0] then -1
    else Lex(a[1..], b[1..])
  }

  function Max(a: nat, b: nat): nat { if a < b then b else a }

  /** `_compare_versions(v1, v2)`: 1, -1 or 0 as `v1` is newer, older or the same as `v2`. */
  function Compare(v1: string, v2: string): (r: int)
    ensures r == -1 || r == 0 || r == 1
  {
    var p1 := Segments(v1);
    var p2 := Segments(v2);
    var n := Max(|p1|, |p2|);
    Lex(Pad(p1, n), Pad(p2, n))
  }

  /** `_compare_versions`, with the padding and the early-returning loop of the source. */
  method CompareVersions(v1: string, v2: string) returns (r: int)
    ensures r == Compare(v1, v2)
  {
    var p1 := ParseVersion(v1);
    var p2 := ParseVersion(v2);
    var maxLen := Max(|p1|, |p2|);
    p1 := p1 + Zeros(maxLen - |p1|);
    p2 := p2 + Zeros(maxLen - |p2|);
    assert p1 == Pad(Segments(v1), maxLen) && p2 == Pad(Segments(v2), maxLen);
    var i := 0;
    while i < maxLen
      invariant 0 <= i <= maxLen
      invariant Lex(p1, p2) == Lex(p1[i..], p2[i..])
    {
      if p1[i] > p2[i] {
        return 1;
      } else if p1[i] < p2[i] {
        return -1;
      }
      assert p1[i..][1..] == p1[i + 1..] && p2[i..][1..] == p2[i + 1..];
      i := i + 1;
    }
    return 0;
  }

  // ----------------------------------------------------------- order facts

  /** Lists compare equal exactly when they are equal. */
  lemma {:induction false} LexZero(a: seq<int>, b: seq<int>)
    requires |a| == |b|
    ensures Lex(a, b) == 0 <==> a == b
  {
    if a != [] {
      LexZero(a[1..], b[1..]);
      if a[0] == b[0] && a[1..] == b[1..] {
        assert a == [a[0]] + a[1..] && b == [b[0]] + b[1..];
      }
    }
  }

  /** Swapping the operands negates the result. */
  lemma {:induction false} LexAntisymmetric(a: seq<int>, b: seq<int>)
    requires |a| == |b|
    ensures Lex(a, b) == -Lex(b, a)
  {
    if a != [] { LexAntisymmetric(a[1..], b[1..]); }
  }

  /** `a` is greater exactly when, at the first index where they differ, `a` has the larger segment. */
  lemma {:induction false} LexFirstDifference(a: seq<int>, b: seq<int>)
    requires |a| == |b|
    ensures Lex(a, b) == 1 <==> exists k :: 0 <= k < |a| && a[..k] == b[..k] && a[k] > b[k]
  {
    if a != [] {
      LexFirstDifference(a[1..], b[1..]);
      if Lex(a, b) == 1 {
        if a[0] > b[0] {
          assert a[..0] == b[..0];
        } else {
          var k :| 0 <= k < |a[1..]| && a[1..][..k] == b[1..][..k] && a[1..][k] > b[1..][k];
          assert a[..k + 1] == [a[0]] + a[1..][..k];
          assert b[..k + 1] == [b[0]] + b[1..][..k];
        }
      }
      if exists k :: 0 <= k < |a| && a[..k] == b[..k] && a[k] > b[k] {
        var k :| 0 <= k < |a| && a[..k] == b[..k] && a[k] > b[k];
        if k > 0 {
          assert a[0] == a[..k][0] && b[0] == b[..k][0];
          assert a[1..][..k - 1] == a[..k][1..] && b[1..][..k - 1] == b[..k][1..];
          assert a[1..][k - 1] > b[1..][k - 1];
        }
      }
    }
  }

  /** Lex is transitive on "greater". */
  lemma {:induction false} LexTransitive(a: seq<int>, b: seq<int>, c: seq<int>)
    requires |a| == |b| == |c|
    requires Lex(a, b) == 1 && Lex(b, c) == 1
    ensures Lex(a, c) == 1
  {
    if a[0] == b[0] && b[0] == c[0] {
      LexTransitive(a[1..], b[1..], c[1..]);
    }
  }

  /** Extra zero segments on both sides change nothing. */
  lemma {:induction false} LexZeroTail(a: seq<int>, b: seq<int>, n: nat)
    requires |a| == |b|
    ensures Lex(a + Zeros(n), b + Zeros(n)) == Lex(a, b)
  {
    if a == [] {
      LexZero(Zeros(n), Zeros(n));
      assert a + Zeros(n) == Zeros(n) && b + Zeros(n) == Zeros(n);
    } else {
      assert (a + Zeros(n))[1..] == a[1..] + Zeros(n);
      assert (b + Zeros(n))[1..] == b[1..] + Zeros(n);
      LexZeroTail(a[1..], b[1..], n);
    }
  }

  /** Padding to any common length at least as long as both lists gives the same answer. */
  lemma PadLength(a: seq<int>, b: seq<int>, n: nat, m: nat)
    requires |a| <= n <= m && |b| <= n
    ensures Lex(Pad(a, m), Pad(b, m)) == Lex(Pad(a, n), Pad(b, n))
  {
    assert Pad(a, m) == Pad(a, n) + Zeros(m - n);
    assert Pad(b, m) == Pad(b, n) + Zeros(m - n);
    LexZeroTail(Pad(a, n), Pad(b, n), m - n);
  }

  /** Every version equals itself. */
  lemma CompareReflexive(v: string)
    ensures Compare(v, v) == 0
  {
    var n := |Segments(v)|;
    LexZero(Pad(Segments(v), n), Pad(Segments(v), n));
  }

  /** `compare(a, b) == -compare(b, a)`. */
  lemma CompareAntisymmetric(v1: string, v2: string)
    ensures Compare(v1, v2) == -Compare(v2, v1)
  {
    var n := Max(|Segments(v1)|, |Segments(v2)|);
    LexAntisymmetric(Pad(Segments(v1), n), Pad(Segments(v2), n));
  }

  /** "Newer than" is transitive. */
  lemma CompareTransitive(v1: string, v2: string, v3: string)
    requires Compare(v1, v2) == 1 && Compare(v2, v3) == 1
    ensures Compare(v1, v3) == 1
  {
    var p1, p2, p3 := Segments(v1), Segments(v2), Segments(v3);
    var n := Max(Max(|p1|, |p2|), |p3|);
    PadLength(p1, p2, Max(|p1|, |p2|), n);
    PadLength(p2, p3, Max(|p2|, |p3|), n);
    PadLength(p1, p3, Max(|p1|, |p3|), n);
    LexTransitive(Pad(p1, n), Pad(p2, n), Pad(p3, n));
  }

  /** Two versions are equal exactly when their segment lists agree once padded with zeros. */
  lemma CompareEqual(v1: string, v2: string)
    ensures var n := Max(|Segments(v1)|, |Segments(v2)|);
      Compare(v1, v2) == 0 <==> Pad(Segments(v1), n) == Pad(Segments(v2), n)
  {
    var n := Max(|Segments(v1)|, |Segments(v2)|);
    LexZero(Pad(Segments(v1), n), Pad(Segments(v2), n));
  }

  /** `v1` is newer exactly when it has the larger segment at the first padded position where the two differ. */
  lemma CompareGreater(v1: string, v2: string)
    ensures var n := Max(|Segments(v1)|, |Segments(v2)|);
      var a, b := Pad(Segments(v1), n), Pad(Segments(v2), n);
      Compare(v1, v2) == 1 <==> exists k :: 0 <= k < n && a[..k] == b[..k] && a[k] > b[k]
  {
    var n := Max(|Segments(v1)|, |Segments(v2)|);
    LexFirstDifference(Pad(Segments(v1), n), Pad(Segments(v2), n));
  }

  /** Splitting `v + "." + b` gives the pieces of `v` followed by `b`. */
  lemma SplitAppend(v: string, b: string)
    requires '.' !in b
    ensures Split(v + "." + b, '.') == Split(v, '.') + [b]
  {
    var parts := Split(v, '.');
    SplitPieces(v, '.');
    JoinAppend(parts, b, ".");
    assert Join(parts + [b], ".") == v + "." + b;
    assert forall i :: 0 <= i < |parts + [b]| ==> '.' !in (parts + [b])[i];
    SplitJoin(parts + [b], '.');
  }

  /** Appending a dot and a piece appends one segment. */
  lemma SegmentsAppend(v: string, b: string)
    requires '.' !in b
    ensures Segments(v + "." + b) == Segments(v) + [SegmentValue(b)]
  {
    SplitAppend(v, b);
  }

  /** Versions with the same segments compare equal. */
  lemma CompareSameSegments(v1: string, v2: string)
    requires Segments(v1) == Segments(v2)
    ensures Compare(v1, v2) == 0
  {
    var n := |Segments(v1)|;
    LexZero(Pad(Segments(v1), n), Pad(Segments(v2), n));
  }

  /** Appending a zero segment does not change a version: "1.1.0" equals "1.1". */
  lemma CompareZeroSegment(v: string)
    ensures Compare(v + ".0", v) == 0
  {
    var p := Segments(v);
    var q := Segments(v + ".0");
    assert v + ".0" == v + "." + "0";
    SegmentsAppend(v, "0");
    assert SegmentValue("0") == 0 by { assert DigitsValue("0") == 10 * DigitsValue("") + 0; }
    assert q == p + [0];
    assert Max(|q|, |p|) == |q|;
    assert Pad(q, |q|) == q;
    assert Pad(p, |q|) == p + Zeros(1) == q;
    LexZero(q, q);
  }

  /** A segment `int()` rejects counts as 0: "1.beta" equals "1.0". */
  lemma CompareNonInteger(v: string, b: string)
    requires '.' !in b && !IsInteger(b)
    ensures Compare(v + "." + b, v + ".0") == 0
  {
    assert v + ".0" == v + "." + "0";
    SegmentsAppend(v, b);
    SegmentsAppend(v, "0");
    assert SegmentValue("0") == 0 by { assert DigitsValue("0") == 10 * DigitsValue("") + 0; }
    CompareSameSegments(v + "." + b, v + ".0");
  }

  /** An empty segment counts as 0: "1..2" equals "1.0.2". */
  lemma CompareEmptySegment(v: string, b: string)
    requires '.' !in b
    ensures Compare(v + ".." + b, v + ".0." + b) == 0
  {
    assert v + ".." + b == (v + "." + "") + "." + b;
    assert v + ".0." + b == (v + "." + "0") + "." + b;
    SegmentsAppend(v, "");
    SegmentsAppend(v, "0");
    SegmentsAppend(v + "." + "", b);
    SegmentsAppend(v + "." + "0", b);
    assert SegmentValue("0") == 0 by { assert DigitsValue("0") == 10 * DigitsValue("") + 0; }
    CompareSameSegments(v + ".." + b, v + ".0." + b);
  }

  // -------------------------------------------------------- update decision

  /** `tag_name.lstrip('v')`. */
  function StripTag(tag: string): (r: string)
    ensures |r| <= |tag| && (r == [] || r[0] != 'v')
    ensures tag == Repeat('v', |tag| - |r|) + r
  {
    var r := LStrip(tag, {'v'});
    assert tag[..|tag| - |r|] == Repeat('v', |tag| - |r|);
    assert tag == tag[..|tag| - |r|] + r;
    r
  }

  function Repeat(c: char, n: nat): (r: string)
    ensures |r| == n && forall i :: 0 <= i < n ==> r[i] == c
  {
    seq(n, i => c)
  }

  /** What `run` reports: an update with its version and page, the current version, or a failed check. */
  datatype Outcome = UpdateAvailable(version: string, url: string) | UpToDate | CheckFailed

  /**
   * `run` given what `_check_update` obtained from the release page: the tag
   * name and page address, or None when the request failed.
   */
  function Run(release: Option<(string, string)>): (r: Outcome)
    ensures release.None? <==> r == CheckFailed
    ensures r.UpdateAvailable? <==> release.Some? && Compare(StripTag(release.value.0), AppVersion) > 0
    ensures r.UpdateAvailable? ==> r.version == StripTag(release.value.0) && r.url == release.value.1
  {
    match release
    case None => CheckFailed
    case Some((tag, url)) =>
      var version := StripTag(tag);
      if Compare(version, AppVersion) > 0 then UpdateAvailable(version, url) else UpToDate
  }

  /** A tag with extra leading `v`s is read the same. */
  lemma RunStripsEveryV(tag: string, url: string)
    ensures Run(Some(("v" + tag, url))) == Run(Some((tag, url)))
  {
    assert ("v" + tag)[1..] == tag;
  }

  /** The release of the running version itself is not an update. */
  lemma RunCurrentVersion(url: string)
    ensures Run(Some(("v" + AppVersion, url))) == UpToDate
  {
    RunStripsEveryV(AppVersion, url);
    assert AppVersion[0] != 'v';
    CompareReflexive(AppVersion);
  }
}
