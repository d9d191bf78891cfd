/**
 * How `SpelCompleter.get_completions` ranks the completion catalog against a
 * typed prefix: every entry whose match name contains the prefix (ignoring
 * case) becomes a hit in one of six buckets, the prefix and substring
 * buckets are stably sorted, and the buckets are concatenated in order.
 */
module SpelRanking {
  import opened Options
  import opened Text

  /** At most this many entries answer a non-empty prefix. */
  const SearchCap: nat := 30
  /** An empty prefix lists this many catalog entries. */
  const BrowseCap: nat := 50

  function Min(a: int, b: int): int { if a <= b then a else b }

  /** Leading characters dropped before matching (`lstrip('.#')`). */
  const Sigils: set<char> := {'.', '#'}

  /** `item.lower().lstrip('.#')` cut before its first `(`: the name an entry is matched on. */
  function MatchLower(item: string): string {
    var lower := LStrip(Lower(item), Sigils);
    match CharIndex(lower, '(')
    case None => lower
    case Some(k) => lower[..k]
  }

  /** `item.lstrip('.#')` cut at the same index, keeping the entry's own case. */
  function MatchOriginal(item: string): string {
    var lower := LStrip(Lower(item), Sigils);
    var original := LStrip(item, Sigils);
    match CharIndex(lower, '(')
    case None => original
    case Some(k) => original[..Min(k, |original|)]
  }

  /** The entry's match name contains the prefix, ignoring case. */
  predicate Matches(item: string, prefix: string) {
    Contains(MatchLower(item), Lower(prefix))
  }

  /**
   * One appended tuple of `get_completions`. `bucket` numbers the six lists
   * (0 exact/same case, 1 exact/other case, 2 prefix/same case, 3 prefix/other
   * case, 4 substring/same case, 5 substring/other case); `pos` is where the
   * prefix occurs in the match name (0 in the exact and prefix buckets) and
   * `len` is the match name's length.
   */
  datatype Hit = Hit(bucket: nat, pos: nat, len: nat, item: string)

  /** The even buckets hold the hits whose case agrees with the typed prefix. */
  predicate SameCase(h: Hit) {
    h.bucket == 0 || h.bucket == 2 || h.bucket == 4
  }

  /** Which bucket `item` goes to, or None when it does not match at all. */
  function Classify(item: string, prefix: string): (r: Option<Hit>)
    ensures r.Some? <==> Matches(item, prefix)
    ensures r.Some? ==> r.value.item == item && r.value.bucket < 6
  {
    var name := MatchLower(item);
    var original := MatchOriginal(item);
    var p := Lower(prefix);
    if name == p then
      Some(Hit(if StartsWith(original, prefix) then 0 else 1, 0, |name|, item))
    else if StartsWith(name, p) then
      assert OccursAt(name, p, 0);
      Some(Hit(if StartsWith(original, prefix) then 2 else 3, 0, |name|, item))
    else
      match IndexOf(name, p)
      case None => None
      case Some(k) => Some(Hit(if OccursAt(original, prefix, k) then 4 else 5, k, |name|, item))
  }

  /** A hit records the first position of the prefix in the match name and the match name's length. */
  lemma ClassifyPosition(item: string, prefix: string)
    requires Matches(item, prefix)
    ensures var h := Classify(item, prefix).value;
      && h.len == |MatchLower(item)|
      && OccursAt(MatchLower(item), Lower(prefix), h.pos)
      && forall j :: 0 <= j < h.pos ==> !OccursAt(MatchLower(item), Lower(prefix), j)
  {
    var name, p := MatchLower(item), Lower(prefix);
    if StartsWith(name, p) {
      assert OccursAt(name, p, 0);
    }
  }

  /**
   * A hit's bucket says whether the match is exact, a prefix or a substring
   * match, and whether the entry's own case agrees with the typed prefix there.
   */
  lemma ClassifyBucket(item: string, prefix: string)
    requires Matches(item, prefix)
    ensures var h := Classify(item, prefix).value;
      && (h.bucket < 2 <==> MatchLower(item) == Lower(prefix))
      && (h.bucket < 4 <==> StartsWith(MatchLower(item), Lower(prefix)))
      && (SameCase(h) <==> OccursAt(MatchOriginal(item), prefix, h.pos))
  {
    var name, p := MatchLower(item), Lower(prefix);
    var original := MatchOriginal(item);
    if name == p {
      assert name[..|p|] == p;
      StartsWithAtZero(original, prefix);
    } else if StartsWith(name, p) {
      StartsWithAtZero(original, prefix);
    }
  }

  /** A prefix is an occurrence at position 0. */
  lemma StartsWithAtZero(s: string, p: string)
    ensures StartsWith(s, p) <==> OccursAt(s, p, 0)
  {
  }

  /** The hits of the catalog, in catalog order. */
  function Hits(cat: seq<string>, prefix: string): seq<Hit>
    decreases |cat|
  {
    if cat == [] then []
    else Hits(cat[..|cat| - 1], prefix) + HitOf(cat[|cat| - 1], prefix)
  }

  /** The hit of one entry, as a list of zero or one element. */
  function HitOf(item: string, prefix: string): seq<Hit> {
    match Classify(item, prefix)
    case None => []
    case Some(h) => [h]
  }

  /** The hits that went to bucket `b`, in their order. */
  function Bucket(hs: seq<Hit>, b: nat): seq<Hit>
    decreases |hs|
  {
    if hs == [] then []
    else Bucket(hs[..|hs| - 1], b) + (if hs[|hs| - 1].bucket == b then [hs[|hs| - 1]] else [])
  }

  /** The sort key of the prefix buckets (length) and the substring buckets (position, then length). */
  predicate KeyLe(a: Hit, b: Hit) {
    a.pos < b.pos || (a.pos == b.pos && a.len <= b.len)
  }

  predicate SortedByKey(s: seq<Hit>) {
    forall i, j :: 0 <= i < j < |s| ==> KeyLe(s[i], s[j])
  }

  /** Places `x` after every element whose key is at most its own. */
  function Insert(t: seq<Hit>, x: Hit): (r: seq<Hit>)
    decreases |t|
    ensures |r| == |t| + 1
    ensures multiset(r) == multiset(t) + multiset{x}
  {
    if t == [] || KeyLe(t[|t| - 1], x) then t + [x]
    else
      assert t == t[..|t| - 1] + [t[|t| - 1]];
      Insert(t[..|t| - 1], x) + [t[|t| - 1]]
  }

  lemma {:induction false} InsertSorted(t: seq<Hit>, x: Hit)
    requires SortedByKey(t)
    ensures SortedByKey(Insert(t, x))
    decreases |t|
  {
    if !(t == [] || KeyLe(t[|t| - 1], x)) {
      var init, last := t[..|t| - 1], t[|t| - 1];
      InsertSorted(init, x);
      var r := Insert(t, x);
      assert r == Insert(init, x) + [last];
      forall i, j | 0 <= i < j < |r| ensures KeyLe(r[i], r[j]) {
        if j == |r| - 1 {
          var y := r[i];
          assert y in multiset(Insert(init, x));
          if y != x {
            var k :| 0 <= k < |init| && init[k] == y;
            assert t[k] == y;
          }
        }
      }
    }
  }

  /** `list.sort(key=...)`: a stable sort by key. */
  function SortHits(s: seq<Hit>): (r: seq<Hit>)
    decreases |s|
    ensures |r| == |s|
    ensures multiset(r) == multiset(s)
  {
    if s == [] then []
    else
      assert s == s[..|s| - 1] + [s[|s| - 1]];
      Insert(SortHits(s[..|s| - 1]), s[|s| - 1])
  }

  /** The sort leaves its input ordered by key. */
  lemma {:induction false} SortHitsSorted(s: seq<Hit>)
    ensures SortedByKey(SortHits(s))
    decreases |s|
  {
    if s != [] {
      SortHitsSorted(s[..|s| - 1]);
      InsertSorted(SortHits(s[..|s| - 1]), s[|s| - 1]);
    }
  }

  /** Bucket `b` as it is concatenated: the exact buckets as found, the others sorted. */
  function Part(hs: seq<Hit>, b: nat): seq<Hit> {
    if b < 2 then Bucket(hs, b) else SortHits(Bucket(hs, b))
  }

  /** The buckets from `b` on, concatenated in order. */
  function RankFrom(hs: seq<Hit>, b: nat): seq<Hit>
    decreases 6 - b
  {
    if b >= 6 then [] else Part(hs, b) + RankFrom(hs, b + 1)
  }

  /** The six buckets in order: the result list before it is cut. */
  function Ranked(cat: seq<string>, prefix: string): seq<Hit> {
    RankFrom(Hits(cat, prefix), 0)
  }

  function Names(hs: seq<Hit>): (r: seq<string>)
    ensures |r| == |hs| && forall i :: 0 <= i < |hs| ==> r[i] == hs[i].item
  {
    seq(|hs|, i requires 0 <= i < |hs| => hs[i].item)
  }

  /** What `get_completions(prefix)` returns for the catalog `cat`. */
  function Completions(cat: seq<string>, prefix: string): seq<string> {
    if prefix == "" then cat[..Min(BrowseCap, |cat|)]
    else
      var all := Names(Ranked(cat, prefix));
      all[..Min(SearchCap, |all|)]
  }

  // ------------------------------------------------------------------ hits

  lemma HitsStep(cat: seq<string>, i: nat, prefix: string)
    requires i < |cat|
    ensures Hits(cat[..i + 1], prefix) == Hits(cat[..i], prefix) + HitOf(cat[i], prefix)
  {
    assert cat[..i + 1][..i] == cat[..i];
  }

  lemma BucketAppend(hs: seq<Hit>, h: Hit, b: nat)
    ensures Bucket(hs + [h], b) == Bucket(hs, b) + (if h.bucket == b then [h] else [])
  {
    assert (hs + [h])[..|hs|] == hs;
  }

  /** A new hit lands at the end of its own bucket and leaves the others alone. */
  lemma BucketsAppend(hs: seq<Hit>, h: Hit)
    ensures forall b :: Bucket(hs + [h], b) == Bucket(hs, b) + (if h.bucket == b then [h] else [])
  {
    assert (hs + [h])[..|hs|] == hs;
  }

  /** One more catalog entry adds its hit, if any, to the end of its own bucket. */
  lemma BucketsStep(cat: seq<string>, i: nat, prefix: string)
    requires i < |cat|
    ensures forall b :: (Bucket(Hits(cat[..i + 1], prefix), b) == Bucket(Hits(cat[..i], prefix), b)
      + (match Classify(cat[i], prefix) case Some(h) => if h.bucket == b then [h] else [] case None => []))
  {
    HitsStep(cat, i, prefix);
    var hs := Hits(cat[..i], prefix);
    match Classify(cat[i], prefix)
    case None =>
      assert hs + [] == hs;
    case Some(h) =>
      BucketsAppend(hs, h);
  }

  /** The ranked list written out as the six buckets it concatenates. */
  lemma RankedUnfolded(hs: seq<Hit>)
    ensures RankFrom(hs, 0) == Bucket(hs, 0) + (Bucket(hs, 1) + (SortHits(Bucket(hs, 2))
      + (SortHits(Bucket(hs, 3)) + (SortHits(Bucket(hs, 4)) + SortHits(Bucket(hs, 5))))))
  {
    var p0, p1, p2 := Bucket(hs, 0), Bucket(hs, 1), SortHits(Bucket(hs, 2));
    var p3, p4, p5 := SortHits(Bucket(hs, 3)), SortHits(Bucket(hs, 4)), SortHits(Bucket(hs, 5));
    assert RankFrom(hs, 5) == p5 + [] == p5;
    assert RankFrom(hs, 4) == p4 + p5;
    assert RankFrom(hs, 3) == p3 + (p4 + p5);
    assert RankFrom(hs, 2) == p2 + (p3 + (p4 + p5));
    assert RankFrom(hs, 1) == p1 + (p2 + (p3 + (p4 + p5)));
  }

  /** Every hit is the classification of a catalog entry. */
  lemma {:induction false} HitsGenuine(cat: seq<string>, prefix: string)
    ensures forall h :: h in Hits(cat, prefix) ==> h.item in cat && Classify(h.item, prefix) == Some(h)
    decreases |cat|
  {
    if cat != [] {
      var init, last := cat[..|cat| - 1], cat[|cat| - 1];
      HitsGenuine(init, prefix);
      forall h | h in Hits(cat, prefix) ensures h.item in cat && Classify(h.item, prefix) == Some(h) {
        if h in Hits(init, prefix) {
          assert h.item in init;
        } else {
          assert h in HitOf(last, prefix);
        }
      }
    }
  }

  /** Each catalog entry that matches gives a hit. */
  lemma {:induction false} HitsComplete(cat: seq<string>, prefix: string)
    ensures forall x :: x in cat && Matches(x, prefix) ==> Classify(x, prefix).value in Hits(cat, prefix)
    decreases |cat|
  {
    if cat != [] {
      var init, last := cat[..|cat| - 1], cat[|cat| - 1];
      HitsComplete(init, prefix);
      assert Hits(cat, prefix) == Hits(init, prefix) + HitOf(last, prefix);
      forall x | x in cat && Matches(x, prefix) ensures Classify(x, prefix).value in Hits(cat, prefix) {
        InitOrLast(cat, x);
      }
    }
  }

  lemma InitOrLast(cat: seq<string>, x: string)
    requires x in cat
    ensures x in cat[..|cat| - 1] || x == cat[|cat| - 1]
  {
    var i :| 0 <= i < |cat| && cat[i] == x;
    if i < |cat| - 1 {
      assert cat[..|cat| - 1][i] == x;
    }
  }

  lemma {:induction false} BucketMembers(hs: seq<Hit>, b: nat)
    ensures forall h :: h in Bucket(hs, b) <==> h in hs && h.bucket == b
    ensures forall h :: multiset(Bucket(hs, b))[h] == if h.bucket == b then multiset(hs)[h] else 0
    decreases |hs|
  {
    if hs != [] {
      BucketMembers(hs[..|hs| - 1], b);
      assert hs == hs[..|hs| - 1] + [hs[|hs| - 1]];
    }
  }

  /** A bucket holds the hits of its number, sorted or not, and is in rank order on its own. */
  lemma PartMembers(hs: seq<Hit>, b: nat)
    ensures forall h :: multiset(Part(hs, b))[h] == if h.bucket == b then multiset(hs)[h] else 0
    ensures forall h :: h in Part(hs, b) ==> h.bucket == b
    ensures RankSorted(Part(hs, b))
  {
    BucketMembers(hs, b);
    var part := Part(hs, b);
    assert multiset(part) == multiset(Bucket(hs, b));
    forall h | h in part ensures h.bucket == b {
      assert h in multiset(part);
    }
    if 2 <= b {
      SortHitsSorted(Bucket(hs, b));
    }
    forall i, j | 0 <= i < j < |part| ensures Before(part[i], part[j]) {
      assert part[i] in part && part[j] in part;
    }
  }

  lemma {:induction false} RankFromPermutes(hs: seq<Hit>, b: nat)
    ensures forall h :: multiset(RankFrom(hs, b))[h] == if b <= h.bucket < 6 then multiset(hs)[h] else 0
    decreases 6 - b
  {
    if b < 6 {
      RankFromPermutes(hs, b + 1);
      PartMembers(hs, b);
    }
  }

  /** The ranking is a rearrangement of the hits: nothing is lost or duplicated. */
  lemma RankedPermutes(cat: seq<string>, prefix: string)
    ensures multiset(Ranked(cat, prefix)) == multiset(Hits(cat, prefix))
  {
    var hs := Hits(cat, prefix);
    RankFromPermutes(hs, 0);
    HitsGenuine(cat, prefix);
    forall h ensures multiset(Ranked(cat, prefix))[h] == multiset(hs)[h] {
      if h in hs {
        assert Classify(h.item, prefix) == Some(h);
      }
    }
  }

  // --------------------------------------------------------------- ordering

  /** `a` may come before `b`: a lower bucket, or the same bucket and, where it is sorted, a key no larger. */
  predicate Before(a: Hit, b: Hit) {
    a.bucket < b.bucket || (a.bucket == b.bucket && (a.bucket < 2 || KeyLe(a, b)))
  }

  predicate RankSorted(s: seq<Hit>) {
    forall i, j :: 0 <= i < j < |s| ==> Before(s[i], s[j])
  }

  lemma RankSortedConcat(a: seq<Hit>, b: seq<Hit>)
    requires RankSorted(a) && RankSorted(b)
    requires forall x, y :: x in a && y in b ==> Before(x, y)
    ensures RankSorted(a + b)
  {
    forall i, j | 0 <= i < j < |a + b| ensures Before((a + b)[i], (a + b)[j]) {
      if j < |a| {
      } else if i >= |a| {
        assert (a + b)[i] == b[i - |a|] && (a + b)[j] == b[j - |a|];
      } else {
        assert (a + b)[i] in a && (a + b)[j] in b;
      }
    }
  }

  lemma {:induction false} RankFromInOrder(hs: seq<Hit>, b: nat)
    ensures RankSorted(RankFrom(hs, b))
    ensures forall h :: h in RankFrom(hs, b) ==> b <= h.bucket
    decreases 6 - b
  {
    if b < 6 {
      RankFromInOrder(hs, b + 1);
      PartMembers(hs, b);
      RankSortedConcat(Part(hs, b), RankFrom(hs, b + 1));
    }
  }

  /** The ranking lists the buckets in order, and each sorted bucket by its key. */
  lemma RankedInOrder(cat: seq<string>, prefix: string)
    ensures RankSorted(Ranked(cat, prefix))
  {
    RankFromInOrder(Hits(cat, prefix), 0);
  }

  // ------------------------------------------------------------------ ties

  predicate SameRank(a: Hit, b: Hit) {
    a.bucket == b.bucket && a.pos == b.pos && a.len == b.len
  }

  /** The hits of `hs` that rank the same as `h0`, in their order in `hs`. */
  function Tied(hs: seq<Hit>, h0: Hit): seq<Hit>
    decreases |hs|
  {
    if hs == [] then []
    else Tied(hs[..|hs| - 1], h0) + (if SameRank(hs[|hs| - 1], h0) then [hs[|hs| - 1]] else [])
  }

  lemma {:induction false} TiedConcat(a: seq<Hit>, b: seq<Hit>, h0: Hit)
    ensures Tied(a + b, h0) == Tied(a, h0) + Tied(b, h0)
    decreases |b|
  {
    if b == [] {
      assert a + b == a;
    } else {
      assert (a + b)[..|a + b| - 1] == a + b[..|b| - 1];
      TiedConcat(a, b[..|b| - 1], h0);
    }
  }

  lemma {:induction false} InsertTied(t: seq<Hit>, x: Hit, h0: Hit)
    ensures Tied(Insert(t, x), h0) == Tied(t, h0) + (if SameRank(x, h0) then [x] else [])
    decreases |t|
  {
    if t == [] || KeyLe(t[|t| - 1], x) {
      assert (t + [x])[..|t|] == t;
    } else {
      var init, last := t[..|t| - 1], t[|t| - 1];
      InsertTied(init, x, h0);
      assert (Insert(init, x) + [last])[..|Insert(init, x)|] == Insert(init, x);
      assert !(SameRank(last, h0) && SameRank(x, h0));
    }
  }

  /** The sort is stable: hits with equal keys keep their relative order. */
  lemma {:induction false} SortTied(s: seq<Hit>, h0: Hit)
    ensures Tied(SortHits(s), h0) == Tied(s, h0)
    decreases |s|
  {
    if s != [] {
      SortTied(s[..|s| - 1], h0);
      InsertTied(SortHits(s[..|s| - 1]), s[|s| - 1], h0);
    }
  }

  lemma {:induction false} BucketTied(hs: seq<Hit>, b: nat, h0: Hit)
    ensures Tied(Bucket(hs, b), h0) == if h0.bucket == b then Tied(hs, h0) else []
    decreases |hs|
  {
    if hs != [] {
      var init, last := hs[..|hs| - 1], hs[|hs| - 1];
      BucketTied(init, b, h0);
      assert hs == init + [last];
      if last.bucket == b {
        TiedConcat(Bucket(init, b), [last], h0);
        assert Tied([last], h0) == Tied([], h0) + (if SameRank(last, h0) then [last] else []) by {
          assert [last][..0] == [];
        }
      } else {
        assert Bucket(hs, b) == Bucket(init, b);
        assert Tied(hs, h0) == Tied(init, h0) + (if SameRank(last, h0) then [last] else []);
      }
    }
  }

  lemma {:induction false} RankFromTies(hs: seq<Hit>, b: nat, h0: Hit)
    ensures Tied(RankFrom(hs, b), h0) == if b <= h0.bucket < 6 then Tied(hs, h0) else []
    decreases 6 - b
  {
    if b < 6 {
      RankFromTies(hs, b + 1, h0);
      TiedConcat(Part(hs, b), RankFrom(hs, b + 1), h0);
      if 2 <= b {
        SortTied(Bucket(hs, b), h0);
      }
      assert Tied(Part(hs, b), h0) == Tied(Bucket(hs, b), h0);
      BucketTied(hs, b, h0);
      if h0.bucket == b {
        assert Tied(RankFrom(hs, b + 1), h0) == [];
      }
    }
  }

  lemma {:induction false} BucketBeyond(hs: seq<Hit>, b: nat)
    requires forall h :: h in hs ==> h.bucket < b
    ensures Bucket(hs, b) == []
    decreases |hs|
  {
    if hs != [] {
      assert hs[|hs| - 1] in hs;
      BucketBeyond(hs[..|hs| - 1], b);
    }
  }

  /** Entries that rank the same come out in catalog order. */
  lemma RankedKeepsTies(cat: seq<string>, prefix: string, h0: Hit)
    ensures Tied(Ranked(cat, prefix), h0) == Tied(Hits(cat, prefix), h0)
  {
    var hs := Hits(cat, prefix);
    RankFromTies(hs, 0, h0);
    if h0.bucket >= 6 {
      BucketTied(hs, h0.bucket, h0);
      HitsGenuine(cat, prefix);
      BucketBeyond(hs, h0.bucket);
    }
  }

  // ----------------------------------------------------------- the answer

  /** The ranking holds one genuine hit for every matching catalog entry. */
  lemma RankedOfCatalog(cat: seq<string>, prefix: string)
    ensures |Ranked(cat, prefix)| == |Hits(cat, prefix)|
    ensures forall h :: h in Ranked(cat, prefix) ==> h.item in cat && Classify(h.item, prefix) == Some(h)
    ensures forall x :: x in cat && Matches(x, prefix) ==> Classify(x, prefix).value in Ranked(cat, prefix)
  {
    var r, hs := Ranked(cat, prefix), Hits(cat, prefix);
    RankedPermutes(cat, prefix);
    assert |r| == |multiset(r)| == |multiset(hs)| == |hs|;
    HitsGenuine(cat, prefix);
    forall h | h in r ensures h in hs {
      assert h in multiset(r);
    }
    HitsComplete(cat, prefix);
    forall x | x in cat && Matches(x, prefix) ensures Classify(x, prefix).value in r {
      assert Classify(x, prefix).value in multiset(hs);
    }
  }

  /** An empty prefix lists the first `BrowseCap` catalog entries as they stand, unfiltered and unranked. */
  lemma CompletionsBrowse(cat: seq<string>)
    ensures |Completions(cat, "")| == Min(BrowseCap, |cat|)
    ensures forall i :: 0 <= i < |Completions(cat, "")| ==> Completions(cat, "")[i] == cat[i]
  {
  }

  /** Entry `i` of the answer to a non-empty prefix is the item of hit `i` of the ranking. */
  lemma CompletionsAreRanked(cat: seq<string>, prefix: string)
    requires prefix != ""
    ensures |Completions(cat, prefix)| == Min(SearchCap, |Ranked(cat, prefix)|)
    ensures forall i :: 0 <= i < |Completions(cat, prefix)| ==> Completions(cat, prefix)[i] == Ranked(cat, prefix)[i].item
  {
  }

  /** A non-empty prefix gets at most `SearchCap` entries: all the hits when there are no more. */
  lemma CompletionsCount(cat: seq<string>, prefix: string)
    requires prefix != ""
    ensures |Completions(cat, prefix)| == Min(SearchCap, |Hits(cat, prefix)|)
  {
    CompletionsAreRanked(cat, prefix);
    RankedOfCatalog(cat, prefix);
  }

  /** Every entry of the answer to a non-empty prefix is a catalog entry that matches it. */
  lemma CompletionsSound(cat: seq<string>, prefix: string)
    requires prefix != ""
    ensures forall x :: x in Completions(cat, prefix) ==> x in cat && Matches(x, prefix)
  {
    var r, out := Ranked(cat, prefix), Completions(cat, prefix);
    CompletionsAreRanked(cat, prefix);
    RankedOfCatalog(cat, prefix);
    forall x | x in out ensures x in cat && Matches(x, prefix) {
      var i :| 0 <= i < |out| && out[i] == x;
      assert r[i] in r;
    }
  }

  /** When no more than `SearchCap` catalog entries match, all of them are listed. */
  lemma CompletionsComplete(cat: seq<string>, prefix: string)
    requires prefix != ""
    requires |Hits(cat, prefix)| <= SearchCap
    ensures forall x :: x in cat && Matches(x, prefix) ==> x in Completions(cat, prefix)
  {
    var r, out := Ranked(cat, prefix), Completions(cat, prefix);
    CompletionsAreRanked(cat, prefix);
    RankedOfCatalog(cat, prefix);
    forall x | x in cat && Matches(x, prefix) ensures x in out {
      var j :| 0 <= j < |r| && r[j] == Classify(x, prefix).value;
      assert out[j] == x;
    }
  }

  /** The answer to a non-empty prefix is in rank order. */
  lemma CompletionsInOrder(cat: seq<string>, prefix: string)
    requires prefix != ""
    ensures forall i :: 0 <= i < |Completions(cat, prefix)| ==> Classify(Completions(cat, prefix)[i], prefix).Some?
    ensures forall i, j :: 0 <= i < j < |Completions(cat, prefix)| ==>
      Before(Classify(Completions(cat, prefix)[i], prefix).value, Classify(Completions(cat, prefix)[j], prefix).value)
  {
    var r, out := Ranked(cat, prefix), Completions(cat, prefix);
    CompletionsAreRanked(cat, prefix);
    RankedOfCatalog(cat, prefix);
    RankedInOrder(cat, prefix);
    forall i | 0 <= i < |out| ensures Classify(out[i], prefix) == Some(r[i]) {
      assert r[i] in r;
    }
  }
}
