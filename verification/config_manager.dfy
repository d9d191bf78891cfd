/**
 * The application configuration: a nested dictionary read and written through
 * dotted keys, the recent-files list, the scanned projects, and named profiles.
 * Reading and writing the JSON files is left out: `save()` does nothing here.
 */
module Config {
  import opened Options
  import opened Text
  import opened Json
  import opened Seqs

  /** `ConfigManager.DEFAULT_CONFIG`. */
  const DefaultConfig: Value := Dict(map[
    "version" := Str("1.0.0"),
    "last_opened_file" := Str(""),
    "recent_files" := List([]),
    "auto_backup" := Dict(map["enabled" := Bool(true), "interval_minutes" := Int(5),
                              "max_backups" := Int(10), "backup_dir" := Str("backups")]),
    "springboot_projects" := List([]),
    "scanned_classes" := Dict(map[]),
    "function_classes_suffix" := Str("Functions"),
    "theme" := Str("auto"),
    "window" := Dict(map["width" := Int(1400), "height" := Int(900), "maximized" := Bool(false)])
  ])

  /** At most this many recent files are kept. */
  const MaxRecentFiles := 10

  // ------------------------------------------------------- dotted-key reads

  /**
   * The walk of `get`: a value that is not a dict ends it with `d`; a missing
   * key replaces the current value by `d` and the walk goes on from there.
   */
  function Walk(v: Value, keys: seq<string>, d: Value): Value
    decreases |keys|
  {
    if keys == [] then v
    else match v
      case Dict(m) => Walk(DictGet(m, keys[0], d), keys[1..], d)
      case _ => d
  }

  /** `get(key, default)` on the key already split at its dots. */
  function Lookup(v: Value, keys: seq<string>, d: Value): Value {
    var w := Walk(v, keys, d);
    if w == Null then d else w
  }

  /** Every key of the path is present, each in a dict. */
  predicate PathPresent(v: Value, keys: seq<string>)
    decreases |keys|
  {
    keys == [] || (v.Dict? && keys[0] in v.entries && PathPresent(v.entries[keys[0]], keys[1..]))
  }

  /** The value at a present path. */
  function At(v: Value, keys: seq<string>): Value
    requires PathPresent(v, keys)
    decreases |keys|
  {
    if keys == [] then v else At(v.entries[keys[0]], keys[1..])
  }

  /** A present path yields its value, and `d` in place of a stored null. */
  lemma {:induction false} LookupPresent(v: Value, keys: seq<string>, d: Value)
    requires PathPresent(v, keys)
    ensures Lookup(v, keys, d) == if At(v, keys) == Null then d else At(v, keys)
    decreases |keys|
  {
    if keys != [] {
      LookupPresent(v.entries[keys[0]], keys[1..], d);
    }
  }

  lemma {:induction false} WalkAbsent(v: Value, keys: seq<string>, d: Value)
    requires !d.Dict? && !PathPresent(v, keys)
    ensures Walk(v, keys, d) == d
    decreases |keys|
  {
    if v.Dict? && keys[0] in v.entries {
      WalkAbsent(v.entries[keys[0]], keys[1..], d);
    } else if v.Dict? {
      if |keys| > 1 {
        assert Walk(v, keys, d) == Walk(d, keys[1..], d);
      }
    }
  }

  /** A missing key, or a value that is not a dict on the way, yields the default (when the default is not itself a dict). */
  lemma LookupAbsent(v: Value, keys: seq<string>, d: Value)
    requires !d.Dict? && !PathPresent(v, keys)
    ensures Lookup(v, keys, d) == d
  {
    WalkAbsent(v, keys, d);
  }

  // The top-level keys the manager reads contain no dot.
  lemma RecentFilesKey() ensures Split("recent_files", '.') == ["recent_files"] {
    SplitWithoutSeparator("recent_files", '.');
  }
  lemma ProjectsKey() ensures Split("springboot_projects", '.') == ["springboot_projects"] {
    SplitWithoutSeparator("springboot_projects", '.');
  }
  lemma SuffixKey() ensures Split("function_classes_suffix", '.') == ["function_classes_suffix"] {
    SplitWithoutSeparator("function_classes_suffix", '.');
  }
  lemma ScannedKey() ensures Split("scanned_classes", '.') == ["scanned_classes"] {
    SplitWithoutSeparator("scanned_classes", '.');
  }

  /** A one-segment key reads the top-level entry. */
  lemma LookupTop(m: map<string, Value>, k: string, d: Value)
    ensures Lookup(Dict(m), [k], d) == if k in m && m[k] != Null then m[k] else d
  {
    assert [k][1..] == [];
    assert Walk(Dict(m), [k], d) == Walk(DictGet(m, k, d), [], d);
  }

  /**
   * A missing key puts the default in its place and the walk goes on into it:
   * with default `{"b": 1}`, `get("a.b")` on a config without "a" gives 1.
   */
  lemma LookupWalksIntoDefault(m: map<string, Value>, k: string, rest: seq<string>, d: Value)
    requires k !in m
    ensures Lookup(Dict(m), [k] + rest, d) == Lookup(d, rest, d)
  {
    assert ([k] + rest)[0] == k && ([k] + rest)[1..] == rest;
  }

  // ------------------------------------------------------ dotted-key writes

  /**
   * `set(key, value)` on a value: missing intermediate keys get empty dicts;
   * `None` stands for the TypeError raised when an intermediate is not a dict.
   */
  function Assign(v: Value, keys: seq<string>, x: Value): (r: Option<Value>)
    requires keys != []
    decreases |keys|
    ensures r.Some? ==> v.Dict? && r.value.Dict?
    ensures r.Some? ==> r.value.entries.Keys == v.entries.Keys + {keys[0]}
    ensures r.Some? ==> forall k :: k in v.entries && k != keys[0] ==> r.value.entries[k] == v.entries[k]
  {
    match v
    case Dict(m) =>
      if |keys| == 1 then Some(Dict(m[keys[0] := x]))
      else
        (match Assign(DictGet(m, keys[0], Dict(map[])), keys[1..], x)
         case Some(c) => Some(Dict(m[keys[0] := c]))
         case None => None)
    case _ => None
  }

  /** Every intermediate on the path that already exists is a dict. */
  predicate DictsAlong(v: Value, keys: seq<string>)
    requires keys != []
    decreases |keys|
  {
    v.Dict? && (|keys| > 1 ==> keys[0] !in v.entries || DictsAlong(v.entries[keys[0]], keys[1..]))
  }

  /** `set` fails exactly when an existing intermediate is not a dict. */
  lemma {:induction false} AssignDefined(v: Value, keys: seq<string>, x: Value)
    requires keys != []
    ensures Assign(v, keys, x).Some? <==> DictsAlong(v, keys)
    decreases |keys|
  {
    if v.Dict? && |keys| > 1 {
      if keys[0] in v.entries {
        AssignDefined(v.entries[keys[0]], keys[1..], x);
      } else {
        AssignDefined(Dict(map[]), keys[1..], x);
      }
    }
  }

  /** After a successful `set`, the path is present and holds the value. */
  lemma {:induction false} AssignThenAt(v: Value, keys: seq<string>, x: Value)
    requires keys != [] && Assign(v, keys, x).Some?
    ensures PathPresent(Assign(v, keys, x).value, keys)
    ensures At(Assign(v, keys, x).value, keys) == x
    decreases |keys|
  {
    if |keys| > 1 {
      AssignThenAt(DictGet(v.entries, keys[0], Dict(map[])), keys[1..], x);
    }
  }

  /** `get(key)` after `set(key, x)` returns `x`, or the default when `x` is null. */
  lemma AssignThenLookup(v: Value, keys: seq<string>, x: Value, d: Value)
    requires keys != [] && Assign(v, keys, x).Some?
    ensures Lookup(Assign(v, keys, x).value, keys, d) == if x == Null then d else x
  {
    AssignThenAt(v, keys, x);
    LookupPresent(Assign(v, keys, x).value, keys, d);
  }

  /** Two paths that part ways at some segment. */
  predicate Diverge(a: seq<string>, b: seq<string>)
    decreases |a|
  {
    |a| > 0 && |b| > 0 && (a[0] != b[0] || Diverge(a[1..], b[1..]))
  }

  /** `set` leaves every path that parts ways with its key as it was. */
  lemma {:induction false} AssignKeepsOtherPaths(v: Value, keys: seq<string>, x: Value, other: seq<string>)
    requires keys != [] && Assign(v, keys, x).Some?
    requires Diverge(keys, other) && PathPresent(v, other)
    ensures PathPresent(Assign(v, keys, x).value, other)
    ensures At(Assign(v, keys, x).value, other) == At(v, other)
    decreases |keys|
  {
    var v' := Assign(v, keys, x).value;
    if keys[0] != other[0] {
      assert v'.entries[other[0]] == v.entries[other[0]];
    } else {
      assert |keys| > 1;
      AssignKeepsOtherPaths(v.entries[keys[0]], keys[1..], x, other[1..]);
    }
  }

  // ------------------------------------------------------------ recent files

  /** The index of the first occurrence of `x` in `s`. */
  function FirstIndex(s: seq<Value>, x: Value): (i: nat)
    requires x in s
    ensures i < |s| && s[i] == x && x !in s[..i]
  {
    if s[0] == x then 0
    else
      var k := FirstIndex(s[1..], x);
      assert s[..k + 1] == [s[0]] + s[1..][..k];
      k + 1
  }

  /** `list.remove(x)` guarded by `x in list`: drops the first occurrence of `x`, if any. */
  function RemoveFirst(s: seq<Value>, x: Value): (r: seq<Value>)
    ensures x !in s ==> r == s
    ensures x in s ==> |r| == |s| - 1
    ensures multiset(r) == multiset(s) - multiset{x}
  {
    if x in s then
      var i := FirstIndex(s, x);
      assert s == s[..i] + [x] + s[i + 1..];
      s[..i] + s[i + 1..]
    else s
  }

  /** The recent-files list after opening `path`: moved to the front, at most ten kept. */
  function RecentAfterAdd(recent: seq<Value>, path: string): seq<Value> {
    var l := [Str(path)] + RemoveFirst(recent, Str(path));
    if |l| <= MaxRecentFiles then l else l[..MaxRecentFiles]
  }

  predicate NoDuplicates(s: seq<Value>) {
    forall i, j :: 0 <= i < j < |s| ==> s[i] != s[j]
  }

  /**
   * The opened file comes first; at most ten entries remain; the others keep
   * their relative order.
   */
  lemma RecentAfterAddShape(recent: seq<Value>, path: string)
    ensures 1 <= |RecentAfterAdd(recent, path)| <= MaxRecentFiles
    ensures RecentAfterAdd(recent, path)[0] == Str(path)
    ensures var rest := RemoveFirst(recent, Str(path));
      |RecentAfterAdd(recent, path)| == if 1 + |rest| <= MaxRecentFiles then 1 + |rest| else MaxRecentFiles
    ensures var r := RecentAfterAdd(recent, path);
      r[1..] == RemoveFirst(recent, Str(path))[..|r| - 1]
  {
  }

  /** A file listed at most once before is listed only at the front after being opened. */
  lemma RecentAfterAddOnce(recent: seq<Value>, path: string)
    requires multiset(recent)[Str(path)] <= 1
    ensures Str(path) !in RecentAfterAdd(recent, path)[1..]
  {
    var x := Str(path);
    var rest := RemoveFirst(recent, x);
    assert multiset(rest)[x] == 0;
    var r := RecentAfterAdd(recent, path);
    RecentAfterAddShape(recent, path);
    forall k | 0 <= k < |r| - 1 ensures r[1..][k] != x {
      assert r[1..][k] == rest[k];
      assert rest[k] in multiset(rest);
    }
  }

  /** Where each element of `RemoveFirst(s, x)` came from in `s`. */
  lemma RemoveFirstIndices(s: seq<Value>, x: Value)
    requires x in s
    ensures var i := FirstIndex(s, x); var r := RemoveFirst(s, x);
      |r| == |s| - 1 && forall k :: 0 <= k < |r| ==> r[k] == s[if k < i then k else k + 1]
  {
    var i := FirstIndex(s, x);
    assert RemoveFirst(s, x) == s[..i] + s[i + 1..];
  }

  lemma RemoveFirstNoDuplicates(s: seq<Value>, x: Value)
    requires NoDuplicates(s)
    ensures NoDuplicates(RemoveFirst(s, x)) && x !in RemoveFirst(s, x)
  {
    if x in s {
      var i := FirstIndex(s, x);
      var r := RemoveFirst(s, x);
      RemoveFirstIndices(s, x);
      forall a, b | 0 <= a < b < |r| ensures r[a] != r[b] {
        assert r[a] == s[if a < i then a else a + 1];
        assert r[b] == s[if b < i then b else b + 1];
      }
      forall k | 0 <= k < |r| ensures r[k] != x {
        assert r[k] == s[if k < i then k else k + 1];
      }
    }
  }

  /** Opening a file keeps the list free of duplicates. */
  lemma RecentAfterAddNoDuplicates(recent: seq<Value>, path: string)
    requires NoDuplicates(recent)
    ensures NoDuplicates(RecentAfterAdd(recent, path))
  {
    var x := Str(path);
    var rest := RemoveFirst(recent, x);
    RemoveFirstNoDuplicates(recent, x);
    var l := [x] + rest;
    forall a, b | 0 <= a < b < |l| ensures l[a] != l[b] {
      if a > 0 { assert l[a] == rest[a - 1] && l[b] == rest[b - 1]; }
      else { assert l[b] in rest; }
    }
  }

  /** Opening the same file twice in a row is the same as opening it once. */
  lemma RecentAfterAddIdempotent(recent: seq<Value>, path: string)
    ensures RecentAfterAdd(RecentAfterAdd(recent, path), path) == RecentAfterAdd(recent, path)
  {
    var x := Str(path);
    var r := RecentAfterAdd(recent, path);
    RecentAfterAddShape(recent, path);
    assert r == [x] + r[1..];
    assert FirstIndex(r, x) == 0;
    assert RemoveFirst(r, x) == r[1..];
  }

  // ---------------------------------------------------------------- projects

  /** `p.get('path')`; a record that is not a dict has no path here. */
  function PathOf(p: Value): Value {
    if p.Dict? then DictGet(p.entries, "path", Null) else Null
  }

  /** The index of the first record whose path is `path`. */
  function FirstWithPath(ps: seq<Value>, path: Value): (r: Option<nat>)
    ensures r.Some? ==> r.value < |ps| && PathOf(ps[r.value]) == path
    ensures r.Some? ==> forall j :: 0 <= j < r.value ==> PathOf(ps[j]) != path
    ensures r.None? ==> forall j :: 0 <= j < |ps| ==> PathOf(ps[j]) != path
  {
    if ps == [] then None
    else if PathOf(ps[0]) == path then Some(0)
    else match FirstWithPath(ps[1..], path)
      case None => None
      case Some(k) => Some(k + 1)
  }

  /** `add_springboot_project` on the list: replace the first record with the same path, else append. */
  function UpsertByPath(ps: seq<Value>, p: Value): (r: seq<Value>)
  {
    match FirstWithPath(ps, PathOf(p))
    case Some(i) => ps[i := p]
    case None => ps + [p]
  }

  /** The first record with a path is the one `FirstWithPath` finds. */
  lemma {:induction false} FirstWithPathAt(ps: seq<Value>, path: Value, i: nat)
    requires i < |ps| && PathOf(ps[i]) == path && path !in Paths(ps)[..i]
    ensures FirstWithPath(ps, path) == Some(i)
    decreases i
  {
    if i > 0 {
      assert Paths(ps)[..i][0] == PathOf(ps[0]);
      assert Paths(ps[1..])[..i - 1] == Paths(ps)[1..i];
      FirstWithPathAt(ps[1..], path, i - 1);
    }
  }

  /** The record is placed where the first record with its path was, or appended; nothing else moves. */
  lemma UpsertByPathShape(ps: seq<Value>, p: Value)
    ensures p in UpsertByPath(ps, p)
    ensures PathOf(p) in Paths(ps) ==> |UpsertByPath(ps, p)| == |ps|
    ensures PathOf(p) !in Paths(ps) ==> UpsertByPath(ps, p) == ps + [p]
    ensures forall i :: 0 <= i < |ps| && PathOf(ps[i]) == PathOf(p) && PathOf(p) !in Paths(ps)[..i] ==>
              UpsertByPath(ps, p) == ps[i := p]
    ensures forall j :: 0 <= j < |ps| && PathOf(ps[j]) != PathOf(p) ==> UpsertByPath(ps, p)[j] == ps[j]
  {
    match FirstWithPath(ps, PathOf(p))
    case Some(i) =>
      forall i' | 0 <= i' < |ps| && PathOf(ps[i']) == PathOf(p) && PathOf(p) !in Paths(ps)[..i'] {
        FirstWithPathAt(ps, PathOf(p), i');
      }
      assert Paths(ps)[i] == PathOf(p);
      assert PathOf(p) in Paths(ps);
      assert UpsertByPath(ps, p)[i] == p;
    case None =>
      assert PathOf(p) !in Paths(ps);
  }

  /** The paths of a list of records, in order. */
  function Paths(ps: seq<Value>): (r: seq<Value>)
    ensures |r| == |ps|
    ensures forall i :: 0 <= i < |ps| ==> r[i] == PathOf(ps[i])
  {
    seq(|ps|, i requires 0 <= i < |ps| => PathOf(ps[i]))
  }

  /** First occurrences only, in order of first occurrence. */
  function Dedup(s: seq<Value>): (r: seq<Value>)
    decreases |s|
  {
    if s == [] then []
    else
      var d := Dedup(s[..|s| - 1]);
      if s[|s| - 1] in d then d else d + [s[|s| - 1]]
  }

  lemma {:induction false} DedupMembers(s: seq<Value>)
    ensures forall x :: x in Dedup(s) <==> x in s
    ensures NoDuplicates(Dedup(s))
    decreases |s|
  {
    if s != [] {
      DedupMembers(s[..|s| - 1]);
      assert s == s[..|s| - 1] + [s[|s| - 1]];
    }
  }

  /** Deduplicating `a + b` starts with the deduplicated `a`. */
  lemma {:induction false} DedupExtends(a: seq<Value>, b: seq<Value>)
    ensures |Dedup(a)| <= |Dedup(a + b)| && Dedup(a + b)[..|Dedup(a)|] == Dedup(a)
    decreases |b|
  {
    if b == [] {
      assert a + b == a;
    } else {
      assert (a + b)[..|a + b| - 1] == a + b[..|b| - 1];
      DedupExtends(a, b[..|b| - 1]);
    }
  }

  /** Python's insertion-ordered `{path: record}` after assigning every record of `ps` in turn. */
  function PutAll(acc: seq<Value>, ps: seq<Value>): seq<Value>
    decreases |ps|
  {
    if ps == [] then acc else UpsertByPath(PutAll(acc, ps[..|ps| - 1]), ps[|ps| - 1])
  }

  /** `merge_config` on the project lists: keyed by path, the later record wins. */
  function MergeByPath(existing: seq<Value>, imported: seq<Value>): seq<Value> {
    PutAll([], existing + imported)
  }

  lemma {:induction false} UpsertPaths(ps: seq<Value>, p: Value)
    ensures Paths(UpsertByPath(ps, p)) == if PathOf(p) in Paths(ps) then Paths(ps) else Paths(ps) + [PathOf(p)]
  {
    match FirstWithPath(ps, PathOf(p))
    case Some(i) =>
      forall i' | 0 <= i' < |ps| && PathOf(ps[i']) == PathOf(p) && PathOf(p) !in Paths(ps)[..i'] {
        FirstWithPathAt(ps, PathOf(p), i');
      }
      assert Paths(ps)[i] == PathOf(p);
      assert PathOf(p) in Paths(ps);
      assert UpsertByPath(ps, p)[i] == p;
    case None =>
      assert PathOf(p) !in Paths(ps);
  }

  /** The merged paths are those of the inputs, each once, in order of first appearance. */
  lemma {:induction false} PutAllPaths(ps: seq<Value>)
    ensures Paths(PutAll([], ps)) == Dedup(Paths(ps))
    decreases |ps|
  {
    if ps != [] {
      var init := ps[..|ps| - 1];
      PutAllPaths(init);
      UpsertPaths(PutAll([], init), ps[|ps| - 1]);
      assert Paths(ps)[..|ps| - 1] == Paths(init);
    }
  }

  /** The record a path ends up with is the last input record carrying that path. */
  lemma {:induction false} PutAllLastWins(ps: seq<Value>, i: nat)
    requires i < |ps|
    requires forall k :: i < k < |ps| ==> PathOf(ps[k]) != PathOf(ps[i])
    ensures ps[i] in PutAll([], ps)
    decreases |ps|
  {
    var init := ps[..|ps| - 1];
    var last := ps[|ps| - 1];
    if i == |ps| - 1 {
      UpsertByPathShape(PutAll([], init), last);
    } else {
      PutAllLastWins(init, i);
      var prev := PutAll([], init);
      var j :| 0 <= j < |prev| && prev[j] == ps[i];
      UpsertByPathShape(prev, last);
      assert UpsertByPath(prev, last)[j] == ps[i];
    }
  }

  /**
   * `merge_config` on projects: paths are distinct; the paths already present keep
   * their positions; new paths follow in import order; each path holds the last
   * record given for it, so an imported record replaces an existing one.
   */
  lemma MergeByPathPaths(existing: seq<Value>, imported: seq<Value>)
    ensures var r := MergeByPath(existing, imported);
      && Paths(r) == Dedup(Paths(existing + imported))
      && NoDuplicates(Paths(r))
      && |Dedup(Paths(existing))| <= |Paths(r)|
      && Paths(r)[..|Dedup(Paths(existing))|] == Dedup(Paths(existing))
  {
    var all := existing + imported;
    PutAllPaths(all);
    DedupMembers(Paths(all));
    assert Paths(all) == Paths(existing) + Paths(imported);
    DedupExtends(Paths(existing), Paths(imported));
  }

  /** No later record of `s` carries the path of `s[i]`. */
  predicate LastWithPath(s: seq<Value>, i: nat)
    requires i < |s|
  {
    forall k :: i < k < |s| ==> PathOf(s[k]) != PathOf(s[i])
  }

  /** The last imported record for a path is the one the merged list holds. */
  lemma MergeImportedWins(existing: seq<Value>, imported: seq<Value>)
    ensures forall i :: 0 <= i < |imported| && LastWithPath(imported, i) ==> imported[i] in MergeByPath(existing, imported)
  {
    var all := existing + imported;
    forall i | 0 <= i < |imported| && LastWithPath(imported, i)
      ensures imported[i] in MergeByPath(existing, imported)
    {
      assert all[|existing| + i] == imported[i];
      forall k | |existing| + i < k < |all| ensures PathOf(all[k]) != PathOf(all[|existing| + i]) {
        assert all[k] == imported[k - |existing|];
      }
      PutAllLastWins(all, |existing| + i);
    }
  }

  /** Merging a project list with distinct paths into itself changes nothing. */
  lemma {:induction false} PutAllDistinct(ps: seq<Value>)
    requires NoDuplicates(Paths(ps))
    ensures PutAll([], ps) == ps
    decreases |ps|
  {
    if ps != [] {
      var init := ps[..|ps| - 1];
      assert Paths(init) == Paths(ps)[..|ps| - 1];
      PutAllDistinct(init);
      assert PathOf(ps[|ps| - 1]) !in Paths(init) by {
        assert Paths(ps)[|ps| - 1] == PathOf(ps[|ps| - 1]);
      }
      assert forall j :: 0 <= j < |init| ==> PathOf(init[j]) == Paths(init)[j];
    }
  }

  lemma {:induction false} PutAllAgain(acc: seq<Value>, ps: seq<Value>)
    requires NoDuplicates(Paths(acc))
    requires forall p :: p in ps ==> p in acc
    ensures PutAll(acc, ps) == acc
    decreases |ps|
  {
    if ps != [] {
      PutAllAgain(acc, ps[..|ps| - 1]);
      var p := ps[|ps| - 1];
      assert p in acc;
      var j :| 0 <= j < |acc| && acc[j] == p;
      var i := FirstWithPath(acc, PathOf(p));
      assert Paths(acc)[j] == PathOf(p);
      assert i.Some? && i.value == j;
      assert acc[j := p] == acc;
    }
  }

  /** Importing one's own project list (paths distinct) leaves it unchanged. */
  lemma MergeWithSelf(ps: seq<Value>)
    requires NoDuplicates(Paths(ps))
    ensures MergeByPath(ps, ps) == ps
  {
    var all := ps + ps;
    assert all[..|ps|] == ps;
    PutAllSplit(ps, ps);
    PutAllDistinct(ps);
    PutAllAgain(ps, ps);
  }

  lemma {:induction false} PutAllSplit(a: seq<Value>, b: seq<Value>)
    ensures PutAll([], a + b) == PutAll(PutAll([], a), b)
    decreases |b|
  {
    if b == [] {
      assert a + b == a;
    } else {
      assert (a + b)[..|a + b| - 1] == a + b[..|b| - 1];
      PutAllSplit(a, b[..|b| - 1]);
    }
  }

  /** The records of `ps` whose path is not `path` (`remove_springboot_project`). */
  function WithoutPath(ps: seq<Value>, path: string): seq<Value> {
    Filter(ps, q => PathOf(q) != Str(path))
  }

  /** Removal keeps exactly the records with another path, and drops one entry per record with that path. */
  lemma WithoutPathShape(ps: seq<Value>, path: string)
    ensures forall q :: q in WithoutPath(ps, path) <==> q in ps && PathOf(q) != Str(path)
    ensures |WithoutPath(ps, path)| == |ps| - Count(ps, q => PathOf(q) == Str(path))
  {
    FilterMembers(ps, q => PathOf(q) != Str(path));
    FilterCount(ps, q => PathOf(q) != Str(path));
    CountComplement(ps, q => PathOf(q) != Str(path), q => PathOf(q) == Str(path));
  }

  lemma {:induction false} CountComplement<T>(s: seq<T>, p: T -> bool, q: T -> bool)
    requires forall x :: q(x) == !p(x)
    ensures Count(s, p) + Count(s, q) == |s|
    decreases |s|
  {
    if s != [] { CountComplement(s[..|s| - 1], p, q); }
  }

  /** The class records of one project (`project.get('classes', [])`). */
  function ClassesOf(p: Value): seq<Value> {
    if p.Dict? then Items(DictGet(p.entries, "classes", List([]))) else []
  }

  /** The classes of all projects, project by project. */
  function ClassesIn(ps: seq<Value>): seq<Value>
    decreases |ps|
  {
    if ps == [] then [] else ClassesIn(ps[..|ps| - 1]) + ClassesOf(ps[|ps| - 1])
  }

  lemma {:induction false} ClassesInMembers(ps: seq<Value>)
    ensures forall c :: c in ClassesIn(ps) <==> exists p :: p in ps && c in ClassesOf(p)
    decreases |ps|
  {
    if ps != [] {
      ClassesInMembers(ps[..|ps| - 1]);
      assert ps == ps[..|ps| - 1] + [ps[|ps| - 1]];
    }
  }

  /** `get_function_classes`' test: the name ends with the suffix, or the flag is truthy. */
  predicate IsFunctionClass(c: Value, suffix: string) {
    EndsWith(StrOr(Entries(c), "name", ""), suffix)
    || Truthy(DictGet(Entries(c), "is_function_class", Bool(false)))
  }

  // ------------------------------------------------------------- the manager

  /** The imported configuration has one of the three sections `merge_config` reads. */
  predicate HasSection(imported: map<string, Value>) {
    "springboot_projects" in imported || "function_classes_suffix" in imported || "scanned_classes" in imported
  }

  /** The `springboot_projects` entry `merge_config` writes, if the import has that section. */
  function ProjectsSection(projects: seq<Value>, imported: map<string, Value>): map<string, Value> {
    if "springboot_projects" in imported
    then map["springboot_projects" := List(MergeByPath(projects, Items(imported["springboot_projects"])))]
    else map[]
  }

  /** The `function_classes_suffix` entry `merge_config` writes, if the import has that section. */
  function SuffixSection(imported: map<string, Value>): map<string, Value> {
    if "function_classes_suffix" in imported
    then map["function_classes_suffix" := imported["function_classes_suffix"]]
    else map[]
  }

  /** The `scanned_classes` entry `merge_config` writes, if the import has that section. */
  function ScannedSection(scanned: Value, imported: map<string, Value>): map<string, Value> {
    if "scanned_classes" in imported
    then map["scanned_classes" := Dict(Entries(scanned) + Entries(imported["scanned_classes"]))]
    else map[]
  }

  /** The top-level entries `merge_config` writes, given the stored projects and scanned classes. */
  function MergedSections(projects: seq<Value>, scanned: Value, imported: map<string, Value>): (u: map<string, Value>)
    ensures u.Keys == (set k | k in imported && k in {"springboot_projects", "function_classes_suffix", "scanned_classes"})
  {
    ProjectsSection(projects, imported) + SuffixSection(imported) + ScannedSection(scanned, imported)
  }

  /** Writing the three sections one after another is writing them together. */
  lemma MergedSectionsInTurn(e: map<string, Value>, projects: seq<Value>, scanned: Value, imported: map<string, Value>)
    ensures e + MergedSections(projects, scanned, imported)
         == e + ProjectsSection(projects, imported) + SuffixSection(imported) + ScannedSection(scanned, imported)
  {
  }

  /** What the three views read back after `merge_config` wrote its sections over `e`. */
  lemma MergedSectionsViews(e: map<string, Value>, imported: map<string, Value>)
    ensures var projects := Items(Lookup(Dict(e), ["springboot_projects"], List([])));
            var scanned := Lookup(Dict(e), ["scanned_classes"], Dict(map[]));
            var m := Dict(e + MergedSections(projects, scanned, imported));
      && Items(Lookup(m, ["springboot_projects"], List([]))) == (if "springboot_projects" in imported
           then MergeByPath(projects, Items(imported["springboot_projects"])) else projects)
      && Lookup(m, ["function_classes_suffix"], Str("Functions")) == (if "function_classes_suffix" !in imported
           then Lookup(Dict(e), ["function_classes_suffix"], Str("Functions"))
           else if imported["function_classes_suffix"] == Null then Str("Functions")
           else imported["function_classes_suffix"])
      && Lookup(m, ["scanned_classes"], Dict(map[])) == (if "scanned_classes" in imported
           then Dict(Entries(scanned) + Entries(imported["scanned_classes"])) else scanned)
  {
    var projects := Items(Lookup(Dict(e), ["springboot_projects"], List([])));
    var scanned := Lookup(Dict(e), ["scanned_classes"], Dict(map[]));
    var u := MergedSections(projects, scanned, imported);
    TopKeysPlain();
    LookupTop(e + u, "springboot_projects", List([]));
    LookupTop(e + u, "function_classes_suffix", Str("Functions"));
    LookupTop(e + u, "scanned_classes", Dict(map[]));
    LookupTop(e, "function_classes_suffix", Str("Functions"));
  }

  /** A second write to the same key replaces the first. */
  lemma OverwriteTwice(m: map<string, Value>, k: string, a: Value, b: Value)
    ensures m[k := a][k := b] == m[k := b]
  {
  }

  lemma TopKeysPlain()
    ensures '.' !in "recent_files" && '.' !in "last_opened_file" && '.' !in "springboot_projects"
    ensures '.' !in "function_classes_suffix" && '.' !in "scanned_classes"
  {
  }

  class ConfigManager {
    /** `_config`. */
    var config: Value
    /** `_profiles`. */
    var profiles: map<string, Value>
    /** `_current_profile`. */
    var current: string
    /** `_config` is the very dict stored as `_profiles[current]`, so writes reach both. */
    var linked: bool

    /** While linked, the configuration in use is the current profile's. Any JSON value can be loaded. */
    ghost predicate Valid()
      reads this
    {
      linked ==> current in profiles && profiles[current] == config
    }

    /**
     * `ConfigManager()` after `load()`: `loaded` is what `json.load` returned for
     * the configuration file (any JSON value), or None when the file is missing
     * or unreadable; `profileFiles` are the parsed files of the profiles
     * directory, by file stem.
     */
    constructor (loaded: Option<Value>, profileFiles: map<string, Value>)
      ensures Valid()
      ensures config == (if loaded.Some? then loaded.value else DefaultConfig)
      ensures profiles == map["default" := config] + profileFiles
      ensures current == "default" && linked == ("default" !in profileFiles)
    {
      config := if loaded.Some? then loaded.value else DefaultConfig;
      var c := if loaded.Some? then loaded.value else DefaultConfig;
      profiles := map["default" := c] + profileFiles;
      current := "default";
      linked := "default" !in profileFiles;
    }

    function RecentFiles(): seq<Value>
      reads this
    {
      Items(Lookup(config, ["recent_files"], List([])))
    }

    function LastOpenedFile(): Value
      reads this
    {
      Lookup(config, ["last_opened_file"], Null)
    }

    /** `get_springboot_projects()`. */
    function Projects(): seq<Value>
      reads this
    {
      Items(Lookup(config, ["springboot_projects"], List([])))
    }

    /** What `get_function_classes_suffix()` returns. */
    function SuffixValue(): Value
      reads this
    {
      Lookup(config, ["function_classes_suffix"], Str("Functions"))
    }

    /** The suffix as a string; a stored value that is not a string reads as the default. */
    function Suffix(): string
      reads this
    {
      if SuffixValue().Str? then SuffixValue().s else "Functions"
    }

    /** What `get('scanned_classes', {})` returns. */
    function ScannedClasses(): Value
      reads this
    {
      Lookup(config, ["scanned_classes"], Dict(map[]))
    }

    /** What `get_all_scanned_classes()` returns. */
    function AllScannedClasses(): seq<Value>
      reads this
    {
      ClassesIn(Projects())
    }

    /** `get_function_classes()`: the scanned classes that are function classes, in order. */
    function FunctionClasses(): (r: seq<Value>)
      reads this
      ensures forall c :: c in r <==> c in AllScannedClasses() && IsFunctionClass(c, Suffix())
    {
      var suffix := Suffix();
      FilterMembers(AllScannedClasses(), c => IsFunctionClass(c, suffix));
      Filter(AllScannedClasses(), c => IsFunctionClass(c, suffix))
    }

    /** `get_export_config()`. */
    function ExportConfig(): map<string, Value>
      reads this
    {
      map["springboot_projects" := Lookup(config, ["springboot_projects"], List([])),
          "function_classes_suffix" := SuffixValue(),
          "scanned_classes" := ScannedClasses()]
    }

    /** `get(key, default)`. */
    method Get(key: string, default: Value) returns (r: Value)
      ensures r == Lookup(config, Split(key, '.'), default)
    {
      var keys := Split(key, '.');
      var value := config;
      var i := 0;
      while i < |keys|
        invariant 0 <= i <= |keys|
        invariant Walk(config, keys, default) == Walk(value, keys[i..], default)
      {
        match value {
          case Dict(m) =>
            assert keys[i..][1..] == keys[i + 1..];
            value := DictGet(m, keys[i], default);
          case _ =>
            return default;
        }
        i := i + 1;
      }
      r := if value == Null then default else value;
    }

    /** `set(key, value)`; `ok` is false where the source raises a TypeError, and then nothing changes. */
    method Set(key: string, value: Value) returns (ok: bool)
      requires Valid()
      modifies this
      ensures Valid()
      ensures var r := Assign(old(config), Split(key, '.'), value);
        ok == r.Some? && config == (if ok then r.value else old(config))
      ensures profiles == if ok && old(linked) then old(profiles)[old(current) := config] else old(profiles)
      ensures current == old(current) && linked == old(linked)
    {
      var r := Assign(config, Split(key, '.'), value);
      ok := r.Some?;
      if ok {
        config := r.value;
        if linked {
          profiles := profiles[current := config];
        }
      }
    }

    /** `set` of a top-level key: always succeeds and only that key changes. */
    method SetTop(key: string, value: Value)
      requires Valid() && '.' !in key && config.Dict?
      modifies this
      ensures Valid()
      ensures config == Dict(old(config).entries[key := value])
      ensures profiles == if old(linked) then old(profiles)[old(current) := config] else old(profiles)
      ensures current == old(current) && linked == old(linked)
    {
      SplitWithoutSeparator(key, '.');
      var ok := Set(key, value);
    }

    /** `get_recent_files()`. */
    method GetRecentFiles() returns (files: seq<Value>)
      ensures files == RecentFiles()
    {
      RecentFilesKey();
      var recent := Get("recent_files", List([]));
      files := Items(recent);
    }

    /** `get_springboot_projects()`. */
    method GetSpringbootProjects() returns (ps: seq<Value>)
      ensures ps == Projects()
    {
      ProjectsKey();
      var projects := Get("springboot_projects", List([]));
      ps := Items(projects);
    }

    /** `get_function_classes_suffix()`. */
    method GetFunctionClassesSuffix() returns (suffix: string)
      ensures suffix == Suffix()
    {
      SuffixKey();
      var s := Get("function_classes_suffix", Str("Functions"));
      suffix := if s.Str? then s.s else "Functions";
    }

    /** `get('scanned_classes', {})`. */
    method GetScannedClasses() returns (classes: Value)
      ensures classes == ScannedClasses()
    {
      ScannedKey();
      classes := Get("scanned_classes", Dict(map[]));
    }

    /** `add_recent_file(file_path)`; `ok` is false where `set` raises because the configuration is not a dictionary. */
    method AddRecentFile(filePath: string) returns (ok: bool)
      requires Valid()
      modifies this
      ensures Valid()
      ensures ok == old(config).Dict?
      ensures config == if ok then Dict(old(config).entries["recent_files" := List(RecentAfterAdd(old(RecentFiles()), filePath))]
                                                           ["last_opened_file" := Str(filePath)])
                        else old(config)
      ensures ok ==> RecentFiles() == RecentAfterAdd(old(RecentFiles()), filePath) && LastOpenedFile() == Str(filePath)
      ensures profiles == if ok && old(linked) then old(profiles)[old(current) := config] else old(profiles)
      ensures current == old(current) && linked == old(linked)
    {
      var items := GetRecentFiles();
      if Str(filePath) in items {
        items := RemoveFirst(items, Str(filePath));
      }
      items := [Str(filePath)] + items;
      if |items| > MaxRecentFiles {
        items := items[..MaxRecentFiles];
      }
      assert items == RecentAfterAdd(old(RecentFiles()), filePath);
      if !config.Dict? {
        return false;
      }
      ok := true;
      TopKeysPlain();
      SetTop("recent_files", List(items));
      LookupTop(config.entries, "recent_files", List([]));
      SetTop("last_opened_file", Str(filePath));
      LookupTop(config.entries, "recent_files", List([]));
      LookupTop(config.entries, "last_opened_file", Null);
    }

    /** `add_springboot_project(project_data)`: replaces the first project with the same path, or appends. */
    method AddSpringbootProject(projectData: Value) returns (ok: bool)
      requires Valid() && projectData.Dict?
      modifies this
      ensures Valid()
      ensures ok == old(config).Dict?
      ensures config == if ok then Dict(old(config).entries["springboot_projects" := List(UpsertByPath(old(Projects()), projectData))])
                        else old(config)
      ensures ok ==> Projects() == UpsertByPath(old(Projects()), projectData)
      ensures profiles == if ok && old(linked) then old(profiles)[old(current) := config] else old(profiles)
      ensures current == old(current) && linked == old(linked)
    {
      var ps := GetSpringbootProjects();
      var i := 0;
      while i < |ps|
        invariant 0 <= i <= |ps|
        invariant forall j :: 0 <= j < i ==> PathOf(ps[j]) != PathOf(projectData)
      {
        if PathOf(ps[i]) == PathOf(projectData) {
          assert FirstWithPath(ps, PathOf(projectData)) == Some(i);
          ps := ps[i := projectData];
          ok := StoreProjects(ps);
          return;
        }
        i := i + 1;
      }
      assert FirstWithPath(ps, PathOf(projectData)) == None;
      ps := ps + [projectData];
      ok := StoreProjects(ps);
    }

    /** `set('springboot_projects', ps)`; `ok` is false where `set` raises. */
    method StoreProjects(ps: seq<Value>) returns (ok: bool)
      requires Valid()
      modifies this
      ensures Valid()
      ensures ok == old(config).Dict?
      ensures config == if ok then Dict(old(config).entries["springboot_projects" := List(ps)]) else old(config)
      ensures ok ==> Projects() == ps
      ensures profiles == if ok && old(linked) then old(profiles)[old(current) := config] else old(profiles)
      ensures current == old(current) && linked == old(linked)
    {
      if !config.Dict? {
        return false;
      }
      ok := true;
      TopKeysPlain();
      SetTop("springboot_projects", List(ps));
      LookupTop(config.entries, "springboot_projects", List([]));
    }

    /** `remove_springboot_project(project_path)`. */
    method RemoveSpringbootProject(projectPath: string) returns (ok: bool)
      requires Valid()
      modifies this
      ensures Valid()
      ensures ok == old(config).Dict?
      ensures config == if ok then Dict(old(config).entries["springboot_projects" := List(WithoutPath(old(Projects()), projectPath))])
                        else old(config)
      ensures ok ==> Projects() == WithoutPath(old(Projects()), projectPath)
      ensures profiles == if ok && old(linked) then old(profiles)[old(current) := config] else old(profiles)
      ensures current == old(current) && linked == old(linked)
    {
      var projects := GetSpringbootProjects();
      var kept := WithoutPath(projects, projectPath);
      ok := StoreProjects(kept);
    }

    /** `get_all_scanned_classes()`. */
    method GetAllScannedClasses() returns (all: seq<Value>)
      ensures all == AllScannedClasses()
    {
      var ps := GetSpringbootProjects();
      all := [];
      for i := 0 to |ps|
        invariant all == ClassesIn(ps[..i])
      {
        assert ps[..i + 1][..i] == ps[..i];
        all := all + ClassesOf(ps[i]);
      }
      assert ps[..|ps|] == ps;
    }

    /** `get_function_classes()`. */
    method GetFunctionClasses() returns (r: seq<Value>)
      ensures r == FunctionClasses()
    {
      var suffix := GetFunctionClassesSuffix();
      var all := GetAllScannedClasses();
      r := [];
      for i := 0 to |all|
        invariant r == Filter(all[..i], c => IsFunctionClass(c, suffix))
      {
        assert all[..i + 1][..i] == all[..i];
        if IsFunctionClass(all[i], suffix) {
          r := r + [all[i]];
        }
      }
      assert all[..|all|] == all;
    }

    /** The project part of `merge_config`: keyed by path, an imported record replaces an existing one. */
    method MergeProjects(incoming: seq<Value>) returns (ok: bool)
      requires Valid()
      modifies this
      ensures Valid()
      ensures ok == old(config).Dict?
      ensures config == if ok then Dict(old(config).entries["springboot_projects" := List(MergeByPath(old(Projects()), incoming))])
                        else old(config)
      ensures ok ==> Projects() == MergeByPath(old(Projects()), incoming)
      ensures SuffixValue() == old(SuffixValue()) && ScannedClasses() == old(ScannedClasses())
      ensures profiles == if ok && old(linked) then old(profiles)[old(current) := config] else old(profiles)
      ensures current == old(current) && linked == old(linked)
    {
      var existing := GetSpringbootProjects();
      var projectMap := PutAll([], existing);
      for i := 0 to |incoming|
        invariant projectMap == PutAll(PutAll([], existing), incoming[..i])
      {
        assert incoming[..i + 1][..i] == incoming[..i];
        projectMap := UpsertByPath(projectMap, incoming[i]);
      }
      assert incoming[..|incoming|] == incoming;
      PutAllSplit(existing, incoming);
      ghost var before := config;
      ok := StoreProjects(projectMap);
      if ok {
        LookupTop(config.entries, "function_classes_suffix", Str("Functions"));
        LookupTop(config.entries, "scanned_classes", Dict(map[]));
        LookupTop(before.entries, "function_classes_suffix", Str("Functions"));
        LookupTop(before.entries, "scanned_classes", Dict(map[]));
      }
    }

    /** `set_function_classes_suffix(suffix)`. */
    method SetFunctionClassesSuffix(suffix: Value) returns (ok: bool)
      requires Valid()
      modifies this
      ensures Valid()
      ensures ok == old(config).Dict?
      ensures config == if ok then Dict(old(config).entries["function_classes_suffix" := suffix]) else old(config)
      ensures ok ==> SuffixValue() == if suffix == Null then Str("Functions") else suffix
      ensures Projects() == old(Projects()) && ScannedClasses() == old(ScannedClasses())
      ensures profiles == if ok && old(linked) then old(profiles)[old(current) := config] else old(profiles)
      ensures current == old(current) && linked == old(linked)
    {
      if !config.Dict? {
        return false;
      }
      ok := true;
      ghost var before := config;
      TopKeysPlain();
      SetTop("function_classes_suffix", suffix);
      LookupTop(config.entries, "springboot_projects", List([]));
      LookupTop(config.entries, "function_classes_suffix", Str("Functions"));
      LookupTop(config.entries, "scanned_classes", Dict(map[]));
      LookupTop(before.entries, "springboot_projects", List([]));
      LookupTop(before.entries, "scanned_classes", Dict(map[]));
    }

    /** The scanned-classes part of `merge_config`: `dict.update`, imported entries win. */
    method MergeScannedClasses(incoming: map<string, Value>) returns (ok: bool)
      requires Valid()
      modifies this
      ensures Valid()
      ensures ok == old(config).Dict?
      ensures config == if ok then Dict(old(config).entries["scanned_classes" := Dict(Entries(old(ScannedClasses())) + incoming)])
                        else old(config)
      ensures ok ==> ScannedClasses() == Dict(Entries(old(ScannedClasses())) + incoming)
      ensures Projects() == old(Projects()) && SuffixValue() == old(SuffixValue())
      ensures profiles == if ok && old(linked) then old(profiles)[old(current) := config] else old(profiles)
      ensures current == old(current) && linked == old(linked)
    {
      var existing := GetScannedClasses();
      if !config.Dict? {
        return false;
      }
      ok := true;
      ghost var before := config;
      TopKeysPlain();
      SetTop("scanned_classes", Dict(Entries(existing) + incoming));
      LookupTop(config.entries, "springboot_projects", List([]));
      LookupTop(config.entries, "function_classes_suffix", Str("Functions"));
      LookupTop(config.entries, "scanned_classes", Dict(map[]));
      LookupTop(before.entries, "springboot_projects", List([]));
      LookupTop(before.entries, "function_classes_suffix", Str("Functions"));
    }

    /**
     * `merge_config(imported_config)`: each of the three sections present in the
     * import is merged and every other key is left as it was; `ok` is false
     * where the first `set` raises because the configuration is not a dictionary.
     */
    method MergeConfig(imported: map<string, Value>) returns (ok: bool)
      requires Valid()
      modifies this
      ensures Valid()
      ensures ok == (old(config).Dict? || !HasSection(imported))
      ensures config == if old(config).Dict?
        then Dict(old(config).entries + MergedSections(old(Projects()), old(ScannedClasses()), imported))
        else old(config)
      ensures old(config).Dict? ==> Projects() == if "springboot_projects" in imported
        then MergeByPath(old(Projects()), Items(imported["springboot_projects"]))
        else old(Projects())
      ensures old(config).Dict? ==> SuffixValue() == if "function_classes_suffix" !in imported then old(SuffixValue())
        else if imported["function_classes_suffix"] == Null then Str("Functions")
        else imported["function_classes_suffix"]
      ensures old(config).Dict? ==> ScannedClasses() == if "scanned_classes" in imported
        then Dict(Entries(old(ScannedClasses())) + Entries(imported["scanned_classes"]))
        else old(ScannedClasses())
      ensures profiles == if old(config).Dict? && old(linked) then old(profiles)[old(current) := config] else old(profiles)
      ensures current == old(current) && linked == old(linked)
    {
      if !config.Dict? {
        return !HasSection(imported);
      }
      ok := true;
      ghost var c0, p0 := config, profiles;
      ghost var projects0, scanned0 := Projects(), ScannedClasses();
      MergeProjectsSection(imported);
      ghost var c1 := config;
      MergeSuffixSection(imported);
      ghost var c2 := config;
      MergeScannedSection(imported);
      if linked {
        OverwriteTwice(p0, current, c1, c2);
        OverwriteTwice(p0, current, c2, config);
      }
      MergedSectionsInTurn(c0.entries, projects0, scanned0, imported);
      MergedSectionsViews(c0.entries, imported);
    }

    /** The first block of `merge_config`: merges the projects when the import has them. */
    method MergeProjectsSection(imported: map<string, Value>)
      requires Valid() && config.Dict?
      modifies this
      ensures Valid() && config.Dict?
      ensures config.entries == old(config).entries + ProjectsSection(old(Projects()), imported)
      ensures ScannedClasses() == old(ScannedClasses())
      ensures profiles == if linked then old(profiles)[current := config] else old(profiles)
      ensures current == old(current) && linked == old(linked)
    {
      if "springboot_projects" in imported {
        var done := MergeProjects(Items(imported["springboot_projects"]));
      }
    }

    /** The second block of `merge_config`: copies the suffix when the import has one. */
    method MergeSuffixSection(imported: map<string, Value>)
      requires Valid() && config.Dict?
      modifies this
      ensures Valid() && config.Dict?
      ensures config.entries == old(config).entries + SuffixSection(imported)
      ensures ScannedClasses() == old(ScannedClasses())
      ensures profiles == if linked then old(profiles)[current := config] else old(profiles)
      ensures current == old(current) && linked == old(linked)
    {
      if "function_classes_suffix" in imported {
        var done := SetFunctionClassesSuffix(imported["function_classes_suffix"]);
      }
    }

    /** The third block of `merge_config`: updates the scanned classes when the import has them. */
    method MergeScannedSection(imported: map<string, Value>)
      requires Valid() && config.Dict?
      modifies this
      ensures Valid() && config.Dict?
      ensures config.entries == old(config).entries + ScannedSection(old(ScannedClasses()), imported)
      ensures profiles == if linked then old(profiles)[current := config] else old(profiles)
      ensures current == old(current) && linked == old(linked)
    {
      if "scanned_classes" in imported {
        var done := MergeScannedClasses(Entries(imported["scanned_classes"]));
      }
    }

    /** `switch_profile(profile_name)`: only a known profile becomes current. */
    method SwitchProfile(profileName: string)
      requires Valid()
      modifies this
      ensures Valid()
      ensures profiles == old(profiles)
      ensures profileName in old(profiles) ==> current == profileName && config == profiles[profileName] && linked
      ensures profileName !in old(profiles) ==>
        current == old(current) && config == old(config) && linked == old(linked)
    {
      if profileName in profiles {
        current := profileName;
        config := profiles[profileName];
        linked := true;
      }
    }

    /**
     * `create_profile(profile_name, base_profile)`: never overwrites an existing
     * profile; `ok` is false where `base_config.copy()` raises because the base
     * is neither a dictionary nor a list.
     */
    method CreateProfile(profileName: string, baseProfile: string) returns (ok: bool)
      requires Valid()
      modifies this
      ensures Valid()
      ensures var base := if baseProfile in old(profiles) then old(profiles)[baseProfile] else DefaultConfig;
        && ok == (profileName in old(profiles) || base.Dict? || base.List?)
        && profiles == if profileName !in old(profiles) && ok then old(profiles)[profileName := base] else old(profiles)
      ensures config == old(config) && current == old(current) && linked == old(linked)
    {
      ok := true;
      if profileName !in profiles {
        var base := if baseProfile in profiles then profiles[baseProfile] else DefaultConfig;
        if !(base.Dict? || base.List?) {
          return false;
        }
        profiles := profiles[profileName := base];
      }
    }

    /** `delete_profile(profile_name)`: never removes "default"; the current configuration stays in use. */
    method DeleteProfile(profileName: string)
      requires Valid()
      modifies this
      ensures Valid()
      ensures profileName != "default" && profileName in old(profiles) ==> profiles == old(profiles) - {profileName}
      ensures profileName == "default" || profileName !in old(profiles) ==> profiles == old(profiles)
      ensures "default" in old(profiles) ==> "default" in profiles
      ensures config == old(config) && current == old(current)
      ensures linked == (old(linked) && !(profileName != "default" && profileName == old(current)))
    {
      if profileName != "default" && profileName in profiles {
        profiles := profiles - {profileName};
        if profileName == current {
          linked := false;
        }
      }
    }
  }
}
