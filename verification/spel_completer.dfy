/**
 * `SpelCompleter`: the completion catalog for SpEL expressions (keywords plus
 * what the project scanner found in the configuration) and the answers it
 * gives for the word before the cursor: ranked catalog entries, the members
 * of an object's field type, or the methods of the function classes after
 * `#fn.`.
 */
module SpelCompletion {
  import opened Options
  import opened Text
  import opened Json
  import opened SpelTokens
  import opened SpelRanking
  import opened Seqs
  import Config

  // ------------------------------------------------------------- keywords

  const Operators: seq<string> := ["==", "!=", ">", "<", ">=", "<=", "and", "or", "not",
                                   "&&", "||", "!", "+", "-", "*", "/", "%", "^",
                                   "?:", "instanceof", "matches", "between"]

  const SpecialVars: seq<string> := ["#this", "#root", "#fn", "null", "true", "false", "NULL", "T()"]

  const CollectionOps: seq<string> := [".size()", ".isEmpty()", ".?[]", ".![]", ".^[]", ".$[]",
                                       ".contains()", ".containsKey()", ".containsValue()",
                                       ".get()", ".put()", ".add()", ".remove()", ".clear()"]

  const StringOps: seq<string> := [".length()", ".trim()", ".toLowerCase()", ".toUpperCase()",
                                   ".substring()", ".indexOf()", ".startsWith()", ".endsWith()",
                                   ".replace()", ".split()", ".isEmpty()", ".equals()",
                                   ".equalsIgnoreCase()", ".contains()", ".matches()"]

  const DateOps: seq<string> := [".isBefore()", ".isAfter()", ".isEqual()", ".plusDays()",
                                 ".minusDays()", ".plusMonths()", ".minusMonths()",
                                 ".getYear()", ".getMonth()", ".getDayOfMonth()"]

  /** The operations offered after a dot when no field type is known. */
  const MemberOps: seq<string> := CollectionOps + StringOps + DateOps

  /** The part of the catalog that does not depend on the configuration, in the order it is added. */
  const Keywords: seq<string> := Operators + SpecialVars + MemberOps

  // --------------------------------------------------------- paired input

  /** `PAIR_CHARS`: the characters the editor closes as soon as they are typed. */
  const PairChars: map<char, char> := map['(' := ')', '[' := ']', '{' := '}', '"' := '"', '\'' := '\'']

  /** `should_auto_complete_pair(char)`: a dict lookup, so only a one-character key matches. */
  predicate ShouldAutoCompletePair(s: string) {
    |s| == 1 && s[0] in PairChars
  }

  /** `get_matching_bracket(char)`: the closing character, or None; quotes close themselves. */
  function MatchingBracket(s: string): (r: Option<char>)
    ensures r.Some? <==> ShouldAutoCompletePair(s)
    ensures r.Some? ==> r.value == PairChars[s[0]] && (r.value == s[0] <==> s[0] in {'"', '\''})
  {
    if |s| == 1 && s[0] in PairChars then Some(PairChars[s[0]]) else None
  }

  // ------------------------------------------------------ scanned records

  /** The two lists the completer takes from the configuration manager. */
  datatype Scan = Scan(classes: seq<Value>, functionClasses: seq<Value>)

  /** `record.get('name', '')`; a name that is not a string reads as "". */
  function NameOf(v: Value): string {
    StrOr(Entries(v), "name", "")
  }

  /** `cls.get('fields', [])`. */
  function FieldsOf(c: Value): seq<Value> {
    Items(DictGet(Entries(c), "fields", List([])))
  }

  /** `cls.get('methods', [])`. */
  function MethodsOf(c: Value): seq<Value> {
    Items(DictGet(Entries(c), "methods", List([])))
  }

  /** `name(p1, p2)`: a method with its parameter list joined by `, `. */
  function Signature(m: Value): string {
    NameOf(m) + "(" + Join(Strings(DictGet(Entries(m), "params", List([]))), ", ") + ")"
  }

  // -------------------------------------------------------------- catalog

  /** Each named field as `f` and `.f`, in order. */
  function FieldEntries(fs: seq<Value>): seq<string>
    decreases |fs|
  {
    if fs == [] then []
    else
      var f := fs[|fs| - 1];
      FieldEntries(fs[..|fs| - 1]) + (if NameOf(f) != "" then [NameOf(f), "." + NameOf(f)] else [])
  }

  /** Each named method as `m(...)` and `.m(...)`, in order. */
  function MethodEntries(ms: seq<Value>): seq<string>
    decreases |ms|
  {
    if ms == [] then []
    else
      var m := ms[|ms| - 1];
      MethodEntries(ms[..|ms| - 1]) + (if NameOf(m) != "" then [Signature(m), "." + Signature(m)] else [])
  }

  /** What one scanned class adds: its name, its fields, its methods. */
  function ClassEntries(c: Value): seq<string> {
    (if NameOf(c) != "" then [NameOf(c)] else []) + FieldEntries(FieldsOf(c)) + MethodEntries(MethodsOf(c))
  }

  function ScannedEntries(cs: seq<Value>): seq<string>
    decreases |cs|
  {
    if cs == [] then [] else ScannedEntries(cs[..|cs| - 1]) + ClassEntries(cs[|cs| - 1])
  }

  /** Each named method of a function class as `#fn.m(...)`. */
  function FnEntries(ms: seq<Value>): seq<string>
    decreases |ms|
  {
    if ms == [] then []
    else
      var m := ms[|ms| - 1];
      FnEntries(ms[..|ms| - 1]) + (if NameOf(m) != "" then ["#fn." + Signature(m)] else [])
  }

  function FunctionEntries(fcs: seq<Value>): seq<string>
    decreases |fcs|
  {
    if fcs == [] then [] else FunctionEntries(fcs[..|fcs| - 1]) + FnEntries(MethodsOf(fcs[|fcs| - 1]))
  }

  /** What `_load_from_config` appends. */
  function ScannedPart(src: Option<Scan>): seq<string> {
    if src.None? then [] else ScannedEntries(src.value.classes) + FunctionEntries(src.value.functionClasses)
  }

  /** `_completions` after `_build_completions`. */
  function Catalog(src: Option<Scan>): seq<string> {
    Keywords + ScannedPart(src)
  }

  lemma {:induction false} FieldEntriesMembers(fs: seq<Value>)
    ensures forall x :: x in FieldEntries(fs) <==>
      exists f :: f in fs && NameOf(f) != "" && (x == NameOf(f) || x == "." + NameOf(f))
    decreases |fs|
  {
    if fs != [] {
      FieldEntriesMembers(fs[..|fs| - 1]);
      assert fs == fs[..|fs| - 1] + [fs[|fs| - 1]];
    }
  }

  lemma {:induction false} MethodEntriesMembers(ms: seq<Value>)
    ensures forall x :: x in MethodEntries(ms) <==>
      exists m :: m in ms && NameOf(m) != "" && (x == Signature(m) || x == "." + Signature(m))
    decreases |ms|
  {
    if ms != [] {
      MethodEntriesMembers(ms[..|ms| - 1]);
      assert ms == ms[..|ms| - 1] + [ms[|ms| - 1]];
    }
  }

  lemma {:induction false} FnEntriesMembers(ms: seq<Value>)
    ensures forall x :: x in FnEntries(ms) <==> exists m :: m in ms && NameOf(m) != "" && x == "#fn." + Signature(m)
    decreases |ms|
  {
    if ms != [] {
      FnEntriesMembers(ms[..|ms| - 1]);
      assert ms == ms[..|ms| - 1] + [ms[|ms| - 1]];
    }
  }

  lemma {:induction false} ScannedEntriesMembers(cs: seq<Value>)
    ensures forall x :: x in ScannedEntries(cs) <==> exists c :: c in cs && x in ClassEntries(c)
    decreases |cs|
  {
    if cs != [] {
      ScannedEntriesMembers(cs[..|cs| - 1]);
      assert cs == cs[..|cs| - 1] + [cs[|cs| - 1]];
    }
  }

  lemma {:induction false} FunctionEntriesMembers(fcs: seq<Value>)
    ensures forall x :: x in FunctionEntries(fcs) <==> exists c :: c in fcs && x in FnEntries(MethodsOf(c))
    decreases |fcs|
  {
    if fcs != [] {
      FunctionEntriesMembers(fcs[..|fcs| - 1]);
      assert fcs == fcs[..|fcs| - 1] + [fcs[|fcs| - 1]];
    }
  }

  /**
   * The catalog lists the keywords first, then for every scanned class its
   * name, fields and methods, then the `#fn.` methods of the function classes;
   * a record with an empty name adds nothing.
   */
  lemma ClassEntriesMembers(c: Value)
    ensures forall x :: x in ClassEntries(c) <==>
      || (x == NameOf(c) && x != "")
      || (exists f :: f in FieldsOf(c) && NameOf(f) != "" && (x == NameOf(f) || x == "." + NameOf(f)))
      || (exists m :: m in MethodsOf(c) && NameOf(m) != "" && (x == Signature(m) || x == "." + Signature(m)))
  {
    FieldEntriesMembers(FieldsOf(c));
    MethodEntriesMembers(MethodsOf(c));
  }

  lemma CatalogLayout(src: Option<Scan>)
    ensures Catalog(src)[..|Keywords|] == Keywords
    ensures src.None? ==> Catalog(src) == Keywords
    ensures forall x :: x in Catalog(src)[|Keywords|..] <==>
      src.Some? && ((exists c :: c in src.value.classes && x in ClassEntries(c))
                    || (exists c :: c in src.value.functionClasses && x in FnEntries(MethodsOf(c))))
  {
    if src.Some? {
      ScannedEntriesMembers(src.value.classes);
      FunctionEntriesMembers(src.value.functionClasses);
      assert Catalog(src)[|Keywords|..] == ScannedEntries(src.value.classes) + FunctionEntries(src.value.functionClasses);
    }
  }

  // -------------------------------------------------------- member lookup

  /** `not prefix or name.lower().startswith(prefix.lower())`. */
  predicate NameMatches(name: string, prefix: string) {
    prefix == "" || StartsWith(Lower(name), Lower(prefix))
  }

  /** The operations that start with `.`, without it, whose name matches `prefix`; duplicates stay. */
  function OpMembers(ops: seq<string>, prefix: string): seq<string>
    decreases |ops|
  {
    if ops == [] then []
    else
      var op := ops[|ops| - 1];
      OpMembers(ops[..|ops| - 1], prefix) + (if StartsWith(op, ".") && NameMatches(op[1..], prefix) then [op[1..]] else [])
  }

  /** The generic members `_get_object_members` falls back to. */
  function DefaultMembers(prefix: string): seq<string> {
    OpMembers(MemberOps, prefix)
  }

  lemma {:induction false} OpMembersMembers(ops: seq<string>, prefix: string)
    ensures forall x :: x in OpMembers(ops, prefix) <==>
      exists op :: op in ops && StartsWith(op, ".") && x == op[1..] && NameMatches(x, prefix)
    decreases |ops|
  {
    if ops != [] {
      OpMembersMembers(ops[..|ops| - 1], prefix);
      assert ops == ops[..|ops| - 1] + [ops[|ops| - 1]];
    }
  }

  /** With no prefix every dotted operation is offered, stripped of its dot, duplicates included. */
  lemma {:induction false} OpMembersUnfiltered(ops: seq<string>)
    requires forall k :: 0 <= k < |ops| ==> |ops[k]| > 0 && ops[k][0] == '.'
    ensures |OpMembers(ops, "")| == |ops|
    ensures forall k :: 0 <= k < |ops| ==> OpMembers(ops, "")[k] == ops[k][1..]
    decreases |ops|
  {
    if ops != [] {
      var last := ops[|ops| - 1];
      assert last[..1] == ".";
      OpMembersUnfiltered(ops[..|ops| - 1]);
    }
  }

  /** The generic list offers all 39 operations; `isEmpty()` and `contains()` appear twice. */
  lemma DefaultMembersUnfiltered()
    ensures |DefaultMembers("")| == |MemberOps| == 39
    ensures forall k :: 0 <= k < |MemberOps| ==> DefaultMembers("")[k] == MemberOps[k][1..]
  {
    OpMembersUnfiltered(MemberOps);
  }

  /** `field.get('name') == obj_name`: a missing or non-string name matches no object. */
  predicate NamedField(f: Value, obj: string) {
    DictGet(Entries(f), "name", Null) == Str(obj)
  }

  /** `field.get('type', '')`. */
  function TypeOf(f: Value): string {
    StrOr(Entries(f), "type", "")
  }

  /** The type of the first field of `fs` named `obj`. */
  function FieldTypeIn(fs: seq<Value>, obj: string): Option<string>
    decreases |fs|
  {
    if fs == [] then None
    else match FieldTypeIn(fs[..|fs| - 1], obj)
      case Some(t) => Some(t)
      case None => if NamedField(fs[|fs| - 1], obj) then Some(TypeOf(fs[|fs| - 1])) else None
  }

  /** The type of the first field named `obj`, scanning class by class. */
  function FieldType(cs: seq<Value>, obj: string): Option<string>
    decreases |cs|
  {
    if cs == [] then None
    else match FieldType(cs[..|cs| - 1], obj)
      case Some(t) => Some(t)
      case None => FieldTypeIn(FieldsOf(cs[|cs| - 1]), obj)
  }

  lemma {:induction false} FieldTypeInFirst(fs: seq<Value>, obj: string, j: nat)
    requires j < |fs| && NamedField(fs[j], obj)
    requires forall k :: 0 <= k < j ==> !NamedField(fs[k], obj)
    ensures FieldTypeIn(fs, obj) == Some(TypeOf(fs[j]))
    decreases |fs|
  {
    if j < |fs| - 1 {
      FieldTypeInFirst(fs[..|fs| - 1], obj, j);
    } else {
      FieldTypeInNone(fs[..|fs| - 1], obj);
    }
  }

  lemma {:induction false} FieldTypeInNone(fs: seq<Value>, obj: string)
    ensures FieldTypeIn(fs, obj).None? <==> forall k :: 0 <= k < |fs| ==> !NamedField(fs[k], obj)
    decreases |fs|
  {
    if fs != [] {
      FieldTypeInNone(fs[..|fs| - 1], obj);
    }
  }

  lemma {:induction false} FieldTypeNone(cs: seq<Value>, obj: string)
    ensures FieldType(cs, obj).None? <==>
      forall i, k :: 0 <= i < |cs| && 0 <= k < |FieldsOf(cs[i])| ==> !NamedField(FieldsOf(cs[i])[k], obj)
    decreases |cs|
  {
    if cs != [] {
      FieldTypeNone(cs[..|cs| - 1], obj);
      FieldTypeInNone(FieldsOf(cs[|cs| - 1]), obj);
    }
  }

  /**
   * The first field named `obj` decides the type: if it is field `j` of class
   * `i`, and no earlier class and no earlier field of class `i` has that
   * name, its type is the one looked up.
   */
  lemma {:induction false} FieldTypeFirst(cs: seq<Value>, obj: string, i: nat, j: nat)
    requires i < |cs| && j < |FieldsOf(cs[i])| && NamedField(FieldsOf(cs[i])[j], obj)
    requires forall i', k :: 0 <= i' < i && 0 <= k < |FieldsOf(cs[i'])| ==> !NamedField(FieldsOf(cs[i'])[k], obj)
    requires forall k :: 0 <= k < j ==> !NamedField(FieldsOf(cs[i])[k], obj)
    ensures FieldType(cs, obj) == Some(TypeOf(FieldsOf(cs[i])[j]))
    decreases |cs|
  {
    if i < |cs| - 1 {
      FieldTypeFirst(cs[..|cs| - 1], obj, i, j);
    } else {
      FieldTypeNone(cs[..|cs| - 1], obj);
      FieldTypeInFirst(FieldsOf(cs[i]), obj, j);
    }
  }

  /** `cls.get('name') == type_name or cls.get('full_name', '').endswith(type_name)`. */
  predicate TypeMatches(c: Value, typeName: string) {
    DictGet(Entries(c), "name", Null) == Str(typeName) || EndsWith(StrOr(Entries(c), "full_name", ""), typeName)
  }

  /** The names of the fields whose name matches `prefix`; an empty name is kept. */
  function FieldNames(fs: seq<Value>, prefix: string): seq<string>
    decreases |fs|
  {
    if fs == [] then []
    else
      var f := fs[|fs| - 1];
      FieldNames(fs[..|fs| - 1], prefix) + (if NameMatches(NameOf(f), prefix) then [NameOf(f)] else [])
  }

  /** The signatures of the methods whose name matches `prefix`. */
  function Signatures(ms: seq<Value>, prefix: string): seq<string>
    decreases |ms|
  {
    if ms == [] then []
    else
      var m := ms[|ms| - 1];
      Signatures(ms[..|ms| - 1], prefix) + (if NameMatches(NameOf(m), prefix) then [Signature(m)] else [])
  }

  /** What `_get_class_members_by_type` returns: fields, then methods, of every class of that type. */
  function TypeMembers(cs: seq<Value>, typeName: string, prefix: string): seq<string>
    decreases |cs|
  {
    if cs == [] then []
    else
      var c := cs[|cs| - 1];
      TypeMembers(cs[..|cs| - 1], typeName, prefix)
      + (if TypeMatches(c, typeName) then FieldNames(FieldsOf(c), prefix) + Signatures(MethodsOf(c), prefix) else [])
  }

  lemma {:induction false} FieldNamesMembers(fs: seq<Value>, prefix: string)
    ensures forall x :: x in FieldNames(fs, prefix) <==> exists f :: f in fs && NameMatches(NameOf(f), prefix) && x == NameOf(f)
    decreases |fs|
  {
    if fs != [] {
      FieldNamesMembers(fs[..|fs| - 1], prefix);
      assert fs == fs[..|fs| - 1] + [fs[|fs| - 1]];
    }
  }

  lemma {:induction false} SignaturesMembers(ms: seq<Value>, prefix: string)
    ensures forall x :: x in Signatures(ms, prefix) <==> exists m :: m in ms && NameMatches(NameOf(m), prefix) && x == Signature(m)
    decreases |ms|
  {
    if ms != [] {
      SignaturesMembers(ms[..|ms| - 1], prefix);
      assert ms == ms[..|ms| - 1] + [ms[|ms| - 1]];
    }
  }

  /** A member of a type is a matching field name or method signature of a class of that type. */
  lemma {:induction false} TypeMembersMembers(cs: seq<Value>, typeName: string, prefix: string)
    ensures forall x :: x in TypeMembers(cs, typeName, prefix) <==>
      exists c :: c in cs && TypeMatches(c, typeName) && (x in FieldNames(FieldsOf(c), prefix) || x in Signatures(MethodsOf(c), prefix))
    decreases |cs|
  {
    if cs != [] {
      TypeMembersMembers(cs[..|cs| - 1], typeName, prefix);
      assert cs == cs[..|cs| - 1] + [cs[|cs| - 1]];
    }
  }

  /** What `_get_object_members(obj_name, prefix)` returns. */
  function ObjectMembers(src: Option<Scan>, obj: string, prefix: string): seq<string> {
    if src.None? then DefaultMembers(prefix)
    else match FieldType(src.value.classes, obj)
      case Some(t) => TypeMembers(src.value.classes, t, prefix)
      case None => DefaultMembers(prefix)
  }

  /** The `#fn.` answer: every method of every function class whose name matches; empty names are kept. */
  function FnCompletions(fcs: seq<Value>, prefix: string): seq<string>
    decreases |fcs|
  {
    if fcs == [] then [] else FnCompletions(fcs[..|fcs| - 1], prefix) + Signatures(MethodsOf(fcs[|fcs| - 1]), prefix)
  }

  lemma {:induction false} FnCompletionsMembers(fcs: seq<Value>, prefix: string)
    ensures forall x :: x in FnCompletions(fcs, prefix) <==>
      exists c, m :: c in fcs && m in MethodsOf(c) && NameMatches(NameOf(m), prefix) && x == Signature(m)
    decreases |fcs|
  {
    if fcs != [] {
      FnCompletionsMembers(fcs[..|fcs| - 1], prefix);
      SignaturesMembers(MethodsOf(fcs[|fcs| - 1]), prefix);
      assert fcs == fcs[..|fcs| - 1] + [fcs[|fcs| - 1]];
    }
  }

  // --------------------------------------------------------- context

  /** `word.rsplit('.', 1)` for a word holding a dot: the object part and the property prefix. */
  function SplitLastDot(word: string): (r: (string, string))
    requires '.' in word
    ensures word == r.0 + "." + r.1 && '.' !in r.1
  {
    var k := LastCharIndex(word, '.').value;
    assert word == word[..k] + "." + word[k + 1..];
    (word[..k], word[k + 1..])
  }

  /** The prefix of the `#fn.` form is what follows those four characters. */
  const FnMarker: string := "#fn."

  /** What `get_context_completions(text, cursor_pos)` returns for catalog `cat`. */
  function ContextCompletions(src: Option<Scan>, cat: seq<string>, text: string, cursor: nat): seq<string> {
    WordCompletions(src, cat, Word(text, cursor, WordBreaks))
  }

  /** The three cases `get_context_completions` tells apart, by the word before the cursor. */
  function WordCompletions(src: Option<Scan>, cat: seq<string>, word: string): seq<string> {
    if StartsWith(word, FnMarker) then
      if src.None? then [] else FnCompletions(src.value.functionClasses, word[|FnMarker|..])
    else if '.' in word then
      ObjectMembers(src, SplitLastDot(word).0, SplitLastDot(word).1)
    else
      Completions(cat, word)
  }

  /** What follows the cursor plays no part in the completions. */
  lemma ContextIgnoresAfter(src: Option<Scan>, cat: seq<string>, text: string, cursor: nat)
    requires cursor <= |text|
    ensures ContextCompletions(src, cat, text, cursor) == ContextCompletions(src, cat, text[..cursor], cursor)
  {
    WordPrefix(text, cursor, WordBreaks);
  }

  /** Splitting `obj.p` at its last dot gives back `obj` and `p` when `p` has no dot. */
  lemma SplitLastDotOf(obj: string, p: string)
    requires '.' !in p
    ensures '.' in obj + "." + p && SplitLastDot(obj + "." + p) == (obj, p)
  {
    var w := obj + "." + p;
    assert w[|obj|] == '.';
    var r := SplitLastDot(w);
    assert w[|w| - |r.1| - 1] == '.';
    forall k | |obj| < k < |w| ensures w[k] != '.' {
      assert w[k] == p[k - |obj| - 1];
    }
    forall k | |w| - |r.1| <= k < |w| ensures w[k] != '.' {
      assert w[k] == r.1[k - (|w| - |r.1|)];
    }
    assert |r.1| == |p|;
    assert r.1 == w[|w| - |r.1|..] == p;
    assert r.0 == w[..|w| - |r.1| - 1] == obj;
  }

  /**
   * `#fn.` typed after a break, whatever follows the cursor, lists the matching
   * methods of every function class, or nothing without a configuration.
   */
  lemma ContextFnCall(src: Option<Scan>, cat: seq<string>, before: string, p: string, after: string)
    requires before == [] || before[|before| - 1] in WordBreaks
    requires Unbroken(p, WordBreaks)
    ensures var cursor := |before + FnMarker + p|;
      src.None? ==> ContextCompletions(src, cat, before + FnMarker + p + after, cursor) == []
    ensures var cursor := |before + FnMarker + p|;
      src.Some? ==> forall x :: x in ContextCompletions(src, cat, before + FnMarker + p + after, cursor) <==>
        exists c, m :: c in src.value.functionClasses && m in MethodsOf(c) && NameMatches(NameOf(m), p) && x == Signature(m)
  {
    var t := before + FnMarker + p;
    assert (t + after)[..|t|] == t;
    ContextIgnoresAfter(src, cat, t + after, |t|);
    FnCallAtEnd(src, cat, before, p);
    if src.Some? {
      FnCompletionsMembers(src.value.functionClasses, p);
    }
  }

  /** With the cursor at the end of the text, the word is `#fn.p` and the answer is the function completions for `p`. */
  lemma FnCallAtEnd(src: Option<Scan>, cat: seq<string>, before: string, p: string)
    requires before == [] || before[|before| - 1] in WordBreaks
    requires Unbroken(p, WordBreaks)
    ensures var text := before + FnMarker + p;
      ContextCompletions(src, cat, text, |text|) == if src.None? then [] else FnCompletions(src.value.functionClasses, p)
  {
    var w := FnMarker + p;
    assert before + FnMarker + p == before + w;
    MarkerUnbroken();
    UnbrokenConcat(FnMarker, p, WordBreaks);
    WordAfterBreak(before, w, WordBreaks);
    assert w[..|FnMarker|] == FnMarker && w[|FnMarker|..] == p;
  }

  /** `obj.p` typed after a break, whatever follows the cursor, asks for the members of `obj` whose names match `p`. */
  lemma ContextMemberAccess(src: Option<Scan>, cat: seq<string>, before: string, obj: string, p: string, after: string)
    requires before == [] || before[|before| - 1] in WordBreaks
    requires Unbroken(obj, WordBreaks) && Unbroken(p, WordBreaks) && '.' !in p
    requires !StartsWith(obj + "." + p, FnMarker)
    ensures var cursor := |before + obj + "." + p|;
      ContextCompletions(src, cat, before + obj + "." + p + after, cursor) == ObjectMembers(src, obj, p)
  {
    var t := before + obj + "." + p;
    assert (t + after)[..|t|] == t;
    ContextIgnoresAfter(src, cat, t + after, |t|);
    MemberAccessAtEnd(src, cat, before, obj, p);
  }

  /** The same with the cursor at the end of the text. */
  lemma MemberAccessAtEnd(src: Option<Scan>, cat: seq<string>, before: string, obj: string, p: string)
    requires before == [] || before[|before| - 1] in WordBreaks
    requires Unbroken(obj, WordBreaks) && Unbroken(p, WordBreaks) && '.' !in p
    requires !StartsWith(obj + "." + p, FnMarker)
    ensures var text := before + obj + "." + p;
      ContextCompletions(src, cat, text, |text|) == ObjectMembers(src, obj, p)
  {
    var w := obj + "." + p;
    assert before + obj + "." + p == before + w;
    MarkerUnbroken();
    UnbrokenConcat(obj, ".", WordBreaks);
    UnbrokenConcat(obj + ".", p, WordBreaks);
    WordAfterBreak(before, w, WordBreaks);
    SplitLastDotOf(obj, p);
  }

  /** A word without a dot typed after a break, whatever follows the cursor, is answered from the ranked catalog. */
  lemma ContextPlainWord(src: Option<Scan>, cat: seq<string>, before: string, w: string, after: string)
    requires before == [] || before[|before| - 1] in WordBreaks
    requires Unbroken(w, WordBreaks) && '.' !in w
    ensures ContextCompletions(src, cat, before + w + after, |before + w|) == Completions(cat, w)
  {
    var t := before + w;
    assert (t + after)[..|t|] == t;
    ContextIgnoresAfter(src, cat, t + after, |t|);
    PlainWordAtEnd(src, cat, before, w);
  }

  /** The same with the cursor at the end of the text. */
  lemma PlainWordAtEnd(src: Option<Scan>, cat: seq<string>, before: string, w: string)
    requires before == [] || before[|before| - 1] in WordBreaks
    requires Unbroken(w, WordBreaks) && '.' !in w
    ensures ContextCompletions(src, cat, before + w, |before + w|) == Completions(cat, w)
  {
    WordAfterBreak(before, w, WordBreaks);
    assert !StartsWith(w, FnMarker) by {
      if |FnMarker| <= |w| {
        assert w[..|FnMarker|][3] == w[3];
      }
    }
  }

  // ------------------------------------------------------------ the class

  class SpelCompleter {
    /** `config_manager`, or null when the completer has none. */
    const config: Config.ConfigManager?
    /** `_completions`. */
    var completions: seq<string>

    /** What the completer reads from its configuration manager. */
    function Source(): Option<Scan>
      reads config
    {
      if config == null then None else Some(Scan(config.AllScannedClasses(), config.FunctionClasses()))
    }

    constructor (configManager: Config.ConfigManager?)
      ensures config == configManager
      ensures completions == Catalog(Source())
    {
      config := configManager;
      completions := [];
      new;
      BuildCompletions();
    }

    /** Appends each of `ops` in turn. */
    method AppendEach(ops: seq<string>)
      modifies this
      ensures completions == old(completions) + ops
    {
      for i := 0 to |ops|
        invariant completions == old(completions) + ops[..i]
      {
        assert ops[..i + 1] == ops[..i] + [ops[i]];
        completions := completions + [ops[i]];
      }
      assert ops[..|ops|] == ops;
    }

    /** `_build_completions`. */
    method BuildCompletions()
      modifies this
      ensures completions == Catalog(Source())
    {
      completions := [];
      completions := completions + Operators;
      completions := completions + SpecialVars;
      AppendEach(CollectionOps);
      AppendEach(StringOps);
      AppendEach(DateOps);
      assert completions == Keywords;
      if config != null {
        LoadFromConfig();
      }
    }

    /** `_load_from_config`. */
    method LoadFromConfig()
      modifies this
      ensures completions == old(completions) + ScannedPart(Source())
    {
      if config == null {
        return;
      }
      var classes := config.GetAllScannedClasses();
      AddClasses(classes);
      var functionClasses := config.GetFunctionClasses();
      AddFunctionClasses(functionClasses);
      ConcatAssoc(old(completions), ScannedEntries(classes), FunctionEntries(functionClasses));
    }

    /** The class loop of `_load_from_config`. */
    method AddClasses(classes: seq<Value>)
      modifies this
      ensures completions == old(completions) + ScannedEntries(classes)
    {
      for i := 0 to |classes|
        invariant completions == old(completions) + ScannedEntries(classes[..i])
      {
        assert classes[..i + 1][..i] == classes[..i];
        ConcatAssoc(old(completions), ScannedEntries(classes[..i]), ClassEntries(classes[i]));
        AddClass(classes[i]);
      }
      assert classes[..|classes|] == classes;
    }

    /** The function-class loop of `_load_from_config`. */
    method AddFunctionClasses(functionClasses: seq<Value>)
      modifies this
      ensures completions == old(completions) + FunctionEntries(functionClasses)
    {
      for i := 0 to |functionClasses|
        invariant completions == old(completions) + FunctionEntries(functionClasses[..i])
      {
        assert functionClasses[..i + 1][..i] == functionClasses[..i];
        ConcatAssoc(old(completions), FunctionEntries(functionClasses[..i]), FnEntries(MethodsOf(functionClasses[i])));
        AddFnEntries(MethodsOf(functionClasses[i]));
      }
      assert functionClasses[..|functionClasses|] == functionClasses;
    }

    /** One iteration of the class loop of `_load_from_config`. */
    method AddClass(c: Value)
      modifies this
      ensures completions == old(completions) + ClassEntries(c)
    {
      var className := NameOf(c);
      var named := if className != "" then [className] else [];
      completions := completions + named;
      AddFieldEntries(FieldsOf(c));
      AddMethodEntries(MethodsOf(c));
      ConcatAssoc4(old(completions), named, FieldEntries(FieldsOf(c)), MethodEntries(MethodsOf(c)));
    }

    /** The field loop of `_load_from_config`. */
    method AddFieldEntries(fields: seq<Value>)
      modifies this
      ensures completions == old(completions) + FieldEntries(fields)
    {
      for j := 0 to |fields|
        invariant completions == old(completions) + FieldEntries(fields[..j])
      {
        assert fields[..j + 1][..j] == fields[..j];
        var fieldName := NameOf(fields[j]);
        if fieldName != "" {
          completions := completions + [fieldName, "." + fieldName];
        }
      }
      assert fields[..|fields|] == fields;
    }

    /** The method loop of `_load_from_config`. */
    method AddMethodEntries(methods: seq<Value>)
      modifies this
      ensures completions == old(completions) + MethodEntries(methods)
    {
      for j := 0 to |methods|
        invariant completions == old(completions) + MethodEntries(methods[..j])
      {
        assert methods[..j + 1][..j] == methods[..j];
        var methodName := NameOf(methods[j]);
        if methodName != "" {
          var signature := Signature(methods[j]);
          completions := completions + [signature, "." + signature];
        }
      }
      assert methods[..|methods|] == methods;
    }

    /** The function-class method loop of `_load_from_config`. */
    method AddFnEntries(methods: seq<Value>)
      modifies this
      ensures completions == old(completions) + FnEntries(methods)
    {
      for j := 0 to |methods|
        invariant completions == old(completions) + FnEntries(methods[..j])
      {
        assert methods[..j + 1][..j] == methods[..j];
        var methodName := NameOf(methods[j]);
        if methodName != "" {
          completions := completions + [FnMarker + Signature(methods[j])];
        }
      }
      assert methods[..|methods|] == methods;
    }

    /** `refresh_completions`: rebuilt from the configuration as it is now, whatever was there before. */
    method RefreshCompletions()
      modifies this
      ensures completions == Catalog(Source())
    {
      completions := [];
      BuildCompletions();
    }

    /** `get_completions(prefix)`. */
    method GetCompletions(prefix: string) returns (r: seq<string>)
      ensures r == Completions(completions, prefix)
    {
      if prefix == "" {
        r := completions[..Min(BrowseCap, |completions|)];
        return;
      }
      var hs := Hits(completions, prefix);
      var exactSame, exactOther, prefixSame, prefixOther, containsSame, containsOther := SortIntoBuckets(completions, prefix);
      var ranked := exactSame + (exactOther + (SortHits(prefixSame) + (SortHits(prefixOther)
        + (SortHits(containsSame) + SortHits(containsOther)))));
      RankedUnfolded(hs);
      var result := Names(ranked);
      r := result[..Min(SearchCap, |result|)];
    }

    /** The matching loop of `get_completions`: every matching entry goes to its bucket, in catalog order. */
    method SortIntoBuckets(cat: seq<string>, prefix: string)
      returns (exactSame: seq<Hit>, exactOther: seq<Hit>, prefixSame: seq<Hit>,
               prefixOther: seq<Hit>, containsSame: seq<Hit>, containsOther: seq<Hit>)
      ensures exactSame == Bucket(Hits(cat, prefix), 0) && exactOther == Bucket(Hits(cat, prefix), 1)
      ensures prefixSame == Bucket(Hits(cat, prefix), 2) && prefixOther == Bucket(Hits(cat, prefix), 3)
      ensures containsSame == Bucket(Hits(cat, prefix), 4) && containsOther == Bucket(Hits(cat, prefix), 5)
    {
      exactSame, exactOther, prefixSame, prefixOther, containsSame, containsOther := [], [], [], [], [], [];
      for i := 0 to |cat|
        invariant exactSame == Bucket(Hits(cat[..i], prefix), 0)
        invariant exactOther == Bucket(Hits(cat[..i], prefix), 1)
        invariant prefixSame == Bucket(Hits(cat[..i], prefix), 2)
        invariant prefixOther == Bucket(Hits(cat[..i], prefix), 3)
        invariant containsSame == Bucket(Hits(cat[..i], prefix), 4)
        invariant containsOther == Bucket(Hits(cat[..i], prefix), 5)
      {
        BucketsStep(cat, i, prefix);
        var hit := Classify(cat[i], prefix);
        if hit.Some? {
          var h := hit.value;
          if h.bucket == 0 {
            exactSame := exactSame + [h];
          } else if h.bucket == 1 {
            exactOther := exactOther + [h];
          } else if h.bucket == 2 {
            prefixSame := prefixSame + [h];
          } else if h.bucket == 3 {
            prefixOther := prefixOther + [h];
          } else if h.bucket == 4 {
            containsSame := containsSame + [h];
          } else {
            containsOther := containsOther + [h];
          }
        }
      }
      assert cat[..|cat|] == cat;
    }

    /** The generic-operation loop of `_get_object_members`. */
    method GenericMembers(prefix: string) returns (members: seq<string>)
      ensures members == DefaultMembers(prefix)
    {
      var ops := MemberOps;
      members := [];
      for i := 0 to |ops|
        invariant members == OpMembers(ops[..i], prefix)
      {
        assert ops[..i + 1][..i] == ops[..i];
        var op := ops[i];
        if StartsWith(op, ".") {
          var member := op[1..];
          if prefix == "" || StartsWith(Lower(member), Lower(prefix)) {
            members := members + [member];
          }
        }
      }
      assert ops[..|ops|] == ops;
    }

    /** `_get_object_members(obj_name, prefix)`. */
    method GetObjectMembers(obj: string, prefix: string) returns (members: seq<string>)
      ensures members == ObjectMembers(Source(), obj, prefix)
    {
      if config == null {
        members := GenericMembers(prefix);
        return;
      }
      var classes := config.GetAllScannedClasses();
      var found := FindFieldType(classes, obj);
      if found.Some? {
        members := GetClassMembersByType(found.value, prefix);
      } else {
        members := GenericMembers(prefix);
      }
    }

    /** `_get_class_members_by_type(type_name, prefix)`. */
    method GetClassMembersByType(typeName: string, prefix: string) returns (members: seq<string>)
      ensures members == if config == null then [] else TypeMembers(config.AllScannedClasses(), typeName, prefix)
    {
      members := [];
      if config == null {
        return;
      }
      var classes := config.GetAllScannedClasses();
      for i := 0 to |classes|
        invariant members == TypeMembers(classes[..i], typeName, prefix)
      {
        assert classes[..i + 1][..i] == classes[..i];
        var c := classes[i];
        if TypeMatches(c, typeName) {
          var fieldNames := MatchingFieldNames(FieldsOf(c), prefix);
          var signatures := MatchingSignatures(MethodsOf(c), prefix);
          members := members + fieldNames + signatures;
        }
      }
      assert classes[..|classes|] == classes;
    }

    /** `get_context_completions(text, cursor_pos)`. */
    method GetContextCompletions(text: string, cursor: nat) returns (r: seq<string>)
      ensures r == ContextCompletions(Source(), completions, text, cursor)
    {
      var wordStart := ScanTokenStart(text, cursor, WordBreaks);
      var word := if cursor <= |text| then text[wordStart..cursor] else "";
      if StartsWith(word, FnMarker) {
        var methodPrefix := word[|FnMarker|..];
        if config == null {
          return [];
        }
        var functionClasses := config.GetFunctionClasses();
        r := MatchingFnSignatures(functionClasses, methodPrefix);
      } else if '.' in word {
        var parts := SplitLastDot(word);
        r := GetObjectMembers(parts.0, parts.1);
      } else {
        r := GetCompletions(word);
      }
    }
  }

  /** The `#fn.` loop of `get_context_completions`: every function-class method whose name matches. */
  method MatchingFnSignatures(functionClasses: seq<Value>, prefix: string) returns (r: seq<string>)
    ensures r == FnCompletions(functionClasses, prefix)
  {
    r := [];
    for i := 0 to |functionClasses|
      invariant r == FnCompletions(functionClasses[..i], prefix)
    {
      assert functionClasses[..i + 1][..i] == functionClasses[..i];
      var signatures := MatchingSignatures(MethodsOf(functionClasses[i]), prefix);
      r := r + signatures;
    }
    assert functionClasses[..|functionClasses|] == functionClasses;
  }

  /** The field loops of `_get_object_members`: the type of the first field named `obj`. */
  method FindFieldType(classes: seq<Value>, obj: string) returns (found: Option<string>)
    ensures found == FieldType(classes, obj)
  {
    for i := 0 to |classes|
      invariant FieldType(classes[..i], obj).None?
    {
      assert classes[..i + 1][..i] == classes[..i];
      var fields := FieldsOf(classes[i]);
      for j := 0 to |fields|
        invariant FieldTypeIn(fields[..j], obj).None?
      {
        assert fields[..j + 1][..j] == fields[..j];
        if DictGet(Entries(fields[j]), "name", Null) == Str(obj) {
          assert FieldTypeIn(fields[..j + 1], obj) == Some(TypeOf(fields[j]));
          FieldTypeInPrefix(fields, j + 1, obj);
          assert FieldType(classes[..i + 1], obj) == Some(TypeOf(fields[j]));
          FieldTypePrefix(classes, i + 1, obj);
          return Some(TypeOf(fields[j]));
        }
      }
      assert fields[..|fields|] == fields;
    }
    assert classes[..|classes|] == classes;
    return None;
  }

  /** The field loop of `_get_class_members_by_type`. */
  method MatchingFieldNames(fields: seq<Value>, prefix: string) returns (names: seq<string>)
    ensures names == FieldNames(fields, prefix)
  {
    names := [];
    for j := 0 to |fields|
      invariant names == FieldNames(fields[..j], prefix)
    {
      assert fields[..j + 1][..j] == fields[..j];
      var name := NameOf(fields[j]);
      if prefix == "" || StartsWith(Lower(name), Lower(prefix)) {
        names := names + [name];
      }
    }
    assert fields[..|fields|] == fields;
  }

  /** The method loops of `_get_class_members_by_type` and of the `#fn.` branch. */
  method MatchingSignatures(methods: seq<Value>, prefix: string) returns (signatures: seq<string>)
    ensures signatures == Signatures(methods, prefix)
  {
    signatures := [];
    for j := 0 to |methods|
      invariant signatures == Signatures(methods[..j], prefix)
    {
      assert methods[..j + 1][..j] == methods[..j];
      var name := NameOf(methods[j]);
      if prefix == "" || StartsWith(Lower(name), Lower(prefix)) {
        signatures := signatures + [Signature(methods[j])];
      }
    }
    assert methods[..|methods|] == methods;
  }

  /** Once a prefix of the fields has one named `obj`, the whole list answers the same. */
  lemma {:induction false} FieldTypeInPrefix(fs: seq<Value>, n: nat, obj: string)
    requires n <= |fs| && FieldTypeIn(fs[..n], obj).Some?
    ensures FieldTypeIn(fs, obj) == FieldTypeIn(fs[..n], obj)
    decreases |fs| - n
  {
    if n < |fs| {
      assert fs[..n + 1][..n] == fs[..n];
      FieldTypeInPrefix(fs, n + 1, obj);
    } else {
      assert fs[..n] == fs;
    }
  }

  /** Once a prefix of the classes has a field named `obj`, the whole list answers the same. */
  lemma {:induction false} FieldTypePrefix(cs: seq<Value>, n: nat, obj: string)
    requires n <= |cs| && FieldType(cs[..n], obj).Some?
    ensures FieldType(cs, obj) == FieldType(cs[..n], obj)
    decreases |cs| - n
  {
    if n < |cs| {
      assert cs[..n + 1][..n] == cs[..n];
      FieldTypePrefix(cs, n + 1, obj);
    } else {
      assert cs[..n] == cs;
    }
  }
}
