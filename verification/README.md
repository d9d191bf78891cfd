# RuleEditor core in Dafny

RuleEditor is a desktop editor for validation rules written in the Spring
Expression Language (SpEL). This project models the non-graphical core of the
editor and proves properties of that model:

- **The SpEL completer** (`spel_completer.dfy`, `spel_ranking.dfy`, `spel_tokens.dfy`):
  - `SpelCompleter` builds its completion catalog from three sources: the
    SpEL keyword lists, the fields and methods of the Java classes scanned
    from Spring Boot projects, and the `#fn.` methods of the "function
    classes";
  - `get_completions` ranks the catalog against a typed prefix in six buckets
    (exact, prefix and substring matches, each split by same case and
    other case);
  - `get_context_completions` looks at the word before the cursor and
    answers a `#fn.` call, an `obj.member` access or a plain word.
- **The string logic of the `SpelTextEdit` widget** (`spel_editor.dfy`):
  - typing and auto-closed bracket and quote pairs;
  - backspace that deletes an empty pair;
  - the completion popup's state;
  - the rewriting of the word at the caret when a completion is accepted.
- **The rule and project records** (`models.dfy`) and their dictionary forms.
- **The configuration manager** (`config_manager.dfy`): dotted-key `get`/`set`,
  the recent-file list, the project list keyed by path, the merge of an
  imported configuration, and named profiles.
- **The version comparison of the update checker** (`update_checker.dfy`).

Helper modules:
- `text.dfy`: ASCII case mapping, `startswith`, `find`, `lstrip`, `split`/`join` and digit strings.
- `seqs.dfy`: filtering and counting.
- `json.dfy`: the JSON-like values the configuration holds.

State the source changes in place is modelled as classes:
- `ConfigManager` (configuration, profiles, current profile);
- `SpelCompleter` (its catalog);
- `Rule` (its fields);
- `SpelTextEdit` (text, caret and popup).

Each method is proved against a specification function. The lemmas state what
that function promises: round trips, permutation and order of the ranking,
membership of the catalog, and how profiles are kept.

Three details of the completer's code that the model follows:
- an empty prefix returns the first 50 catalog entries, a non-empty one at most 30 (src/spel_completer.py:124-125, 185);
- only leading `.` and `#` are stripped before matching, and the name is cut at its first `(` (src/spel_completer.py:140-145), so the entry `#fn.foo(x)` is matched on `fn.foo` and a prefix such as `foo(` finds nothing;
- the members offered after `obj.` are those whose names start with the prefix (src/spel_completer.py:243, 264, 282, 291), so `getName()` is not offered for `baseInfo.na`.

## Model

| member | source | states |
|---|---|---|
| Models.SeverityFromString | src/models.py:17-22 | the severity whose value equals the upper-cased text, MEDIUM when none does |
| Models.SeverityRoundTrip | src/models.py:10-22 | reading back a severity's own value gives that severity |
| Models.RuleToDict | src/models.py:39-56 | always writes code, name, enabled and severity. A rule with a legacy `conditionExpression` is written with the two legacy keys, its template falling back to the message. Otherwise it is written with `expression` and `message`, each falling back to the legacy field |
| Models.GetExpression | src/models.py:75-77 | the new field when it holds text, the legacy one otherwise; its behaviour across set and save is stated by `Models.ExpressionReadBack`, `Models.ReloadKeepsExpression` and `Models.SavedExpression` |
| Models.GetMessage | src/models.py:86-88 | the same fallback for the message; stated by `Models.MessageReadBack`, `Models.ReloadKeepsMessage` and `Models.SavedMessage` |
| Models.RuleFromDict | src/models.py:58-73 | each key is read as stored when it holds the right type and gives the dataclass default when missing; `severity` goes through `from_string`, MEDIUM when missing or not a string; the empty dictionary gives the default rule |
| Models.RuleRoundTrip | src/models.py:39-73 | a rule without legacy fields survives a save and reload unchanged |
| Models.RuleLegacyRoundTrip | src/models.py:39-73 | a rule with a legacy expression comes back with only the legacy fields set and the message moved into the template |
| Models.RuleDictStable | src/models.py:39-73 | saving, reloading and saving again writes the same dictionary |
| Models.ReloadKeepsExpression | src/models.py:39-77 | the expression the editor shows survives a save and reload exactly when the new and legacy fields do not hold different texts |
| Models.ReloadKeepsMessage | src/models.py:39-88 | the message survives a save and reload exactly unless a legacy rule holds two different message texts |
| Models.AssignExpression | src/models.py:79-84 | `set_expression` writes the legacy field when it holds text and the new field otherwise; no other field changes |
| Models.AssignMessage | src/models.py:90-95 | `set_message` writes the legacy template when it holds text and the new field otherwise; no other field changes |
| Models.ExpressionReadBack | src/models.py:75-84 | `get_expression` returns what `set_expression` wrote exactly when the legacy field is unused, the new field is empty or already holds that text |
| Models.MessageReadBack | src/models.py:86-95 | the same for `get_message` after `set_message` |
| Models.SavedExpression | src/models.py:39-84 | after `set_expression(v)` a save writes `v` under the expression key it uses, except when `v` is empty, blanks the legacy field and the new field holds text; a non-empty `v` is saved under `conditionExpression` when the legacy field was in use and under `expression` otherwise |
| Models.SavedMessage | src/models.py:39-95 | after `set_message(v)` a save writes `v` under the message key it uses unless the legacy template was set and the new field holds other text (for a legacy expression: unless `v` is empty and the new field holds text) |
| Models.Rule.FromDict | src/models.py:58-73 | the new rule's fields are those read from the dictionary |
| Models.Rule.SetExpression | src/models.py:79-84 | the rule's fields become the assigned value |
| Models.Rule.SetMessage | src/models.py:90-95 | the rule's fields become the assigned value |
| Models.RuleFileToDict | src/models.py:105-110 | exactly the keys `version` and `rules`; `version` holds the file's version and `rules` holds each rule's `to_dict`, in order |
| Models.RuleFileFromDict | src/models.py:112-119 | `version` is read as stored, 1 when missing or not an integer; one rule per entry of `rules`, each read by `Rule.from_dict`, none when missing or not a list; the path is the one given |
| Models.RuleFileRoundTrip | src/models.py:105-119 | a saved and reloaded rule file keeps its version and the number of rules, and each rule writes the same dictionary as before (equal when it has no legacy fields) |
| Models.FieldFromValue | src/models.py:148 | a field record's name, type and modifiers are read as stored, with their defaults when missing |
| Models.MethodFromValue | src/models.py:149 | a method record's name, parameters, return type and modifiers are read as stored, with their defaults when missing |
| Models.FieldRoundTrip | src/models.py:128-129 | a field record survives its dictionary form |
| Models.MethodRoundTrip | src/models.py:128-129 | a method record survives its dictionary form |
| Models.JavaClassFromDict | src/models.py:142-151 | name, package, full name and flag are read as stored with their defaults; one field record per stored field and one method record per stored method; the empty dictionary gives the default class |
| Models.JavaClassRoundTrip | src/models.py:132-151 | a class survives its dictionary form, fields, methods and flag included |
| Models.ProjectFromDict | src/models.py:170-177 | name, path and scan time are read as stored with their defaults; one class per stored class record; the empty dictionary gives the empty project |
| Models.ProjectRoundTrip | src/models.py:162-177 | a project survives its dictionary form, classes included |
| Config.LookupPresent | src/config_manager.py:103-112 | along a path of dictionaries `get` returns the stored value, or the default when it is None |
| Config.LookupAbsent | src/config_manager.py:103-112 | a missing key gives the default (when the default is not itself a dictionary) |
| Config.LookupWalksIntoDefault | src/config_manager.py:103-112 | a missing key puts the default in its place and the walk continues into it with the rest of the path |
| Config.Assign | src/config_manager.py:114-123 | `set` adds the first key to the top level and keeps every other top-level entry |
| Config.AssignDefined | src/config_manager.py:114-122 | `set` succeeds exactly when every existing value along the path is a dictionary |
| Config.AssignThenLookup | src/config_manager.py:103-123 | `get` after `set` on the same key returns the value set, or the default for None |
| Config.AssignKeepsOtherPaths | src/config_manager.py:114-123 | `set` leaves every path that diverges from the set path unchanged |
| Config.FirstIndex | src/config_manager.py:157-158 | the first position holding the value |
| Config.RemoveFirst | src/config_manager.py:157-158 | `list.remove` drops one occurrence and nothing else: the multiset loses exactly that value |
| Config.RemoveFirstNoDuplicates | src/config_manager.py:157-158 | in a list without duplicates the removed path no longer occurs |
| Config.RecentAfterAdd | src/config_manager.py:154-162 | the recent list after opening a file; stated by `Config.RecentAfterAddShape`, `Config.RecentAfterAddOnce`, `Config.RecentAfterAddNoDuplicates` and `Config.RecentAfterAddIdempotent` |
| Config.RecentAfterAddShape | src/config_manager.py:154-162 | the new path is first, followed by the old list without it, in order; the length is one more than that, capped at 10 |
| Config.RecentAfterAddOnce | src/config_manager.py:154-160 | the added path is not repeated further down the list |
| Config.RecentAfterAddNoDuplicates | src/config_manager.py:154-160 | a recent list without duplicates stays without duplicates |
| Config.RecentAfterAddIdempotent | src/config_manager.py:154-162 | adding the same file twice equals adding it once |
| Config.FirstWithPath | src/config_manager.py:172-176 | the first project with the path, or None when no project has it |
| Config.FirstWithPathAt | src/config_manager.py:172-176 | a project whose path no earlier project has is the one the search finds |
| Config.UpsertByPath | src/config_manager.py:168-178 | the project list after `add_springboot_project`; stated by `Config.UpsertByPathShape` |
| Config.UpsertByPathShape | src/config_manager.py:168-178 | adding a project replaces the first project with its path in place, or appends it when none has it; every project with another path stays |
| Config.PutAll | src/config_manager.py:228-232 | the project dictionary keyed by path; stated by `Config.PutAllPaths`, `Config.PutAllLastWins` and `Config.PutAllDistinct` |
| Config.PutAllPaths | src/config_manager.py:228-232 | a dictionary keyed by path keeps each path once, in first-insertion order |
| Config.PutAllLastWins | src/config_manager.py:228-232 | the last project given for a path is the one kept |
| Config.PutAllDistinct | src/config_manager.py:228 | projects with distinct paths come through unchanged |
| Config.MergeByPath | src/config_manager.py:220-232 | the merged project list; stated by `Config.MergeByPathPaths`, `Config.MergeImportedWins` and `Config.MergeWithSelf` |
| Config.MergeByPathPaths | src/config_manager.py:220-232 | the merged list's paths are the existing paths, then the new ones, each once |
| Config.MergeImportedWins | src/config_manager.py:227-232 | every imported project (the last one given for its path) is in the merged list |
| Config.MergeWithSelf | src/config_manager.py:220-232 | merging a project list into itself changes nothing |
| Config.WithoutPath | src/config_manager.py:184-188 | the projects whose path differs; stated by `Config.WithoutPathShape` |
| Config.WithoutPathShape | src/config_manager.py:184-188 | removal keeps exactly the projects with another path, and the count drops by the number removed |
| Config.ClassesInMembers | src/config_manager.py:198-203 | the scanned classes are exactly the classes of all the projects |
| Config.MergedSections | src/config_manager.py:220-243 | the top-level entries `merge_config` writes: one for each of the three sections the import has, and no other |
| Config.MergedSectionsViews | src/config_manager.py:220-243 | after those entries are written, the projects read back as the merge by path, the suffix as the imported one (None reading as `Functions`) and the scanned classes as the updated map; a section the import lacks reads as before |
| Config.MergedSectionsInTurn | src/config_manager.py:222-243 | writing the three sections one after another is writing them together |
| Config.ConfigManager.constructor | src/config_manager.py:35-77 | any loaded JSON value becomes the configuration, or the default one when none was loaded. The profile map holds `default` and the profile files. `default` is current and shares the configuration unless a profile file replaces it |
| Config.ConfigManager.FunctionClasses | src/config_manager.py:205-209 | exactly the scanned classes whose name ends with the suffix or that are flagged |
| Config.ConfigManager.GetFunctionClasses | src/config_manager.py:205-209 | returns the function classes |
| Config.ConfigManager.ExportConfig | src/config_manager.py:211-218 | the three exported sections, read through `get`; re-importing the project list is stated by `Config.MergeWithSelf` |
| Config.ConfigManager.Get | src/config_manager.py:103-112 | the dotted-key lookup |
| Config.ConfigManager.Set | src/config_manager.py:114-123 | the configuration becomes the assigned one, or stays when `set` would fail. The current profile follows while the two are linked |
| Config.ConfigManager.SetTop | src/config_manager.py:114-123 | `set` of a key without a dot on a dictionary configuration: that one entry changes. The current profile follows while linked |
| Config.ConfigManager.GetRecentFiles | src/config_manager.py:164-166 | the stored recent list |
| Config.ConfigManager.GetSpringbootProjects | src/config_manager.py:180-182 | the stored project list |
| Config.ConfigManager.GetFunctionClassesSuffix | src/config_manager.py:190-192 | the stored suffix |
| Config.ConfigManager.GetScannedClasses | src/config_manager.py:240 | the stored scanned-class map |
| Config.ConfigManager.AddRecentFile | src/config_manager.py:154-162 | on a dictionary configuration the recent list becomes the specified one and the file becomes the last opened file, every other key staying; on any other configuration `set` raises and nothing changes. The current profile follows while linked |
| Config.ConfigManager.AddSpringbootProject | src/config_manager.py:168-178 | on a dictionary configuration the project list becomes the upserted one, every other key staying; otherwise nothing changes. The current profile follows while linked |
| Config.ConfigManager.StoreProjects | src/config_manager.py:178 | `set('springboot_projects', …)`: the project list is replaced and every other key stays; nothing changes on a configuration that is not a dictionary |
| Config.ConfigManager.RemoveSpringbootProject | src/config_manager.py:184-188 | on a dictionary configuration the project list loses every project with the path, every other key staying; otherwise nothing changes. The current profile follows while linked |
| Config.ConfigManager.GetAllScannedClasses | src/config_manager.py:198-203 | the classes of all projects, in order |
| Config.ConfigManager.MergeProjects | src/config_manager.py:222-232 | on a dictionary configuration the project list becomes the merge by path and every other key stays; otherwise nothing changes. The current profile follows while linked |
| Config.ConfigManager.SetFunctionClassesSuffix | src/config_manager.py:194-196 | on a dictionary configuration the suffix key becomes the given value (None reads back as `Functions`) and every other key stays; otherwise nothing changes. The current profile follows while linked |
| Config.ConfigManager.MergeScannedClasses | src/config_manager.py:238-243 | on a dictionary configuration the scanned-class map is updated with the imported entries, imported ones winning, and every other key stays; otherwise nothing changes. The current profile follows while linked |
| Config.ConfigManager.MergeConfig | src/config_manager.py:220-243 | on a dictionary configuration exactly the sections the import has are written, as `Config.MergedSections` gives them; on any other configuration it fails when a section is present and nothing changes. The current profile follows while linked |
| Config.ConfigManager.MergeProjectsSection | src/config_manager.py:222-232 | the first block of `merge_config`: the project section is written when the import has it |
| Config.ConfigManager.MergeSuffixSection | src/config_manager.py:234-236 | the second block: the suffix section is written when the import has it |
| Config.ConfigManager.MergeScannedSection | src/config_manager.py:238-243 | the third block: the scanned-class section is written when the import has it |
| Config.ConfigManager.SwitchProfile | src/config_manager.py:133-137 | an existing profile becomes current and shared with the configuration; an unknown name changes nothing |
| Config.ConfigManager.CreateProfile | src/config_manager.py:139-144 | a new name gets a copy of the base profile, or of the default configuration; it fails without change when that base is neither a dictionary nor a list; an existing name changes nothing |
| Config.ConfigManager.DeleteProfile | src/config_manager.py:146-152 | removes any profile but `default`. The configuration stays, but is no longer shared when the current profile was deleted |
| UpdateChecker.Segments | src/update_checker.py:75-82 | one number per dot-separated segment, each the segment's integer value or 0 |
| UpdateChecker.SegmentValue | src/update_checker.py:75-82 | a segment's integer value, 0 when it is not an integer; stated by `UpdateChecker.CompareNonInteger` and `UpdateChecker.CompareEmptySegment` |
| UpdateChecker.ParseVersion | src/update_checker.py:75-82 | the loop computes the segments |
| UpdateChecker.Pad | src/update_checker.py:87-90 | zeros are appended up to the longer length; the original segments stay in front |
| UpdateChecker.Zeros | src/update_checker.py:87-90 | the zeros appended when padding; stated by `UpdateChecker.Pad` and `UpdateChecker.CompareZeroSegment` |
| UpdateChecker.Lex | src/update_checker.py:92-97 | the element-wise comparison is -1, 0 or 1 |
| UpdateChecker.Compare | src/update_checker.py:70-97 | the version comparison is -1, 0 or 1 |
| UpdateChecker.CompareVersions | src/update_checker.py:70-97 | the loop computes the comparison |
| UpdateChecker.LexZero | src/update_checker.py:92-97 | the comparison is 0 exactly when the padded lists are equal |
| UpdateChecker.LexFirstDifference | src/update_checker.py:92-97 | the result is 1 exactly when the first differing segment is larger |
| UpdateChecker.CompareReflexive | src/update_checker.py:84-97 | every version equals itself |
| UpdateChecker.CompareAntisymmetric | src/update_checker.py:84-97 | swapping the versions negates the result |
| UpdateChecker.CompareTransitive | src/update_checker.py:84-97 | newer-than is transitive |
| UpdateChecker.CompareEqual | src/update_checker.py:84-97 | two versions compare equal exactly when their zero-padded segments are equal |
| UpdateChecker.CompareGreater | src/update_checker.py:84-97 | the first is newer exactly when the first differing padded segment is larger |
| UpdateChecker.CompareSameSegments | src/update_checker.py:75-97 | versions with the same segments compare equal |
| UpdateChecker.CompareZeroSegment | src/update_checker.py:87-90 | a trailing `.0` makes no difference |
| UpdateChecker.CompareNonInteger | src/update_checker.py:75-82 | a segment that is not an integer counts as 0 |
| UpdateChecker.CompareEmptySegment | src/update_checker.py:75-82 | an empty segment counts as 0 |
| UpdateChecker.StripTag | src/update_checker.py:63 | every leading `v` is removed and nothing else |
| UpdateChecker.Run | src/update_checker.py:31-45 | with no release the check fails; an update is reported, with the stripped tag and the URL, exactly when the release is newer than the running version |
| UpdateChecker.RunStripsEveryV | src/update_checker.py:63 | an extra `v` in front of the tag changes nothing |
| UpdateChecker.RunCurrentVersion | src/update_checker.py:31-45 | a release tagged with the running version reports up to date |
| SpelTokens.TokenStart | src/spel_completer.py:193-198 | the word start is at or before the cursor, right after a break or at 0, with no break in between; a cursor past the end finds the empty word |
| SpelTokens.ScanTokenStart | src/spel_completer.py:440-447 | the scan loop computes the word start |
| SpelTokens.TokenStartPrefix | src/spel_completer.py:193-198 | the scan reads only the text before the cursor |
| SpelTokens.Word | src/spel_completer.py:193-200 | the longest run of non-break characters that ends at the cursor: it reaches the start of the text or follows a break; a cursor past the end gives the empty word |
| SpelTokens.WordPrefix | src/spel_completer.py:193-200 | the word before the cursor does not depend on the text after it |
| SpelTokens.WordAfterBreak | src/spel_completer.py:193-200 | a word typed after a break is exactly the word found at its end |
| SpelTokens.MoreBreaksShorterWord | src/spel_completer.py:518-526 | breaking on more characters never reaches further back |
| SpelTokens.InsertWordIsTail | src/spel_completer.py:513-526 | the word replaced on insertion is the tail of the typed word after its last `.` or `#` |
| SpelCompletion.MatchingBracket | src/spel_completer.py:297-304 | a closing character exists exactly for the five pair characters; it is the character's partner, and quotes close themselves |
| SpelCompletion.CatalogLayout | src/spel_completer.py:58-116 | the catalog starts with the keyword lists and, with a configuration, continues with exactly the scanned class and function entries |
| SpelCompletion.Catalog | src/spel_completer.py:58-116 | the completion catalog; stated by `SpelCompletion.CatalogLayout` and the entry lemmas |
| SpelCompletion.FieldEntriesMembers | src/spel_completer.py:91-96 | exactly the `name` and `.name` entries of the named fields |
| SpelCompletion.MethodEntriesMembers | src/spel_completer.py:99-105 | exactly the `name(params)` and `.name(params)` entries of the named methods |
| SpelCompletion.FnEntriesMembers | src/spel_completer.py:108-115 | exactly the `#fn.name(params)` entries of the named function-class methods |
| SpelCompletion.ClassEntriesMembers | src/spel_completer.py:85-105 | a class contributes its name, its field entries and its method entries |
| SpelCompletion.ScannedEntriesMembers | src/spel_completer.py:84-105 | the scanned part holds exactly the entries of every class |
| SpelCompletion.FunctionEntriesMembers | src/spel_completer.py:108-115 | the function part holds exactly the `#fn.` entries of every function class |
| SpelCompletion.OpMembersMembers | src/spel_completer.py:258-265 | the generic members are the operations whose name matches the prefix, with the dot dropped |
| SpelCompletion.DefaultMembersUnfiltered | src/spel_completer.py:258-265 | with an empty prefix all 39 member operations are offered in order |
| SpelCompletion.FieldTypeFirst | src/spel_completer.py:248-255 | the type of the first field with the object's name, searching class by class |
| SpelCompletion.FieldTypeNone | src/spel_completer.py:248-255 | no type exactly when no scanned field has the object's name |
| SpelCompletion.FieldNamesMembers | src/spel_completer.py:280-283 | the field names that match the prefix |
| SpelCompletion.FieldNames | src/spel_completer.py:280-283 | stated by `SpelCompletion.FieldNamesMembers` |
| SpelCompletion.SignaturesMembers | src/spel_completer.py:286-292 | the signatures of the methods whose name matches the prefix |
| SpelCompletion.Signatures | src/spel_completer.py:286-292 | stated by `SpelCompletion.SignaturesMembers` |
| SpelCompletion.TypeMembersMembers | src/spel_completer.py:276-292 | the members of every class with the type's name, fields and methods |
| SpelCompletion.ObjectMembers | src/spel_completer.py:231-267 | the members offered after `obj.`; stated by `SpelCompletion.FieldTypeFirst`, `SpelCompletion.TypeMembersMembers` and `SpelCompletion.OpMembersMembers` |
| SpelCompletion.FnCompletionsMembers | src/spel_completer.py:207-218 | the signatures of the matching methods of every function class |
| SpelCompletion.FnCompletions | src/spel_completer.py:207-218 | stated by `SpelCompletion.FnCompletionsMembers` |
| SpelCompletion.SplitLastDot | src/spel_completer.py:222-225 | the word is the object part, a dot and a dot-free property prefix |
| SpelCompletion.SplitLastDotOf | src/spel_completer.py:222-225 | splitting `obj.p` gives back `obj` and `p` |
| SpelCompletion.ContextCompletions | src/spel_completer.py:187-229 | the context answer; stated by `SpelCompletion.ContextIgnoresAfter` and the three `Context` lemmas |
| SpelCompletion.WordCompletions | src/spel_completer.py:203-229 | the three cases by the word: `#fn.`, a dotted word, a plain word |
| SpelCompletion.ContextIgnoresAfter | src/spel_completer.py:187-200 | the text after the cursor plays no part in the context answer |
| SpelCompletion.ContextFnCall | src/spel_completer.py:187-219 | after `#fn.p`, whatever follows the cursor, the answer holds exactly the signatures of the function-class methods matching `p`, or nothing without a configuration |
| SpelCompletion.FnCallAtEnd | src/spel_completer.py:187-219 | at the end of the text, `#fn.p` gives the function completions for `p`, or nothing without a configuration |
| SpelCompletion.ContextMemberAccess | src/spel_completer.py:187-227 | after `obj.p`, whatever follows the cursor, the answer is the members of `obj` matching `p` |
| SpelCompletion.MemberAccessAtEnd | src/spel_completer.py:187-227 | the same with the cursor at the end of the text |
| SpelCompletion.ContextPlainWord | src/spel_completer.py:187-229 | a word without a dot, whatever follows the cursor, is answered from the ranked catalog |
| SpelCompletion.PlainWordAtEnd | src/spel_completer.py:187-229 | the same with the cursor at the end of the text |
| SpelCompletion.SpelCompleter.constructor | src/spel_completer.py:53-56 | the catalog is built from the keywords and the configuration |
| SpelCompletion.SpelCompleter.BuildCompletions | src/spel_completer.py:58-76 | the catalog becomes the specified catalog |
| SpelCompletion.SpelCompleter.LoadFromConfig | src/spel_completer.py:78-115 | the scanned and function entries are appended |
| SpelCompletion.SpelCompleter.AddClasses | src/spel_completer.py:84-105 | the entries of every class are appended |
| SpelCompletion.SpelCompleter.AddFunctionClasses | src/spel_completer.py:108-115 | the `#fn.` entries of every function class are appended |
| SpelCompletion.SpelCompleter.AddClass | src/spel_completer.py:85-105 | one class's entries are appended |
| SpelCompletion.SpelCompleter.AddFieldEntries | src/spel_completer.py:91-96 | field entries are appended |
| SpelCompletion.SpelCompleter.AddMethodEntries | src/spel_completer.py:99-105 | method entries are appended |
| SpelCompletion.SpelCompleter.AddFnEntries | src/spel_completer.py:110-115 | `#fn.` entries are appended |
| SpelCompletion.SpelCompleter.AppendEach | src/spel_completer.py:67-72 | the keyword lists are appended in order |
| SpelCompletion.SpelCompleter.RefreshCompletions | src/spel_completer.py:117-120 | the catalog is rebuilt from scratch, whatever it held before |
| SpelCompletion.SpelCompleter.GetCompletions | src/spel_completer.py:122-185 | returns the ranked answer for the prefix |
| SpelCompletion.SpelCompleter.SortIntoBuckets | src/spel_completer.py:137-173 | the six lists are the six buckets of the hits, in catalog order |
| SpelCompletion.SpelCompleter.GenericMembers | src/spel_completer.py:258-265 | the generic member operations matching the prefix |
| SpelCompletion.SpelCompleter.GetObjectMembers | src/spel_completer.py:231-267 | the members of the object's field type, or the generic ones |
| SpelCompletion.SpelCompleter.GetClassMembersByType | src/spel_completer.py:269-294 | the members of the classes of that type, or nothing without a configuration |
| SpelCompletion.SpelCompleter.GetContextCompletions | src/spel_completer.py:187-229 | returns the context answer for the word before the cursor |
| SpelCompletion.MatchingFnSignatures | src/spel_completer.py:207-218 | the loop computes the `#fn.` answer |
| SpelCompletion.FindFieldType | src/spel_completer.py:248-255 | the loop finds the first field type |
| SpelCompletion.MatchingFieldNames | src/spel_completer.py:280-283 | the loop computes the matching field names |
| SpelCompletion.MatchingSignatures | src/spel_completer.py:286-292 | the loop computes the matching method signatures |
| SpelRanking.Classify | src/spel_completer.py:138-173 | an entry is a hit exactly when its match name contains the lower-cased prefix; the hit keeps the entry and is in one of six buckets |
| SpelRanking.MatchLower | src/spel_completer.py:140 | the lower-cased entry without leading `.` and `#`; stated by `SpelRanking.Classify` |
| SpelRanking.MatchOriginal | src/spel_completer.py:141 | the entry without leading `.` and `#`; stated by `SpelRanking.ClassifyBucket` |
| SpelRanking.ClassifyPosition | src/spel_completer.py:166-173 | a hit's position is the first occurrence of the prefix and its length is the match name's length |
| SpelRanking.ClassifyBucket | src/spel_completer.py:148-173 | exact, prefix or substring match, each split by whether the matched span has the prefix's own case |
| SpelRanking.SortHits | src/spel_completer.py:176-179 | the sort keeps length and contents (a permutation) |
| SpelRanking.SortHitsSorted | src/spel_completer.py:176-179 | the sort orders the hits by key |
| SpelRanking.SortTied | src/spel_completer.py:176-179 | the sort is stable: hits with equal keys keep their order |
| SpelRanking.HitsGenuine | src/spel_completer.py:137-173 | every hit comes from a catalog entry that matches |
| SpelRanking.HitsComplete | src/spel_completer.py:137-173 | every matching catalog entry gives a hit |
| SpelRanking.RankedPermutes | src/spel_completer.py:176-184 | the ranking is a permutation of the hits |
| SpelRanking.RankedInOrder | src/spel_completer.py:154-184 | buckets in order; inside the prefix buckets shorter names first; inside the substring buckets earlier occurrence first, then shorter |
| SpelRanking.RankedKeepsTies | src/spel_completer.py:176-184 | equally ranked hits keep their catalog order |
| SpelRanking.RankedOfCatalog | src/spel_completer.py:137-184 | the ranking holds exactly the hits of the matching entries, once each |
| SpelRanking.Ranked | src/spel_completer.py:176-184 | the ranking; stated by `SpelRanking.RankedPermutes`, `SpelRanking.RankedInOrder`, `SpelRanking.RankedKeepsTies` and `SpelRanking.RankedOfCatalog` |
| SpelRanking.Completions | src/spel_completer.py:122-185 | `get_completions`; stated by the `Completions` lemmas below |
| SpelRanking.CompletionsBrowse | src/spel_completer.py:124-125 | an empty prefix lists the first 50 catalog entries as they stand |
| SpelRanking.CompletionsAreRanked | src/spel_completer.py:182-185 | a non-empty prefix gets the ranking's first 30 entries |
| SpelRanking.CompletionsCount | src/spel_completer.py:182-185 | at most 30 entries, all hits when there are fewer |
| SpelRanking.CompletionsSound | src/spel_completer.py:122-185 | every entry listed is a catalog entry that matches the prefix |
| SpelRanking.CompletionsComplete | src/spel_completer.py:122-185 | when at most 30 entries match, all of them are listed |
| SpelRanking.CompletionsInOrder | src/spel_completer.py:122-185 | the entries listed are in rank order |
| SpelEditor.Typed | src/spel_completer.py:417 | the typed text is inserted at the caret, the caret moves past it and the rest stays |
| SpelEditor.PairTyped | src/spel_completer.py:390-399 | the opening character and its partner are inserted with the caret between them |
| SpelEditor.Backspaced | src/spel_completer.py:404-417 | deletes the character before the caret, and the closing partner too between an empty pair; nothing at the start |
| SpelEditor.BackspaceAfterPair | src/spel_completer.py:390-417 | backspace right after an auto-closed pair restores the document |
| SpelEditor.BackspaceAfterTyped | src/spel_completer.py:404-417 | backspace right after typing a plain character restores the document |
| SpelEditor.CompletionText | src/spel_completer.py:505-511 | a completion with parameters becomes its name followed by `()`; others are kept |
| SpelEditor.InsertionText | src/spel_completer.py:505-544 | the text that replaces the word; stated by `SpelEditor.InsertionTextParens`, `SpelEditor.InsertedAfterDot` and `SpelEditor.InsertedAfterHash` |
| SpelEditor.InsertedKeepsContext | src/spel_completer.py:513-541 | insertion changes only the word at the caret: the text before it and after the caret stay |
| SpelEditor.InsertionTextParens | src/spel_completer.py:505-544 | a completion with parameters is inserted ending in `()` |
| SpelEditor.InsertedCaretInParens | src/spel_completer.py:505-547 | after such an insertion the caret sits between the parentheses |
| SpelEditor.InsertedAfterDot | src/spel_completer.py:532-535 | after a dot a `.name` completion does not double the dot |
| SpelEditor.InsertedAfterHash | src/spel_completer.py:536-539 | after `#` a `#name` completion does not double the `#` |
| SpelEditor.Moved | src/spel_completer.py:487-492 | the popup row moves by the delta, clamped to the list, and is -1 for an empty list |
| SpelEditor.StepConsistent | src/spel_completer.py:368-421 | every key press keeps the caret in the text and the row within the list |
| SpelEditor.RefreshedKeepsDoc | src/spel_completer.py:428-461 | refreshing the popup never changes the document |
| SpelEditor.RefreshedShows | src/spel_completer.py:428-485 | the popup shows the context completions with the first row selected, and hides when there are none or nothing is typed |
| SpelEditor.Refreshed | src/spel_completer.py:428-461 | the popup refresh; stated by `SpelEditor.RefreshedShows` and `SpelEditor.RefreshedKeepsDoc` |
| SpelEditor.Completed | src/spel_completer.py:494-549 | accepting a completion; stated by `SpelEditor.InsertedKeepsContext` and `SpelEditor.InsertedCaretInParens` |
| SpelEditor.Step | src/spel_completer.py:368-421 | a key press; stated by `SpelEditor.StepConsistent`, `SpelEditor.StepTypedChar` and `SpelEditor.StepBackspace` |
| SpelEditor.Navigated | src/spel_completer.py:370-383 | the keys the visible popup takes; stated by `SpelEditor.StepConsistent` |
| SpelEditor.Edited | src/spel_completer.py:385-421 | the other keys; stated by `SpelEditor.StepTypedChar` and `SpelEditor.StepBackspace` |
| SpelEditor.KeyEdit | src/spel_completer.py:404-417 | the widget's own handling: Backspace deletes as specified, Return and Enter insert a line break, Tab a tab, printable text goes in at the caret, any other key leaves the document as it is |
| SpelEditor.StepTypedChar | src/spel_completer.py:390-421 | a printable key types its character, or the pair for a pair character |
| SpelEditor.StepBackspace | src/spel_completer.py:404-421 | backspace deletes as specified |
| SpelEditor.TypeThenBackspace | src/spel_completer.py:390-421 | typing one printable character and then backspace restores the document |
| SpelEditor.SpelTextEdit.constructor | src/spel_completer.py:310-314 | empty text, caret at 0, popup hidden and empty |
| SpelEditor.SpelTextEdit.SetSpelCompleter | src/spel_completer.py:359-361 | replaces the completer only |
| SpelEditor.SpelTextEdit.HidePopup | src/spel_completer.py:423-426 | hides the popup only |
| SpelEditor.SpelTextEdit.ShowCompletions | src/spel_completer.py:463-485 | shows the list with the first row selected |
| SpelEditor.SpelTextEdit.MoveSelection | src/spel_completer.py:487-492 | moves the row as specified |
| SpelEditor.SpelTextEdit.UpdateCompletions | src/spel_completer.py:428-461 | the popup refresh as specified |
| SpelEditor.SpelTextEdit.InsertCompletion | src/spel_completer.py:494-549 | inserts the chosen entry (or the current row) and hides the popup |
| SpelEditor.SpelTextEdit.CompleteWord | src/spel_completer.py:513-541 | the word at the caret becomes the completion |
| SpelEditor.SpelTextEdit.ReplaceWord | src/spel_completer.py:528-547 | the text from the word start to the caret is replaced |
| SpelEditor.SpelTextEdit.KeyPress | src/spel_completer.py:368-421 | the key press as specified |
| SpelEditor.SpelTextEdit.Navigate | src/spel_completer.py:370-383 | the keys the visible popup takes for itself |
| SpelEditor.SpelTextEdit.Edit | src/spel_completer.py:385-421 | the other keys: forced completion, pairs, backspace and typing |
| SpelEditor.SpelTextEdit.DefaultKey | src/spel_completer.py:404-417 | the document becomes the one `SpelEditor.KeyEdit` gives |
| SpelEditor.SpelTextEdit.TypePair | src/spel_completer.py:390-399 | inserts the pair |
| SpelEditor.SpelTextEdit.DeleteBackward | src/spel_completer.py:404-417 | backspace as specified |
| SpelEditor.SpelTextEdit.TypeText | src/spel_completer.py:417 | types the text |

## Left out

- Everything outside these four source files is not part of this model: the
  Qt windows and dialogs, the rule tree, themes, the project scanner and backups.
- Configuration files:
  - `load`, `_load_profiles`, `save` and `save_profile` read and write JSON
    files; the model has no file system;
  - the parsed files become the constructor's parameters;
  - saving leaves the model's state unchanged;
  - an unreadable file counts as missing;
  - profile files are not deleted from disk.
- Exceptions: where the source raises (a `TypeError` from `set` on a configuration that is not a dictionary, an `AttributeError` from `copy()` on a profile that is neither a dictionary nor a list), the method returns `ok` false and leaves the state as it was; the exception's propagation to the caller is not modelled.
- Config.ConfigManager.constructor: `DEFAULT_CONFIG.copy()` is a shallow copy, so the nested dictionaries of the default configuration are shared between managers. Values are immutable here and that sharing is not modelled; the model keeps only the sharing that matters to the profile operations, between the configuration and the current profile.
- Config.ConfigManager.CreateProfile: `base_config.copy()` (src/config_manager.py:143) is shallow, so a new profile shares its nested lists and dictionaries with its base. `add_recent_file` (lines 157-159), `add_springboot_project` (lines 175-177) and the scanned-class merge (line 242) change those nested values in place, so in the source a file opened under a copied profile also appears in the base profile's recent list. The model copies by value and does not capture that aliasing.
- `get_profiles` and `get_current_profile` are the fields `profiles.Keys` and `current`, read directly.
- Config.RecentAfterAddOnce: requires that the path occurs at most once in the old list. `list.remove` removes one occurrence, so a list that already held duplicates keeps one.
- JSON types:
  - a configuration or scanned-class value of the wrong JSON type reads as the key's default: a name that is not a string reads as `""`, a list that is not a list as `[]`, a stored `null` as the default;
  - the source would keep such a value or raise an exception.
- Models.RuleFromDict: the source stores whatever `data.get` returns (src/models.py:62-71), and the model's record has typed fields. A `code`, `name`, `expression`, `conditionExpression`, `message` or `messageTemplate` that is not a string (an integer code, say) is kept as it is by the source and reads as `""` here. An `enabled` that is not a boolean is kept too (src/models.py:64): `enabled: 0` gives a disabled rule that `to_dict` saves back as `0`, while here it reads as `true` and is saved as `true`. A `severity` that is not a string (`null`, `3`, a list) makes `from_string` raise `AttributeError` on `value.upper()` (src/models.py:20, 65); here it reads as MEDIUM.
- Models.RuleFileFromDict: a `version` that is not an integer is kept as it is by the source (src/models.py:116) and reads as 1 here. A `rules` value that is not a list is read as no rules here, while the source's comprehension (src/models.py:117) raises `TypeError` on `null` or a number and iterates a string's characters or a dictionary's keys, so `Rule.from_dict` then raises `AttributeError` on the first one (src/models.py:62); only an empty string or dictionary gives no rules there. A `rules` entry that is not a dictionary makes `Rule.from_dict` raise `AttributeError` (src/models.py:62); here it reads as the default rule.
- Models.JavaClassFromDict: the source keeps the stored field and method dictionaries as they are (src/models.py:148-149); the model reads them into records, so keys other than the record's own do not survive a load and save.
- UpdateChecker.SegmentValue: Python's `int()` also accepts surrounding white space and `_` between digits; the model accepts an optional sign and ASCII digits only.
- The update checker's network part is left out: `_check_update` (the HTTP request, the JSON reply and its errors), the `QThread` signals and `open_release_page`. `UpdateChecker.Run` takes the release (or None for a failed check) as a parameter.
- Case and printability:
  - `lower()` and `upper()` map ASCII letters only;
  - `isprintable()` is reduced to the ASCII and C1 control ranges.
- Qt widget behaviour:
  - popup geometry, style sheets, focus-out and its timer (`focusOutEvent`, `_delayed_hide_popup`);
  - the text selection;
  - Qt's own handling of keys that type nothing other than Backspace, Return, Enter and Tab (arrows, Delete, Home and so on): SpelEditor.KeyEdit leaves the document unchanged for them.
- SpelEditor.SpelTextEdit.UpdateCompletions: the `_completing` re-entrancy guard is not modelled, because the model has no re-entrant calls.
- A click on the popup (`_on_popup_clicked`) is `InsertCompletion` with the clicked row.
- Rule files hold their rules by value, so a rule edited through `Rule` does not change a `RuleFile` that holds it.
