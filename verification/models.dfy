/**
 * The rule document model and the scanned-class records, with their
 * dictionary forms (`to_dict` / `from_dict`).
 */
module Models {
  import opened Text
  import opened Json

  // ---------------------------------------------------------------- Severity

  datatype Severity = LOW | MEDIUM | HIGH | CRITICAL

  /** `Severity.value`. */
  function SeverityValue(s: Severity): string {
    match s
    case LOW => "LOW"
    case MEDIUM => "MEDIUM"
    case HIGH => "HIGH"
    case CRITICAL => "CRITICAL"
  }

  /** `Severity.from_string`: the member whose value is `v.upper()`, and MEDIUM for any other string. */
  function SeverityFromString(v: string): (r: Severity)
    ensures forall s :: SeverityValue(s) == Upper(v) ==> r == s
    ensures (forall s :: SeverityValue(s) != Upper(v)) ==> r == MEDIUM
  {
    var u := Upper(v);
    if u == "LOW" then assert SeverityValue(LOW) == u; LOW
    else if u == "HIGH" then assert SeverityValue(HIGH) == u; HIGH
    else if u == "CRITICAL" then assert SeverityValue(CRITICAL) == u; CRITICAL
    else MEDIUM
  }

  lemma SeverityValueIsUpper(s: Severity)
    ensures Upper(SeverityValue(s)) == SeverityValue(s)
  {
    var v := SeverityValue(s);
    assert forall i :: 0 <= i < |v| ==> !IsLowerAscii(v[i]);
  }

  /** Parsing the value of a member gives the member back. */
  lemma SeverityRoundTrip(s: Severity)
    ensures SeverityFromString(SeverityValue(s)) == s
  {
    SeverityValueIsUpper(s);
  }

  // -------------------------------------------------------------------- Rule

  /** The fields of a `Rule`, as a value. */
  datatype RuleFields = RuleFields(
    code: string,
    name: string,
    enabled: bool,
    severity: Severity,
    expression: string,
    message: string,
    conditionExpression: string,  // legacy key `conditionExpression`
    messageTemplate: string       // legacy key `messageTemplate`
  )

  /** `Rule()`: the dataclass defaults. */
  const DefaultRule := RuleFields("", "", true, MEDIUM, "", "", "", "")

  /** Python's `a or b` on two strings. */
  function Or(a: string, b: string): string {
    if a != "" then a else b
  }

  /** `Rule.get_expression`: the new field when it is set, the legacy one otherwise. */
  function GetExpression(r: RuleFields): string {
    Or(r.expression, r.conditionExpression)
  }

  /** `Rule.get_message`. */
  function GetMessage(r: RuleFields): string {
    Or(r.message, r.messageTemplate)
  }

  /** `Rule.to_dict`: a rule that uses the legacy expression key is written with the legacy keys. */
  function RuleToDict(r: RuleFields): (d: map<string, Value>)
    ensures {"code", "name", "enabled", "severity"} <= d.Keys
    ensures d["severity"] == Str(SeverityValue(r.severity)) && d["enabled"] == Bool(r.enabled)
    ensures r.conditionExpression != "" ==>
              d.Keys == {"code", "name", "enabled", "severity", "conditionExpression", "messageTemplate"}
              && d["conditionExpression"] == Str(r.conditionExpression)
              && d["messageTemplate"] == Str(Or(r.messageTemplate, r.message))
    ensures r.conditionExpression == "" ==>
              d.Keys == {"code", "name", "enabled", "severity", "expression", "message"}
              && d["expression"] == Str(GetExpression(r))
              && d["message"] == Str(GetMessage(r))
  {
    var common := map["code" := Str(r.code), "name" := Str(r.name),
                      "enabled" := Bool(r.enabled), "severity" := Str(SeverityValue(r.severity))];
    if r.conditionExpression != "" then
      common["conditionExpression" := Str(r.conditionExpression)]
            ["messageTemplate" := Str(Or(r.messageTemplate, r.message))]
    else
      common["expression" := Str(Or(r.expression, r.conditionExpression))]
            ["message" := Str(Or(r.message, r.messageTemplate))]
  }

  /** `Rule.from_dict`: every key is optional and both the new and the legacy keys are read. */
  function RuleFromDict(data: map<string, Value>): (r: RuleFields)
    ensures data == map[] ==> r == DefaultRule
    ensures ReadsStr(data, "code", "", r.code) && ReadsStr(data, "name", "", r.name)
    ensures ReadsBool(data, "enabled", true, r.enabled)
    ensures "severity" in data && data["severity"].Str? ==> r.severity == SeverityFromString(data["severity"].s)
    ensures "severity" !in data ==> r.severity == MEDIUM
    ensures "severity" in data && !data["severity"].Str? ==> r.severity == MEDIUM
    ensures ReadsStr(data, "expression", "", r.expression) && ReadsStr(data, "message", "", r.message)
    ensures ReadsStr(data, "conditionExpression", "", r.conditionExpression)
    ensures ReadsStr(data, "messageTemplate", "", r.messageTemplate)
  {
    RuleFields(
      StrOr(data, "code", ""),
      StrOr(data, "name", ""),
      BoolOr(data, "enabled", true),
      SeverityFromString(StrOr(data, "severity", "MEDIUM")),
      StrOr(data, "expression", ""),
      StrOr(data, "message", ""),
      StrOr(data, "conditionExpression", ""),
      StrOr(data, "messageTemplate", ""))
  }

  /** A rule that does not use the legacy fields survives a save and reload unchanged. */
  lemma RuleRoundTrip(r: RuleFields)
    requires r.conditionExpression == "" && r.messageTemplate == ""
    ensures RuleFromDict(RuleToDict(r)) == r
  {
    SeverityRoundTrip(r.severity);
  }

  /** A rule that uses the legacy expression comes back with only the legacy fields set. */
  lemma RuleLegacyRoundTrip(r: RuleFields)
    requires r.conditionExpression != ""
    ensures RuleFromDict(RuleToDict(r))
         == r.(expression := "", message := "", messageTemplate := Or(r.messageTemplate, r.message))
  {
    SeverityRoundTrip(r.severity);
  }

  /** Saving is a normal form: reloading a saved rule and saving it again writes the same dictionary. */
  lemma RuleDictStable(r: RuleFields)
    ensures RuleToDict(RuleFromDict(RuleToDict(r))) == RuleToDict(r)
  {
    SeverityRoundTrip(r.severity);
    if r.conditionExpression != "" {
      RuleLegacyRoundTrip(r);
    } else {
      var r' := RuleFromDict(RuleToDict(r));
      assert r' == r.(expression := Or(r.expression, r.conditionExpression),
                      message := Or(r.message, r.messageTemplate), messageTemplate := "");
    }
  }

  /** What the editor shows after a save and reload: the expression changes exactly when both keys held different text. */
  lemma ReloadKeepsExpression(r: RuleFields)
    ensures GetExpression(RuleFromDict(RuleToDict(r))) == GetExpression(r)
        <==> r.expression == "" || r.conditionExpression == "" || r.expression == r.conditionExpression
  {
    SeverityRoundTrip(r.severity);
    if r.conditionExpression != "" { RuleLegacyRoundTrip(r); }
  }

  /** The same for the message: it changes exactly when both message keys held different text under a legacy expression. */
  lemma ReloadKeepsMessage(r: RuleFields)
    ensures GetMessage(RuleFromDict(RuleToDict(r))) == GetMessage(r)
        <==> r.conditionExpression == "" || r.message == "" || r.messageTemplate == "" || r.message == r.messageTemplate
  {
    SeverityRoundTrip(r.severity);
    if r.conditionExpression != "" { RuleLegacyRoundTrip(r); }
  }

  /** `set_expression` on a value: writes the legacy field when it is in use, the new one otherwise. */
  function AssignExpression(r: RuleFields, v: string): (r': RuleFields)
    ensures r'.(expression := r.expression, conditionExpression := r.conditionExpression) == r
    ensures r.conditionExpression != "" ==> r'.conditionExpression == v && r'.expression == r.expression
    ensures r.conditionExpression == "" ==> r'.expression == v && r'.conditionExpression == ""
  {
    if r.conditionExpression != "" then r.(conditionExpression := v) else r.(expression := v)
  }

  /** `set_message` on a value, keyed on the legacy template. */
  function AssignMessage(r: RuleFields, v: string): (r': RuleFields)
    ensures r'.(message := r.message, messageTemplate := r.messageTemplate) == r
    ensures r.messageTemplate != "" ==> r'.messageTemplate == v && r'.message == r.message
    ensures r.messageTemplate == "" ==> r'.message == v && r'.messageTemplate == ""
  {
    if r.messageTemplate != "" then r.(messageTemplate := v) else r.(message := v)
  }

  /**
   * Reading back what was just set: `get_expression` prefers the new field while
   * `set_expression` prefers the legacy one, so the written text is read back exactly
   * when the two do not disagree.
   */
  lemma ExpressionReadBack(r: RuleFields, v: string)
    ensures GetExpression(AssignExpression(r, v)) == v
        <==> r.conditionExpression == "" || r.expression == "" || r.expression == v
  {
  }

  lemma MessageReadBack(r: RuleFields, v: string)
    ensures GetMessage(AssignMessage(r, v)) == v
        <==> r.messageTemplate == "" || r.message == "" || r.message == v
  {
  }

  /**
   * What a save writes after `set_expression(v)`: the text under the expression key
   * the dictionary holds is `v`, unless `v` is empty and blanks the legacy field in
   * use while the new field still holds text, which is then written instead.
   */
  lemma SavedExpression(r: RuleFields, v: string)
    ensures var d := RuleToDict(AssignExpression(r, v));
      var saved := if "conditionExpression" in d then d["conditionExpression"] else d["expression"];
      saved == Str(v) <==> v != "" || r.conditionExpression == "" || r.expression == ""
    ensures var d := RuleToDict(AssignExpression(r, v));
      v != "" ==> if r.conditionExpression != "" then d["conditionExpression"] == Str(v) else d["expression"] == Str(v)
  {
  }

  /**
   * What a save writes after `set_message(v)`: `to_dict` falls back from one message
   * field to the other in an order set by the expression field, so the legacy
   * template `set_message` wrote can lose to the new field.
   */
  lemma SavedMessage(r: RuleFields, v: string)
    ensures var d := RuleToDict(AssignMessage(r, v));
      var saved := if "messageTemplate" in d then d["messageTemplate"] else d["message"];
      saved == Str(v) <==> (r.messageTemplate == "" || r.message == ""
                            || (if r.conditionExpression != "" then v != "" else r.message == v))
  {
  }

  /** A rule object: `set_expression` and `set_message` change it in place. */
  class Rule {
    var code: string
    var name: string
    var enabled: bool
    var severity: Severity
    var expression: string
    var message: string
    var conditionExpression: string
    var messageTemplate: string

    function Fields(): RuleFields
      reads this
    {
      RuleFields(code, name, enabled, severity, expression, message, conditionExpression, messageTemplate)
    }

    /** `Rule.from_dict(data)`. */
    constructor FromDict(data: map<string, Value>)
      ensures Fields() == RuleFromDict(data)
    {
      var r := RuleFromDict(data);
      code, name, enabled, severity := r.code, r.name, r.enabled, r.severity;
      expression, message := r.expression, r.message;
      conditionExpression, messageTemplate := r.conditionExpression, r.messageTemplate;
    }

    /** `Rule.set_expression(value)`. */
    method SetExpression(value: string)
      modifies this
      ensures Fields() == AssignExpression(old(Fields()), value)
    {
      if conditionExpression != "" {
        conditionExpression := value;
      } else {
        expression := value;
      }
    }

    /** `Rule.set_message(value)`. */
    method SetMessage(value: string)
      modifies this
      ensures Fields() == AssignMessage(old(Fields()), value)
    {
      if messageTemplate != "" {
        messageTemplate := value;
      } else {
        message := value;
      }
    }
  }

  // ---------------------------------------------------------------- RuleFile

  /** A rule file. Its rules are held by value here. */
  datatype RuleFile = RuleFile(version: int, rules: seq<RuleFields>, filePath: string)

  /** `RuleFile.to_dict`: the file path is not written. */
  function RuleFileToDict(f: RuleFile): (d: map<string, Value>)
    ensures d.Keys == {"version", "rules"} && d["version"] == Int(f.version)
    ensures d["rules"].List? && |d["rules"].items| == |f.rules|
    ensures forall i :: 0 <= i < |f.rules| ==> d["rules"].items[i] == Dict(RuleToDict(f.rules[i]))
  {
    map["version" := Int(f.version),
        "rules" := List(seq(|f.rules|, i requires 0 <= i < |f.rules| => Dict(RuleToDict(f.rules[i]))))]
  }

  /** `RuleFile.from_dict(data, file_path)`. */
  function RuleFileFromDict(data: map<string, Value>, filePath: string): (f: RuleFile)
    ensures data == map[] ==> f == RuleFile(1, [], filePath)
    ensures "version" in data && data["version"].Int? ==> f.version == data["version"].i
    ensures "version" !in data ==> f.version == 1
    ensures "version" in data && !data["version"].Int? ==> f.version == 1
    ensures "rules" in data && data["rules"].List? ==>
      |f.rules| == |data["rules"].items|
      && forall i :: 0 <= i < |f.rules| ==> f.rules[i] == RuleFromDict(Entries(data["rules"].items[i]))
    ensures "rules" !in data ==> f.rules == []
    ensures "rules" in data && !data["rules"].List? ==> f.rules == []
    ensures f.filePath == filePath
  {
    var version := match DictGet(data, "version", Int(1)) case Int(i) => i case _ => 1;
    var items := Items(DictGet(data, "rules", List([])));
    RuleFile(version, seq(|items|, i requires 0 <= i < |items| => RuleFromDict(Entries(items[i]))), filePath)
  }

  /** Version and rule count survive a save and reload, each rule is written back as it was, and the path is the one given. */
  lemma RuleFileRoundTrip(f: RuleFile, path: string)
    ensures var g := RuleFileFromDict(RuleFileToDict(f), path);
      && g.version == f.version
      && |g.rules| == |f.rules|
      && g.filePath == path
      && (forall i :: 0 <= i < |f.rules| ==> RuleToDict(g.rules[i]) == RuleToDict(f.rules[i]))
      && (forall i :: 0 <= i < |f.rules| && f.rules[i].conditionExpression == "" && f.rules[i].messageTemplate == ""
            ==> g.rules[i] == f.rules[i])
  {
    var g := RuleFileFromDict(RuleFileToDict(f), path);
    forall i | 0 <= i < |f.rules|
      ensures RuleToDict(g.rules[i]) == RuleToDict(f.rules[i])
      ensures f.rules[i].conditionExpression == "" && f.rules[i].messageTemplate == "" ==> g.rules[i] == f.rules[i]
    {
      assert g.rules[i] == RuleFromDict(RuleToDict(f.rules[i]));
      RuleDictStable(f.rules[i]);
      if f.rules[i].conditionExpression == "" && f.rules[i].messageTemplate == "" {
        RuleRoundTrip(f.rules[i]);
      }
    }
  }

  // ------------------------------------------------------- scanned classes

  /** A field record of a scanned class (`{name, type, modifiers}`). */
  datatype FieldInfo = FieldInfo(name: string, fieldType: string, modifiers: seq<string>)

  /** A method record of a scanned class (`{name, params, return_type, modifiers}`). */
  datatype MethodInfo = MethodInfo(name: string, params: seq<string>, returnType: string, modifiers: seq<string>)

  /** `JavaClass`. */
  datatype JavaClass = JavaClass(
    name: string,
    package: string,
    fullName: string,
    fields: seq<FieldInfo>,
    methods: seq<MethodInfo>,
    isFunctionClass: bool)

  /** `SpringBootProject`. */
  datatype SpringBootProject = SpringBootProject(name: string, path: string, scannedAt: string, classes: seq<JavaClass>)

  const DefaultClass := JavaClass("", "", "", [], [], false)

  function FieldToDict(f: FieldInfo): map<string, Value> {
    map["name" := Str(f.name), "type" := Str(f.fieldType), "modifiers" := StrList(f.modifiers)]
  }

  function FieldFromValue(v: Value): (f: FieldInfo)
    ensures !v.Dict? || v.entries == map[] ==> f == FieldInfo("", "", [])
    ensures v.Dict? ==> ReadsStr(v.entries, "name", "", f.name) && ReadsStr(v.entries, "type", "", f.fieldType)
                        && ReadsStrings(v.entries, "modifiers", f.modifiers)
  {
    var d := Entries(v);
    FieldInfo(StrOr(d, "name", ""), StrOr(d, "type", ""), Strings(DictGet(d, "modifiers", List([]))))
  }

  function MethodToDict(m: MethodInfo): map<string, Value> {
    map["name" := Str(m.name), "params" := StrList(m.params),
        "return_type" := Str(m.returnType), "modifiers" := StrList(m.modifiers)]
  }

  function MethodFromValue(v: Value): (m: MethodInfo)
    ensures !v.Dict? || v.entries == map[] ==> m == MethodInfo("", [], "", [])
    ensures v.Dict? ==> ReadsStr(v.entries, "name", "", m.name) && ReadsStrings(v.entries, "params", m.params)
                        && ReadsStr(v.entries, "return_type", "", m.returnType)
                        && ReadsStrings(v.entries, "modifiers", m.modifiers)
  {
    var d := Entries(v);
    MethodInfo(StrOr(d, "name", ""), Strings(DictGet(d, "params", List([]))),
               StrOr(d, "return_type", ""), Strings(DictGet(d, "modifiers", List([]))))
  }

  lemma FieldRoundTrip(f: FieldInfo)
    ensures FieldFromValue(Dict(FieldToDict(f))) == f
  {
    StringsOfStrList(f.modifiers);
  }

  lemma MethodRoundTrip(m: MethodInfo)
    ensures MethodFromValue(Dict(MethodToDict(m))) == m
  {
    StringsOfStrList(m.params);
    StringsOfStrList(m.modifiers);
  }

  /** `JavaClass.to_dict`. */
  function JavaClassToDict(c: JavaClass): map<string, Value> {
    map["name" := Str(c.name), "package" := Str(c.package), "full_name" := Str(c.fullName),
        "fields" := List(seq(|c.fields|, i requires 0 <= i < |c.fields| => Dict(FieldToDict(c.fields[i])))),
        "methods" := List(seq(|c.methods|, i requires 0 <= i < |c.methods| => Dict(MethodToDict(c.methods[i])))),
        "is_function_class" := Bool(c.isFunctionClass)]
  }

  /** `JavaClass.from_dict`, reading the field and method records with their own defaults. */
  function JavaClassFromDict(d: map<string, Value>): (c: JavaClass)
    ensures d == map[] ==> c == DefaultClass
    ensures ReadsStr(d, "name", "", c.name) && ReadsStr(d, "package", "", c.package)
    ensures ReadsStr(d, "full_name", "", c.fullName) && ReadsBool(d, "is_function_class", false, c.isFunctionClass)
    ensures "fields" in d && d["fields"].List? ==>
      |c.fields| == |d["fields"].items|
      && forall i :: 0 <= i < |c.fields| ==> c.fields[i] == FieldFromValue(d["fields"].items[i])
    ensures "fields" !in d ==> c.fields == []
    ensures "methods" in d && d["methods"].List? ==>
      |c.methods| == |d["methods"].items|
      && forall i :: 0 <= i < |c.methods| ==> c.methods[i] == MethodFromValue(d["methods"].items[i])
    ensures "methods" !in d ==> c.methods == []
  {
    var fs := Items(DictGet(d, "fields", List([])));
    var ms := Items(DictGet(d, "methods", List([])));
    JavaClass(StrOr(d, "name", ""), StrOr(d, "package", ""), StrOr(d, "full_name", ""),
              seq(|fs|, i requires 0 <= i < |fs| => FieldFromValue(fs[i])),
              seq(|ms|, i requires 0 <= i < |ms| => MethodFromValue(ms[i])),
              BoolOr(d, "is_function_class", false))
  }

  /** A class record read from a dictionary value; a value that is not a dictionary reads as `JavaClass()`. */
  function JavaClassFromValue(v: Value): JavaClass {
    JavaClassFromDict(Entries(v))
  }

  lemma JavaClassRoundTrip(c: JavaClass)
    ensures JavaClassFromDict(JavaClassToDict(c)) == c
  {
    var d := JavaClassToDict(c);
    var c' := JavaClassFromDict(d);
    forall i | 0 <= i < |c.fields| ensures c'.fields[i] == c.fields[i] {
      FieldRoundTrip(c.fields[i]);
    }
    forall i | 0 <= i < |c.methods| ensures c'.methods[i] == c.methods[i] {
      MethodRoundTrip(c.methods[i]);
    }
  }

  /** `SpringBootProject.to_dict`. */
  function ProjectToDict(p: SpringBootProject): map<string, Value> {
    map["name" := Str(p.name), "path" := Str(p.path), "scanned_at" := Str(p.scannedAt),
        "classes" := List(seq(|p.classes|, i requires 0 <= i < |p.classes| => Dict(JavaClassToDict(p.classes[i]))))]
  }

  /** `SpringBootProject.from_dict`. */
  function ProjectFromDict(d: map<string, Value>): (p: SpringBootProject)
    ensures d == map[] ==> p == SpringBootProject("", "", "", [])
    ensures ReadsStr(d, "name", "", p.name) && ReadsStr(d, "path", "", p.path)
    ensures ReadsStr(d, "scanned_at", "", p.scannedAt)
    ensures "classes" in d && d["classes"].List? ==>
      |p.classes| == |d["classes"].items|
      && forall i :: 0 <= i < |p.classes| ==> p.classes[i] == JavaClassFromValue(d["classes"].items[i])
    ensures "classes" !in d ==> p.classes == []
  {
    var cs := Items(DictGet(d, "classes", List([])));
    SpringBootProject(StrOr(d, "name", ""), StrOr(d, "path", ""), StrOr(d, "scanned_at", ""),
                      seq(|cs|, i requires 0 <= i < |cs| => JavaClassFromValue(cs[i])))
  }

  /** A project survives a save and reload, its classes in order. */
  lemma ProjectRoundTrip(p: SpringBootProject)
    ensures ProjectFromDict(ProjectToDict(p)) == p
  {
    var p' := ProjectFromDict(ProjectToDict(p));
    forall i | 0 <= i < |p.classes| ensures p'.classes[i] == p.classes[i] {
      JavaClassRoundTrip(p.classes[i]);
    }
  }
}
