/**
 * The string logic of `SpelTextEdit`: the document and caret, the completion
 * popup's list and selected row, and what a key press does to them. The
 * widget's state is a `Doc` (text and caret) plus the popup; `Step` is the
 * reference definition of `keyPressEvent`, and the class's methods are proved
 * to follow it.
 */
module SpelEditor {
  import opened Options
  import opened Text
  import opened SpelTokens
  import opened SpelCompletion

  // ------------------------------------------------------------- document

  /** The plain text and the caret position in it. */
  datatype Doc = Doc(text: string, pos: nat) {
    predicate Valid() { pos <= |text| }
  }

  /** Typing `t` at the caret: the default handling of a printable key. */
  function Typed(d: Doc, t: string): (r: Doc)
    requires d.Valid()
    ensures r.Valid() && r.pos == d.pos + |t|
    ensures r.text[..d.pos] == d.text[..d.pos] && r.text[d.pos..r.pos] == t && r.text[r.pos..] == d.text[d.pos..]
  {
    Doc(d.text[..d.pos] + t + d.text[d.pos..], d.pos + |t|)
  }

  /** An opening character typed: both halves of the pair go in and the caret stays between them. */
  function PairTyped(d: Doc, open: char): (r: Doc)
    requires d.Valid() && open in PairChars
    ensures r.Valid() && r.pos == d.pos + 1 && r.pos < |r.text|
    ensures r.text[r.pos - 1] == open && r.text[r.pos] == PairChars[open]
    ensures r.text[..d.pos] == d.text[..d.pos] && r.text[r.pos + 1..] == d.text[d.pos..]
  {
    Doc(d.text[..d.pos] + [open, PairChars[open]] + d.text[d.pos..], d.pos + 1)
  }

  /** The caret sits between an opening character and its own closing partner. */
  predicate BetweenPair(d: Doc)
    requires d.Valid()
  {
    0 < d.pos < |d.text| && d.text[d.pos - 1] in PairChars && PairChars[d.text[d.pos - 1]] == d.text[d.pos]
  }

  /** Backspace: the character before the caret goes, and with it its partner just after the caret. */
  function Backspaced(d: Doc): (r: Doc)
    requires d.Valid()
    ensures r.Valid()
    ensures d.pos == 0 ==> r == d
    ensures d.pos > 0 ==> r.pos == d.pos - 1 && r.text[..r.pos] == d.text[..r.pos]
    ensures d.pos > 0 ==> r.text[r.pos..] == d.text[(if BetweenPair(d) then d.pos + 1 else d.pos)..]
  {
    var t := if BetweenPair(d) then d.text[..d.pos] + d.text[d.pos + 1..] else d.text;
    if d.pos > 0 then Doc(t[..d.pos - 1] + t[d.pos..], d.pos - 1) else Doc(t, d.pos)
  }

  // ---------------------------------------------------------- completion

  /** A function completion keeps only its name and empty parentheses. */
  function CompletionText(c: string): (r: string)
    ensures ('(' in c && ')' in c) ==>
      && 2 <= |r| < |c| + 2 && r[|r| - 2..] == "()"
      && r[..|r| - 2] == c[..|r| - 2] && c[|r| - 2] == '(' && '(' !in r[..|r| - 2]
    ensures !('(' in c && ')' in c) ==> r == c
  {
    if '(' in c && ')' in c then c[..CharIndex(c, '(').value] + "()" else c
  }

  /**
   * The text that replaces the word: the completion without a leading `.`
   * (the scan stops at the dot, which stays), and without a leading `#` when
   * one is already typed before the word.
   */
  function InsertionText(text: string, ws: nat, completion: string): string
    requires ws <= |text|
  {
    WithoutHash(WithoutDot(CompletionText(completion)), text, ws)
  }

  function WithoutDot(c: string): string {
    if StartsWith(c, ".") then c[1..] else c
  }

  function WithoutHash(c: string, text: string, ws: nat): string
    requires ws <= |text|
  {
    if StartsWith(c, "#") && ws > 0 && text[ws - 1] == '#' then c[1..] else c
  }

  /** `_insert_completion`'s edit: the word after the last break, `.` or `#` is replaced. */
  function Inserted(d: Doc, completion: string): (r: Doc)
    requires d.Valid()
    ensures r.Valid()
  {
    ReplacedFrom(d, TokenStart(d.text, d.pos, InsertBreaks), completion)
  }

  /** The text from `ws` to the caret replaced; the caret after it, or inside a trailing `()`. */
  function ReplacedFrom(d: Doc, ws: nat, completion: string): (r: Doc)
    requires ws <= d.pos <= |d.text|
    ensures r.Valid()
  {
    var c := InsertionText(d.text, ws, completion);
    var p := ws + |c|;
    Doc(d.text[..ws] + c + d.text[d.pos..], if EndsWith(c, "()") then p - 1 else p)
  }

  /** Only the word being completed changes: the text before it and after the caret stays. */
  lemma InsertedKeepsContext(d: Doc, completion: string)
    requires d.Valid()
    ensures var ws := TokenStart(d.text, d.pos, InsertBreaks);
      var r := Inserted(d, completion);
      && r.text[..ws] == d.text[..ws]
      && |r.text| >= |d.text| - d.pos
      && r.text[|r.text| - (|d.text| - d.pos)..] == d.text[d.pos..]
      && forall k :: ws <= k < d.pos ==> d.text[k] !in InsertBreaks
  {
  }

  /** A name with empty parentheses keeps them when a leading sigil is dropped. */
  lemma DropSigilKeepsParens(c: string, text: string, ws: nat)
    requires ws <= |text| && |c| >= 2 && c[|c| - 2..] == "()"
    ensures var d := WithoutDot(c); |d| >= 2 && d[|d| - 2..] == "()"
    ensures var h := WithoutHash(c, text, ws); |h| >= 2 && h[|h| - 2..] == "()"
  {
    var tail := c[|c| - 2..];
    assert tail[0] == c[|c| - 2] == '(';
    if StartsWith(c, ".") || StartsWith(c, "#") {
      assert c[..1][0] == c[0] != '(';
      assert c[1..][|c| - 3..] == tail;
    }
  }

  /** The text of a function completion still ends in `()` once its sigils are dropped. */
  lemma InsertionTextParens(text: string, ws: nat, completion: string)
    requires ws <= |text| && '(' in completion && ')' in completion
    ensures var c := InsertionText(text, ws, completion); |c| >= 2 && c[|c| - 2..] == "()"
  {
    var c0 := CompletionText(completion);
    DropSigilKeepsParens(c0, text, ws);
    DropSigilKeepsParens(WithoutDot(c0), text, ws);
  }

  /** Completing a function leaves the caret between its parentheses. */
  lemma InsertedCaretInParens(d: Doc, completion: string)
    requires d.Valid() && '(' in completion && ')' in completion
    ensures var r := Inserted(d, completion); 0 < r.pos < |r.text| && r.text[r.pos - 1] == '(' && r.text[r.pos] == ')'
  {
    var ws := TokenStart(d.text, d.pos, InsertBreaks);
    var c := InsertionText(d.text, ws, completion);
    InsertionTextParens(d.text, ws, completion);
    var r := Inserted(d, completion);
    assert r.text == d.text[..ws] + c + d.text[d.pos..];
    assert r.text[ws + |c| - 2] == c[|c| - 2] && r.text[ws + |c| - 1] == c[|c| - 1];
  }

  /** After a typed `.`, a dotted completion does not double the dot: the text reads as the completion. */
  lemma InsertedAfterDot(d: Doc, completion: string)
    requires d.Valid()
    requires var ws := TokenStart(d.text, d.pos, InsertBreaks); ws > 0 && d.text[ws - 1] == '.'
    requires var c := CompletionText(completion); StartsWith(c, ".") && !StartsWith(c[1..], "#")
    ensures var ws := TokenStart(d.text, d.pos, InsertBreaks);
      var c := CompletionText(completion);
      var r := Inserted(d, completion);
      ws - 1 + |c| <= |r.text| && r.text[ws - 1..ws - 1 + |c|] == c
  {
    var ws := TokenStart(d.text, d.pos, InsertBreaks);
    var c := CompletionText(completion);
    assert InsertionText(d.text, ws, completion) == c[1..];
    ReplacedKeepsSigil(d, ws, completion, c);
  }

  /** After a typed `#`, a `#` completion does not double the `#`. */
  lemma InsertedAfterHash(d: Doc, completion: string)
    requires d.Valid()
    requires var ws := TokenStart(d.text, d.pos, InsertBreaks); ws > 0 && d.text[ws - 1] == '#'
    requires StartsWith(CompletionText(completion), "#")
    ensures var ws := TokenStart(d.text, d.pos, InsertBreaks);
      var c := CompletionText(completion);
      var r := Inserted(d, completion);
      ws - 1 + |c| <= |r.text| && r.text[ws - 1..ws - 1 + |c|] == c
  {
    var ws := TokenStart(d.text, d.pos, InsertBreaks);
    var c := CompletionText(completion);
    assert c[0] == '#';
    assert InsertionText(d.text, ws, completion) == c[1..];
    ReplacedKeepsSigil(d, ws, completion, c);
  }

  /** A sigil dropped from the insertion because it is already typed reads back as part of the completion. */
  lemma ReplacedKeepsSigil(d: Doc, ws: nat, completion: string, c: string)
    requires ws <= d.pos <= |d.text| && 0 < ws && 0 < |c| && d.text[ws - 1] == c[0]
    requires InsertionText(d.text, ws, completion) == c[1..]
    ensures var r := ReplacedFrom(d, ws, completion); ws - 1 + |c| <= |r.text| && r.text[ws - 1..ws - 1 + |c|] == c
  {
    var r := ReplacedFrom(d, ws, completion);
    var before := d.text[..ws];
    assert r.text == before + c[1..] + d.text[d.pos..];
    SliceAcross(before, c[1..], d.text[d.pos..]);
    assert c == [before[ws - 1]] + c[1..];
  }

  /** The last character of `a` followed by all of `m`, read out of `a + m + b`. */
  lemma SliceAcross(a: string, m: string, b: string)
    requires 0 < |a|
    ensures (a + m + b)[|a| - 1..|a| + |m|] == [a[|a| - 1]] + m
  {
    var s := a + m + b;
    assert forall k :: 0 <= k < |m| ==> s[|a| + k] == m[k];
  }

  // --------------------------------------------------------------- editor

  /** The keys `keyPressEvent` tells apart; `Other` is any other key. */
  datatype Key = Down | Up | Return | Enter | Tab | Escape | AltSlash | Backspace | Other {
    /** The keys that move through, accept or dismiss the popup while it is visible. */
    predicate Navigation() {
      this in {Down, Up, Return, Enter, Tab, Escape}
    }
  }

  /** The widget: document, popup visibility, the popup's list and its current row (-1: none). */
  datatype Editor = Editor(doc: Doc, visible: bool, items: seq<string>, row: int)

  predicate Consistent(e: Editor) {
    e.doc.Valid() && -1 <= e.row < |e.items|
  }

  /** What the editor asks its completer: the scanned classes and the catalog. */
  datatype Engine = Engine(src: Option<Scan>, catalog: seq<string>)

  /** `str.isprintable()` for a key's text, with Unicode categories reduced to the control ranges. */
  predicate Printable(s: string) {
    forall k :: 0 <= k < |s| ==> 32 <= s[k] as int && !(127 <= s[k] as int <= 159)
  }

  /** `_hide_popup`. */
  function Hidden(e: Editor): Editor {
    e.(visible := false)
  }

  /** `_show_completions`: the list replaced, the first row selected. */
  function Shown(e: Editor, cs: seq<string>): Editor {
    e.(visible := true, items := cs, row := if cs != [] then 0 else -1)
  }

  /** `_move_selection(delta)`: the row moves by `delta`, clamped to the list. */
  function Moved(e: Editor, delta: int): (r: Editor)
    ensures |e.items| > 0 ==> 0 <= r.row < |e.items|
    ensures |e.items| == 0 ==> r.row == -1
    ensures 0 <= e.row + delta < |e.items| ==> r.row == e.row + delta
    ensures e.row + delta < 0 && |e.items| > 0 ==> r.row == 0
    ensures e.row + delta >= |e.items| ==> r.row == |e.items| - 1
    ensures r.doc == e.doc && r.visible == e.visible && r.items == e.items
  {
    var wanted := e.row + delta;
    var clamped := if wanted < 0 then 0 else if wanted > |e.items| - 1 then (if |e.items| - 1 < 0 then 0 else |e.items| - 1) else wanted;
    e.(row := if clamped < |e.items| then clamped else -1)
  }

  /** What `_update_completions(force)` shows: None hides the popup. */
  function Offer(eng: Engine, d: Doc, force: bool): Option<seq<string>>
    requires d.Valid()
  {
    var word := Word(d.text, d.pos, WordBreaks);
    if |word| >= 1 || force then
      var cs := ContextCompletions(eng.src, eng.catalog, d.text, d.pos);
      if cs != [] then Some(cs) else None
    else None
  }

  /** `_update_completions(force)`; without a completer nothing happens. */
  function Refreshed(e: Editor, eng: Option<Engine>, force: bool): Editor
    requires e.doc.Valid()
  {
    if eng.None? then e
    else match Offer(eng.value, e.doc, force)
      case Some(cs) => Shown(e, cs)
      case None => Hidden(e)
  }

  /** `_insert_completion(index)`: the current row when no index is given. */
  function Completed(e: Editor, index: Option<int>): Editor
    requires e.doc.Valid()
  {
    var i := if index.Some? then index.value else e.row;
    if 0 <= i < |e.items| then Hidden(e.(doc := Inserted(e.doc, e.items[i]))) else Hidden(e)
  }

  /** `keyPressEvent(event)` for a key and the text it types. */
  function Step(e: Editor, eng: Option<Engine>, key: Key, typed: string): Editor
    requires e.doc.Valid()
  {
    if e.visible && key.Navigation() then Navigated(e, key) else Edited(e, eng, key, typed)
  }

  /** The keys the visible popup takes for itself. */
  function Navigated(e: Editor, key: Key): Editor
    requires e.doc.Valid() && key.Navigation()
  {
    match key
    case Down => Moved(e, 1)
    case Up => Moved(e, -1)
    case Escape => Hidden(e)
    case _ => Completed(e, None)
  }

  /** Any other key: Alt+/, a paired character, Backspace, or text typed into the document. */
  function Edited(e: Editor, eng: Option<Engine>, key: Key, typed: string): Editor
    requires e.doc.Valid()
  {
    if key == AltSlash then Refreshed(e, eng, true)
    else if ShouldAutoCompletePair(typed) then Refreshed(e.(doc := PairTyped(e.doc, typed[0])), eng, false)
    else
      var d := KeyEdit(e.doc, key, typed);
      if typed != "" && Printable(typed) then Refreshed(e.(doc := d), eng, false) else e.(doc := d)
  }

  /**
   * The widget's default handling of a key: Backspace deletes, Return and Enter
   * start a new line, Tab inserts a tab, printable text goes in.
   */
  function KeyEdit(d: Doc, key: Key, typed: string): (r: Doc)
    requires d.Valid()
    ensures r.Valid()
    ensures key == Backspace ==> r == Backspaced(d)
    ensures key in {Return, Enter, Tab} ==>
      r.pos == d.pos + 1 && r.text == d.text[..d.pos] + [if key == Tab then '\t' else '\n'] + d.text[d.pos..]
    ensures key !in {Backspace, Return, Enter, Tab} ==>
      r == if typed != "" && Printable(typed) then Typed(d, typed) else d
  {
    if key == Backspace then Backspaced(d)
    else if key == Return || key == Enter then Typed(d, "\n")
    else if key == Tab then Typed(d, "\t")
    else if typed != "" && Printable(typed) then Typed(d, typed)
    else d
  }

  /** Every key keeps the caret inside the text and the selected row inside the list. */
  lemma StepConsistent(e: Editor, eng: Option<Engine>, key: Key, typed: string)
    requires Consistent(e)
    ensures Consistent(Step(e, eng, key, typed))
  {
    if e.visible && key.Navigation() {
      NavigatedConsistent(e, key);
    } else {
      EditedConsistent(e, eng, key, typed);
    }
  }

  lemma NavigatedConsistent(e: Editor, key: Key)
    requires Consistent(e) && key.Navigation()
    ensures Consistent(Navigated(e, key))
  {
  }

  lemma EditedConsistent(e: Editor, eng: Option<Engine>, key: Key, typed: string)
    requires Consistent(e)
    ensures Consistent(Edited(e, eng, key, typed))
  {
  }

  /** With a completer, the popup shows the context completions with the first row selected, and hides when there are none or nothing is typed. */
  lemma RefreshedShows(e: Editor, eng: Engine, force: bool)
    requires e.doc.Valid()
    ensures var cs := ContextCompletions(eng.src, eng.catalog, e.doc.text, e.doc.pos);
      var r := Refreshed(e, Some(eng), force);
      && (r.visible <==> cs != [] && (force || Word(e.doc.text, e.doc.pos, WordBreaks) != []))
      && (r.visible ==> r.items == cs && r.row == 0)
      && (!r.visible ==> r.items == e.items && r.row == e.row)
  {
  }

  /** Refreshing the popup never touches the document. */
  lemma RefreshedKeepsDoc(e: Editor, eng: Option<Engine>, force: bool)
    requires e.doc.Valid()
    ensures Refreshed(e, eng, force).doc == e.doc
  {
  }

  /** Backspace right after an opening character was typed removes the pair. */
  lemma BackspaceAfterPair(d: Doc, open: char)
    requires d.Valid() && open in PairChars
    ensures Backspaced(PairTyped(d, open)) == d
  {
    var d1 := PairTyped(d, open);
    assert BetweenPair(d1);
    var r := Backspaced(d1);
    assert r.text == d.text[..d.pos] + d.text[d.pos..];
    assert d.text[..d.pos] + d.text[d.pos..] == d.text;
  }

  /** Backspace right after any other character was typed removes just that character. */
  lemma BackspaceAfterTyped(d: Doc, ch: char)
    requires d.Valid() && ch !in PairChars
    ensures Backspaced(Typed(d, [ch])) == d
  {
    var d1 := Typed(d, [ch]);
    assert d1.text[d1.pos - 1] == ch;
    var r := Backspaced(d1);
    assert r.text == d.text[..d.pos] + d.text[d.pos..];
    assert d.text[..d.pos] + d.text[d.pos..] == d.text;
  }

  /** The document after typing one printable character, whatever the popup shows. */
  lemma StepTypedChar(e: Editor, eng: Option<Engine>, ch: char)
    requires e.doc.Valid() && Printable([ch])
    ensures Step(e, eng, Other, [ch]).doc == if ch in PairChars then PairTyped(e.doc, ch) else Typed(e.doc, [ch])
  {
    if ch in PairChars {
      assert ShouldAutoCompletePair([ch]);
      RefreshedKeepsDoc(e.(doc := PairTyped(e.doc, ch)), eng, false);
    } else {
      RefreshedKeepsDoc(e.(doc := Typed(e.doc, [ch])), eng, false);
    }
  }

  /** The document after Backspace, whatever the popup shows. */
  lemma StepBackspace(e: Editor, eng: Option<Engine>, erase: string)
    requires e.doc.Valid() && !ShouldAutoCompletePair(erase)
    ensures Step(e, eng, Backspace, erase).doc == Backspaced(e.doc)
  {
    RefreshedKeepsDoc(e.(doc := Backspaced(e.doc)), eng, false);
  }

  /**
   * Typing one printable character and then Backspace gives the document
   * back: an opening character took its closing partner with it, and
   * Backspace removes both.
   */
  lemma TypeThenBackspace(e: Editor, eng: Option<Engine>, ch: char, erase: string)
    requires Consistent(e)
    requires Printable([ch]) && !ShouldAutoCompletePair(erase)
    ensures var e1 := Step(e, eng, Other, [ch]);
      e1.doc.Valid() && Step(e1, eng, Backspace, erase).doc == e.doc
  {
    var e1 := Step(e, eng, Other, [ch]);
    StepTypedChar(e, eng, ch);
    if ch in PairChars {
      BackspaceAfterPair(e.doc, ch);
    } else {
      BackspaceAfterTyped(e.doc, ch);
    }
    StepBackspace(e1, eng, erase);
  }

  // ------------------------------------------------------------ the class

  class SpelTextEdit {
    /** `spel_completer`, or null. */
    var completer: SpelCompleter?
    /** `toPlainText()` and `textCursor().position()`. */
    var text: string
    var pos: nat
    /** `_popup_visible`, the popup model's string list and its current row (-1: no current index). */
    var popupVisible: bool
    var items: seq<string>
    var row: int

    function State(): Editor
      reads this
    {
      Editor(Doc(text, pos), popupVisible, items, row)
    }

    predicate Valid()
      reads this
    {
      Consistent(State())
    }

    /** The completer's configuration and catalog, as `Step` takes them. */
    function EngineOf(): Option<Engine>
      reads this, completer, if completer != null && completer.config != null then {completer.config} else {}
    {
      if completer == null then None else Some(Engine(completer.Source(), completer.completions))
    }

    constructor (spelCompleter: SpelCompleter?)
      ensures Valid() && completer == spelCompleter
      ensures State() == Editor(Doc("", 0), false, [], -1)
    {
      completer := spelCompleter;
      text, pos := "", 0;
      popupVisible, items, row := false, [], -1;
    }

    /** `set_spel_completer`. */
    method SetSpelCompleter(spelCompleter: SpelCompleter?)
      modifies this
      ensures completer == spelCompleter && State() == old(State())
    {
      completer := spelCompleter;
    }

    /** `_hide_popup`. */
    method HidePopup()
      modifies this
      ensures completer == old(completer) && State() == Hidden(old(State()))
    {
      popupVisible := false;
    }

    /** `_show_completions`. */
    method ShowCompletions(completions: seq<string>)
      modifies this
      ensures completer == old(completer) && State() == Shown(old(State()), completions)
    {
      items := completions;
      popupVisible := true;
      row := -1;
      if completions != [] {
        row := 0;
      }
    }

    /** `_move_selection`. */
    method MoveSelection(delta: int)
      modifies this
      ensures completer == old(completer) && State() == Moved(old(State()), delta)
    {
      var wanted := row + delta;
      var clamped := if wanted < |items| - 1 then wanted else |items| - 1;
      clamped := if clamped < 0 then 0 else clamped;
      row := if clamped < |items| then clamped else -1;
    }

    /** `_update_completions(force)`. */
    method UpdateCompletions(force: bool)
      requires Valid()
      modifies this
      ensures Valid() && completer == old(completer)
      ensures State() == Refreshed(old(State()), old(EngineOf()), force)
    {
      if completer == null {
        return;
      }
      var wordStart := ScanTokenStart(text, pos, WordBreaks);
      var word := if wordStart < pos then text[wordStart..pos] else "";
      if |word| >= 1 || force {
        var completions := completer.GetContextCompletions(text, pos);
        if completions != [] {
          ShowCompletions(completions);
        } else {
          HidePopup();
        }
      } else {
        HidePopup();
      }
    }

    /** `_insert_completion(index)`, and `_on_popup_clicked` with an index. */
    method InsertCompletion(index: Option<int>)
      requires Valid()
      modifies this
      ensures Valid() && completer == old(completer)
      ensures State() == Completed(old(State()), index)
    {
      var i := if index.Some? then index.value else row;
      if !(0 <= i < |items|) {
        HidePopup();
        return;
      }
      CompleteWord(items[i]);
      HidePopup();
    }

    /** The scan for the word's start, then its replacement. */
    method CompleteWord(completion: string)
      requires Valid()
      modifies this
      ensures Valid() && completer == old(completer)
      ensures State() == old(State()).(doc := Inserted(old(State()).doc, completion))
    {
      var wordStart := ScanTokenStart(text, pos, InsertBreaks);
      ReplaceWord(completion, wordStart);
    }

    /** The edit `_insert_completion` makes: the word before the caret replaced by `completion`. */
    method ReplaceWord(completion: string, wordStart: nat)
      requires Valid() && wordStart <= pos
      modifies this
      ensures Valid() && completer == old(completer)
      ensures State() == old(State()).(doc := ReplacedFrom(old(State()).doc, wordStart, completion))
    {
      var inserted := InsertionText(text, wordStart, completion);
      text, pos := text[..wordStart] + inserted + text[pos..], wordStart + |inserted|;
      if EndsWith(inserted, "()") {
        pos := pos - 1;
      }
    }

    /** `keyPressEvent`. */
    method KeyPress(key: Key, typed: string)
      requires Valid()
      modifies this
      ensures Valid() && completer == old(completer)
      ensures State() == Step(old(State()), old(EngineOf()), key, typed)
    {
      if popupVisible && key.Navigation() {
        Navigate(key);
      } else {
        Edit(key, typed);
      }
    }

    /** The popup's own keys while it is visible. */
    method Navigate(key: Key)
      requires Valid() && key.Navigation()
      modifies this
      ensures Valid() && completer == old(completer)
      ensures State() == Navigated(old(State()), key)
    {
      if key == Down {
        MoveSelection(1);
      } else if key == Up {
        MoveSelection(-1);
      } else if key == Return || key == Enter || key == Tab {
        InsertCompletion(None);
      } else {
        HidePopup();
      }
    }

    /** The rest of `keyPressEvent`, for a key the popup did not take. */
    method Edit(key: Key, typed: string)
      requires Valid()
      modifies this
      ensures Valid() && completer == old(completer)
      ensures State() == Edited(old(State()), old(EngineOf()), key, typed)
    {
      if key == AltSlash {
        UpdateCompletions(true);
        return;
      }
      if typed != "" && ShouldAutoCompletePair(typed) {
        var closing := MatchingBracket(typed);
        if closing.Some? {
          TypePair(typed[0]);
          UpdateCompletions(false);
          return;
        }
      }
      DefaultKey(key, typed);
      if typed != "" && Printable(typed) {
        UpdateCompletions(false);
      }
    }

    /** The Backspace pair check and `super().keyPressEvent(event)`; Return, Enter and Tab reach it only while the popup is hidden. */
    method DefaultKey(key: Key, typed: string)
      requires Valid()
      modifies this
      ensures Valid() && completer == old(completer)
      ensures State() == old(State()).(doc := KeyEdit(old(State()).doc, key, typed))
    {
      if key == Backspace {
        DeleteBackward();
      } else if key == Return || key == Enter {
        TypeText("\n");
      } else if key == Tab {
        TypeText("\t");
      } else if typed != "" && Printable(typed) {
        TypeText(typed);
      }
    }

    /** An opening character and its partner inserted, the caret left between them. */
    method TypePair(open: char)
      requires Valid() && open in PairChars
      modifies this
      ensures Valid() && completer == old(completer)
      ensures State() == old(State()).(doc := PairTyped(old(State()).doc, open))
    {
      text := text[..pos] + [open, PairChars[open]] + text[pos..];
      pos := pos + 1;
    }

    /** Backspace: the partner after the caret is deleted first, then the character before it. */
    method DeleteBackward()
      requires Valid()
      modifies this
      ensures Valid() && completer == old(completer)
      ensures State() == old(State()).(doc := Backspaced(old(State()).doc))
    {
      if 0 < pos < |text| {
        var before, after := text[pos - 1], text[pos];
        if before in PairChars && PairChars[before] == after {
          text := text[..pos] + text[pos + 1..];
        }
      }
      if pos > 0 {
        text := text[..pos - 1] + text[pos..];
        pos := pos - 1;
      }
    }

    /** The default handling of a printable key: its text goes in at the caret. */
    method TypeText(t: string)
      requires Valid()
      modifies this
      ensures Valid() && completer == old(completer)
      ensures State() == old(State()).(doc := Typed(old(State()).doc, t))
    {
      text := text[..pos] + t + text[pos..];
      pos := pos + |t|;
    }
  }
}
