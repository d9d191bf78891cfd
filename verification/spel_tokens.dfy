/**
 * The backward scan that finds the word being typed: from the cursor back to
 * the nearest word-break character. `get_context_completions` and the editor's
 * `_update_completions` break on operators, brackets, separators and white
 * space; `_insert_completion` also breaks on `.` and `#`, so that a completion
 * replaces only the part after the last dot.
 */
module SpelTokens {

  /** The characters `get_context_completions` and `_update_completions` stop at. */
  const WordBreaks: set<char> := {' ', '\t', '\n', '(', ')', '[', ']', '{', '}', '=', '<', '>',
                                  '!', '&', '|', '+', '-', '*', '/', '%', '^', ',', ';', ':'}

  /** The characters `_insert_completion` stops at: the word breaks, `.` and `#`. */
  const InsertBreaks: set<char> := WordBreaks + {'.', '#'}

  /**
   * Where the word before `cursor` starts. A cursor past the end of the text
   * finds the empty word: the source stops at once there, either by testing
   * `i >= len(text)` or because `''` is in every Python string.
   */
  function TokenStart(text: string, cursor: nat, breaks: set<char>): (ws: nat)
    decreases cursor
    ensures ws <= cursor
    ensures cursor > |text| ==> ws == cursor
    ensures cursor <= |text| ==> ws == 0 || text[ws - 1] in breaks
    ensures cursor <= |text| ==> forall k :: ws <= k < cursor ==> text[k] !in breaks
  {
    if cursor == 0 || cursor > |text| || text[cursor - 1] in breaks then cursor
    else TokenStart(text, cursor - 1, breaks)
  }

  /**
   * `text[word_start:cursor]`: the longest run of non-break characters that ends
   * at the cursor; it reaches the start of the text or follows a break.
   */
  function Word(text: string, cursor: nat, breaks: set<char>): (w: string)
    ensures cursor <= |text| ==> |w| <= cursor && w == text[cursor - |w|..cursor] && Unbroken(w, breaks)
    ensures cursor <= |text| ==> |w| == cursor || text[cursor - |w| - 1] in breaks
    ensures cursor > |text| ==> w == ""
  {
    if cursor <= |text| then text[TokenStart(text, cursor, breaks)..cursor] else ""
  }

  /** The scan reads only the text before the cursor. */
  lemma {:induction false} TokenStartPrefix(text: string, i: nat, c: nat, breaks: set<char>)
    requires i <= c <= |text|
    ensures TokenStart(text, i, breaks) == TokenStart(text[..c], i, breaks)
    decreases i
  {
    if i > 0 {
      assert text[..c][i - 1] == text[i - 1];
      TokenStartPrefix(text, i - 1, c, breaks);
    }
  }

  /** The word before the cursor is the same whatever follows the cursor. */
  lemma WordPrefix(text: string, cursor: nat, breaks: set<char>)
    requires cursor <= |text|
    ensures Word(text, cursor, breaks) == Word(text[..cursor], cursor, breaks)
  {
    TokenStartPrefix(text, cursor, cursor, breaks);
  }

  /** The scan loop, walking left from the cursor until a break or the start of the text. */
  method ScanTokenStart(text: string, cursor: nat, breaks: set<char>) returns (ws: nat)
    ensures ws == TokenStart(text, cursor, breaks)
  {
    ws := cursor;
    var i := cursor;
    while i > 0
      invariant ws == i <= cursor
      invariant TokenStart(text, cursor, breaks) == TokenStart(text, i, breaks)
      decreases i
    {
      if i - 1 >= |text| {
        break;
      }
      if text[i - 1] in breaks {
        break;
      }
      ws := i - 1;
      i := i - 1;
    }
  }

  /** No character of `w` is a break. */
  predicate Unbroken(w: string, breaks: set<char>) {
    forall k :: 0 <= k < |w| ==> w[k] !in breaks
  }

  lemma UnbrokenConcat(a: string, b: string, breaks: set<char>)
    requires Unbroken(a, breaks) && Unbroken(b, breaks)
    ensures Unbroken(a + b, breaks)
  {
    forall k | 0 <= k < |a + b| ensures (a + b)[k] !in breaks {
      if k >= |a| {
        assert (a + b)[k] == b[k - |a|];
      }
    }
  }

  /** The characters of the `#fn.` marker are not word breaks. */
  lemma MarkerUnbroken()
    ensures Unbroken("#fn.", WordBreaks) && Unbroken(".", WordBreaks)
  {
  }

  /** A word typed right after a break character (or at the start of the text) is exactly the word found before the cursor at its end. */
  lemma WordAfterBreak(before: string, w: string, breaks: set<char>)
    requires before == [] || before[|before| - 1] in breaks
    requires Unbroken(w, breaks)
    ensures Word(before + w, |before + w|, breaks) == w
  {
    var text := before + w;
    if before != [] {
      assert text[|before| - 1] == before[|before| - 1];
    }
    forall k | |before| <= k < |text| ensures text[k] !in breaks {
      assert text[k] == w[k - |before|];
    }
    assert text[|before|..] == w;
  }

  /**
   * Breaking on more characters never reaches further back: the word that
   * `_insert_completion` replaces is the tail of the word that was completed.
   */
  lemma {:induction false} MoreBreaksShorterWord(text: string, cursor: nat, few: set<char>, many: set<char>)
    requires few <= many
    ensures TokenStart(text, cursor, few) <= TokenStart(text, cursor, many)
    decreases cursor
  {
    if !(cursor == 0 || cursor > |text| || text[cursor - 1] in many) {
      MoreBreaksShorterWord(text, cursor - 1, few, many);
    }
  }

  /** The word the insertion replaces is the part of the completed word after its last `.` or `#`. */
  lemma InsertWordIsTail(text: string, cursor: nat)
    requires cursor <= |text|
    ensures TokenStart(text, cursor, WordBreaks) <= TokenStart(text, cursor, InsertBreaks)
    ensures var w := Word(text, cursor, InsertBreaks);
      w == Word(text, cursor, WordBreaks)[|Word(text, cursor, WordBreaks)| - |w|..]
      && '.' !in w && '#' !in w
  {
    MoreBreaksShorterWord(text, cursor, WordBreaks, InsertBreaks);
    var w := Word(text, cursor, InsertBreaks);
    forall k | 0 <= k < |w| ensures w[k] != '.' && w[k] != '#' {
      assert w[k] == text[TokenStart(text, cursor, InsertBreaks) + k];
    }
  }
}
