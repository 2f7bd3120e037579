/**
 * `ensure_punctuation` (tests/unit_tests/test_unit_translation.py): text
 * that is empty or only whitespace is an error; any other text gets a
 * period unless it already ends in a sentence-final mark. The `ValueError`
 * it raises is the `Failure` of a `Result`.
 */
module Punctuation {
  import opened Wrappers
  import opened Text

  const EmptyInputError: string := "Input cannot be empty. Please enter some text."

  /** `['.', '!', '?']` */
  predicate IsTerminal(c: char) {
    c == '.' || c == '!' || c == '?'
  }

  /**
   * Fails exactly on blank text; otherwise the text is kept as a prefix and
   * at most one period is added, so the result ends in a sentence-final mark.
   * The text is not stripped: trailing whitespace stays before the period.
   */
  function EnsurePunctuation(text: string): (r: Result<string, string>)
    ensures r.Failure? <==> Blank(text)
    ensures r.Failure? ==> r.error == EmptyInputError
    ensures r.Success? ==>
      |r.value| > 0 && IsTerminal(r.value[|r.value| - 1])
      && IsPrefix(text, r.value) && |r.value| <= |text| + 1
    ensures r.Success? && IsTerminal(text[|text| - 1]) ==> r.value == text
    ensures r.Success? && r.value != text ==> r.value == text + "."
  {
    // `not text.strip()`: by the contract of `Strip`, the stripped text is
    // empty exactly when the text is blank.
    if Blank(text) then Failure(EmptyInputError)
    else if text != "" && !IsTerminal(text[|text| - 1]) then
      PeriodAppended(text);
      Success(text + ".")
    else
      assert IsPrefix(text, text) by {
        assert text[..|text|] == text;
      }
      Success(text)
  }

  lemma PeriodAppended(text: string)
    ensures IsPrefix(text, text + ".") && IsTerminal((text + ".")[|text|])
  {
    assert (text + ".")[..|text|] == text;
  }

  /** Punctuating punctuated text changes nothing. */
  lemma EnsurePunctuationIdempotent(text: string)
    requires EnsurePunctuation(text).Success?
    ensures EnsurePunctuation(EnsurePunctuation(text).value) == EnsurePunctuation(text)
  {
    var t := EnsurePunctuation(text).value;
    TerminalNotBlank(t);
  }

  /** Text that ends in a sentence-final mark is never blank. */
  lemma TerminalNotBlank(t: string)
    requires |t| > 0 && IsTerminal(t[|t| - 1])
    ensures !Blank(t)
  {
    assert !IsSpace(t[|t| - 1]);
  }

  /** `test_empty_input`: the empty string is refused. */
  lemma EmptyInputRefused()
    ensures EnsurePunctuation("") == Failure(EmptyInputError)
  {
  }

  /** Text that ends in whitespace keeps it: the period comes after it. */
  lemma TrailingSpaceKept(text: string)
    requires !Blank(text) && text[|text| - 1] == ' '
    ensures EnsurePunctuation(text) == Success(text + ".")
  {
  }
}
