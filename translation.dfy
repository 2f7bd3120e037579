/**
 * The translation page (app3.py): the guard on the chat input and the
 * prompt built from it, and `clean_translation`, which reduces the text the
 * model decoded to a single sentence ending in one period.
 */
module Translation {
  import opened Wrappers
  import opened Text
  import opened LeadIn

  // ---------------------------------------------------------------------
  // Input guard and prompt
  // ---------------------------------------------------------------------

  /** The task instruction put in front of the user's text. */
  const Prefix: string := "terjemah ke Inggeris: "

  const EmptyInputMessage: string := "Input cannot be empty. Please enter some text."

  /** What one chat submission leads to before the model is called. */
  datatype Submission =
    | NoSubmission             // nothing (or the empty string) was submitted
    | Rejected(message: string) // whitespace only: an error is shown, nothing is generated
    | Prompt(text: string)     // the text handed to the tokenizer

  /**
   * The guard and prompt of `main`: no submission does nothing, a
   * whitespace-only one is rejected, and any other is prefixed unaltered.
   */
  function Submit(chatInput: Option<string>): (r: Submission)
    ensures r.NoSubmission? <==> chatInput == None || chatInput == Some("")
    ensures r.Rejected? <==> chatInput.Some? && chatInput.value != "" && Blank(chatInput.value)
    ensures r.Rejected? ==> r.message == EmptyInputMessage
    ensures r.Prompt? ==> chatInput.Some? && IsPrefix(Prefix, r.text) && r.text[|Prefix|..] == chatInput.value
  {
    if chatInput == None || chatInput.value == "" then NoSubmission
    else if Strip(chatInput.value) == "" then Rejected(EmptyInputMessage)
    else Prompt(Prefix + chatInput.value)
  }

  /** Two accepted inputs give the same prompt only if they are the same input. */
  lemma PromptDeterminesInput(a: string, b: string)
    requires Submit(Some(a)).Prompt? && Submit(Some(a)) == Submit(Some(b))
    ensures a == b
  {
  }

  // ---------------------------------------------------------------------
  // clean_translation
  // ---------------------------------------------------------------------

  /** Text made only of whitespace and periods holds no sentence. */
  predicate NoSentence(text: string) {
    forall i :: 0 <= i < |text| ==> IsSpace(text[i]) || text[i] == '.'
  }

  /** A sentence as the final cleanup leaves it: single-spaced, no whitespace at either end. */
  predicate IsNormal(s: string) {
    SingleSpaced(s) && (s != "" ==> !IsSpace(s[0]) && !IsSpace(s[|s| - 1]))
  }

  /** Stripping never brings in a character that is not whitespace. */
  lemma StripKeepsOut(s: string, c: char)
    requires !IsSpace(c)
    ensures c !in s ==> c !in Strip(s)
  {
    NonSpaceHas(s, c);
    NonSpaceHas(Strip(s), c);
  }

  /** A stripped, non-blank piece of text. */
  predicate IsSentence(x: string) {
    x != "" && !IsSpace(x[0]) && !IsSpace(x[|x| - 1])
  }

  predicate AllBlank(segments: seq<string>) {
    forall j :: 0 <= j < |segments| ==> Blank(segments[j])
  }

  predicate AllPeriodFree(xs: seq<string>) {
    forall j :: 0 <= j < |xs| ==> '.' !in xs[j]
  }

  /**
   * `[s.strip() for s in segments if s.strip()]`: the segments that are not
   * blank, stripped, in order.
   */
  function Sentences(segments: seq<string>): (r: seq<string>)
    ensures |r| <= |segments|
    ensures forall k :: 0 <= k < |r| ==> IsSentence(r[k])
  {
    if segments == [] then []
    else
      var first := Strip(segments[0]);
      var rest := Sentences(segments[1..]);
      if first != "" then
        ConsSentence(first, rest);
        [first] + rest
      else rest
  }

  lemma ConsSentence(first: string, rest: seq<string>)
    requires IsSentence(first) && forall k :: 0 <= k < |rest| ==> IsSentence(rest[k])
    ensures forall k :: 0 <= k < |rest| + 1 ==> IsSentence(([first] + rest)[k])
  {
    forall k | 0 <= k < |rest| + 1
      ensures IsSentence(([first] + rest)[k])
    {
      if k > 0 {
        assert ([first] + rest)[k] == rest[k - 1];
      }
    }
  }

  /** There is no sentence exactly when every segment is blank. */
  lemma {:induction false} SentencesEmptyIffBlank(segments: seq<string>)
    ensures Sentences(segments) == [] <==> AllBlank(segments)
  {
    if segments != [] {
      SentencesEmptyIffBlank(segments[1..]);
      AllBlankSplit(segments);
      SentencesStep(segments);
    }
  }

  lemma AllBlankSplit(segments: seq<string>)
    requires segments != []
    ensures AllBlank(segments) <==> Blank(segments[0]) && AllBlank(segments[1..])
  {
    assert forall j :: 1 <= j < |segments| ==> segments[j] == segments[1..][j - 1];
  }

  /** The first segment contributes a sentence exactly when it is not blank. */
  lemma SentencesStep(segments: seq<string>)
    requires segments != []
    ensures Sentences(segments) == [] <==> Blank(segments[0]) && Sentences(segments[1..]) == []
  {
  }

  /** What one segment contributes: its stripped text, unless it is blank. */
  function SentenceOf(segment: string): (r: seq<string>)
    ensures |r| <= 1
    ensures r == [] <==> Blank(segment)
    ensures r != [] ==> r[0] == Strip(segment)
  {
    if Blank(segment) then [] else [Strip(segment)]
  }

  lemma SentencesUncons(segments: seq<string>)
    requires segments != []
    ensures Sentences(segments) == SentenceOf(segments[0]) + Sentences(segments[1..])
  {
    if Blank(segments[0]) {
      assert [] + Sentences(segments[1..]) == Sentences(segments[1..]);
    }
  }

  /**
   * The comprehension works segment by segment: the sentences of two runs
   * of segments are the sentences of the first followed by those of the
   * second. With `SentencesSingle` this fixes `Sentences` completely.
   */
  lemma {:induction false} SentencesConcat(x: seq<string>, y: seq<string>)
    ensures Sentences(x + y) == Sentences(x) + Sentences(y)
    decreases |x|
  {
    if x == [] {
      assert x + y == y;
    } else {
      var xy := x + y;
      assert xy[0] == x[0] && xy[1..] == x[1..] + y;
      SentencesUncons(xy);
      SentencesUncons(x);
      SentencesConcat(x[1..], y);
      Associative(SentenceOf(x[0]), Sentences(x[1..]), Sentences(y));
    }
  }

  /** One segment gives its stripped text if it is not blank, and nothing otherwise. */
  lemma SentencesSingle(segment: string)
    ensures Sentences([segment]) == SentenceOf(segment)
  {
    assert [segment][1..] == [];
  }

  /** Sentences cut from period-free segments hold no period. */
  lemma {:induction false} SentencesPeriodFree(segments: seq<string>)
    requires AllPeriodFree(segments)
    ensures AllPeriodFree(Sentences(segments))
  {
    if segments != [] {
      PeriodFreeTail(segments);
      SentencesPeriodFree(segments[1..]);
      var first := Strip(segments[0]);
      StripKeepsOut(segments[0], '.');
      if first != "" {
        PeriodFreeCons(first, Sentences(segments[1..]));
      }
    }
  }

  lemma PeriodFreeTail(xs: seq<string>)
    requires xs != [] && AllPeriodFree(xs)
    ensures '.' !in xs[0] && AllPeriodFree(xs[1..])
  {
    assert forall j :: 0 <= j < |xs[1..]| ==> xs[1..][j] == xs[j + 1];
  }

  lemma PeriodFreeCons(x: string, xs: seq<string>)
    requires '.' !in x && AllPeriodFree(xs)
    ensures AllPeriodFree([x] + xs)
  {
    forall j | 0 <= j < |xs| + 1
      ensures '.' !in ([x] + xs)[j]
    {
      if j > 0 {
        assert ([x] + xs)[j] == xs[j - 1];
      }
    }
  }

  /** Joined with periods, the segments are all blank exactly when the text holds no sentence. */
  lemma {:induction false} BlankSegmentsIffNoSentence(parts: seq<string>)
    requires |parts| >= 1 && AllPeriodFree(parts)
    ensures AllBlank(parts) <==> NoSentence(Join(parts, '.'))
  {
    if |parts| > 1 {
      assert AllPeriodFree(parts[1..]) by {
        assert forall j :: 0 <= j < |parts[1..]| ==> parts[1..][j] == parts[j + 1];
      }
      BlankSegmentsIffNoSentence(parts[1..]);
      var a, t := parts[0], Join(parts[1..], '.');
      assert '.' !in a;
      assert Join(parts, '.') == a + "." + t;
      assert NoSentence(a + "." + t) <==> Blank(a) && NoSentence(t) by {
        var s := a + "." + t;
        if NoSentence(s) {
          forall i | 0 <= i < |a|
            ensures IsSpace(a[i])
          {
            assert s[i] == a[i];
          }
          forall i | 0 <= i < |t|
            ensures IsSpace(t[i]) || t[i] == '.'
          {
            assert s[|a| + 1 + i] == t[i];
          }
        }
        if Blank(a) && NoSentence(t) {
          forall i | 0 <= i < |s|
            ensures IsSpace(s[i]) || s[i] == '.'
          {
            if i < |a| {
              assert s[i] == a[i];
            } else if i > |a| {
              assert s[i] == t[i - |a| - 1];
            }
          }
        }
      }
      assert AllBlank(parts) <==> Blank(parts[0]) && AllBlank(parts[1..]) by {
        assert forall j :: 1 <= j < |parts| ==> parts[j] == parts[1..][j - 1];
      }
    } else {
      assert '.' !in parts[0];
    }
  }

  /** The text holds no sentence exactly when `clean_translation` finds none. */
  lemma NoSentenceIffNoSentences(text: string)
    ensures Sentences(Split(text, '.')) == [] <==> NoSentence(text)
  {
    SentencesEmptyIffBlank(Split(text, '.'));
    BlankSegmentsIffNoSentence(Split(text, '.'));
  }

  /**
   * Lines 86-87, `re.sub(r'\s+', ' ', s).strip()`: the result is normal,
   * keeps every non-whitespace character of `s` in order, and is `s` itself
   * when `s` is already normal.
   */
  function FinalCleanup(s: string): (r: string)
    ensures IsNormal(r)
    ensures NonSpace(r) == NonSpace(s)
    ensures IsNormal(s) ==> r == s
  {
    CleanupIsNormal(s);
    CleanupKeepsContent(s);
    CleanupKeepsNormal(s);
    Strip(CollapseSpaces(s))
  }

  lemma CleanupIsNormal(s: string)
    ensures IsNormal(Strip(CollapseSpaces(s)))
  {
    var collapsed := CollapseSpaces(s);
    CollapseSingleSpaces(s);
    StripKeepsSingleSpaced(collapsed);
  }

  lemma CleanupKeepsContent(s: string)
    ensures NonSpace(Strip(CollapseSpaces(s))) == NonSpace(s)
  {
    CollapseKeepsContent(s);
  }

  lemma CleanupKeepsNormal(s: string)
    ensures IsNormal(s) ==> Strip(CollapseSpaces(s)) == s
  {
    if IsNormal(s) {
      CollapseSingleSpaced(s);
    }
  }

  /** A run of whitespace between two cleaned-up words becomes one space. */
  lemma CleanupKeepsWordBreak(a: string, w: string, b: string)
    requires a != "" && IsNormal(a) && b != "" && IsNormal(b)
    requires w != "" && Blank(w)
    ensures FinalCleanup(a + w + b) == a + " " + b
  {
    CollapseWordBreak(a, w, b);
    CollapseSingleSpaced(a);
    CollapseSingleSpaced(b);
    var j := a + " " + b;
    assert j[0] == a[0] && j[|j| - 1] == b[|b| - 1];
  }

  /**
   * The sentence picked from the non-blank sentences: the first one, unless
   * it is a lead-in and another follows, in which case the second.
   */
  function MainSentence(sentences: seq<string>): (r: string)
    requires |sentences| >= 1
    ensures r in sentences[..if |sentences| > 1 then 2 else 1]
    ensures r != sentences[0] ==> IsIrrelevant(sentences[0])
  {
    if |sentences| > 1 && IsIrrelevant(sentences[0]) then sentences[1] else sentences[0]
  }

  /**
   * `clean_translation`: the sentences of `text`, if any, reduced to the
   * main one, cleaned up and given a final period; `text` itself otherwise.
   */
  function CleanTranslation(text: string): (r: string)
    ensures NoSentence(text) ==> r == text
    ensures !NoSentence(text) ==>
      |r| >= 2 && r[|r| - 1] == '.' && '.' !in r[..|r| - 1] && IsNormal(r[..|r| - 1])
  {
    var sentences := Sentences(Split(text, '.'));
    CleanFacts(text, sentences);
    if |sentences| == 0 then text
    else FinalCleanup(MainSentence(sentences)) + "."
  }

  /** The contract of `CleanTranslation`, for the sentences it computes. */
  lemma CleanFacts(text: string, sentences: seq<string>)
    requires sentences == Sentences(Split(text, '.'))
    ensures sentences == [] <==> NoSentence(text)
    ensures sentences != [] ==> var r := FinalCleanup(MainSentence(sentences)) + ".";
      |r| >= 2 && r[|r| - 1] == '.' && '.' !in r[..|r| - 1] && IsNormal(r[..|r| - 1])
  {
    NoSentenceIffNoSentences(text);
    if sentences != [] {
      SentencesPeriodFree(Split(text, '.'));
      var main := MainSentence(sentences);
      var k := if main == sentences[0] then 0 else 1;
      assert main == sentences[k];
      CleanedSentenceShape(main);
    }
  }

  /** A sentence without a period, cleaned up and given one, ends in its only period. */
  lemma CleanedSentenceShape(main: string)
    requires IsSentence(main) && '.' !in main
    ensures var r := FinalCleanup(main) + ".";
      |r| >= 2 && r[|r| - 1] == '.' && '.' !in r[..|r| - 1] && IsNormal(r[..|r| - 1])
  {
    var cleaned := FinalCleanup(main);
    NonSpaceHas(main, '.');
    NonSpaceHas(cleaned, '.');
    NonSpaceEmpty(main);
    NonSpaceEmpty(cleaned);
    assert (cleaned + ".")[..|cleaned|] == cleaned;
  }

  /** The sentences of a text whose first segment is `first`. */
  lemma SentencesCons(first: string, rest: string)
    requires '.' !in first
    ensures Sentences(Split(first + "." + rest, '.'))
         == (if Blank(first) then [] else [Strip(first)]) + Sentences(Split(rest, '.'))
  {
    SplitCons(first, '.', rest);
    var segments := Split(first + "." + rest, '.');
    assert segments[1..] == Split(rest, '.');
  }

  /**
   * When the first segment is a sentence with no lead-in, it is the result,
   * whatever follows it.
   */
  lemma FirstSentenceKept(first: string, rest: string)
    requires '.' !in first && !Blank(first)
    requires !IsIrrelevant(Strip(first))
    ensures CleanTranslation(first + "." + rest) == FinalCleanup(Strip(first)) + "."
  {
    var sentences := Sentences(Split(first + "." + rest, '.'));
    SentencesCons(first, rest);
    assert sentences != [] && sentences[0] == Strip(first);
    assert MainSentence(sentences) == Strip(first);
    CleanBySentences(first + "." + rest, sentences);
  }

  /** A text without a period is its own one sentence, kept even when it is a lead-in. */
  lemma SingleSegmentKept(text: string)
    requires '.' !in text && !Blank(text)
    ensures CleanTranslation(text) == FinalCleanup(Strip(text)) + "."
  {
    SplitNone(text, '.');
    assert Sentences([text]) == [Strip(text)];
  }

  /** A normal sentence with no period only gains the period. */
  lemma NormalSentenceGetsPeriod(text: string)
    requires '.' !in text && text != "" && IsNormal(text)
    ensures CleanTranslation(text) == text + "."
  {
    SingleSegmentKept(text);
  }

  /**
   * When the first sentence is a lead-in and a second sentence follows, the
   * second is the result: its case is kept and it is not checked again.
   */
  lemma FallbackToSecond(first: string, second: string, tail: string)
    requires '.' !in first && !Blank(first) && IsIrrelevant(Strip(first))
    requires '.' !in second && !Blank(second)
    requires tail == "" || tail[0] == '.'
    ensures CleanTranslation(first + "." + second + tail) == FinalCleanup(Strip(second)) + "."
  {
    var rest := second + tail;
    var text := first + "." + rest;
    Associative(first + ".", second, tail);
    SentencesCons(first, rest);
    LeadingSentence(second, tail);
    var later := Sentences(Split(rest, '.'));
    var sentences := [Strip(first)] + later;
    assert Sentences(Split(text, '.')) == sentences;
    MainSkipsLeadIn(Strip(first), later);
    assert MainSentence(sentences) == Strip(second);
    CleanBySentences(text, sentences);
  }

  /** A lead-in followed by another sentence hands over to that sentence. */
  lemma MainSkipsLeadIn(lead: string, later: seq<string>)
    requires IsIrrelevant(lead) && later != []
    ensures MainSentence([lead] + later) == later[0]
  {
  }

  /** `clean_translation` depends on the text only through its sentences. */
  lemma CleanBySentences(text: string, sentences: seq<string>)
    requires Sentences(Split(text, '.')) == sentences && sentences != []
    ensures CleanTranslation(text) == FinalCleanup(MainSentence(sentences)) + "."
  {
  }

  /** A sentence followed by nothing or by a period is the first sentence. */
  lemma LeadingSentence(second: string, tail: string)
    requires '.' !in second && !Blank(second)
    requires tail == "" || tail[0] == '.'
    ensures var later := Sentences(Split(second + tail, '.'));
      later != [] && later[0] == Strip(second)
  {
    if tail == "" {
      SplitNone(second, '.');
      assert second + tail == second;
      assert Sentences([second]) == [Strip(second)];
    } else {
      assert second + tail == second + "." + tail[1..];
      SentencesCons(second, tail[1..]);
    }
  }

  /** A blank segment before the first sentence is skipped. */
  lemma BlankSegmentSkipped(blank: string, text: string)
    requires '.' !in blank && Blank(blank)
    requires !NoSentence(text)
    ensures CleanTranslation(blank + "." + text) == CleanTranslation(text)
  {
    SentencesCons(blank, text);
    var both := Sentences(Split(blank + "." + text, '.'));
    var alone := Sentences(Split(text, '.'));
    assert both == alone;
    NoSentenceIffNoSentences(text);
    assert |alone| > 0;
  }

  /**
   * A blank segment between two others is skipped too, so whatever blank
   * segments separate the first sentence from the second, `sentences[1]` is
   * the same.
   */
  lemma BlankSegmentBetween(pre: string, blank: string, rest: string)
    requires '.' !in blank && Blank(blank)
    requires !NoSentence(pre + "." + rest)
    ensures CleanTranslation(pre + "." + blank + "." + rest) == CleanTranslation(pre + "." + rest)
  {
    SentencesWithBlank(pre, blank, rest);
    var sentences := Sentences(Split(pre + "." + rest, '.'));
    NoSentenceIffNoSentences(pre + "." + rest);
    CleanBySentences(pre + "." + blank + "." + rest, sentences);
    CleanBySentences(pre + "." + rest, sentences);
  }

  lemma SentencesWithBlank(pre: string, blank: string, rest: string)
    requires '.' !in blank && Blank(blank)
    ensures Sentences(Split(pre + "." + blank + "." + rest, '.')) == Sentences(Split(pre + "." + rest, '.'))
  {
    var head, tail := Split(pre, '.'), Split(rest, '.');
    SplitWithBlank(pre, blank, rest);
    SplitConcat(pre, '.', rest);
    SentencesConcat(head, [blank] + tail);
    SentencesConcat([blank], tail);
    SentencesSingle(blank);
    assert [] + Sentences(tail) == Sentences(tail);
    SentencesConcat(head, tail);
  }

  lemma SplitWithBlank(pre: string, blank: string, rest: string)
    requires '.' !in blank
    ensures Split(pre + "." + blank + "." + rest, '.') == Split(pre, '.') + ([blank] + Split(rest, '.'))
  {
    Regroup(pre, '.', blank, rest);
    SplitConcat(pre, '.', blank + "." + rest);
    SplitConcat(blank, '.', rest);
    SplitNone(blank, '.');
  }

  /** Cleaning twice is cleaning once. */
  lemma CleanTranslationIdempotent(text: string)
    ensures CleanTranslation(CleanTranslation(text)) == CleanTranslation(text)
  {
    if !NoSentence(text) {
      var r := CleanTranslation(text);
      var s := r[..|r| - 1];
      assert r == s + ".";
      CleanSentenceFixed(s);
    }
  }

  /** A normal sentence with its one final period is left as it is. */
  lemma CleanSentenceFixed(s: string)
    requires s != "" && IsNormal(s) && '.' !in s
    ensures CleanTranslation(s + ".") == s + "."
  {
    assert !Blank(s) by {
      assert !IsSpace(s[0]);
    }
    assert Strip(s) == s;
    PeriodEndedSentence(s);
    OneSentenceClean(s + ".", s);
    assert FinalCleanup(s) == s;
  }

  /** A text with one sentence is cleaned to that sentence. */
  lemma OneSentenceClean(text: string, sentence: string)
    requires Sentences(Split(text, '.')) == [sentence]
    ensures CleanTranslation(text) == FinalCleanup(sentence) + "."
  {
    assert MainSentence([sentence]) == sentence;
  }

  /** A sentence closed by one period is the one sentence of that text. */
  lemma PeriodEndedSentence(s: string)
    requires '.' !in s && !Blank(s)
    ensures Sentences(Split(s + ".", '.')) == [Strip(s)]
  {
    var segments := Split(s + ".", '.');
    assert s + "." == s + ['.'] + "";
    SplitCons(s, '.', "");
    SplitNone("", '.');
    assert segments == [s] + [""];
    SentencesConcat([s], [""]);
    SentencesSingle(s);
    SentencesSingle("");
  }

  /** A sentence that opens with a lead-in phrase, in any case, is a lead-in. */
  lemma OpensWithLeadIn(sentence: string, phrase: string)
    requires phrase in LeadInPhrases && IsPrefix(phrase, Lower(sentence))
    ensures IsIrrelevant(sentence)
  {
    assert Lower(sentence)[0..] == Lower(sentence);
    IrrelevantIffPhrase(sentence);
  }

  /**
   * Both sentences of "It's time to eat. Let's go home." are lead-ins, so by
   * `FallbackToSecond` the second is kept although it is one too.
   */
  lemma BothSentencesLeadIns(first: string, second: string)
    requires first == "It's time to eat" && second == "Let's go home"
    ensures IsIrrelevant(first) && IsIrrelevant(second)
  {
    assert Lower(first) == "it's time to eat";
    OpensWithLeadIn(first, "it's time");
    assert Lower(second) == "let's go home";
    OpensWithLeadIn(second, "let's go");
  }

  /** An accepted input is sent to the model behind the instruction prefix. */
  lemma PromptExample()
    ensures Submit(Some("Dia tanya pasal apa")) == Prompt(Prefix + "Dia tanya pasal apa")
  {
    var input := "Dia tanya pasal apa";
    assert !IsSpace(input[0]);
    assert !Blank(input);
  }

  /** Whitespace alone is rejected before any generation. */
  lemma BlankInputExample()
    ensures Submit(Some("   ")) == Rejected(EmptyInputMessage)
  {
    assert Blank("   ");
  }
}
