# ROJAK translator: verified model of its pure logic

ROJAK is a Streamlit application that translates Malaysian code-switched
text (Malay mixed with English) into English with a fine-tuned T5 model. It
also has an account page backed by Firebase Authentication. Most of the
application is user interface and calls to the model or to Firebase. This
project models the parts that are plain logic and proves what they do:

- `clean_translation` (`app3.py`), which reduces the decoded model output
  to one sentence:
  - It splits the text on `'.'` and drops blank segments.
  - It keeps the first sentence. If that sentence contains one of six
    "irrelevant lead-in" patterns and a second sentence exists, it keeps
    the second sentence instead.
  - It collapses whitespace, strips the ends and adds a single `'.'`.
- The chat-input guard in `main` (`app3.py`): no input or an empty input
  does nothing, and a non-empty whitespace-only input is rejected. Any
  other input is sent to the model behind the prefix
  `"terjemah ke Inggeris: "`.
- The two validators of the account page (`pages/3_Account.py`):
  - the e-mail check `re.match(r"[^@]+@[^@]+\.[^@]+", ...)`;
  - the password check (upper-case letter, digit and special character,
    at least eight characters from a fixed alphabet).
- The account page's navigation over the session keys `account_page`,
  `user` and `remember_me`. A run of the script is one step driven by the
  button pressed, the text typed and the outcome of the Firebase call.
- `ensure_punctuation` (`tests/unit_tests/test_unit_translation.py`): it
  refuses blank text and otherwise adds a period unless the text already
  ends in `.`, `!` or `?`.

Files, one module each:

- `wrappers.dfy`: `Option` and `Result`.
- `text.dfy`: the Python string operations used: `str.isspace`, `strip`,
  `re.sub(r'\s+', ' ', ...)`, `split('.')`, ASCII `lower` and substring
  search.
- `lead_in.dfy`: the six lead-in patterns as a small pattern language, with
  `re.search` as a backtracking search. It proves that a sentence is a
  lead-in exactly when its lower-cased form contains one of eight literal
  phrases.
- `translation.dfy`: `clean_translation` and the input guard.
- `account_validators.dfy`: both validators. Each is written as what its
  regular expression matches and proved equal to a plain-words rule.
- `account_page.dfy`: the navigation as a specification function `Step`,
  and the class `AccountSession`, whose methods update the three session
  keys in place and are proved to follow `Step`.
- `punctuation.dfy`: `ensure_punctuation`.

Signing in only looks the address up (`auth.get_user_by_email`). The
password must be non-empty, but it is never checked against anything. The
lemma `AccountPage.LoginIgnoresPassword` states this.

## Model

| member | source | states |
|---|---|---|
| Text.Strip | app3.py:62 | `s.strip()` is a slice of `s` with only whitespace on either side of it. It keeps every non-whitespace character of `s` in order. It is empty exactly when `s` is blank. Its ends are not whitespace. It equals `s` when `s` has no whitespace at either end. |
| Text.TrimStart | app3.py:62 | `lstrip` returns a suffix of `s`. Everything it drops is whitespace. It starts with a non-space character or is empty. |
| Text.TrimEnd | app3.py:62 | `rstrip` returns a prefix of `s`. Everything it drops is whitespace. It ends with a non-space character or is empty. |
| Text.Split | app3.py:62 | `text.split('.')` has at least one part. No part contains `'.'`. Joining the parts with `'.'` gives the text back. |
| Text.SplitConcat | app3.py:62 | Splitting `x + sep + y` gives the parts of `x` followed by the parts of `y`. |
| Text.SplitJoin | app3.py:62 | Splitting inverts joining for parts that contain no separator. |
| Text.SplitCons | app3.py:62 | A first part without the separator ends at the first separator. |
| Text.CollapseKeepsContent | app3.py:86 | `re.sub(r'\s+', ' ', s)` keeps every non-whitespace character in order. |
| Text.CollapseSpaces | app3.py:86 | `re.sub(r'\s+', ' ', s)` is empty exactly when `s` is. It starts with whitespace exactly when `s` does. |
| Text.CollapseConcat | app3.py:86 | Where two texts do not meet in the middle of a whitespace run, collapsing their concatenation collapses each one separately. |
| Text.CollapseWordBreak | app3.py:86 | A non-empty whitespace run between two words becomes exactly one `' '`. It is never deleted and never merged with a word. |
| Text.CollapseSingleSpaces | app3.py:86 | After `re.sub(r'\s+', ' ', s)`, every whitespace run is a single `' '`. |
| Text.CollapseKeepsLast | app3.py:86 | The collapsed text ends in whitespace exactly when the original does. |
| Text.CollapseSingleSpaced | app3.py:86 | Text that is already single-spaced is left unchanged. |
| Text.IndexOf | app3.py:62 | Returns the first occurrence of the separator, or the length when there is none. |
| Text.IsSpace | app3.py:62 | Defines `str.isspace()` for one character as the code points Python accepts (`\t` to `\r`, `\x1c` to space, U+0085, U+00A0, U+1680, U+2000 to U+200A, U+2028, U+2029, U+202F, U+205F, U+3000). It has no contract of its own: `Strip`, `Blank` and `CollapseSpaces` build on it. |
| Text.LowerChar | app3.py:82 | `c.lower()` on ASCII: the result is never an upper-case ASCII letter. Any other character is unchanged. An upper-case letter maps to the lower-case letter at the same position in the alphabet. |
| Text.Lower | app3.py:82 | `s.lower()` keeps the length and lowers each character by `LowerChar`: upper-case ASCII letters become lower case, and every other character stays. No upper-case ASCII letter is left. |
| Text.LowerIdempotent | app3.py:82 | Lower-casing twice is the same as lower-casing once. |
| LeadIn.MatchesPrefixIffExpansion | app3.py:70-77 | A pattern with optional characters matches at the start of a text exactly when one of its literal expansions is a prefix of that text. |
| LeadIn.SearchIffContains | app3.py:82 | `re.search` with such a pattern succeeds exactly when some expansion occurs in the text. |
| LeadIn.AnySearchIff | app3.py:82 | `any(re.search(p, s) for p in patterns)` holds exactly when some pattern in the list matches. |
| LeadIn.PatternExpansions | app3.py:70-77 | `it'?s time` stands for "it's time" and "its time". `let'?s go` stands for "let's go" and "lets go". The other four patterns stand for themselves. |
| LeadIn.IrrelevantIffPhrase | app3.py:70-82 | A sentence is a lead-in exactly when its lower-cased form contains one of the eight phrases. |
| LeadIn.MatchesPrefix | app3.py:71-76 | Defines a match of a pattern anchored at the start of a text, with backtracking over each optional character. It has no contract of its own: `MatchesPrefixIffExpansion` characterises it. |
| LeadIn.Search | app3.py:82 | Defines `re.search`: an anchored match at some position of the text. It has no contract of its own: `SearchIffContains` characterises it. |
| LeadIn.AnySearch | app3.py:82 | Defines `any(...)` over the patterns, tried in order. It has no contract of its own: `AnySearchIff` characterises it. |
| LeadIn.IsIrrelevant | app3.py:82 | Defines the lead-in test: some pattern of `irrelevant_patterns` is found in the lower-cased sentence. It has no contract of its own: `IrrelevantIffPhrase` characterises it. |
| Translation.Submit | app3.py:121-128 | No input or the empty string does nothing. A non-empty whitespace-only input is rejected with the error message. Any other input becomes the prompt: the prefix followed by the unaltered input. |
| Translation.PromptDeterminesInput | app3.py:127-128 | Two accepted inputs give the same prompt only if they are equal. |
| Translation.BlankInputExample | app3.py:123-124 | An input of three spaces is rejected. |
| Translation.PromptExample | app3.py:127-128 | "Dia tanya pasal apa" is sent as the prefix followed by that text. |
| Translation.Sentences | app3.py:62 | The list comprehension keeps at most one entry per segment. Every entry is non-empty, with no whitespace at either end. `SentencesConcat` and `SentencesSingle` state exactly which entries it keeps. |
| Translation.SentenceOf | app3.py:62 | Defines what one segment contributes to the list comprehension: nothing when it is blank, otherwise its stripped form. `SentencesConcat` and `SentencesSingle` build the whole comprehension from it. |
| Translation.SentencesConcat | app3.py:62 | The sentences of two lists of segments are the sentences of the first followed by those of the second. |
| Translation.SentencesSingle | app3.py:62 | The sentences of a single segment are what `SentenceOf` gives for it. Together with `SentencesConcat`, this fixes the whole comprehension. |
| Translation.SentencesEmptyIffBlank | app3.py:62-63 | The sentence list is empty exactly when every segment is blank. |
| Translation.SentencesPeriodFree | app3.py:62 | Sentences cut from period-free segments contain no period. |
| Translation.NoSentenceIffNoSentences | app3.py:62-63 | `sentences` is empty exactly when the text consists only of whitespace and periods. |
| Translation.FinalCleanup | app3.py:86-87 | The cleanup leaves the sentence single-spaced, with no whitespace at either end, and keeps its non-whitespace characters. It does not change a sentence that is already in that form. |
| Translation.CleanupKeepsWordBreak | app3.py:86-87 | Two normal words separated by any non-empty whitespace run are cleaned to the two words with one `' '` between them. |
| Translation.MainSentence | app3.py:67-83 | The main sentence is one of the first two sentences. It differs from the first sentence only when the first is a lead-in. |
| Translation.CleanTranslation | app3.py:57-89 | Text with no sentence (only whitespace and periods) is returned unchanged. Any other text gives a result of at least two characters. Its only period is the last character. The text before that period is non-empty, single-spaced and has no whitespace at either end. |
| Translation.FirstSentenceKept | app3.py:67-89 | If the first segment is a sentence and not a lead-in, the result is that sentence cleaned up plus a period, whatever follows. |
| Translation.SingleSegmentKept | app3.py:81-89 | A text with no period is its own single sentence, and it is kept even when it is a lead-in. |
| Translation.OneSentenceClean | app3.py:62-89 | A text with exactly one sentence gives that sentence, cleaned up, plus a period, whether or not it is a lead-in, and whatever blank segments or periods surround it. |
| Translation.NormalSentenceGetsPeriod | app3.py:62-89 | A non-empty, period-free sentence that is already single-spaced and trimmed only gains the final period. |
| Translation.FallbackToSecond | app3.py:81-83 | If the first sentence is a lead-in and a second sentence directly follows, the result is the second sentence cleaned up plus a period. The second sentence keeps its case and is not checked again. With `BlankSegmentBetween`, this also covers blank segments between the two sentences. |
| Translation.MainSkipsLeadIn | app3.py:81-83 | After a lead-in, the main sentence is the next one. |
| Translation.BlankSegmentSkipped | app3.py:62 | A blank segment before the first sentence does not change the result. |
| Translation.BlankSegmentBetween | app3.py:62 | In a text that holds a sentence, a blank segment between two periods does not change the result, wherever it sits. (A text of only periods is returned as it is, so there the segment does matter.) |
| Translation.CleanTranslationIdempotent | app3.py:57-89 | Cleaning twice gives the same result as cleaning once. |
| Translation.CleanSentenceFixed | app3.py:57-89 | A normal sentence already closed by its one period is returned as it is. |
| Translation.OpensWithLeadIn | app3.py:82 | A sentence that opens with a lead-in phrase in any letter case is a lead-in. |
| Translation.BothSentencesLeadIns | app3.py:71-82 | "It's time to eat" and "Let's go home" are both lead-ins, yet `FallbackToSecond` keeps the second one as the main sentence. |
| AccountValidators.DomainMatches | pages/3_Account.py:50 | The scan after the '@' succeeds exactly when the domain part of the pattern matches. |
| AccountValidators.IsValidEmail | pages/3_Account.py:50 | Accepts exactly the strings that start with: a non-empty run without '@', then '@', then a non-empty run without '@', then '.', then a character other than '@'. Whatever follows is ignored. |
| AccountValidators.EmailPattern | pages/3_Account.py:50 | Defines what `[^@]+@[^@]+\.[^@]+` matches at the start of a string, with the position of the '@' chosen by the regex engine. It has no contract of its own: `IsValidEmail` is proved equal to it. |
| AccountValidators.NoAtRefused | pages/3_Account.py:50 | An address without '@' is refused. |
| AccountValidators.LeadingAtRefused | pages/3_Account.py:50 | An address that starts with '@' is refused. |
| AccountValidators.TrailingIgnored | pages/3_Account.py:50 | Anything appended to a valid address leaves it valid, because `re.match` anchors only at the start. |
| AccountValidators.TestAddressAccepted | tests/integration_tests/test_integration_translation.py:29 | "testuser1234@gmail.com" is valid. |
| AccountValidators.IsValidPassword | pages/3_Account.py:53 | The three lookaheads and the anchored run hold exactly when the password, less one final line break, has at least eight characters. All of them must come from `[A-Za-z0-9@$!%*?&]`, with at least one upper-case letter, one digit and one of `@$!%*?&`. |
| AccountValidators.Body | pages/3_Account.py:53 | The text `$` anchors against: the password less its final line break when it ends in `'\n'`, and the password itself otherwise. |
| AccountValidators.PasswordIff | pages/3_Account.py:53 | The regex's meaning equals the plain-words rules. |
| AccountValidators.LookAheadWithinRun | pages/3_Account.py:53 | Inside a run of password characters, `(?=.*X)` sees exactly the characters of that run. |
| AccountValidators.TestPasswordAccepted | tests/integration_tests/test_integration_translation.py:30 | "Test@12345" is valid. |
| AccountValidators.FinalLineBreakAccepted | pages/3_Account.py:53 | A valid password followed by one '\n' is still accepted. |
| AccountValidators.ShortPasswordRefused | pages/3_Account.py:53 | A password of fewer than eight characters is refused. |
| AccountPage.WithPage | pages/3_Account.py:73-74 | An unset `account_page` becomes `"login"`. A set one is left alone. `user` and `remember_me` never change. |
| AccountPage.AfterRememberMe | pages/3_Account.py:56-59 | A remembered, signed-in user is sent to the profile page. Otherwise the state is unchanged. |
| AccountPage.Shown | pages/3_Account.py:56-77 | A remembered, signed-in user is shown the profile page. Without that, an unset page is shown as the login page, and a set page is shown as it is. |
| AccountPage.OnLogin | pages/3_Account.py:80-107 | The box is stored. "Login" with a valid address and a non-empty password looks up the typed address, and only then is a request made. The page becomes the profile exactly when that lookup succeeds. `user` is then set to the typed address, and it changes at no other time. "Forgot Password?" moves to the reset page and "Go to Sign Up" to the sign-up page. Every other run, including an invalid address, an empty password or a failed lookup, changes nothing but the stored box. |
| AccountPage.OnSignUp | pages/3_Account.py:110-131 | `user` and `remember_me` never change. "Sign Up" with a valid address and password calls `create_user` with them, and only then is a request made. The page returns to login exactly on "Back to Login" or a successful `create_user`. Otherwise nothing changes. |
| AccountPage.OnPasswordReset | pages/3_Account.py:134-146 | `user` and `remember_me` never change. "Send Reset Link" with a valid address asks for the reset link, and only then is a request made. The page returns to login exactly on "Back to Login". Otherwise nothing changes. |
| AccountPage.OnProfile | pages/3_Account.py:149-180 | It makes no request. "Logout" is pressed exactly when the run ends with no user, on the login page, with `remember_me` false. Otherwise nothing changes. |
| AccountPage.Step | pages/3_Account.py:73-180 | In one run: a lookup happens only from the login page, for a valid address with a non-empty password. An account is created only from the sign-up page, for a valid address and password. A reset link is requested only for a valid address. `user` changes only by a successful lookup of the typed address or by logging out. The profile page is reached from the login page only by a successful lookup of the typed address. |
| AccountPage.StepKeepsValid | pages/3_Account.py:56-178 | Every run keeps this invariant: the profile page is shown only with a user set, and that user's address passed `is_valid_email`. |
| AccountPage.FreshSessionStartsAtLogin | pages/3_Account.py:73-84 | A new session shows the login page and stores the box. |
| AccountPage.RememberedUserStaysOnProfile | pages/3_Account.py:56-180 | A remembered, signed-in user stays on the profile page until logging out. |
| AccountPage.LoginSucceeds | pages/3_Account.py:86-97 | On the login page, a valid address, a non-empty password and a successful lookup sign the user in. The page moves to the profile and the box is stored. |
| AccountPage.LoginFails | pages/3_Account.py:86-99 | On the login page, a valid address and a non-empty password with a failed lookup leave `user` unchanged. The page stays on login and the box is stored. |
| AccountPage.LogoutClears | pages/3_Account.py:175-178 | Logout sets `user` to None and `remember_me` to False, and returns to the login page. It makes no Firebase call. |
| AccountPage.SignUpKeepsUser | pages/3_Account.py:110-131 | Signing up never changes `user`. |
| AccountPage.SignUpOutcome | pages/3_Account.py:115-125 | Valid input makes `create_user` be called. A successful call moves back to the login page; a failed one stays on the sign-up page. |
| AccountPage.LoginIgnoresPassword | pages/3_Account.py:86-97 | The outcome of "Login" is the same for every non-empty password. |
| AccountPage.NavigationButtons | pages/3_Account.py:101-146 | "Forgot Password?" moves from login to the reset page. "Go to Sign Up" moves from login to the sign-up page. Each "Back to Login" returns to login. |
| AccountPage.AccountSession.constructor | pages/3_Account.py:73 | A new session has no key set, and it satisfies the invariant `Valid`. |
| AccountPage.AccountSession.InitPage | pages/3_Account.py:73-74 | Updates the fields as `WithPage` says. |
| AccountPage.AccountSession.CheckRememberMe | pages/3_Account.py:56-59 | Updates the fields as `AfterRememberMe` says. |
| AccountPage.AccountSession.LoginForm | pages/3_Account.py:80-107 | Updates the fields and makes the request that `OnLogin` gives. |
| AccountPage.AccountSession.SignUpForm | pages/3_Account.py:110-131 | Updates the fields and makes the request that `OnSignUp` gives. |
| AccountPage.AccountSession.PasswordResetForm | pages/3_Account.py:134-146 | Updates the fields and makes the request that `OnPasswordReset` gives. |
| AccountPage.AccountSession.ProfilePage | pages/3_Account.py:149-180 | Updates the fields as `OnProfile` says. |
| AccountPage.AccountSession.Run | pages/3_Account.py:73-180 | One run of the page follows `Step` and keeps `Valid`. |
| AccountPage.SignUpThenSignIn | pages/3_Account.py:56-131 | A session that signs up, then signs in with the box ticked, ends on the profile page with that user remembered. The final state satisfies `Valid`. |
| Punctuation.EnsurePunctuation | tests/unit_tests/test_unit_translation.py:34-39 | Fails exactly on blank text, with the error message. Otherwise the text is a prefix of the result, at most one character is added, and the result ends in `.`, `!` or `?`. Text already ending in one of those is unchanged. Any other text gets `"."` appended. |
| Punctuation.EnsurePunctuationIdempotent | tests/unit_tests/test_unit_translation.py:37-39 | Applying it to its own successful result changes nothing. |
| Punctuation.EmptyInputRefused | tests/unit_tests/test_unit_translation.py:41-43 | The empty string is refused. |
| Punctuation.TrailingSpaceKept | tests/unit_tests/test_unit_translation.py:37-38 | Text ending in a space keeps it, and the period goes after it. |

## Left out

- The model itself is not modelled: loading, tokenisation, `model.generate`, decoding and the decoding hyper-parameters (`app3.py`). This is machine-learning inference; the hyper-parameters are constants, and the temperature is a float.
- Streamlit rendering, CSS, messages shown to the user and `st.rerun()` are not modelled. A rerun is treated as the next run with no button pressed.
- Firebase initialisation (`pages/3_Account.py:16-21`) is not modelled. Each authentication call becomes an `AuthRequest` value, and its outcome becomes the `authOk` field of an `Event`.
- The Firestore reads on the profile page are not modelled (`pages/3_Account.py:153-172`): the profile picture and the translation count. The model takes them to succeed. In the code, an exception from `user_doc_ref.get()` (line 155) or from the stream at lines 170-171 ends the run before the "Logout" button at line 175 is drawn. `OnProfile`, `LogoutClears` and `RememberedUserStaysOnProfile` always reach that button.
- Text.Lower: lowers ASCII letters only; Python's `str.lower()` also lowers other Unicode letters.
- AccountValidators.IsValidPassword: `\d` is taken as the ASCII digits only; Python's `\d` also matches other Unicode decimal digits.
- The tests import `clean_translation` from a `Home` module that is not part of this model. The model follows the version in `app3.py`.
- The login form's `st.session_state.remember_me = st.checkbox(...)` is modelled as storing the box's value on every run of the login page, as the code does. The value the box shows after a rerun is not modelled.

## Behaviour worth noting

- A fallback keeps the second sentence's own case. The code lower-cases
  only to match the patterns, so "It's time to eat. Let's go home." becomes
  "Let's go home." (`Translation.FallbackToSecond`,
  `Translation.BothSentencesLeadIns`).
- `if chat_input:` makes the empty string a no-op. Only a non-empty,
  whitespace-only input reaches the error message (`Translation.Submit`).
- Input without a '.' comes back with only a '.' appended only when it is
  already trimmed and single-spaced (`Translation.NormalSentenceGetsPeriod`).
  "  hi" becomes "hi." (`Translation.SingleSegmentKept`). Blank text comes
  back unchanged (`Translation.CleanTranslation`).
