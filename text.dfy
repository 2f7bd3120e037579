/**
 * The Python string operations the translation normaliser is built from:
 * `str.isspace` (which is also what `\s` matches in a str pattern),
 * `str.strip`, `re.sub(r'\s+', ' ', s)`, `str.split` on one character and
 * `str.lower` restricted to ASCII letters.
 */
module Text {

  /** Python's `str.isspace()` for one character: the code points it accepts. */
  predicate IsSpace(c: char) {
    ('\t' <= c <= '\r') || ('\U{1C}' <= c <= ' ') || c == '\U{85}' || c == '\U{A0}'
    || c == '\U{1680}' || ('\U{2000}' <= c <= '\U{200A}') || c == '\U{2028}'
    || c == '\U{2029}' || c == '\U{202F}' || c == '\U{205F}' || c == '\U{3000}'
  }

  /** Every character is whitespace, so `s.strip()` is empty and falsy. */
  predicate Blank(s: string) {
    forall i :: 0 <= i < |s| ==> IsSpace(s[i])
  }

  /** The characters of `s` that are not whitespace, in order. */
  function NonSpace(s: string): string {
    if s == "" then "" else (if IsSpace(s[0]) then "" else [s[0]]) + NonSpace(s[1..])
  }

  lemma {:induction false} NonSpaceConcat(a: string, b: string)
    ensures NonSpace(a + b) == NonSpace(a) + NonSpace(b)
  {
    if a == "" {
      assert a + b == b;
    } else {
      assert (a + b)[0] == a[0] && (a + b)[1..] == a[1..] + b;
      NonSpaceConcat(a[1..], b);
    }
  }

  lemma {:induction false} NonSpaceEmpty(s: string)
    ensures NonSpace(s) == "" <==> Blank(s)
  {
    if s != "" {
      NonSpaceEmpty(s[1..]);
      assert Blank(s) <==> IsSpace(s[0]) && Blank(s[1..]);
    }
  }

  /** A character that is not whitespace survives in `NonSpace`, and nothing else appears there. */
  lemma {:induction false} NonSpaceHas(s: string, c: char)
    requires !IsSpace(c)
    ensures c in s <==> c in NonSpace(s)
  {
    if s != "" {
      NonSpaceHas(s[1..], c);
      assert c in s <==> s[0] == c || c in s[1..];
    }
  }

  /** `s.lstrip()` */
  function TrimStart(s: string): (r: string)
    ensures |r| <= |s| && r == s[|s| - |r|..]
    ensures Blank(s[..|s| - |r|])
    ensures r == "" || !IsSpace(r[0])
    decreases |s|
  {
    if s != "" && IsSpace(s[0]) then TrimStart(s[1..]) else s
  }

  /** `s.rstrip()` */
  function TrimEnd(s: string): (r: string)
    ensures |r| <= |s| && r == s[..|r|]
    ensures Blank(s[|r|..])
    ensures r == "" || !IsSpace(r[|r| - 1])
    decreases |s|
  {
    if s != "" && IsSpace(s[|s| - 1]) then
      var r := TrimEnd(s[..|s| - 1]);
      assert s[|r|..] == s[..|s| - 1][|r|..] + [s[|s| - 1]];
      r
    else s
  }

  /** `s.lstrip()` removes only whitespace. */
  lemma TrimStartKeepsContent(s: string)
    ensures NonSpace(TrimStart(s)) == NonSpace(s)
  {
    var t := TrimStart(s);
    assert s == s[..|s| - |t|] + t;
    NonSpaceConcat(s[..|s| - |t|], t);
    NonSpaceEmpty(s[..|s| - |t|]);
  }

  /** `s.rstrip()` removes only whitespace. */
  lemma TrimEndKeepsContent(s: string)
    ensures NonSpace(TrimEnd(s)) == NonSpace(s)
  {
    var t := TrimEnd(s);
    assert s == t + s[|t|..];
    NonSpaceConcat(t, s[|t|..]);
    NonSpaceEmpty(s[|t|..]);
  }

  /**
   * `s.strip()`: whitespace removed at both ends and nowhere else (the
   * result is a slice with only whitespace around it); empty
   * exactly when `s` is blank, unchanged when `s` has no whitespace at
   * either end.
   */
  function Strip(s: string): (r: string)
    ensures NonSpace(r) == NonSpace(s)
    ensures r == "" <==> Blank(s)
    ensures r != "" ==> !IsSpace(r[0]) && !IsSpace(r[|r| - 1])
    ensures s == "" || (!IsSpace(s[0]) && !IsSpace(s[|s| - 1])) ==> r == s
    ensures exists a: nat :: TrimmedTo(s, r, a)
  {
    StripFacts(s, TrimStart(s), TrimEnd(TrimStart(s)));
    TrimEnd(TrimStart(s))
  }

  /** The contract of `Strip`, gathered for its two steps `t` and `r`. */
  lemma StripFacts(s: string, t: string, r: string)
    requires t == TrimStart(s) && r == TrimEnd(t)
    ensures NonSpace(r) == NonSpace(s)
    ensures r == "" <==> Blank(s)
    ensures r != "" ==> !IsSpace(r[0]) && !IsSpace(r[|r| - 1])
    ensures s == "" || (!IsSpace(s[0]) && !IsSpace(s[|s| - 1])) ==> r == s
    ensures exists a: nat :: TrimmedTo(s, r, a)
  {
    StripContent(s, t, r);
    StripEnds(s, t, r);
    var a: nat := |s| - |t|;
    StripSlice(s, t, r);
    assert TrimmedTo(s, r, a);
  }

  /** `r` is the slice of `s` at `a` and all around it is whitespace. */
  predicate TrimmedTo(s: string, r: string, a: nat) {
    a + |r| <= |s| && r == s[a..a + |r|] && Blank(s[..a]) && Blank(s[a + |r|..])
  }

  lemma StripSlice(s: string, t: string, r: string)
    requires t == TrimStart(s) && r == TrimEnd(t)
    ensures TrimmedTo(s, r, |s| - |t|)
  {
    SliceInSlice(s, t, r, |s| - |t|);
  }

  lemma SliceInSlice(s: string, t: string, r: string, a: nat)
    requires a <= |s| && t == s[a..] && Blank(s[..a])
    requires |r| <= |t| && r == t[..|r|] && Blank(t[|r|..])
    ensures TrimmedTo(s, r, a)
  {
    assert r == s[a..a + |r|];
    assert t[|r|..] == s[a + |r|..];
  }

  lemma StripContent(s: string, t: string, r: string)
    requires t == TrimStart(s) && r == TrimEnd(t)
    ensures NonSpace(r) == NonSpace(s)
    ensures r == "" <==> Blank(s)
  {
    TrimStartKeepsContent(s);
    TrimEndKeepsContent(t);
    NonSpaceEmpty(s);
    NonSpaceEmpty(r);
  }

  lemma StripEnds(s: string, t: string, r: string)
    requires t == TrimStart(s) && r == TrimEnd(t)
    ensures r != "" ==> !IsSpace(r[0]) && !IsSpace(r[|r| - 1])
    ensures s == "" || (!IsSpace(s[0]) && !IsSpace(s[|s| - 1])) ==> r == s
  {
    if r != "" {
      assert r[0] == t[0];
    }
    if s != "" && !IsSpace(s[0]) && !IsSpace(s[|s| - 1]) {
      assert t == s;
    }
  }

  /**
   * At index `i`, whitespace is a plain `' '` and is not followed by more
   * whitespace.
   */
  predicate SingleSpacedAt(s: string, i: nat)
    requires i < |s|
  {
    IsSpace(s[i]) ==> s[i] == ' ' && (i + 1 == |s| || !IsSpace(s[i + 1]))
  }

  /** Whitespace occurs only as single `' '` characters. */
  predicate SingleSpaced(s: string) {
    forall i: nat :: i < |s| ==> SingleSpacedAt(s, i)
  }

  lemma SliceSingleSpaced(s: string, k: nat, m: nat)
    requires SingleSpaced(s) && k <= m <= |s|
    ensures SingleSpaced(s[k..m])
  {
    var t := s[k..m];
    forall i: nat | i < |t|
      ensures SingleSpacedAt(t, i)
    {
      assert SingleSpacedAt(s, k + i);
      assert t[i] == s[k + i];
      assert i + 1 < |t| ==> t[i + 1] == s[k + i + 1];
    }
  }

  /** Stripping a single-spaced text leaves it single-spaced. */
  lemma StripKeepsSingleSpaced(s: string)
    requires SingleSpaced(s)
    ensures SingleSpaced(Strip(s))
  {
    var t := TrimStart(s);
    TrimStartSingleSpaced(s, t);
    TrimEndSingleSpaced(t, TrimEnd(t));
  }

  lemma TrimStartSingleSpaced(s: string, t: string)
    requires SingleSpaced(s) && t == TrimStart(s)
    ensures SingleSpaced(t)
  {
    SuffixSingleSpaced(s, |s| - |t|);
  }

  lemma SuffixSingleSpaced(s: string, k: nat)
    requires SingleSpaced(s) && k <= |s|
    ensures SingleSpaced(s[k..])
  {
    SliceSingleSpaced(s, k, |s|);
    assert s[k..|s|] == s[k..];
  }

  lemma TrimEndSingleSpaced(t: string, r: string)
    requires SingleSpaced(t) && r == TrimEnd(t)
    ensures SingleSpaced(r)
  {
    assert r == t[0..|r|];
    SliceSingleSpaced(t, 0, |r|);
  }

  /** Putting one character in front keeps a text single-spaced unless it makes a run. */
  lemma SingleSpacedCons(c: char, t: string)
    requires SingleSpaced(t)
    requires IsSpace(c) ==> c == ' ' && (t == "" || !IsSpace(t[0]))
    ensures SingleSpaced([c] + t)
  {
    var s := [c] + t;
    forall i: nat | i < |s|
      ensures SingleSpacedAt(s, i)
    {
      if i > 0 {
        assert SingleSpacedAt(t, i - 1);
        assert s[i] == t[i - 1];
        assert i + 1 < |s| ==> s[i + 1] == t[i];
      }
    }
  }

  /** `re.sub(r'\s+', ' ', s)`: each maximal run of whitespace becomes one space. */
  function CollapseSpaces(s: string): (r: string)
    ensures r == "" <==> s == ""
    ensures s != "" ==> (IsSpace(r[0]) <==> IsSpace(s[0]))
    decreases |s|
  {
    if s == "" then ""
    else if IsSpace(s[0]) then " " + CollapseSpaces(TrimStart(s))
    else [s[0]] + CollapseSpaces(s[1..])
  }

  /** Collapsing keeps every character that is not whitespace, in order. */
  lemma {:induction false} CollapseKeepsContent(s: string)
    ensures NonSpace(CollapseSpaces(s)) == NonSpace(s)
    decreases |s|
  {
    if s != "" {
      if IsSpace(s[0]) {
        var t := TrimStart(s);
        CollapseKeepsContent(t);
        TrimStartKeepsContent(s);
        NonSpaceConcat(" ", CollapseSpaces(t));
        assert NonSpace(" ") == "";
      } else {
        CollapseKeepsContent(s[1..]);
        assert s == [s[0]] + s[1..];
        NonSpaceConcat([s[0]], s[1..]);
        NonSpaceConcat([s[0]], CollapseSpaces(s[1..]));
      }
    }
  }

  /** The collapsed text ends in whitespace exactly when the original does. */
  lemma {:induction false} CollapseKeepsLast(s: string)
    requires s != ""
    ensures IsSpace(CollapseSpaces(s)[|CollapseSpaces(s)| - 1]) <==> IsSpace(s[|s| - 1])
    decreases |s|
  {
    if IsSpace(s[0]) {
      var t := TrimStart(s);
      if t == "" {
        BlankLast(s);
      } else {
        CollapseKeepsLast(t);
        LastAfterSpace(s, t);
      }
    } else if |s| > 1 {
      CollapseKeepsLast(s[1..]);
      LastAfterChar(s);
    }
  }

  lemma BlankLast(s: string)
    requires s != "" && IsSpace(s[0]) && TrimStart(s) == ""
    ensures CollapseSpaces(s) == " " && IsSpace(s[|s| - 1])
  {
    CollapseStep(s);
    BlankHead(s, TrimStart(s));
  }

  lemma LastAfterSpace(s: string, t: string)
    requires s != "" && IsSpace(s[0]) && t == TrimStart(s) && t != ""
    ensures var r, rt := CollapseSpaces(s), CollapseSpaces(t);
      r[|r| - 1] == rt[|rt| - 1] && s[|s| - 1] == t[|t| - 1]
  {
    CollapseStep(s);
    LastOfConcat(" ", CollapseSpaces(t));
    LastOfConcat(s[..|s| - |t|], t);
  }

  lemma LastAfterChar(s: string)
    requires |s| > 1 && !IsSpace(s[0])
    ensures var r, rt := CollapseSpaces(s), CollapseSpaces(s[1..]);
      r[|r| - 1] == rt[|rt| - 1]
  {
    LastOfConcat([s[0]], CollapseSpaces(s[1..]));
  }

  /** One step of `CollapseSpaces` at a leading run of whitespace. */
  lemma CollapseStep(s: string)
    requires s != "" && IsSpace(s[0])
    ensures CollapseSpaces(s) == " " + CollapseSpaces(TrimStart(s))
  {
  }

  /** What `lstrip` removed from `s`, leaving `t`, is whitespace up to the end when `t` is empty. */
  lemma BlankHead(s: string, t: string)
    requires s != "" && t == TrimStart(s) && t == ""
    ensures IsSpace(s[|s| - 1])
  {
    var head := s[..|s| - |t|];
    assert head[|s| - 1] == s[|s| - 1];
  }

  lemma LastOfConcat(x: string, y: string)
    requires y != ""
    ensures (x + y)[|x + y| - 1] == y[|y| - 1]
  {
  }

  /**
   * `re.sub` works run by run: text cut where no whitespace run is split
   * collapses part by part.
   */
  lemma {:induction false} CollapseConcat(a: string, c: string)
    requires a == "" || c == "" || !IsSpace(a[|a| - 1]) || !IsSpace(c[0])
    ensures CollapseSpaces(a + c) == CollapseSpaces(a) + CollapseSpaces(c)
    decreases |a|
  {
    if a == "" {
      assert a + c == c;
    } else if !IsSpace(a[0]) {
      if a[1..] != "" {
        assert a[1..][|a[1..]| - 1] == a[|a| - 1];
      }
      CollapseConcat(a[1..], c);
      ConcatCharCase(a, c);
    } else {
      var t := TrimStart(a);
      TrimStartShorter(a);
      if t != "" {
        CollapseConcat(t, c);
        ConcatRunCase(a, c, t);
      } else {
        BlankHead(a, t);
        ConcatBlankCase(a, c);
      }
    }
  }

  lemma ConcatCharCase(a: string, c: string)
    requires a != "" && !IsSpace(a[0])
    requires CollapseSpaces(a[1..] + c) == CollapseSpaces(a[1..]) + CollapseSpaces(c)
    ensures CollapseSpaces(a + c) == CollapseSpaces(a) + CollapseSpaces(c)
  {
    CollapseCharStep(a, c);
  }

  lemma ConcatRunCase(a: string, c: string, t: string)
    requires a != "" && IsSpace(a[0]) && t == TrimStart(a) && t != ""
    requires CollapseSpaces(t + c) == CollapseSpaces(t) + CollapseSpaces(c)
    ensures CollapseSpaces(a + c) == CollapseSpaces(a) + CollapseSpaces(c)
  {
    TrimStartConcat(a, c);
    CollapseStepConcat(a, c);
    CollapseStep(a);
    Associative(" ", CollapseSpaces(t), CollapseSpaces(c));
  }

  lemma ConcatBlankCase(a: string, c: string)
    requires a != "" && IsSpace(a[0]) && TrimStart(a) == ""
    requires c == "" || !IsSpace(c[0])
    ensures CollapseSpaces(a + c) == CollapseSpaces(a) + CollapseSpaces(c)
  {
    TrimStartPast(a, c);
    CollapseStepConcat(a, c);
    BlankLast(a);
  }

  lemma TrimStartPast(a: string, c: string)
    requires TrimStart(a) == "" && (c == "" || !IsSpace(c[0]))
    ensures TrimStart(a + c) == c
  {
    TrimStartConcat(a, c);
  }

  lemma CollapseStepConcat(a: string, c: string)
    requires a != "" && IsSpace(a[0])
    ensures CollapseSpaces(a + c) == " " + CollapseSpaces(TrimStart(a + c))
  {
    assert (a + c)[0] == a[0];
  }

  /** `lstrip` of text that starts with whitespace is shorter and keeps the last character. */
  lemma TrimStartShorter(a: string)
    requires a != "" && IsSpace(a[0])
    ensures |TrimStart(a)| < |a|
    ensures TrimStart(a) != "" ==> TrimStart(a)[|TrimStart(a)| - 1] == a[|a| - 1]
  {
    assert TrimStart(a) == TrimStart(a[1..]);
  }

  /** One step of `CollapseSpaces` at a leading character that is not whitespace. */
  lemma CollapseCharStep(a: string, c: string)
    requires a != "" && !IsSpace(a[0])
    ensures CollapseSpaces(a + c) == [a[0]] + CollapseSpaces(a[1..] + c)
    ensures CollapseSpaces(a) == [a[0]] + CollapseSpaces(a[1..])
  {
    assert (a + c)[0] == a[0];
    assert (a + c)[1..] == a[1..] + c;
  }

  /** `lstrip` of a concatenation: it stops inside `a` unless `a` is all whitespace. */
  lemma {:induction false} TrimStartConcat(a: string, c: string)
    ensures TrimStart(a) != "" ==> TrimStart(a + c) == TrimStart(a) + c
    ensures TrimStart(a) == "" && (c == "" || !IsSpace(c[0])) ==> TrimStart(a + c) == c
    decreases |a|
  {
    if a == "" {
      assert a + c == c;
    } else {
      assert (a + c)[0] == a[0];
      if IsSpace(a[0]) {
        assert (a + c)[1..] == a[1..] + c;
        TrimStartConcat(a[1..], c);
      }
    }
  }

  /** Whitespace is all that `lstrip` finds in blank text. */
  lemma {:induction false} BlankTrimStart(w: string)
    requires Blank(w)
    ensures TrimStart(w) == ""
    decreases |w|
  {
    if w != "" {
      assert Blank(w[1..]) by {
        assert forall i :: 0 <= i < |w[1..]| ==> w[1..][i] == w[i + 1];
      }
      BlankTrimStart(w[1..]);
    }
  }

  /**
   * A whitespace run between two words becomes exactly one space: the
   * words are neither glued together nor kept apart by more.
   */
  lemma CollapseWordBreak(a: string, w: string, b: string)
    requires a == "" || !IsSpace(a[|a| - 1])
    requires w != "" && Blank(w)
    requires b == "" || !IsSpace(b[0])
    ensures CollapseSpaces(a + w + b) == CollapseSpaces(a) + " " + CollapseSpaces(b)
  {
    CollapseConcat(a, w + b);
    RunBeforeWord(w, b);
    Associative(a, w, b);
    Associative(CollapseSpaces(a), " ", CollapseSpaces(b));
  }

  lemma Associative<T>(x: seq<T>, y: seq<T>, z: seq<T>)
    ensures x + y + z == x + (y + z)
  {
  }

  lemma RunBeforeWord(w: string, b: string)
    requires w != "" && Blank(w)
    requires b == "" || !IsSpace(b[0])
    ensures CollapseSpaces(w + b) == " " + CollapseSpaces(b)
  {
    BlankTrimStart(w);
    TrimStartConcat(w, b);
    assert (w + b)[0] == w[0];
    CollapseStep(w + b);
  }

  /** Every run of whitespace in the collapsed text is one plain space. */
  lemma {:induction false} CollapseSingleSpaces(s: string)
    ensures SingleSpaced(CollapseSpaces(s))
    decreases |s|
  {
    if s != "" {
      if IsSpace(s[0]) {
        CollapseSingleSpaces(TrimStart(s));
        SingleSpacedCons(' ', CollapseSpaces(TrimStart(s)));
      } else {
        CollapseSingleSpaces(s[1..]);
        SingleSpacedCons(s[0], CollapseSpaces(s[1..]));
      }
    }
  }

  /** One step of `CollapseSpaces` on single-spaced text that starts with a space. */
  lemma CollapseLeadingSpace(s: string)
    requires SingleSpaced(s) && s != "" && IsSpace(s[0])
    ensures CollapseSpaces(s) == " " + CollapseSpaces(s[1..])
  {
    assert SingleSpacedAt(s, 0);
    assert TrimStart(s[1..]) == s[1..];
  }

  /** Text that is already single-spaced is left as it is. */
  lemma {:induction false} CollapseSingleSpaced(s: string)
    requires SingleSpaced(s)
    ensures CollapseSpaces(s) == s
    decreases |s|
  {
    if s != "" {
      SliceSingleSpaced(s, 1, |s|);
      assert s[1..|s|] == s[1..];
      CollapseSingleSpaced(s[1..]);
      if IsSpace(s[0]) {
        CollapseLeadingSpace(s);
        assert SingleSpacedAt(s, 0);
      }
      assert s == [s[0]] + s[1..];
    }
  }

  /** Index of the first occurrence of `c` in `s`, or `|s|` when there is none. */
  function IndexOf(s: string, c: char): (i: nat)
    ensures i <= |s|
    ensures i < |s| ==> s[i] == c
    ensures forall j :: 0 <= j < i ==> s[j] != c
    decreases |s|
  {
    if s == "" then 0 else if s[0] == c then 0 else 1 + IndexOf(s[1..], c)
  }

  /** `sep.join(parts)` */
  function Join(parts: seq<string>, sep: char): string
    requires |parts| >= 1
  {
    if |parts| == 1 then parts[0] else parts[0] + [sep] + Join(parts[1..], sep)
  }

  /**
   * `s.split(sep)`: at least one part, no part holds `sep`, and joining
   * the parts with `sep` gives `s` back.
   */
  function Split(s: string, sep: char): (parts: seq<string>)
    ensures |parts| >= 1
    ensures forall k :: 0 <= k < |parts| ==> sep !in parts[k]
    ensures Join(parts, sep) == s
    decreases |s|
  {
    var i := IndexOf(s, sep);
    if i == |s| then [s]
    else
      var rest := Split(s[i + 1..], sep);
      assert s == s[..i] + [sep] + s[i + 1..];
      [s[..i]] + rest
  }

  /** A part without `sep` ends at the first `sep`. */
  lemma SplitCons(a: string, sep: char, t: string)
    requires sep !in a
    ensures Split(a + [sep] + t, sep) == [a] + Split(t, sep)
  {
    var s := a + [sep] + t;
    assert s[|a|] == sep;
    assert IndexOf(s, sep) == |a|;
    assert s[..|a|] == a && s[|a| + 1..] == t;
  }

  lemma SplitNone(a: string, sep: char)
    requires sep !in a
    ensures Split(a, sep) == [a]
  {
  }

  /** Splitting at one separator splits the text into the parts of each side. */
  lemma {:induction false} SplitConcat(x: string, sep: char, y: string)
    ensures Split(x + [sep] + y, sep) == Split(x, sep) + Split(y, sep)
    decreases |x|
  {
    if sep !in x {
      SplitCons(x, sep, y);
      SplitNone(x, sep);
    } else {
      var pre, post := FirstSeparator(x, sep);
      SplitCons(pre, sep, post);
      SplitConcat(post, sep, y);
      Regroup(pre, sep, post, y);
      SplitCons(pre, sep, post + [sep] + y);
      Associative([pre], Split(post, sep), Split(y, sep));
    }
  }

  /** The text before the first separator and the text after it. */
  lemma FirstSeparator(x: string, sep: char) returns (pre: string, post: string)
    requires sep in x
    ensures sep !in pre && x == pre + [sep] + post && |post| < |x|
  {
    var k :| 0 <= k < |x| && x[k] == sep;
    var i := IndexOf(x, sep);
    assert i <= k;
    pre, post := x[..i], x[i + 1..];
    assert x == pre + [sep] + post;
  }

  lemma Regroup(pre: string, sep: char, post: string, y: string)
    ensures pre + [sep] + post + [sep] + y == pre + [sep] + (post + [sep] + y)
  {
  }

  /** `Split` inverts `Join` on parts that do not contain the separator. */
  lemma {:induction false} SplitJoin(parts: seq<string>, sep: char)
    requires |parts| >= 1
    requires forall k :: 0 <= k < |parts| ==> sep !in parts[k]
    ensures Split(Join(parts, sep), sep) == parts
  {
    if |parts| == 1 {
      SplitNone(parts[0], sep);
    } else {
      SplitJoin(parts[1..], sep);
      SplitCons(parts[0], sep, Join(parts[1..], sep));
    }
  }

  /** ASCII `str.lower()` for one character: only a capital letter changes. */
  function LowerChar(c: char): (r: char)
    ensures !('A' <= r <= 'Z')
    ensures !('A' <= c <= 'Z') ==> r == c
    ensures 'A' <= c <= 'Z' ==> 'a' <= r <= 'z' && r as int - 'a' as int == c as int - 'A' as int
  {
    if 'A' <= c <= 'Z' then (c as int + 32) as char else c
  }

  /** ASCII `str.lower()`: same length, each letter lowered in place. */
  function Lower(s: string): (r: string)
    ensures |r| == |s|
    ensures forall i :: 0 <= i < |r| ==> !('A' <= r[i] <= 'Z')
    ensures forall i :: 0 <= i < |s| ==> r[i] == LowerChar(s[i])
  {
    seq(|s|, i requires 0 <= i < |s| => LowerChar(s[i]))
  }

  /** Lowering lowered text changes nothing. */
  lemma LowerIdempotent(s: string)
    ensures Lower(Lower(s)) == Lower(s)
  {
    var l := Lower(s);
    assert forall i :: 0 <= i < |l| ==> Lower(l)[i] == LowerChar(l[i]) == l[i];
  }

  predicate IsPrefix(p: string, s: string) {
    |p| <= |s| && s[..|p|] == p
  }

  /** `w` occurs somewhere in `s` (an unanchored literal search). */
  predicate Contains(s: string, w: string) {
    exists i :: 0 <= i <= |s| && IsPrefix(w, s[i..])
  }
}
