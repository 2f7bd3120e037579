/**
 * The "irrelevant lead-in" patterns of the translation normaliser. Each of
 * the six regular expressions is a literal phrase in which at most one
 * character is made optional with `?`, so a pattern is modelled as a list of
 * atoms (a literal character, or an optional one) and `re.search` as a
 * backtracking search over that list.
 */
module LeadIn {
  import opened Text

  /** One element of a pattern: `c` or `c?`. */
  datatype Atom = Char(c: char) | Optional(c: char)

  type Pattern = seq<Atom>

  /** The pattern that matches the phrase `w` and nothing else. */
  function Literal(w: string): Pattern {
    seq(|w|, i requires 0 <= i < |w| => Char(w[i]))
  }

  /** `p` matches some prefix of `s` (a match attempt anchored at the start of `s`). */
  predicate MatchesPrefix(p: Pattern, s: string)
    decreases |p|
  {
    if p == [] then true
    else match p[0]
      case Char(c) => s != "" && s[0] == c && MatchesPrefix(p[1..], s[1..])
      case Optional(c) => (s != "" && s[0] == c && MatchesPrefix(p[1..], s[1..])) || MatchesPrefix(p[1..], s)
  }

  /** `re.search(p, s)` succeeds: a match starts at some position of `s`. */
  predicate Search(p: Pattern, s: string)
    decreases |s|
  {
    MatchesPrefix(p, s) || (s != "" && Search(p, s[1..]))
  }

  /** Each string of `ws` with `u` in front. */
  function PrependAll(u: string, ws: seq<string>): seq<string> {
    seq(|ws|, i requires 0 <= i < |ws| => u + ws[i])
  }

  /** The literal strings `p` stands for: one per choice of each optional character. */
  function Expansions(p: Pattern): seq<string>
    decreases |p|
  {
    if p == [] then [""]
    else match p[0]
      case Char(c) => PrependAll([c], Expansions(p[1..]))
      case Optional(c) => PrependAll([c], Expansions(p[1..])) + Expansions(p[1..])
  }

  /** A pattern matches a prefix of `s` exactly when one of its expansions is a prefix of `s`. */
  lemma {:induction false} MatchesPrefixIffExpansion(p: Pattern, s: string)
    ensures MatchesPrefix(p, s) <==> exists e :: e in Expansions(p) && IsPrefix(e, s)
    decreases |p|
  {
    if p == [] {
      assert "" in Expansions(p) && IsPrefix("", s);
    } else {
      var rest := Expansions(p[1..]);
      var c := p[0].c;
      var consumed := s != "" && s[0] == c && MatchesPrefix(p[1..], s[1..]);
      if s != "" {
        MatchesPrefixIffExpansion(p[1..], s[1..]);
      }
      // Expansions that start with the consumed character.
      assert consumed ==> exists e :: e in PrependAll([c], rest) && IsPrefix(e, s) by {
        if consumed {
          var e :| e in rest && IsPrefix(e, s[1..]);
          var i :| 0 <= i < |rest| && rest[i] == e;
          var e' := PrependAll([c], rest)[i];
          assert e' == [c] + e;
          assert e' in PrependAll([c], rest);
          assert s[..|e'|] == [s[0]] + s[1..][..|e|];
          assert IsPrefix(e', s);
        }
      }
      assert (exists e :: e in PrependAll([c], rest) && IsPrefix(e, s)) ==> consumed by {
        if e :| e in PrependAll([c], rest) && IsPrefix(e, s) {
          var i :| 0 <= i < |rest| && PrependAll([c], rest)[i] == e;
          assert e == [c] + rest[i];
          assert s[0] == e[0] == c;
          assert s[1..][..|rest[i]|] == s[..|e|][1..] == rest[i];
          assert rest[i] in rest && IsPrefix(rest[i], s[1..]);
        }
      }
      match p[0]
      case Char(_) =>
      case Optional(_) =>
        MatchesPrefixIffExpansion(p[1..], s);
    }
  }

  /** `re.search` finds a pattern exactly when the text contains one of its expansions. */
  lemma {:induction false} SearchIffContains(p: Pattern, s: string)
    ensures Search(p, s) <==> exists e :: e in Expansions(p) && Contains(s, e)
    decreases |s|
  {
    MatchesPrefixIffExpansion(p, s);
    forall e | IsPrefix(e, s)
      ensures Contains(s, e)
    {
      assert s[0..] == s;
    }
    if s != "" {
      SearchIffContains(p, s[1..]);
      // A match inside the tail is a match inside `s`, one position later.
      forall e | e in Expansions(p) && Contains(s[1..], e)
        ensures Contains(s, e)
      {
        var i :| 0 <= i <= |s[1..]| && IsPrefix(e, s[1..][i..]);
        assert s[1..][i..] == s[i + 1..];
      }
      forall e | e in Expansions(p) && Contains(s, e)
        ensures IsPrefix(e, s) || Contains(s[1..], e)
      {
        var i :| 0 <= i <= |s| && IsPrefix(e, s[i..]);
        if i > 0 {
          assert s[1..][i - 1..] == s[i..];
        }
      }
    } else {
      forall e | e in Expansions(p) && Contains(s, e)
        ensures IsPrefix(e, s)
      {
        var i :| 0 <= i <= |s| && IsPrefix(e, s[i..]);
      }
    }
  }

  lemma PrependNothing(ws: seq<string>)
    ensures PrependAll("", ws) == ws
  {
    forall i | 0 <= i < |ws|
      ensures PrependAll("", ws)[i] == ws[i]
    {
      assert "" + ws[i] == ws[i];
    }
  }

  lemma PrependToEmpty(u: string)
    ensures PrependAll(u, [""]) == [u]
  {
    assert u + "" == u;
  }

  /** Literal characters in front of a pattern prefix every expansion. */
  lemma {:induction false} ExpansionsLiteral(u: string, q: Pattern)
    ensures Expansions(Literal(u) + q) == PrependAll(u, Expansions(q))
    decreases |u|
  {
    if u == "" {
      assert Literal(u) + q == q;
      PrependNothing(Expansions(q));
    } else {
      var p := Literal(u) + q;
      assert p[0] == Char(u[0]);
      assert p[1..] == Literal(u[1..]) + q;
      ExpansionsLiteral(u[1..], q);
      var es := Expansions(q);
      forall i | 0 <= i < |es|
        ensures PrependAll([u[0]], PrependAll(u[1..], es))[i] == PrependAll(u, es)[i]
      {
        assert [u[0]] + (u[1..] + es[i]) == u + es[i];
      }
    }
  }

  /** `u c? v` expands to `u c v` and `u v`. */
  lemma ExpansionsOptional(u: string, c: char, v: string)
    ensures Expansions(Literal(u) + [Optional(c)] + Literal(v)) == [u + [c] + v, u + v]
  {
    ExpansionsLiteral(v, []);
    assert Literal(v) + [] == Literal(v);
    PrependToEmpty(v);
    var q := [Optional(c)] + Literal(v);
    assert q[1..] == Literal(v);
    assert Expansions(q) == [[c] + v, v];
    ExpansionsLiteral(u, q);
    assert Literal(u) + [Optional(c)] + Literal(v) == Literal(u) + q;
    assert u + ([c] + v) == u + [c] + v;
  }

  /** A phrase without optional characters expands to itself alone. */
  lemma ExpansionsPhrase(u: string)
    ensures Expansions(Literal(u)) == [u]
  {
    ExpansionsLiteral(u, []);
    assert Literal(u) + [] == Literal(u);
    PrependToEmpty(u);
  }

  /** `it'?s time` */
  const ItsTime: Pattern := Literal("it") + [Optional('\'')] + Literal("s time")
  /** `let'?s go` */
  const LetsGo: Pattern := Literal("let") + [Optional('\'')] + Literal("s go")
  const INeedTo: Pattern := Literal("i need to")
  const IWouldLike: Pattern := Literal("i would like")
  const IAmGoing: Pattern := Literal("i am going")
  const IWill: Pattern := Literal("i will")

  /** The list `irrelevant_patterns`, in its order. */
  const IrrelevantPatterns: seq<Pattern> := [ItsTime, LetsGo, INeedTo, IWouldLike, IAmGoing, IWill]

  /** `any(re.search(pattern, s) for pattern in patterns)`, tried in order. */
  predicate AnySearch(patterns: seq<Pattern>, s: string) {
    patterns != [] && (Search(patterns[0], s) || AnySearch(patterns[1..], s))
  }

  /** `any` finds a match exactly when some pattern of the list matches. */
  lemma {:induction false} AnySearchIff(patterns: seq<Pattern>, s: string)
    ensures AnySearch(patterns, s) <==> exists k :: 0 <= k < |patterns| && Search(patterns[k], s)
  {
    if patterns != [] {
      AnySearchIff(patterns[1..], s);
      if k :| 0 <= k < |patterns| && Search(patterns[k], s) {
        if k > 0 {
          assert patterns[1..][k - 1] == patterns[k];
        }
      }
    }
  }

  /** `any(re.search(pattern, sentence.lower()) for pattern in irrelevant_patterns)` */
  predicate IsIrrelevant(sentence: string) {
    AnySearch(IrrelevantPatterns, Lower(sentence))
  }

  /** The eight literal phrases the six patterns stand for. */
  const LeadInPhrases: seq<string> :=
    ["it's time", "its time", "let's go", "lets go", "i need to", "i would like", "i am going", "i will"]

  /** What each of the six patterns expands to, position by position with `LeadInPhrases`. */
  lemma PatternExpansions()
    ensures Expansions(ItsTime) == LeadInPhrases[0..2]
    ensures Expansions(LetsGo) == LeadInPhrases[2..4]
    ensures Expansions(INeedTo) == [LeadInPhrases[4]]
    ensures Expansions(IWouldLike) == [LeadInPhrases[5]]
    ensures Expansions(IAmGoing) == [LeadInPhrases[6]]
    ensures Expansions(IWill) == [LeadInPhrases[7]]
  {
    ExpansionsOptional("it", '\'', "s time");
    assert "it" + ['\''] + "s time" == "it's time" && "it" + "s time" == "its time";
    assert LeadInPhrases[0..2] == ["it's time", "its time"];
    ExpansionsOptional("let", '\'', "s go");
    assert "let" + ['\''] + "s go" == "let's go" && "let" + "s go" == "lets go";
    assert LeadInPhrases[2..4] == ["let's go", "lets go"];
    ExpansionsPhrase("i need to");
    ExpansionsPhrase("i would like");
    ExpansionsPhrase("i am going");
    ExpansionsPhrase("i will");
  }

  /** The expansions of the `k`-th pattern are the phrases of `LeadInPhrases` it owns. */
  lemma ExpansionsAt(k: nat)
    requires k < |IrrelevantPatterns|
    ensures forall e :: e in Expansions(IrrelevantPatterns[k]) ==> e in LeadInPhrases
  {
    PatternExpansions();
    if k == 0 {
      assert IrrelevantPatterns[k] == ItsTime;
    } else if k == 1 {
      assert IrrelevantPatterns[k] == LetsGo;
    } else if k == 2 {
      assert IrrelevantPatterns[k] == INeedTo;
    } else if k == 3 {
      assert IrrelevantPatterns[k] == IWouldLike;
    } else if k == 4 {
      assert IrrelevantPatterns[k] == IAmGoing;
    } else {
      assert IrrelevantPatterns[k] == IWill;
    }
  }

  /** The pattern that owns the `j`-th phrase of `LeadInPhrases`. */
  lemma OwnerOf(j: nat) returns (k: nat)
    requires j < |LeadInPhrases|
    ensures k < |IrrelevantPatterns| && LeadInPhrases[j] in Expansions(IrrelevantPatterns[k])
  {
    PatternExpansions();
    if j < 2 {
      k := 0;
      assert IrrelevantPatterns[k] == ItsTime;
      assert LeadInPhrases[j] == LeadInPhrases[0..2][j];
    } else if j < 4 {
      k := 1;
      assert IrrelevantPatterns[k] == LetsGo;
      assert LeadInPhrases[j] == LeadInPhrases[2..4][j - 2];
    } else if j == 4 {
      k := 2;
      assert IrrelevantPatterns[k] == INeedTo;
    } else if j == 5 {
      k := 3;
      assert IrrelevantPatterns[k] == IWouldLike;
    } else if j == 6 {
      k := 4;
      assert IrrelevantPatterns[k] == IAmGoing;
    } else {
      k := 5;
      assert IrrelevantPatterns[k] == IWill;
    }
  }

  /**
   * A sentence is irrelevant exactly when its lower-cased form contains one
   * of the eight lead-in phrases.
   */
  lemma IrrelevantIffPhrase(sentence: string)
    ensures IsIrrelevant(sentence) <==> exists w :: w in LeadInPhrases && Contains(Lower(sentence), w)
  {
    var s := Lower(sentence);
    AnySearchIff(IrrelevantPatterns, s);
    if IsIrrelevant(sentence) {
      var k :| 0 <= k < |IrrelevantPatterns| && Search(IrrelevantPatterns[k], s);
      SearchIffContains(IrrelevantPatterns[k], s);
      var e :| e in Expansions(IrrelevantPatterns[k]) && Contains(s, e);
      ExpansionsAt(k);
      assert e in LeadInPhrases;
    }
    if w :| w in LeadInPhrases && Contains(s, w) {
      var j :| 0 <= j < |LeadInPhrases| && LeadInPhrases[j] == w;
      var k := OwnerOf(j);
      SearchIffContains(IrrelevantPatterns[k], s);
      assert Search(IrrelevantPatterns[k], s);
    }
  }
}
