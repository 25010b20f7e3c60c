/**
 LIKE and ILIKE: '%' matches any run, '_' any character, and a backslash takes
 the next pattern character literally.
 */
module SqlLike {
  import opened JsText

  const ESCAPE: char := '\\'

  predicate IsWild(c: char) {
    c == '%' || c == '_' || c == ESCAPE
  }

  /** same says which characters count as equal: equality for LIKE, case folding for ILIKE. */
  predicate Matches(same: (char, char) -> bool, p: string, s: string)
    decreases |p| + |s|
  {
    if p == "" then s == ""
    else if p[0] == '%' then Matches(same, p[1..], s) || (s != "" && Matches(same, p, s[1..]))
    else if s == "" then false
    else if p[0] == '_' then Matches(same, p[1..], s[1..])
    else if p[0] == ESCAPE then |p| > 1 && same(p[1], s[0]) && Matches(same, p[2..], s[1..])
    else same(p[0], s[0]) && Matches(same, p[1..], s[1..])
  }

  ghost predicate Reflexive(same: (char, char) -> bool) {
    forall c :: same(c, c)
  }

  lemma {:induction false} PercentMatchesAll(same: (char, char) -> bool, s: string)
    ensures Matches(same, "%", s)
    decreases |s|
  {
    if s != "" {
      PercentMatchesAll(same, s[1..]);
    } else {
      assert "%"[1..] == "";
    }
  }

  /** A leading '%' skips any number of characters. */
  lemma {:induction false} PercentSkips(same: (char, char) -> bool, p: string, s: string)
    ensures Matches(same, "%" + p, s) <==> exists k :: 0 <= k <= |s| && Matches(same, p, s[k..])
    decreases |s|
  {
    var q := "%" + p;
    assert q[1..] == p;
    assert s[0..] == s;
    if s != "" {
      PercentSkips(same, p, s[1..]);
      if k :| 0 <= k <= |s| && Matches(same, p, s[k..]) {
        assert k > 0 ==> s[1..][k - 1..] == s[k..];
      }
      if k :| 0 <= k <= |s[1..]| && Matches(same, p, s[1..][k..]) {
        assert s[1..][k..] == s[k + 1..];
      }
    }
  }

  /** As a pattern, text without a backslash matches itself and whatever follows, wildcards and all. */
  lemma {:induction false} MatchesItself(same: (char, char) -> bool, x: string, b: string)
    requires Reflexive(same) && ESCAPE !in x
    ensures Matches(same, x + "%", x + b)
    decreases |x|
  {
    var p, s := x + "%", x + b;
    if x == "" {
      assert p == "%" && s == b;
      PercentMatchesAll(same, b);
    } else {
      assert p[1..] == x[1..] + "%" && s[1..] == x[1..] + b;
      assert p[0] == x[0] == s[0] && x[0] in x;
      MatchesItself(same, x[1..], b);
    }
  }

  /** Text containing x is found by the pattern '%x%' when x has no backslash. */
  lemma InfixMatches(same: (char, char) -> bool, x: string, t: string)
    requires Reflexive(same) && ESCAPE !in x && Infix(x, t)
    ensures Matches(same, "%" + x + "%", t)
  {
    var a, b := InfixSplit(x, t);
    assert t[|a|..] == x + b;
    MatchesItself(same, x, b);
    PercentSkips(same, x + "%", t);
    assert "%" + (x + "%") == "%" + x + "%";
  }

  /** s starts with x, character by character. */
  predicate StartsAlike(same: (char, char) -> bool, x: string, s: string) {
    x == "" || (s != "" && same(x[0], s[0]) && StartsAlike(same, x[1..], s[1..]))
  }

  /** x stands in s from position k on. */
  predicate SameAt(same: (char, char) -> bool, x: string, s: string, k: nat) {
    k <= |s| && StartsAlike(same, x, s[k..])
  }

  /** Nothing is left to escape at the end. */
  predicate Closed(p: string) {
    if p == "" then true
    else if p[0] == ESCAPE then |p| > 1 && Closed(p[2..])
    else Closed(p[1..])
  }

  /** No wildcard outside the reach of a backslash. */
  predicate Bare(p: string) {
    if p == "" then true
    else if p[0] == ESCAPE then |p| > 1 ==> Bare(p[2..])
    else p[0] != '%' && p[0] != '_' && Bare(p[1..])
  }

  /** What a bare pattern asks for: its characters without the quoting backslashes. */
  function Unquoted(p: string): string {
    if p == "" then ""
    else if p[0] == ESCAPE then if |p| == 1 then "" else [p[1]] + Unquoted(p[2..])
    else [p[0]] + Unquoted(p[1..])
  }

  /** The pattern 'p%' means: starts with what p asks for. */
  lemma {:induction false} QuotedPrefix(same: (char, char) -> bool, p: string, s: string)
    requires Closed(p) && Bare(p)
    ensures Matches(same, p + "%", s) <==> StartsAlike(same, Unquoted(p), s)
    decreases |p|
  {
    var q := p + "%";
    if p == "" {
      assert q == "%";
      PercentMatchesAll(same, s);
    } else {
      var n := if p[0] == ESCAPE then 2 else 1;
      assert q[0] == p[0] && q[n..] == p[n..] + "%" && q[n - 1] == p[n - 1];
      var u := Unquoted(p[n..]);
      assert Unquoted(p) == [p[n - 1]] + u && ([p[n - 1]] + u)[1..] == u;
      if s != "" {
        QuotedPrefix(same, p[n..], s[1..]);
      }
    }
  }

  /** The pattern '%p%' means: contains what p asks for. */
  lemma QuotedContains(same: (char, char) -> bool, p: string, s: string)
    requires Closed(p) && Bare(p)
    ensures Matches(same, "%" + p + "%", s) <==> exists k: nat :: SameAt(same, Unquoted(p), s, k)
  {
    hide Matches, Closed, Bare, Unquoted, StartsAlike;
    PercentSkips(same, p + "%", s);
    assert "%" + (p + "%") == "%" + p + "%";
    if k :| 0 <= k <= |s| && Matches(same, p + "%", s[k..]) {
      QuotedPrefix(same, p, s[k..]);
      assert SameAt(same, Unquoted(p), s, k);
    }
    if k: nat :| SameAt(same, Unquoted(p), s, k) {
      QuotedPrefix(same, p, s[k..]);
    }
  }

  lemma {:induction false} PlainIsItself(x: string)
    requires forall c :: c in x ==> !IsWild(c)
    ensures Closed(x) && Bare(x) && Unquoted(x) == x
  {
    if x != "" {
      assert x[0] in x;
      PlainIsItself(x[1..]);
    }
  }

  /** Without wildcards the pattern 'x%' means: starts with x. */
  lemma PlainPrefix(same: (char, char) -> bool, x: string, s: string)
    requires forall c :: c in x ==> !IsWild(c)
    ensures Matches(same, x + "%", s) <==> StartsAlike(same, x, s)
  {
    hide Matches, Closed, Bare, Unquoted, StartsAlike;
    PlainIsItself(x);
    QuotedPrefix(same, x, s);
  }

  /** Without wildcards the pattern '%x%' means: contains x. */
  lemma PlainContains(same: (char, char) -> bool, x: string, s: string)
    requires forall c :: c in x ==> !IsWild(c)
    ensures Matches(same, "%" + x + "%", s) <==> exists k: nat :: SameAt(same, x, s, k)
  {
    hide Matches, Closed, Bare, Unquoted, SameAt;
    PlainIsItself(x);
    QuotedContains(same, x, s);
  }

  // --------------------------------------------------------- needles with a backslash

  /** A closed pattern followed by '%' goes on matching when text is appended. */
  lemma {:induction false} AppendKeepsMatch(same: (char, char) -> bool, p: string, s: string, b: string)
    requires Closed(p) && Matches(same, p + "%", s)
    ensures Matches(same, p + "%", s + b)
    decreases |p| + |s|
  {
    var q := p + "%";
    if p == "" {
      assert q == "%";
      PercentMatchesAll(same, s + b);
    } else {
      assert q[0] == p[0] && q[1..] == p[1..] + "%";
      assert s != "" ==> (s + b)[1..] == s[1..] + b && (s + b)[0] == s[0];
      if p[0] == '%' {
        if Matches(same, q[1..], s) {
          AppendKeepsMatch(same, p[1..], s, b);
        } else {
          AppendKeepsMatch(same, p, s[1..], b);
        }
      } else if p[0] == ESCAPE {
        assert q[2..] == p[2..] + "%" && q[1] == p[1];
        AppendKeepsMatch(same, p[2..], s[1..], b);
      } else {
        AppendKeepsMatch(same, p[1..], s[1..], b);
      }
    }
  }

  /** A pattern that ends in a lone backslash turns the '%' after it into a literal. */
  lemma {:induction false} OpenNeedsPercent(same: (char, char) -> bool, p: string, s: string)
    requires !Closed(p) && Matches(same, p + "%", s)
    ensures s != "" && same('%', s[|s| - 1])
    decreases |p| + |s|
  {
    var q := p + "%";
    assert q[0] == p[0] && q[1..] == p[1..] + "%";
    if p[0] == '%' {
      if Matches(same, q[1..], s) {
        OpenNeedsPercent(same, p[1..], s);
      } else {
        OpenNeedsPercent(same, p, s[1..]);
      }
    } else if p[0] == ESCAPE {
      if |p| == 1 {
        assert q[1] == '%' && q[2..] == "";
        assert s[1..] == "";
      } else {
        assert q[2..] == p[2..] + "%" && q[1] == p[1];
        OpenNeedsPercent(same, p[2..], s[1..]);
      }
    } else {
      OpenNeedsPercent(same, p[1..], s[1..]);
    }
  }

  lemma {:induction false} OpenEndsInEscape(p: string)
    requires !Closed(p)
    ensures p != "" && p[|p| - 1] == ESCAPE
    decreases |p|
  {
    if p[0] == ESCAPE {
      if |p| > 1 {
        OpenEndsInEscape(p[2..]);
      }
    } else {
      OpenEndsInEscape(p[1..]);
    }
  }

  lemma PrependKeepsMatch(same: (char, char) -> bool, p: string, a: string, s: string)
    requires Matches(same, "%" + p, s)
    ensures Matches(same, "%" + p, a + s)
  {
    hide Matches;
    PercentSkips(same, p, s);
    PercentSkips(same, p, a + s);
    var k :| 0 <= k <= |s| && Matches(same, p, s[k..]);
    assert (a + s)[|a| + k..] == s[k..];
  }

  /** The needle's own pattern finds the needle. */
  predicate FindsItself(same: (char, char) -> bool, x: string) {
    Matches(same, "%" + x + "%", x)
  }

  /** A needle whose own pattern finds it is found wherever it occurs. */
  lemma SelfFoundIsFound(same: (char, char) -> bool, x: string, t: string)
    requires !same('%', ESCAPE) && FindsItself(same, x) && Infix(x, t)
    ensures Matches(same, "%" + x + "%", t)
  {
    hide Matches, Closed, Infix;
    var p := "%" + x;
    assert p + "%" == "%" + (x + "%");
    if !Closed(p) {
      OpenNeedsPercent(same, p, x);
      OpenEndsInEscape(p);
    } else {
      var a, b := InfixSplit(x, t);
      AppendKeepsMatch(same, p, x, b);
      PrependKeepsMatch(same, x + "%", a, x + b);
      assert a + (x + b) == t;
    }
  }

  /**
   The exact reach of the name search: a needle is found in every text that
   contains it if and only if its pattern finds the needle itself.
   */
  lemma FoundEverywhere(same: (char, char) -> bool, x: string)
    requires Reflexive(same) && !same('%', ESCAPE)
    ensures FindsItself(same, x) <==> forall t :: Infix(x, t) ==> Matches(same, "%" + x + "%", t)
    ensures ESCAPE !in x ==> FindsItself(same, x)
  {
    hide Matches, Infix;
    assert x == "" + x + "";
    InfixOfParts("", x, "");
    if ESCAPE !in x {
      InfixMatches(same, x, x);
    }
    if FindsItself(same, x) {
      forall t | Infix(x, t)
        ensures Matches(same, "%" + x + "%", t)
      {
        SelfFoundIsFound(same, x, t);
      }
    }
  }

  /**
   Read off the needle: one without unquoted wildcards finds itself exactly when
   no backslash is left over at its end and what remains without the quoting
   backslashes occurs in it.
   */
  lemma FindsItselfExactly(same: (char, char) -> bool, x: string)
    requires Bare(x) && !same('%', ESCAPE)
    ensures FindsItself(same, x) <==> Closed(x) && exists k: nat :: SameAt(same, Unquoted(x), x, k)
  {
    hide Matches, Closed, Bare, Unquoted, SameAt;
    if Closed(x) {
      QuotedContains(same, x, x);
    } else {
      var p := "%" + x;
      assert !Closed(p) by { PercentStaysOpen(x); }
      OpenEndsInEscape(x);
      if Matches(same, p + "%", x) {
        OpenNeedsPercent(same, p, x);
      }
    }
  }

  lemma PercentStaysOpen(x: string)
    ensures Closed("%" + x) <==> Closed(x)
  {
    assert ("%" + x)[1..] == x;
  }
}
