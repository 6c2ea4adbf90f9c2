/** What the scanning functions of the property list compute, said without them: where a literal or a row
    of literals stands first, what trimming takes away, and what a replacement text inserts. */
module PlistReading {
  import opened Outcomes
  import opened LaunchAgentPlist

  ghost predicate AllWhite(s: string) {
    forall i :: 0 <= i < |s| ==> White(s[i])
  }

  ghost predicate BareEnds(s: string) {
    s == "" || (!White(s[0]) && !White(s[|s| - 1]))
  }

  lemma {:induction false} StartTrimmed(s: string) returns (gap: string)
    ensures s == gap + TrimStart(s) && AllWhite(gap) && (TrimStart(s) == "" || !White(TrimStart(s)[0]))
    decreases |s|
  {
    gap := "";
    if s != "" && White(s[0]) {
      var more := StartTrimmed(s[1..]);
      gap := [s[0]] + more;
      assert s == [s[0]] + s[1..];
    }
  }

  lemma {:induction false} EndTrimmed(s: string) returns (gap: string)
    ensures s == TrimEnd(s) + gap && AllWhite(gap) && (TrimEnd(s) == "" || !White(TrimEnd(s)[|TrimEnd(s)| - 1]))
    decreases |s|
  {
    gap := "";
    if s != "" && White(s[|s| - 1]) {
      var more := EndTrimmed(s[..|s| - 1]);
      gap := more + [s[|s| - 1]];
      assert s == s[..|s| - 1] + [s[|s| - 1]];
    }
  }

  /** Trimming takes white space, all of it and nothing else, off both ends. */
  lemma TrimIsExact(s: string) returns (a: string, b: string)
    ensures s == a + Trim(s) + b && AllWhite(a) && AllWhite(b) && BareEnds(Trim(s))
  {
    a := StartTrimmed(s);
    b := EndTrimmed(TrimStart(s));
    assert s == a + (Trim(s) + b);
    if Trim(s) != "" { assert Trim(s)[0] == TrimStart(s)[0]; }
  }

  // ---------------------------------------------------------------------------
  // Literals
  // ---------------------------------------------------------------------------

  ghost predicate StandsAt(s: string, literal: string, i: int) {
    0 <= i <= |s| && literal <= s[i..]
  }

  /** `SplitAt` finds the first place of a literal, and finds one whenever there is one. */
  lemma {:induction false} SplitFindsFirst(s: string, literal: string)
    ensures SplitAt(s, literal).None? <==> forall i :: !StandsAt(s, literal, i)
    ensures SplitAt(s, literal).Some? ==>
              var (before, after) := SplitAt(s, literal).value;
              && s == before + (literal + after) && StandsAt(s, literal, |before|)
              && forall i :: 0 <= i < |before| ==> !StandsAt(s, literal, i)
    decreases |s|
  {
    if literal <= s {
      assert s[0..] == s;
      assert StandsAt(s, literal, 0);
      SplitIsWhole(s, literal);
    } else if s == "" {
      assert s[0..] == s;
    } else {
      SplitFindsFirst(s[1..], literal);
      assert s[0..] == s;
      forall i | 0 < i <= |s| ensures StandsAt(s, literal, i) <==> StandsAt(s[1..], literal, i - 1) {
        assert s[1..][i - 1..] == s[i..];
      }
      if SplitAt(s, literal).Some? {
        SplitIsWhole(s, literal);
      } else {
        forall i ensures !StandsAt(s, literal, i) {
          assert !StandsAt(s[1..], literal, i - 1);
        }
      }
      if i :| StandsAt(s[1..], literal, i) { assert StandsAt(s, literal, i + 1); }
    }
  }

  // ---------------------------------------------------------------------------
  // Rows of literals
  // ---------------------------------------------------------------------------

  /** The literals stand at the start of `s`, with nothing but white space between them, and `rest` follows. */
  ghost predicate Spells(s: string, tokens: seq<string>, rest: string)
    requires tokens != []
    decreases |tokens|
  {
    if |tokens| == 1 then s == tokens[0] + rest
    else exists gap, t :: AllWhite(gap) && s == tokens[0] + (gap + t) && Spells(t, tokens[1..], rest)
  }

  /** No literal but the first may be empty or start with white space. */
  ghost predicate Solid(tokens: seq<string>) {
    forall k :: 1 <= k < |tokens| ==> tokens[k] != "" && !White(tokens[k][0])
  }

  lemma {:induction false} SkipGap(s: string) returns (gap: string)
    ensures s == gap + SkipWhite(s) && AllWhite(gap)
    decreases |s|
  {
    gap := "";
    if s != "" && White(s[0]) {
      var more := SkipGap(s[1..]);
      gap := [s[0]] + more;
      assert s == [s[0]] + s[1..];
    }
  }

  lemma {:induction false} GapIsSkipped(gap: string, t: string)
    requires AllWhite(gap) && t != "" && !White(t[0])
    ensures SkipWhite(gap + t) == t
    decreases |gap|
  {
    if gap == "" {
      assert gap + t == t;
    } else {
      assert (gap + t)[0] == gap[0] && (gap + t)[1..] == gap[1..] + t;
      GapIsSkipped(gap[1..], t);
    }
  }

  lemma SpelledStart(s: string, tokens: seq<string>, rest: string)
    requires tokens != [] && Spells(s, tokens, rest)
    ensures tokens[0] <= s
  {
  }

  lemma {:induction false} MatchSpells(s: string, tokens: seq<string>)
    requires tokens != [] && Match(s, tokens).Some?
    ensures Spells(s, tokens, Match(s, tokens).value)
    decreases |tokens|
  {
    var rest := s[|tokens[0]|..];
    assert s == tokens[0] + rest;
    if |tokens| > 1 {
      MatchSpells(SkipWhite(rest), tokens[1..]);
      var gap := SkipGap(rest);
      assert s == tokens[0] + (gap + SkipWhite(rest));
    }
  }

  lemma {:induction false} SpelledIsMatched(s: string, tokens: seq<string>, rest: string)
    requires tokens != [] && Solid(tokens) && Spells(s, tokens, rest)
    ensures Match(s, tokens) == Some(rest)
    decreases |tokens|
  {
    if |tokens| == 1 {
      assert s[|tokens[0]|..] == rest;
    } else {
      var gap, t :| AllWhite(gap) && s == tokens[0] + (gap + t) && Spells(t, tokens[1..], rest);
      assert s[|tokens[0]|..] == gap + t;
      SpelledStart(t, tokens[1..], rest);
      assert t[0] == tokens[1][0];
      GapIsSkipped(gap, t);
      SpelledIsMatched(t, tokens[1..], rest);
    }
  }

  /** `Match` answers exactly what the literals leave over. */
  lemma MatchIsExact(s: string, tokens: seq<string>, rest: string)
    requires tokens != [] && Solid(tokens)
    ensures Match(s, tokens) == Some(rest) <==> Spells(s, tokens, rest)
  {
    if Match(s, tokens) == Some(rest) { MatchSpells(s, tokens); }
    if Spells(s, tokens, rest) { SpelledIsMatched(s, tokens, rest); }
  }

  ghost predicate MatchesAt(s: string, tokens: seq<string>, i: int)
    requires tokens != []
  {
    0 <= i <= |s| && Match(s[i..], tokens).Some?
  }

  /** `First` finds the leftmost match, and finds one whenever there is one. */
  lemma {:induction false} FirstIsLeftmost(s: string, tokens: seq<string>)
    requires tokens != []
    ensures First(s, tokens).None? <==> forall i :: !MatchesAt(s, tokens, i)
    ensures First(s, tokens).Some? ==>
              var cut := First(s, tokens).value;
              && cut.Whole() == s && MatchesAt(s, tokens, |cut.before|)
              && Match(s[|cut.before|..], tokens) == Some(cut.after)
              && forall i :: 0 <= i < |cut.before| ==> !MatchesAt(s, tokens, i)
    decreases |s|
  {
    assert s[0..] == s;
    if Match(s, tokens).Some? {
      assert MatchesAt(s, tokens, 0);
      FirstIsWhole(s, tokens);
    } else if s != "" {
      FirstIsLeftmost(s[1..], tokens);
      forall i | 0 < i <= |s| ensures MatchesAt(s, tokens, i) <==> MatchesAt(s[1..], tokens, i - 1) {
        assert s[1..][i - 1..] == s[i..];
      }
      if First(s, tokens).Some? {
        FirstIsWhole(s, tokens);
        var cut := First(s[1..], tokens).value;
        assert s[1..][|cut.before|..] == s[|cut.before| + 1..];
      } else {
        forall i ensures !MatchesAt(s, tokens, i) {
          assert !MatchesAt(s[1..], tokens, i - 1);
        }
      }
      if i :| MatchesAt(s[1..], tokens, i) { assert MatchesAt(s, tokens, i + 1); }
    }
  }

  // ---------------------------------------------------------------------------
  // Replacement texts
  // ---------------------------------------------------------------------------

  lemma {:induction false} PlainStays(plain: string, t: string, b: string, m: string, a: string)
    requires '$' !in plain
    ensures Expand(plain + t, b, m, a) == plain + Expand(t, b, m, a)
    decreases |plain|
  {
    if plain == "" {
      assert plain + t == t;
    } else {
      assert (plain + t)[1..] == plain[1..] + t;
      PlainStays(plain[1..], t, b, m, a);
    }
  }

  lemma InsertedAtStart(c: char, rest: string, b: string, m: string, a: string)
    requires IsSpecial(c)
    ensures Expand(['$', c] + rest, b, m, a) == Inserted(c, b, m, a) + Expand(rest, b, m, a)
  {
    assert (['$', c] + rest)[2..] == rest;
  }

  /** What a replacement text inserts behind plain text: a dollar for two, the match, what is before it or
      what is after it. */
  lemma ExpandInserts(plain: string, rest: string, b: string, m: string, a: string)
    requires '$' !in plain
    ensures var e := Expand(rest, b, m, a);
      && Expand(plain + ("$$" + rest), b, m, a) == plain + ("$" + e)
      && Expand(plain + ("$&" + rest), b, m, a) == plain + (m + e)
      && Expand(plain + ("$`" + rest), b, m, a) == plain + (b + e)
      && Expand(plain + ("$'" + rest), b, m, a) == plain + (a + e)
  {
    InsertedAtStart('$', rest, b, m, a);
    InsertedAtStart('&', rest, b, m, a);
    InsertedAtStart('`', rest, b, m, a);
    InsertedAtStart('\'', rest, b, m, a);
    PlainStays(plain, "$$" + rest, b, m, a);
    PlainStays(plain, "$&" + rest, b, m, a);
    PlainStays(plain, "$`" + rest, b, m, a);
    PlainStays(plain, "$'" + rest, b, m, a);
  }
}
