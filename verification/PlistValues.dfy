/** What becomes of a value on its way into the text and back. */
module PlistValues {
  import opened XmlText
  import opened LaunchAgentPlist

  // ---------------------------------------------------------------------------
  // Trimming commutes with escaping
  // ---------------------------------------------------------------------------

  lemma {:induction false} CodedJoin(a: string, b: string)
    ensures Coded(a + b, 5) == Coded(a, 5) + Coded(b, 5)
    decreases |a|
  {
    if a == "" {
      assert a + b == b;
    } else {
      assert (a + b)[0] == a[0] && (a + b)[1..] == a[1..] + b;
      CodedJoin(a[1..], b);
    }
  }

  lemma CodedChar(c: char)
    ensures var e := Code(c, 5); e != "" && White(e[0]) == White(c) == White(e[|e| - 1])
    ensures White(c) ==> Code(c, 5) == [c]
    ensures Coded([c], 5) == Code(c, 5)
  {
    assert [c][1..] == "";
    assert Coded([c], 5) == Code(c, 5) + "";
  }

  lemma {:induction false} TrimStartCoded(v: string)
    ensures TrimStart(Coded(v, 5)) == Coded(TrimStart(v), 5)
    decreases |v|
  {
    if v != "" {
      CodedChar(v[0]);
      var rest := Coded(v[1..], 5);
      assert (Code(v[0], 5) + rest)[0] == Code(v[0], 5)[0];
      if White(v[0]) {
        assert Coded(v, 5)[1..] == rest;
        TrimStartCoded(v[1..]);
      }
    }
  }

  lemma {:induction false} TrimEndCoded(v: string)
    ensures TrimEnd(Coded(v, 5)) == Coded(TrimEnd(v), 5)
    decreases |v|
  {
    if v != "" {
      var init, c := v[..|v| - 1], v[|v| - 1];
      assert v == init + [c];
      CodedJoin(init, [c]);
      CodedChar(c);
      var s, e := Coded(v, 5), Code(c, 5);
      assert s == Coded(init, 5) + e && s[|s| - 1] == e[|e| - 1];
      if White(c) {
        assert s[..|s| - 1] == Coded(init, 5);
        TrimEndCoded(init);
      }
    }
  }

  /** Escaped, trimmed and read back, a value comes out trimmed. */
  lemma TrimmedAndReadBack(v: string)
    ensures Unxml(Trim(Xml(v))) == Trim(v)
  {
    XmlIsCoded(v);
    TrimStartCoded(v);
    TrimEndCoded(TrimStart(v));
    XmlIsCoded(Trim(v));
    UnxmlUndoesXml(Trim(v));
  }

  // ---------------------------------------------------------------------------
  // A value behind other text is not read back
  // ---------------------------------------------------------------------------

  lemma Regrouped(a: string, b: string, c: string)
    ensures a + (b + c) == (a + b) + c
  {
  }

  lemma Dropped(x: string, y: string, n: nat)
    requires n <= |x|
    ensures (x + y)[n..] == x[n..] + y
  {
  }

  /** Text that ends in a character outside the pattern is replaced on its own. */
  lemma {:induction false} ReplaceInTwo(x: string, y: string, pattern: string, put: string)
    requires x != "" && pattern != "" && x[|x| - 1] !in pattern
    ensures ReplaceAll(x + y, pattern, put) == ReplaceAll(x, pattern, put) + ReplaceAll(y, pattern, put)
    decreases |x|
  {
    PatternEndsBefore(x, y, pattern);
    if pattern <= x {
      var n := |pattern|;
      Dropped(x, y, n);
      ReplaceInTwo(x[n..], y, pattern, put);
      Regrouped(put, ReplaceAll(x[n..], pattern, put), ReplaceAll(y, pattern, put));
    } else {
      Dropped(x, y, 1);
      assert (x + y)[0] == x[0];
      if |x| == 1 {
        assert x[1..] + y == y;
        assert x[1..] == "";
      } else {
        ReplaceInTwo(x[1..], y, pattern, put);
      }
      Regrouped([x[0]], ReplaceAll(x[1..], pattern, put), ReplaceAll(y, pattern, put));
    }
  }

  lemma LastOf(a: string, b: string)
    requires b != ""
    ensures (a + b)[|a + b| - 1] == b[|b| - 1]
  {
  }

  lemma {:induction false} ReplaceKeepsLast(x: string, pattern: string, put: string)
    requires x != "" && pattern != "" && x[|x| - 1] !in pattern
    ensures var u := ReplaceAll(x, pattern, put); u != "" && u[|u| - 1] == x[|x| - 1]
    decreases |x|
  {
    PatternEndsBefore(x, "", pattern);
    if pattern <= x {
      ReplaceKeepsLast(x[|pattern|..], pattern, put);
      LastOf(put, ReplaceAll(x[|pattern|..], pattern, put));
    } else if |x| == 1 {
      assert x[1..] == "";
      assert ReplaceAll(x, pattern, put) == [x[0]];
    } else {
      ReplaceKeepsLast(x[1..], pattern, put);
      LastOf([x[0]], ReplaceAll(x[1..], pattern, put));
    }
  }

  lemma PatternEndsBefore(x: string, y: string, pattern: string)
    requires x != "" && pattern != "" && x[|x| - 1] !in pattern
    ensures pattern <= x + y <==> pattern <= x
    ensures pattern <= x ==> |pattern| < |x|
  {
    assert (x + y)[|x| - 1] == x[|x| - 1];
  }

  lemma UnxmlInTwo(x: string, y: string) returns (u: string)
    requires x != "" && x[|x| - 1] == '>'
    ensures Unxml(x + y) == u + Unxml(y) && u != "" && u[|u| - 1] == '>'
  {
    var x4 := ReplaceAll(x, "&apos;", "'");
    var y4 := ReplaceAll(y, "&apos;", "'");
    ReplaceInTwo(x, y, "&apos;", "'");
    ReplaceKeepsLast(x, "&apos;", "'");
    var x3 := ReplaceAll(x4, "&quot;", "\"");
    var y3 := ReplaceAll(y4, "&quot;", "\"");
    ReplaceInTwo(x4, y4, "&quot;", "\"");
    ReplaceKeepsLast(x4, "&quot;", "\"");
    var x2 := ReplaceAll(x3, "&gt;", ">");
    var y2 := ReplaceAll(y3, "&gt;", ">");
    ReplaceInTwo(x3, y3, "&gt;", ">");
    ReplaceKeepsLast(x3, "&gt;", ">");
    var x1 := ReplaceAll(x2, "&lt;", "<");
    var y1 := ReplaceAll(y2, "&lt;", "<");
    ReplaceInTwo(x2, y2, "&lt;", "<");
    ReplaceKeepsLast(x2, "&lt;", "<");
    u := ReplaceAll(x1, "&amp;", "&");
    ReplaceInTwo(x1, y1, "&amp;", "&");
    ReplaceKeepsLast(x1, "&amp;", "&");
  }

  lemma {:induction false} TrimStartInTwo(x: string, y: string)
    requires x != "" && !White(x[|x| - 1])
    ensures TrimStart(x + y) == TrimStart(x) + y
    ensures var t := TrimStart(x); t != "" && t[|t| - 1] == x[|x| - 1]
    decreases |x|
  {
    assert (x + y)[0] == x[0] && (x + y)[1..] == x[1..] + y;
    if White(x[0]) { TrimStartInTwo(x[1..], y); }
  }

  lemma {:induction false} TrimEndInTwo(x: string, y: string)
    requires x != "" && !White(x[|x| - 1])
    ensures TrimEnd(x + y) == x + TrimEnd(y)
    decreases |y|
  {
    if y == "" {
      assert x + y == x;
    } else {
      var s := x + y;
      assert s[|s| - 1] == y[|y| - 1] && s[..|s| - 1] == x + y[..|y| - 1];
      if White(y[|y| - 1]) { TrimEndInTwo(x, y[..|y| - 1]); }
    }
  }

  lemma {:induction false} TrimEndLeaves(v: string)
    ensures var t := TrimEnd(v); t != "" ==> !White(t[|t| - 1])
    ensures TrimEnd(v) == v || (v != "" && White(v[|v| - 1]))
    decreases |v|
  {
    if v != "" && White(v[|v| - 1]) { TrimEndLeaves(v[..|v| - 1]); }
  }

  /** Text before an escaped value is read as part of it, whatever the value. */
  lemma NotReadBackBehind(x: string, v: string)
    requires x != "" && x[|x| - 1] == '>'
    ensures Unxml(Trim(x + Xml(v))) != v
  {
    TrimStartInTwo(x, Xml(v));
    var t := TrimStart(x);
    TrimEndInTwo(t, Xml(v));
    XmlIsCoded(v);
    TrimEndCoded(v);
    XmlIsCoded(TrimEnd(v));
    UnxmlUndoesXml(TrimEnd(v));
    var u := UnxmlInTwo(t, Xml(TrimEnd(v)));
    TrimEndLeaves(v);
    BehindDiffers(u, TrimEnd(v), v);
  }

  lemma BehindDiffers(u: string, t: string, v: string)
    requires u != "" && !White(u[|u| - 1]) && (t != "" ==> !White(t[|t| - 1]))
    requires t == v || (v != "" && White(v[|v| - 1]))
    ensures u + t != v
  {
    var s := u + t;
    assert s[|s| - 1] == if t == "" then u[|u| - 1] else t[|t| - 1];
  }

  // ---------------------------------------------------------------------------
  // Replacement texts
  // ---------------------------------------------------------------------------

  /** `replace` takes the text literally. */
  predicate Inert(t: string) {
    t == "" || (!IsDirective(t) && Inert(t[1..]))
  }

  /** A value whose escaped text is not taken literally: escaping puts an ampersand after the dollar. */
  predicate Live(v: string) {
    v != "" && ((v[0] == '$' && |v| > 1 && v[1] in "$`&<>\"'") || Live(v[1..]))
  }

  lemma CodeOfChar(c: char)
    ensures var e := Code(c, 5);
      e != "" && (|e| == 1 || '$' !in e) && (e[0] == '$' <==> c == '$') && (IsSpecial(e[0]) <==> c in "$`&<>\"'")
  {
  }

  lemma {:induction false} LiveIffNotInert(v: string)
    ensures Inert(Xml(v)) <==> !Live(v)
  {
    XmlIsCoded(v);
    LiveIffCodeNotInert(v);
  }

  lemma {:induction false} LiveIffCodeNotInert(v: string)
    ensures Inert(Coded(v, 5)) <==> !Live(v)
    decreases |v|
  {
    if v != "" {
      LiveIffCodeNotInert(v[1..]);
      var rest := Coded(v[1..], 5);
      CodeOfChar(v[0]);
      InertJoin(Code(v[0], 5), rest);
      if |v| > 1 {
        CodeOfChar(v[1]);
        assert rest[0] == Code(v[1], 5)[0];
      }
    }
  }

  /** A character's escape, or a lone character, followed by more text. */
  lemma InertJoin(e: string, rest: string)
    requires |e| == 1 || (e != "" && '$' !in e)
    ensures Inert(e + rest) <==> !(e[0] == '$' && rest != "" && IsSpecial(rest[0])) && Inert(rest)
    decreases |e|
  {
    assert (e + rest)[1..] == e[1..] + rest;
    if |e| == 1 {
      assert e[1..] + rest == rest;
      assert rest != "" ==> (e + rest)[1] == rest[0];
    } else {
      InertJoin(e[1..], rest);
    }
  }

  lemma {:induction false} ExpandInert(t: string, b: string, m: string, a: string)
    requires Inert(t)
    ensures Expand(t, b, m, a) == t
    decreases |t|
  {
    if t != "" { ExpandInert(t[1..], b, m, a); }
  }

  lemma {:induction false} ExpandBehind(p: string, t: string, b: string, m: string, a: string)
    requires '$' !in p
    ensures Expand(p + t, b, m, a) == p + Expand(t, b, m, a)
    decreases |p|
  {
    if p == "" {
      assert p + t == t;
    } else {
      assert (p + t)[0] == p[0] && (p + t)[1..] == p[1..] + t;
      ExpandBehind(p[1..], t, b, m, a);
    }
  }

  lemma DirectiveBefore(t: string, z: string)
    requires t != "" && (z != "" ==> !IsSpecial(z[0]))
    ensures IsDirective(t + z) == IsDirective(t)
    ensures (t + z)[0] == t[0] && (t + z)[1..] == t[1..] + z
    ensures IsDirective(t) ==> (t + z)[1] == t[1] && (t + z)[2..] == t[2..] + z
  {
    assert |t + z| > 1 ==> (t + z)[1] == if |t| > 1 then t[1] else z[0];
  }

  lemma ExpandDirective(t: string, z: string, b: string, m: string, a: string)
    requires IsDirective(t) && IsDirective(t + z) && (t + z)[1] == t[1] && (t + z)[2..] == t[2..] + z
    requires Expand(t[2..] + z, b, m, a) == Expand(t[2..], b, m, a) + z
    ensures Expand(t + z, b, m, a) == Expand(t, b, m, a) + z
  {
    var i := Inserted(t[1], b, m, a);
    assert (i + Expand(t[2..], b, m, a)) + z == i + (Expand(t[2..], b, m, a) + z);
  }

  lemma ExpandChar(t: string, z: string, b: string, m: string, a: string)
    requires t != "" && !IsDirective(t) && !IsDirective(t + z) && (t + z)[0] == t[0] && (t + z)[1..] == t[1..] + z
    requires Expand(t[1..] + z, b, m, a) == Expand(t[1..], b, m, a) + z
    ensures Expand(t + z, b, m, a) == Expand(t, b, m, a) + z
  {
    assert ([t[0]] + Expand(t[1..], b, m, a)) + z == [t[0]] + (Expand(t[1..], b, m, a) + z);
  }

  lemma {:induction false} ExpandBefore(t: string, z: string, b: string, m: string, a: string)
    requires Inert(z) && (z != "" ==> !IsSpecial(z[0]))
    ensures Expand(t + z, b, m, a) == Expand(t, b, m, a) + z
    decreases |t|
  {
    if t == "" {
      assert t + z == z;
      ExpandInert(z, b, m, a);
    } else {
      DirectiveBefore(t, z);
      if IsDirective(t) {
        ExpandBefore(t[2..], z, b, m, a);
        ExpandDirective(t, z, b, m, a);
      } else {
        ExpandBefore(t[1..], z, b, m, a);
        ExpandChar(t, z, b, m, a);
      }
    }
  }

  // ---------------------------------------------------------------------------
  // Counting dollars
  // ---------------------------------------------------------------------------

  function Dollars(s: string): nat {
    multiset(s)['$']
  }

  lemma DollarsStep(s: string)
    requires s != ""
    ensures Dollars(s) == (if s[0] == '$' then 1 else 0) + Dollars(s[1..])
  {
    assert s == [s[0]] + s[1..];
  }

  lemma DollarsLast(s: string)
    requires s != ""
    ensures Dollars(s) == Dollars(s[..|s| - 1]) + if s[|s| - 1] == '$' then 1 else 0
  {
    assert s == s[..|s| - 1] + [s[|s| - 1]];
  }

  lemma {:induction false} ReplaceKeepsDollars(s: string, pattern: string, put: string)
    requires pattern != "" && '$' !in pattern && '$' !in put
    ensures Dollars(ReplaceAll(s, pattern, put)) == Dollars(s)
    decreases |s|
  {
    if s != "" {
      if pattern <= s {
        assert s == pattern + s[|pattern|..];
        ReplaceKeepsDollars(s[|pattern|..], pattern, put);
      } else {
        DollarsStep(s);
        ReplaceKeepsDollars(s[1..], pattern, put);
      }
    }
  }

  lemma UnxmlKeepsDollars(s: string)
    ensures Dollars(Unxml(s)) == Dollars(s)
  {
    var s4 := ReplaceAll(s, "&apos;", "'");
    var s3 := ReplaceAll(s4, "&quot;", "\"");
    var s2 := ReplaceAll(s3, "&gt;", ">");
    var s1 := ReplaceAll(s2, "&lt;", "<");
    ReplaceKeepsDollars(s, "&apos;", "'");
    ReplaceKeepsDollars(s4, "&quot;", "\"");
    ReplaceKeepsDollars(s3, "&gt;", ">");
    ReplaceKeepsDollars(s2, "&lt;", "<");
    ReplaceKeepsDollars(s1, "&amp;", "&");
  }

  lemma {:induction false} TrimStartKeepsDollars(s: string)
    ensures Dollars(TrimStart(s)) == Dollars(s)
    decreases |s|
  {
    if s != "" && White(s[0]) {
      DollarsStep(s);
      TrimStartKeepsDollars(s[1..]);
    }
  }

  lemma {:induction false} TrimEndKeepsDollars(s: string)
    ensures Dollars(TrimEnd(s)) == Dollars(s)
    decreases |s|
  {
    if s != "" && White(s[|s| - 1]) {
      DollarsLast(s);
      TrimEndKeepsDollars(s[..|s| - 1]);
    }
  }

  lemma ReadingKeepsDollars(content: string)
    ensures Dollars(Unxml(Trim(content))) == Dollars(content)
  {
    TrimStartKeepsDollars(content);
    TrimEndKeepsDollars(TrimStart(content));
    UnxmlKeepsDollars(Trim(content));
  }

  lemma XmlKeepsDollars(v: string)
    ensures Dollars(Xml(v)) == Dollars(v)
  {
    UnxmlKeepsDollars(Xml(v));
    UnxmlUndoesXml(v);
  }

  /** Every special dollar is used up, when the text around brings in none. */
  lemma {:induction false} ExpandLosesDollars(t: string, b: string, m: string, a: string)
    requires '$' !in b && '$' !in m && '\'' !in t
    ensures Dollars(Expand(t, b, m, a)) <= Dollars(t)
    ensures !Inert(t) ==> Dollars(Expand(t, b, m, a)) < Dollars(t)
    decreases |t|
  {
    if t != "" {
      DollarsStep(t);
      if IsDirective(t) {
        DollarsStep(t[1..]);
        assert t[1..][1..] == t[2..];
        ExpandLosesDollars(t[2..], b, m, a);
      } else {
        ExpandLosesDollars(t[1..], b, m, a);
      }
    }
  }
}
