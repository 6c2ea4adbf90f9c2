/** How a scan for keys reads a text in parts: no match reaches over the next key element, and tidy
    text, with no markup inside a string element, can be read part by part. */
module PlistScan {
  import opened Outcomes
  import opened LaunchAgentPlist

  /** The names the source sets and reads: environment variable names. */
  predicate IsName(key: string) {
    key != "" && forall i :: 0 <= i < |key| ==> key[i] !in "<$" && !White(key[i])
  }

  predicate IsToken(t: string) {
    t != "" && !White(t[0]) && forall i :: 1 <= i < |t| ==> t[i] != '<' && !White(t[i])
  }

  /** A token that no opening `<key>` can be taken for. */
  predicate IsLater(t: string) {
    IsToken(t) && (t[0] == '<' ==> |t| > 1 && t[1] != 'k')
  }

  /** White space, then a key element: no match that began earlier reaches past the start of `a`. */
  predicate Opens(a: string) {
    "<key>" <= SkipWhite(a)
  }

  function WithTail(o: Option<string>, a: string): Option<string> {
    if o.Some? then Some(o.value + a) else None
  }

  // ---------------------------------------------------------------------------
  // Matches do not reach over the start of the next key element
  // ---------------------------------------------------------------------------

  lemma OpensAtStart(a: string)
    requires Opens(a)
    ensures a != "" && (a[0] == '<' || White(a[0])) && (a[0] == '<' ==> "<key>" <= a)
  {
  }

  lemma TokenStays(t: string, p: string, a: string)
    requires IsToken(t) && p != "" && Opens(a)
    ensures t <= p + a <==> t <= p
  {
    OpensAtStart(a);
    assert (p + a)[|p|] == a[0];
  }

  lemma {:induction false} SkipWithin(p: string, a: string)
    ensures SkipWhite(p + a) == if SkipWhite(p) == "" then SkipWhite(a) else SkipWhite(p) + a
    decreases |p|
  {
    if p == "" {
      assert p + a == a;
    } else {
      assert (p + a)[0] == p[0] && (p + a)[1..] == p[1..] + a;
      SkipWithin(p[1..], a);
    }
  }

  lemma NoLaterTokenOpens(a: string, t: string)
    requires Opens(a) && IsLater(t)
    ensures !(t <= a)
  {
    OpensAtStart(a);
    assert a[0] == '<' ==> a[1] == "<key>"[1];
  }

  lemma {:induction false} MatchStops(p: string, a: string, tokens: seq<string>)
    requires Opens(a) && tokens != [] && IsToken(tokens[0])
    requires forall i :: (if p == "" then 0 else 1) <= i < |tokens| ==> IsLater(tokens[i])
    ensures Match(p + a, tokens) == WithTail(Match(p, tokens), a)
    decreases |tokens|
  {
    var t := tokens[0];
    if p == "" {
      assert p + a == a;
      NoLaterTokenOpens(a, t);
    } else {
      TokenStays(t, p, a);
      if t <= p {
        assert (p + a)[|t|..] == p[|t|..] + a;
        if |tokens| > 1 {
          SkipWithin(p[|t|..], a);
          var q := SkipWhite(p[|t|..]);
          if q == "" {
            assert Opens(SkipWhite(a));
            NoLaterTokenOpens(SkipWhite(a), tokens[1]);
          } else {
            MatchStops(q, a, tokens[1..]);
          }
        }
      }
    }
  }

  /** A match depends only on the text it covers. */
  lemma {:induction false} MatchCovers(m: string, t: string, u: string, tokens: seq<string>)
    requires tokens != [] && forall i :: 0 <= i < |tokens| ==> tokens[i] != ""
    requires Match(m + t, tokens) == Some(t)
    ensures Match(m + u, tokens) == Some(u)
    decreases |tokens|
  {
    var k := |tokens[0]|;
    var rest := (m + t)[k..];
    if |tokens| > 1 { SkipWithin(m[if k <= |m| then k else 0..], t); }
    assert k <= |m|;
    assert rest == m[k..] + t && (m + u)[k..] == m[k..] + u;
    assert tokens[0] == (m + t)[..k] == m[..k] == (m + u)[..k];
    if |tokens| == 1 {
      assert m[k..] == "" by { assert |rest| == |t|; }
    } else {
      SkipWithin(m[k..], t);
      SkipWithin(m[k..], u);
      MatchCovers(SkipWhite(m[k..]), t, u, tokens[1..]);
    }
  }

  // ---------------------------------------------------------------------------
  // Tidy text: no markup inside a string element
  // ---------------------------------------------------------------------------

  /** The text closes the string element it is inside before any other markup. */
  predicate Closed(s: string) {
    var c := SplitAt(s, CLOSE_STRING);
    c.Some? && '<' !in c.value.0
  }

  predicate Tidy(s: string) {
    s == "" || (("<string>" <= s ==> Closed(s[8..])) && Tidy(s[1..]))
  }

  lemma {:induction false} SplitExtends(p: string, a: string, literal: string)
    requires SplitAt(p, literal).Some?
    ensures SplitAt(p + a, literal) == Some((SplitAt(p, literal).value.0, SplitAt(p, literal).value.1 + a))
    decreases |p|
  {
    assert |literal| <= |p|;
    assert literal <= p + a <==> literal <= p;
    if literal <= p {
      assert (p + a)[|literal|..] == p[|literal|..] + a;
    } else {
      assert (p + a)[0] == p[0] && (p + a)[1..] == p[1..] + a;
      SplitExtends(p[1..], a, literal);
    }
  }

  lemma {:induction false} TidySuffix(s: string, i: nat)
    requires Tidy(s) && i <= |s|
    ensures Tidy(s[i..])
  {
    if i > 0 {
      TidySuffix(s, i - 1);
      assert s[i - 1..][1..] == s[i..];
    }
  }

  lemma {:induction false} MatchedStringIsClosed(s: string, tokens: seq<string>)
    requires tokens != [] && tokens[|tokens| - 1] == "<string>"
    requires Tidy(s) && Match(s, tokens).Some?
    ensures Closed(Match(s, tokens).value)
    decreases |tokens|
  {
    if |tokens| > 1 {
      var rest := s[|tokens[0]|..];
      TidySuffix(s, |tokens[0]|);
      SkipLeavesSuffix(rest);
      TidySuffix(rest, |rest| - |SkipWhite(rest)|);
      MatchedStringIsClosed(SkipWhite(rest), tokens[1..]);
    }
  }

  // ---------------------------------------------------------------------------
  // Reading past entries of other keys
  // ---------------------------------------------------------------------------

  lemma {:induction false} TextIsSkipped(x: string, s: string, key: string)
    requires '<' !in x
    ensures Content(x + s, key) == Content(s, key)
    decreases |x|
  {
    if x == "" {
      assert x + s == s;
    } else {
      assert (x + s)[0] == x[0] && (x + s)[1..] == x[1..] + s;
      TextIsSkipped(x[1..], s, key);
    }
  }

  lemma TokenIsSkipped(t: string, s: string, key: string)
    requires IsLater(t)
    ensures Content(t + s, key) == Content(s, key)
  {
    assert (t + s)[0] == t[0] && (t + s)[1..] == t[1..] + s;
    if t[0] == '<' { assert (t + s)[1] == t[1] != "<key>"[1]; }
    assert Entry(t + s, key).None?;
    TextIsSkipped(t[1..], s, key);
  }

  lemma {:induction false} WhiteIsSkipped(s: string, key: string)
    ensures Content(SkipWhite(s), key) == Content(s, key)
    decreases |s|
  {
    if s != "" && White(s[0]) { WhiteIsSkipped(s[1..], key); }
  }

  lemma {:induction false} MatchIsSkipped(s: string, tokens: seq<string>, key: string)
    requires tokens != [] && forall i :: 0 <= i < |tokens| ==> IsLater(tokens[i])
    requires Match(s, tokens).Some?
    ensures Content(s, key) == Content(Match(s, tokens).value, key)
    decreases |tokens|
  {
    var rest := s[|tokens[0]|..];
    assert s == tokens[0] + rest;
    TokenIsSkipped(tokens[0], rest, key);
    if |tokens| > 1 {
      WhiteIsSkipped(rest, key);
      MatchIsSkipped(SkipWhite(rest), tokens[1..], key);
    }
  }

  /** One place holds one key. */
  lemma KeysAtOnePlaceAgree(s: string, key: string, other: string, tag: string)
    requires IsName(key) && IsName(other)
    requires Match(s, KeyThen(key, tag)).Some? && Match(s, KeyThen(other, tag)).Some?
    ensures key == other
  {
    var u := SkipWhite(s[5..]);
    NameEnds(s, key, tag);
    NameEnds(s, other, tag);
    assert u[..|key|] == key && u[..|other|] == other;
  }

  lemma NameEnds(s: string, key: string, tag: string)
    requires IsName(key) && Match(s, KeyThen(key, tag)).Some?
    ensures "<key>" <= s && key <= SkipWhite(s[5..]) && |key| < |SkipWhite(s[5..])|
    ensures var c := SkipWhite(s[5..])[|key|]; White(c) || c == '<'
  {
    var tokens := KeyThen(key, tag);
    var u := SkipWhite(s[5..]);
    assert Match(u, tokens[1..]).Some?;
    assert Match(SkipWhite(u[|key|..]), tokens[1..][1..]).Some?;
    assert tokens[1..][1..][0] == "</key>";
    assert "</key>" <= SkipWhite(u[|key|..]);
  }

  lemma KeyTagIsSkipped(s: string, other: string)
    requires "<key>" <= s && Entry(s, other).None?
    ensures Content(s, other) == Content(SkipWhite(s[5..]), other)
  {
    assert s[1..] == "key>" + s[5..];
    TextIsSkipped("key>", s[5..], other);
    WhiteIsSkipped(s[5..], other);
  }

  lemma LaterTokens(key: string)
    requires IsName(key)
    ensures forall t :: t in KeyThen(key, "<string>")[1..] ==> IsLater(t)
  {
  }

  lemma OpeningIsSkipped(s: string, key: string, other: string)
    requires IsName(key) && Match(s, KeyThen(key, "<string>")).Some?
    requires Entry(s, other).None?
    ensures Content(s, other) == Content(Match(s, KeyThen(key, "<string>")).value, other)
  {
    KeyTagIsSkipped(s, other);
    LaterTokens(key);
    MatchIsSkipped(SkipWhite(s[5..]), KeyThen(key, "<string>")[1..], other);
  }

  lemma CloseIsSkipped(rest: string, key: string)
    ensures Content(CLOSE_STRING + rest, key) == Content(rest, key)
  {
    TokenIsSkipped(CLOSE_STRING, rest, key);
  }

  lemma StringIsSkipped(s: string, key: string)
    requires Closed(s)
    ensures Content(s, key) == Content(SplitAt(s, CLOSE_STRING).value.1, key)
  {
    var (c, rest) := SplitAt(s, CLOSE_STRING).value;
    SplitIsWhole(s, CLOSE_STRING);
    TextIsSkipped(c, CLOSE_STRING + rest, key);
    CloseIsSkipped(rest, key);
  }

  /** An entry of another key is read past. */
  lemma EntryIsSkipped(s: string, key: string, other: string)
    requires IsName(key) && IsName(other) && key != other
    requires Entry(s, key).Some? && '<' !in Entry(s, key).value.0
    ensures Content(s, other) == Content(Entry(s, key).value.1, other)
  {
    var tokens := KeyThen(key, "<string>");
    if Match(s, KeyThen(other, "<string>")).Some? {
      KeysAtOnePlaceAgree(s, key, other, "<string>");
    }
    OpeningIsSkipped(s, key, other);
    StringIsSkipped(Match(s, tokens).value, other);
  }

  // ---------------------------------------------------------------------------
  // The leftmost entry
  // ---------------------------------------------------------------------------

  /** No key element of `key` starts in `p`. */
  predicate Absent(p: string, key: string) {
    p == "" || (Match(p, KeyThen(key, "<string>")).None? && Absent(p[1..], key))
  }

  lemma EntryOpens(s: string, key: string)
    requires Match(s, KeyThen(key, "<string>")).Some?
    ensures Opens(s)
  {
    assert s[0] == '<';
  }

  lemma {:induction false} SplitBehind(x: string, s: string, literal: string)
    requires SplitAt(s, literal).Some?
    ensures SplitAt(x + s, literal).Some?
    decreases |x|
  {
    if x == "" {
      assert x + s == s;
    } else {
      assert (x + s)[1..] == x[1..] + s;
      SplitBehind(x[1..], s, literal);
    }
  }

  lemma ClosesBehind(b: string, s: string, tokens: seq<string>)
    requires Opens(s) && b != "" && tokens != [] && IsToken(tokens[0])
    requires forall i :: 1 <= i < |tokens| ==> IsLater(tokens[i])
    requires Match(s, tokens).Some? && SplitAt(Match(s, tokens).value, CLOSE_STRING).Some?
    requires Match(b, tokens).Some?
    ensures Match(b + s, tokens).Some? && SplitAt(Match(b + s, tokens).value, CLOSE_STRING).Some?
  {
    MatchStops(b, s, tokens);
    MatchLeavesSuffix(s, tokens);
    SplitOfSuffix(Match(b, tokens).value, s, Match(s, tokens).value);
  }

  lemma SplitOfSuffix(q: string, s: string, r: string)
    requires |r| <= |s| && r == s[|s| - |r|..] && SplitAt(r, CLOSE_STRING).Some?
    ensures SplitAt(q + s, CLOSE_STRING).Some?
  {
    var x := q + s[..|s| - |r|];
    assert q + s == x + r;
    SplitBehind(x, r, CLOSE_STRING);
  }

  /** Had a key element opened before an entry of its key, the search would have stopped there. */
  lemma EarlierOpeningIsEntry(b: string, s: string, key: string)
    requires IsName(key) && b != "" && Entry(s, key).Some? && Match(b, KeyThen(key, "<string>")).Some?
    ensures Entry(b + s, key).Some?
  {
    EntryOpens(s, key);
    LaterTokens(key);
    ClosesBehind(b, s, KeyThen(key, "<string>"));
  }

  /** A cut at the leftmost entry. */
  predicate IsLeftmost(cut: Cut, key: string) {
    var rest := cut.matched + cut.after;
    Absent(cut.before, key) && Entry(rest, key).Some? && Entry(rest, key).value.1 == cut.after
  }

  lemma LeftmostOpens(cut: Cut, key: string)
    requires IsLeftmost(cut, key)
    ensures Opens(cut.matched + cut.after)
  {
    EntryOpens(cut.matched + cut.after, key);
  }

  lemma PushedWhole(s: string, cut: Cut)
    requires s != "" && s[1..] == cut.Whole()
    ensures s == cut.Push(s[0]).Whole() == ([s[0]] + cut.before) + (cut.matched + cut.after)
    ensures ([s[0]] + cut.before)[1..] == cut.before
  {
  }

  lemma LeftmostStep(s: string, key: string, cut: Cut)
    requires IsName(key) && s != "" && Entry(s, key).None?
    requires s[1..] == cut.Whole() && IsLeftmost(cut, key)
    ensures s == cut.Push(s[0]).Whole() && IsLeftmost(cut.Push(s[0]), key)
  {
    var b, rest := [s[0]] + cut.before, cut.matched + cut.after;
    PushedWhole(s, cut);
    if Match(b, KeyThen(key, "<string>")).Some? { EarlierOpeningIsEntry(b, rest, key); }
  }

  lemma {:induction false} FoundIsLeftmost(s: string, key: string)
    requires IsName(key) && FindEntry(s, key).Some?
    ensures IsLeftmost(FindEntry(s, key).value, key)
    decreases |s|
  {
    var cut := FindEntry(s, key).value;
    if Entry(s, key).Some? {
      assert s == cut.matched + cut.after;
    } else {
      FoundIsLeftmost(s[1..], key);
      LeftmostStep(s, key, FindEntry(s[1..], key).value);
    }
  }

  lemma {:induction false} FoundIffRead(s: string, key: string)
    ensures FindEntry(s, key).Some? <==> Content(s, key).Some?
    decreases |s|
  {
    if Entry(s, key).None? && s != "" { FoundIffRead(s[1..], key); }
  }

  lemma {:induction false} AbsentIsSkipped(b: string, s: string, key: string)
    requires Absent(b, key) && Opens(s) && IsName(key)
    ensures Content(b + s, key) == Content(s, key)
    decreases |b|
  {
    if b == "" {
      assert b + s == s;
    } else {
      UnopenedIsSkipped(b, s, key);
      AbsentIsSkipped(b[1..], s, key);
    }
  }

  lemma OpeningShape(key: string, s: string)
    ensures Opening(key) + s == "<key>" + (key + ("</key>" + ("\n    " + ("<string>" + s))))
  {
    assert Opening(key) == "<key>" + (key + "</key>\n    <string>");
    assert "</key>\n    <string>" == "</key>" + ("\n    " + "<string>");
  }

  lemma NameStays(key: string, s: string)
    requires IsName(key)
    ensures SkipWhite(key + s) == key + s
  {
    assert (key + s)[0] == key[0];
  }

  lemma OpeningMatches(key: string, s: string)
    requires IsName(key)
    ensures Match(Opening(key) + s, KeyThen(key, "<string>")) == Some(s)
  {
    var tokens := KeyThen(key, "<string>");
    var s3 := "<string>" + s;
    var s2 := "</key>" + ("\n    " + s3);
    OpeningShape(key, s);
    MatchStep("<key>", key + s2, tokens);
    NameStays(key, s2);
    MatchStep(key, s2, tokens[1..]);
    assert s2[0] == '<';
    MatchStep("</key>", "\n    " + s3, tokens[1..][1..]);
    SkipIndent(s3);
    MatchStep("<string>", s, tokens[1..][1..][1..]);
  }

  lemma MatchStep(t: string, s: string, tokens: seq<string>)
    requires tokens != [] && tokens[0] == t
    ensures Match(t + s, tokens) == if |tokens| == 1 then Some(s) else Match(SkipWhite(s), tokens[1..])
  {
    assert (t + s)[|t|..] == s;
  }

  lemma SkipIndent(s: string)
    requires s != "" && !White(s[0])
    ensures SkipWhite("\n    " + s) == s
  {
    SkipWithin("\n    ", s);
    var w := "\n    ";
    assert w[1..] == "    " && w[1..][1..] == "   " && w[1..][1..][1..] == "  " && w[1..][1..][1..][1..] == " ";
    assert SkipWhite(" ") == SkipWhite("");
    assert SkipWhite("  ") == SkipWhite(" ");
    assert SkipWhite("   ") == SkipWhite("  ");
    assert SkipWhite("    ") == SkipWhite("   ");
    assert SkipWhite(w) == SkipWhite("    ");
  }

  // ---------------------------------------------------------------------------
  // Reading past the end of a text, tidy or not
  // ---------------------------------------------------------------------------

  lemma MatchExtends(s: string, tail: string, tokens: seq<string>)
    requires tokens != [] && (forall i :: 0 <= i < |tokens| ==> tokens[i] != "") && Match(s, tokens).Some?
    ensures Match(s + tail, tokens) == Some(Match(s, tokens).value + tail)
  {
    var r := Match(s, tokens).value;
    MatchLeavesSuffix(s, tokens);
    var m := s[..|s| - |r|];
    assert s == m + r && s + tail == m + (r + tail);
    MatchCovers(m, r, r + tail, tokens);
  }

  lemma EntryExtends(s: string, tail: string, key: string)
    requires IsName(key) && Entry(s, key).Some?
    ensures Entry(s + tail, key) == Some((Entry(s, key).value.0, Entry(s, key).value.1 + tail))
  {
    var tokens := KeyThen(key, "<string>");
    MatchExtends(s, tail, tokens);
    SplitExtends(Match(s, tokens).value, tail, CLOSE_STRING);
  }

  lemma LeftmostReads(cut: Cut, tail: string, key: string)
    requires IsName(key) && IsLeftmost(cut, key)
    ensures Content(cut.before + ((cut.matched + cut.after) + tail), key)
      == Some(Entry(cut.matched + cut.after, key).value.0)
  {
    var s := cut.matched + cut.after;
    EntryExtends(s, tail, key);
    EntryOpens(s + tail, key);
    AbsentIsSkipped(cut.before, s + tail, key);
  }

  lemma WholeWithTail(cut: Cut, tail: string)
    ensures cut.Whole() + tail == cut.before + ((cut.matched + cut.after) + tail)
  {
  }

  /** A key that is read in a text is read the same whatever follows. */
  lemma ReadStays(b: string, tail: string, key: string)
    requires IsName(key) && Content(b, key).Some?
    ensures Content(b + tail, key) == Content(b, key)
  {
    FoundIffRead(b, key);
    FoundIsLeftmost(b, key);
    var cut := FindEntry(b, key).value;
    WholeWithTail(cut, tail);
    WholeWithTail(cut, "");
    assert b + "" == b;
    LeftmostReads(cut, tail, key);
    LeftmostReads(cut, "", key);
  }

  /** What follows the leftmost opening of a key. */
  function OpenText(b: string, key: string): string
    requires !Absent(b, key)
  {
    var m := Match(b, KeyThen(key, "<string>"));
    if m.Some? then m.value else OpenText(b[1..], key)
  }

  lemma PutBack(x: string, c: string)
    requires x != ""
    ensures [x[0]] + (x[1..] + c) == x + c
  {
  }

  lemma {:induction false} SplitThrough(q: string, tail: string)
    requires Opens(tail) && SplitAt(q, CLOSE_STRING).None? && SplitAt(tail, CLOSE_STRING).Some?
    ensures var (c, rest) := SplitAt(tail, CLOSE_STRING).value;
      SplitAt(q + tail, CLOSE_STRING) == Some((q + c, rest))
    decreases |q|
  {
    if q == "" {
      assert q + tail == tail;
      assert q + SplitAt(tail, CLOSE_STRING).value.0 == SplitAt(tail, CLOSE_STRING).value.0;
    } else {
      TokenStays(CLOSE_STRING, q, tail);
      assert (q + tail)[0] == q[0] && (q + tail)[1..] == q[1..] + tail;
      SplitThrough(q[1..], tail);
      PutBack(q, SplitAt(tail, CLOSE_STRING).value.0);
    }
  }

  lemma OpenEntry(b: string, tail: string, key: string)
    requires IsName(key) && b != "" && Opens(tail) && SplitAt(tail, CLOSE_STRING).Some?
    requires Match(b, KeyThen(key, "<string>")).Some? && Entry(b, key).None?
    ensures Entry(b + tail, key).Some?
    ensures Entry(b + tail, key).value.0
      == Match(b, KeyThen(key, "<string>")).value + SplitAt(tail, CLOSE_STRING).value.0
  {
    var tokens := KeyThen(key, "<string>");
    MatchExtends(b, tail, tokens);
    SplitThrough(Match(b, tokens).value, tail);
  }

  lemma UnopenedIsSkipped(b: string, tail: string, key: string)
    requires IsName(key) && b != "" && Opens(tail) && Match(b, KeyThen(key, "<string>")).None?
    ensures Content(b + tail, key) == Content(b[1..] + tail, key)
  {
    KeyStops(b, tail, key);
    UnmatchedIsSkipped(b + tail, key);
    FirstDropped(b, tail);
  }

  lemma FirstDropped(b: string, tail: string)
    requires b != ""
    ensures b + tail != "" && (b + tail)[1..] == b[1..] + tail
  {
  }

  lemma KeyStops(b: string, tail: string, key: string)
    requires IsName(key) && b != "" && Opens(tail)
    ensures Match(b + tail, KeyThen(key, "<string>")) == WithTail(Match(b, KeyThen(key, "<string>")), tail)
  {
    LaterTokens(key);
    MatchStops(b, tail, KeyThen(key, "<string>"));
  }

  lemma UnmatchedIsSkipped(s: string, key: string)
    requires s != "" && Match(s, KeyThen(key, "<string>")).None?
    ensures Content(s, key) == Content(s[1..], key)
  {
  }

  /** A key that opens in a text without being read there takes in what follows, up to its first end
      of a string. */
  lemma {:induction false} OpenReadsOn(b: string, tail: string, key: string)
    requires IsName(key) && Opens(tail) && SplitAt(tail, CLOSE_STRING).Some?
    requires !Absent(b, key) && Content(b, key).None?
    ensures Content(b + tail, key) == Some(OpenText(b, key) + SplitAt(tail, CLOSE_STRING).value.0)
    decreases |b|
  {
    if Match(b, KeyThen(key, "<string>")).Some? {
      OpenEntry(b, tail, key);
    } else {
      UnopenedIsSkipped(b, tail, key);
      OpenReadsOn(b[1..], tail, key);
    }
  }

  lemma {:induction false} AbsentPrefix(p: string, s: string, key: string)
    requires IsName(key) && Opens(s) && Absent(p + s, key)
    ensures Absent(p, key)
    decreases |p|
  {
    if p != "" {
      KeyStops(p, s, key);
      assert (p + s)[1..] == p[1..] + s;
      AbsentPrefix(p[1..], s, key);
    }
  }

  // ---------------------------------------------------------------------------
  // The first end of a string behind an opening
  // ---------------------------------------------------------------------------

  lemma {:induction false} SplitBehindText(x: string, s: string)
    requires '<' !in x && SplitAt(s, CLOSE_STRING).Some?
    ensures var (c, rest) := SplitAt(s, CLOSE_STRING).value;
      SplitAt(x + s, CLOSE_STRING) == Some((x + c, rest))
    decreases |x|
  {
    if x == "" {
      assert x + s == s;
      assert x + SplitAt(s, CLOSE_STRING).value.0 == SplitAt(s, CLOSE_STRING).value.0;
    } else {
      assert (x + s)[0] == x[0] && (x + s)[1..] == x[1..] + s;
      assert CLOSE_STRING[0] == '<';
      SplitBehindText(x[1..], s);
      PutBack(x, SplitAt(s, CLOSE_STRING).value.0);
    }
  }

  /** A token that no end of a string can be taken for. */
  predicate IsNoClose(t: string) {
    IsToken(t) && (t[0] == '<' ==> |t| > 2 && (t[1] == '/' ==> t[2] != 's'))
  }

  lemma SplitBehindToken(t: string, s: string)
    requires IsNoClose(t) && SplitAt(s, CLOSE_STRING).Some?
    ensures var (c, rest) := SplitAt(s, CLOSE_STRING).value;
      SplitAt(t + s, CLOSE_STRING) == Some((t + c, rest))
  {
    var c := SplitAt(s, CLOSE_STRING).value.0;
    var u := t + s;
    assert u[0] == t[0] && u[1..] == t[1..] + s;
    if t[0] == '<' { assert u[1] == t[1] && u[2] == t[2]; }
    NotClosing(u);
    SplitBehindText(t[1..], s);
    PutBack(t, c);
  }

  lemma NotClosing(u: string)
    requires u != "" && (u[0] == '<' ==> |u| > 2 && (u[1] == '/' ==> u[2] != 's'))
    ensures !(CLOSE_STRING <= u)
  {
    assert CLOSE_STRING[0] == '<' && CLOSE_STRING[1] == '/' && CLOSE_STRING[2] == 's';
  }

  lemma {:induction false} SplitBehindWhite(s: string)
    requires SplitAt(SkipWhite(s), CLOSE_STRING).Some?
    ensures SplitAt(s, CLOSE_STRING).Some?
    ensures SplitAt(s, CLOSE_STRING).value.1 == SplitAt(SkipWhite(s), CLOSE_STRING).value.1
    decreases |s|
  {
    if s != "" && White(s[0]) { SplitBehindWhite(s[1..]); }
  }

  lemma {:induction false} SplitBehindMatch(s: string, tokens: seq<string>)
    requires tokens != [] && forall i :: 0 <= i < |tokens| ==> IsNoClose(tokens[i])
    requires Match(s, tokens).Some? && SplitAt(Match(s, tokens).value, CLOSE_STRING).Some?
    ensures SplitAt(s, CLOSE_STRING).Some?
    ensures SplitAt(s, CLOSE_STRING).value.1 == SplitAt(Match(s, tokens).value, CLOSE_STRING).value.1
    decreases |tokens|
  {
    var rest := s[|tokens[0]|..];
    assert s == tokens[0] + rest;
    if |tokens| > 1 {
      SplitBehindMatch(SkipWhite(rest), tokens[1..]);
      SplitBehindWhite(rest);
    }
    SplitBehindToken(tokens[0], rest);
  }

  lemma NoCloseTokens(key: string)
    requires IsName(key)
    ensures forall t :: t in KeyThen(key, "<string>") ==> IsNoClose(t)
  {
  }

  /** The first end of a string in an entry is its own. */
  lemma EntrySplits(m: string, a: string, key: string) returns (c: string)
    requires IsName(key) && Entry(m + a, key).Some? && Entry(m + a, key).value.1 == a
    ensures m == c + CLOSE_STRING && SplitAt(m + a, CLOSE_STRING) == Some((c, a))
  {
    NoCloseTokens(key);
    SplitBehindMatch(m + a, KeyThen(key, "<string>"));
    c := SplitAt(m + a, CLOSE_STRING).value.0;
    SplitIsWhole(m + a, CLOSE_STRING);
    assert c + (CLOSE_STRING + a) == (c + CLOSE_STRING) + a;
    SameTail(m, c + CLOSE_STRING, a);
  }

  lemma SameTail(x: string, y: string, a: string)
    requires x + a == y + a
    ensures x == y
  {
    assert x == (x + a)[..|x + a| - |a|] && y == (y + a)[..|y + a| - |a|];
  }
}
