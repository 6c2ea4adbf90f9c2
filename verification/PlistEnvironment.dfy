/** Several keys set in the environment dictionary of a whole property list. */
module PlistEnvironment {
  import opened Outcomes
  import opened XmlText
  import opened LaunchAgentPlist
  import opened PlistScan
  import opened PlistValues
  import opened PlistRoundTrip

  // ---------------------------------------------------------------------------
  // No end of the dictionary is written
  // ---------------------------------------------------------------------------

  const CLOSE_DICT := "</dict>"

  /** No end of a dictionary starts in the text. */
  predicate Free(s: string) {
    s == "" || (!(CLOSE_DICT <= s) && Free(s[1..]))
  }

  lemma {:induction false} FreeJoin(p: string, a: string)
    requires Opens(a)
    ensures Free(p + a) <==> Free(p) && Free(a)
    decreases |p|
  {
    if p == "" {
      assert p + a == a;
    } else {
      assert (p + a)[1..] == p[1..] + a;
      TokenStays(CLOSE_DICT, p, a);
      FreeJoin(p[1..], a);
    }
  }

  lemma {:induction false} FreeSuffix(s: string, i: nat)
    requires Free(s) && i <= |s|
    ensures Free(s[i..])
  {
    if i > 0 {
      FreeSuffix(s, i - 1);
      assert s[i - 1..][1..] == s[i..];
    }
  }

  lemma {:induction false} TextKeepsFree(x: string, s: string)
    requires '<' !in x
    ensures Free(x + s) == Free(s)
    decreases |x|
  {
    if x == "" {
      assert x + s == s;
    } else {
      assert (x + s)[0] == x[0] && (x + s)[1..] == x[1..] + s;
      TextKeepsFree(x[1..], s);
    }
  }

  lemma TagKeepsFree(t: string, s: string)
    requires |t| > 2 && t[0] == '<' && '<' !in t[1..] && (t[1] == '/' ==> t[2] != 'd')
    ensures Free(t + s) == Free(s)
  {
    var w := t + s;
    assert w[1] == t[1] && w[2] == t[2] && w[1..] == t[1..] + s;
    assert CLOSE_DICT[1] == '/' && CLOSE_DICT[2] == 'd';
    TextKeepsFree(t[1..], s);
  }

  lemma BlockIsFree(key: string, x: string, after: string)
    requires IsName(key) && '<' !in x && Free(after)
    ensures Free(Block(key, x, after))
  {
    var s0 := x + (CLOSE_STRING + after);
    TagKeepsFree(CLOSE_STRING, after);
    TextKeepsFree(x, CLOSE_STRING + after);
    var s1 := "<string>" + s0;
    TagKeepsFree("<string>", s0);
    var s2 := "</key>" + (INDENT + s1);
    TextKeepsFree(INDENT, s1);
    TagKeepsFree("</key>", INDENT + s1);
    TextKeepsFree(key, s2);
    TagKeepsFree("<key>", key + s2);
    OpeningShape(key, s0);
  }

  lemma SetKeepsFree(body: string, key: string, value: string)
    requires IsName(key) && Free(body) && Literal(body, key, value)
    ensures Free(SetOne(body, key, value))
  {
    XmlHasNoMarkup(value, '<');
    if FindEntry(body, key).Some? {
      var Cut(b, m, a) := FindEntry(body, key).value;
      ReplacedShape(body, key, value);
      FreeParts(b, m, a);
      BlockIsFree(key, Xml(value), a);
      BlockReads(key, Xml(value), a);
      FreeJoin(b, Block(key, Xml(value), a));
    } else {
      var block := Block(key, Xml(value), "");
      SetAppends(body, key, value);
      BlockIsFree(key, Xml(value), "");
      BlockReads(key, Xml(value), "");
      IndentOpens(block);
      TextKeepsFree(INDENT, block);
      FreeJoin(body, INDENT + block);
    }
  }

  lemma FreeParts(b: string, m: string, a: string)
    requires Opens(m + a) && Free(b + (m + a))
    ensures Free(b) && Free(a)
  {
    FreeJoin(b, m + a);
    assert (m + a)[|m|..] == a;
    FreeSuffix(m + a, |m|);
  }

  // ---------------------------------------------------------------------------
  // Several keys, and the whole property list
  // ---------------------------------------------------------------------------

  /** The dictionary after the first values were set, one after another. */
  function SetAll(body: string, values: seq<(string, string)>): string {
    if values == [] then body
    else
      var (key, value) := values[|values| - 1];
      SetOne(SetAll(body, values[..|values| - 1]), key, value)
  }

  /** The entries of a record: distinct names, here of environment variables. */
  predicate Named(values: seq<(string, string)>) {
    && (forall i :: 0 <= i < |values| ==> IsName(values[i].0))
    && (forall i, j :: 0 <= i < j < |values| ==> values[i].0 != values[j].0)
  }

  /** Every step writes its value as it is. */
  predicate LiteralSteps(body: string, values: seq<(string, string)>) {
    values == [] ||
    var init, (key, value) := values[..|values| - 1], values[|values| - 1];
    Literal(SetAll(body, init), key, value) && LiteralSteps(body, init)
  }

  /** It is enough that no value holds a directive. */
  lemma {:induction false} NotLiveIsLiteral(body: string, values: seq<(string, string)>)
    requires forall i :: 0 <= i < |values| ==> !Live(values[i].1)
    ensures LiteralSteps(body, values)
    decreases |values|
  {
    if values != [] { NotLiveIsLiteral(body, values[..|values| - 1]); }
  }

  /** What a value reads as: itself exactly when it is not empty and is trimmed. */
  function Read(value: string): (r: Option<string>)
    ensures r == Some(value) <==> value != "" && Trim(value) == value
  {
    if value == "" then None else Some(Trim(value))
  }

  predicate Sets(values: seq<(string, string)>, name: string) {
    exists i :: 0 <= i < |values| && values[i].0 == name
  }

  /** Every step finds the name as it has to be: ready where it is set, undisturbed afterwards. */
  predicate Calm(body: string, values: seq<(string, string)>, name: string) {
    values == [] ||
    var init, (key, value) := values[..|values| - 1], values[|values| - 1];
    if key == name then Ready(SetAll(body, init), name)
    else Undisturbed(SetAll(body, init), key, value, name) && Calm(body, init, name)
  }

  lemma {:induction false} SetAllKeepsFree(body: string, values: seq<(string, string)>)
    requires Free(body) && Named(values) && LiteralSteps(body, values)
    ensures Free(SetAll(body, values))
    decreases |values|
  {
    if values != [] {
      var init := values[..|values| - 1];
      SetAllKeepsFree(body, init);
      SetKeepsFree(SetAll(body, init), values[|values| - 1].0, values[|values| - 1].1);
    }
  }

  lemma LastReads(body: string, key: string, value: string, name: string)
    requires IsName(key) && IsName(name) && Literal(body, key, value)
    requires if key == name then Ready(body, name) else Undisturbed(body, key, value, name)
    ensures PlistString(SetOne(body, key, value), name) == if key == name then Read(value) else PlistString(body, name)
  {
    if key == name {
      SetReadsBack(body, key, value);
    } else {
      SetKeepsOtherExactly(body, key, value, name);
    }
  }

  lemma NamedInit(values: seq<(string, string)>)
    requires Named(values) && values != []
    ensures var init, last := values[..|values| - 1], values[|values| - 1];
      && Named(init) && IsName(last.0)
      && forall i :: 0 <= i < |init| ==> init[i] == values[i] && init[i].0 != last.0
  {
  }

  /** What a name should read: the value last given to it, or what it read before. */
  function Expected(values: seq<(string, string)>, name: string, before: Option<string>): Option<string> {
    if values == [] then before
    else if values[|values| - 1].0 == name then Read(values[|values| - 1].1)
    else Expected(values[..|values| - 1], name, before)
  }

  lemma {:induction false} ExpectedOfSet(values: seq<(string, string)>, i: nat, before: Option<string>)
    requires Named(values) && i < |values|
    ensures Expected(values, values[i].0, before) == Read(values[i].1)
    decreases |values|
  {
    NamedInit(values);
    if i < |values| - 1 { ExpectedOfSet(values[..|values| - 1], i, before); }
  }

  lemma {:induction false} ExpectedOfOther(values: seq<(string, string)>, name: string, before: Option<string>)
    requires !Sets(values, name)
    ensures Expected(values, name, before) == before
    decreases |values|
  {
    if values != [] {
      assert !Sets(values[..|values| - 1], name) by {
        assert forall i :: 0 <= i < |values| - 1 ==> values[..|values| - 1][i] == values[i];
      }
      ExpectedOfOther(values[..|values| - 1], name, before);
    }
  }

  lemma {:induction false} SetAllReads(body: string, values: seq<(string, string)>, name: string)
    requires Named(values) && LiteralSteps(body, values) && IsName(name) && Calm(body, values, name)
    ensures PlistString(SetAll(body, values), name) == Expected(values, name, PlistString(body, name))
    decreases |values|
  {
    if values != [] {
      var init, last := values[..|values| - 1], values[|values| - 1];
      NamedInit(values);
      LastReads(SetAll(body, init), last.0, last.1, name);
      if last.0 != name { SetAllReads(body, init, name); }
    }
  }

  /** The names set, and the one read, are settled in the dictionary as it was. */
  predicate AllSettled(body: string, values: seq<(string, string)>, name: string) {
    Settled(body, name) && forall i :: 0 <= i < |values| ==> Settled(body, values[i].0)
  }

  lemma {:induction false} SetAllKeepsSettled(body: string, values: seq<(string, string)>, name: string)
    requires Named(values) && LiteralSteps(body, values) && IsName(name) && AllSettled(body, values, name)
    ensures Settled(SetAll(body, values), name)
    decreases |values|
  {
    if values != [] {
      var init, last := values[..|values| - 1], values[|values| - 1];
      NamedInit(values);
      SetAllKeepsSettled(body, init, name);
      SetAllKeepsSettled(body, init, last.0);
      SetKeepsSettled(SetAll(body, init), last.0, last.1, name);
    }
  }

  /** A condition on the dictionary alone that makes every step calm. */
  lemma {:induction false} SettledIsCalm(body: string, values: seq<(string, string)>, name: string)
    requires Named(values) && LiteralSteps(body, values) && IsName(name) && AllSettled(body, values, name)
    ensures Calm(body, values, name)
    decreases |values|
  {
    if values != [] {
      var init, last := values[..|values| - 1], values[|values| - 1];
      NamedInit(values);
      SetAllKeepsSettled(body, init, name);
      SetAllKeepsSettled(body, init, last.0);
      if last.0 == name {
        SettledIsReady(SetAll(body, init), name);
      } else {
        SettledIsUndisturbed(SetAll(body, init), last.0, last.1, name);
        SettledIsCalm(body, init, name);
      }
    }
  }

  lemma {:induction false} FirstMatches(s: string, tokens: seq<string>)
    requires tokens != [] && First(s, tokens).Some?
    ensures var Cut(_, m, a) := First(s, tokens).value; Match(m + a, tokens) == Some(a)
    decreases |s|
  {
    var m := Match(s, tokens);
    if m.Some? {
      MatchLeavesSuffix(s, tokens);
      assert s[..|s| - |m.value|] + m.value == s;
    } else {
      FirstMatches(s[1..], tokens);
    }
  }

  predicate IsMarker(tokens: seq<string>) {
    tokens != [] && tokens[0] == "<key>" && forall i :: 1 <= i < |tokens| ==> IsLater(tokens[i])
  }

  lemma FirstHere(m: string, u: string, tokens: seq<string>)
    requires tokens != [] && Match(m + u, tokens) == Some(u)
    ensures First(m + u, tokens) == Some(Cut("", m, u))
  {
    var s := m + u;
    assert s[..|s| - |u|] == m;
  }

  lemma FirstStep(t: string, cut: Cut, tokens: seq<string>)
    requires t != "" && tokens != [] && Match(t, tokens).None? && First(t[1..], tokens) == Some(cut)
    ensures First(t, tokens) == Some(cut.Push(t[0]))
  {
  }

  lemma PushBack(b: string, cut: Cut)
    requires b != "" && cut.before == b[1..]
    ensures cut.Push(b[0]) == cut.(before := b)
  {
    assert [b[0]] + b[1..] == b;
  }

  lemma FirstLater(t: string, b: string, cut: Cut, tokens: seq<string>)
    requires b != "" && t != "" && t[0] == b[0] && tokens != [] && Match(t, tokens).None?
    requires First(t[1..], tokens) == Some(cut) && cut.before == b[1..]
    ensures First(t, tokens) == Some(cut.(before := b))
  {
    FirstStep(t, cut, tokens);
    PushBack(b, cut);
  }

  lemma DropFirst(b: string, s: string)
    requires b != ""
    ensures b + s != "" && (b + s)[0] == b[0] && (b + s)[1..] == b[1..] + s
  {
  }

  lemma FirstBehind(b: string, s: string, tokens: seq<string>)
    requires b != "" && tokens != [] && First(b + s, tokens).Some? && First(b + s, tokens).value.before == b
    ensures Match(b + s, tokens).None? && First(b[1..] + s, tokens).Some?
    ensures First(b[1..] + s, tokens).value == First(b + s, tokens).value.(before := b[1..])
  {
    assert (b + s)[0] == b[0] && (b + s)[1..] == b[1..] + s;
    var cut := First(b[1..] + s, tokens).value;
    assert cut.Push(b[0]).before[1..] == cut.before;
  }

  lemma FirstStaysStep(b: string, m: string, a: string, u: string, tokens: seq<string>)
    requires b != "" && IsMarker(tokens) && Match(m + a, tokens).Some? && Match(m + u, tokens).Some?
    requires Match(b + (m + a), tokens).None?
    requires First(b[1..] + (m + u), tokens) == Some(Cut(b[1..], m, u))
    ensures First(b + (m + u), tokens) == Some(Cut(b, m, u))
  {
    MarkerNotEarlier(b, m + a, m + u, tokens);
    DropFirst(b, m + u);
    FirstLater(b + (m + u), b, Cut(b[1..], m, u), tokens);
  }

  /** The leftmost match stays where it is, whatever follows it. */
  lemma {:induction false} FirstStays(b: string, m: string, a: string, u: string, tokens: seq<string>)
    requires IsMarker(tokens) && Match(m + a, tokens) == Some(a) && Match(m + u, tokens) == Some(u)
    requires First(b + (m + a), tokens) == Some(Cut(b, m, a))
    ensures First(b + (m + u), tokens) == Some(Cut(b, m, u))
    decreases |b|
  {
    if b == "" {
      FirstHere(m, u, tokens);
      assert "" + (m + u) == m + u;
    } else {
      FirstBehind(b, m + a, tokens);
      FirstStays(b[1..], m, a, u, tokens);
      FirstStaysStep(b, m, a, u, tokens);
    }
  }

  lemma MarkerNotEarlier(b: string, s: string, t: string, tokens: seq<string>)
    requires b != "" && IsMarker(tokens)
    requires Match(s, tokens).Some? && Match(t, tokens).Some?
    ensures Match(b + s, tokens).None? ==> Match(b + t, tokens).None?
  {
    assert s[0] == '<' && t[0] == '<';
    MatchStops(b, s, tokens);
    MatchStops(b, t, tokens);
  }

  lemma {:induction false} SplitOffFree(x: string, t: string)
    requires Free(x)
    ensures SplitAt(x + CLOSE_DICT + t, CLOSE_DICT) == Some((x, t))
    decreases |x|
  {
    var s := x + CLOSE_DICT + t;
    if x == "" {
      assert s[|CLOSE_DICT|..] == t && CLOSE_DICT <= s;
    } else {
      assert s[0] == x[0] && s[1..] == x[1..] + CLOSE_DICT + t;
      assert s[|x|] == '<';
      assert !(CLOSE_DICT <= s);
      SplitOffFree(x[1..], t);
      assert [x[0]] + x[1..] == x;
    }
  }

  lemma {:induction false} SplitIsFree(s: string)
    requires SplitAt(s, CLOSE_DICT).Some?
    ensures Free(SplitAt(s, CLOSE_DICT).value.0)
    decreases |s|
  {
    if !(CLOSE_DICT <= s) {
      SplitIsFree(s[1..]);
      SplitIsWhole(s, CLOSE_DICT);
      var x := SplitAt(s, CLOSE_DICT).value.0;
      assert x[1..] == SplitAt(s[1..], CLOSE_DICT).value.0;
      assert x <= s;
    }
  }

  lemma MarkerIsMarker()
    ensures IsMarker(MARKER)
  {
  }

  lemma LocateFrom(before: string, matched: string, body: string, tail: string)
    requires Free(body)
    requires var s := matched + (body + CLOSE_DICT + tail);
      First(before + s, MARKER) == Some(Cut(before, matched, body + CLOSE_DICT + tail))
    ensures Locate(before + (matched + (body + CLOSE_DICT + tail))) == Environment(before + matched, body, tail)
  {
    SplitOffFree(body, tail);
  }

  lemma MarkerStays(plist: string, u: string)
    requires First(plist, MARKER).Some?
    ensures var Cut(b, m, _) := First(plist, MARKER).value; First(b + (m + u), MARKER) == Some(Cut(b, m, u))
  {
    var cut := First(plist, MARKER).value;
    MarkerIsMarker();
    FirstIsWhole(plist, MARKER);
    WholeInTwo(cut);
    FirstMatches(plist, MARKER);
    MatchCovers(cut.matched, cut.after, u, MARKER);
    FirstStays(cut.before, cut.matched, cut.after, u, MARKER);
  }

  lemma StillLocated(plist: string, body: string)
    requires Locate(plist).Environment? && Free(body)
    ensures var Environment(head, _, tail) := Locate(plist);
      Locate(head + body + CLOSE_DICT + tail) == Environment(head, body, tail)
  {
    var cut := First(plist, MARKER).value;
    var tail := Locate(plist).tail;
    var u := body + CLOSE_DICT + tail;
    MarkerStays(plist, u);
    LocateFrom(cut.before, cut.matched, body, tail);
    Regroup(cut.before, cut.matched, body, tail);
  }

  lemma Regroup(b: string, m: string, body: string, tail: string)
    ensures b + (m + (body + CLOSE_DICT + tail)) == (b + m) + body + CLOSE_DICT + tail
  {
  }

  datatype Written = Written(text: string) | NoDictionary | MalformedDictionary

  /** The property list with its environment dictionary, and only that, replaced. */
  function AfterSetting(plist: string, values: seq<(string, string)>): Written {
    match Locate(plist)
    case NoMarker => NoDictionary
    case Unclosed => MalformedDictionary
    case Environment(head, body, tail) => Written(head + SetAll(body, values) + CLOSE_DICT + tail)
  }

  /** The steps of a setting write literally and find the name as it has to be. */
  predicate Undisturbing(plist: string, values: seq<(string, string)>, name: string)
    requires Locate(plist).Environment?
  {
    var body := Locate(plist).body;
    Named(values) && LiteralSteps(body, values) && IsName(name) && Calm(body, values, name)
  }

  /** Every key set reads back its value, trimmed, and every other name keeps what it read before, in
      every property list in which the steps find them so. */
  lemma EnvironmentReadsBack(plist: string, values: seq<(string, string)>, name: string)
    requires Locate(plist).Environment? && Undisturbing(plist, values, name)
    ensures AfterSetting(plist, values).Written?
    ensures forall i :: 0 <= i < |values| && values[i].0 == name ==>
      PlistEnvironmentString(AfterSetting(plist, values).text, name) == Read(values[i].1)
    ensures !Sets(values, name) ==>
      PlistEnvironmentString(AfterSetting(plist, values).text, name) == PlistEnvironmentString(plist, name)
  {
    var body := Locate(plist).body;
    SplitIsFree(First(plist, MARKER).value.after);
    SetAllKeepsFree(body, values);
    StillLocated(plist, SetAll(body, values));
    SetAllReads(body, values, name);
    if !Sets(values, name) { ExpectedOfOther(values, name, PlistString(body, name)); }
    forall i | 0 <= i < |values| && values[i].0 == name
      ensures Expected(values, name, PlistString(body, name)) == Read(values[i].1)
    {
      ExpectedOfSet(values, i, PlistString(body, name));
    }
  }

  /** `setPlistEnvironmentStrings`: fails exactly without a closed dictionary, and writes nothing outside
      it; each value reads back trimmed under its key, and other names keep theirs, wherever the steps
      find them calm, as they do when the names are settled. */
  method SetPlistEnvironmentStrings(plist: string, values: seq<(string, string)>) returns (r: Written)
    ensures r.Written? <==> Locate(plist).Environment?
    ensures r.NoDictionary? <==> First(plist, MARKER).None?
    ensures r.Written? ==> exists body :: r.text == Locate(plist).head + body + CLOSE_DICT + Locate(plist).tail
    ensures r.Written? ==>
      forall i :: 0 <= i < |values| && Undisturbing(plist, values, values[i].0) ==>
        PlistEnvironmentString(r.text, values[i].0) == Read(values[i].1)
    ensures r.Written? ==>
      forall name :: !Sets(values, name) && Undisturbing(plist, values, name) ==>
        PlistEnvironmentString(r.text, name) == PlistEnvironmentString(plist, name)
  {
    match Locate(plist)
    case NoMarker => return NoDictionary;
    case Unclosed => return MalformedDictionary;
    case Environment(head, body, tail) =>
      var updated := SetEntries(body, values);
      r := Written(head + updated + CLOSE_DICT + tail);
      assert r == AfterSetting(plist, values);
      forall name | Undisturbing(plist, values, name)
        ensures forall i :: 0 <= i < |values| && values[i].0 == name ==>
          PlistEnvironmentString(r.text, name) == Read(values[i].1)
        ensures !Sets(values, name) ==> PlistEnvironmentString(r.text, name) == PlistEnvironmentString(plist, name)
      {
        EnvironmentReadsBack(plist, values, name);
      }
  }

  method SetEntries(original: string, values: seq<(string, string)>) returns (body: string)
    ensures body == SetAll(original, values)
  {
    body := original;
    for i := 0 to |values|
      invariant body == SetAll(original, values[..i])
    {
      assert values[..i + 1][..i] == values[..i];
      body := SetOne(body, values[i].0, values[i].1);
    }
    assert values[..|values|] == values;
  }
}
