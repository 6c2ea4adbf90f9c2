/** What is set in the environment dictionary is read back, and every other key keeps its value. */
module PlistRoundTrip {
  import opened Outcomes
  import opened XmlText
  import opened LaunchAgentPlist
  import opened PlistScan
  import opened PlistValues

  const INDENT := "\n    "

  /** An entry as the source writes it, then `after`. */
  function Block(key: string, x: string, after: string): string {
    Opening(key) + (x + (CLOSE_STRING + after))
  }

  lemma {:induction false} FirstClose(x: string, s: string)
    ensures var c := SplitAt(x + (CLOSE_STRING + s), CLOSE_STRING); c.Some? && c.value.0 <= x
    ensures '<' !in x ==> SplitAt(x + (CLOSE_STRING + s), CLOSE_STRING) == Some((x, s))
    decreases |x|
  {
    var t := x + (CLOSE_STRING + s);
    if x == "" {
      assert t[|CLOSE_STRING|..] == s && CLOSE_STRING <= t;
    } else {
      assert t[0] == x[0] && t[1..] == x[1..] + (CLOSE_STRING + s);
      FirstClose(x[1..], s);
      assert [x[0]] + x[1..] == x;
      assert CLOSE_STRING[0] == '<';
    }
  }

  lemma BlockReads(key: string, x: string, after: string)
    requires IsName(key)
    ensures var b := Block(key, x, after);
      Opens(b) && Entry(b, key).Some? && Entry(b, key).value.0 <= x
    ensures '<' !in x ==> Entry(Block(key, x, after), key) == Some((x, after))
  {
    OpeningMatches(key, x + (CLOSE_STRING + after));
    EntryOpens(Block(key, x, after), key);
    FirstClose(x, after);
  }

  // ---------------------------------------------------------------------------
  // The shape of a text after one key was set
  // ---------------------------------------------------------------------------

  lemma {:induction false} NoDollarIsInert(s: string)
    requires '$' !in s
    ensures Inert(s)
    decreases |s|
  {
    if s != "" { NoDollarIsInert(s[1..]); }
  }

  lemma ExpandInside(o: string, x: string, z: string, b: string, m: string, a: string)
    requires '$' !in o && Inert(z) && (z != "" ==> !IsSpecial(z[0]))
    ensures Expand(o + x + z, b, m, a) + a == o + (Expand(x, b, m, a) + (z + a))
  {
    assert o + x + z == o + (x + z);
    ExpandBehind(o, x + z, b, m, a);
    ExpandBefore(x, z, b, m, a);
  }

  lemma OpeningHasNoDollar(key: string)
    requires IsName(key)
    ensures '$' !in Opening(key)
  {
  }

  lemma ReplacementExpands(key: string, x: string, b: string, m: string, a: string)
    requires IsName(key)
    ensures Expand(Opening(key) + x + CLOSE_STRING, b, m, a) + a == Block(key, Expand(x, b, m, a), a)
  {
    OpeningHasNoDollar(key);
    NoDollarIsInert(CLOSE_STRING);
    ExpandInside(Opening(key), x, CLOSE_STRING, b, m, a);
  }

  lemma SetReplaces(body: string, key: string, value: string)
    requires IsName(key) && FindEntry(body, key).Some?
    ensures var Cut(b, m, a) := FindEntry(body, key).value;
      SetOne(body, key, value) == b + Block(key, Expand(Xml(value), b, m, a), a)
  {
    var Cut(b, m, a) := FindEntry(body, key).value;
    ReplacementExpands(key, Xml(value), b, m, a);
    assert (b + Expand(Replacement(key, value), b, m, a)) + a == b + (Expand(Replacement(key, value), b, m, a) + a);
  }

  lemma BlockAlone(o: string, x: string, z: string)
    ensures o + (x + (z + "")) == o + x + z
  {
  }

  lemma SetAppends(body: string, key: string, value: string)
    requires FindEntry(body, key).None?
    ensures SetOne(body, key, value) == body + (INDENT + Block(key, Xml(value), ""))
  {
    BlockAlone(Opening(key), Xml(value), CLOSE_STRING);
    Regrouped(body, INDENT, Replacement(key, value));
  }

  lemma IndentOpens(s: string)
    requires Opens(s)
    ensures Opens(INDENT + s)
  {
    SkipWithin(INDENT, s);
    OpensAtStart(s);
  }

  /** The value is written as it is: appended, or without a directive in its text. */
  predicate Literal(body: string, key: string, value: string) {
    FindEntry(body, key).Some? ==> !Live(value)
  }

  // ---------------------------------------------------------------------------
  // The key that was set
  // ---------------------------------------------------------------------------

  lemma ReplacedContent(body: string, key: string, value: string)
    requires IsName(key) && FindEntry(body, key).Some?
    ensures var Cut(b, m, a) := FindEntry(body, key).value;
      var c := Content(SetOne(body, key, value), key);
      c.Some? && c.value <= Expand(Xml(value), b, m, a)
    ensures !Live(value) ==> Content(SetOne(body, key, value), key) == Some(Xml(value))
  {
    var Cut(b, m, a) := FindEntry(body, key).value;
    SetReplaces(body, key, value);
    FoundIsLeftmost(body, key);
    var x := Expand(Xml(value), b, m, a);
    BlockReads(key, x, a);
    AbsentIsSkipped(b, Block(key, x, a), key);
    if !Live(value) {
      LiveIffNotInert(value);
      ExpandInert(Xml(value), b, m, a);
      XmlHasNoMarkup(value, '<');
    }
  }

  /** A key that is not read must not be left open either. */
  predicate Ready(body: string, key: string) {
    FindEntry(body, key).None? ==> Absent(body, key)
  }

  lemma AppendedTail(key: string, value: string)
    requires IsName(key)
    ensures var tail := INDENT + Block(key, Xml(value), "");
      Opens(tail) && SplitAt(tail, CLOSE_STRING) == Some((INDENT + (Opening(key) + Xml(value)), ""))
    ensures Content(INDENT + Block(key, Xml(value), ""), key) == Some(Xml(value))
  {
    var block := Block(key, Xml(value), "");
    XmlHasNoMarkup(value, '<');
    BlockReads(key, Xml(value), "");
    IndentOpens(block);
    TextIsSkipped(INDENT, block, key);
    BlockSplits(key, Xml(value), "");
    SplitBehindText(INDENT, block);
  }

  lemma BlockSplits(key: string, x: string, after: string)
    requires IsName(key) && '<' !in x
    ensures SplitAt(Block(key, x, after), CLOSE_STRING) == Some((Opening(key) + x, after))
  {
    BlockReads(key, x, after);
    BlockInTwo(Opening(key), x, CLOSE_STRING, after);
    var c := EntrySplits(Opening(key) + x + CLOSE_STRING, after, key);
    SameTail(Opening(key) + x, c, CLOSE_STRING);
  }

  lemma BlockInTwo(o: string, x: string, z: string, a: string)
    ensures o + (x + (z + a)) == (o + x + z) + a
  {
  }

  lemma AppendedContent(body: string, key: string, value: string)
    requires IsName(key) && FindEntry(body, key).None? && Absent(body, key)
    ensures Content(SetOne(body, key, value), key) == Some(Xml(value))
  {
    SetAppends(body, key, value);
    AppendedTail(key, value);
    AbsentIsSkipped(body, INDENT + Block(key, Xml(value), ""), key);
  }

  lemma OpenContent(body: string, key: string, value: string) returns (x: string)
    requires IsName(key) && FindEntry(body, key).None? && !Absent(body, key)
    ensures Content(SetOne(body, key, value), key) == Some(x + Xml(value))
    ensures x != "" && x[|x| - 1] == '>'
  {
    SetAppends(body, key, value);
    AppendedTail(key, value);
    FoundIffRead(body, key);
    OpenReadsOn(body, INDENT + Block(key, Xml(value), ""), key);
    BehindOpening(OpenText(body, key), Opening(key), Xml(value));
    OpeningEnds(key);
    x := OpenText(body, key) + (INDENT + Opening(key));
    LastOf(INDENT, Opening(key));
    LastOf(OpenText(body, key), INDENT + Opening(key));
  }

  lemma OpenIsNotReadBack(body: string, key: string, value: string)
    requires IsName(key) && FindEntry(body, key).None? && !Absent(body, key)
    ensures PlistString(SetOne(body, key, value), key) != Some(value)
  {
    var x := OpenContent(body, key, value);
    NotReadBackBehind(x, value);
  }

  lemma BehindOpening(t: string, o: string, v: string)
    ensures t + (INDENT + (o + v)) == (t + (INDENT + o)) + v
  {
  }

  lemma OpeningEnds(key: string)
    ensures Opening(key) != "" && Opening(key)[|Opening(key)| - 1] == '>'
  {
    LastOf("<key>" + key, "</key>\n    <string>");
  }

  /** What is read back holds fewer dollars than what was to be written. */
  lemma DollarsAreLost(t: string, b: string, m: string, a: string, content: string)
    requires '$' !in b && '$' !in m && '\'' !in t && !Inert(t) && content <= Expand(t, b, m, a)
    ensures Dollars(Unxml(Trim(content))) < Dollars(t)
  {
    var x := Expand(t, b, m, a);
    ExpandLosesDollars(t, b, m, a);
    assert x == content + x[|content|..];
    assert Dollars(content) <= Dollars(x);
    ReadingKeepsDollars(content);
  }

  lemma LiveIsNotReadBack(body: string, key: string, value: string)
    requires IsName(key) && FindEntry(body, key).Some? && '$' !in body && Live(value)
    ensures PlistString(SetOne(body, key, value), key) != Some(value)
  {
    var cut := FindEntry(body, key).value;
    assert forall c :: c in cut.before || c in cut.matched ==> c in cut.Whole();
    ReplacedContent(body, key, value);
    LiveIffNotInert(value);
    XmlHasNoMarkup(value, '\'');
    XmlKeepsDollars(value);
    DollarsAreLost(Xml(value), cut.before, cut.matched, cut.after, Content(SetOne(body, key, value), key).value);
  }

  lemma {:induction false} XmlEmpty(v: string)
    ensures Xml(v) == "" <==> v == ""
  {
    XmlIsCoded(v);
  }

  lemma SetReadsBack(body: string, key: string, value: string)
    requires IsName(key) && Ready(body, key) && Literal(body, key, value)
    ensures PlistString(SetOne(body, key, value), key) == if value == "" then None else Some(Trim(value))
  {
    if FindEntry(body, key).Some? {
      ReplacedContent(body, key, value);
    } else {
      AppendedContent(body, key, value);
    }
    XmlEmpty(value);
    TrimmedAndReadBack(value);
  }

  /** In any dictionary without a dollar, a set key reads back its value exactly when the value is not
      empty, is trimmed, and holds no dollar that the replacement of an existing entry would take as a
      directive; and when a key that is not there is not left open either. */
  lemma SetReadsBackExactly(body: string, key: string, value: string)
    requires IsName(key) && '$' !in body
    ensures PlistString(SetOne(body, key, value), key) == Some(value)
      <==> value != "" && Trim(value) == value && Literal(body, key, value) && Ready(body, key)
  {
    if !Literal(body, key, value) {
      LiveIsNotReadBack(body, key, value);
    } else if !Ready(body, key) {
      OpenIsNotReadBack(body, key, value);
    } else {
      SetReadsBack(body, key, value);
    }
  }

  // ---------------------------------------------------------------------------
  // The other keys
  // ---------------------------------------------------------------------------

  /** What setting `key` leaves of `other`. An appended entry disturbs only a key that is left open. A
      replaced one disturbs a key left open before it, unless the entry stays the same, and a key that
      was read inside it. */
  predicate Undisturbed(body: string, key: string, value: string, other: string) {
    match FindEntry(body, key)
    case None => Content(body, other).Some? || Absent(body, other)
    case Some(Cut(b, m, a)) =>
      if Absent(b, other) then Content(m + a, other) == Content(a, other)
      else Content(b, other).Some? || m == Replacement(key, value)
  }

  lemma AppendKeepsExactly(body: string, key: string, value: string, other: string)
    requires IsName(key) && IsName(other) && key != other && FindEntry(body, key).None?
    ensures Content(SetOne(body, key, value), other) == Content(body, other) <==> Undisturbed(body, key, value, other)
  {
    var block := Block(key, Xml(value), "");
    SetAppends(body, key, value);
    AppendedTail(key, value);
    if Content(body, other).Some? {
      ReadStays(body, INDENT + block, other);
    } else if Absent(body, other) {
      AbsentIsSkipped(body, INDENT + block, other);
      TextIsSkipped(INDENT, block, other);
      BlockIsSkipped(key, value, "", other);
    } else {
      OpenReadsOn(body, INDENT + block, other);
    }
  }

  lemma BlockIsSkipped(key: string, value: string, after: string, other: string)
    requires IsName(key) && IsName(other) && key != other
    ensures Opens(Block(key, Xml(value), after))
    ensures Content(Block(key, Xml(value), after), other) == Content(after, other)
  {
    XmlHasNoMarkup(value, '<');
    BlockReads(key, Xml(value), after);
    EntryIsSkipped(Block(key, Xml(value), after), key, other);
  }

  lemma ReplacedShape(body: string, key: string, value: string)
    requires IsName(key) && FindEntry(body, key).Some? && !Live(value)
    ensures var Cut(b, m, a) := FindEntry(body, key).value;
      && body == b + (m + a) && SetOne(body, key, value) == b + Block(key, Xml(value), a)
      && IsLeftmost(Cut(b, m, a), key) && Opens(m + a)
  {
    var cut := FindEntry(body, key).value;
    SetReplaces(body, key, value);
    LiveIffNotInert(value);
    ExpandInert(Xml(value), cut.before, cut.matched, cut.after);
    FoundIsLeftmost(body, key);
    LeftmostOpens(cut, key);
    WholeInTwo(cut);
  }

  lemma WholeInTwo(cut: Cut)
    ensures cut.Whole() == cut.before + (cut.matched + cut.after)
  {
  }

  lemma ReplaceKeepsExactly(body: string, key: string, value: string, other: string)
    requires IsName(key) && IsName(other) && key != other && FindEntry(body, key).Some? && !Live(value)
    ensures Content(SetOne(body, key, value), other) == Content(body, other) <==> Undisturbed(body, key, value, other)
  {
    var Cut(b, m, a) := FindEntry(body, key).value;
    ReplacedShape(body, key, value);
    BlockIsSkipped(key, value, a, other);
    if Absent(b, other) {
      AbsentIsSkipped(b, m + a, other);
      AbsentIsSkipped(b, Block(key, Xml(value), a), other);
    } else if Content(b, other).Some? {
      ReadStays(b, m + a, other);
      ReadStays(b, Block(key, Xml(value), a), other);
    } else {
      OpenKeepsExactly(b, m, a, key, value, other);
    }
  }

  /** A key left open before the entry takes it in, so it keeps its text only with the entry. */
  lemma OpenKeepsExactly(b: string, m: string, a: string, key: string, value: string, other: string)
    requires IsName(key) && IsName(other) && Opens(m + a)
    requires Entry(m + a, key).Some? && Entry(m + a, key).value.1 == a
    requires !Absent(b, other) && Content(b, other).None?
    ensures Content(b + Block(key, Xml(value), a), other) == Content(b + (m + a), other)
      <==> m == Replacement(key, value)
  {
    var c := EntrySplits(m, a, key);
    OpenReadsOn(b, m + a, other);
    XmlHasNoMarkup(value, '<');
    BlockReads(key, Xml(value), a);
    BlockSplits(key, Xml(value), a);
    OpenReadsOn(b, Block(key, Xml(value), a), other);
    SameEnds(OpenText(b, other), c, Opening(key) + Xml(value), CLOSE_STRING);
  }

  lemma SameEnds(t: string, c: string, d: string, z: string)
    ensures t + c == t + d <==> c + z == d + z
  {
    assert (t + c)[|t|..] == c && (t + d)[|t|..] == d;
    if c + z == d + z { SameTail(c, d, z); }
  }

  /** Exactly when setting one key leaves what another reads, in any dictionary, for a value that is
      written as it is. */
  lemma SetKeepsOtherExactly(body: string, key: string, value: string, other: string)
    requires IsName(key) && IsName(other) && key != other && Literal(body, key, value)
    ensures Content(SetOne(body, key, value), other) == Content(body, other) <==> Undisturbed(body, key, value, other)
  {
    if FindEntry(body, key).Some? {
      ReplaceKeepsExactly(body, key, value, other);
    } else {
      AppendKeepsExactly(body, key, value, other);
    }
  }

  // ---------------------------------------------------------------------------
  // Settled names: a condition that every setting keeps
  // ---------------------------------------------------------------------------

  /** A name is settled: what it reads holds no markup, or it does not occur. */
  predicate Settled(body: string, name: string) {
    var c := Content(body, name);
    if c.Some? then '<' !in c.value else Absent(body, name)
  }

  lemma EntryStartsMarkup(m: string, c: string, a: string, key: string)
    requires Entry(m + a, key).Some? && m == c + CLOSE_STRING
    ensures '<' in c
  {
    assert "<key>" <= m + a;
    assert (m + a)[0] == '<' && (m + a)[1] == 'k';
    assert CLOSE_STRING[1] == '/';
    assert c[0] == (m + a)[0];
  }

  lemma SettledIsReadBefore(b: string, m: string, a: string, key: string, other: string)
    requires IsName(key) && IsName(other) && Opens(m + a)
    requires Entry(m + a, key).Some? && Entry(m + a, key).value.1 == a
    requires !Absent(b, other) && Settled(b + (m + a), other)
    ensures Content(b, other).Some?
  {
    if Content(b, other).None? {
      var c := EntrySplits(m, a, key);
      OpenReadsOn(b, m + a, other);
      EntryStartsMarkup(m, c, a, key);
    }
  }

  lemma LeftmostContent(cut: Cut, key: string)
    requires IsName(key) && IsLeftmost(cut, key)
    ensures Content(cut.Whole(), key) == Some(Entry(cut.matched + cut.after, key).value.0)
  {
    LeftmostReads(cut, "", key);
    WholeInTwo(cut);
    assert (cut.matched + cut.after) + "" == cut.matched + cut.after;
  }

  lemma SettledIsUndisturbed(body: string, key: string, value: string, other: string)
    requires IsName(key) && IsName(other) && key != other && Settled(body, key) && Settled(body, other)
    ensures Undisturbed(body, key, value, other)
  {
    if FindEntry(body, key).Some? {
      var Cut(b, m, a) := FindEntry(body, key).value;
      FoundIsLeftmost(body, key);
      LeftmostOpens(Cut(b, m, a), key);
      LeftmostContent(Cut(b, m, a), key);
      WholeInTwo(Cut(b, m, a));
      EntryIsSkipped(m + a, key, other);
      if !Absent(b, other) { SettledIsReadBefore(b, m, a, key, other); }
    }
  }

  /** A closed entry of another key: behind it, a name is read exactly when it opens in `p`. */
  function Probe(key: string): string {
    Block(key, "", "")
  }

  lemma AbsentExactly(p: string, key: string, name: string)
    requires IsName(key) && IsName(name) && key != name
    ensures Absent(p, name) <==> Content(p + Probe(key), name).None?
  {
    BlockReads(key, "", "");
    ProbeIsUnread(key, name);
    if Absent(p, name) {
      AbsentIsSkipped(p, Probe(key), name);
    } else if Content(p, name).Some? {
      ReadStays(p, Probe(key), name);
    } else {
      BlockSplits(key, "", "");
      OpenReadsOn(p, Probe(key), name);
    }
  }

  lemma ReadBehindEntry(b: string, s: string, key: string, tail: string, name: string)
    requires IsName(key) && IsName(name) && key != name && Absent(b, name)
    requires Entry(s, key).Some? && '<' !in Entry(s, key).value.0
    ensures Content((b + s) + tail, name) == Content(Entry(s, key).value.1 + tail, name)
  {
    EntryExtends(s, tail, key);
    EntryOpens(s + tail, key);
    AbsentIsSkipped(b, s + tail, name);
    EntryIsSkipped(s + tail, key, name);
    Regrouped(b, s, tail);
  }

  lemma ReplaceKeepsAbsent(body: string, key: string, value: string, name: string)
    requires IsName(key) && IsName(name) && key != name && Settled(body, key)
    requires FindEntry(body, key).Some? && !Live(value) && Absent(body, name)
    ensures Absent(SetOne(body, key, value), name)
  {
    var cut := FindEntry(body, key).value;
    ReplacedShape(body, key, value);
    LeftmostContent(cut, key);
    AbsentPrefix(cut.before, cut.matched + cut.after, name);
    AbsentExactly(body, key, name);
    ReadBehindEntry(cut.before, cut.matched + cut.after, key, Probe(key), name);
    XmlHasNoMarkup(value, '<');
    BlockReads(key, Xml(value), cut.after);
    ReadBehindEntry(cut.before, Block(key, Xml(value), cut.after), key, Probe(key), name);
    AbsentExactly(SetOne(body, key, value), key, name);
  }

  lemma ProbeIsUnread(key: string, name: string)
    requires IsName(key) && IsName(name) && key != name
    ensures Content(Probe(key), name).None?
  {
    BlockReads(key, "", "");
    EntryIsSkipped(Probe(key), key, name);
  }

  lemma {:induction false} AbsentBehindText(p: string, x: string, key: string)
    requires Absent(p, key) && '<' !in x && IsName(key)
    ensures forall s :: Opens(s) && Opens(x + s) ==> Content((p + x) + s, key) == Content(s, key)
  {
    forall s | Opens(s) && Opens(x + s) ensures Content((p + x) + s, key) == Content(s, key) {
      AbsentIsSkipped(p, x + s, key);
      TextIsSkipped(x, s, key);
      Regrouped(p, x, s);
    }
  }

  lemma AppendKeepsAbsent(body: string, key: string, value: string, name: string)
    requires IsName(key) && IsName(name) && key != name
    requires FindEntry(body, key).None? && Absent(body, name)
    ensures Absent(SetOne(body, key, value), name)
  {
    var block := Block(key, Xml(value), "");
    SetAppends(body, key, value);
    XmlHasNoMarkup(value, '<');
    BlockReads(key, Xml(value), "");
    AppendedIsUnread(body, block, key, name);
    Regrouped(body, INDENT, block);
    AbsentExactly(SetOne(body, key, value), key, name);
  }

  lemma AppendedIsUnread(body: string, block: string, key: string, name: string)
    requires IsName(key) && IsName(name) && key != name && Absent(body, name)
    requires Entry(block, key).Some? && '<' !in Entry(block, key).value.0 && Entry(block, key).value.1 == ""
    ensures Content(((body + INDENT) + block) + Probe(key), name).None?
  {
    var tail := block + Probe(key);
    EntryExtends(block, Probe(key), key);
    EntryOpens(tail, key);
    IndentOpens(tail);
    AbsentBehindText(body, INDENT, name);
    EntryIsSkipped(tail, key, name);
    assert "" + Probe(key) == Probe(key);
    ProbeIsUnread(key, name);
    Regrouped(body + INDENT, block, Probe(key));
  }

  lemma SettledIsReady(body: string, key: string)
    requires Settled(body, key)
    ensures Ready(body, key)
  {
    FoundIffRead(body, key);
  }

  /** Setting a settled key leaves every settled name settled. */
  lemma SetKeepsSettled(body: string, key: string, value: string, name: string)
    requires IsName(key) && IsName(name) && Settled(body, key) && Settled(body, name) && Literal(body, key, value)
    ensures Settled(SetOne(body, key, value), name)
  {
    if name == key {
      XmlHasNoMarkup(value, '<');
      SettledIsReady(body, key);
      if FindEntry(body, key).Some? {
        ReplacedContent(body, key, value);
      } else {
        AppendedContent(body, key, value);
      }
    } else {
      SettledIsUndisturbed(body, key, value, name);
      SetKeepsOtherExactly(body, key, value, name);
      if Content(body, name).None? {
        if FindEntry(body, key).Some? {
          ReplaceKeepsAbsent(body, key, value, name);
        } else {
          AppendKeepsAbsent(body, key, value, name);
        }
      }
    }
  }

  /** With no markup inside any string element, every name is settled. */
  lemma {:induction false} TidyIsSettled(body: string, name: string)
    requires Tidy(body)
    ensures Settled(body, name)
    decreases |body|
  {
    var tokens := KeyThen(name, "<string>");
    if Match(body, tokens).Some? {
      MatchedStringIsClosed(body, tokens);
    } else if body != "" {
      TidyIsSettled(body[1..], name);
    }
  }

  // ---------------------------------------------------------------------------
  // A dictionary that is disturbed
  // ---------------------------------------------------------------------------

  lemma OpenStringReadsNothing(other: string, name: string)
    requires IsName(other) && IsName(name)
    ensures Content(Opening(other), name) == None
  {
    var s := Opening(other);
    assert s + "" == s;
    OpeningMatches(other, "");
    if name != other && Match(s, KeyThen(name, "<string>")).Some? {
      KeysAtOnePlaceAgree(s, other, name, "<string>");
    }
    OpeningIsSkipped(s, other, name);
  }

  /** A string left open takes in the entry appended after it: a key that read nothing before reads
      something after another key was set. */
  lemma OpenStringTakesInTheNext(other: string, key: string, value: string)
    requires IsName(other) && IsName(key) && key != other
    ensures PlistString(Opening(other), other) == None
    ensures PlistString(SetOne(Opening(other), key, value), other).Some?
  {
    OpenStringReadsNothing(other, other);
    OpenStringReadsNothing(other, key);
    FoundIffRead(Opening(other), key);
    SetAppends(Opening(other), key, value);
    var rest := INDENT + Block(key, Xml(value), "");
    OpeningMatches(other, rest);
    var x := INDENT + (Opening(key) + Xml(value));
    assert rest == x + (CLOSE_STRING + "");
    FirstClose(x, "");
    assert rest[0] == INDENT[0] != CLOSE_STRING[0];
  }
}
