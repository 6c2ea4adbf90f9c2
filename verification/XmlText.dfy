/** Escaping text for a property list and reading it back: `xml` and `unxml`. */
module XmlText {

  /** `replaceAll` with a non-empty pattern and a replacement free of `$`. */
  function ReplaceAll(s: string, pattern: string, put: string): string
    requires pattern != ""
    decreases |s|
  {
    if s == "" then ""
    else if pattern <= s then put + ReplaceAll(s[|pattern|..], pattern, put)
    else [s[0]] + ReplaceAll(s[1..], pattern, put)
  }

  function Xml(value: string): string {
    var v1 := ReplaceAll(value, "&", "&amp;");
    var v2 := ReplaceAll(v1, "<", "&lt;");
    var v3 := ReplaceAll(v2, ">", "&gt;");
    var v4 := ReplaceAll(v3, "\"", "&quot;");
    ReplaceAll(v4, "'", "&apos;")
  }

  function Unxml(value: string): string {
    var v4 := ReplaceAll(value, "&apos;", "'");
    var v3 := ReplaceAll(v4, "&quot;", "\"");
    var v2 := ReplaceAll(v3, "&gt;", ">");
    var v1 := ReplaceAll(v2, "&lt;", "<");
    ReplaceAll(v1, "&amp;", "&")
  }

  // ---------------------------------------------------------------------------
  // The sequential replacements, read as one code per character
  // ---------------------------------------------------------------------------

  /** The character that replacement number `k` escapes, and what it is escaped to. */
  function Mark(k: nat): char
    requires k < 5
  {
    match k case 0 => '&' case 1 => '<' case 2 => '>' case 3 => '"' case 4 => '\''
  }

  function Entity(k: nat): string
    requires k < 5
  {
    match k case 0 => "&amp;" case 1 => "&lt;" case 2 => "&gt;" case 3 => "&quot;" case 4 => "&apos;"
  }

  /** A character after the first `stage` replacements. */
  function Code(c: char, stage: nat): string
    requires stage <= 5
  {
    if stage > 0 && c == '&' then Entity(0)
    else if stage > 1 && c == '<' then Entity(1)
    else if stage > 2 && c == '>' then Entity(2)
    else if stage > 3 && c == '"' then Entity(3)
    else if stage > 4 && c == '\'' then Entity(4)
    else [c]
  }

  function Coded(v: string, stage: nat): string
    requires stage <= 5
    decreases |v|
  {
    if v == "" then "" else Code(v[0], stage) + Coded(v[1..], stage)
  }

  lemma {:induction false} CodedZero(v: string)
    ensures Coded(v, 0) == v
    decreases |v|
  {
    if v != "" { CodedZero(v[1..]); }
  }

  /** Text without the first character of the pattern passes through. */
  lemma {:induction false} PassesThrough(s: string, rest: string, pattern: string, put: string)
    requires pattern != "" && pattern[0] !in s
    ensures ReplaceAll(s + rest, pattern, put) == s + ReplaceAll(rest, pattern, put)
    decreases |s|
  {
    if s == "" {
      assert s + rest == rest;
    } else {
      PassesThrough(s[1..], rest, pattern, put);
      assert (s + rest)[0] == s[0] && (s + rest)[1..] == s[1..] + rest;
    }
  }

  lemma Replaced(rest: string, pattern: string, put: string)
    requires pattern != ""
    ensures ReplaceAll(pattern + rest, pattern, put) == put + ReplaceAll(rest, pattern, put)
  {
    assert (pattern + rest)[|pattern|..] == rest;
  }

  lemma CodeStep(c: char, stage: nat)
    requires stage < 5
    ensures c == Mark(stage) ==> Code(c, stage) == [c] && Code(c, stage + 1) == Entity(stage)
    ensures c != Mark(stage) ==> Code(c, stage) == Code(c, stage + 1) && Mark(stage) !in Code(c, stage)
  {
  }

  /** One more escape takes the text one stage up. */
  lemma {:induction false} Escapes(v: string, stage: nat)
    requires stage < 5
    ensures ReplaceAll(Coded(v, stage), [Mark(stage)], Entity(stage)) == Coded(v, stage + 1)
    decreases |v|
  {
    if v != "" {
      Escapes(v[1..], stage);
      var rest := Coded(v[1..], stage);
      CodeStep(v[0], stage);
      if v[0] == Mark(stage) {
        Replaced(rest, [Mark(stage)], Entity(stage));
      } else {
        PassesThrough(Code(v[0], stage), rest, [Mark(stage)], Entity(stage));
      }
    }
  }

  lemma EntityIsNoPrefix(k: nat, j: nat, rest: string)
    requires k < 5 && j < 5 && k != j
    ensures !(Entity(k) <= Entity(j) + rest)
  {
    var s, e := Entity(j) + rest, Entity(k);
    assert s[1] == Entity(j)[1] && s[2] == Entity(j)[2];
    assert e[1] != s[1] || e[2] != s[2];
  }

  lemma NoMatchInside(e: string, rest: string, pattern: string, put: string)
    requires e != "" && pattern != "" && pattern[0] !in e[1..] && !(pattern <= e + rest)
    ensures ReplaceAll(e + rest, pattern, put) == e + ReplaceAll(rest, pattern, put)
  {
    var s := e + rest;
    assert s[0] == e[0] && s[1..] == e[1..] + rest;
    PassesThrough(e[1..], rest, pattern, put);
  }

  /** An entity other than the pattern is not touched: no entity holds a second ampersand. */
  lemma OtherEntityStays(k: nat, j: nat, rest: string, put: string)
    requires k < 5 && j < 5 && k != j
    ensures ReplaceAll(Entity(j) + rest, Entity(k), put) == Entity(j) + ReplaceAll(rest, Entity(k), put)
  {
    EntityIsNoPrefix(k, j, rest);
    assert '&' !in Entity(j)[1..];
    NoMatchInside(Entity(j), rest, Entity(k), put);
  }

  lemma EntityOfCode(c: char, stage: nat) returns (j: nat)
    requires stage < 5 && c != Mark(stage) && Code(c, stage) != [c]
    ensures j < 5 && j != stage && Code(c, stage) == Entity(j)
  {
    j := if c == '&' then 0 else if c == '<' then 1 else if c == '>' then 2 else 3;
  }

  lemma OtherCodeStays(c: char, stage: nat, rest: string, put: string)
    requires stage < 5 && c != Mark(stage)
    ensures ReplaceAll(Code(c, stage + 1) + rest, Entity(stage), put)
      == Code(c, stage) + ReplaceAll(rest, Entity(stage), put)
  {
    CodeStep(c, stage);
    if Code(c, stage) == [c] {
      assert c != '&';
      PassesThrough([c], rest, Entity(stage), put);
    } else {
      var j := EntityOfCode(c, stage);
      OtherEntityStays(stage, j, rest, put);
    }
  }

  /** One entity read back takes the text one stage down. */
  lemma {:induction false} Unescapes(v: string, stage: nat)
    requires stage < 5
    ensures ReplaceAll(Coded(v, stage + 1), Entity(stage), [Mark(stage)]) == Coded(v, stage)
    decreases |v|
  {
    if v != "" {
      Unescapes(v[1..], stage);
      var rest := Coded(v[1..], stage + 1);
      if v[0] == Mark(stage) {
        CodeStep(v[0], stage);
        Replaced(rest, Entity(stage), [Mark(stage)]);
      } else {
        OtherCodeStays(v[0], stage, rest, [Mark(stage)]);
      }
    }
  }

  lemma XmlIsCoded(v: string)
    ensures Xml(v) == Coded(v, 5)
  {
    CodedZero(v);
    Escapes(v, 0);
    Escapes(v, 1);
    Escapes(v, 2);
    Escapes(v, 3);
    Escapes(v, 4);
  }

  /** Reading back undoes escaping, whatever the text, entities and ampersands included. */
  lemma UnxmlUndoesXml(v: string)
    ensures Unxml(Xml(v)) == v
  {
    XmlIsCoded(v);
    Unescapes(v, 4);
    Unescapes(v, 3);
    Unescapes(v, 2);
    Unescapes(v, 1);
    Unescapes(v, 0);
    CodedZero(v);
  }

  lemma {:induction false} CodedHasNoMarkup(v: string, c: char)
    requires c in "<>\"'"
    ensures c !in Coded(v, 5)
    decreases |v|
  {
    if v != "" { CodedHasNoMarkup(v[1..], c); }
  }

  /** Escaped text holds no markup character, so it cannot end the element that holds it. */
  lemma XmlHasNoMarkup(v: string, c: char)
    requires c in "<>\"'"
    ensures c !in Xml(v)
  {
    XmlIsCoded(v);
    CodedHasNoMarkup(v, c);
  }
}
