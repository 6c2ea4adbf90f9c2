/** Environment strings of a LaunchAgent property list: reading one key and setting several.

    The source finds its places with regular expressions. Each of them is a row of literals with
    optional white space between, so a match is deterministic: no literal starts with white space. */
module LaunchAgentPlist {
  import opened Outcomes
  import opened XmlText

  /** White space, as `\s` and `trim` read it. */
  predicate White(c: char) {
    var n := c as int;
    || 0x9 <= n <= 0xd || n == 0x20 || n == 0xa0 || n == 0x1680 || 0x2000 <= n <= 0x200a
    || n == 0x2028 || n == 0x2029 || n == 0x202f || n == 0x205f || n == 0x3000 || n == 0xfeff
  }

  function SkipWhite(s: string): (r: string)
    ensures |r| <= |s|
    ensures r != "" ==> !White(r[0])
  {
    if s != "" && White(s[0]) then SkipWhite(s[1..]) else s
  }

  /** The text after the literals `tokens`, with white space allowed between them, at the start of `s`. */
  function Match(s: string, tokens: seq<string>): (r: Option<string>)
    requires tokens != []
    ensures r.Some? ==> |r.value| <= |s|
    decreases |tokens|
  {
    if !(tokens[0] <= s) then None
    else
      var rest := s[|tokens[0]|..];
      if |tokens| == 1 then Some(rest) else Match(SkipWhite(rest), tokens[1..])
  }

  lemma {:induction false} SkipLeavesSuffix(s: string)
    ensures SkipWhite(s) == s[|s| - |SkipWhite(s)|..]
    decreases |s|
  {
    if s != "" && White(s[0]) { SkipLeavesSuffix(s[1..]); }
  }

  lemma {:induction false} MatchLeavesSuffix(s: string, tokens: seq<string>)
    requires tokens != [] && Match(s, tokens).Some?
    ensures var r := Match(s, tokens).value; r == s[|s| - |r|..]
    decreases |tokens|
  {
    if |tokens| > 1 {
      var rest := s[|tokens[0]|..];
      SkipLeavesSuffix(rest);
      MatchLeavesSuffix(SkipWhite(rest), tokens[1..]);
    }
  }

  /** The first occurrence of `literal`: what comes before it, and after it. */
  function SplitAt(s: string, literal: string): (r: Option<(string, string)>)
    ensures r.Some? ==> |s| == |r.value.0| + |literal| + |r.value.1|
  {
    if literal <= s then Some(("", s[|literal|..]))
    else if s == "" then None
    else
      var (before, after) :- SplitAt(s[1..], literal);
      Some(([s[0]] + before, after))
  }

  lemma NothingBefore(s: string, literal: string)
    requires literal <= s
    ensures s == "" + (literal + s[|literal|..])
  {
  }

  lemma FirstPutBack(s: string, before: string, rest: string)
    requires s != "" && s[1..] == before + rest
    ensures s == ([s[0]] + before) + rest
  {
  }

  lemma {:induction false} SplitIsWhole(s: string, literal: string)
    requires SplitAt(s, literal).Some?
    ensures var (before, after) := SplitAt(s, literal).value; s == before + (literal + after)
    decreases |s|
  {
    if literal <= s {
      NothingBefore(s, literal);
    } else {
      SplitIsWhole(s[1..], literal);
      var (before, after) := SplitAt(s[1..], literal).value;
      FirstPutBack(s, before, literal + after);
    }
  }

  // ---------------------------------------------------------------------------
  // Reading
  // ---------------------------------------------------------------------------

  const CLOSE_STRING := "</string>"

  function KeyThen(key: string, tag: string): seq<string> {
    ["<key>", key, "</key>", tag]
  }

  /** A key and its string at the start of `s`: the text between the tags, and what follows. */
  function Entry(s: string, key: string): (r: Option<(string, string)>)
    ensures r.Some? ==> |r.value.1| < |s|
  {
    var rest :- Match(s, KeyThen(key, "<string>"));
    SplitAt(rest, CLOSE_STRING)
  }

  lemma EntryLeavesSuffix(s: string, key: string)
    requires Entry(s, key).Some?
    ensures var r := Entry(s, key).value.1; r == s[|s| - |r|..]
  {
    MatchLeavesSuffix(s, KeyThen(key, "<string>"));
    var m := Match(s, KeyThen(key, "<string>")).value;
    var (c, r) := SplitAt(m, CLOSE_STRING).value;
    SplitIsWhole(m, CLOSE_STRING);
    assert m[|m| - |r|..] == r;
  }

  /** The text of the leftmost entry of `key`. */
  function Content(s: string, key: string): Option<string> {
    var e := Entry(s, key);
    if e.Some? then Some(e.value.0) else if s == "" then None else Content(s[1..], key)
  }

  function TrimStart(s: string): string {
    if s != "" && White(s[0]) then TrimStart(s[1..]) else s
  }

  function TrimEnd(s: string): string {
    if s != "" && White(s[|s| - 1]) then TrimEnd(s[..|s| - 1]) else s
  }

  function Trim(s: string): string {
    TrimEnd(TrimStart(s))
  }

  function PlistString(s: string, key: string): Option<string> {
    var content :- Content(s, key);
    if content == "" then None else Some(Unxml(Trim(content)))
  }

  /** A text cut in three: what is before a match, the match, and what is after. */
  datatype Cut = Cut(before: string, matched: string, after: string) {
    function Whole(): string {
      before + matched + after
    }

    function Push(c: char): (r: Cut)
      ensures r.Whole() == [c] + Whole()
    {
      this.(before := [c] + before)
    }
  }

  /** The start of `s` up to its end part `rest`. */
  function Upto(s: string, rest: string): (r: Cut)
    requires |rest| <= |s| && rest == s[|s| - |rest|..]
    ensures r.Whole() == s
  {
    Cut("", s[..|s| - |rest|], rest)
  }

  /** The leftmost place where `tokens` match. */
  function First(s: string, tokens: seq<string>): Option<Cut>
    requires tokens != []
    decreases |s|
  {
    var m := Match(s, tokens);
    if m.Some? then MatchLeavesSuffix(s, tokens); Some(Upto(s, m.value))
    else if s == "" then None
    else
      var cut :- First(s[1..], tokens);
      Some(cut.Push(s[0]))
  }

  lemma {:induction false} FirstIsWhole(s: string, tokens: seq<string>)
    requires tokens != [] && First(s, tokens).Some?
    ensures First(s, tokens).value.Whole() == s
    decreases |s|
  {
    if Match(s, tokens).None? { FirstIsWhole(s[1..], tokens); }
  }

  const MARKER := KeyThen("EnvironmentVariables", "<dict>")

  datatype Place = NoMarker | Unclosed | Environment(head: string, body: string, tail: string)

  /** Where the environment dictionary lies. */
  function Locate(plist: string): Place {
    match First(plist, MARKER)
    case None => NoMarker
    case Some(Cut(before, matched, after)) =>
      match SplitAt(after, "</dict>")
      case None => Unclosed
      case Some((body, tail)) => Environment(before + matched, body, tail)
  }

  function PlistEnvironmentString(plist: string, key: string): Option<string> {
    var place := Locate(plist);
    if place.Environment? then PlistString(place.body, key) else None
  }

  // ---------------------------------------------------------------------------
  // Setting
  // ---------------------------------------------------------------------------

  /** The characters that a dollar gives a meaning to in a replacement text. */
  predicate IsSpecial(c: char) {
    c in "$&`'"
  }

  predicate IsDirective(t: string) {
    |t| > 1 && t[0] == '$' && IsSpecial(t[1])
  }

  function Inserted(c: char, before: string, matched: string, after: string): string {
    match c
    case '$' => "$"
    case '&' => matched
    case '`' => before
    case _ => after
  }

  /** What `replace` makes of a replacement text when the pattern has no capture group. */
  function Expand(t: string, before: string, matched: string, after: string): string {
    if t == "" then ""
    else if IsDirective(t) then Inserted(t[1], before, matched, after) + Expand(t[2..], before, matched, after)
    else [t[0]] + Expand(t[1..], before, matched, after)
  }

  function Opening(key: string): string {
    "<key>" + key + "</key>\n    <string>"
  }

  function Replacement(key: string, value: string): string {
    Opening(key) + Xml(value) + CLOSE_STRING
  }

  /** The leftmost entry of a key. */
  function FindEntry(s: string, key: string): (r: Option<Cut>)
    ensures r.Some? ==> r.value.Whole() == s
  {
    var e := Entry(s, key);
    if e.Some? then EntryLeavesSuffix(s, key); Some(Upto(s, e.value.1))
    else if s == "" then None
    else
      var cut :- FindEntry(s[1..], key);
      Some(cut.Push(s[0]))
  }

  function SetOne(body: string, key: string, value: string): string {
    match FindEntry(body, key)
    case None => body + "\n    " + Replacement(key, value)
    case Some(Cut(before, matched, after)) =>
      before + Expand(Replacement(key, value), before, matched, after) + after
  }
}
