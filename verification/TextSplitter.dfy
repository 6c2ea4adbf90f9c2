/** Splitting plain text into messages under a limit counted in UTF-16 code units. */
module TextSplitter {
  import Utf16

  /** Code units of one character: two for those beyond the basic plane (RFC 2781, section 2.1). */
  function Units(c: char): nat {
    if c as int < 0x1_0000 then 1 else 2
  }

  function Utf16Len(s: string): nat {
    if s == "" then 0 else Utf16Len(s[..|s| - 1]) + Units(s[|s| - 1])
  }

  /** The length is that of the encoded text, in code units of two bytes. */
  lemma {:induction false} LengthIsEncoded(s: string)
    ensures |Utf16.Encode(s)| == 2 * Utf16Len(s)
  {
    if s != "" {
      var shorter, last := s[..|s| - 1], [s[|s| - 1]];
      assert s == shorter + last;
      Utf16.EncodeAppends(shorter, last);
      LengthIsEncoded(shorter);
      assert Utf16.Encode(last) == Utf16.EncodeChar(last[0]) + Utf16.Encode(last[1..]);
    }
  }

  function Concat(chunks: seq<string>): string {
    if chunks == [] then "" else Concat(chunks[..|chunks| - 1]) + chunks[|chunks| - 1]
  }

  /** The longest prefix of a non-empty text that fits, or its first character if none does. */
  ghost predicate IsWindow(text: string, w: int, limit: int) {
    && 1 <= w <= |text|
    && (w == 1 || Utf16Len(text[..w]) <= limit)
    && (forall j :: 1 <= j <= |text| && Utf16Len(text[..j]) <= limit ==> j <= w)
  }

  /** A text too long is cut after the last newline of the window, unless that is its very first
      character, or else at the end of the window. */
  ghost predicate IsCut(text: string, cut: int, limit: int) {
    Utf16Len(text) > limit && exists w ::
      && IsWindow(text, w, limit) && 1 <= cut <= w
      && (if cut == w then text[w - 1] == '\n' || forall i :: 1 <= i < w ==> text[i] != '\n'
          else cut >= 2 && text[cut - 1] == '\n' && forall i :: cut <= i < w ==> text[i] != '\n')
  }

  lemma {:induction false} LenMonotone(s: string, i: nat)
    requires i <= |s|
    ensures Utf16Len(s[..i]) <= Utf16Len(s)
    decreases |s|
  {
    if i == |s| {
      assert s[..i] == s;
    } else {
      assert s[..|s| - 1][..i] == s[..i];
      LenMonotone(s[..|s| - 1], i);
    }
  }

  /** The binary search: invariant bounds, then the longest fitting prefix by monotonicity. */
  method Window(text: string, limit: int) returns (w: int)
    requires text != ""
    ensures IsWindow(text, w, limit)
  {
    var lo, hi := 1, |text|;
    while lo < hi
      invariant 1 <= lo <= hi <= |text|
      invariant lo == 1 || Utf16Len(text[..lo]) <= limit
      invariant hi < |text| ==> Utf16Len(text[..hi + 1]) > limit
    {
      var mid := (lo + hi + 1) / 2;
      if Utf16Len(text[..mid]) <= limit { lo := mid; } else { hi := mid - 1; }
    }
    w := lo;
    forall j | 1 <= j <= |text| && Utf16Len(text[..j]) <= limit ensures j <= w {
      if j > w {
        assert text[..j][..w + 1] == text[..w + 1];
        LenMonotone(text[..j], w + 1);
        assert false;
      }
    }
  }

  /** `rfind("\n", 0, end)`. */
  method LastNewline(text: string, end: nat) returns (at: int)
    requires end <= |text|
    ensures -1 <= at < end
    ensures at >= 0 ==> text[at] == '\n'
    ensures forall i :: at < i < end ==> text[i] != '\n'
  {
    at := end - 1;
    while at >= 0 && text[at] != '\n'
      invariant -1 <= at < end
      invariant forall i :: at < i < end ==> text[i] != '\n'
    {
      at := at - 1;
    }
  }

  /** What follows chunk `k`, chunk `k` included. */
  function From(chunks: seq<string>, k: nat): string
    requires k <= |chunks|
  {
    Concat(chunks[k..])
  }

  lemma ConcatSnoc(chunks: seq<string>, c: string, k: nat)
    requires k <= |chunks|
    ensures From(chunks + [c], k) == From(chunks, k) + c
  {
    var longer := (chunks + [c])[k..];
    assert longer == chunks[k..] + [c];
    assert longer[..|longer| - 1] == chunks[k..];
  }

  /** Chunks cut off one after another, with `tail` still to be split. */
  ghost predicate CutOff(chunks: seq<string>, tail: string, limit: int) {
    forall k :: 0 <= k < |chunks| ==> chunks[k] != "" && IsCut(From(chunks, k) + tail, |chunks[k]|, limit)
  }

  /** A finished split: every chunk but the last is cut by the rule, and the last one is what then
      fits, or a single character that does not. */
  ghost predicate IsSplit(chunks: seq<string>, text: string, limit: int) {
    && chunks != [] && Concat(chunks) == text
    && (text != "" ==> forall k :: 0 <= k < |chunks| ==> chunks[k] != "")
    && (forall k :: 0 <= k < |chunks| - 1 ==> IsCut(From(chunks, k), |chunks[k]|, limit))
    && (Utf16Len(chunks[|chunks| - 1]) <= limit || |chunks[|chunks| - 1]| <= 1)
  }

  lemma ConcatOne(c: string)
    ensures Concat([c]) == c
  {
    assert [c][..0] == [];
    assert Concat([c]) == "" + c;
  }

  lemma FromUnderSnoc(chunks: seq<string>, tail: string, cut: nat, k: nat)
    requires k <= |chunks| && cut <= |tail|
    ensures From(chunks + [tail[..cut]], k) + tail[cut..] == From(chunks, k) + tail
  {
    var chunk, rest := tail[..cut], tail[cut..];
    ConcatSnoc(chunks, chunk, k);
    assert (From(chunks, k) + chunk) + rest == From(chunks, k) + (chunk + rest);
    assert chunk + rest == tail;
  }

  lemma OneMoreChunk(chunks: seq<string>, tail: string, cut: nat, limit: int)
    requires CutOff(chunks, tail, limit) && 1 <= cut <= |tail| && IsCut(tail, cut, limit)
    ensures CutOff(chunks + [tail[..cut]], tail[cut..], limit)
    ensures Concat(chunks + [tail[..cut]]) + tail[cut..] == Concat(chunks) + tail
  {
    var longer := chunks + [tail[..cut]];
    forall k | 0 <= k < |longer|
      ensures longer[k] != "" && IsCut(From(longer, k) + tail[cut..], |longer[k]|, limit)
    {
      FromUnderSnoc(chunks, tail, cut, k);
      if k == |chunks| {
        assert chunks[k..] == [];
        assert From(chunks, k) + tail == tail;
      }
    }
    FromUnderSnoc(chunks, tail, cut, 0);
    assert longer[0..] == longer && chunks[0..] == chunks;
  }

  lemma LastChunk(chunks: seq<string>, tail: string, limit: int)
    requires CutOff(chunks, tail, limit) && tail != "" && Utf16Len(tail) <= limit
    ensures IsSplit(chunks + [tail], Concat(chunks) + tail, limit)
  {
    var all := chunks + [tail];
    ConcatSnoc(chunks, tail, 0);
    assert all[0..] == all && chunks[0..] == chunks;
    forall k | 0 <= k < |all| - 1 ensures IsCut(From(all, k), |all[k]|, limit) {
      ConcatSnoc(chunks, tail, k);
    }
  }

  lemma NothingLeft(chunks: seq<string>, limit: int)
    requires CutOff(chunks, "", limit) && chunks != [] && |chunks[|chunks| - 1]| == 1
    ensures IsSplit(chunks, Concat(chunks), limit)
  {
    forall k | 0 <= k < |chunks| - 1 ensures IsCut(From(chunks, k), |chunks[k]|, limit) {
      assert From(chunks, k) + "" == From(chunks, k);
    }
  }

  /** `_split_plain_text`: the chunks are the text again, cut by the rule, for every limit. */
  method SplitPlainText(text: string, limit: int) returns (chunks: seq<string>)
    ensures IsSplit(chunks, text, limit)
  {
    if text == "" {
      ConcatOne(text);
      return [text];
    }
    chunks := [];
    var remaining := text;
    while remaining != ""
      invariant Concat(chunks) + remaining == text
      invariant CutOff(chunks, remaining, limit)
      invariant remaining == "" ==> chunks != [] && |chunks[|chunks| - 1]| == 1
      decreases |remaining|
    {
      if Utf16Len(remaining) <= limit {
        LastChunk(chunks, remaining, limit);
        return chunks + [remaining];
      }
      var cut := Cut(remaining, limit);
      OneMoreChunk(chunks, remaining, cut, limit);
      chunks := chunks + [remaining[..cut]];
      remaining := remaining[cut..];
    }
    assert Concat(chunks) + "" == Concat(chunks);
    NothingLeft(chunks, limit);
  }

  method Cut(remaining: string, limit: int) returns (cut: int)
    requires remaining != "" && Utf16Len(remaining) > limit
    ensures IsCut(remaining, cut, limit) && 1 <= cut <= |remaining|
    ensures cut == |remaining| ==> |remaining| == 1
  {
    cut := Window(remaining, limit);
    ghost var w := cut;
    assert remaining[..|remaining|] == remaining;
    var nl := LastNewline(remaining, cut);
    if nl > 0 { cut := nl + 1; }
    assert IsWindow(remaining, w, limit) && 1 <= cut <= w;
  }

  // ---------------------------------------------------------------------------
  // The limit
  // ---------------------------------------------------------------------------

  lemma {:induction false} CharFitsInText(s: string, c: char)
    requires c in s
    ensures Units(c) <= Utf16Len(s)
    decreases |s|
  {
    if s[|s| - 1] != c {
      CharFitsInText(s[..|s| - 1], c);
    }
  }

  lemma {:induction false} CharsOfChunks(chunks: seq<string>, c: char)
    ensures c in Concat(chunks) <==> exists k :: 0 <= k < |chunks| && c in chunks[k]
    decreases |chunks|
  {
    if chunks != [] {
      var init := chunks[..|chunks| - 1];
      CharsOfChunks(init, c);
      if k :| 0 <= k < |init| && c in init[k] { assert chunks[k] == init[k]; }
      if k :| 0 <= k < |chunks| && c in chunks[k] { assert k < |init| ==> init[k] == chunks[k]; }
    }
  }

  lemma FittingChunksHoldFittingChars(text: string, limit: int, chunks: seq<string>)
    requires IsSplit(chunks, text, limit)
    requires forall k :: 0 <= k < |chunks| ==> Utf16Len(chunks[k]) <= limit
    ensures forall c :: c in text ==> Units(c) <= limit
  {
    forall c | c in text ensures Units(c) <= limit {
      CharsOfChunks(chunks, c);
      var k :| 0 <= k < |chunks| && c in chunks[k];
      CharFitsInText(chunks[k], c);
    }
  }

  lemma FittingCharsFillFittingChunks(text: string, limit: int, chunks: seq<string>, k: nat)
    requires IsSplit(chunks, text, limit) && text != "" && k < |chunks|
    requires forall c :: c in text ==> Units(c) <= limit
    ensures Utf16Len(chunks[k]) <= limit
  {
    if |chunks[k]| == 1 {
      CharsOfChunks(chunks, chunks[k][0]);
      SingleCharLen(chunks[k]);
    } else if k < |chunks| - 1 {
      ChunkIsPrefix(chunks, k);
      CutFits(From(chunks, k), |chunks[k]|, limit);
      assert From(chunks, k)[..|chunks[k]|] == chunks[k];
    }
  }

  /** The chunks of a split all fit exactly when every character fits on its own; so they fit for
      every text when the limit is at least two, the width of the widest character. */
  lemma ChunksFitExactly(text: string, limit: int, chunks: seq<string>)
    requires IsSplit(chunks, text, limit) && text != ""
    ensures (forall k :: 0 <= k < |chunks| ==> Utf16Len(chunks[k]) <= limit)
      <==> forall c :: c in text ==> Units(c) <= limit
    ensures limit >= 2 ==> forall k :: 0 <= k < |chunks| ==> Utf16Len(chunks[k]) <= limit
  {
    if forall k :: 0 <= k < |chunks| ==> Utf16Len(chunks[k]) <= limit {
      FittingChunksHoldFittingChars(text, limit, chunks);
    }
    if forall c :: c in text ==> Units(c) <= limit {
      forall k | 0 <= k < |chunks| ensures Utf16Len(chunks[k]) <= limit {
        FittingCharsFillFittingChunks(text, limit, chunks, k);
      }
    }
  }

  lemma SingleCharLen(s: string)
    requires |s| == 1
    ensures Utf16Len(s) == Units(s[0])
  {
    assert s[..0] == "";
  }

  lemma CutFits(text: string, cut: int, limit: int)
    requires IsCut(text, cut, limit) && cut > 1
    ensures Utf16Len(text[..cut]) <= limit
  {
    var w :| IsWindow(text, w, limit) && 1 <= cut <= w;
    assert text[..w][..cut] == text[..cut];
    LenMonotone(text[..w], cut);
  }

  lemma {:induction false} ChunkIsPrefix(chunks: seq<string>, k: nat)
    requires k < |chunks|
    ensures chunks[k] <= From(chunks, k)
    decreases |chunks|
  {
    var n := |chunks| - 1;
    if k == n {
      assert chunks[k..] == [chunks[k]];
      ConcatOne(chunks[k]);
    } else {
      ChunkIsPrefix(chunks[..n], k);
      assert chunks == chunks[..n] + [chunks[n]];
      ConcatSnoc(chunks[..n], chunks[n], k);
    }
  }

  // ---------------------------------------------------------------------------
  // The rule leaves no choice
  // ---------------------------------------------------------------------------

  lemma CutIsUnique(text: string, a: int, b: int, limit: int)
    requires IsCut(text, a, limit) && IsCut(text, b, limit)
    ensures a == b
  {
    var v :| IsWindow(text, v, limit) && 1 <= a <= v
      && (if a == v then text[v - 1] == '\n' || forall i :: 1 <= i < v ==> text[i] != '\n'
          else a >= 2 && text[a - 1] == '\n' && forall i :: a <= i < v ==> text[i] != '\n');
    var w :| IsWindow(text, w, limit) && 1 <= b <= w
      && (if b == w then text[w - 1] == '\n' || forall i :: 1 <= i < w ==> text[i] != '\n'
          else b >= 2 && text[b - 1] == '\n' && forall i :: b <= i < w ==> text[i] != '\n');
    assert v == w;
  }

  lemma InitOfTail(chunks: seq<string>)
    requires |chunks| > 1
    ensures var n := |chunks| - 1;
      chunks[1..][..n - 1] == chunks[..n][1..] && chunks[1..][n - 1] == chunks[n]
  {
  }

  lemma {:induction false} ConcatCons(chunks: seq<string>)
    requires chunks != []
    ensures Concat(chunks) == chunks[0] + Concat(chunks[1..])
    decreases |chunks|
  {
    var n := |chunks| - 1;
    if n == 0 {
      ConcatOne(chunks[0]);
    } else {
      ConcatCons(chunks[..n]);
      InitOfTail(chunks);
      assert (chunks[0] + Concat(chunks[..n][1..])) + chunks[n] == chunks[0] + (Concat(chunks[..n][1..]) + chunks[n]);
    }
  }

  lemma SplitOfRest(chunks: seq<string>, text: string, limit: int)
    requires IsSplit(chunks, text, limit) && text != "" && |chunks| > 1
    ensures |chunks[0]| < |text| && chunks[0] == text[..|chunks[0]|]
    ensures IsCut(text, |chunks[0]|, limit)
    ensures IsSplit(chunks[1..], text[|chunks[0]|..], limit)
  {
    var rest := chunks[1..];
    assert chunks[0..] == chunks;
    ConcatCons(chunks);
    ConcatCons(rest);
    HeadAndRest(chunks[0], Concat(rest));
    forall k | 0 <= k < |rest| - 1 ensures IsCut(From(rest, k), |rest[k]|, limit) {
      FromOfTail(chunks, k);
    }
  }

  lemma HeadAndRest(head: string, rest: string)
    ensures (head + rest)[..|head|] == head && (head + rest)[|head|..] == rest
  {
  }

  lemma FromOfTail(chunks: seq<string>, k: nat)
    requires k + 1 < |chunks|
    ensures From(chunks[1..], k) == From(chunks, k + 1) && chunks[1..][k] == chunks[k + 1]
  {
    assert chunks[1..][k..] == chunks[k + 1..];
  }

  /** At most one list of chunks splits a text. */
  lemma {:induction false} SplitIsUnique(a: seq<string>, b: seq<string>, text: string, limit: int)
    requires IsSplit(a, text, limit) && IsSplit(b, text, limit) && text != ""
    ensures a == b
    decreases |text|
  {
    if |a| > 1 && |b| > 1 {
      SplitOfRest(a, text, limit);
      SplitOfRest(b, text, limit);
      CutIsUnique(text, |a[0]|, |b[0]|, limit);
      SplitIsUnique(a[1..], b[1..], text[|a[0]|..], limit);
      assert a == [a[0]] + a[1..] && b == [b[0]] + b[1..];
    } else if |a| > 1 {
      SplitOfRest(a, text, limit);
      ConcatOne(b[0]);
    } else if |b| > 1 {
      SplitOfRest(b, text, limit);
      ConcatOne(a[0]);
    } else {
      ConcatOne(a[0]);
      ConcatOne(b[0]);
    }
  }
}
