/**
 * Title/body extraction from a completion text.
 *
 * The handler takes the title from the first match of the multiline
 * pattern  ^Title:\s*(.*)$  (its group 1), removes every match of the
 * multiline pattern  ^Title:.*$  from the text, and trims what is left
 * with PHP's `trim` and its default character list.
 *
 * A PHP string is a byte string; each `char` here stands for one byte.
 * PCRE's default newline convention (a line feed alone) is assumed. Under
 * the `m` modifier `^` holds at the start of the text and right after a line
 * feed that is not the last character, `.` is any character but a line feed
 * (a carriage return is kept), and `$` holds before a line feed or at the
 * end of the text.
 */
module Extractor {
  import opened Wrappers

  /** The literal both patterns start with. */
  const Tag: string := "Title:"

  /** The title used when the text has no title line. */
  const NoTitle: string := "No title found"

  /** PCRE `\s` under the default (C locale) tables: space, HT, LF, VT, FF, CR. */
  predicate IsRegexSpace(c: char) {
    c == ' ' || c == '\t' || c == '\n' || c == '\U{B}' || c == '\U{C}' || c == '\r'
  }

  /** The characters PHP's `trim` strips by default: space, HT, LF, CR, NUL, VT. */
  predicate IsTrimSpace(c: char) {
    c == ' ' || c == '\t' || c == '\n' || c == '\r' || c == '\0' || c == '\U{B}'
  }

  /** `^` in multiline mode. PCRE does not let `^` hold after a line feed
      that ends the text; this predicate does, but no match can start at the
      end, since `TitleAt` needs the six characters of the tag after it. */
  predicate LineStart(s: string, i: int) {
    i == 0 || (0 < i <= |s| && s[i - 1] == '\n')
  }

  /** The six characters of the tag, "Title:", begin at position i of s. */
  predicate TagAt(s: string, i: int) {
    0 <= i && i + 6 <= |s|
    && s[i] == 'T' && s[i + 1] == 'i' && s[i + 2] == 't'
    && s[i + 3] == 'l' && s[i + 4] == 'e' && s[i + 5] == ':'
  }

  predicate StartsWithTag(s: string) {
    TagAt(s, 0)
  }

  /** No line feed anywhere in s: s fits on one line. */
  predicate OneLine(s: string) {
    forall m :: 0 <= m < |s| ==> s[m] != '\n'
  }

  /** The facts about the tag literal the proofs use, checked once. */
  lemma TagShape()
    ensures |Tag| == 6 && Tag[0] == 'T'
    ensures OneLine(Tag) && StartsWithTag(Tag)
  {
  }

  /** TagAt is the comparison of a slice with the tag literal. */
  lemma TagAtIsSlice(s: string, i: int)
    ensures TagAt(s, i) <==> 0 <= i && i + |Tag| <= |s| && s[i..i + |Tag|] == Tag
  {
    if 0 <= i && i + |Tag| <= |s| {
      var w := s[i..i + |Tag|];
      assert w[0] == s[i] && w[1] == s[i + 1] && w[2] == s[i + 2];
      assert w[3] == s[i + 3] && w[4] == s[i + 4] && w[5] == s[i + 5];
      assert Tag == ['T', 'i', 't', 'l', 'e', ':'];
      if TagAt(s, i) {
        assert w == Tag;
      }
    }
  }

  /** A tag inside p is still there once something is appended. */
  lemma TagAtConcat(p: string, q: string, i: int)
    requires TagAt(p, i)
    ensures TagAt(p + q, i)
  {
    assert forall m :: 0 <= m < |p| ==> (p + q)[m] == p[m];
  }

  lemma OneLineConcat(a: string, b: string)
    requires OneLine(a) && OneLine(b)
    ensures OneLine(a + b)
  {
    forall m | 0 <= m < |a + b| ensures (a + b)[m] != '\n' {
      if m >= |a| {
        assert (a + b)[m] == b[m - |a|];
      }
    }
  }

  /** Position i is where a match of either pattern can begin: `^Title:`. */
  predicate TitleAt(s: string, i: int) {
    0 <= i <= |s| && LineStart(s, i) && TagAt(s, i)
  }

  /** j is the first match position at or after i. */
  predicate FirstTitleFrom(s: string, i: int, j: int) {
    TitleAt(s, j) && i <= j && forall m :: i <= m < j ==> !TitleAt(s, m)
  }

  // ---------------------------------------------------------------------------
  // Scanning helpers

  /** Greedy `\s*` from j: the end of the longest run of regex spaces. */
  function SkipSpace(s: string, j: nat): (k: nat)
    requires j <= |s|
    ensures j <= k <= |s|
    ensures forall m :: j <= m < k ==> IsRegexSpace(s[m])
    ensures k == |s| || !IsRegexSpace(s[k])
    decreases |s| - j
  {
    if j == |s| || !IsRegexSpace(s[j]) then j else SkipSpace(s, j + 1)
  }

  /** Position m of s holds a character other than a line feed. */
  predicate NoLineFeedAt(s: string, m: int) {
    0 <= m < |s| && s[m] != '\n'
  }

  /** Greedy `.*` from k: the position of the next line feed, or the end. */
  function LineEnd(s: string, k: nat): (e: nat)
    requires k <= |s|
    ensures k <= e <= |s|
    ensures forall m :: k <= m < e ==> NoLineFeedAt(s, m)
    ensures e == |s| || s[e] == '\n'
    decreases |s| - k
  {
    if k == |s| || s[k] == '\n' then k else LineEnd(s, k + 1)
  }

  /** The line end from k is the only position with LineEnd's two properties. */
  lemma LineEndUnique(s: string, k: nat, e: nat)
    requires k <= e <= |s|
    requires forall m :: k <= m < e ==> s[m] != '\n'
    requires e == |s| || s[e] == '\n'
    ensures LineEnd(s, k) == e
    decreases e - k
  {
    if k < e {
      LineEndUnique(s, k + 1, e);
    }
  }

  /** Every position from k up to the line end holds no line feed. */
  lemma LineEndClear(s: string, k: nat)
    requires k <= |s|
    ensures forall m :: k <= m < LineEnd(s, k) ==> s[m] != '\n'
  {
    forall m | k <= m < LineEnd(s, k) ensures s[m] != '\n' {
      assert NoLineFeedAt(s, m);
    }
  }

  // ---------------------------------------------------------------------------
  // The title: first match of the title pattern, or the placeholder

  /**
   * Group 1 of a match that begins at i, described without running the
   * pattern: after the tag comes the whole run of regex spaces (greedy `\s*`,
   * which may cross line feeds) ending at k, and the group t is the text from
   * k that contains no line feed and reaches a line feed or the end (`.*$`).
   */
  predicate GroupSpan(s: string, i: int, k: int, t: string) {
    0 <= i && i + |Tag| <= k && k + |t| <= |s|
    && (forall m :: i + |Tag| <= m < k ==> IsRegexSpace(s[m]))
    && (k < |s| ==> !IsRegexSpace(s[k]))
    && (forall m :: 0 <= m < |t| ==> s[k + m] == t[m])
    && OneLine(t)
    && (k + |t| == |s| || s[k + |t|] == '\n')
  }

  /** The captured group for a match at i. Greedy `\s*` then `.*` already
      satisfy `$`, so PCRE never backtracks here. */
  function Capture(s: string, i: nat): (t: string)
    requires TitleAt(s, i)
    ensures GroupSpan(s, i, SkipSpace(s, i + |Tag|), t)
  {
    var k := SkipSpace(s, i + |Tag|);
    var e := LineEnd(s, k);
    LineEndClear(s, k);
    assert GroupSpan(s, i, k, s[k..e]);
    s[k..e]
  }

  /** The group of a match is determined: GroupSpan has exactly one solution. */
  lemma GroupSpanUnique(s: string, i: nat, k: int, t: string)
    requires TitleAt(s, i)
    requires GroupSpan(s, i, k, t)
    ensures t == Capture(s, i)
  {
    var k' := SkipSpace(s, i + |Tag|);
    var c := Capture(s, i);
    assert GroupSpan(s, i, k', c);
    assert k == k';
    assert forall m :: k <= m < k + |t| ==> s[m] == t[m - k];
    LineEndUnique(s, k, k + |t|);
    LineEndUnique(s, k, k + |c|);
    assert forall m :: 0 <= m < |t| ==> t[m] == c[m];
  }

  /** preg_match: try each start position from i on; the first that matches
      wins. The result is the offset of the match. */
  function FindTitle(s: string, i: nat): (r: Option<nat>)
    requires i <= |s|
    ensures r.None? <==> forall j :: i <= j <= |s| ==> !TitleAt(s, j)
    ensures r.Some? ==> FirstTitleFrom(s, i, r.value)
    decreases |s| - i
  {
    if TitleAt(s, i) then Some(i)
    else if i == |s| then None
    else FindTitle(s, i + 1)
  }

  /** The group of the first match, or the placeholder when nothing matches. */
  function Title(s: string): (t: string)
    ensures (forall j :: 0 <= j <= |s| ==> !TitleAt(s, j)) ==> t == NoTitle
    ensures forall j :: FirstTitleFrom(s, 0, j) ==> t == Capture(s, j)
  {
    match FindTitle(s, 0)
    case None => NoTitle
    case Some(j) =>
      assert forall j' :: FirstTitleFrom(s, 0, j') ==> j' == j;
      Capture(s, j)
  }

  // ---------------------------------------------------------------------------
  // Lines

  /** The lines of the text from position i on, split at every line feed
      (the line feeds themselves dropped). */
  function LinesFrom(s: string, i: nat): (ls: seq<string>)
    requires i <= |s|
    ensures |ls| >= 1
    ensures forall n :: 0 <= n < |ls| ==> OneLine(ls[n])
    decreases |s| - i
  {
    var e := LineEnd(s, i);
    LineEndClear(s, i);
    if e == |s| then [s[i..e]] else [s[i..e]] + LinesFrom(s, e + 1)
  }

  /** The text split at every line feed. */
  function Lines(s: string): (ls: seq<string>)
    ensures |ls| >= 1
    ensures forall n :: 0 <= n < |ls| ==> OneLine(ls[n])
  {
    LinesFrom(s, 0)
  }

  /** The lines joined with a line feed between neighbours. */
  function Unlines(ls: seq<string>): string
    requires |ls| >= 1
    decreases |ls|
  {
    if |ls| == 1 then ls[0] else ls[0] + "\n" + Unlines(ls[1..])
  }

  lemma UnlinesCons(x: string, ls: seq<string>)
    requires |ls| >= 1
    ensures Unlines([x] + ls) == x + "\n" + Unlines(ls)
  {
    assert ([x] + ls)[1..] == ls;
  }

  /** Joining the lines from i gives the text from i back. */
  lemma {:induction false} UnlinesLinesFrom(s: string, i: nat)
    requires i <= |s|
    ensures Unlines(LinesFrom(s, i)) == s[i..]
    decreases |s| - i
  {
    var e := LineEnd(s, i);
    if e < |s| {
      var rest := LinesFrom(s, e + 1);
      assert LinesFrom(s, i) == [s[i..e]] + rest;
      UnlinesLinesFrom(s, e + 1);
      UnlinesCons(s[i..e], rest);
      SplitAtLineFeed(s, i, e);
    } else {
      assert LinesFrom(s, i) == [s[i..e]];
      assert s[i..e] == s[i..];
    }
  }

  /** The text from i is the part before the line feed at e, the line feed,
      and the part after it. */
  lemma SplitAtLineFeed(s: string, i: nat, e: nat)
    requires i <= e < |s| && s[e] == '\n'
    ensures s[i..] == s[i..e] + "\n" + s[e + 1..]
  {
    assert s[i..] == s[i..e] + s[e..];
    assert s[e..] == "\n" + s[e + 1..];
  }

  /** Joining the lines gives the text back. */
  lemma UnlinesLines(s: string)
    ensures Unlines(Lines(s)) == s
  {
    UnlinesLinesFrom(s, 0);
    assert s[0..] == s;
  }

  /** From position i to its end, s holds exactly the characters of u. */
  predicate TextAt(s: string, i: int, u: string) {
    0 <= i && i + |u| == |s| && forall m :: 0 <= m < |u| ==> s[i + m] == u[m]
  }

  /** The text from i, when it is a join of lines that hold no line feed,
      splits into those lines. */
  lemma {:induction false} LinesFromUnlines(s: string, i: nat, ls: seq<string>)
    requires |ls| >= 1
    requires forall n :: 0 <= n < |ls| ==> OneLine(ls[n])
    requires TextAt(s, i, Unlines(ls))
    ensures LinesFrom(s, i) == ls
    decreases |ls|
  {
    var x := ls[0];
    assert OneLine(x);
    if |ls| == 1 {
      LastLineAt(s, i, x);
    } else {
      var rest := Unlines(ls[1..]);
      var e := i + |x|;
      assert Unlines(ls) == x + "\n" + rest;
      TextAtParts(s, i, x, rest);
      LineEndUnique(s, i, e);
      LinesFromUnlines(s, e + 1, ls[1..]);
      LinesFromStep(s, i);
      assert ls == [x] + ls[1..];
    }
  }

  /** A one-line text x at the end of s, from i, is the last line of s. */
  lemma LastLineAt(s: string, i: nat, x: string)
    requires TextAt(s, i, x) && OneLine(x)
    ensures LinesFrom(s, i) == [x]
  {
    forall m | i <= m < |s| ensures s[m] != '\n' {
      assert s[i + (m - i)] == x[m - i];
    }
    LineEndUnique(s, i, |s|);
    assert s[i..|s|] == x;
  }

  /** The text from i is x, a line feed and r: its parts, by position. */
  lemma TextAtParts(s: string, i: nat, x: string, r: string)
    requires TextAt(s, i, x + "\n" + r)
    ensures i + |x| < |s| && s[i + |x|] == '\n'
    ensures forall m :: i <= m < i + |x| ==> s[m] == x[m - i]
    ensures s[i..i + |x|] == x
    ensures TextAt(s, i + |x| + 1, r)
  {
    var u := x + "\n" + r;
    forall m | i <= m < i + |x| ensures s[m] == x[m - i] {
      assert s[i + (m - i)] == u[m - i];
    }
    assert s[i + |x|] == u[|x|];
    forall m | 0 <= m < |r| ensures s[i + |x| + 1 + m] == r[m] {
      assert s[i + (|x| + 1 + m)] == u[|x| + 1 + m];
    }
  }

  /** Splitting joined lines that hold no line feed gives the lines back. */
  lemma LinesUnlines(ls: seq<string>)
    requires |ls| >= 1
    requires forall n :: 0 <= n < |ls| ==> OneLine(ls[n])
    ensures Lines(Unlines(ls)) == ls
  {
    var s := Unlines(ls);
    assert TextAt(s, 0, s);
    LinesFromUnlines(s, 0, ls);
  }

  // ---------------------------------------------------------------------------
  // The body: every title line removed, then trimmed

  /** A line matched by `^Title:.*$`, replaced by the empty string. */
  function BlankLine(line: string): string {
    if StartsWithTag(line) then "" else line
  }

  function BlankTitleLines(ls: seq<string>): (r: seq<string>)
    ensures |r| == |ls|
    ensures forall n :: 0 <= n < |ls| ==> r[n] == BlankLine(ls[n])
  {
    seq(|ls|, n requires 0 <= n < |ls| => BlankLine(ls[n]))
  }

  /** From position i on, every line that begins with the tag becomes empty
      and its line feed stays. Line by line: the line at i, blanked or kept,
      then the rest. */
  function StripFrom(s: string, i: nat): string
    requires i <= |s|
    decreases |s| - i
  {
    var e := LineEnd(s, i);
    if e == |s| then BlankLine(s[i..e]) else BlankLine(s[i..e]) + "\n" + StripFrom(s, e + 1)
  }

  /** The whole text with every title line blanked. */
  function StripTitleLines(s: string): string {
    StripFrom(s, 0)
  }

  /**
   * preg_replace as PCRE runs it: scan the text from i; where `^Title:`
   * matches, drop the match (the tag and `.*`, up to the next line feed) and
   * resume after it; elsewhere copy one character and move on.
   */
  function ReplaceFrom(s: string, i: nat): string
    requires i <= |s|
    decreases |s| - i
  {
    if TitleAt(s, i) then ReplaceFrom(s, LineEnd(s, i + |Tag|))
    else if i == |s| then ""
    else [s[i]] + ReplaceFrom(s, i + 1)
  }

  /** Leading/trailing run of trim characters: first kept index from a. */
  function TrimStart(s: string, a: nat): (k: nat)
    requires a <= |s|
    ensures a <= k <= |s|
    ensures forall m :: a <= m < k ==> IsTrimSpace(s[m])
    ensures k == |s| || !IsTrimSpace(s[k])
    decreases |s| - a
  {
    if a == |s| || !IsTrimSpace(s[a]) then a else TrimStart(s, a + 1)
  }

  /** One past the last kept index in s[a..b]. */
  function TrimEnd(s: string, a: nat, b: nat): (k: nat)
    requires a <= b <= |s|
    ensures a <= k <= b
    ensures forall m :: k <= m < b ==> IsTrimSpace(s[m])
    ensures k == a || !IsTrimSpace(s[k - 1])
    decreases b
  {
    if b == a || !IsTrimSpace(s[b - 1]) then b else TrimEnd(s, a, b - 1)
  }

  /** PHP `trim` with its default character list. */
  function Trim(s: string): (r: string)
    ensures r == [] || (!IsTrimSpace(r[0]) && !IsTrimSpace(r[|r| - 1]))
    ensures exists a :: TrimSplit(s, a, r)
  {
    var a := TrimStart(s, 0);
    var b := TrimEnd(s, a, |s|);
    assert TrimSplit(s, a, s[a..b]);
    s[a..b]
  }

  /** s is r with a run of trim characters before it (of length a) and after it. */
  predicate TrimSplit(s: string, a: int, r: string) {
    0 <= a && a + |r| <= |s| && s[a..a + |r|] == r
    && (forall m :: 0 <= m < a ==> IsTrimSpace(s[m]))
    && (forall m :: a + |r| <= m < |s| ==> IsTrimSpace(s[m]))
  }

  /** The body stored for the post. */
  function Body(s: string): (b: string)
    ensures b == [] || (!IsTrimSpace(b[0]) && !IsTrimSpace(b[|b| - 1]))
  {
    Trim(StripTitleLines(s))
  }

  datatype Extracted = Extracted(title: string, body: string)

  /** Both halves of the extraction, as the handler stores them. */
  function Extract(s: string): (x: Extracted)
    ensures (forall j :: 0 <= j <= |s| ==> !TitleAt(s, j)) ==> x.title == NoTitle
    ensures forall j :: FirstTitleFrom(s, 0, j) ==> x.title == Capture(s, j)
    ensures x.body == [] || (!IsTrimSpace(x.body[0]) && !IsTrimSpace(x.body[|x.body| - 1]))
  {
    Extracted(Title(s), Body(s))
  }

  // ---------------------------------------------------------------------------
  // The regex replacement is line blanking

  /** The replacement from i, seen on the list of lines: split, blank each
      title line, join. */
  lemma {:induction false} StripFromIsBlanking(s: string, i: nat)
    requires i <= |s|
    ensures StripFrom(s, i) == Unlines(BlankTitleLines(LinesFrom(s, i)))
    decreases |s| - i
  {
    if LineEnd(s, i) < |s| {
      StripFromIsBlanking(s, LineEnd(s, i) + 1);
      BlankingStep(s, i);
    } else {
      BlankingLastLine(s, i);
    }
  }

  /** The last line: both sides blank it alone. */
  lemma BlankingLastLine(s: string, i: nat)
    requires i <= |s| && LineEnd(s, i) == |s|
    ensures StripFrom(s, i) == Unlines(BlankTitleLines(LinesFrom(s, i)))
  {
    var x := s[i..LineEnd(s, i)];
    assert LinesFrom(s, i) == [x];
    assert BlankTitleLines([x]) == [BlankLine(x)];
  }

  /** A line that ends in a line feed: if both sides agree after it, they
      agree from its start. */
  lemma BlankingStep(s: string, i: nat)
    requires i <= |s| && LineEnd(s, i) < |s|
    requires StripFrom(s, LineEnd(s, i) + 1) == Unlines(BlankTitleLines(LinesFrom(s, LineEnd(s, i) + 1)))
    ensures StripFrom(s, i) == Unlines(BlankTitleLines(LinesFrom(s, i)))
  {
    LinesFromStep(s, i);
    StripFromStep(s, i);
    BlankedCons(s[i..LineEnd(s, i)], LinesFrom(s, LineEnd(s, i) + 1));
  }

  /** LinesFrom unfolded once, for a line that ends in a line feed. */
  lemma LinesFromStep(s: string, i: nat)
    requires i <= |s| && LineEnd(s, i) < |s|
    ensures LinesFrom(s, i) == [s[i..LineEnd(s, i)]] + LinesFrom(s, LineEnd(s, i) + 1)
  {
  }

  /** StripFrom unfolded once, for a line that ends in a line feed. */
  lemma StripFromStep(s: string, i: nat)
    requires i <= |s| && LineEnd(s, i) < |s|
    ensures StripFrom(s, i) == BlankLine(s[i..LineEnd(s, i)]) + "\n" + StripFrom(s, LineEnd(s, i) + 1)
  {
  }

  lemma StripIsBlanking(s: string)
    ensures StripTitleLines(s) == Unlines(BlankTitleLines(Lines(s)))
  {
    StripFromIsBlanking(s, 0);
  }

  lemma BlankCons(x: string, ls: seq<string>)
    ensures BlankTitleLines([x] + ls) == [BlankLine(x)] + BlankTitleLines(ls)
  {
  }

  /** Blanking and joining a leading line and the lines after it. */
  lemma BlankedCons(x: string, ls: seq<string>)
    requires |ls| >= 1
    ensures Unlines(BlankTitleLines([x] + ls)) == BlankLine(x) + "\n" + Unlines(BlankTitleLines(ls))
  {
    BlankCons(x, ls);
    UnlinesCons(BlankLine(x), BlankTitleLines(ls));
  }

  /** Outside a match the scan copies the rest of the line unchanged. */
  lemma {:induction false} CopyRun(s: string, j: nat)
    requires j <= |s|
    requires !TitleAt(s, j)
    ensures ReplaceFrom(s, j) == s[j..LineEnd(s, j)] + ReplaceFrom(s, LineEnd(s, j))
    decreases |s| - j
  {
    if j < |s| && s[j] != '\n' {
      assert !LineStart(s, j + 1);
      CopyRun(s, j + 1);
      CopyStep(s, j);
    } else {
      assert s[j..LineEnd(s, j)] == [];
    }
  }

  /** One character of a copied run: the scan copies s[j] and goes on. */
  lemma CopyStep(s: string, j: nat)
    requires j < |s| && s[j] != '\n' && !TitleAt(s, j)
    requires ReplaceFrom(s, j + 1) == s[j + 1..LineEnd(s, j + 1)] + ReplaceFrom(s, LineEnd(s, j + 1))
    ensures ReplaceFrom(s, j) == s[j..LineEnd(s, j)] + ReplaceFrom(s, LineEnd(s, j))
  {
    var e := LineEnd(s, j);
    assert LineEnd(s, j + 1) == e;
    var rest := ReplaceFrom(s, e);
    assert ReplaceFrom(s, j) == [s[j]] + (s[j + 1..e] + rest);
    ConcatAssoc([s[j]], s[j + 1..e], rest);
    assert [s[j]] + s[j + 1..e] == s[j..e];
  }

  /** Any position inside a line has the same line end. */
  lemma LineEndWithin(s: string, i: nat, k: nat)
    requires i <= |s|
    requires i <= k <= LineEnd(s, i)
    ensures LineEnd(s, k) == LineEnd(s, i)
  {
    LineEndClear(s, i);
    LineEndUnique(s, k, LineEnd(s, i));
  }

  /** A match starts at a line start exactly when that line begins with the tag. */
  lemma TitleAtLine(s: string, i: nat)
    requires i <= |s|
    requires LineStart(s, i)
    ensures TitleAt(s, i) <==> StartsWithTag(s[i..LineEnd(s, i)])
  {
    var e := LineEnd(s, i);
    var w := s[i..e];
    assert forall m :: 0 <= m < |w| ==> w[m] == s[i + m];
    if TagAt(s, i) {
      assert i + |Tag| <= e;
    }
  }

  /** At a line start the scan drops the line if it is a title line and
      copies it otherwise, then stops at the line's end. */
  lemma HeadStep(s: string, i: nat)
    requires i <= |s|
    requires LineStart(s, i)
    ensures ReplaceFrom(s, i) == BlankLine(s[i..LineEnd(s, i)]) + ReplaceFrom(s, LineEnd(s, i))
  {
    var e := LineEnd(s, i);
    TitleAtLine(s, i);
    if TitleAt(s, i) {
      assert |Tag| <= e - i;
      LineEndWithin(s, i, i + |Tag|);
    } else {
      CopyRun(s, i);
    }
  }

  /** A line feed is never part of a match: the scan copies it. */
  lemma TailStep(s: string, e: nat)
    requires e < |s| && s[e] == '\n'
    ensures ReplaceFrom(s, e) == "\n" + ReplaceFrom(s, e + 1)
  {
    assert !TagAt(s, e);
  }

  /** The scan over a line and the line feed that ends it. */
  lemma ReplaceLineFeed(s: string, i: nat)
    requires i <= |s|
    requires LineStart(s, i)
    requires LineEnd(s, i) < |s|
    ensures ReplaceFrom(s, i)
            == BlankLine(s[i..LineEnd(s, i)]) + ("\n" + ReplaceFrom(s, LineEnd(s, i) + 1))
  {
    HeadStep(s, i);
    TailStep(s, LineEnd(s, i));
  }

  /** Two texts that are the same line, a line feed and the same rest. */
  lemma JoinAtLineFeed(x: string, y: string, b: string, r: string, r': string)
    requires x == b + ("\n" + r)
    requires y == b + "\n" + r'
    requires r == r'
    ensures x == y
  {
    ConcatAssoc(b, "\n", r);
  }

  lemma ConcatAssoc(a: string, b: string, c: string)
    ensures a + (b + c) == a + b + c
  {
  }

  /** From any line start, the scan gives the line-blanked rest of the text. */
  lemma {:induction false} ReplaceLines(s: string, i: nat)
    requires i <= |s|
    requires LineStart(s, i)
    ensures ReplaceFrom(s, i) == StripFrom(s, i)
    decreases |s| - i
  {
    if LineEnd(s, i) == |s| {
      ReplaceLastLine(s, i);
    } else {
      ReplaceLines(s, LineEnd(s, i) + 1);
      ReplaceStep(s, i);
    }
  }

  /** On the last line the scan and the line blanking agree. */
  lemma ReplaceLastLine(s: string, i: nat)
    requires i <= |s| && LineStart(s, i)
    requires LineEnd(s, i) == |s|
    ensures ReplaceFrom(s, i) == StripFrom(s, i)
  {
    HeadStep(s, i);
    assert ReplaceFrom(s, |s|) == "";
  }

  /** The scan and the line blanking agree from a line start once they agree
      after the line's line feed. */
  lemma ReplaceStep(s: string, i: nat)
    requires i <= |s| && LineStart(s, i)
    requires LineEnd(s, i) < |s|
    requires ReplaceFrom(s, LineEnd(s, i) + 1) == StripFrom(s, LineEnd(s, i) + 1)
    ensures ReplaceFrom(s, i) == StripFrom(s, i)
  {
    ReplaceLineFeed(s, i);
    StripFromStep(s, i);
    JoinAtLineFeed(ReplaceFrom(s, i), StripFrom(s, i), BlankLine(s[i..LineEnd(s, i)]),
                   ReplaceFrom(s, LineEnd(s, i) + 1), StripFrom(s, LineEnd(s, i) + 1));
  }

  /** Replacing every match of the line pattern by the empty string blanks
      exactly the lines that begin with "Title:", keeping every line feed and
      every other line, in order. */
  lemma ReplaceIsLineBlanking(s: string)
    ensures ReplaceFrom(s, 0) == StripTitleLines(s)
    ensures Lines(ReplaceFrom(s, 0)) == BlankTitleLines(Lines(s))
  {
    ReplaceLines(s, 0);
    StripIsBlanking(s);
    var ls := BlankTitleLines(Lines(s));
    forall n | 0 <= n < |ls| ensures OneLine(ls[n]) {
    }
    LinesUnlines(ls);
  }

  // ---------------------------------------------------------------------------
  // Title positions are title lines

  /** A match position after the first line feed is a match position of the
      text that follows it. */
  lemma TitleAtShift(s: string, e: nat, j: int)
    requires e < |s| && s[e] == '\n'
    requires e < j
    ensures TitleAt(s, j) <==> TitleAt(s[e + 1..], j - e - 1)
  {
    var r := s[e + 1..];
    assert forall m :: e + 1 <= m < |s| ==> s[m] == r[m - e - 1];
  }

  /** A match position at or after the line start i begins one of the lines
      from i; n is that line. */
  lemma {:induction false} TitleAtIsTitleLineFrom(s: string, i: nat, j: int) returns (n: nat)
    requires i <= |s| && LineStart(s, i)
    requires i <= j && TitleAt(s, j)
    ensures n < |LinesFrom(s, i)| && StartsWithTag(LinesFrom(s, i)[n])
    decreases |s| - i
  {
    var e := LineEnd(s, i);
    LineEndClear(s, i);
    if j <= e {
      assert j == i;
      TitleAtLine(s, i);
      n := 0;
    } else {
      var n' := TitleAtIsTitleLineFrom(s, e + 1, j);
      n := n' + 1;
    }
  }

  /** A line from the line start i on that begins with "Title:" starts at a
      match position j. */
  lemma {:induction false} TitleLineIsTitleAtFrom(s: string, i: nat, n: nat) returns (j: nat)
    requires i <= |s| && LineStart(s, i)
    requires n < |LinesFrom(s, i)| && StartsWithTag(LinesFrom(s, i)[n])
    ensures TitleAt(s, j)
    decreases |s| - i
  {
    var e := LineEnd(s, i);
    if n == 0 {
      TitleAtLine(s, i);
      j := i;
    } else {
      j := TitleLineIsTitleAtFrom(s, e + 1, n - 1);
    }
  }

  /** Some position matches `^Title:` iff some line begins with "Title:". */
  lemma TitleAtIffTitleLine(s: string)
    ensures (exists j :: TitleAt(s, j))
      <==> (exists n :: 0 <= n < |Lines(s)| && StartsWithTag(Lines(s)[n]))
  {
    assert Lines(s) == LinesFrom(s, 0);
    if exists j :: TitleAt(s, j) {
      var j :| TitleAt(s, j);
      var n := TitleAtIsTitleLineFrom(s, 0, j);
    }
    if exists n :: 0 <= n < |Lines(s)| && StartsWithTag(Lines(s)[n]) {
      var n :| 0 <= n < |Lines(s)| && StartsWithTag(Lines(s)[n]);
      var j := TitleLineIsTitleAtFrom(s, 0, n);
    }
  }

  /** No line of the replaced text begins with "Title:". */
  lemma NoTitleLineLeft(s: string)
    ensures forall j :: !TitleAt(StripTitleLines(s), j)
  {
    var u := StripTitleLines(s);
    ReplaceIsLineBlanking(s);
    TitleAtIffTitleLine(u);
    forall n | 0 <= n < |Lines(u)| ensures !StartsWithTag(Lines(u)[n]) {
      assert Lines(u)[n] == BlankLine(Lines(s)[n]);
    }
  }

  // ---------------------------------------------------------------------------
  // Trim

  /** TrimSplit with non-blank ends pins down PHP's trim: it is an
      independent description of Trim. */
  lemma TrimUnique(s: string, a: nat, r: string)
    requires TrimSplit(s, a, r)
    requires r == [] || (!IsTrimSpace(r[0]) && !IsTrimSpace(r[|r| - 1]))
    ensures Trim(s) == r
  {
    var r' := Trim(s);
    var a' :| TrimSplit(s, a', r');
    if r != [] && r' != [] {
      assert s[a] == r[0] && s[a'] == r'[0];
      assert a == a';
      assert s[a + |r| - 1] == r[|r| - 1] && s[a' + |r'| - 1] == r'[|r'| - 1];
      assert |r| == |r'|;
    }
  }

  /** Trimming twice is trimming once. */
  lemma TrimIdempotent(s: string)
    ensures Trim(Trim(s)) == Trim(s)
  {
    var r := Trim(s);
    assert r[0..] == r;
    TrimUnique(r, 0, r);
  }

  /** A text made only of trim characters trims to the empty string. */
  lemma TrimAllSpace(s: string)
    requires forall m :: 0 <= m < |s| ==> IsTrimSpace(s[m])
    ensures Trim(s) == ""
  {
    TrimUnique(s, 0, "");
  }

  // ---------------------------------------------------------------------------
  // Bodies

  predicate AllTrimSpace(line: string) {
    forall m :: 0 <= m < |line| ==> IsTrimSpace(line[m])
  }

  lemma {:induction false} UnlinesAllSpace(ls: seq<string>)
    requires |ls| >= 1
    requires forall n :: 0 <= n < |ls| ==> AllTrimSpace(ls[n])
    ensures AllTrimSpace(Unlines(ls))
    decreases |ls|
  {
    if |ls| > 1 {
      UnlinesAllSpace(ls[1..]);
      var u := Unlines(ls);
      var w := Unlines(ls[1..]);
      assert u == ls[0] + "\n" + w;
      forall m | 0 <= m < |u| ensures IsTrimSpace(u[m]) {
        if m < |ls[0]| {
          assert u[m] == ls[0][m];
        } else if m > |ls[0]| {
          assert u[m] == w[m - |ls[0]| - 1];
        }
      }
    }
  }

  /** A text whose every line is a title line or blank has an empty body. */
  lemma OnlyTitleLinesGiveEmptyBody(s: string)
    requires forall n :: 0 <= n < |Lines(s)| ==> StartsWithTag(Lines(s)[n]) || AllTrimSpace(Lines(s)[n])
    ensures Body(s) == ""
  {
    var ls := BlankTitleLines(Lines(s));
    StripIsBlanking(s);
    UnlinesAllSpace(ls);
    TrimAllSpace(StripTitleLines(s));
  }

  // ---------------------------------------------------------------------------
  // Texts built line by line

  /** A text without title lines comes out of the replacement unchanged. */
  lemma StripNoTitle(s: string)
    requires forall j :: !TitleAt(s, j)
    ensures StripTitleLines(s) == s
  {
    TitleAtIffTitleLine(s);
    StripIsBlanking(s);
    var ls := Lines(s);
    assert BlankTitleLines(ls) == ls;
    UnlinesLines(s);
  }

  /** Lines none of which begins with "Title:" join to a text with no match. */
  lemma NoTitleInLines(ls: seq<string>)
    requires |ls| >= 1
    requires forall n :: 0 <= n < |ls| ==> OneLine(ls[n]) && !StartsWithTag(ls[n])
    ensures forall j :: !TitleAt(Unlines(ls), j)
  {
    LinesUnlines(ls);
    TitleAtIffTitleLine(Unlines(ls));
  }

  /** A leading title line is blanked; its line feed stays. */
  lemma StripTitleLineHead(x: string, b: string)
    requires OneLine(x) && StartsWithTag(x)
    ensures StripTitleLines(x + "\n" + b) == "\n" + StripTitleLines(b)
  {
    StripCons(x, b);
  }

  /** A leading line that is not a title line is kept by the replacement. */
  lemma StripPlainLineHead(x: string, b: string)
    requires OneLine(x) && !StartsWithTag(x)
    ensures StripTitleLines(x + "\n" + b) == x + "\n" + StripTitleLines(b)
  {
    StripCons(x, b);
  }

  /** A line joined to the front of a text comes before the text's lines. */
  lemma LinesCons(x: string, b: string)
    requires OneLine(x)
    ensures Lines(x + "\n" + b) == [x] + Lines(b)
  {
    var ls := [x] + Lines(b);
    UnlinesLines(b);
    UnlinesCons(x, Lines(b));
    forall n | 0 <= n < |ls| ensures OneLine(ls[n]) {
      if n > 0 {
        assert ls[n] == Lines(b)[n - 1];
      }
    }
    LinesUnlines(ls);
  }

  /** The replacement on a leading line and the rest of the text. */
  lemma StripCons(x: string, b: string)
    requires OneLine(x)
    ensures StripTitleLines(x + "\n" + b) == BlankLine(x) + "\n" + StripTitleLines(b)
  {
    LinesCons(x, b);
    StripIsBlanking(x + "\n" + b);
    StripIsBlanking(b);
    BlankedCons(x, Lines(b));
  }

  /** Trim characters in front of an already trimmed text all go. */
  lemma TrimLeading(w: string, c: string)
    requires forall m :: 0 <= m < |w| ==> IsTrimSpace(w[m])
    requires c == [] || (!IsTrimSpace(c[0]) && !IsTrimSpace(c[|c| - 1]))
    ensures Trim(w + c) == c
  {
    var u := w + c;
    assert u[|w|..|w| + |c|] == c;
    assert forall m :: 0 <= m < |w| ==> u[m] == w[m];
    TrimUnique(u, |w|, c);
  }

  /** A title line of the form "Title: " and the title. */
  lemma TitleOfFormatted(t: string, r: string)
    requires t != [] && !IsRegexSpace(t[0]) && OneLine(t)
    ensures Title(Tag + " " + t + "\n" + r) == t
  {
    ConcatAssoc(Tag + " " + t, "\n", r);
    TitleOfHead(" ", t, "\n" + r);
  }

  /** "Title: " and a one-line title make a title line. */
  lemma FormattedIsTitleLine(t: string)
    requires OneLine(t)
    ensures OneLine(Tag + " " + t) && StartsWithTag(Tag + " " + t)
  {
    TagShape();
    assert OneLine(" ");
    OneLineConcat(Tag, " ");
    OneLineConcat(Tag + " ", t);
    TagAtConcat(Tag, " " + t, 0);
    ConcatAssoc(Tag, " ", t);
  }

  /** The two halves settle the extraction. */
  lemma ExtractParts(s: string, t: string, b: string)
    requires Title(s) == t && Body(s) == b
    ensures Extract(s) == Extracted(t, b)
  {
  }

  /** A text that opens with a title line: `Tag`, then regex spaces w (line
      feeds included), then the group t up to a line feed or the end. */
  lemma TitleOfHead(w: string, t: string, b: string)
    requires forall m :: 0 <= m < |w| ==> IsRegexSpace(w[m])
    requires t != [] && !IsRegexSpace(t[0]) && OneLine(t)
    requires b == [] || b[0] == '\n'
    ensures Title(Tag + w + t + b) == t
  {
    var s := Tag + w + t + b;
    var k := |Tag| + |w|;
    assert TitleAt(s, 0) by {
      TagShape();
      TagAtConcat(Tag, w + t + b, 0);
      ConcatAssoc(Tag, w, t);
      ConcatAssoc(Tag, w + t, b);
      ConcatAssoc(Tag + w, t, b);
    }
    assert FirstTitleFrom(s, 0, 0);
    assert forall m :: |Tag| <= m < k ==> s[m] == w[m - |Tag|];
    assert forall m :: 0 <= m < |t| ==> s[k + m] == t[m];
    assert k + |t| < |s| ==> s[k + |t|] == b[0];
    assert GroupSpan(s, 0, k, t);
    GroupSpanUnique(s, 0, k, t);
  }

  /** A group span in a suffix of the text is a group span of the text. */
  lemma GroupSpanShift(s: string, d: nat, i: nat, k: int, t: string)
    requires d <= |s|
    requires GroupSpan(s[d..], i, k, t)
    ensures GroupSpan(s, i + d, k + d, t)
  {
    var r := s[d..];
    assert forall m :: 0 <= m < |r| ==> r[m] == s[m + d];
  }

  /** A match in the text after a line feed is a match of the whole text,
      with the same group. */
  lemma CaptureShift(s: string, d: nat, i: nat)
    requires 0 < d <= |s| && s[d - 1] == '\n'
    requires TitleAt(s[d..], i)
    ensures TitleAt(s, i + d)
    ensures Capture(s, i + d) == Capture(s[d..], i)
  {
    TitleAtShift(s, d - 1, i + d);
    CaptureShiftGroup(s, d, i);
  }

  /** The group part of CaptureShift. */
  lemma CaptureShiftGroup(s: string, d: nat, i: nat)
    requires d <= |s| && TitleAt(s[d..], i) && TitleAt(s, i + d)
    ensures Capture(s, i + d) == Capture(s[d..], i)
  {
    var k := ShiftedSpan(s, d, i);
    GroupSpanUnique(s, i + d, k, Capture(s[d..], i));
  }

  /** The group of a match in a suffix spans the same text in the whole. */
  lemma ShiftedSpan(s: string, d: nat, i: nat) returns (k: int)
    requires d <= |s| && TitleAt(s[d..], i)
    ensures GroupSpan(s, i + d, k, Capture(s[d..], i))
  {
    var r := s[d..];
    var k' := SkipSpace(r, i + |Tag|);
    GroupSpanShift(s, d, i, k', Capture(r, i));
    k := k' + d;
  }

  /** A text whose first line does not begin with the tag does not either. */
  lemma PlainLineNoTag(x: string, r: string)
    requires OneLine(x) && !StartsWithTag(x)
    ensures !StartsWithTag(x + "\n" + r)
  {
    var s := x + "\n" + r;
    assert forall m :: 0 <= m < |x| ==> s[m] == x[m];
    assert s[|x|] == '\n';
  }

  /** A first line that is not a title line has no say in the title. */
  lemma TitleSkipsPlainLine(x: string, r: string)
    requires OneLine(x) && !StartsWithTag(x)
    ensures Title(x + "\n" + r) == Title(r)
  {
    var s := x + "\n" + r;
    var d := |x| + 1;
    assert s[d..] == r;
    assert s[|x|] == '\n';
    PlainLineNoTag(x, r);
    assert s[0..] == s;
    forall j | 0 < j < d ensures !TitleAt(s, j) {
      assert s[j - 1] == x[j - 1];
    }
    forall j | d <= j ensures TitleAt(s, j) <==> TitleAt(r, j - d) {
      TitleAtShift(s, |x|, j);
    }
    match FindTitle(r, 0)
    case None =>
    case Some(i) =>
      CaptureShift(s, d, i);
      assert FirstTitleFrom(s, 0, i + d);
  }

  /** No title line: the placeholder title and the trimmed text as the body. */
  lemma NoTitleLine(s: string)
    requires forall j :: !TitleAt(s, j)
    ensures Extract(s) == Extracted(NoTitle, Trim(s))
  {
    StripNoTitle(s);
  }

  /**
   * A reply that opens with a "Title: " line and then the article
   * comes apart into exactly that title and article, provided the title does
   * not start with a blank, the article has no title line of its own and is
   * already trimmed.
   */
  lemma ExtractRoundTrip(t: string, b: string)
    requires t != [] && !IsRegexSpace(t[0]) && OneLine(t)
    requires forall j :: !TitleAt(b, j)
    requires b == [] || (!IsTrimSpace(b[0]) && !IsTrimSpace(b[|b| - 1]))
    ensures Extract(Tag + " " + t + "\n" + b) == Extracted(t, b)
  {
    var s := Tag + " " + t + "\n" + b;
    assert Title(s) == t by {
      TitleOfFormatted(t, b);
    }
    assert Body(s) == b by {
      assert StripTitleLines(s) == "\n" + b by {
        FormattedIsTitleLine(t);
        StripTitleLineHead(Tag + " " + t, b);
        StripNoTitle(b);
      }
      TrimLeading("\n", b);
    }
    ExtractParts(s, t, b);
  }

  /** Every title line goes, not only the first; the first gives the title. */
  lemma EveryTitleLineRemoved(a: string, y: string, c: string)
    requires a != [] && !IsRegexSpace(a[0]) && OneLine(a)
    requires OneLine(y) && StartsWithTag(y)
    requires forall j :: !TitleAt(c, j)
    requires c == [] || (!IsTrimSpace(c[0]) && !IsTrimSpace(c[|c| - 1]))
    ensures Extract(Tag + " " + a + "\n" + (y + "\n" + c)) == Extracted(a, c)
  {
    var r := y + "\n" + c;
    var s := Tag + " " + a + "\n" + r;
    assert Title(s) == a by {
      TitleOfFormatted(a, r);
    }
    assert Body(s) == c by {
      TwoTitleLinesBlanked(a, y, c);
      TrimLeading("\n" + "\n", c);
    }
    ExtractParts(s, a, c);
  }

  /** Two leading title lines both become empty lines. */
  lemma TwoTitleLinesBlanked(a: string, y: string, c: string)
    requires OneLine(a)
    requires OneLine(y) && StartsWithTag(y)
    requires forall j :: !TitleAt(c, j)
    ensures StripTitleLines(Tag + " " + a + "\n" + (y + "\n" + c)) == "\n" + "\n" + c
  {
    var r := y + "\n" + c;
    assert StripTitleLines(r) == "\n" + c by {
      StripTitleLineHead(y, c);
      StripNoTitle(c);
    }
    FormattedIsTitleLine(a);
    StripTitleLineHead(Tag + " " + a, r);
    ConcatAssoc("\n", "\n", c);
  }

  /** A bare "Title:" line: `\s*` runs over the line feed, so the next line
      becomes the title, and that line stays in the body as well. */
  lemma BareTitleLineBorrowsNext(t: string, c: string)
    requires t != [] && !IsRegexSpace(t[0]) && !IsTrimSpace(t[0]) && OneLine(t) && !StartsWithTag(t)
    requires forall j :: !TitleAt(c, j)
    requires c != [] && !IsTrimSpace(c[|c| - 1])
    ensures Extract(Tag + "\n" + (t + "\n" + c)) == Extracted(t, t + "\n" + c)
  {
    var r := t + "\n" + c;
    var s := Tag + "\n" + r;
    assert Title(s) == t by {
      assert s == Tag + "\n" + t + ("\n" + c) by {
        ConcatAssoc(Tag + "\n", t + "\n", c);
        ConcatAssoc(Tag + "\n", t, "\n");
        ConcatAssoc(Tag + "\n" + t, "\n", c);
      }
      TitleOfHead("\n", t, "\n" + c);
    }
    assert Body(s) == r by {
      assert StripTitleLines(s) == "\n" + r by {
        assert StripTitleLines(r) == r by {
          StripPlainLineHead(t, c);
          StripNoTitle(c);
        }
        TagShape();
        StripTitleLineHead(Tag, r);
      }
      assert r[0] == t[0] && r[|r| - 1] == c[|c| - 1];
      TrimLeading("\n", r);
    }
    ExtractParts(s, t, r);
  }

  /** Trimming runs after the replacement: after a title line, a line made of
      indentation w and then a line v that begins with "Title:" survives the
      replacement, and trimming then makes v, tag first, the whole body. */
  lemma IndentedTagOpensBody(x: string, w: string, v: string)
    requires OneLine(x) && StartsWithTag(x)
    requires w != [] && forall m :: 0 <= m < |w| ==> IsTrimSpace(w[m]) && w[m] != '\n'
    requires OneLine(v) && StartsWithTag(v) && !IsTrimSpace(v[|v| - 1])
    ensures Body(x + "\n" + (w + v)) == v
  {
    var c := w + v;
    assert StripTitleLines(c) == c by {
      assert !StartsWithTag(c) by {
        assert c[0] == w[0];
      }
      assert OneLine(c) by {
        forall m | 0 <= m < |c| ensures c[m] != '\n' {
          if m < |w| {
            assert c[m] == w[m];
          } else {
            assert c[m] == v[m - |w|];
          }
        }
      }
      NoTitleInLines([c]);
      StripNoTitle(c);
    }
    StripTitleLineHead(x, c);
    ConcatAssoc("\n", w, v);
    assert v[0] == 'T';
    TrimLeading("\n" + w, v);
  }

  // ---------------------------------------------------------------------------
  // Worked cases on concrete replies

  /** "Title: Hello World\nSome body text." gives the title "Hello World"
      and the body "Some body text.". */
  lemma ExampleTitleThenBody()
    ensures Extract(Tag + " " + "Hello World" + "\n" + "Some body text.")
            == Extracted("Hello World", "Some body text.")
  {
    var b := "Some body text.";
    assert !StartsWithTag(b) by {
      assert b[0] == 'S';
    }
    NoTitleInLines([b]);
    ExtractRoundTrip("Hello World", b);
  }

  /** "Title: A\nTitle: B\nBody here" gives the title "A" and the body "Body here". */
  lemma ExampleTwoTitleLines()
    ensures Extract(Tag + " " + "A" + "\n" + (Tag + " B" + "\n" + "Body here"))
            == Extracted("A", "Body here")
  {
    var c := "Body here";
    assert !StartsWithTag(c) by {
      assert c[0] == 'B';
    }
    NoTitleInLines([c]);
    TagShape();
    TagAtConcat(Tag, " B", 0);
    EveryTitleLineRemoved("A", Tag + " B", c);
  }

  /** "Title:\nNext line\nBody" gives the title "Next line" and the body
      "Next line\nBody". */
  lemma ExampleBareTitleLine()
    ensures Extract(Tag + "\n" + ("Next line" + "\n" + "Body"))
            == Extracted("Next line", "Next line" + "\n" + "Body")
  {
    assert !StartsWithTag("Next line") by {
      assert "Next line"[0] == 'N';
    }
    NoTitleInLines(["Body"]);
    BareTitleLineBorrowsNext("Next line", "Body");
  }

  /** "Title: A\n  Title: B" gives the body "Title: B". */
  lemma ExampleBodyOpensWithTag()
    ensures Body(Tag + " A" + "\n" + ("  " + (Tag + " B"))) == Tag + " B"
  {
    TagShape();
    TagAtConcat(Tag, " A", 0);
    TagAtConcat(Tag, " B", 0);
    IndentedTagOpensBody(Tag + " A", "  ", Tag + " B");
  }

  /** "Intro\nTitle: Hi \r\nText" gives the title "Hi \r": not trimmed. */
  lemma ExampleUntrimmedTitle()
    ensures Title("Intro" + "\n" + (Tag + " " + "Hi \r" + "\n" + "Text")) == "Hi \r"
  {
    assert !StartsWithTag("Intro");
    assert "Hi \r" != [];
    assert !IsRegexSpace("Hi \r"[0]);
    assert OneLine("Hi \r");
    TitleSkipsPlainLine("Intro", Tag + " " + "Hi \r" + "\n" + "Text");
    TitleOfFormatted("Hi \r", "Text");
  }
}
