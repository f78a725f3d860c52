/**
 * One chat bubble, src/components/chat-message.tsx: the content split around words holding
 * "chill" so that those are highlighted, the whole-message "chill" flag, the sender's initials
 * and which header and avatar a bubble shows. The split follows the ECMAScript algorithm of
 * `RegExp.prototype[Symbol.split]` with the pattern `(?<![A-Za-z])(\S*chill\S*\b)` under the
 * `i` flag, whose one capturing group is the whole match; the pattern's backtracking is written
 * out as a search.
 */
module ChatMessageView {
  import opened Common
  import opened Seqs
  import opened Text
  import opened RealtimeChat
  import opened UserFormat

  /** `\w` without the `u` flag. */
  predicate IsWordChar(c: char) {
    IsAsciiLetter(c) || IsAsciiDigit(c) || c == '_'
  }

  /** `\b` at position `e`: exactly one side of it is a word character. */
  predicate WordBoundary(s: string, e: nat)
    requires e <= |s|
  {
    (e > 0 && IsWordChar(s[e - 1])) != (e < |s| && IsWordChar(s[e]))
  }

  /** "chill", case-insensitively, starts at `i`. */
  predicate ChillAt(s: string, i: int) {
    && 0 <= i && i + 5 <= |s|
    && LowerChar(s[i]) == 'c' && LowerChar(s[i + 1]) == 'h' && LowerChar(s[i + 2]) == 'i'
    && LowerChar(s[i + 3]) == 'l' && LowerChar(s[i + 4]) == 'l'
  }

  /** The end of the run of non-whitespace starting at `q`. */
  function RunEnd(s: string, q: nat): (r: nat)
    requires q <= |s|
    ensures q <= r <= |s|
    ensures forall k :: q <= k < r ==> !IsSpace(s[k])
    ensures r == |s| || IsSpace(s[r])
    decreases |s| - q
  {
    if q == |s| || IsSpace(s[q]) then q else RunEnd(s, q + 1)
  }

  /** The second `\S*` giving back characters from `e` down to `lo` until `\b` holds. */
  function BoundaryDownFrom(s: string, lo: nat, e: int): (r: Option<nat>)
    requires e <= |s|
    ensures r.Some? ==> lo <= r.value <= e && WordBoundary(s, r.value)
    decreases e - lo + 1
  {
    if e < lo then None
    else if WordBoundary(s, e) then Some(e)
    else BoundaryDownFrom(s, lo, e - 1)
  }

  /**
   * The first `\S*` giving back characters: the start of "chill" tried from `i` down to `q`,
   * and for each, the end tried from the run's end downwards.
   */
  function ChillDownFrom(s: string, q: nat, r: nat, i: int): (e: Option<nat>)
    requires q <= r <= |s| && i + 5 <= r
    ensures e.Some? ==> q + 5 <= e.value <= r && WordBoundary(s, e.value)
    ensures e.Some? ==> exists j :: q <= j && j + 5 <= e.value && ChillAt(s, j)
    decreases i - q + 1
  {
    if i < q then None
    else if ChillAt(s, i) then
      match BoundaryDownFrom(s, i + 5, r)
      case Some(e) => Some(e)
      case None => ChillDownFrom(s, q, r, i - 1)
    else ChillDownFrom(s, q, r, i - 1)
  }

  /** The end of the pattern's match starting exactly at `q`, if any. */
  function ChillMatchAt(s: string, q: nat): (e: Option<nat>)
    requires q < |s|
    ensures e.Some? ==> q + 5 <= e.value <= |s|
    ensures e.Some? ==> exists j :: q <= j && j + 5 <= e.value && ChillAt(s, j)
    ensures e.Some? ==> q == 0 || !IsAsciiLetter(s[q - 1])
    ensures e.Some? ==> e.value <= RunEnd(s, q)
  {
    if q > 0 && IsAsciiLetter(s[q - 1]) then None
    else
      var r := RunEnd(s, q);
      ChillDownFrom(s, q, r, r - 5)
  }

  /**
   * The split loop from the last cut `p`, trying a match at `q`: each match contributes the
   * text before it and its captured text; the text after the last match ends the list. (The
   * algorithm's rule for a match ending at the last cut concerns empty matches, which this
   * pattern cannot make.)
   */
  function SplitFrom(s: string, p: nat, q: nat): (parts: seq<string>)
    requires p <= q <= |s|
    ensures |parts| % 2 == 1
    ensures forall k :: 0 <= k < |parts| / 2 ==> ContainsChill(parts[2 * k + 1])
    decreases |s| - q
  {
    if q >= |s| then [s[p..]]
    else
      match ChillMatchAt(s, q)
      case None => SplitFrom(s, p, q + 1)
      case Some(e) =>
        CapturedContainsChill(s, q, e);
        var rest := SplitFrom(s, e, e);
        CapturesStayHighlighted(s[p..q], s[q..e], rest);
        [s[p..q], s[q..e]] + rest
  }

  /** Putting a text and a capture before the later parts keeps every capture at an odd index. */
  lemma CapturesStayHighlighted(before: string, captured: string, rest: seq<string>)
    requires ContainsChill(captured)
    requires |rest| % 2 == 1
    requires forall k :: 0 <= k < |rest| / 2 ==> ContainsChill(rest[2 * k + 1])
    ensures var parts := [before, captured] + rest;
      |parts| % 2 == 1 && forall k :: 0 <= k < |parts| / 2 ==> ContainsChill(parts[2 * k + 1])
  {
    var parts := [before, captured] + rest;
    assert |parts| / 2 == 1 + |rest| / 2;
    forall k | 0 <= k < |parts| / 2
      ensures ContainsChill(parts[2 * k + 1])
    {
      if k > 0 {
        assert parts[2 * k + 1] == rest[2 * (k - 1) + 1];
      }
    }
  }

  /** `content.split(/(?<![A-Za-z])(\S*chill\S*\b)/gi)`. */
  function SplitChill(content: string): (parts: seq<string>)
    ensures |parts| % 2 == 1
    ensures forall k :: 0 <= k < |parts| / 2 ==> ContainsChill(parts[2 * k + 1])
  {
    SplitFrom(content, 0, 0)
  }

  /** Giving back from a non-word end down to a word character always meets a `\b`. */
  lemma {:induction false} BoundaryFound(s: string, lo: nat, e: nat)
    requires 1 <= lo <= e <= |s| && IsWordChar(s[lo - 1])
    requires e == |s| || !IsWordChar(s[e])
    ensures BoundaryDownFrom(s, lo, e).Some?
    decreases e
  {
    if !WordBoundary(s, e) {
      BoundaryFound(s, lo, e - 1);
    }
  }

  /** Once "chill" starts at `j`, the search from `i` down reaches it and ends there or earlier. */
  lemma {:induction false} ChillFound(s: string, q: nat, r: nat, i: int, j: nat)
    requires q <= j <= i && i + 5 <= r <= |s| && ChillAt(s, j)
    requires r == |s| || IsSpace(s[r])
    ensures ChillDownFrom(s, q, r, i).Some? && j + 5 <= ChillDownFrom(s, q, r, i).value
    decreases i - j
  {
    if ChillAt(s, i) {
      assert IsWordChar(s[i + 4]);
      BoundaryFound(s, i + 5, r);
    } else {
      assert i != j;
      ChillFound(s, q, r, i - 1, j);
      assert ChillDownFrom(s, q, r, i) == ChillDownFrom(s, q, r, i - 1);
    }
  }

  /**
   * A word, that is a run of non-whitespace at the start of the text or after whitespace, holding
   * "chill" always matches at its start, and the match reaches past that "chill".
   */
  lemma ChillWordMatches(s: string, q: nat, j: nat)
    requires q < |s| && (q == 0 || IsSpace(s[q - 1]))
    requires q <= j && ChillAt(s, j) && forall k :: q <= k < j + 5 ==> !IsSpace(s[k])
    ensures ChillMatchAt(s, q).Some? && j + 5 <= ChillMatchAt(s, q).value
  {
    WordSearchFinds(s, q, j);
    if q > 0 {
      SpaceIsNoLetter(s[q - 1]);
    }
    MatchIsSearch(s, q);
  }

  /** The search over the word's run finds a match reaching past its "chill". */
  lemma WordSearchFinds(s: string, q: nat, j: nat)
    requires q < |s| && q <= j && ChillAt(s, j) && forall k :: q <= k < j + 5 ==> !IsSpace(s[k])
    ensures q + 5 <= RunEnd(s, q)
    ensures ChillDownFrom(s, q, RunEnd(s, q), RunEnd(s, q) - 5).Some?
    ensures j + 5 <= ChillDownFrom(s, q, RunEnd(s, q), RunEnd(s, q) - 5).value
  {
    var r := RunEnd(s, q);
    RunCoversWord(s, q, j + 5);
    ChillFound(s, q, r, r - 5, j);
  }

  lemma SpaceIsNoLetter(c: char)
    requires IsSpace(c)
    ensures !IsAsciiLetter(c)
  {
  }

  /** With no letter before `q` and room for "chill" in the run, the match is the search over the run. */
  lemma MatchIsSearch(s: string, q: nat)
    requires q < |s| && (q == 0 || !IsAsciiLetter(s[q - 1])) && q + 5 <= RunEnd(s, q)
    ensures ChillMatchAt(s, q) == ChillDownFrom(s, q, RunEnd(s, q), RunEnd(s, q) - 5)
  {
  }

  /** The `k`-th captured part, at odd index `2k + 1`, is `piece`. */
  predicate Captures(parts: seq<string>, k: int, piece: string) {
    0 <= k < |parts| / 2 && parts[2 * k + 1] == piece
  }

  /** Some captured part runs from `q` to past the "chill" at `j`. */
  ghost predicate WordCaptured(parts: seq<string>, s: string, q: nat, j: nat) {
    exists k, e :: q <= e && j + 5 <= e <= |s| && Captures(parts, k, s[q..e])
  }

  /** A match at the word's start is a captured part right after the text before it. */
  lemma CaptureFirst(parts: seq<string>, before: string, rest: seq<string>, s: string, q: nat, j: nat, e: nat)
    requires q <= e && j + 5 <= e <= |s| && parts == [before, s[q..e]] + rest
    ensures WordCaptured(parts, s, q, j)
  {
    assert Captures(parts, 0, s[q..e]);
  }

  /** A part captured after an earlier match stays captured, one pair further on. */
  lemma CaptureLater(parts: seq<string>, before: string, captured: string, rest: seq<string>, s: string, q: nat, j: nat)
    requires WordCaptured(rest, s, q, j) && parts == [before, captured] + rest
    ensures WordCaptured(parts, s, q, j)
  {
    var k, e :| q <= e && j + 5 <= e <= |s| && Captures(rest, k, s[q..e]);
    assert parts[2 * (k + 1) + 1] == rest[2 * k + 1];
    assert Captures(parts, k + 1, s[q..e]);
  }

  /**
   * The split from the last cut `p`, scanning at `q0` up to a start `q` after whitespace where
   * the pattern matches past `j + 5`, captures that match: no earlier match can run over the
   * whitespace in front of `q`.
   */
  lemma {:induction false} SplitFromCapturesWord(s: string, p: nat, q0: nat, q: nat, j: nat)
    requires p <= q0 <= q < |s| && (q == 0 || IsSpace(s[q - 1]))
    requires ChillMatchAt(s, q).Some? && j + 5 <= ChillMatchAt(s, q).value
    ensures WordCaptured(SplitFrom(s, p, q0), s, q, j)
    decreases q - q0
  {
    SplitFromStep(s, p, q0);
    if q0 == q {
      var e := ChillMatchAt(s, q).value;
      CaptureFirst(SplitFrom(s, p, q), s[p..q], SplitFrom(s, e, e), s, q, j, e);
    } else if ChillMatchAt(s, q0).None? {
      SplitFromCapturesWord(s, p, q0 + 1, q, j);
    } else {
      var e := ChillMatchAt(s, q0).value;
      MatchBeforeWord(s, q0, q);
      SplitFromCapturesWord(s, e, e, q, j);
      CaptureLater(SplitFrom(s, p, q0), s[p..q0], s[q0..e], SplitFrom(s, e, e), s, q, j);
    }
  }

  /** One step of the split loop at `q0`. */
  lemma SplitFromStep(s: string, p: nat, q0: nat)
    requires p <= q0 < |s|
    ensures ChillMatchAt(s, q0).None? ==> SplitFrom(s, p, q0) == SplitFrom(s, p, q0 + 1)
    ensures ChillMatchAt(s, q0).Some? ==> var e := ChillMatchAt(s, q0).value;
      SplitFrom(s, p, q0) == [s[p..q0], s[q0..e]] + SplitFrom(s, e, e)
  {
  }

  /** A match starting before the whitespace in front of a word ends before the word. */
  lemma MatchBeforeWord(s: string, q0: nat, q: nat)
    requires q0 < q < |s| && IsSpace(s[q - 1])
    ensures ChillMatchAt(s, q0).Some? ==> ChillMatchAt(s, q0).value < q
  {
    assert RunEnd(s, q0) <= q - 1;
  }

  /**
   * A word holding "chill" is highlighted: it is a captured part of the split, from the word's
   * start to past that "chill".
   */
  lemma ChillWordHighlighted(content: string, q: nat, j: nat)
    requires q < |content| && (q == 0 || IsSpace(content[q - 1]))
    requires q <= j && ChillAt(content, j) && forall k :: q <= k < j + 5 ==> !IsSpace(content[k])
    ensures exists k, e :: j + 5 <= e <= |content| && Captures(SplitChill(content), k, content[q..e])
  {
    ChillWordMatches(content, q, j);
    SplitFromCapturesWord(content, 0, 0, q, j);
    assert SplitChill(content) == SplitFrom(content, 0, 0);
  }

  /** The run from `q` reaches past any stretch of non-whitespace that starts there. */
  lemma RunCoversWord(s: string, q: nat, end: nat)
    requires q <= end <= |s| && forall k :: q <= k < end ==> !IsSpace(s[k])
    ensures end <= RunEnd(s, q)
  {
    var r := RunEnd(s, q);
    assert r == |s| || IsSpace(s[r]);
  }

  /** `text.toLowerCase().includes("chill")`: both `containsChill` and the per-part test. */
  predicate ContainsChill(text: string) {
    Contains(Lower(text), "chill")
  }

  /** A match holds "chill" somewhere, so the captured text does. */
  lemma CapturedContainsChill(s: string, q: nat, e: nat)
    requires q <= e <= |s|
    requires exists j :: q <= j && j + 5 <= e && ChillAt(s, j)
    ensures ContainsChill(s[q..e])
  {
    var j :| q <= j && j + 5 <= e && ChillAt(s, j);
    var t := Lower(s[q..e]);
    var k := j - q;
    assert t[k..k + 5] == "chill" by {
      forall m | 0 <= m < 5 ensures t[k..k + 5][m] == "chill"[m] {
        assert t[k + m] == LowerChar(s[j + m]);
      }
    }
    assert OccursAt(t, "chill", k);
  }

  function Flatten(parts: seq<string>): string {
    if parts == [] then [] else parts[0] + Flatten(parts[1..])
  }

  /** The parts put back together give the text from the last cut on. */
  lemma {:induction false} SplitFromFlatten(s: string, p: nat, q: nat)
    requires p <= q <= |s|
    ensures Flatten(SplitFrom(s, p, q)) == s[p..]
    decreases |s| - q
  {
    if q < |s| {
      match ChillMatchAt(s, q)
      case None => SplitFromFlatten(s, p, q + 1);
      case Some(e) =>
        SplitFromFlatten(s, e, e);
        SuffixCuts(s, p, q, e);
        FlattenPair(s[p..q], s[q..e], SplitFrom(s, e, e));
    }
  }

  /** Two parts in front of the rest are flattened in front of the rest's text. */
  lemma FlattenPair(before: string, captured: string, rest: seq<string>)
    ensures Flatten([before, captured] + rest) == before + captured + Flatten(rest)
  {
    var parts := [before, captured] + rest;
    assert parts[1..][1..] == rest;
  }

  /** Nothing of the message is lost or repeated by the highlighting: the parts spell the content. */
  lemma SplitChillRoundTrip(content: string)
    ensures Flatten(SplitChill(content)) == content
  {
    SplitFromFlatten(content, 0, 0);
    assert content[0..] == content;
  }

  /** A highlighted part is part of the content, so the whole bubble is flagged too. */
  lemma HighlightImpliesFlag(content: string, k: nat)
    requires k < |SplitChill(content)| && ContainsChill(SplitChill(content)[k])
    ensures ContainsChill(content)
  {
    var parts := SplitChill(content);
    SplitChillRoundTrip(content);
    FlattenAround(parts, k);
    InfixContainsChill(Flatten(parts[..k]), parts[k], Flatten(parts[k + 1..]));
  }

  /** The flattened text is the parts before `k`, part `k`, then the parts after it. */
  lemma {:induction false} FlattenAround(parts: seq<string>, k: nat)
    requires k < |parts|
    ensures Flatten(parts) == Flatten(parts[..k]) + parts[k] + Flatten(parts[k + 1..])
  {
    if k == 0 {
      assert parts[..0] == [];
    } else {
      FlattenAround(parts[1..], k - 1);
      assert parts[1..][..k - 1] == parts[..k][1..];
      assert parts[1..][k - 1 + 1..] == parts[k + 1..];
    }
  }

  /** A text holding "chill" keeps it inside any longer text. */
  lemma InfixContainsChill(a: string, m: string, b: string)
    requires ContainsChill(m)
    ensures ContainsChill(a + m + b)
  {
    var t := a + m + b;
    var i :| 0 <= i <= |Lower(m)| && OccursAt(Lower(m), "chill", i);
    assert Lower(t)[|a| + i..|a| + i + 5] == Lower(m)[i..i + 5];
    assert OccursAt(Lower(t), "chill", |a| + i);
  }

  /** `n[0]` for every space-separated word, an empty word giving nothing, joined. */
  function FirstLetters(words: seq<string>): (r: string)
    ensures |r| <= |words|
  {
    if words == [] then []
    else (if words[0] == [] then [] else [words[0][0]]) + FirstLetters(words[1..])
  }

  /** The avatar fallback: the words' first letters, upper-cased, at most two. */
  function Initials(name: string): (r: string)
    ensures |r| <= 2
    ensures |r| == if |FirstLetters(Split(name, ' '))| < 2 then |FirstLetters(Split(name, ' '))| else 2
    ensures forall i :: 0 <= i < |r| ==> r[i] == UpperChar(FirstLetters(Split(name, ' '))[i])
  {
    var letters := Upper(FirstLetters(Split(name, ' ')));
    if |letters| <= 2 then letters else letters[..2]
  }

  /** A first and a last name, each a single word, give their two capital initials. */
  lemma InitialsOfTwoNames(first: string, last: string)
    requires first != [] && last != [] && ' ' !in first && ' ' !in last
    ensures Initials(first + " " + last) == [UpperChar(first[0]), UpperChar(last[0])]
  {
    SplitJoin([first, last], ' ');
    assert Join([first, last], ' ') == first + " " + last;
    assert FirstLetters([first, last]) == [first[0], last[0]];
  }

  /** For one-word names the bubble's initials agree with the profile's `formatInitials`. */
  lemma BubbleInitialsAgreeWithProfile(first: string, last: string)
    requires first != [] && last != [] && ' ' !in first && ' ' !in last
    ensures Initials(FormatUserName(first, last)) == FormatInitials(first, last)
  {
    InitialsOfTwoNames(first, last);
  }

  /** Extra spaces make empty words, which add no letter. */
  lemma InitialsSkipEmptyWords(first: string, last: string)
    requires first != [] && last != [] && ' ' !in first && ' ' !in last
    ensures Initials(first + "  " + last) == Initials(first + " " + last)
  {
    InitialsOfTwoNames(first, last);
    var words := [first, [], last];
    SplitJoin(words, ' ');
    assert words[1..] == [[], last] && words[1..][1..] == [last];
    assert Join([[], last], ' ') == [' '] + last;
    assert Join(words, ' ') == first + [' '] + ([' '] + last);
    assert first + [' '] + ([' '] + last) == first + "  " + last;
    assert FirstLetters([last]) == [last[0]];
    assert FirstLetters([[], last]) == [last[0]];
  }

  /** What a bubble shows around its text. */
  datatype Chrome = Chrome(avatarColumn: bool, avatar: Option<string>, headerName: Option<string>)

  /**
   * Others' bubbles keep an avatar column (with the initials when the header shows, a spacer
   * otherwise); the header names the sender, or "You" for one's own messages.
   */
  function BubbleChrome(message: ChatMessage, isOwnMessage: bool, showHeader: bool): (c: Chrome)
    ensures c.avatarColumn <==> !isOwnMessage
    ensures c.avatar.Some? <==> !isOwnMessage && showHeader
    ensures c.avatar.Some? ==> c.avatar.value == Initials(message.user.name)
    ensures c.headerName.Some? <==> showHeader
    ensures c.headerName.Some? ==> c.headerName.value == if isOwnMessage then "You" else message.user.name
  {
    Chrome(!isOwnMessage,
           if !isOwnMessage && showHeader then Some(Initials(message.user.name)) else None,
           if showHeader then Some(if isOwnMessage then "You" else message.user.name) else None)
  }

  /** A message from anyone who goes by the viewer's name is headed "You" and has no avatar. */
  lemma NamesakeShownAsYou(message: ChatMessage, username: string)
    requires message.user.name == username
    ensures var c := BubbleChrome(message, IsOwnMessage(message, username), true);
      c.headerName == Some("You") && !c.avatarColumn
  {
  }
}
