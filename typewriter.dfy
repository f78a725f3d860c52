/**
 * The landing page's typewriter, src/components/ui/typewriter.tsx: on each timer tick it types
 * one more letter of the current word, holds the finished word, deletes it letter by letter
 * and moves on to the next word, cyclically. The timer is the caller: `Tick` is one expiry and
 * `Delay` the timeout set for it. The word list is taken as fixed and non-empty.
 */
module Typewriter {

  /** `currentWordIndex`, `currentText`, `isDeleting`. */
  datatype State = State(index: nat, text: string, deleting: bool)

  /** The shown text is the start of the current word, and the index is in range. */
  ghost predicate Inv(words: seq<string>, st: State) {
    st.index < |words| && |st.text| <= |words[st.index]| && st.text == words[st.index][..|st.text|]
  }

  /** The timeout callback: type, start deleting, delete, or move to the next word. */
  function Step(words: seq<string>, st: State): (r: State)
    requires Inv(words, st)
    ensures Inv(words, r)
  {
    var word := words[st.index];
    if !st.deleting then
      if |st.text| < |word| then st.(text := word[..|st.text| + 1])
      else st.(deleting := true)
    else
      if |st.text| > 0 then st.(text := st.text[..|st.text| - 1])
      else State((st.index + 1) % |words|, st.text, false)
  }

  /** `k` ticks in a row. */
  function Steps(words: seq<string>, st: State, k: nat): (r: State)
    requires Inv(words, st)
    ensures Inv(words, r)
    decreases k
  {
    if k == 0 then st else Steps(words, Step(words, st), k - 1)
  }

  /** The pause before the next tick: the finished word is held longer than a letter takes. */
  function Delay(textLength: nat, wordLength: nat, deleting: bool): (d: nat)
    ensures d == 2000 <==> textLength == wordLength && !deleting
    ensures d == 50 <==> deleting
    ensures d == 100 <==> !deleting && textLength != wordLength
    ensures d != 500
  {
    var typingSpeed := if deleting then 50 else 100;
    var pauseTime := if deleting then 500 else 2000;
    if textLength == wordLength && !deleting then pauseTime else typingSpeed
  }

  lemma {:induction false} StepsAdd(words: seq<string>, st: State, a: nat, b: nat)
    requires Inv(words, st)
    ensures Steps(words, st, a + b) == Steps(words, Steps(words, st, a), b)
    decreases a
  {
    if a > 0 {
      StepsAdd(words, Step(words, st), a - 1, b);
    }
  }

  /** Typing: `k` ticks add the next `k` letters of the word. */
  lemma {:induction false} TypesLetters(words: seq<string>, i: nat, m: nat, k: nat)
    requires i < |words| && m + k <= |words[i]|
    ensures Steps(words, State(i, words[i][..m], false), k) == State(i, words[i][..m + k], false)
    decreases k
  {
    if k > 0 {
      assert Step(words, State(i, words[i][..m], false)) == State(i, words[i][..m + 1], false);
      TypesLetters(words, i, m + 1, k - 1);
    }
  }

  /** Deleting: `k` ticks remove the last `k` letters. */
  lemma {:induction false} DeletesLetters(words: seq<string>, i: nat, m: nat, k: nat)
    requires i < |words| && k <= m <= |words[i]|
    ensures Steps(words, State(i, words[i][..m], true), k) == State(i, words[i][..m - k], true)
    decreases k
  {
    if k > 0 {
      assert words[i][..m][..m - 1] == words[i][..m - 1];
      DeletesLetters(words, i, m - 1, k - 1);
    }
  }

  /**
   * A whole word takes `2|w| + 2` ticks from the empty text: its letters typed, one tick to
   * start deleting, its letters deleted and one tick to the next word, wrapping after the last.
   */
  lemma WordCycle(words: seq<string>, i: nat)
    requires i < |words|
    ensures var n := |words[i]|;
      Steps(words, State(i, "", false), 2 * n + 2) == State((i + 1) % |words|, "", false)
  {
    var w := words[i];
    var n := |w|;
    var start := State(i, "", false);
    assert w[..0] == "";
    TypesLetters(words, i, 0, n);
    assert w[..n] == w;
    var typed := State(i, w, false);
    var held := State(i, w, true);
    assert Steps(words, typed, 1) == held;
    DeletesLetters(words, i, n, n);
    var cleared := State(i, w[..0], true);
    assert Steps(words, cleared, 1) == State((i + 1) % |words|, "", false);
    StepsAdd(words, start, n, 1);
    StepsAdd(words, start, n + 1, n);
    StepsAdd(words, start, 2 * n + 1, 1);
  }

  /** The component's state, updated by the timeout it sets. */
  class TypewriterView {
    const words: seq<string>
    var currentWordIndex: nat
    var currentText: string
    var isDeleting: bool

    function Current(): State
      reads this
    {
      State(currentWordIndex, currentText, isDeleting)
    }

    ghost predicate Valid()
      reads this
    {
      Inv(words, Current())
    }

    constructor(words: seq<string>)
      requires |words| > 0
      ensures Valid() && this.words == words
      ensures Current() == State(0, "", false)
    {
      this.words := words;
      currentWordIndex, currentText, isDeleting := 0, "", false;
    }

    /** The timeout the effect sets for the current state. */
    function NextDelay(): (d: nat)
      requires Valid()
      reads this
      ensures d == Delay(|currentText|, |words[currentWordIndex]|, isDeleting)
    {
      var currentWord := words[currentWordIndex];
      Delay(|currentText|, |currentWord|, isDeleting)
    }

    /** The timeout's callback. */
    method Tick()
      requires Valid()
      modifies this
      ensures Valid()
      ensures Current() == Step(words, old(Current()))
    {
      var currentWord := words[currentWordIndex];
      if !isDeleting {
        if |currentText| < |currentWord| {
          currentText := currentWord[..|currentText| + 1];
        } else {
          isDeleting := true;
        }
      } else {
        if |currentText| > 0 {
          currentText := currentText[..|currentText| - 1];
        } else {
          isDeleting := false;
          currentWordIndex := (currentWordIndex + 1) % |words|;
        }
      }
    }
  }
}
