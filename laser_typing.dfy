/**
 * The typing sequencer of the laser terminal text display, and the clamp
 * that picks the character the laser cursor sits on.
 *
 * Whenever the display is composed with a new text, its effect restarts:
 * it turns writing on and hides every character, then reveals one more
 * character per delay, calling `onCharAdded` after each one, and finally,
 * after a last short delay, turns writing off.  Delays are abstracted to
 * ticks: one tick is one delay running out and the code up to the next
 * delay running.
 */
module LaserTyping {

  /**
   * The state the sequencer acts on: the text the display is composed with,
   * the number of characters shown, whether the laser is writing, and, for
   * each call of `onCharAdded`, the count it was called after.
   */
  datatype TypingState = TypingState(fullText: string, displayedCharCount: nat, isWriting: bool, charsAdded: seq<nat>)

  /** 1, 2, ..., n: the counts the loop stores, in order. */
  function Counts(n: nat): (cs: seq<nat>)
    ensures |cs| == n
    ensures forall i :: 0 <= i < n ==> cs[i] == i + 1
  {
    seq(n, i => i + 1)
  }

  /** The state on first composition: nothing shown, laser on. */
  function Initial(fullText: string): TypingState
  {
    TypingState(fullText, 0, true, [])
  }

  /** The display is recomposed with a (possibly) new text; its state is remembered. */
  function Recomposed(st: TypingState, fullText: string): TypingState
  {
    st.(fullText := fullText)
  }

  /** The effect (re)starts for the current text: laser on, nothing shown. */
  function Launched(st: TypingState): TypingState
  {
    st.(displayedCharCount := 0, isWriting := true)
  }

  /**
   * One delay of the running effect elapses: while characters remain, the
   * next one is shown and the callback fires; once all are shown, the final
   * delay ends writing; after that the effect has finished.
   */
  function Ticked(st: TypingState): TypingState
  {
    if st.displayedCharCount < |st.fullText| then
      var i := st.displayedCharCount + 1;
      st.(displayedCharCount := i, charsAdded := st.charsAdded + [i])
    else if st.isWriting then st.(isWriting := false)
    else st
  }

  /** k ticks in a row. */
  function Ticks(st: TypingState, k: nat): TypingState
    decreases k
  {
    if k == 0 then st else Ticks(Ticked(st), k - 1)
  }

  /**
   * What holds of every state the running effect passes through: the count
   * stays within the text, and writing is off only once all of it is shown.
   */
  ghost predicate Valid(st: TypingState)
  {
    st.displayedCharCount <= |st.fullText|
    && (!st.isWriting ==> st.displayedCharCount == |st.fullText|)
  }

  /** A (re)start resets the count to 0 and turns writing on, whatever came before. */
  lemma LaunchResets(st: TypingState, fullText: string)
    ensures var s := Launched(Recomposed(st, fullText));
      && s.fullText == fullText && s.displayedCharCount == 0 && s.isWriting
      && s.charsAdded == st.charsAdded && Valid(s)
  {
  }

  /**
   * A tick keeps the sequencer valid, never lowers the count, and fires the
   * callback exactly when it raises the count, by one, with the new count.
   */
  lemma TickStep(st: TypingState)
    requires Valid(st)
    ensures var s := Ticked(st);
      && Valid(s)
      && s.fullText == st.fullText
      && st.displayedCharCount <= s.displayedCharCount <= st.displayedCharCount + 1
      && (s.displayedCharCount == st.displayedCharCount + 1 <==> s.charsAdded == st.charsAdded + [s.displayedCharCount])
      && (s.displayedCharCount == st.displayedCharCount <==> s.charsAdded == st.charsAdded)
  {
  }

  /** Writing turns off only on the tick after the last character was shown. */
  lemma WritingEndsWhenComplete(st: TypingState)
    requires Valid(st)
    requires st.isWriting && !Ticked(st).isWriting
    ensures st.displayedCharCount == |st.fullText|
    ensures Ticked(st).displayedCharCount == |st.fullText|
  {
  }

  /** A finished effect stays finished. */
  lemma FinishedIsStable(st: TypingState)
    requires Valid(st) && !st.isWriting
    ensures Ticked(st) == st
  {
  }

  /**
   * The whole run after a (re)start: after k <= |text| ticks the count is k,
   * writing is on and the callback has fired for 1..k; after more ticks the
   * whole text is shown, writing is off, and the callback has fired exactly
   * |text| times, for 1..|text| in order.
   */
  lemma {:induction false} RunAfterLaunch(st: TypingState, k: nat)
    requires st.displayedCharCount == 0 && st.isWriting
    ensures var s := Ticks(st, k);
      var n := |st.fullText|;
      var shown := if k <= n then k else n;
      && s.fullText == st.fullText
      && s.displayedCharCount == shown
      && s.isWriting == (k <= n)
      && s.charsAdded == st.charsAdded + Counts(shown)
  {
    RunFrom(st, 0, k);
  }

  /** RunAfterLaunch from any point of the reveal: count c, writing on. */
  lemma {:induction false} RunFrom(st: TypingState, c: nat, k: nat)
    requires st.displayedCharCount == c <= |st.fullText| && st.isWriting
    ensures var s := Ticks(st, k);
      var n := |st.fullText|;
      var shown := if c + k <= n then c + k else n;
      && s.fullText == st.fullText
      && s.displayedCharCount == shown
      && s.isWriting == (c + k <= n)
      && s.charsAdded == st.charsAdded + Counts(shown)[c..]
    decreases k
  {
    var n := |st.fullText|;
    if k == 0 {
      assert Counts(c)[c..] == [];
    } else {
      var t := Ticked(st);
      if c < n {
        RunFrom(t, c + 1, k - 1);
        var shown := if c + k <= n then c + k else n;
        assert Counts(shown)[c..] == [c + 1] + Counts(shown)[c + 1..];
      } else {
        FinishedTicks(t, k - 1);
        assert Counts(n)[c..] == [];
      }
    }
  }

  /**
   * A restart in the middle of a run, even of another text, still reveals
   * the new text completely: the old run leaves nothing behind but the
   * callbacks it already made.
   */
  lemma RestartCompletes(st: TypingState, fullText: string)
    ensures var s := Ticks(Launched(Recomposed(st, fullText)), |fullText| + 1);
      && s.fullText == fullText && s.displayedCharCount == |fullText| && !s.isWriting
      && s.charsAdded == st.charsAdded + Counts(|fullText|)
  {
    RunAfterLaunch(Launched(Recomposed(st, fullText)), |fullText| + 1);
  }

  /** Ticks after the end change nothing. */
  lemma {:induction false} FinishedTicks(st: TypingState, k: nat)
    requires Valid(st) && !st.isWriting
    ensures Ticks(st, k) == st
    decreases k
  {
    if k > 0 {
      FinishedIsStable(st);
      FinishedTicks(Ticked(st), k - 1);
    }
  }

  /** `Int.coerceIn(lo, hi)`: v forced into [lo, hi]; an empty range throws. */
  datatype Coerced = Coerced(value: int) | IllegalArgument

  function CoerceIn(v: int, lo: int, hi: int): (r: Coerced)
    ensures r == IllegalArgument <==> lo > hi
    ensures r.Coerced? ==> lo <= r.value <= hi
    ensures r.Coerced? && lo <= v <= hi ==> r.value == v
    ensures r.Coerced? && v < lo ==> r.value == lo
    ensures r.Coerced? && hi < v ==> r.value == hi
  {
    if lo > hi then IllegalArgument
    else if v < lo then Coerced(lo)
    else if v > hi then Coerced(hi)
    else Coerced(v)
  }

  /** What the text-layout callback does with the laser position. */
  datatype CursorUpdate =
    | KeepCursor              // nothing shown yet: the last position stays
    | MoveTo(index: nat)      // the laser moves to the character at index
    | Crash                   // coerceIn threw IllegalArgumentException

  /**
   * The layout callback as written: with a positive count it clamps
   * count - 1 into [0, |text| - 1] and moves the cursor there.
   */
  function CursorIndex(displayedCharCount: int, textLength: nat): (u: CursorUpdate)
    ensures displayedCharCount <= 0 <==> u == KeepCursor
    ensures u == Crash <==> displayedCharCount > 0 && textLength == 0
    ensures u.MoveTo? ==> u.index < textLength
    ensures u.MoveTo? && displayedCharCount <= textLength ==> u.index == displayedCharCount - 1
  {
    if displayedCharCount > 0 then
      match CoerceIn(displayedCharCount - 1, 0, textLength - 1)
      case IllegalArgument => Crash
      case Coerced(i) => MoveTo(i)
    else KeepCursor
  }

  /**
   * While the effect runs, the laser sits on the last character shown and
   * the clamp never throws.
   */
  lemma CursorOnLastShown(st: TypingState)
    requires Valid(st) && st.displayedCharCount > 0
    ensures CursorIndex(st.displayedCharCount, |st.fullText|) == MoveTo(st.displayedCharCount - 1)
  {
  }

  /**
   * Between a recomposition with an empty text and the restart of the
   * effect, the count of the previous text is still in place, and the clamp
   * range [0, -1] is empty: `coerceIn` throws.
   */
  lemma StaleCountEmptyTextCrashes()
    ensures var st := Recomposed(Ticked(Launched(Initial("ok"))), "");
      st.displayedCharCount == 1 && CursorIndex(st.displayedCharCount, |st.fullText|) == Crash
  {
  }

  /**
   * The clamp with the empty text guarded, as evidently intended: no cursor
   * move without a character to sit on.
   */
  function SafeCursorIndex(displayedCharCount: int, textLength: nat): (u: CursorUpdate)
    ensures u == KeepCursor <==> displayedCharCount <= 0 || textLength == 0
    ensures u != Crash
    ensures u.MoveTo? ==> u.index < textLength
    ensures u.MoveTo? && displayedCharCount <= textLength ==> u.index == displayedCharCount - 1
  {
    if displayedCharCount > 0 && textLength > 0 then CursorIndex(displayedCharCount, textLength)
    else KeepCursor
  }

  /** The guard changes nothing wherever the clamp as written does not throw. */
  lemma SafeCursorAgrees(displayedCharCount: int, textLength: nat)
    requires CursorIndex(displayedCharCount, textLength) != Crash
    ensures SafeCursorIndex(displayedCharCount, textLength) == CursorIndex(displayedCharCount, textLength)
  {
  }

  /**
   * The composable's remembered state and its effect.  `charsAdded` records
   * the calls of `onCharAdded`, each with the count it followed.
   */
  class LaserTextDisplay {
    var fullText: string
    var displayedCharCount: nat
    var isWriting: bool
    var charsAdded: seq<nat>

    /** The state as a value. */
    function State(): TypingState
      reads this
    {
      TypingState(fullText, displayedCharCount, isWriting, charsAdded)
    }

    /** First composition: `mutableIntStateOf(0)` and `mutableStateOf(true)`. */
    constructor(fullText: string)
      ensures State() == Initial(fullText)
    {
      this.fullText := fullText;
      displayedCharCount := 0;
      isWriting := true;
      charsAdded := [];
    }

    /** Recomposition with a new `fullText` argument. */
    method Recompose(text: string)
      modifies this
      ensures State() == Recomposed(old(State()), text)
    {
      fullText := text;
    }

    /** The first two statements of the effect. */
    method Launch()
      modifies this
      ensures State() == Launched(old(State()))
    {
      isWriting := true;
      displayedCharCount := 0;
    }

    /** The effect resumes after one delay and runs to the next one. */
    method Tick()
      modifies this
      ensures State() == Ticked(old(State()))
    {
      if displayedCharCount < |fullText| {
        displayedCharCount := displayedCharCount + 1;
        charsAdded := charsAdded + [displayedCharCount];
      } else if isWriting {
        isWriting := false;
      }
    }

    /**
     * The whole effect, run to the end without being cancelled: the counts
     * 1..|fullText| are stored in order, each followed by the callback, and
     * then writing stops.
     */
    method RunEffect()
      modifies this
      ensures fullText == old(fullText)
      ensures displayedCharCount == |fullText| && !isWriting
      ensures charsAdded == old(charsAdded) + Counts(|fullText|)
      ensures State() == Ticks(Launched(old(State())), |fullText| + 1)
    {
      ghost var launched := Launched(State());
      isWriting := true;
      displayedCharCount := 0;
      for i := 1 to |fullText| + 1
        invariant fullText == old(fullText)
        invariant displayedCharCount == i - 1 && isWriting
        invariant charsAdded == old(charsAdded) + Counts(i - 1)
      {
        displayedCharCount := i;
        assert Counts(i) == Counts(i - 1) + [i];
        charsAdded := charsAdded + [i];
      }
      isWriting := false;
      RunAfterLaunch(launched, |fullText| + 1);
    }

    /**
     * What the layout callback does with the current state, clamp as written:
     * it throws on a positive count over an empty text.
     */
    function CursorUpdate(): (u: CursorUpdate)
      reads this
      ensures Valid(State()) && displayedCharCount > 0 ==> u == MoveTo(displayedCharCount - 1)
      ensures u == Crash <==> displayedCharCount > 0 && fullText == []
    {
      CursorIndex(displayedCharCount, |fullText|)
    }
  }
}
