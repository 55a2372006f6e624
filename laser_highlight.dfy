/**
 * The keyword highlighter of the laser terminal text display.
 *
 * The display shows the first `displayedCharCount` characters of its text.
 * For every entry of a fixed keyword-to-colour table it searches that
 * visible text with `indexOf`, and for every hit at index i it adds a bold
 * span of the entry's colour over [i, i + |key|).  The search resumes at
 * i + 1, so overlapping hits of one key are all styled.
 */
module LaserHighlight {

  /** A colour as its 32-bit ARGB value. */
  datatype Color = Color(argb: nat)

  datatype FontWeight = Normal | Bold

  datatype SpanStyle = SpanStyle(color: Color, fontWeight: FontWeight)

  /** A style applied to the characters [start, end) of an annotated string. */
  datatype StyleSpan = StyleSpan(style: SpanStyle, start: int, end: int)

  /** The text shown and the spans added to it, in the order they were added. */
  datatype AnnotatedString = AnnotatedString(text: string, spans: seq<StyleSpan>)

  /** One entry of the keyword table. */
  datatype Highlight = Highlight(key: string, color: Color)

  /** The keyword table, in declaration order. */
  function Highlights(): seq<Highlight>
  {
    [ // status tags
      Highlight("[  OK  ]", Color(0xFF00FF88)),
      Highlight("[ WARN ]", Color(0xFFFFBB00)),
      Highlight("[ INFO ]", Color(0xFF00CCFF)),
      Highlight("[SYSTEM]", Color(0xFFFFFFFF)),
      Highlight("[ DIAG ]", Color(0xFFBB88FF)),
      Highlight("[ TEST ]", Color(0xFFFFEEAA)),
      Highlight("[ DUMP ]", Color(0xFF777777)),
      Highlight("[ RUN  ]", Color(0xFF00FF88)),
      Highlight("[ WELCOME ]", Color(0xFFFF3377)),
      // structural elements
      Highlight(Dashes(), Color(0xFFF50057)),
      Highlight("root@retroscreen", Color(0xFFC6FF00)),
      Highlight("RETRO CRT BABY", Color(0xFFFAA02A)),
      Highlight("#########[", Color(0xFF7A18DC)),
      Highlight("]#########", Color(0xFF7217CE)),
      // technical values
      Highlight("0x", Color(0xFFFFCC00)),
      Highlight("120Hz", Color(0xFFD500F9)),
      Highlight("ERROR", Color(0xFFFF3377)) ]
  }

  /** The separator key: a run of 59 dashes. */
  function Dashes(): (d: string)
    ensures |d| == 59 && forall i :: 0 <= i < |d| ==> d[i] == '-'
  {
    seq(59, _ => '-')
  }

  /** The style every highlight span gets: the entry's colour, in bold. */
  function StyleOf(h: Highlight): SpanStyle
  {
    SpanStyle(h.color, Bold)
  }

  /** No key of the table is empty, so every search loop makes progress. */
  lemma HighlightKeysNonEmpty()
    ensures |Highlights()| == 17
    ensures forall i :: 0 <= i < |Highlights()| ==> |Highlights()[i].key| > 0
  {
  }

  /** `take(n)`: the first `min(n, |s|)` characters of s. */
  function Take(s: string, n: nat): (r: string)
    ensures |r| == if n < |s| then n else |s|
    ensures r == s[..|r|]
  {
    if n < |s| then s[..n] else s
  }

  /** `key` occurs in `text` starting at index p. */
  ghost predicate OccursAt(text: string, key: string, p: int)
  {
    0 <= p && p + |key| <= |text| && MatchesFor(text, key, p, |key|)
  }

  /** The first n characters of `key` are those of `text` from index p on. */
  ghost predicate MatchesFor(text: string, key: string, p: nat, n: nat)
    requires n <= |key| && p + n <= |text|
    decreases n
  {
    n == 0 || (MatchesFor(text, key, p, n - 1) && text[p + n - 1] == key[n - 1])
  }

  /** Character-wise matching is equality of the slice with the key's prefix. */
  lemma {:induction false} MatchesForSlice(text: string, key: string, p: nat, n: nat)
    requires n <= |key| && p + n <= |text|
    ensures MatchesFor(text, key, p, n) <==> text[p..p + n] == key[..n]
    decreases n
  {
    if n > 0 {
      MatchesForSlice(text, key, p, n - 1);
      assert text[p..p + n] == text[p..p + n - 1] + [text[p + n - 1]];
      assert key[..n] == key[..n - 1] + [key[n - 1]];
    }
  }

  /** The slice test of the search is OccursAt. */
  lemma SliceIsOccurrence(text: string, key: string, p: nat)
    requires p + |key| <= |text|
    ensures text[p..p + |key|] == key <==> OccursAt(text, key, p)
  {
    MatchesForSlice(text, key, p, |key|);
    assert key[..|key|] == key;
  }

  /**
   * String.indexOf(key, from), as the JVM computes it: a search from
   * `from` (a negative `from` counts as 0) that finds an empty key at once
   * and gives up with -1 past the end of the text.
   */
  function IndexOf(text: string, key: string, from: int): (r: int)
    ensures r == -1 || (0 <= r && r + |key| <= |text|)
  {
    if from >= |text| then (if key == [] then |text| else -1)
    else FirstFrom(text, key, if from < 0 then 0 else from)
  }

  /** The scan behind IndexOf: the first i' >= i where `key` starts, or -1. */
  function FirstFrom(text: string, key: string, i: nat): (r: int)
    requires i <= |text|
    ensures r == -1 || (i <= r && r + |key| <= |text|)
    decreases |text| - i
  {
    if i + |key| > |text| then -1
    else if text[i..i + |key|] == key then i
    else FirstFrom(text, key, i + 1)
  }

  /** FirstFrom finds the least hit at or after i, and -1 only when there is none. */
  lemma {:induction false} FirstFromMeaning(text: string, key: string, i: nat)
    requires i <= |text|
    ensures var r := FirstFrom(text, key, i);
      && (r == -1 || (i <= r && OccursAt(text, key, r)))
      && (r == -1 ==> forall p :: i <= p ==> !OccursAt(text, key, p))
      && (r != -1 ==> forall p :: i <= p < r ==> !OccursAt(text, key, p))
    decreases |text| - i
  {
    if i + |key| <= |text| {
      SliceIsOccurrence(text, key, i);
      if text[i..i + |key|] != key {
        FirstFromMeaning(text, key, i + 1);
      }
    }
  }

  /**
   * IndexOf returns -1 exactly when the key has no hit at or after `from`;
   * otherwise it returns the least such hit.  An empty key is found at
   * `from` clamped into [0, |text|].
   */
  lemma IndexOfMeaning(text: string, key: string, from: int)
    ensures var r := IndexOf(text, key, from);
      && (r == -1 || OccursAt(text, key, r))
      && (key != [] && r != -1 ==> from <= r)
      && (r == -1 ==> key != [] && forall p :: from <= p ==> !OccursAt(text, key, p))
      && (r != -1 ==> forall p :: from <= p < r ==> !OccursAt(text, key, p))
      && (key == [] ==> r == if from < 0 then 0 else if from > |text| then |text| else from)
  {
    if from < |text| {
      FirstFromMeaning(text, key, if from < 0 then 0 else from);
    }
  }

  /** Every index at or after `from` at which `key` occurs, in increasing order. */
  ghost function Occurrences(text: string, key: string, from: nat): seq<nat>
    decreases |text| + 1 - from
  {
    if from > |text| then []
    else if OccursAt(text, key, from) then [from] + Occurrences(text, key, from + 1)
    else Occurrences(text, key, from + 1)
  }

  /** Occurrences lists exactly the hits at or after `from`, each once, in increasing order. */
  lemma {:induction false} OccurrencesMeaning(text: string, key: string, from: nat)
    ensures var ps := Occurrences(text, key, from);
      && (forall p :: p in ps <==> from <= p && OccursAt(text, key, p))
      && (forall i, j :: 0 <= i < j < |ps| ==> ps[i] < ps[j])
    decreases |text| + 1 - from
  {
    if from <= |text| {
      OccurrencesMeaning(text, key, from + 1);
      var rest := Occurrences(text, key, from + 1);
      assert forall i :: 0 <= i < |rest| ==> rest[i] in rest;
    }
  }

  /** The spans for the hits `ps` of entry h, one per hit, in the same order. */
  function SpansAt(ps: seq<nat>, h: Highlight): seq<StyleSpan>
  {
    seq(|ps|, i requires 0 <= i < |ps| => StyleSpan(StyleOf(h), ps[i], ps[i] + |h.key|))
  }

  /** The spans the search loop adds for entry h: one per hit, in order. */
  ghost function KeySpans(text: string, h: Highlight): seq<StyleSpan>
  {
    SpansAt(Occurrences(text, h.key, 0), h)
  }

  /** The spans of all entries of `table`, entry after entry. */
  ghost function TableSpans(text: string, table: seq<Highlight>): seq<StyleSpan>
    decreases |table|
  {
    if table == [] then []
    else TableSpans(text, table[..|table| - 1]) + KeySpans(text, table[|table| - 1])
  }

  /** With no hit in [from, r), the hits from `from` on are those from r on. */
  lemma {:induction false} OccurrencesSkip(text: string, key: string, from: nat, r: nat)
    requires from <= r <= |text| + 1
    requires forall p :: from <= p < r ==> !OccursAt(text, key, p)
    ensures Occurrences(text, key, from) == Occurrences(text, key, r)
    decreases r - from
  {
    if from < r {
      OccurrencesSkip(text, key, from + 1, r);
    }
  }

  /** With no hit at or after `from`, there are no occurrences from there on. */
  lemma {:induction false} OccurrencesNone(text: string, key: string, from: nat)
    requires forall p :: from <= p ==> !OccursAt(text, key, p)
    ensures Occurrences(text, key, from) == []
    decreases |text| + 1 - from
  {
    if from <= |text| {
      OccurrencesNone(text, key, from + 1);
    }
  }

  /** What one call of the search contributes: the hit it finds, then the rest. */
  lemma IndexOfSplitsOccurrences(text: string, key: string, from: nat)
    requires key != []
    ensures var r := IndexOf(text, key, from);
      && (r == -1 || from <= r)
      && if r == -1 then Occurrences(text, key, from) == []
      else Occurrences(text, key, from) == [r] + Occurrences(text, key, r + 1)
  {
    IndexOfMeaning(text, key, from);
    var r := IndexOf(text, key, from);
    if r == -1 {
      OccurrencesNone(text, key, from);
    } else {
      OccurrencesSkip(text, key, from, r);
    }
  }

  /** The hits the loop still has to visit when its search stands at `index`. */
  ghost function Pending(text: string, key: string, index: int): seq<nat>
  {
    if index < 0 then [] else [index] + Occurrences(text, key, index + 1)
  }

  /** One turn of the search loop: the hit at `index`, then those of the next search. */
  lemma SearchStep(text: string, key: string, hits: seq<nat>, index: nat)
    requires key != []
    ensures var next := IndexOf(text, key, index + 1);
      && (next == -1 || index < next <= |text|)
      && hits + Pending(text, key, index) == (hits + [index]) + Pending(text, key, next)
  {
    IndexOfSplitsOccurrences(text, key, index + 1);
  }

  /** Adding one hit adds its span at the end. */
  lemma SpansAtSnoc(ps: seq<nat>, p: nat, h: Highlight)
    ensures SpansAt(ps + [p], h) == SpansAt(ps, h) + [StyleSpan(StyleOf(h), p, p + |h.key|)]
  {
  }

  /**
   * The `while (index != -1)` loop for one entry: one span per hit of the
   * key, in the order the searches find them.
   */
  method HighlightKey(text: string, h: Highlight) returns (spans: seq<StyleSpan>)
    requires h.key != []
    ensures spans == KeySpans(text, h)
  {
    var key := h.key;
    ghost var hits: seq<nat> := [];
    var index := IndexOf(text, key, 0);
    IndexOfSplitsOccurrences(text, key, 0);
    spans := [];
    while index != -1
      invariant index == -1 || 0 <= index <= |text|
      invariant spans == SpansAt(hits, h)
      invariant Occurrences(text, key, 0) == hits + Pending(text, key, index)
      decreases if index == -1 then 0 else |text| + 1 - index
    {
      SearchStep(text, key, hits, index);
      SpansAtSnoc(hits, index, h);
      spans := spans + [StyleSpan(StyleOf(h), index, index + |key|)];
      hits := hits + [index];
      index := IndexOf(text, key, index + 1);
    }
    assert hits + [] == hits;
  }

  /**
   * The spans of one entry, read back: each one covers a hit and carries the
   * entry's bold colour, every hit (overlapping ones included) has one, and
   * their starts strictly increase.
   */
  lemma KeySpansMeaning(text: string, h: Highlight)
    ensures var spans := KeySpans(text, h);
      && (forall k :: 0 <= k < |spans| ==>
            spans[k].style == StyleOf(h) && spans[k].end == spans[k].start + |h.key|
            && OccursAt(text, h.key, spans[k].start))
      && (forall p :: OccursAt(text, h.key, p) ==> StyleSpan(StyleOf(h), p, p + |h.key|) in spans)
      && (forall k, l :: 0 <= k < l < |spans| ==> spans[k].start < spans[l].start)
  {
    OccurrencesMeaning(text, h.key, 0);
    var ps := Occurrences(text, h.key, 0);
    var spans := KeySpans(text, h);
    forall p | OccursAt(text, h.key, p) ensures StyleSpan(StyleOf(h), p, p + |h.key|) in spans {
      assert p in ps;
      var k :| 0 <= k < |ps| && ps[k] == p;
      assert spans[k] == StyleSpan(StyleOf(h), p, p + |h.key|);
    }
    forall k | 0 <= k < |spans| ensures OccursAt(text, h.key, spans[k].start) {
      assert ps[k] in ps;
    }
  }

  /** A key with no hit in the text gets no span, and conversely. */
  lemma AbsentKeyNoSpan(text: string, h: Highlight)
    ensures KeySpans(text, h) == [] <==> forall p :: !OccursAt(text, h.key, p)
  {
    if forall p :: !OccursAt(text, h.key, p) {
      OccurrencesNone(text, h.key, 0);
    } else {
      var p :| OccursAt(text, h.key, p);
      OccurrencesMeaning(text, h.key, 0);
      assert p in Occurrences(text, h.key, 0);
    }
  }

  /** Every span of a non-empty key lies inside the text. */
  lemma KeySpansInBounds(text: string, h: Highlight, k: nat)
    requires h.key != []
    requires k < |KeySpans(text, h)|
    ensures 0 <= KeySpans(text, h)[k].start < KeySpans(text, h)[k].end <= |text|
  {
    KeySpansMeaning(text, h);
  }

  /**
   * Soundness over the whole table: every span covers a hit of some entry
   * and carries that entry's colour in bold.
   */
  lemma {:induction false} TableSpansSound(text: string, table: seq<Highlight>, k: nat)
    requires k < |TableSpans(text, table)|
    ensures var span := TableSpans(text, table)[k];
      exists i :: 0 <= i < |table| && span.style == StyleOf(table[i])
        && span.end == span.start + |table[i].key| && OccursAt(text, table[i].key, span.start)
    decreases |table|
  {
    var init := table[..|table| - 1];
    var last := table[|table| - 1];
    var before := TableSpans(text, init);
    if k < |before| {
      TableSpansSound(text, init, k);
      var span := before[k];
      var i :| 0 <= i < |init| && span.style == StyleOf(init[i])
        && span.end == span.start + |init[i].key| && OccursAt(text, init[i].key, span.start);
      assert init[i] == table[i];
    } else {
      KeySpansMeaning(text, last);
      assert TableSpans(text, table)[k] == KeySpans(text, last)[k - |before|];
    }
  }

  /** Completeness over the whole table: every hit of every entry is styled. */
  lemma {:induction false} TableSpansComplete(text: string, table: seq<Highlight>, i: nat, p: int)
    requires i < |table|
    requires OccursAt(text, table[i].key, p)
    ensures StyleSpan(StyleOf(table[i]), p, p + |table[i].key|) in TableSpans(text, table)
    decreases |table|
  {
    var init := table[..|table| - 1];
    if i < |init| {
      assert init[i] == table[i];
      TableSpansComplete(text, init, i, p);
    } else {
      KeySpansMeaning(text, table[i]);
    }
  }

  /**
   * The `remember { buildAnnotatedString { ... } }` block: the visible
   * prefix of the text, with the spans of every table entry in table order.
   */
  method AnnotatedText(fullText: string, displayedCharCount: nat) returns (r: AnnotatedString)
    ensures r.text == Take(fullText, displayedCharCount)
    ensures r.spans == TableSpans(r.text, Highlights())
  {
    var currentRawText := Take(fullText, displayedCharCount);
    var table := Highlights();
    HighlightKeysNonEmpty();
    var spans := [];
    for i := 0 to |table|
      invariant spans == TableSpans(currentRawText, table[..i])
    {
      var keySpans := HighlightKey(currentRawText, table[i]);
      assert table[..i + 1][..i] == table[..i];
      spans := spans + keySpans;
    }
    assert table[..|table|] == table;
    r := AnnotatedString(currentRawText, spans);
  }

  /**
   * A hit in the visible prefix is a hit in the full text that the typing
   * has fully revealed, and conversely: a key is styled only once all of
   * its characters are on screen.
   */
  lemma VisibleHits(fullText: string, n: nat, key: string, p: int)
    ensures OccursAt(Take(fullText, n), key, p) <==> OccursAt(fullText, key, p) && p + |key| <= n
  {
    var visible := Take(fullText, n);
    if 0 <= p && p + |key| <= |visible| {
      SliceIsOccurrence(visible, key, p);
      SliceIsOccurrence(fullText, key, p);
      assert visible[p..p + |key|] == fullText[p..p + |key|];
    }
  }

  /** A position whose character differs from the key's first one is no hit. */
  lemma FirstCharMismatch(text: string, key: string, p: nat)
    requires key != [] && p < |text| && text[p] != key[0]
    ensures !OccursAt(text, key, p)
  {
    if p + |key| <= |text| {
      SliceIsOccurrence(text, key, p);
      assert text[p..p + |key|][0] == text[p];
    }
  }

  /** A key with exactly one hit, at q, gets exactly one span. */
  lemma SingleHit(text: string, h: Highlight, q: nat)
    requires OccursAt(text, h.key, q)
    requires forall p :: p != q ==> !OccursAt(text, h.key, p)
    ensures KeySpans(text, h) == [StyleSpan(StyleOf(h), q, q + |h.key|)]
  {
    OccurrencesSkip(text, h.key, 0, q);
    OccurrencesNone(text, h.key, q + 1);
  }

  /**
   * A key whose j-th character appears nowhere it would have to sit for a
   * hit has no hit, and so no span.
   */
  lemma MismatchNoSpan(text: string, h: Highlight, j: nat)
    requires j < |h.key|
    requires forall q :: j <= q < |text| + j + 1 - |h.key| ==> text[q] != h.key[j]
    ensures KeySpans(text, h) == []
  {
    forall p ensures !OccursAt(text, h.key, p) {
      if 0 <= p && p + |h.key| <= |text| {
        SliceIsOccurrence(text, h.key, p);
        assert text[p..p + |h.key|][j] == text[p + j];
      }
    }
    AbsentKeyNoSpan(text, h);
  }

  /** When only the first entry of a table has spans, the pass yields just those. */
  lemma {:induction false} TableSpansOnlyFirst(text: string, table: seq<Highlight>)
    requires |table| > 0
    requires forall i :: 1 <= i < |table| ==> KeySpans(text, table[i]) == []
    ensures TableSpans(text, table) == KeySpans(text, table[0])
    decreases |table|
  {
    if |table| > 1 {
      var init := table[..|table| - 1];
      assert forall i :: 1 <= i < |init| ==> init[i] == table[i];
      TableSpansOnlyFirst(text, init);
    } else {
      assert table[..0] == [];
    }
  }

  /** The other bracketed tags miss "[  OK  ] up" at their second or third character. */
  lemma OkLineTagsMiss()
    ensures forall i :: 1 <= i <= 8 ==> KeySpans("[  OK  ] up", Highlights()[i]) == []
  {
    var text, t := "[  OK  ] up", Highlights();
    forall i | 1 <= i <= 8 ensures KeySpans(text, t[i]) == [] {
      if i == 3 {
        MismatchNoSpan(text, t[i], 1);
      } else {
        MismatchNoSpan(text, t[i], 2);
      }
    }
  }

  /** The structural and technical keys miss "[  OK  ] up" at their first character. */
  lemma OkLineOthersMiss()
    ensures forall i :: 9 <= i < 17 ==> KeySpans("[  OK  ] up", Highlights()[i]) == []
  {
    var text, t := "[  OK  ] up", Highlights();
    forall i | 9 <= i < 17 ensures KeySpans(text, t[i]) == [] {
      MismatchNoSpan(text, t[i], 0);
    }
  }

  /**
   * A boot line with an OK tag: over the whole table, the tag and nothing
   * else is styled, green and bold.
   */
  lemma OkTagExample()
    ensures TableSpans("[  OK  ] up", Highlights())
      == [StyleSpan(SpanStyle(Color(0xFF00FF88), Bold), 0, 8)]
  {
    var text, t := "[  OK  ] up", Highlights();
    var h := t[0];
    SliceIsOccurrence(text, h.key, 0);
    forall p | p != 0 ensures !OccursAt(text, h.key, p) {
      if 0 < p <= 3 {
        FirstCharMismatch(text, h.key, p);
      }
    }
    SingleHit(text, h, 0);
    OkLineTagsMiss();
    OkLineOthersMiss();
    TableSpansOnlyFirst(text, t);
  }

  /**
   * Hits of one key may overlap: a run of 60 dashes holds the 59-dash
   * separator at 0 and at 1, and both get a span.
   */
  lemma OverlappingHitsExample()
    ensures KeySpans(seq(60, _ => '-'), Highlights()[9])
      == [StyleSpan(SpanStyle(Color(0xFFF50057), Bold), 0, 59),
          StyleSpan(SpanStyle(Color(0xFFF50057), Bold), 1, 60)]
  {
    var text, h := seq(60, _ => '-'), Highlights()[9];
    var key := h.key;
    assert key == Dashes();
    SliceIsOccurrence(text, key, 0);
    SliceIsOccurrence(text, key, 1);
    assert text[0..59] == key;
    assert text[1..60] == key;
    OccurrencesNone(text, key, 2);
    assert Occurrences(text, key, 1) == [1];
    assert Occurrences(text, key, 0) == [0, 1];
    var spans := SpansAt([0, 1], h);
    assert |spans| == 2 && spans[0] == StyleSpan(StyleOf(h), 0, 59) && spans[1] == StyleSpan(StyleOf(h), 1, 60);
  }
}
