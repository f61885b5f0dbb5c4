/**
 * Line extraction for a match: the enclosing line's bounds and its 0-based number,
 * computed from byte offsets into the original text (src/lib.rs:54-60).
 */
module Lines {
  import opened Ascii
  import opened Wrappers

  /** One reported hit: 0-based line number and the span `text[lineStart..lineEnd]` of that line. */
  datatype Match = Match(lineNo: nat, lineStart: nat, lineEnd: nat)

  /** The line a match reports, as a slice of the text it was found in. */
  function LineText(text: seq<byte>, m: Match): (r: seq<byte>)
    requires m.lineStart <= m.lineEnd <= |text|
    ensures |r| == m.lineEnd - m.lineStart
    ensures forall k :: 0 <= k < |r| ==> r[k] == text[m.lineStart + k]
  {
    text[m.lineStart..m.lineEnd]
  }

  /** The positions of `c` in `s`. */
  ghost function PositionsOf(s: seq<byte>, c: byte): set<nat> {
    set p: nat | p < |s| && s[p] == c
  }

  /** `str::matches(c).count()`: how many times `c` occurs in `s`. */
  function CountByte(s: seq<byte>, c: byte): (r: nat)
    ensures r <= |s|
  {
    if s == [] then 0 else CountByte(s[..|s| - 1], c) + (if s[|s| - 1] == c then 1 else 0)
  }

  /** `str::rfind(c)`: the index of the last `c` in `s`, if any. */
  function RFind(s: seq<byte>, c: byte): (r: Option<nat>)
    ensures r.Some? ==> r.value < |s| && s[r.value] == c
    ensures r.Some? ==> forall p :: r.value < p < |s| ==> s[p] != c
    ensures r.None? ==> forall p :: 0 <= p < |s| ==> s[p] != c
  {
    if s == [] then None
    else if s[|s| - 1] == c then Some(|s| - 1)
    else RFind(s[..|s| - 1], c)
  }

  /** `str::find(c)`: the index of the first `c` in `s`, if any. */
  function Find(s: seq<byte>, c: byte): (r: Option<nat>)
    ensures r.Some? ==> r.value < |s| && s[r.value] == c
    ensures r.Some? ==> forall p :: 0 <= p < r.value ==> s[p] != c
    ensures r.None? ==> forall p :: 0 <= p < |s| ==> s[p] != c
  {
    if s == [] then None
    else if s[0] == c then Some(0)
    else match Find(s[1..], c)
      case None => None
      case Some(p) => Some(p + 1)
  }

  /**
   * The line containing offset `i`: it starts after the nearest newline before `i`
   * (or at 0), ends at the nearest newline at or after `i` (or at the end of the text),
   * and its number is the count of newlines before `i`.
   */
  function LineAt(text: seq<byte>, i: nat): (r: Match)
    requires i <= |text|
    ensures r.lineStart <= i <= r.lineEnd <= |text|
    ensures r.lineStart == 0 || text[r.lineStart - 1] == NEWLINE
    ensures r.lineEnd == |text| || text[r.lineEnd] == NEWLINE
    ensures forall p :: r.lineStart <= p < r.lineEnd ==> text[p] != NEWLINE
    ensures r.lineNo == CountByte(text[..r.lineStart], NEWLINE)
  {
    var lastBefore := RFind(text[..i], NEWLINE);
    var lineStart := if lastBefore.Some? then lastBefore.value + 1 else 0;
    var firstAfter := Find(text[i..], NEWLINE);
    var lineEnd := if firstAfter.Some? then i + firstAfter.value else |text|;
    assert CountByte(text[..i], NEWLINE) == CountByte(text[..lineStart], NEWLINE) by {
      CountWithoutByte(text, lineStart, i, NEWLINE);
    }
    Match(CountByte(text[..i], NEWLINE), lineStart, lineEnd)
  }

  /** Counting over a concatenation adds up. */
  lemma {:induction false} CountByteAppend(a: seq<byte>, b: seq<byte>, c: byte)
    ensures CountByte(a + b, c) == CountByte(a, c) + CountByte(b, c)
    decreases |b|
  {
    if b == [] {
      assert a + b == a;
    } else {
      assert (a + b)[..|a + b| - 1] == a + b[..|b| - 1];
      CountByteAppend(a, b[..|b| - 1], c);
    }
  }

  /** A stretch of text without `c` adds nothing to the count. */
  lemma CountWithoutByte(text: seq<byte>, lo: nat, hi: nat, c: byte)
    requires lo <= hi <= |text|
    requires forall p :: lo <= p < hi ==> text[p] != c
    ensures CountByte(text[..hi], c) == CountByte(text[..lo], c)
  {
    assert text[..hi] == text[..lo] + text[lo..hi];
    CountByteAppend(text[..lo], text[lo..hi], c);
    CountAbsent(text[lo..hi], c);
  }

  /** A sequence without `c` counts zero of it. */
  lemma {:induction false} CountAbsent(s: seq<byte>, c: byte)
    requires forall p :: 0 <= p < |s| ==> s[p] != c
    ensures CountByte(s, c) == 0
  {
    if s != [] {
      CountAbsent(s[..|s| - 1], c);
    }
  }

  /** The recursive count equals the number of positions holding `c`. */
  lemma {:induction false} CountIsNumberOfPositions(s: seq<byte>, c: byte)
    ensures CountByte(s, c) == |PositionsOf(s, c)|
  {
    if s == [] {
      assert PositionsOf(s, c) == {};
    } else {
      var init := s[..|s| - 1];
      CountIsNumberOfPositions(init, c);
      if s[|s| - 1] == c {
        assert PositionsOf(s, c) == PositionsOf(init, c) + {|s| - 1};
      } else {
        assert PositionsOf(s, c) == PositionsOf(init, c);
      }
    }
  }

  /** A match's line number is the number of newline bytes strictly before its offset. */
  lemma LineNumberCountsNewlines(text: seq<byte>, i: nat)
    requires i <= |text|
    ensures LineAt(text, i).lineNo == |PositionsOf(text[..i], NEWLINE)|
  {
    var r := LineAt(text, i);
    CountWithoutByte(text, r.lineStart, i, NEWLINE);
    CountIsNumberOfPositions(text[..i], NEWLINE);
  }

  /** The line number is the count of newlines in the whole prefix before the offset. */
  lemma LineNumberIsPrefixCount(text: seq<byte>, i: nat)
    requires i <= |text|
    ensures LineAt(text, i).lineNo == CountByte(text[..i], NEWLINE)
  {
    CountWithoutByte(text, LineAt(text, i).lineStart, i, NEWLINE);
  }

  /** A newline at `q` in `[a, b)` makes the prefix before `b` count more newlines than the one before `a`. */
  lemma NewlineBetween(text: seq<byte>, a: nat, q: nat, b: nat)
    requires a <= q < b <= |text|
    requires text[q] == NEWLINE
    ensures CountByte(text[..a], NEWLINE) < CountByte(text[..b], NEWLINE)
  {
    assert text[..b] == text[..a] + text[a..q] + [NEWLINE] + text[q + 1..b];
    CountByteAppend(text[..a] + text[a..q] + [NEWLINE], text[q + 1..b], NEWLINE);
    CountByteAppend(text[..a] + text[a..q], [NEWLINE], NEWLINE);
    CountByteAppend(text[..a], text[a..q], NEWLINE);
    assert CountByte([NEWLINE], NEWLINE) == 1 by {
      assert [NEWLINE][..0] == [];
    }
  }

  /**
   * Counting newlines over a longer prefix never gives less, and gives the same exactly
   * when no newline lies between the two prefix ends.
   */
  lemma PrefixCountMonotone(text: seq<byte>, a: nat, b: nat)
    requires a <= b <= |text|
    ensures CountByte(text[..a], NEWLINE) <= CountByte(text[..b], NEWLINE)
    ensures CountByte(text[..a], NEWLINE) == CountByte(text[..b], NEWLINE)
        <==> forall p :: a <= p < b ==> text[p] != NEWLINE
  {
    if forall p :: a <= p < b ==> text[p] != NEWLINE {
      CountWithoutByte(text, a, b, NEWLINE);
    } else {
      var q :| a <= q < b && text[q] == NEWLINE;
      NewlineBetween(text, a, q, b);
      assert text[..b] == text[..q + 1] + text[q + 1..b];
      CountByteAppend(text[..q + 1], text[q + 1..b], NEWLINE);
      NewlineBetween(text, q, q, q + 1);
      assert text[..q + 1] == text[..a] + text[a..q + 1];
      CountByteAppend(text[..a], text[a..q + 1], NEWLINE);
    }
  }

  /**
   * Line numbers never decrease with the offset, and two offsets get the same line
   * number exactly when no newline lies between them.
   */
  lemma LinesOrdered(text: seq<byte>, a: nat, b: nat)
    requires a <= b <= |text|
    ensures LineAt(text, a).lineNo <= LineAt(text, b).lineNo
    ensures LineAt(text, a).lineNo == LineAt(text, b).lineNo <==> forall p :: a <= p < b ==> text[p] != NEWLINE
  {
    LineNumberIsPrefixCount(text, a);
    LineNumberIsPrefixCount(text, b);
    PrefixCountMonotone(text, a, b);
  }

  /** Two offsets get the same line number exactly when they report the same line span. */
  lemma SameNumberSameLine(text: seq<byte>, a: nat, b: nat)
    requires a <= b <= |text|
    ensures LineAt(text, a).lineNo == LineAt(text, b).lineNo <==> LineAt(text, a) == LineAt(text, b)
  {
    LinesOrdered(text, a, b);
    if LineAt(text, a).lineNo == LineAt(text, b).lineNo {
      SameLine(text, a, b);
    }
  }

  /** Offsets with no newline between them lie on the same line. */
  lemma SameLine(text: seq<byte>, a: nat, b: nat)
    requires a <= b <= |text|
    requires forall p :: a <= p < b ==> text[p] != NEWLINE
    ensures LineAt(text, a) == LineAt(text, b)
  {
  }

  /**
   * A line is determined by its bounds: any span that starts the text or follows a
   * newline, ends the text or precedes a newline, and holds no newline is the line of
   * every offset inside it, numbered by the newlines before it.
   */
  lemma LineIsSpanBetweenNewlines(text: seq<byte>, i: nat, start: nat, end: nat)
    requires start <= i <= end <= |text|
    requires start == 0 || text[start - 1] == NEWLINE
    requires end == |text| || text[end] == NEWLINE
    requires forall p :: start <= p < end ==> text[p] != NEWLINE
    ensures LineAt(text, i) == Match(CountByte(text[..start], NEWLINE), start, end)
  {
  }
}
