/** The matcher on concrete inputs, which pin down its behaviour on small texts. */
module Scenarios {
  import opened Ascii
  import opened Lines
  import opened Matcher

  /**
   * Overlapping occurrences are all reported: "aa" in "aaa" has table entry 1 for 'a',
   * so the walk visits offsets 0 and 1 and records both, one line entry each.
   */
  lemma OverlappingOccurrencesReported()
    ensures Scan([97, 97], [97, 97, 97], false, 0) == [0, 1]
    ensures LineAt([97, 97, 97], 0) == LineAt([97, 97, 97], 1) == Match(0, 0, 3)
  {
    ScanIsComplete([97, 97], [97, 97, 97], 0);
    assert OccursAt([97, 97], [97, 97, 97], 0);
    assert OccursAt([97, 97], [97, 97, 97], 1);
  }

  /**
   * Case-insensitive mode is not complete: for query "ab" on "xAb" the window at 0
   * mismatches, the table entry of 'A' is 2 because the table is built from the query
   * bytes unfolded, so the walk leaves the text and never visits offset 1, which matches.
   */
  lemma CaseInsensitiveMissesMatch()
    ensures MatchesAt([97, 98], [120, 65, 98], 1, true)
    ensures Scan([97, 98], [120, 65, 98], true, 0) == []
  {
    var q: seq<byte> := [97, 98];
    assert Skip.RightmostShift(q, 1, 65, Skip.Table(q)[65]);
  }

  /** "duct" */
  const DUCT: seq<byte> := [100, 117, 99, 116]
  /** "Rust:" */
  const LINE0: seq<byte> := [82, 117, 115, 116, 58]
  /** "safe, fast, productive." */
  const LINE1: seq<byte> := [115, 97, 102, 101, 44, 32, 102, 97, 115, 116, 44, 32, 112, 114, 111, 100, 117, 99, 116, 105, 118, 101, 46]
  /** "Pick three." */
  const LINE2: seq<byte> := [80, 105, 99, 107, 32, 116, 104, 114, 101, 101, 46]
  /** "Trust me." */
  const LINE3: seq<byte> := [84, 114, 117, 115, 116, 32, 109, 101, 46]
  /** The three-line text of the one-result test. */
  const POEM: seq<byte> := LINE0 + [NEWLINE] + LINE1 + [NEWLINE] + LINE2
  /** The four-line text of the case-insensitive test. */
  const LONG_POEM: seq<byte> := POEM + [NEWLINE] + LINE3
  /** "rUSt" */
  const MIXED: seq<byte> := [114, 85, 83, 116]

  /** "duct" occurs in the poem only at offset 21, inside "productive". */
  lemma DuctOccursOnce()
    ensures forall p | 0 <= p < 21 || 22 <= p < 38 :: !OccursAt(DUCT, POEM, p)
  {
    forall p | 0 <= p < 21 || 22 <= p < 38
      ensures !OccursAt(DUCT, POEM, p)
    {
      if p + 4 <= |POEM| {
        assert POEM[p..p + 4][0] == POEM[p];
      }
    }
  }

  /**
   * The one-result test: a case-sensitive search for "duct" reports exactly offset 21,
   * whose line is line 1, "safe, fast, productive.", spanning offsets 6 to 29.
   */
  lemma OneResult()
    ensures Scan(DUCT, POEM, false, 0) == [21]
    ensures LineAt(POEM, 21) == Match(1, 6, 29)
    ensures LineText(POEM, LineAt(POEM, 21)) == LINE1
  {
    assert POEM[21..25] == DUCT;
    DuctOccursOnce();
    SkipNonOccurrences(DUCT, POEM, 0, 21);
    SkipNonOccurrences(DUCT, POEM, 22, 38);
    ScanIsComplete(DUCT, POEM, 0);
    SecondLine();
  }

  /** Offset 21 of the poem lies on its second line, "safe, fast, productive.". */
  lemma SecondLine()
    ensures LineAt(POEM, 21) == Match(1, 6, 29)
    ensures LineText(POEM, LineAt(POEM, 21)) == LINE1
  {
    assert POEM[..6] == LINE0 + [NEWLINE];
    CountAbsent(LINE0, NEWLINE);
    CountByteAppend(LINE0, [NEWLINE], NEWLINE);
    LineIsSpanBetweenNewlines(POEM, 21, 6, 29);
    assert POEM[6..29] == LINE1;
  }

  /** Shift of each byte for "rUSt": the bytes of the query as written, others 4. */
  function MixedShift(c: byte): nat
  {
    if c == 114 then 3 else if c == 85 then 2 else if c == 83 then 1 else 4
  }

  lemma MixedTable()
    ensures forall c: byte :: Skip.Table(MIXED)[c] == MixedShift(c)
  {
    forall c: byte
      ensures Skip.Table(MIXED)[c] == MixedShift(c)
    {
      assert Skip.RightmostShift(MIXED, 3, c, Skip.Table(MIXED)[c]);
    }
  }

  /** The walk for "rUSt" from offset 23 to the end: only "rust" of "Trust" at 43 is hit. */
  lemma MixedWalkTail()
    ensures Scan(MIXED, LONG_POEM, true, 23) == [43]
  {
    MixedTable();
    MixedWalkEnd();
    assert Scan(MIXED, LONG_POEM, true, 39) == [43];
    assert Scan(MIXED, LONG_POEM, true, 35) == [43];
    assert Scan(MIXED, LONG_POEM, true, 31) == [43];
    assert Scan(MIXED, LONG_POEM, true, 27) == [43];
    assert Scan(MIXED, LONG_POEM, true, 23) == [43];
  }

  /** The last two windows of the walk for "rUSt": "rust" at 43 matches, " me." does not. */
  lemma MixedWalkEnd()
    ensures Scan(MIXED, LONG_POEM, true, 43) == [43]
  {
    MixedTable();
    assert Scan(MIXED, LONG_POEM, true, 51) == [];
    assert Scan(MIXED, LONG_POEM, true, 47) == [];
  }

  lemma MixedWalkMiddle()
    ensures Scan(MIXED, LONG_POEM, true, 12) == [43]
  {
    MixedTable();
    MixedWalkTail();
    assert Scan(MIXED, LONG_POEM, true, 19) == [43];
    assert Scan(MIXED, LONG_POEM, true, 16) == [43];
  }

  /**
   * The case-insensitive test: a search for "rUSt" reports offsets 0 and 43, on lines 0
   * and 3, and the lines handed back are slices of the original text, "Rust:" and
   * "Trust me.", not lower-cased copies of them.
   */
  lemma CaseInsensitiveResults()
    ensures Scan(MIXED, LONG_POEM, true, 0) == [0, 43]
    ensures LineAt(LONG_POEM, 0) == Match(0, 0, 5) && LineText(LONG_POEM, LineAt(LONG_POEM, 0)) == LINE0
    ensures LineAt(LONG_POEM, 43) == Match(3, 42, 51) && LineText(LONG_POEM, LineAt(LONG_POEM, 43)) == LINE3
  {
    MixedTable();
    MixedWalkMiddle();
    assert Scan(MIXED, LONG_POEM, true, 8) == [43];
    assert Scan(MIXED, LONG_POEM, true, 4) == [43];
    assert LONG_POEM[..4] == [82, 117, 115, 116];
    assert WindowMatches(MIXED, LONG_POEM, 0, true);
    assert Advance(MIXED, LONG_POEM, 0) == 4;
    ScanStep(MIXED, LONG_POEM, true, 0);
    FirstLine();
    LastLine();
  }

  /** Offset 0 of the longer poem lies on its first line, "Rust:" as written. */
  lemma FirstLine()
    ensures LineAt(LONG_POEM, 0) == Match(0, 0, 5) && LineText(LONG_POEM, LineAt(LONG_POEM, 0)) == LINE0
  {
    LineIsSpanBetweenNewlines(LONG_POEM, 0, 0, 5);
    assert LONG_POEM[0..5] == LINE0;
  }

  /** Offset 43 of the longer poem lies on its fourth line, "Trust me." as written. */
  lemma LastLine()
    ensures LineAt(LONG_POEM, 43) == Match(3, 42, 51) && LineText(LONG_POEM, LineAt(LONG_POEM, 43)) == LINE3
  {
    assert LONG_POEM[..42] == POEM + [NEWLINE];
    CountByteAppend(POEM, [NEWLINE], NEWLINE);
    CountByteAppend(LINE0 + [NEWLINE] + LINE1 + [NEWLINE], LINE2, NEWLINE);
    CountByteAppend(LINE0 + [NEWLINE] + LINE1, [NEWLINE], NEWLINE);
    CountByteAppend(LINE0 + [NEWLINE], LINE1, NEWLINE);
    CountByteAppend(LINE0, [NEWLINE], NEWLINE);
    CountAbsent(LINE0, NEWLINE);
    CountAbsent(LINE1, NEWLINE);
    CountAbsent(LINE2, NEWLINE);
    LineIsSpanBetweenNewlines(LONG_POEM, 43, 42, 51);
    assert LONG_POEM[42..51] == LINE3;
  }
}
