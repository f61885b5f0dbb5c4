/**
 * The substring matcher `search` (src/lib.rs:27-79): a Boyer-Moore-Horspool scan with the
 * bad-character rule only, over the bytes of the text, reporting the enclosing line of
 * every window it finds equal to the query under the selected comparison.
 */
module Matcher {
  import opened Ascii
  import opened Lines
  import Skip

  /** Every query byte equals the text byte it lines up with at offset `i`, under `Compare`. */
  predicate MatchesAt(query: seq<byte>, text: seq<byte>, i: nat, caseInsensitive: bool) {
    && i + |query| <= |text|
    && forall j :: 0 <= j < |query| ==> Compare(query[j], text[i + j], caseInsensitive)
  }

  /** The query occurs in the text at offset `i`: the window there is the query itself. */
  predicate OccursAt(query: seq<byte>, text: seq<byte>, i: nat) {
    i + |query| <= |text| && text[i..i + |query|] == query
  }

  predicate StrictlyIncreasing(s: seq<nat>) {
    forall a, b :: 0 <= a < b < |s| ==> s[a] < s[b]
  }

  /**
   * The backward comparison of src/lib.rs:50-66 from position `j` on: the query bytes at
   * `j .. m - 1` agree with the window at `i` under `Compare`.
   */
  predicate AgreeFrom(query: seq<byte>, text: seq<byte>, i: nat, caseInsensitive: bool, j: nat)
    requires j <= |query| && i + |query| <= |text|
    decreases |query| - j
  {
    j == |query| || (Compare(query[j], text[i + j], caseInsensitive) && AgreeFrom(query, text, i, caseInsensitive, j + 1))
  }

  /** The window at `i` passes the backward comparison. */
  predicate WindowMatches(query: seq<byte>, text: seq<byte>, i: nat, caseInsensitive: bool)
    requires i + |query| <= |text|
  {
    AgreeFrom(query, text, i, caseInsensitive, 0)
  }

  /** Agreement from `j` on is the comparison holding at every position from `j` on. */
  lemma {:induction false} AgreeFromMeaning(query: seq<byte>, text: seq<byte>, i: nat, caseInsensitive: bool, j: nat)
    requires j <= |query| && i + |query| <= |text|
    ensures AgreeFrom(query, text, i, caseInsensitive, j)
        <==> forall k :: j <= k < |query| ==> Compare(query[k], text[i + k], caseInsensitive)
    decreases |query| - j
  {
    if j < |query| {
      AgreeFromMeaning(query, text, i, caseInsensitive, j + 1);
    }
  }

  /** The backward comparison accepts exactly the matching windows. */
  lemma WindowMatchesMeaning(query: seq<byte>, text: seq<byte>, i: nat, caseInsensitive: bool)
    requires i + |query| <= |text|
    ensures WindowMatches(query, text, i, caseInsensitive) <==> MatchesAt(query, text, i, caseInsensitive)
  {
    AgreeFromMeaning(query, text, i, caseInsensitive, 0);
  }

  /** Reference definition: every offset from `i` on where the query occurs, ascending (a brute-force scan). */
  function OccurrencesFrom(query: seq<byte>, text: seq<byte>, i: nat): (r: seq<nat>)
    ensures forall k :: 0 <= k < |r| ==> i <= r[k] && OccursAt(query, text, r[k])
    decreases |text| + 1 - i
  {
    if i + |query| > |text| then []
    else (if OccursAt(query, text, i) then [i] else []) + OccurrencesFrom(query, text, i + 1)
  }

  /** All occurrences of the query in the text, overlapping ones included, ascending. */
  function Occurrences(query: seq<byte>, text: seq<byte>): seq<nat> {
    OccurrencesFrom(query, text, 0)
  }

  /** The reference list holds every occurrence from `i` on, each once, in ascending order. */
  lemma {:induction false} OccurrencesFromExact(query: seq<byte>, text: seq<byte>, i: nat)
    ensures StrictlyIncreasing(OccurrencesFrom(query, text, i))
    ensures forall p :: p in OccurrencesFrom(query, text, i) <==> i <= p && OccursAt(query, text, p)
    decreases |text| + 1 - i
  {
    if i + |query| <= |text| {
      OccurrencesFromExact(query, text, i + 1);
    }
  }

  /** Where the cursor goes from `i`: forward by the table entry of the byte under the query's last position. */
  function Advance(query: seq<byte>, text: seq<byte>, i: nat): (r: nat)
    requires 1 <= |query| && i + |query| <= |text|
    ensures i < r <= i + |query|
  {
    i + Skip.Table(query)[text[i + |query| - 1]]
  }

  /**
   * The Horspool cursor walk of src/lib.rs:48-69 from cursor `i`: while `i <= n - m`,
   * record `i` if the window there matches, then advance, after a match and after a
   * mismatch alike.
   */
  function Scan(query: seq<byte>, text: seq<byte>, caseInsensitive: bool, i: nat): (r: seq<nat>)
    requires 1 <= |query| <= |text|
    ensures forall k :: 0 <= k < |r| ==> i <= r[k] <= |text| - |query|
    decreases |text| - i
  {
    if i > |text| - |query| then []
    else
      (if WindowMatches(query, text, i, caseInsensitive) then [i] else [])
      + Scan(query, text, caseInsensitive, Advance(query, text, i))
  }

  /** One step of the walk, spelled out. */
  lemma ScanStep(query: seq<byte>, text: seq<byte>, caseInsensitive: bool, i: nat)
    requires 1 <= |query| <= |text| && i <= |text| - |query|
    ensures Scan(query, text, caseInsensitive, i)
         == (if WindowMatches(query, text, i, caseInsensitive) then [i] else [])
            + Scan(query, text, caseInsensitive, Advance(query, text, i))
  {
  }

  /**
   * One step of the walk: the offsets recorded so far followed by the rest of the walk
   * stay the whole walk after the window at `i` is examined and the cursor advances.
   */
  lemma ScanResumes(query: seq<byte>, text: seq<byte>, caseInsensitive: bool, i: nat, done: seq<nat>)
    requires 1 <= |query| <= |text| && i <= |text| - |query|
    requires done + Scan(query, text, caseInsensitive, i) == Scan(query, text, caseInsensitive, 0)
    ensures WindowMatches(query, text, i, caseInsensitive)
        ==> (done + [i]) + Scan(query, text, caseInsensitive, Advance(query, text, i)) == Scan(query, text, caseInsensitive, 0)
    ensures !WindowMatches(query, text, i, caseInsensitive)
        ==> done + Scan(query, text, caseInsensitive, Advance(query, text, i)) == Scan(query, text, caseInsensitive, 0)
  {
    var rest := Scan(query, text, caseInsensitive, Advance(query, text, i));
    ScanStep(query, text, caseInsensitive, i);
    if WindowMatches(query, text, i, caseInsensitive) {
      assert (done + [i]) + rest == done + ([i] + rest);
    } else {
      assert [] + rest == rest;
    }
  }

  /**
   * Soundness in both modes: the walk records offsets in strictly ascending order, and
   * the window at each of them matches the query under the selected comparison.
   */
  lemma {:induction false} ScanIsSound(query: seq<byte>, text: seq<byte>, caseInsensitive: bool, i: nat)
    requires 1 <= |query| <= |text|
    ensures StrictlyIncreasing(Scan(query, text, caseInsensitive, i))
    ensures forall p :: p in Scan(query, text, caseInsensitive, i) ==> MatchesAt(query, text, p, caseInsensitive)
    decreases |text| - i
  {
    if i <= |text| - |query| {
      WindowMatchesMeaning(query, text, i, caseInsensitive);
      ScanIsSound(query, text, caseInsensitive, Advance(query, text, i));
    }
  }

  /** Exact comparison of every byte of the window is equality of the window with the query. */
  lemma ExactMatchIsOccurrence(query: seq<byte>, text: seq<byte>, i: nat)
    ensures MatchesAt(query, text, i, false) <==> OccursAt(query, text, i)
  {
    if i + |query| <= |text| {
      if MatchesAt(query, text, i, false) {
        assert text[i..i + |query|] == query;
      }
    }
  }

  /** A case-sensitive match is also a case-insensitive one. */
  lemma ExactMatchMatchesIgnoringCase(query: seq<byte>, text: seq<byte>, i: nat)
    requires MatchesAt(query, text, i, false)
    ensures MatchesAt(query, text, i, true)
  {
  }

  /**
   * No occurrence starts strictly inside a Horspool shift: every offset strictly between
   * `i` and `Advance(i)` has no occurrence of the query.
   */
  lemma ShiftIsSafe(query: seq<byte>, text: seq<byte>, i: nat, p: nat)
    requires 1 <= |query| && i + |query| <= |text|
    requires i < p < Advance(query, text, i)
    ensures !OccursAt(query, text, p)
  {
    Skip.ShiftSkipsNoAlignment(query, text[i + |query| - 1], p - i);
  }

  /** Skipping offsets that hold no occurrence does not change the remaining occurrences. */
  lemma {:induction false} SkipNonOccurrences(query: seq<byte>, text: seq<byte>, a: nat, b: nat)
    requires a <= b
    requires forall p :: a <= p < b ==> !OccursAt(query, text, p)
    ensures OccurrencesFrom(query, text, a) == OccurrencesFrom(query, text, b)
    decreases b - a
  {
    if a < b && a + |query| <= |text| {
      SkipNonOccurrences(query, text, a + 1, b);
    }
  }

  /** The occurrences after cursor `i` are those from where the Horspool shift lands. */
  lemma ShiftKeepsOccurrences(query: seq<byte>, text: seq<byte>, i: nat)
    requires 1 <= |query| && i + |query| <= |text|
    ensures OccurrencesFrom(query, text, i + 1) == OccurrencesFrom(query, text, Advance(query, text, i))
  {
    forall p | i + 1 <= p < Advance(query, text, i)
      ensures !OccursAt(query, text, p)
    {
      ShiftIsSafe(query, text, i, p);
    }
    SkipNonOccurrences(query, text, i + 1, Advance(query, text, i));
  }

  /**
   * Completeness in case-sensitive mode: the walk records exactly the occurrences from
   * `i` on, overlapping ones included.
   */
  lemma {:induction false} ScanIsComplete(query: seq<byte>, text: seq<byte>, i: nat)
    requires 1 <= |query| <= |text|
    ensures Scan(query, text, false, i) == OccurrencesFrom(query, text, i)
    decreases |text| - i
  {
    if i <= |text| - |query| {
      ShiftKeepsOccurrences(query, text, i);
      WindowMatchesMeaning(query, text, i, false);
      ExactMatchIsOccurrence(query, text, i);
      ScanIsComplete(query, text, Advance(query, text, i));
    }
  }

  /**
   * The inner loop of src/lib.rs:50-66: compares the window at `i` with the query from
   * the last position backwards, stopping at the first position where `Compare` fails.
   */
  method MatchWindow(query: seq<byte>, contents: seq<byte>, i: nat, caseInsensitive: bool)
    returns (matched: bool)
    requires 1 <= |query| && i + |query| <= |contents|
    ensures matched <==> MatchesAt(query, contents, i, caseInsensitive)
    ensures matched == WindowMatches(query, contents, i, caseInsensitive)
  {
    WindowMatchesMeaning(query, contents, i, caseInsensitive);
    var j := |query| - 1;
    while Compare(query[j], contents[i + j], caseInsensitive)
      invariant 0 <= j < |query|
      invariant forall k :: j < k < |query| ==> Compare(query[k], contents[i + k], caseInsensitive)
      decreases j
    {
      if j == 0 {
        return true;
      }
      j := j - 1;
    }
    return false;
  }

  /**
   * `search`: returns one `(lineNo, lineStart, lineEnd)` per recorded offset, in scan
   * order, and the recorded offsets themselves. The spans index the text as given, in
   * both modes. The code needs `1 <= m <= n`: with `m == 0` the `m - 1` of src/lib.rs:41
   * and with `n < m` the `n - m` of src/lib.rs:49 underflow.
   */
  method Search(query: seq<byte>, contents: seq<byte>, caseInsensitive: bool)
    returns (matches: seq<Match>, offsets: seq<nat>)
    requires 1 <= |query| <= |contents|
    ensures offsets == Scan(query, contents, caseInsensitive, 0)
    ensures StrictlyIncreasing(offsets)
    ensures forall p :: p in offsets ==> MatchesAt(query, contents, p, caseInsensitive)
    ensures !caseInsensitive ==> offsets == Occurrences(query, contents)
    ensures |matches| == |offsets|
    ensures forall k :: 0 <= k < |matches| ==> matches[k] == LineAt(contents, offsets[k])
  {
    var n := |contents|;
    var m := |query|;
    var table := Skip.Table(query);
    matches, offsets := [], [];
    var i: nat := 0;
    assert [] + Scan(query, contents, caseInsensitive, 0) == Scan(query, contents, caseInsensitive, 0);
    while i <= n - m
      invariant offsets + Scan(query, contents, caseInsensitive, i) == Scan(query, contents, caseInsensitive, 0)
      invariant forall k :: 0 <= k < |offsets| ==> offsets[k] <= n - m
      invariant |matches| == |offsets|
      invariant forall k :: 0 <= k < |matches| ==> matches[k] == LineAt(contents, offsets[k])
      decreases n - i
    {
      var matched := MatchWindow(query, contents, i, caseInsensitive);
      var next: nat := i + table[contents[i + m - 1]];
      assert next == Advance(query, contents, i);
      ScanResumes(query, contents, caseInsensitive, i, offsets);
      if matched {
        matches := matches + [LineAt(contents, i)];
        offsets := offsets + [i];
      }
      i := next;
    }
    assert offsets + [] == offsets;
    ScanIsSound(query, contents, caseInsensitive, 0);
    if !caseInsensitive {
      ScanIsComplete(query, contents, 0);
    }
  }

  /** The number of values of `usize` on a 64-bit target. */
  const USIZE_MODULUS: nat := 0x1_0000_0000_0000_0000

  /** `a - b` on `usize` with wrap-around, as a release build computes it. */
  function WrappingSub(a: nat, b: nat): (r: nat)
    requires a < USIZE_MODULUS && b < USIZE_MODULUS
    ensures r < USIZE_MODULUS
    ensures (r + b) % USIZE_MODULUS == a
  {
    if b <= a then a - b else a + USIZE_MODULUS - b
  }

  /**
   * The loop condition `i <= n - m` of src/lib.rs:49 as written, on `usize`: the intended
   * test `i + m <= n` while the query fits, but a test against a value near 2^64 once it
   * does not.
   */
  function GuardAsWritten(n: nat, m: nat, i: nat): (r: bool)
    requires n < USIZE_MODULUS && m < USIZE_MODULUS
    ensures m <= n ==> (r <==> i + m <= n)
    ensures n < m ==> (r <==> i <= USIZE_MODULUS - (m - n))
  {
    i <= WrappingSub(n, m)
  }

  /**
   * A query longer than the text makes `search` panic instead of returning no matches. In
   * a release build `n - m` wraps to `2^64 - (m - n)`, so the guard admits cursor 0 where
   * `i + m <= n` would reject it, and the first byte compared, `contents_bytes[0 + m - 1]`,
   * is out of bounds, which the bounds check of src/lib.rs:52 turns into a panic. (A debug
   * build panics earlier, on the subtraction itself.)
   */
  lemma LongQueryPanics(n: nat, m: nat)
    requires n < m < USIZE_MODULUS
    ensures WrappingSub(n, m) == USIZE_MODULUS - (m - n)
    ensures GuardAsWritten(n, m, 0) && !(0 + m <= n)
    ensures 0 + (m - 1) >= n
  {
  }

  /**
   * `search` with the evident intent for a query longer than the text: no matches, and in
   * case-sensitive mode still exactly the occurrences (there are none). Otherwise it is
   * `Search`.
   */
  method SearchAll(query: seq<byte>, contents: seq<byte>, caseInsensitive: bool)
    returns (matches: seq<Match>, offsets: seq<nat>)
    requires 1 <= |query|
    ensures |query| > |contents| ==> matches == [] && offsets == []
    ensures |query| <= |contents| ==> offsets == Scan(query, contents, caseInsensitive, 0)
    ensures StrictlyIncreasing(offsets)
    ensures forall p :: p in offsets ==> MatchesAt(query, contents, p, caseInsensitive)
    ensures !caseInsensitive ==> offsets == Occurrences(query, contents)
    ensures |matches| == |offsets|
    ensures forall k :: 0 <= k < |offsets| ==> offsets[k] + |query| <= |contents|
    ensures forall k :: 0 <= k < |matches| ==> matches[k] == LineAt(contents, offsets[k])
  {
    if |query| > |contents| {
      matches, offsets := [], [];
      assert Occurrences(query, contents) == [];
    } else {
      matches, offsets := Search(query, contents, caseInsensitive);
    }
  }
}
