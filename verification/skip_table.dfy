/**
 * The Horspool bad-character table of `search` (src/lib.rs:33, 41-43): 256 entries, all
 * starting at `m = |query|`; for each query position `k < m - 1`, the entry of byte
 * `query[k]` becomes `m - 1 - k`, so a later position overwrites an earlier one.
 * The table is built from the query bytes as given, also in case-insensitive mode.
 */
module Skip {
  import opened Ascii

  /**
   * `s` is the entry for byte `c` once the query positions below `bound` have been entered:
   * `m - 1 - k` for the largest `k < bound` with `query[k] == c`, or `m` when there is none.
   */
  predicate RightmostShift(query: seq<byte>, bound: nat, c: byte, s: nat)
    requires bound < |query|
  {
    && 1 <= s <= |query|
    && (s < |query| ==> |query| - 1 - s < bound && query[|query| - 1 - s] == c)
    && forall k :: |query| - 1 - s < k < bound ==> query[k] != c
  }

  /** The loop of src/lib.rs:41-43 from query position `k` on, over a partially filled table. */
  function Fill(query: seq<byte>, k: nat, table: seq<nat>): (r: seq<nat>)
    requires k < |query|
    requires |table| == 256
    requires forall c: byte :: RightmostShift(query, k, c, table[c])
    ensures |r| == 256
    ensures forall c: byte :: RightmostShift(query, |query| - 1, c, r[c])
    decreases |query| - k
  {
    if k == |query| - 1 then table
    else
      var next := table[query[k] := |query| - 1 - k];
      assert forall c: byte :: RightmostShift(query, k + 1, c, next[c]) by {
        forall c: byte
          ensures RightmostShift(query, k + 1, c, next[c])
        {
          if c == query[k] {
            assert next[c] == |query| - 1 - k;
          } else {
            assert next[c] == table[c];
            assert RightmostShift(query, k, c, table[c]);
          }
        }
      }
      Fill(query, k + 1, next)
  }

  /** The skip table of a non-empty query. */
  function Table(query: seq<byte>): (r: seq<nat>)
    requires 1 <= |query|
    ensures |r| == 256
    ensures forall c: byte :: 1 <= r[c] <= |query|
    ensures forall c: byte :: RightmostShift(query, |query| - 1, c, r[c])
  {
    Fill(query, 0, seq(256, _ => |query|))
  }

  /** The characterisation pins each entry down: at most one skip fits a byte. */
  lemma RightmostShiftUnique(query: seq<byte>, bound: nat, c: byte, s1: nat, s2: nat)
    requires bound < |query|
    requires RightmostShift(query, bound, c, s1) && RightmostShift(query, bound, c, s2)
    ensures s1 == s2
  {
  }

  /**
   * The Horspool shift is safe: for every `d` with `0 < d < Table(query)[c]`, the query
   * byte that would line up with `c` after a shift by `d` is not `c`.
   */
  lemma ShiftSkipsNoAlignment(query: seq<byte>, c: byte, d: nat)
    requires 1 <= |query|
    requires 0 < d < Table(query)[c]
    ensures query[|query| - 1 - d] != c
  {
  }
}
