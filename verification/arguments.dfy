/**
 * `parse_arguments` (src/utils.rs:54-73): classifies the tokens after the query.
 * `-i` switches on case-insensitive search, `.` stands for the entries of the current
 * directory, and every other token is a file path, kept in order.
 */
module Arguments {
  import opened Wrappers

  const IGNORE_CASE_FLAG: string := "-i"
  const CURRENT_DIRECTORY: string := "."
  const DIRECTORY_ERROR: string := "Failed to read the current directory"

  /**
   * What listing the current directory (`read_current_directory_files`) gives: the entry
   * names, or a failure. It is supplied from outside; every `.` token sees the same one.
   */
  datatype Listing = Listed(names: seq<string>) | Unreadable {
    function Entries(): seq<string> {
      if Listed? then names else []
    }
  }

  /** The `(file_paths, ignore_case)` pair `parse_arguments` returns. */
  datatype Parsed = Parsed(filePaths: seq<string>, ignoreCase: bool)

  /** The paths one token contributes: none for the flag, the listing for `.`, itself otherwise. */
  function TokenPaths(token: string, listing: Listing): seq<string> {
    if token == IGNORE_CASE_FLAG then []
    else if token == CURRENT_DIRECTORY then listing.Entries()
    else [token]
  }

  /** Reference definition: the paths of all tokens, concatenated in token order. */
  function Expansion(tokens: seq<string>, listing: Listing): seq<string> {
    if tokens == [] then [] else TokenPaths(tokens[0], listing) + Expansion(tokens[1..], listing)
  }

  /** The tokens that are not the flag, in order. */
  function WithoutFlag(tokens: seq<string>): seq<string> {
    if tokens == [] then []
    else (if tokens[0] == IGNORE_CASE_FLAG then [] else [tokens[0]]) + WithoutFlag(tokens[1..])
  }

  /**
   * The `for arg in args` loop of src/utils.rs:58-70 over the remaining tokens, with the
   * paths collected and the flag seen so far; a `.` with an unreadable directory returns
   * the error at once, dropping what was collected.
   */
  function ParseLoop(tokens: seq<string>, listing: Listing, paths: seq<string>, ignoreCase: bool)
    : (r: Result<Parsed, string>)
    ensures r.Err? <==> CURRENT_DIRECTORY in tokens && listing.Unreadable?
    ensures r.Err? ==> r.error == DIRECTORY_ERROR
    ensures r.Ok? ==> r.value.filePaths == paths + Expansion(tokens, listing)
    ensures r.Ok? ==> (r.value.ignoreCase <==> ignoreCase || IGNORE_CASE_FLAG in tokens)
    decreases |tokens|
  {
    if tokens == [] then
      assert paths + [] == paths;
      Ok(Parsed(paths, ignoreCase))
    else
      var token := tokens[0];
      assert tokens == [token] + tokens[1..];
      if token == IGNORE_CASE_FLAG then
        ParseLoop(tokens[1..], listing, paths, true)
      else if token == CURRENT_DIRECTORY then
        match listing
        case Listed(names) =>
          assert paths + names + Expansion(tokens[1..], listing) == paths + (names + Expansion(tokens[1..], listing));
          ParseLoop(tokens[1..], listing, paths + names, ignoreCase)
        case Unreadable => Err(DIRECTORY_ERROR)
      else
        assert paths + [token] + Expansion(tokens[1..], listing) == paths + ([token] + Expansion(tokens[1..], listing));
        ParseLoop(tokens[1..], listing, paths + [token], ignoreCase)
  }

  /**
   * `parse_arguments`: fails exactly when a `.` token meets an unreadable directory;
   * otherwise the flag is set iff some token is `-i`, wherever and however often, and the
   * paths are every token's contribution in token order.
   */
  function ParseArguments(tokens: seq<string>, listing: Listing): (r: Result<Parsed, string>)
    ensures r.Err? <==> CURRENT_DIRECTORY in tokens && listing.Unreadable?
    ensures r.Err? ==> r.error == DIRECTORY_ERROR
    ensures r.Ok? ==> r.value.filePaths == Expansion(tokens, listing)
    ensures r.Ok? ==> (r.value.ignoreCase <==> IGNORE_CASE_FLAG in tokens)
  {
    ParseLoop(tokens, listing, [], false)
  }

  /** Expanding a concatenation expands each part. */
  lemma {:induction false} ExpansionAppend(a: seq<string>, b: seq<string>, listing: Listing)
    ensures Expansion(a + b, listing) == Expansion(a, listing) + Expansion(b, listing)
    decreases |a|
  {
    if a == [] {
      assert a + b == b;
    } else {
      assert (a + b)[1..] == a[1..] + b;
      ExpansionAppend(a[1..], b, listing);
    }
  }

  /**
   * A `.` token is replaced in place by the directory entries: what comes before it and
   * what comes after it expand on their own.
   */
  lemma CurrentDirectoryExpandsInPlace(before: seq<string>, after: seq<string>, names: seq<string>)
    ensures Expansion(before + [CURRENT_DIRECTORY] + after, Listed(names))
         == Expansion(before, Listed(names)) + names + Expansion(after, Listed(names))
  {
    var listing := Listed(names);
    ExpansionAppend(before + [CURRENT_DIRECTORY], after, listing);
    ExpansionAppend(before, [CURRENT_DIRECTORY], listing);
    assert TokenPaths(CURRENT_DIRECTORY, listing) == names;
    assert Expansion([CURRENT_DIRECTORY], listing) == names + Expansion([], listing);
    assert names + [] == names;
  }

  /** Without a `.` token the expansion keeps exactly the non-flag tokens, in order. */
  lemma {:induction false} ExpansionWithoutDirectory(tokens: seq<string>, listing: Listing)
    requires CURRENT_DIRECTORY !in tokens
    ensures Expansion(tokens, listing) == WithoutFlag(tokens)
  {
    if tokens != [] {
      ExpansionWithoutDirectory(tokens[1..], listing);
    }
  }

  /** The non-flag tokens: one per token other than `-i`, and `-i` not among them. */
  lemma {:induction false} WithoutFlagCounts(tokens: seq<string>)
    ensures |WithoutFlag(tokens)| == |tokens| - multiset(tokens)[IGNORE_CASE_FLAG]
    ensures IGNORE_CASE_FLAG !in WithoutFlag(tokens)
    ensures forall t :: t in WithoutFlag(tokens) <==> t in tokens && t != IGNORE_CASE_FLAG
  {
    if tokens != [] {
      WithoutFlagCounts(tokens[1..]);
      assert tokens == [tokens[0]] + tokens[1..];
      assert multiset(tokens) == multiset{tokens[0]} + multiset(tokens[1..]);
    }
  }

  /** `-i` can appear among the paths only as the name of a directory entry brought in by `.`. */
  lemma {:induction false} FlagOnlyFromListing(tokens: seq<string>, listing: Listing)
    requires IGNORE_CASE_FLAG in Expansion(tokens, listing)
    ensures CURRENT_DIRECTORY in tokens && IGNORE_CASE_FLAG in listing.Entries()
  {
    if tokens != [] && IGNORE_CASE_FLAG !in TokenPaths(tokens[0], listing) {
      FlagOnlyFromListing(tokens[1..], listing);
    }
  }
}
