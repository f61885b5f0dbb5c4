/** `Config::build` (src/lib.rs:126-148): the search configuration from the command line. */
module Configuration {
  import opened Wrappers
  import opened Arguments

  const USAGE: string :=
    "Usage: [query] [file path(s) or . for current directory] \n\n Optional arguments: \n\n -i \t Case insensitive search"

  datatype Config = Config(query: string, filePaths: seq<string>, ignoreCase: bool)

  /**
   * `Config::build`: fewer than two arguments is the usage error; otherwise the query is
   * `args[1]` (the program name `args[0]` is ignored) and the rest is parsed, a parse
   * failure falling back to no paths and case-sensitive search.
   */
  function Build(args: seq<string>, listing: Listing): (r: Result<Config, string>)
    ensures r.Err? <==> |args| < 2
    ensures r.Err? ==> r.error == USAGE
    ensures r.Ok? ==> r.value.query == args[1]
    ensures r.Ok? ==> (r.value.ignoreCase <==>
                         IGNORE_CASE_FLAG in args[2..] && (CURRENT_DIRECTORY !in args[2..] || listing.Listed?))
    ensures r.Ok? && CURRENT_DIRECTORY in args[2..] && listing.Unreadable? ==> r.value.filePaths == []
    ensures r.Ok? && (CURRENT_DIRECTORY !in args[2..] || listing.Listed?) ==>
              r.value.filePaths == Expansion(args[2..], listing)
    ensures |args| == 2 ==> r == Ok(Config(args[1], [], false))
  {
    if |args| < 2 then Err(USAGE)
    else
      var parsed := match ParseArguments(args[2..], listing)
        case Ok(p) => p
        case Err(_) => Parsed([], false);
      Ok(Config(args[1], parsed.filePaths, parsed.ignoreCase))
  }

  /**
   * With no `.` among the arguments after the query, building always succeeds: the paths
   * are those arguments other than `-i`, in order, and `-i` anywhere among them switches
   * on case-insensitive search.
   */
  lemma PlainArgumentsBuild(program: string, query: string, rest: seq<string>, listing: Listing)
    requires CURRENT_DIRECTORY !in rest
    ensures Build([program, query] + rest, listing)
         == Ok(Config(query, WithoutFlag(rest), IGNORE_CASE_FLAG in rest))
  {
    var args := [program, query] + rest;
    assert args[2..] == rest;
    ExpansionWithoutDirectory(rest, listing);
  }
}
