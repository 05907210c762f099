/** The command-line surface: `collect_cli_args` and how `main` picks the
    directory path and the style token out of the arguments. The process's
    argument vector is a parameter here. */
module Cli {

  datatype Option<T> = None | Some(value: T)

  /** `collect_cli_args`: the arguments after the program name, or `None` when
      there are none. Nothing but the program name is dropped. */
  function CollectArgs(argv: seq<string>): (r: Option<seq<string>>)
    ensures r.None? <==> |argv| <= 1
    ensures r.Some? ==> |r.value| > 0 && [argv[0]] + r.value == argv
  {
    if |argv| > 1 then Some(argv[1..]) else None
  }

  /** What `main` reads from the user's arguments: the path to scan and the token
      that selects the comment style. */
  datatype Request = Request(path: string, styleToken: string)

  /** `args[0]` is the path and `args.last()` the style token; both exist because
      `CollectArgs` never returns an empty vector. */
  function Resolve(args: seq<string>): (r: Request)
    requires |args| > 0
    ensures r.path in args && r.styleToken in args
    ensures |args| == 1 ==> r.path == r.styleToken
  {
    Request(args[0], args[|args| - 1])
  }

  /** From the process's argument vector to a request: `None` exactly when no
      user argument is given; otherwise the path is the first user argument and
      the token the last, and with a single user argument both are that argument. */
  lemma ArgumentSelection(argv: seq<string>)
    ensures CollectArgs(argv).Some? <==> |argv| >= 2
    ensures |argv| >= 2 ==> Resolve(CollectArgs(argv).value) == Request(argv[1], argv[|argv| - 1])
    ensures |argv| == 2 ==> Resolve(CollectArgs(argv).value) == Request(argv[1], argv[1])
  {
  }
}
