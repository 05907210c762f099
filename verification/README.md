# comments-lister, modelled in Dafny

comments-lister is a small command-line tool. It is given a directory and a
comment-style token. It reads every entry of the directory and lists, per
file, the lines whose trimmed text starts with the single-line comment marker
of the chosen style (`//` for C and JavaScript and for anything unrecognised,
`#` for Python, `;` for Lisp). Each listed line comes with its 1-based line
number.

This project models the tool's logic as pure Dafny functions and proves what
that logic promises:

- `text.dfy` (module `Text`): the string primitives the scan is built from.
  These are Rust's `char::is_whitespace`, `str::trim` (as `TrimStart` and
  `TrimEnd`), `str::starts_with`, `str::split` on `"\n"` (with its inverse
  `Join`), and the case folding done before the style lookup.
- `comments.dfy` (module `Comments`): the `CommentType` enum,
  `str_to_comment_type` (`FromToken`) and `comment_type_to_single_line_comment`
  (`Marker`).
- `scanner.dfy` (module `Scanner`): the `Line` and `CheckedFile` records and the
  loop of `CheckedFile::check_file`. The loop appears twice. `ScanText` is the
  function form. `CheckFile` is the loop itself, proved equal to `ScanText`.
  Both are tied to `IsExtraction`, an independent description of a correct
  scan: every kept line matches, every matching line is kept, the numbers are
  the split index plus one and strictly increase, and the stored text is the
  trimmed line.
- `cli.dfy` (module `Cli`): `collect_cli_args` and the choice of path and style
  token in `main`.
- `program.dfy` (module `Program`): `main` from the argument vector to the
  outcome of a run. The file system is a parameter, a function from a path to
  what is there. A directory comes with its entries in listing order.

## Model

| member | source | states |
|---|---|---|
| Text.WhitespaceTable | src/main.rs:25 | the whitespace that `trim` drops is exactly the set of code points listed one by one in the Unicode `White_Space` table; among ASCII characters these are tab, line feed, vertical tab, form feed, carriage return and space |
| Text.TrimStartSpec | src/main.rs:25 | the leading half of `trim` keeps a suffix, drops only whitespace, and stops at the first non-whitespace character |
| Text.TrimEndSpec | src/main.rs:25 | the trailing half of `trim` keeps a prefix, drops only whitespace, and stops at the last non-whitespace character |
| Text.Trim | src/main.rs:25 | a trimmed line is no longer than the line and neither starts nor ends with whitespace |
| Text.TrimMargins | src/main.rs:27 | the stored text is the infix of the raw line between two all-whitespace margins |
| Text.TrimUnique | src/main.rs:25-27 | whenever a line is whitespace, then a trimmed text, then whitespace, trimming yields exactly that text |
| Text.TrimIdempotent | src/main.rs:27 | trimming an already-trimmed line changes nothing |
| Text.StartsWithChars | src/main.rs:25 | a text starts with the marker exactly when the marker is no longer and matches it character by character, that is, when the text is the marker followed by some rest |
| Text.Split | src/main.rs:24 | `split("\n")` yields one more piece than there are line feeds, and no piece contains a line feed |
| Text.JoinSplit | src/main.rs:24 | splitting loses nothing: re-joining the pieces with line feeds restores the file text |
| Text.SplitJoin | src/main.rs:24 | splitting undoes joining when no piece holds a line feed, so the pieces are exactly the file's lines |
| Text.ToLower | src/main.rs:56 | lower-casing keeps the length and folds each character on its own: no ASCII capital remains, and every character that is not an ASCII capital is unchanged |
| Text.ToLowerIdempotent | src/main.rs:56 | lower-casing a lower-cased token changes nothing |
| Comments.FromToken | src/main.rs:55-65 | a token selects C, Python or Lisp exactly when its lower-cased form is one of that style's tokens; every other token selects Default |
| Comments.FromTokenCaseInsensitive | src/main.rs:56 | a token and its lower-cased form select the same style |
| Comments.TokenSelectsItsStyle | src/main.rs:57-63 | each listed token, in any mix of case, selects its own style |
| Comments.TokenExamples | src/main.rs:57-64 | "JS" and "c" give C, "PyThOn" and "PY" give Python, "Lisp", "CLJ" and "lsp" give Lisp, "rust" and "" give Default |
| Comments.Marker | src/main.rs:68-75 | every style has a non-empty marker that does not start with whitespace and holds no line feed |
| Comments.SameMarker | src/main.rs:68-75 | two styles share a marker exactly when they are equal or both are C and Default |
| Comments.UnknownTokenScansLikeC | src/main.rs:64-71 | an unrecognised token scans with the C marker |
| Scanner.Collect | src/main.rs:24-29 | no more entries than lines; each entry's number lies in 1..line count, its text is that line's trimmed text, and it starts with the marker |
| Scanner.CollectIncreasing | src/main.rs:24-27 | entry numbers strictly increase, so the output follows the file order and holds no line twice |
| Scanner.CollectComplete | src/main.rs:24-29 | line i+1 is recorded if and only if its trimmed text starts with the marker |
| Scanner.CollectIsExtraction | src/main.rs:24-29 | the computed scan meets the independent description of a correct scan |
| Scanner.ExtractionIsCollect | src/main.rs:24-29 | any sequence that meets the description is the computed scan, so the description has one solution |
| Scanner.CollectCharacterized | src/main.rs:24-29 | a sequence meets the description exactly when it equals the computed scan |
| Scanner.ScanText | src/main.rs:24-29 | a file yields at most as many comment lines as it has line feeds plus one |
| Scanner.ScanSound | src/main.rs:25-27 | every recorded text starts with the marker, is trimmed, and is unchanged by trimming again |
| Scanner.ScanNumbering | src/main.rs:26-27 | every recorded entry is the trimmed text of the file line it is numbered with, and numbers lie between 1 and the line-feed count plus one |
| Scanner.ScanIncreasing | src/main.rs:24-27 | line numbers in one file's result strictly increase |
| Scanner.ScanComplete | src/main.rs:24-28 | a line of the file is recorded if and only if its trimmed text starts with the marker |
| Scanner.CheckFile | src/main.rs:19-32 | the loop with its index-plus-one numbering yields the same lines as the functional scan, under the entry's own path |
| Scanner.ThreeLineExample | src/main.rs:24-29 | a comment, a code line and a padded comment give entries 1 and 3, the third without its padding |
| Cli.CollectArgs | src/main.rs:77-85 | the result is absent exactly when no user argument is given; otherwise it is non-empty and the argument vector is the program name followed by it |
| Cli.Resolve | src/main.rs:93-94 | path and style token are both taken from the arguments; with one argument they are the same string |
| Cli.ArgumentSelection | src/main.rs:80-94 | with two or more entries in the argument vector, the path is the first user argument and the token the last; with exactly one user argument both are that argument |
| Program.ReadablesExactly | src/main.rs:101-109 | the scanned entries are entries of the listing, and every readable entry of the listing is scanned |
| Program.ReadablesAppend | src/main.rs:102-105 | the readable entries of a listing are those of its first part followed by those of the rest, so scanning keeps the listing order |
| Program.ReadablesSingle | src/main.rs:103-107 | a single entry is scanned exactly when it can be read |
| Program.ScanEntries | src/main.rs:101-109 | the run panics exactly when some entry is unreadable |
| Program.ScanEntriesFiles | src/main.rs:101-109 | a run that does not panic gives one checked file per readable entry, in listing order, under the entry's path and scanned with the chosen marker |
| Program.ReportedLinesStartWithMarker | src/main.rs:25-27 | in a report of the directory's scans, every listed line starts with the marker |
| Program.ScanDirectory | src/main.rs:101-110 | a directory's scan panics exactly when some entry is unreadable; otherwise it reports one scan per readable entry, in listing order, and every reported line starts with the marker |
| Program.Run | src/main.rs:87-122 | no user argument gives the usage message; a missing path gives the path message; a non-directory gives an empty report; a directory gives a panic exactly when some entry is unreadable, and otherwise the report of one scan per readable entry, in listing order, under the first user argument's path and the last argument's style; every reported line starts with the marker of the last argument's style |
| Program.UnknownTokenRunsLikeC | src/main.rs:94 | a run with an unrecognised style token has the same outcome as the same run with "c" |
| Program.SingleArgumentDoubleDuty | src/main.rs:93-94 | with a single user argument, the directory it names is scanned with the style that same argument selects |

## Left out

- Reading files, listing directories, `Path::exists` and `is_dir` (src/main.rs:21, 96-110) are file-system I/O. A file's text is an argument of the scan. What is at a path is a function parameter `probe`. A directory's entries are given in listing order, each either read already or unreadable.
- The panics on an unreadable file (src/main.rs:21) and on a directory that cannot be listed (src/main.rs:102) are the outcome `Aborted`. The panic message and the exit status are not modelled.
- `describe` and all `println!`/`print!` output, including the ANSI colour codes and the "error" marker for an item that failed to list (src/main.rs:34-43, 107, 112-119), are presentation only.
- `env::args()` (src/main.rs:78) is the parameter `argv`.
- Scanner.CheckFile: `Line.number` is an unbounded `nat`. The source computes `(number as u32) + 1`, which overflows for a file with 2^32 or more lines. That overflow is not modelled.
- Text.ToLower: folds only ASCII letters; Rust's `to_lowercase` applies full Unicode case mapping. The lookup picks the same style either way. The tokens use only the letters c, h, i, j, l, n, o, p, s, t, y. Among characters outside ASCII, only U+0130 lower-cases to something that contains one of them: it gives `i` followed by U+0307. That U+0307 is left behind, so the result cannot equal a token. The Kelvin sign lower-cases to `k`, which no token uses.
- Whitespace for `trim` is the full Unicode `White_Space` set that Rust's `char::is_whitespace` uses, so carriage returns in CRLF files are trimmed as they are in the source. Strings are sequences of Unicode scalar values. `starts_with` on UTF-8 bytes and prefix on characters agree for valid UTF-8.
- The process exit code and the order in which the operating system lists directory entries are not modelled.
