/** The comment styles the tool knows, how a command-line token selects one,
    and which single-line comment marker each style uses. */
module Comments {
  import opened Text

  /** Rust's `CommentType` enum. */
  datatype CommentType = C | Lisp | Python | Default

  /** The lower-case tokens that select a style explicitly; `Default` has none. */
  function Tokens(t: CommentType): set<string> {
    match t
    case C => {"c", "js"}
    case Python => {"python", "py"}
    case Lisp => {"clj", "lsp", "lisp"}
    case Default => {}
  }

  /** Every token that selects some style. */
  function AllTokens(): set<string> {
    Tokens(C) + Tokens(Python) + Tokens(Lisp)
  }

  /** `str_to_comment_type`: look up the lower-cased token, falling back to `Default`.
      The lookup agrees with the token table: a token selects a style exactly when
      its lower-cased form is one of that style's tokens, and anything that is not
      a token at all selects `Default`. */
  function FromToken(s: string): (t: CommentType)
    ensures t == C <==> ToLower(s) in Tokens(C)
    ensures t == Python <==> ToLower(s) in Tokens(Python)
    ensures t == Lisp <==> ToLower(s) in Tokens(Lisp)
    ensures t == Default <==> ToLower(s) !in AllTokens()
  {
    match ToLower(s)
    case "c" => C
    case "js" => C
    case "python" => Python
    case "py" => Python
    case "clj" => Lisp
    case "lsp" => Lisp
    case "lisp" => Lisp
    case _ => Default
  }

  /** The lookup ignores case: a token and its lower-cased form select the same style. */
  lemma FromTokenCaseInsensitive(s: string)
    ensures FromToken(s) == FromToken(ToLower(s))
  {
    ToLowerIdempotent(s);
  }

  /** Every listed token, in any mix of upper and lower case, selects its own style. */
  lemma TokenSelectsItsStyle(s: string, t: CommentType)
    requires ToLower(s) in Tokens(t)
    ensures FromToken(s) == t
  {
  }

  /** `comment_type_to_single_line_comment`: the marker that opens a single-line comment. */
  function Marker(t: CommentType): (m: string)
    ensures |m| > 0
    ensures !IsWhitespace(m[0])
    ensures '\n' !in m
  {
    match t
    case C => "//"
    case Default => "//"
    case Lisp => ";"
    case Python => "#"
  }

  /** Two styles share a marker only when both are `C` and `Default`: an unknown
      token therefore picks out the same lines as "c" or "js". */
  lemma SameMarker(a: CommentType, b: CommentType)
    ensures Marker(a) == Marker(b) <==> a == b || (a in {C, Default} && b in {C, Default})
  {
  }

  /** An unrecognised token scans with the C marker. */
  lemma UnknownTokenScansLikeC(s: string)
    ensures ToLower(s) !in AllTokens() ==> Marker(FromToken(s)) == Marker(C)
  {
  }

  /** Examples from the token table, in mixed case. */
  lemma TokenExamples()
    ensures FromToken("JS") == C && FromToken("c") == C
    ensures FromToken("PyThOn") == Python && FromToken("PY") == Python
    ensures FromToken("Lisp") == Lisp && FromToken("CLJ") == Lisp && FromToken("lsp") == Lisp
    ensures FromToken("rust") == Default && FromToken("") == Default
  {
    LowerIs("JS", "js");
    LowerIs("c", "c");
    LowerIs("PyThOn", "python");
    LowerIs("PY", "py");
    LowerIs("Lisp", "lisp");
    LowerIs("CLJ", "clj");
    LowerIs("lsp", "lsp");
    LowerIs("rust", "rust");
  }
}
