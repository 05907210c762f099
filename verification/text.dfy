/** String primitives the scanner is built from: Rust's `char::is_whitespace`,
    `str::trim`, `str::starts_with`, `str::split` on a one-character pattern,
    and the case folding used before the style-token lookup.
    Strings are sequences of Unicode scalar values, as Rust's `char` is.
 */
module Text {

  /** Rust's `char::is_whitespace`: the Unicode `White_Space` property. */
  predicate IsWhitespace(c: char) {
    || ('\t' <= c <= '\r')            // tab, line feed, vertical tab, form feed, carriage return
    || c == ' '
    || c == '\U{85}'                  // next line
    || c == '\U{A0}'                  // no-break space
    || c == '\U{1680}'                // ogham space mark
    || ('\U{2000}' <= c <= '\U{200A}') // en quad .. hair space
    || c == '\U{2028}'                // line separator
    || c == '\U{2029}'                // paragraph separator
    || c == '\U{202F}'                // narrow no-break space
    || c == '\U{205F}'                // medium mathematical space
    || c == '\U{3000}'                // ideographic space
  }

  /** The `White_Space` code points listed one by one: the table of the Unicode
      standard's PropList.txt that `char::is_whitespace` follows. */
  const WhiteSpaceTable: set<char> := {
    '\t', '\n', '\U{0B}', '\U{0C}', '\r', ' ', '\U{85}', '\U{A0}', '\U{1680}',
    '\U{2000}', '\U{2001}', '\U{2002}', '\U{2003}', '\U{2004}', '\U{2005}',
    '\U{2006}', '\U{2007}', '\U{2008}', '\U{2009}', '\U{200A}',
    '\U{2028}', '\U{2029}', '\U{202F}', '\U{205F}', '\U{3000}'
  }

  /** The range form of `IsWhitespace` picks out exactly the listed code points;
      among ASCII characters these are tab, line feed, vertical tab, form feed,
      carriage return and space. */
  lemma WhitespaceTable(c: char)
    ensures IsWhitespace(c) <==> c in WhiteSpaceTable
    ensures c < '\U{80}' ==> (IsWhitespace(c) <==> c == ' ' || '\t' <= c <= '\r')
  {
  }

  predicate AllWhitespace(s: string) {
    forall i :: 0 <= i < |s| ==> IsWhitespace(s[i])
  }

  /** A string `trim` leaves alone: empty, or neither end is whitespace. */
  predicate IsTrimmed(s: string) {
    s == [] || (!IsWhitespace(s[0]) && !IsWhitespace(s[|s| - 1]))
  }

  /** `str::trim_start`: what is left after dropping leading whitespace. */
  function TrimStart(s: string): string {
    if |s| > 0 && IsWhitespace(s[0]) then TrimStart(s[1..]) else s
  }

  /** `TrimStart` keeps a suffix of `s`, drops only whitespace, and stops at the
      first character that is not whitespace. */
  lemma {:induction false} TrimStartSpec(s: string)
    ensures var r := TrimStart(s);
      && |r| <= |s| && r == s[|s| - |r|..]
      && AllWhitespace(s[..|s| - |r|])
      && (r == [] || !IsWhitespace(r[0]))
  {
    if |s| > 0 && IsWhitespace(s[0]) {
      TrimStartSpec(s[1..]);
      var r := TrimStart(s[1..]);
      assert s[..|s| - |r|] == [s[0]] + s[1..][..|s| - 1 - |r|];
    }
  }

  /** `str::trim_end`: what is left after dropping trailing whitespace. */
  function TrimEnd(s: string): string {
    if |s| > 0 && IsWhitespace(s[|s| - 1]) then TrimEnd(s[..|s| - 1]) else s
  }

  /** `TrimEnd` keeps a prefix of `s`, drops only whitespace, and stops at the
      last character that is not whitespace. */
  lemma {:induction false} TrimEndSpec(s: string)
    ensures var r := TrimEnd(s);
      && |r| <= |s| && r == s[..|r|]
      && AllWhitespace(s[|r|..])
      && (r == [] || !IsWhitespace(r[|r| - 1]))
  {
    if |s| > 0 && IsWhitespace(s[|s| - 1]) {
      TrimEndSpec(s[..|s| - 1]);
      var r := TrimEnd(s[..|s| - 1]);
      assert s[|r|..] == s[..|s| - 1][|r|..] + [s[|s| - 1]];
    }
  }

  /** `str::trim`: `s` without its leading and its trailing whitespace. */
  function Trim(s: string): (r: string)
    ensures |r| <= |s|
    ensures IsTrimmed(r)
  {
    TrimStartSpec(s);
    TrimEndSpec(TrimStart(s));
    TrimEnd(TrimStart(s))
  }

  /** The trimmed text is the infix of `s` between two all-whitespace margins. */
  lemma TrimMargins(s: string) returns (i: nat, j: nat)
    ensures i <= j <= |s|
    ensures Trim(s) == s[i..j]
    ensures AllWhitespace(s[..i]) && AllWhitespace(s[j..])
  {
    var t := TrimStart(s);
    var r := TrimEnd(t);
    TrimStartSpec(s);
    TrimEndSpec(t);
    i := |s| - |t|;
    j := i + |r|;
    assert s[j..] == t[|r|..];
  }

  /** Whitespace in front of a string that does not start with whitespace is exactly what `TrimStart` drops. */
  lemma {:induction false} TrimStartUnique(lead: string, u: string)
    requires AllWhitespace(lead)
    requires u == [] || !IsWhitespace(u[0])
    ensures TrimStart(lead + u) == u
  {
    if |lead| > 0 {
      assert (lead + u)[1..] == lead[1..] + u;
      TrimStartUnique(lead[1..], u);
    }
  }

  /** Whitespace after a string that does not end with whitespace is exactly what `TrimEnd` drops. */
  lemma {:induction false} TrimEndUnique(u: string, trail: string)
    requires AllWhitespace(trail)
    requires u == [] || !IsWhitespace(u[|u| - 1])
    ensures TrimEnd(u + trail) == u
  {
    if |trail| > 0 {
      var n := |trail|;
      assert (u + trail)[..|u| + n - 1] == u + trail[..n - 1];
      TrimEndUnique(u, trail[..n - 1]);
    }
  }

  /** Trimming is determined by the decomposition it produces: whenever `s` is
      whitespace, then a trimmed string `t`, then whitespace, `Trim(s)` is `t`. */
  lemma TrimUnique(s: string, lead: string, t: string, trail: string)
    requires s == lead + t + trail
    requires AllWhitespace(lead) && AllWhitespace(trail) && IsTrimmed(t)
    ensures Trim(s) == t
  {
    if t == [] {
      assert s == (lead + trail) + [];
      TrimStartUnique(lead + trail, []);
    } else {
      assert s == lead + (t + trail);
      TrimStartUnique(lead, t + trail);
      TrimEndUnique(t, trail);
    }
  }

  /** Trimming twice is trimming once: the stored text of a comment line is a fixed point. */
  lemma TrimIdempotent(s: string)
    ensures Trim(Trim(s)) == Trim(s)
  {
    var t := Trim(s);
    assert t == [] + t + [];
    TrimUnique(t, [], t, []);
  }

  /** Rust's `str::starts_with` with a string pattern. */
  predicate StartsWith(s: string, prefix: string) {
    |prefix| <= |s| && s[..|prefix|] == prefix
  }

  /** `starts_with` compares character by character: `s` starts with `prefix`
      exactly when `prefix` is no longer and agrees with `s` at every position of
      `prefix`, that is, when `s` is `prefix` followed by some rest. */
  lemma StartsWithChars(s: string, prefix: string)
    ensures StartsWith(s, prefix) <==>
              |prefix| <= |s| && forall i :: 0 <= i < |prefix| ==> s[i] == prefix[i]
    ensures StartsWith(s, prefix) <==> |prefix| <= |s| && s == prefix + s[|prefix|..]
  {
    if |prefix| <= |s| && forall i :: 0 <= i < |prefix| ==> s[i] == prefix[i] {
      assert s[..|prefix|] == prefix;
    }
    if |prefix| <= |s| && s == prefix + s[|prefix|..] {
      assert s[..|prefix|] == prefix;
    }
  }

  /** Number of occurrences of `c` in `s`. */
  function Count(s: string, c: char): nat {
    if |s| == 0 then 0 else (if s[0] == c then 1 else 0) + Count(s[1..], c)
  }

  /** `s.split(sep)` collected into a vector: the pieces between separators,
      including an empty piece before a leading separator, after a trailing one,
      and between two adjacent ones; the empty string splits into one empty piece. */
  function Split(s: string, sep: char): (r: seq<string>)
    ensures |r| == Count(s, sep) + 1
    ensures forall k :: 0 <= k < |r| ==> sep !in r[k]
  {
    if |s| == 0 then
      [""]
    else
      var rest := Split(s[1..], sep);
      if s[0] == sep then [""] + rest else [[s[0]] + rest[0]] + rest[1..]
  }

  /** Inverse of `Split`: the pieces glued back together with `sep` between them. */
  function Join(pieces: seq<string>, sep: char): string
    requires |pieces| > 0
  {
    if |pieces| == 1 then pieces[0] else pieces[0] + [sep] + Join(pieces[1..], sep)
  }

  /** Splitting loses nothing: joining the pieces restores the text. */
  lemma {:induction false} JoinSplit(s: string, sep: char)
    ensures Join(Split(s, sep), sep) == s
  {
    if |s| > 0 {
      var rest := Split(s[1..], sep);
      JoinSplit(s[1..], sep);
      if s[0] == sep {
        assert Split(s, sep) == [""] + rest;
        assert (([""] + rest)[1..]) == rest;
      } else {
        var r := Split(s, sep);
        assert r == [[s[0]] + rest[0]] + rest[1..];
        if |rest| == 1 {
          assert r == [[s[0]] + rest[0]];
        } else {
          assert r[1..] == rest[1..];
          assert Join(rest, sep) == rest[0] + [sep] + Join(rest[1..], sep);
        }
      }
    }
  }

  /** Splitting undoes joining when no piece contains the separator. */
  lemma {:induction false} SplitJoin(pieces: seq<string>, sep: char)
    requires |pieces| > 0
    requires forall k :: 0 <= k < |pieces| ==> sep !in pieces[k]
    ensures Split(Join(pieces, sep), sep) == pieces
  {
    if |pieces| == 1 {
      SplitNoSeparator(pieces[0], sep);
    } else {
      SplitJoin(pieces[1..], sep);
      SplitAppend(pieces[0], Join(pieces[1..], sep), sep);
      assert [pieces[0]] + pieces[1..] == pieces;
    }
  }

  /** A string without the separator is a single piece. */
  lemma {:induction false} SplitNoSeparator(s: string, sep: char)
    requires sep !in s
    ensures Split(s, sep) == [s]
  {
    if |s| > 0 {
      SplitNoSeparator(s[1..], sep);
      assert [s[0]] + s[1..] == s;
    }
  }

  /** A separator-free head glued to the rest by `sep` becomes the first piece. */
  lemma {:induction false} SplitAppend(head: string, tail: string, sep: char)
    requires sep !in head
    ensures Split(head + [sep] + tail, sep) == [head] + Split(tail, sep)
  {
    var s := head + [sep] + tail;
    if |head| == 0 {
      assert s[1..] == tail;
    } else {
      assert s[1..] == head[1..] + [sep] + tail;
      SplitAppend(head[1..], tail, sep);
      assert [head[0]] + head[1..] == head;
    }
  }

  /** ASCII case folding of one character. */
  function LowerChar(c: char): (d: char)
    ensures !('A' <= d <= 'Z')
    ensures ('A' <= c <= 'Z') || d == c
  {
    if 'A' <= c <= 'Z' then (c as int - 'A' as int + 'a' as int) as char else c
  }

  /** `to_lowercase`, restricted to ASCII letters. */
  function ToLower(s: string): (r: string)
    ensures |r| == |s|
    ensures forall i :: 0 <= i < |s| ==> r[i] == LowerChar(s[i])
  {
    seq(|s|, i requires 0 <= i < |s| => LowerChar(s[i]))
  }

  /** Folding case twice is folding once. */
  lemma ToLowerIdempotent(s: string)
    ensures ToLower(ToLower(s)) == ToLower(s)
  {
    var l := ToLower(s);
    assert forall i :: 0 <= i < |l| ==> LowerChar(l[i]) == l[i];
  }

  /** Pins down `ToLower` of a literal character by character. */
  lemma LowerIs(s: string, l: string)
    requires |s| == |l| && forall i :: 0 <= i < |s| ==> LowerChar(s[i]) == l[i]
    ensures ToLower(s) == l
  {
  }
}
