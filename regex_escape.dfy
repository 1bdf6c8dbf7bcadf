/**
 * The pattern the browser fallback suggests for a URL: its path with every
 * regular-expression metacharacter backslash-escaped
 * (`pathname.replace(/[.*+?^${}()|[\]\\]/g, "\\$&")`), anchored as
 * `^…$`.
 */
module RegexEscape {

  /** The class `[.*+?^${}()|[\]\\]`. */
  predicate IsRegexSpecial(c: char)
  {
    c == '.' || c == '*' || c == '+' || c == '?' || c == '^' || c == '$' || c == '{' || c == '}' ||
    c == '(' || c == ')' || c == '|' || c == '[' || c == ']' || c == '\\'
  }

  /** Every metacharacter of `s` preceded by a backslash. */
  function EscapePath(s: string): (e: string)
    ensures |s| <= |e| <= 2 * |s|
    decreases |s|
  {
    if s == [] then []
    else (if IsRegexSpecial(s[0]) then ['\\', s[0]] else [s[0]]) + EscapePath(s[1..])
  }

  /** Read a pattern of literal atoms back: a backslash takes the next character literally. */
  function Unescape(e: string): (s: string)
    ensures |s| <= |e|
    decreases |e|
  {
    if e == [] then []
    else if e[0] == '\\' && |e| >= 2 then [e[1]] + Unescape(e[2..])
    else [e[0]] + Unescape(e[1..])
  }

  /**
   * `e` is a sequence of literal atoms: each is either a backslash followed
   * by a metacharacter (an identity escape) or a character that is not a
   * metacharacter.
   */
  predicate AllLiteral(e: string)
    decreases |e|
  {
    e == [] ||
    (e[0] == '\\' && |e| >= 2 && IsRegexSpecial(e[1]) && AllLiteral(e[2..])) ||
    (!IsRegexSpecial(e[0]) && AllLiteral(e[1..]))
  }

  /** Escaping loses nothing: reading the escaped path back gives the path. */
  lemma {:induction false} UnescapeEscape(s: string)
    ensures Unescape(EscapePath(s)) == s
    decreases |s|
  {
    if s != [] {
      UnescapeEscape(s[1..]);
      var e := EscapePath(s);
      if IsRegexSpecial(s[0]) {
        assert e[2..] == EscapePath(s[1..]);
      } else {
        assert e[1..] == EscapePath(s[1..]);
      }
    }
  }

  /** The escaped path holds no bare metacharacter, so no part of it acts as an operator. */
  lemma {:induction false} EscapedIsLiteral(s: string)
    ensures AllLiteral(EscapePath(s))
    decreases |s|
  {
    if s != [] {
      EscapedIsLiteral(s[1..]);
      var e := EscapePath(s);
      if IsRegexSpecial(s[0]) {
        assert e[2..] == EscapePath(s[1..]);
      } else {
        assert e[1..] == EscapePath(s[1..]);
      }
    }
  }

  /** The suggested pattern `^<escaped path>$`. */
  function SuggestedPattern(path: string): (p: string)
    ensures |p| >= 2 && p[0] == '^' && p[|p| - 1] == '$'
  {
    "^" + EscapePath(path) + "$"
  }

  /**
   * The suggested pattern is anchored at both ends and its body is the path
   * written as literal atoms, so it stands for exactly that path.
   */
  lemma SuggestedPatternIsExact(path: string)
    ensures var p := SuggestedPattern(path);
      AllLiteral(p[1..|p| - 1]) && Unescape(p[1..|p| - 1]) == path
  {
    var p := SuggestedPattern(path);
    assert p[1..|p| - 1] == EscapePath(path);
    UnescapeEscape(path);
    EscapedIsLiteral(path);
  }
}
