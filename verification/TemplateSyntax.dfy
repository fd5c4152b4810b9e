/**
 * Vocabulary of the listing-template language: the tree a template denotes, the errors a
 * malformed one raises, and the character classes the scanner tests.
 */
module TemplateSyntax {
  import opened Prelude

  datatype Node =
    | Text(text: string)
    | Var(name: string)
    | Section(name: string, inverted: bool, body: seq<Node>)

  /** One constructor per `throw` of the parser; `line` is 1-based. */
  datatype ParseError =
    | NeverClosed(line: nat)
    | Refused(sigil: char, line: nat)
    | BadName(name: string, line: nat)
    | TooDeep(line: nat)
    | CloseUnopened(name: string, line: nat)
    | CloseMismatch(name: string, openName: string, openLine: nat, line: nat)
    | Unclosed(name: string, line: nat)

  const DEFAULT_MAX_DEPTH := 16
  const DEFAULT_MAX_OUTPUT := 200_000

  /** A caller's limits; an absent one falls back to its default. */
  datatype Limits = Limits(maxOutputChars: Option<int>, maxDepth: Option<int>)
  {
    function Output(): int {
      if maxOutputChars.Some? then maxOutputChars.value else DEFAULT_MAX_OUTPUT
    }

    function Depth(): int {
      if maxDepth.Some? then maxDepth.value else DEFAULT_MAX_DEPTH
    }
  }

  /** Line-internal whitespace. */
  predicate IsBlank(c: char) {
    c == ' ' || c == '\t'
  }

  predicate AllBlank(s: string) {
    forall i :: 0 <= i < |s| ==> IsBlank(s[i])
  }

  /** WhiteSpace and LineTerminator of ECMA-262, the characters `String.prototype.trim` removes. */
  predicate IsTrimmed(c: char) {
    IsTrimCode(c as int)
  }

  predicate IsTrimCode(n: int) {
    || 9 <= n <= 13 || n == 32 || n == 0xA0 || n == 0x1680 || 0x2000 <= n <= 0x200A
    || n == 0x2028 || n == 0x2029 || n == 0x202F || n == 0x205F || n == 0x3000 || n == 0xFEFF
  }

  function TrimStart(s: string): (r: string)
    ensures |r| <= |s|
    ensures r != [] ==> !IsTrimmed(r[0])
  {
    if s == [] || !IsTrimmed(s[0]) then s else TrimStart(s[1..])
  }

  function TrimEnd(s: string): (r: string)
    ensures |r| <= |s|
    ensures r != [] ==> !IsTrimmed(r[|r| - 1])
  {
    if s == [] || !IsTrimmed(s[|s| - 1]) then s else TrimEnd(s[..|s| - 1])
  }

  function Trim(s: string): string {
    TrimEnd(TrimStart(s))
  }

  predicate IsNameStart(c: char) {
    'A' <= c <= 'Z' || 'a' <= c <= 'z' || c == '_'
  }

  predicate IsNameChar(c: char) {
    IsNameStart(c) || '0' <= c <= '9'
  }

  const CAPITALS := "ABCDEFGHIJKLMNOPQRSTUVWXYZ"
  const LETTERS := "abcdefghijklmnopqrstuvwxyz"
  const FIGURES := "0123456789"
  const SPACES := "\t\n\U{B}\U{C}\r \U{A0}\U{1680}"
                + "\U{2000}\U{2001}\U{2002}\U{2003}\U{2004}\U{2005}\U{2006}\U{2007}"
                + "\U{2008}\U{2009}\U{200A}\U{2028}\U{2029}\U{202F}\U{205F}\U{3000}\U{FEFF}"

  lemma CapitalsListed(c: char)
    ensures 'A' <= c <= 'Z' <==> c in CAPITALS
  {
    var code := c as int;
    assert code as char == c;
  }

  lemma LettersListed(c: char)
    ensures 'a' <= c <= 'z' <==> c in LETTERS
  {
    var code := c as int;
    assert code as char == c;
  }

  lemma FiguresListed(c: char)
    ensures '0' <= c <= '9' <==> c in FIGURES
  {
    var code := c as int;
    assert code as char == c;
  }

  /** The characters names are made of. */
  lemma NameAlphabet(c: char)
    ensures IsNameStart(c) <==> c in CAPITALS || c in LETTERS || c == '_'
    ensures IsNameChar(c) <==> IsNameStart(c) || c in FIGURES
  {
    CapitalsListed(c);
    LettersListed(c);
    FiguresListed(c);
    hide CAPITALS, LETTERS, FIGURES;
  }

  /** The characters that may stand around a name. */
  lemma TrimAlphabet(c: char)
    ensures IsTrimmed(c) <==> c in SPACES
  {
    if IsTrimmed(c) {
      var code := c as int;
      assert code as char == c;
    }
  }

  predicate ValidName(s: string) {
    |s| > 0 && IsNameStart(s[0]) && forall i :: 0 <= i < |s| ==> IsNameChar(s[i])
  }

  lemma TrimName(s: string)
    requires ValidName(s)
    ensures Trim(s) == s
  {
    assert IsNameChar(s[|s| - 1]);
  }

  /** Sigils of the wider Mustache grammar that are rejected by name. */
  predicate IsRefused(c: char) {
    c == '{' || c == '&' || c == '>' || c == '<' || c == '$' || c == '=' || c == '%'
  }

  const REFUSED := "{&><$=%"

  lemma RefusedListed(c: char)
    ensures IsRefused(c) <==> c in REFUSED
  {
  }

  /** Nesting depth of a forest: 0 when it holds no section. */
  function Depth(ns: seq<Node>): nat {
    if ns == [] then 0
    else
      var d := if ns[0].Section? then 1 + Depth(ns[0].body) else 0;
      Max(d, Depth(ns[1..]))
  }

  lemma {:induction false} DepthAppend(a: seq<Node>, b: seq<Node>)
    ensures Depth(a + b) == Max(Depth(a), Depth(b))
  {
    if a == [] {
      assert a + b == b;
    } else {
      assert (a + b)[0] == a[0] && (a + b)[1..] == a[1..] + b;
      DepthAppend(a[1..], b);
    }
  }
}
