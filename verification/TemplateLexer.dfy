/**
 * What the scanner of a template sees, stated positionally: where the next tag is, which tag it
 * is, whether it stands alone on its line, and which characters it takes with it. Lines are
 * counted here the naive way, from the start of the template.
 */
module TemplateLexer {
  import opened Prelude
  import opened TemplateSyntax

  datatype Tag =
    | OpenTag(name: string, inverted: bool)
    | CloseTag(name: string)
    | VarTag(name: string)
    | Comment

  /**
   * One tag and the characters charged to it: the text `before` it, the blank `indent` and the
   * `trail` (blanks and line end) it swallows when it stands alone, and its own source.
   */
  datatype Lexeme = Lexeme(before: string, indent: string, source: string, trail: string, tag: Tag, line: nat)

  /** How the scan stops: on plain text, or on a tag that is itself malformed. */
  datatype Ending = Rest(text: string) | Bad(error: ParseError)

  datatype Lexed = Lexed(lexemes: seq<Lexeme>, ending: Ending)

  predicate PairAt(t: string, c: char, i: int) {
    0 <= i && i + 1 < |t| && t[i] == c && t[i + 1] == c
  }

  /** `indexOf` of the two-character string `cc`, from `from`. */
  function FindPair(t: string, c: char, from: nat): (r: Option<nat>)
    requires from <= |t|
    ensures r.Some? ==> from <= r.value && PairAt(t, c, r.value) && forall i :: from <= i < r.value ==> !PairAt(t, c, i)
    ensures r.None? ==> forall i :: from <= i ==> !PairAt(t, c, i)
    decreases |t| - from
  {
    if from + 1 >= |t| then None
    else if PairAt(t, c, from) then Some(from)
    else FindPair(t, c, from + 1)
  }

  lemma FindPairIs(t: string, c: char, from: nat, at: nat)
    requires from <= at && PairAt(t, c, at)
    requires forall i :: from <= i < at ==> !PairAt(t, c, i)
    ensures FindPair(t, c, from) == Some(at)
  {
  }

  /** 1-based line of the character at `i`. */
  function LineNo(t: string, i: nat): (n: nat)
    requires i <= |t|
  {
    if i == 0 then 1 else LineNo(t, i - 1) + (if t[i - 1] == '\n' then 1 else 0)
  }

  /** Start of the line holding position `i`: one past the last newline before it. */
  function LineStart(t: string, i: nat): (s: nat)
    requires i <= |t|
    ensures s <= i
    ensures s == 0 || t[s - 1] == '\n'
    ensures forall k :: s <= k < i ==> t[k] != '\n'
  {
    if i == 0 then 0 else if t[i - 1] == '\n' then i else LineStart(t, i - 1)
  }

  function SkipBlank(t: string, i: nat): (j: nat)
    requires i <= |t|
    ensures i <= j <= |t|
    ensures AllBlank(t[i..j])
    ensures j < |t| ==> !IsBlank(t[j])
    decreases |t| - i
  {
    if i < |t| && IsBlank(t[i]) then
      var j := SkipBlank(t, i + 1);
      assert t[i..j] == [t[i]] + t[i + 1..j];
      j
    else i
  }

  /** Position after the line end at `i`, when there is one: end of input, LF or CRLF. */
  function LineEnd(t: string, i: nat): (e: Option<nat>)
    requires i <= |t|
    ensures e.Some? ==> i <= e.value <= |t|
    ensures e.Some? ==> e.value == |t| || (e.value > 0 && t[e.value - 1] == '\n')
  {
    if i == |t| then Some(i)
    else if t[i] == '\n' then Some(i + 1)
    else if t[i] == '\r' && i + 1 < |t| && t[i + 1] == '\n' then Some(i + 2)
    else None
  }

  /** For the tag in `t[start..next]`: where its line ends, if it is alone on it. */
  function StandaloneEnd(t: string, start: nat, next: nat): (e: Option<nat>)
    requires start <= next <= |t|
    ensures e.Some? ==> next <= e.value <= |t|
    ensures e.Some? ==> e.value == |t| || (e.value > 0 && t[e.value - 1] == '\n')
  {
    if AllBlank(t[LineStart(t, start)..start]) then LineEnd(t, SkipBlank(t, next)) else None
  }

  predicate IsBlockSigil(c: char) {
    c == '#' || c == '^' || c == '/' || c == '!'
  }

  /** The tag written between the braces. */
  function Classify(inner: string, line: nat): Result<Tag, ParseError> {
    if inner == [] then Err(BadName([], line))
    else if IsRefused(inner[0]) then Err(Refused(inner[0], line))
    else if inner[0] == '!' then Ok(Comment)
    else if IsBlockSigil(inner[0]) then BlockTag(inner[0], Trim(inner[1..]), line)
    else PlainTag(Trim(inner), line)
  }

  function PlainTag(name: string, line: nat): Result<Tag, ParseError> {
    if ValidName(name) then Ok(VarTag(name)) else Err(BadName(name, line))
  }

  function BlockTag(sigil: char, name: string, line: nat): Result<Tag, ParseError> {
    if !ValidName(name) then Err(BadName(name, line))
    else if sigil == '/' then Ok(CloseTag(name))
    else Ok(OpenTag(name, sigil == '^'))
  }

  /** The tag opened by the braces at `start`, and the position after its closing braces. */
  function ReadTag(t: string, start: nat): (r: Result<(Tag, nat), ParseError>)
    requires PairAt(t, '{', start)
    ensures r.Ok? ==> start + 4 <= r.value.1 <= |t| && PairAt(t, '}', r.value.1 - 2)
  {
    match FindPair(t, '}', start + 2)
    case None => Err(NeverClosed(LineNo(t, start)))
    case Some(end) =>
      match Classify(t[start + 2..end], LineNo(t, start))
      case Err(e) => Err(e)
      case Ok(tag) => Ok((tag, end + 2))
  }

  lemma JoinSlices(t: string, a: nat, b: nat, c: nat, d: nat, e: nat)
    requires a <= b <= c <= d <= e <= |t|
    ensures t[a..b] + t[b..c] + t[c..d] + t[d..e] == t[a..e]
  {
    assert t[a..b] + t[b..c] == t[a..c];
    assert t[a..c] + t[c..d] == t[a..d];
  }

  /** The next lexeme from `pos`, and the position the scan resumes at. */
  function NextLexeme(t: string, pos: nat, start: nat, tag: Tag, next: nat): (r: (Lexeme, nat))
    requires pos <= start < next <= |t|
    ensures pos < r.1 <= |t|
    ensures r.0.before + r.0.indent + r.0.source + r.0.trail == t[pos..r.1]
  {
    var line := LineNo(t, start);
    var alone := if tag.VarTag? then None else StandaloneEnd(t, start, next);
    match alone
    case None =>
      (Lexeme(t[pos..start], [], t[start..next], [], tag, line), next)
    case Some(eol) =>
      var cut := Max(pos, LineStart(t, start));
      JoinSlices(t, pos, cut, start, next, eol);
      (Lexeme(t[pos..cut], t[cut..start], t[start..next], t[next..eol], tag, line), eol)
  }

  /** The whole scan from `pos`. */
  function Lex(t: string, pos: nat): Lexed
    requires pos <= |t|
    decreases |t| - pos
  {
    match FindPair(t, '{', pos)
    case None => Lexed([], Rest(t[pos..]))
    case Some(start) =>
      match ReadTag(t, start)
      case Err(e) => Lexed([], Bad(e))
      case Ok((tag, next)) =>
        var (lexeme, resume) := NextLexeme(t, pos, start, tag, next);
        var rest := Lex(t, resume);
        Lexed([lexeme] + rest.lexemes, rest.ending)
  }

  /** A template whose every tag is well formed, taken on its own. */
  predicate WellFormed(t: string) {
    Lex(t, 0).ending.Rest?
  }

  // ----- every source character is charged exactly once, in order -----

  function Charged(ls: seq<Lexeme>): string {
    if ls == [] then []
    else ls[0].before + ls[0].indent + ls[0].source + ls[0].trail + Charged(ls[1..])
  }

  predicate IsTrail(s: string) {
    || AllBlank(s)
    || (|s| >= 1 && s[|s| - 1] == '\n' && AllBlank(s[..|s| - 1]))
    || (|s| >= 2 && s[|s| - 2..] == "\r\n" && AllBlank(s[..|s| - 2]))
  }

  /** What a lexeme may drop from the output: its own braces, a blank indent, a blank line tail. */
  predicate DropsOnlyItsLine(l: Lexeme) {
    && |l.source| >= 4 && PairAt(l.source, '{', 0) && PairAt(l.source, '}', |l.source| - 2)
    && AllBlank(l.indent) && IsTrail(l.trail)
    && (l.tag.VarTag? ==> l.indent == [] && l.trail == [])
  }

  lemma {:induction false} SourceAccounting(t: string, pos: nat)
    requires pos <= |t|
    ensures Charged(Lex(t, pos).lexemes) <= t[pos..]
    ensures Lex(t, pos).ending.Rest? ==> t[pos..] == Charged(Lex(t, pos).lexemes) + Lex(t, pos).ending.text
    decreases |t| - pos
  {
    var f := FindPair(t, '{', pos);
    if f.Some? && ReadTag(t, f.value).Ok? {
      var (tag, next) := ReadTag(t, f.value).value;
      var (lexeme, resume) := NextLexeme(t, pos, f.value, tag, next);
      SourceAccounting(t, resume);
      ChargedSplit(t, pos, resume, lexeme, Lex(t, resume));
    }
  }

  lemma ChargedSplit(t: string, pos: nat, resume: nat, l: Lexeme, rest: Lexed)
    requires pos <= resume <= |t|
    requires l.before + l.indent + l.source + l.trail == t[pos..resume]
    requires Charged(rest.lexemes) <= t[resume..]
    requires rest.ending.Rest? ==> t[resume..] == Charged(rest.lexemes) + rest.ending.text
    ensures Charged([l] + rest.lexemes) <= t[pos..]
    ensures rest.ending.Rest? ==> t[pos..] == Charged([l] + rest.lexemes) + rest.ending.text
  {
    ChargedCons(l, rest.lexemes);
    assert t[pos..] == t[pos..resume] + t[resume..];
  }

  lemma ChargedCons(l: Lexeme, ls: seq<Lexeme>)
    ensures Charged([l] + ls) == l.before + l.indent + l.source + l.trail + Charged(ls)
  {
    assert ([l] + ls)[1..] == ls;
  }

  predicate NoTagIn(s: string) {
    forall i | 0 <= i < |s| :: !PairAt(s, '{', i)
  }

  lemma NoTagBetween(t: string, pos: nat, cut: nat)
    requires pos <= cut <= |t|
    requires forall i :: pos <= i && i + 1 < cut ==> !PairAt(t, '{', i)
    ensures NoTagIn(t[pos..cut])
  {
    forall i | 0 <= i < cut - pos ensures !PairAt(t[pos..cut], '{', i) {
      assert pos + i + 1 < cut ==> !PairAt(t, '{', pos + i);
    }
  }

  lemma NextTextHoldsNoTag(t: string, pos: nat, start: nat, tag: Tag, next: nat)
    requires pos <= start < next <= |t|
    requires forall i :: pos <= i < start ==> !PairAt(t, '{', i)
    ensures NoTagIn(NextLexeme(t, pos, start, tag, next).0.before)
  {
    var l := NextLexeme(t, pos, start, tag, next).0;
    NoTagBetween(t, pos, start);
    NoTagBetween(t, pos, Max(pos, LineStart(t, start)));
  }

  lemma {:induction false} PlainTextHoldsNoTag(t: string, pos: nat)
    requires pos <= |t|
    ensures forall l <- Lex(t, pos).lexemes :: NoTagIn(l.before)
    ensures Lex(t, pos).ending.Rest? ==> NoTagIn(Lex(t, pos).ending.text)
    decreases |t| - pos
  {
    var f := FindPair(t, '{', pos);
    if f.None? {
      NoTagBetween(t, pos, |t|);
      assert t[pos..] == t[pos..|t|];
    } else if ReadTag(t, f.value).Ok? {
      var (tag, next) := ReadTag(t, f.value).value;
      NextTextHoldsNoTag(t, pos, f.value, tag, next);
      PlainTextHoldsNoTag(t, NextLexeme(t, pos, f.value, tag, next).1);
    }
  }

  lemma StandaloneDropsItsLine(t: string, pos: nat, start: nat, tag: Tag, next: nat)
    requires pos <= start && start + 4 <= next <= |t| && PairAt(t, '{', start) && PairAt(t, '}', next - 2)
    ensures DropsOnlyItsLine(NextLexeme(t, pos, start, tag, next).0)
  {
    var l := NextLexeme(t, pos, start, tag, next).0;
    assert PairAt(l.source, '{', 0) && PairAt(l.source, '}', |l.source| - 2);
    var after := SkipBlank(t, next);
    if !tag.VarTag? && AllBlank(t[LineStart(t, start)..start]) && LineEnd(t, after).Some? {
      IndentIsBlank(t, pos, start);
      TrailIsTrail(t, next, after);
    }
  }

  lemma IndentIsBlank(t: string, pos: nat, start: nat)
    requires pos <= start <= |t| && AllBlank(t[LineStart(t, start)..start])
    ensures AllBlank(t[Max(pos, LineStart(t, start))..start])
  {
    var ls := LineStart(t, start);
    var cut := Max(pos, ls);
    assert t[cut..start] == t[ls..start][cut - ls..];
  }

  lemma TrailIsTrail(t: string, next: nat, after: nat)
    requires next <= after <= |t| && AllBlank(t[next..after]) && LineEnd(t, after).Some?
    ensures IsTrail(t[next..LineEnd(t, after).value])
  {
    var trail := t[next..LineEnd(t, after).value];
    assert trail[..after - next] == t[next..after];
    if |trail| == after - next + 2 {
      assert trail[|trail| - 2..] == "\r\n";
    }
  }

  // ----- the clamp on a standalone tag's indent never moves it -----

  /** Positions a scan can stand at: the start, just past a tag, or just past a swallowed line. */
  predicate Resumable(t: string, pos: nat) {
    pos <= |t| && (pos == 0 || pos == |t| || t[pos - 1] == '}' || t[pos - 1] == '\n')
  }

  lemma ResumesAtResumable(t: string, pos: nat, start: nat, tag: Tag, next: nat)
    requires pos <= start < next <= |t| && PairAt(t, '}', next - 2)
    ensures Resumable(t, NextLexeme(t, pos, start, tag, next).1)
  {
  }

  /** A tag alone on its line starts a line the scan has not entered yet. */
  lemma StandaloneLineIsAhead(t: string, pos: nat, start: nat)
    requires Resumable(t, pos) && pos <= start && PairAt(t, '{', start)
    requires AllBlank(t[LineStart(t, start)..start])
    ensures pos <= LineStart(t, start)
  {
    var ls := LineStart(t, start);
    forall k | ls <= k < start ensures IsBlank(t[k]) {
      assert t[k] == t[ls..start][k - ls];
    }
  }

  // ----- a tag takes its line exactly when it is alone on it -----

  /** `t[a..e]` is a whole line that holds the tag `t[start..next]` and otherwise only blanks. */
  predicate IsWholeLine(t: string, a: int, start: int, next: int, e: int) {
    && 0 <= a <= start <= next <= e <= |t|
    && (a == 0 || t[a - 1] == '\n') && AllBlank(t[a..start])
    && IsTrail(t[next..e]) && (e == |t| || (next < e && t[e - 1] == '\n'))
  }

  /** Lexeme `l`, charged from `pos` on, drops something only as a whole line, and every whole line. */
  ghost predicate DropsWholeLineAt(t: string, pos: nat, l: Lexeme) {
    var indentAt := pos + |l.before|;
    var start := indentAt + |l.indent|;
    var next := start + |l.source|;
    var end := next + |l.trail|;
    && end <= |t| && t[pos..end] == l.before + l.indent + l.source + l.trail && DropsOnlyItsLine(l)
    && (l.indent + l.trail != [] ==> IsWholeLine(t, indentAt, start, next, end))
    && (!l.tag.VarTag? ==> forall a, e :: IsWholeLine(t, a, start, next, e) ==> a == indentAt && e == end)
  }

  ghost predicate DropWholeLines(t: string, pos: nat, ls: seq<Lexeme>)
    decreases |ls|
  {
    ls == [] ||
    (DropsWholeLineAt(t, pos, ls[0])
     && DropWholeLines(t, pos + |ls[0].before + ls[0].indent + ls[0].source + ls[0].trail|, ls[1..]))
  }

  lemma {:induction false} SkipBlankIs(t: string, i: nat, j: nat)
    requires i <= j <= |t| && AllBlank(t[i..j]) && (j == |t| || !IsBlank(t[j]))
    ensures SkipBlank(t, i) == j
    decreases j - i
  {
    if i < j {
      assert t[i] == t[i..j][0];
      assert t[i + 1..j] == t[i..j][1..];
      SkipBlankIs(t, i + 1, j);
    }
  }

  lemma {:induction false} LineStartIs(t: string, a: nat, i: nat)
    requires a <= i <= |t| && (a == 0 || t[a - 1] == '\n') && AllBlank(t[a..i])
    ensures LineStart(t, i) == a
    decreases i - a
  {
    if a < i {
      assert t[i - 1] == t[a..i][i - 1 - a];
      assert t[a..i - 1] == t[a..i][..i - 1 - a];
      LineStartIs(t, a, i - 1);
    }
  }

  /** Blanks from `next` to `j`, then the line end at `j`. */
  lemma TrailEndsAt(t: string, next: nat, j: nat, e: nat)
    requires next <= j <= |t| && AllBlank(t[next..j]) && LineEnd(t, j) == Some(e)
    ensures LineEnd(t, SkipBlank(t, next)) == Some(e)
  {
    SkipBlankIs(t, next, j);
  }

  lemma TrailEnds(t: string, next: nat, e: nat)
    requires next <= e <= |t| && IsTrail(t[next..e]) && (e == |t| || (next < e && t[e - 1] == '\n'))
    ensures LineEnd(t, SkipBlank(t, next)) == Some(e)
  {
    var s := t[next..e];
    hide SkipBlank;
    if AllBlank(s) {
      assert next < e ==> t[e - 1] == s[|s| - 1];
      TrailEndsAt(t, next, e, e);
    } else if |s| >= 2 && s[|s| - 2..] == "\r\n" && AllBlank(s[..|s| - 2]) {
      assert t[e - 2] == s[|s| - 2..][0] && t[e - 1] == s[|s| - 2..][1];
      assert t[next..e - 2] == s[..|s| - 2];
      TrailEndsAt(t, next, e - 2, e);
    } else {
      assert t[e - 1] == s[|s| - 1];
      assert t[next..e - 1] == s[..|s| - 1];
      TrailEndsAt(t, next, e - 1, e);
    }
  }

  lemma WholeLineIsStandalone(t: string, a: int, start: nat, next: nat, e: int)
    requires IsWholeLine(t, a, start, next, e)
    ensures LineStart(t, start) == a && StandaloneEnd(t, start, next) == Some(e)
  {
    LineStartIs(t, a, start);
    TrailEnds(t, next, e);
  }

  lemma StandaloneIsWholeLine(t: string, start: nat, next: nat)
    requires start <= next <= |t| && StandaloneEnd(t, start, next).Some?
    ensures IsWholeLine(t, LineStart(t, start), start, next, StandaloneEnd(t, start, next).value)
  {
    TrailIsTrail(t, next, SkipBlank(t, next));
  }

  lemma PlacedLexeme(t: string, pos: nat, a: nat, start: nat, next: nat, e: nat, l: Lexeme)
    requires pos <= a <= start <= next <= e <= |t|
    requires l.before == t[pos..a] && l.indent == t[a..start] && l.source == t[start..next] && l.trail == t[next..e]
    requires DropsOnlyItsLine(l) && (l.indent + l.trail != [] ==> IsWholeLine(t, a, start, next, e))
    requires !l.tag.VarTag? ==> forall a', e' :: IsWholeLine(t, a', start, next, e') ==> a' == a && e' == e
    ensures DropsWholeLineAt(t, pos, l)
  {
    hide IsWholeLine, DropsOnlyItsLine;
    JoinSlices(t, pos, a, start, next, e);
  }

  lemma WholeLinesAreStandalone(t: string, start: nat, next: nat)
    requires start <= next <= |t|
    ensures forall a, e :: IsWholeLine(t, a, start, next, e) ==>
              a == LineStart(t, start) && StandaloneEnd(t, start, next) == Some(e)
  {
    forall a, e | IsWholeLine(t, a, start, next, e)
      ensures a == LineStart(t, start) && StandaloneEnd(t, start, next) == Some(e)
    {
      WholeLineIsStandalone(t, a, start, next, e);
    }
  }

  /** Where the next lexeme's parts lie. */
  lemma NextLexemeParts(t: string, pos: nat, start: nat, tag: Tag, next: nat) returns (a: nat, e: nat)
    requires Resumable(t, pos) && pos <= start < next <= |t| && PairAt(t, '{', start)
    ensures pos <= a <= start && next <= e <= |t| && NextLexeme(t, pos, start, tag, next).1 == e
    ensures var l := NextLexeme(t, pos, start, tag, next).0;
            l.tag == tag && l.before == t[pos..a] && l.indent == t[a..start] && l.source == t[start..next]
                && l.trail == t[next..e]
    ensures if tag.VarTag? || StandaloneEnd(t, start, next).None? then a == start && e == next
            else a == LineStart(t, start) && StandaloneEnd(t, start, next) == Some(e)
  {
    if tag.VarTag? || StandaloneEnd(t, start, next).None? {
      a, e := start, next;
    } else {
      StandaloneLineIsAhead(t, pos, start);
      a, e := LineStart(t, start), StandaloneEnd(t, start, next).value;
    }
  }

  lemma NextDropsWholeLine(t: string, pos: nat, start: nat, tag: Tag, next: nat)
    requires Resumable(t, pos) && pos <= start && start + 4 <= next <= |t|
    requires PairAt(t, '{', start) && PairAt(t, '}', next - 2)
    ensures DropsWholeLineAt(t, pos, NextLexeme(t, pos, start, tag, next).0)
  {
    StandaloneDropsItsLine(t, pos, start, tag, next);
    var a, e := NextLexemeParts(t, pos, start, tag, next);
    hide *;
    WholeLinesAreStandalone(t, start, next);
    if !tag.VarTag? && StandaloneEnd(t, start, next).Some? {
      StandaloneIsWholeLine(t, start, next);
    }
    PlacedLexeme(t, pos, a, start, next, e, NextLexeme(t, pos, start, tag, next).0);
  }

  lemma DropsThenRest(t: string, pos: nat, l: Lexeme, resume: nat, ls: seq<Lexeme>)
    requires DropsWholeLineAt(t, pos, l) && resume == pos + |l.before + l.indent + l.source + l.trail|
    requires DropWholeLines(t, resume, ls)
    ensures DropWholeLines(t, pos, [l] + ls)
  {
    hide DropsWholeLineAt;
    var all := [l] + ls;
    assert all[0] == l && all[1..] == ls;
  }

  /**
   * A tag takes more than its braces only as a whole line: from a line's start, over blanks, to that
   * line's end or the end of input. A section, closing or comment tag that is alone on its line
   * always takes it.
   */
  lemma {:induction false} DropsOnlyWholeLines(t: string, pos: nat)
    requires Resumable(t, pos)
    ensures DropWholeLines(t, pos, Lex(t, pos).lexemes)
    decreases |t| - pos
  {
    var f := FindPair(t, '{', pos);
    if f.Some? && ReadTag(t, f.value).Ok? {
      var (tag, next) := ReadTag(t, f.value).value;
      var (l, resume) := NextLexeme(t, pos, f.value, tag, next);
      assert Lex(t, pos).lexemes == [l] + Lex(t, resume).lexemes;
      hide *;
      NextDropsWholeLine(t, pos, f.value, tag, next);
      ResumesAtResumable(t, pos, f.value, tag, next);
      DropsOnlyWholeLines(t, resume);
      DropsThenRest(t, pos, l, resume, Lex(t, resume).lexemes);
    }
  }
}
