/**
 * Writing a tree back as a template, and reading it again. The scanner drops nothing from the
 * written form as long as no section tag stands alone on its line, which is always so on one line.
 */
module TemplateRoundTrip {
  import opened Prelude
  import opened TemplateSyntax
  import opened TemplateLexer
  import opened TemplateGrammar

  function PrintNode(n: Node): string {
    match n
    case Text(s) => s
    case Var(name) => "{{" + name + "}}"
    case Section(name, inv, body) =>
      "{{" + ((if inv then "^" else "#") + name) + "}}" + Print(body) + ("{{" + ("/" + name) + "}}")
  }

  function Print(ns: seq<Node>): string {
    if ns == [] then [] else PrintNode(ns[0]) + Print(ns[1..])
  }

  /** A token as it is written: a tag's name with padding on either side. */
  datatype Mark = Mark(token: Token, left: string, right: string)

  /** Characters that trimming removes. */
  predicate Padding(s: string) {
    forall i :: 0 <= i < |s| ==> IsTrimmed(s[i])
  }

  function Unpadded(ms: seq<Mark>): (ts: seq<Token>)
    ensures |ts| == |ms| && forall i :: 0 <= i < |ms| ==> ts[i] == ms[i].token
  {
    seq(|ms|, i requires 0 <= i < |ms| => ms[i].token)
  }

  function Plain(ts: seq<Token>): (ms: seq<Mark>)
    ensures |ms| == |ts| && forall i :: 0 <= i < |ts| ==> ms[i] == Mark(ts[i], [], [])
  {
    seq(|ts|, i requires 0 <= i < |ts| => Mark(ts[i], [], []))
  }

  function Inner(m: Mark): string
    requires !m.token.TextToken?
  {
    var name := m.left + m.token.name + m.right;
    match m.token
    case VarToken(_) => name
    case OpenToken(_, inv) => (if inv then "^" else "#") + name
    case CloseToken(_) => "/" + name
  }

  function PrintMark(m: Mark): string {
    if m.token.TextToken? then m.token.text else "{{" + Inner(m) + "}}"
  }

  function PrintMarks(ms: seq<Mark>): string {
    if ms == [] then [] else PrintMark(ms[0]) + PrintMarks(ms[1..])
  }

  lemma {:induction false} PrintMarksAppend(a: seq<Mark>, b: seq<Mark>)
    ensures PrintMarks(a + b) == PrintMarks(a) + PrintMarks(b)
  {
    if a == [] {
      assert a + b == b;
    } else {
      assert (a + b)[0] == a[0] && (a + b)[1..] == a[1..] + b;
      PrintMarksAppend(a[1..], b);
    }
  }

  lemma PlainSplits(a: seq<Token>, b: seq<Token>)
    ensures Plain(a + b) == Plain(a) + Plain(b)
  {
  }

  lemma PlainAppend(a: seq<Token>, b: seq<Token>)
    ensures PrintMarks(Plain(a + b)) == PrintMarks(Plain(a)) + PrintMarks(Plain(b))
  {
    PlainSplits(a, b);
    hide Plain, PrintMarks;
    PrintMarksAppend(Plain(a), Plain(b));
  }

  lemma PrintOne(t: Token)
    ensures PrintMarks(Plain([t])) == PrintMark(Mark(t, [], []))
    ensures PrintMark(Mark(t, [], []))
         == match t
            case TextToken(text) => text
            case VarToken(n) => "{{" + n + "}}"
            case OpenToken(n, inv) => "{{" + ((if inv then "^" else "#") + n) + "}}"
            case CloseToken(n) => "{{" + ("/" + n) + "}}"
  {
    assert Plain([t]) == [Mark(t, [], [])];
    if !t.TextToken? {
      assert [] + t.name + [] == t.name;
    }
  }

  lemma {:induction false} PrintNodeIsTokens(n: Node)
    ensures PrintNode(n) == PrintMarks(Plain(FlattenNode(n)))
    decreases n, 1
  {
    hide PrintMark, PrintMarks;
    match n
    case Text(s) => PrintOne(TextToken(s));
    case Var(name) => PrintOne(VarToken(name));
    case Section(name, inv, body) =>
      PrintIsTokens(body);
      PlainAppend([OpenToken(name, inv)] + Flatten(body), [CloseToken(name)]);
      PlainAppend([OpenToken(name, inv)], Flatten(body));
      PrintOne(OpenToken(name, inv));
      PrintOne(CloseToken(name));
  }

  lemma {:induction false} PrintIsTokens(ns: seq<Node>)
    ensures Print(ns) == PrintMarks(Plain(Flatten(ns)))
    decreases ns, 0
  {
    hide PrintNode, PrintMark;
    if ns != [] {
      PrintNodeIsTokens(ns[0]);
      PrintIsTokens(ns[1..]);
      PlainAppend(FlattenNode(ns[0]), Flatten(ns[1..]));
    }
  }

  // ----- reading back one tag -----

  function TagOf(t: Token): Tag
    requires !t.TextToken?
  {
    match t
    case VarToken(n) => VarTag(n)
    case OpenToken(n, inv) => OpenTag(n, inv)
    case CloseToken(n) => CloseTag(n)
  }

  lemma {:induction false} TrimStartPadded(left: string, s: string)
    requires Padding(left) && (s == [] || !IsTrimmed(s[0]))
    ensures TrimStart(left + s) == s
  {
    if left == [] {
      assert left + s == s;
    } else {
      assert (left + s)[0] == left[0] && (left + s)[1..] == left[1..] + s;
      TrimStartPadded(left[1..], s);
    }
  }

  lemma {:induction false} TrimEndPadded(s: string, right: string)
    requires Padding(right) && (s == [] || !IsTrimmed(s[|s| - 1]))
    ensures TrimEnd(s + right) == s
  {
    if right == [] {
      assert s + right == s;
    } else {
      var last := |right| - 1;
      assert (s + right)[|s| + last] == right[last] && (s + right)[..|s| + last] == s + right[..last];
      TrimEndPadded(s, right[..last]);
    }
  }

  lemma NameIsInk(name: string)
    requires ValidName(name)
    ensures !IsTrimmed(name[0]) && !IsTrimmed(name[|name| - 1])
  {
    assert IsNameChar(name[|name| - 1]);
  }

  lemma TrimPadded(left: string, name: string, right: string)
    requires Padding(left) && Padding(right) && ValidName(name)
    ensures Trim(left + name + right) == name
  {
    NameIsInk(name);
    assert left + name + right == left + (name + right);
    TrimStartPadded(left, name + right);
    TrimEndPadded(name, right);
  }

  /** A character of padding or of a name opens no other kind of tag. */
  lemma PlainStart(left: string, name: string, right: string)
    requires Padding(left) && ValidName(name)
    ensures var s := left + name + right; s != [] && !IsRefused(s[0]) && !IsBlockSigil(s[0])
  {
    var s := left + name + right;
    assert s[0] == if left == [] then name[0] else left[0];
    assert IsTrimmed(s[0]) || IsNameStart(s[0]);
  }

  // ----- what is between the braces -----

  predicate Bare(s: string) {
    s != [] ==> !IsTrimmed(s[0]) && !IsTrimmed(s[|s| - 1])
  }

  /** `name` with padding on either side, and none of its own. */
  ghost predicate Padded(s: string, name: string) {
    Bare(name) && exists left, right :: Padding(left) && Padding(right) && s == left + name + right
  }

  /** A legal name with padding on either side. */
  ghost predicate PaddedName(s: string, name: string) {
    ValidName(name) && Padded(s, name)
  }

  /** The characters between the braces spell the tag. */
  ghost predicate Spells(inner: string, tag: Tag) {
    match tag
    case VarTag(name) => PaddedName(inner, name)
    case OpenTag(name, inverted) =>
      inner != [] && inner[0] == (if inverted then '^' else '#') && PaddedName(inner[1..], name)
    case CloseTag(name) => inner != [] && inner[0] == '/' && PaddedName(inner[1..], name)
    case Comment => inner != [] && inner[0] == '!'
  }

  lemma {:induction false} StartTrimmed(s: string) returns (left: string)
    ensures Padding(left) && s == left + TrimStart(s)
  {
    if s == [] || !IsTrimmed(s[0]) {
      left := [];
    } else {
      left := StartTrimmed(s[1..]);
      left := [s[0]] + left;
      assert s == [s[0]] + s[1..];
    }
  }

  lemma {:induction false} EndTrimmed(s: string) returns (right: string)
    ensures Padding(right) && s == TrimEnd(s) + right
  {
    if s == [] || !IsTrimmed(s[|s| - 1]) {
      right := [];
    } else {
      var last := |s| - 1;
      right := EndTrimmed(s[..last]);
      right := right + [s[last]];
      assert s == s[..last] + [s[last]];
    }
  }

  lemma TrimIsPadded(s: string)
    ensures Padded(s, Trim(s))
  {
    var start := TrimStart(s);
    var left := StartTrimmed(s);
    var right := EndTrimmed(start);
    var name := TrimEnd(start);
    hide TrimStart, TrimEnd, IsTrimmed;
    assert s == left + name + right;
    assert name != [] ==> name[0] == start[0];
  }

  lemma TrimOfNothing()
    ensures TrimEnd([]) == []
  {
  }

  lemma PaddedTrims(left: string, name: string, right: string)
    requires Padding(left) && Padding(right) && Bare(name)
    ensures Trim(left + name + right) == name
  {
    var s := left + name + right;
    hide TrimStart, TrimEnd, IsTrimmed;
    if name == [] {
      assert Padding(s) && s + [] == s;
      TrimStartPadded(s, []);
      TrimOfNothing();
    } else {
      assert s == left + (name + right) && (name + right)[0] == name[0];
      TrimStartPadded(left, name + right);
      TrimEndPadded(name, right);
    }
  }

  lemma PaddedIsTrim(s: string, name: string)
    ensures Padded(s, name) <==> Trim(s) == name
  {
    TrimIsPadded(s);
    hide Trim, Bare, Padding;
    if Padded(s, name) {
      var left, right :| Padding(left) && Padding(right) && s == left + name + right;
      PaddedTrims(left, name, right);
    }
  }

  lemma PaddedNameStarts(s: string, name: string)
    requires PaddedName(s, name)
    ensures s != [] && !IsRefused(s[0]) && !IsBlockSigil(s[0])
  {
    var left, right :| Padding(left) && Padding(right) && s == left + name + right;
    PlainStart(left, name, right);
  }

  lemma SpellsIsClassify(inner: string, tag: Tag, line: nat)
    ensures Classify(inner, line) == Ok(tag) <==> Spells(inner, tag)
  {
    if tag.VarTag? {
      PaddedIsTrim(inner, tag.name);
      if PaddedName(inner, tag.name) {
        PaddedNameStarts(inner, tag.name);
      }
    } else if !tag.Comment? && inner != [] {
      PaddedIsTrim(inner[1..], tag.name);
    }
    hide Trim, ValidName, Padded;
  }

  /** The first closing pair from `from` on. */
  predicate ClosesAt(t: string, from: nat, end: int) {
    from <= end && PairAt(t, '}', end) && forall i :: from <= i < end ==> !PairAt(t, '}', i)
  }

  lemma FindsClose(t: string, from: nat, end: int)
    requires from <= |t|
    ensures FindPair(t, '}', from) == Some(end) <==> ClosesAt(t, from, end)
  {
    if ClosesAt(t, from, end) {
      FindPairIs(t, '}', from, end);
    }
  }

  /**
   * The braces at `start` hold exactly the tag that the characters up to the first closing pair spell:
   * its sigil, then a legal name with any padding; a comment is whatever starts with its sigil.
   */
  lemma TagIsExact(t: string, start: nat, tag: Tag, next: nat)
    requires PairAt(t, '{', start)
    ensures ReadTag(t, start) == Ok((tag, next))
       <==> start + 4 <= next && ClosesAt(t, start + 2, next - 2) && Spells(t[start + 2..next - 2], tag)
  {
    hide Classify, Spells, FindPair, LineNo;
    if start + 4 <= next {
      FindsClose(t, start + 2, next - 2);
      if FindPair(t, '}', start + 2) == Some(next - 2) {
        SpellsIsClassify(t[start + 2..next - 2], tag, LineNo(t, start));
      }
    }
  }

  predicate NeverCloses(t: string, from: nat) {
    forall i :: from <= i < |t| ==> !PairAt(t, '}', i)
  }

  /** What is wrong with braces that hold no tag: no closing pair, a refused sigil, or a name that is not legal. */
  lemma TagErrors(t: string, start: nat, end: int, name: string, c: char)
    requires PairAt(t, '{', start)
    ensures ReadTag(t, start) == Err(NeverClosed(LineNo(t, start))) <==> NeverCloses(t, start + 2)
    ensures ClosesAt(t, start + 2, end) ==>
              var inner, line := t[start + 2..end], LineNo(t, start);
              && (ReadTag(t, start) == Err(Refused(c, line)) <==> inner != [] && inner[0] == c && c in REFUSED)
              && (ReadTag(t, start) == Err(BadName(name, line)) <==>
                    && (inner != [] ==> inner[0] !in REFUSED && inner[0] != '!') && !ValidName(name)
                    && Padded(if inner != [] && IsBlockSigil(inner[0]) then inner[1..] else inner, name))
  {
    FindsClose(t, start + 2, end);
    if ClosesAt(t, start + 2, end) {
      var inner := t[start + 2..end];
      PaddedIsTrim(if inner != [] && IsBlockSigil(inner[0]) then inner[1..] else inner, name);
      assert inner == [] ==> Trim(inner) == [];
      if inner != [] {
        RefusedListed(inner[0]);
      }
    }
    hide FindPair, Trim, ValidName, Padded, REFUSED, IsRefused;
  }

  predicate WellPadded(m: Mark) {
    Padding(m.left) && Padding(m.right)
  }

  lemma ClassifyInner(m: Mark, line: nat)
    requires !m.token.TextToken? && ValidName(m.token.name) && WellPadded(m)
    ensures Classify(Inner(m), line) == Ok(TagOf(m.token))
  {
    var name := m.left + m.token.name + m.right;
    TrimPadded(m.left, m.token.name, m.right);
    hide Trim, ValidName;
    match m.token
    case VarToken(n) => PlainStart(m.left, n, m.right);
    case OpenToken(n, inv) => ClassifyBlock(if inv then '^' else '#', name, n, line);
    case CloseToken(n) => ClassifyBlock('/', name, n, line);
  }

  lemma ClassifyBlock(sigil: char, inner: string, name: string, line: nat)
    requires IsBlockSigil(sigil) && sigil != '!' && ValidName(name) && Trim(inner) == name
    ensures Classify([sigil] + inner, line) == Ok(if sigil == '/' then CloseTag(name) else OpenTag(name, sigil == '^'))
  {
    assert ([sigil] + inner)[1..] == inner;
  }

  lemma InnerHoldsNoBrace(m: Mark)
    requires !m.token.TextToken? && ValidName(m.token.name) && WellPadded(m)
    ensures forall i :: 0 <= i < |Inner(m)| ==> Inner(m)[i] != '}'
  {
    var name, k := m.left + m.token.name + m.right, if m.token.VarToken? then 0 else 1;
    forall i | 0 <= i < |name| ensures name[i] != '}' {
      assert IsTrimmed(name[i]) || IsNameChar(name[i]) by {
        if i < |m.left| {
          assert name[i] == m.left[i];
        } else if i < |m.left| + |m.token.name| {
          assert name[i] == m.token.name[i - |m.left|];
        } else {
          assert name[i] == m.right[i - |m.left| - |m.token.name|];
        }
      }
    }
    forall i | k <= i < |Inner(m)| ensures Inner(m)[i] != '}' {
      assert Inner(m)[i] == name[i - k];
    }
  }

  /** `s` is written in `t` at `at`. */
  predicate WrittenAt(t: string, at: nat, s: string) {
    at + |s| <= |t| && forall i :: 0 <= i < |s| ==> t[at + i] == s[i]
  }

  lemma WrittenSlice(t: string, at: nat, s: string)
    requires WrittenAt(t, at, s)
    ensures t[at..at + |s|] == s
  {
  }

  lemma WrittenSplit(t: string, at: nat, a: string, b: string)
    requires WrittenAt(t, at, a + b)
    ensures WrittenAt(t, at, a) && WrittenAt(t, at + |a|, b)
  {
    forall i | 0 <= i < |a| ensures t[at + i] == a[i] {
      assert (a + b)[i] == a[i];
    }
    forall i | 0 <= i < |b| ensures t[at + |a| + i] == b[i] {
      assert (a + b)[|a| + i] == b[i];
    }
  }

  lemma PrintedTag(m: Mark)
    requires !m.token.TextToken?
    ensures PrintMark(m) == "{{" + Inner(m) + "}}" && |PrintMark(m)| == |Inner(m)| + 4
  {
  }

  lemma ReadTagIs(t: string, start: nat, end: nat, inner: string, tag: Tag)
    requires PairAt(t, '{', start) && FindPair(t, '}', start + 2) == Some(end) && t[start + 2..end] == inner
    requires Classify(inner, LineNo(t, start)) == Ok(tag)
    ensures ReadTag(t, start) == Ok((tag, end + 2))
  {
    hide Classify, LineNo, FindPair;
  }

  lemma InnerReads(t: string, at: nat, m: Mark, end: nat)
    requires 2 <= at <= |t| && !m.token.TextToken? && ValidName(m.token.name) && WellPadded(m)
    requires WrittenAt(t, at, Inner(m))
    requires end == at + |Inner(m)|
    requires PairAt(t, '{', at - 2) && FindPair(t, '}', at) == Some(end)
    ensures ReadTag(t, at - 2) == Ok((TagOf(m.token), end + 2))
  {
    hide *;
    WrittenSlice(t, at, Inner(m));
    ClassifyInner(m, LineNo(t, at - 2));
    ReadTagIs(t, at - 2, end, Inner(m), TagOf(m.token));
  }

  lemma ReadPrinted(t: string, start: nat, m: Mark, s: string)
    requires !m.token.TextToken? && ValidName(m.token.name) && WellPadded(m) && s == PrintMark(m)
    requires WrittenAt(t, start, s)
    ensures PairAt(t, '{', start) && ReadTag(t, start) == Ok((TagOf(m.token), start + |s|))
  {
    hide *;
    PrintedTag(m);
    BracesAround(t, start, Inner(m), s);
    InnerEndsAt(t, start + 2, m);
    InnerReads(t, start + 2, m, start + 2 + |Inner(m)|);
  }

  lemma BracesAround(t: string, start: nat, inner: string, s: string)
    requires s == "{{" + inner + "}}" && WrittenAt(t, start, s)
    ensures start <= |t| && start + 4 + |inner| <= |t|
    ensures PairAt(t, '{', start) && WrittenAt(t, start + 2, inner) && PairAt(t, '}', start + 2 + |inner|)
  {
    WrittenSplit(t, start, "{{" + inner, "}}");
    WrittenSplit(t, start, "{{", inner);
    assert t[start + 0] == "{{"[0] && t[start + 1] == "{{"[1];
    assert t[start + 2 + |inner| + 0] == "}}"[0] && t[start + 2 + |inner| + 1] == "}}"[1];
  }

  lemma InnerEndsAt(t: string, at: nat, m: Mark)
    requires !m.token.TextToken? && ValidName(m.token.name) && WellPadded(m) && WrittenAt(t, at, Inner(m))
    requires PairAt(t, '}', at + |Inner(m)|)
    ensures FindPair(t, '}', at) == Some(at + |Inner(m)|)
  {
    InnerHoldsNoBrace(m);
    forall i | at <= i < at + |Inner(m)| ensures !PairAt(t, '}', i) {
      assert t[at + (i - at)] == Inner(m)[i - at];
    }
    FindPairIs(t, '}', at, at + |Inner(m)|);
  }

  // ----- reading back a token string -----

  predicate WritableToken(t: Token) {
    if t.TextToken? then t.text != [] && NoTagIn(t.text) else ValidName(t.name)
  }

  /** Token strings whose written form shows where each token ends. */
  ghost predicate Writable(ts: seq<Token>) {
    && (forall i :: 0 <= i < |ts| ==> WritableToken(ts[i]))
    && (forall i :: 0 <= i && i + 1 < |ts| && ts[i].TextToken? ==>
          !ts[i + 1].TextToken? && ts[i].text[|ts[i].text| - 1..] != "{")
  }

  /** The same with padding around the names. */
  ghost predicate WritableMarks(ms: seq<Mark>) {
    Writable(Unpadded(ms)) && forall i :: 0 <= i < |ms| ==> WellPadded(ms[i])
  }

  lemma WrittenHead(t: string, pos: nat, ms: seq<Mark>, head: string, rest: string)
    requires ms != [] && WrittenAt(t, pos, PrintMarks(ms))
    requires head == PrintMark(ms[0]) && rest == PrintMarks(ms[1..])
    ensures WrittenAt(t, pos, head) && WrittenAt(t, pos + |head|, rest)
    ensures |PrintMarks(ms)| == |head| + |rest|
  {
    assert PrintMarks(ms) == head + rest;
    WrittenSplit(t, pos, head, rest);
  }

  /** No section tag of `ms`, written in `t` from `pos`, is alone on its line. */
  predicate NoneStandalone(t: string, pos: nat, ms: seq<Mark>)
    decreases |ms|
  {
    ms == [] ||
    var next := pos + |PrintMark(ms[0])|;
    && next <= |t|
    && (IsBlock(ms[0].token) ==> StandaloneEnd(t, pos, next).None?)
    && NoneStandalone(t, next, ms[1..])
  }

  predicate IsBlock(t: Token) {
    t.OpenToken? || t.CloseToken?
  }

  /** What `Lex` yields from `pos` on, as plain tokens. */
  function LexedKinds(t: string, pos: nat): seq<Token>
    requires pos <= |t|
  {
    var l := Lex(t, pos);
    Kinds(Tokens(l.lexemes) + EndingTokens(l.ending))
  }

  function TextKinds(text: string): seq<Token> {
    if text == [] then [] else [TextToken(text)]
  }

  /** `ts` is what the scan yields from `pos` on. */
  predicate LexesTo(t: string, pos: nat, ts: seq<Token>) {
    pos <= |t| && Lex(t, pos).ending.Rest? && LexedKinds(t, pos) == ts
  }

  /** One scan step over an optional text and a tag. */
  lemma LexOne(t: string, pos: nat, text: string, start: nat, tok: Token, next: nat, later: seq<Token>)
    requires !tok.TextToken? && start == pos + |text| && PairAt(t, '{', start)
    requires NoTagIn(text) && (text == [] || text[|text| - 1] != '{') && WrittenAt(t, pos, text)
    requires ReadTag(t, start) == Ok((TagOf(tok), next))
    requires IsBlock(tok) ==> StandaloneEnd(t, start, next).None?
    requires LexesTo(t, next, later)
    ensures LexesTo(t, pos, TextKinds(text) + [tok] + later)
  {
    TextEndsAt(t, pos, text);
    var lexeme := NextLexeme(t, pos, start, TagOf(tok), next).0;
    LexUnfolds(t, pos, start, TagOf(tok), next);
    KindsOfStep(lexeme, Lex(t, next), text, tok, EndingTokens(Lex(t, next).ending));
  }

  lemma LexUnfolds(t: string, pos: nat, start: nat, tag: Tag, next: nat)
    requires pos <= |t| && FindPair(t, '{', pos) == Some(start) && ReadTag(t, start) == Ok((tag, next))
    ensures var (lexeme, resume) := NextLexeme(t, pos, start, tag, next);
            Lex(t, pos) == Lexed([lexeme] + Lex(t, resume).lexemes, Lex(t, resume).ending)
  {
  }

  lemma TextEndsAt(t: string, pos: nat, text: string)
    requires NoTagIn(text) && (text == [] || text[|text| - 1] != '{')
    requires WrittenAt(t, pos, text) && PairAt(t, '{', pos + |text|)
    ensures FindPair(t, '{', pos) == Some(pos + |text|)
  {
    forall i | pos <= i < pos + |text| ensures !PairAt(t, '{', i) {
      assert !PairAt(text, '{', i - pos);
      assert t[pos + (i - pos)] == text[i - pos];
      assert i + 1 < pos + |text| ==> t[pos + (i - pos + 1)] == text[i - pos + 1];
    }
    FindPairIs(t, '{', pos, pos + |text|);
  }

  lemma KindsOfStep(l: Lexeme, rest: Lexed, text: string, tok: Token, tail: seq<Located>)
    requires !tok.TextToken? && l.before == text && l.tag == TagOf(tok)
    ensures Kinds(Tokens([l] + rest.lexemes) + tail)
         == TextKinds(text) + [tok] + Kinds(Tokens(rest.lexemes) + tail)
  {
    var ls := [l] + rest.lexemes;
    assert ls[0] == l && ls[1..] == rest.lexemes;
    assert Tokens(ls) == LexemeTokens(l) + Tokens(rest.lexemes);
    assert Tokens(ls) + tail == LexemeTokens(l) + (Tokens(rest.lexemes) + tail);
    KindsOfLexeme(l, text, tok);
    hide *;
    KindsAppend(LexemeTokens(l), Tokens(rest.lexemes) + tail);
  }

  lemma KindsOfLexeme(l: Lexeme, text: string, tok: Token)
    requires !tok.TextToken? && l.before == text && l.tag == TagOf(tok)
    ensures Kinds(LexemeTokens(l)) == TextKinds(text) + [tok]
  {
  }

  lemma KindsAppend(a: seq<Located>, b: seq<Located>)
    ensures Kinds(a + b) == Kinds(a) + Kinds(b)
  {
  }

  lemma {:induction false} LexPrinted(t: string, pos: nat, ms: seq<Mark>)
    requires pos + |PrintMarks(ms)| == |t| && WrittenAt(t, pos, PrintMarks(ms))
    requires WritableMarks(ms) && NoneStandalone(t, pos, ms)
    ensures LexesTo(t, pos, Unpadded(ms))
    decreases |ms|, 2
  {
    hide *;
    if ms == [] {
      LexPrintedNothing(t, pos, ms);
    } else if ms[0].token.TextToken? {
      LexPrintedText(t, pos, ms[0].token.text, ms);
    } else {
      LexPrintedFirstTag(t, pos, ms);
    }
  }

  lemma LexPrintedNothing(t: string, pos: nat, ms: seq<Mark>)
    requires ms == [] && pos + |PrintMarks(ms)| == |t|
    ensures LexesTo(t, pos, Unpadded(ms))
  {
    hide *;
    WrittenNothing(ms);
    NoTextBefore(t, pos, Unpadded(ms));
    LexEnd(t, pos, []);
  }

  lemma {:induction false} LexPrintedFirstTag(t: string, pos: nat, ms: seq<Mark>)
    requires pos + |PrintMarks(ms)| == |t| && WrittenAt(t, pos, PrintMarks(ms))
    requires ms != [] && !ms[0].token.TextToken? && WritableMarks(ms) && NoneStandalone(t, pos, ms)
    ensures LexesTo(t, pos, Unpadded(ms))
    decreases |ms|, 1
  {
    hide *;
    NoTextBefore(t, pos, Unpadded(ms));
    LexPrintedTag(t, pos, [], ms);
  }

  lemma NoTextBefore(t: string, pos: nat, ts: seq<Token>)
    requires pos <= |t|
    ensures NoTagIn([]) && WrittenAt(t, pos, []) && TextKinds([]) + ts == ts
  {
  }

  lemma TextThenTag(text: string, ms: seq<Mark>)
    requires ms != []
    ensures TextKinds(text) + [ms[0].token] + Unpadded(ms[1..]) == TextKinds(text) + Unpadded(ms)
  {
    var kinds := TextKinds(text);
    assert [ms[0].token] + Unpadded(ms[1..]) == Unpadded(ms);
    assert kinds + [ms[0].token] + Unpadded(ms[1..]) == kinds + ([ms[0].token] + Unpadded(ms[1..]));
  }

  lemma {:induction false} LexPrintedText(t: string, pos: nat, text: string, ms: seq<Mark>)
    requires ms != [] && ms[0].token == TextToken(text) && WritableMarks(ms) && NoneStandalone(t, pos, ms)
    requires pos + |PrintMarks(ms)| == |t| && WrittenAt(t, pos, PrintMarks(ms))
    ensures LexesTo(t, pos, Unpadded(ms))
    decreases |ms|, 0
  {
    hide *;
    TextHead(t, pos, text, ms);
    WritableText(ms, text);
    WritableRest(ms);
    if |ms| == 1 {
      WrittenNothing(ms[1..]);
      LexEnd(t, pos, text);
    } else {
      LexPrintedTag(t, pos, text, ms[1..]);
    }
  }

  lemma WrittenNothing(ms: seq<Mark>)
    requires ms == []
    ensures PrintMarks(ms) == [] && Unpadded(ms) == []
    ensures forall text {:trigger TextKinds(text)} :: TextKinds(text) + Unpadded(ms) == TextKinds(text)
  {
  }

  lemma TextHead(t: string, pos: nat, text: string, ms: seq<Mark>)
    requires ms != [] && ms[0].token == TextToken(text) && NoneStandalone(t, pos, ms)
    requires WrittenAt(t, pos, PrintMarks(ms))
    ensures WrittenAt(t, pos, text) && WrittenAt(t, pos + |text|, PrintMarks(ms[1..]))
    ensures |PrintMarks(ms)| == |text| + |PrintMarks(ms[1..])| && NoneStandalone(t, pos + |text|, ms[1..])
  {
    hide StandaloneEnd, WrittenAt, PrintMarks;
    assert PrintMark(ms[0]) == text && pos + |text| <= |t| && NoneStandalone(t, pos + |text|, ms[1..]);
    hide *;
    WrittenHead(t, pos, ms, text, PrintMarks(ms[1..]));
  }

  lemma WritableText(ms: seq<Mark>, text: string)
    requires ms != [] && ms[0].token == TextToken(text) && WritableMarks(ms)
    ensures NoTagIn(text) && TextKinds(text) + Unpadded(ms[1..]) == Unpadded(ms)
    ensures |ms| > 1 ==> !ms[1].token.TextToken? && text[|text| - 1] != '{'
  {
    var ts := Unpadded(ms);
    assert WritableToken(ts[0]) && ts[0] == TextToken(text);
    assert Unpadded(ms) == [ts[0]] + Unpadded(ms[1..]);
    hide NoTagIn;
  }

  lemma WritableTag(ms: seq<Mark>)
    requires ms != [] && !ms[0].token.TextToken? && WritableMarks(ms)
    ensures ValidName(ms[0].token.name) && WellPadded(ms[0])
  {
    assert WritableToken(Unpadded(ms)[0]);
  }

  lemma {:induction false} LexPrintedTag(t: string, pos: nat, text: string, ms: seq<Mark>)
    requires ms != [] && !ms[0].token.TextToken? && WritableMarks(ms)
    requires NoTagIn(text) && (text == [] || text[|text| - 1] != '{')
    requires pos + |text| + |PrintMarks(ms)| == |t|
    requires WrittenAt(t, pos, text) && WrittenAt(t, pos + |text|, PrintMarks(ms))
    requires NoneStandalone(t, pos + |text|, ms)
    ensures LexesTo(t, pos, TextKinds(text) + Unpadded(ms))
    decreases |ms|, 0
  {
    hide *;
    WritableTag(ms);
    TextThenTag(text, ms);
    var start := pos + |text|;
    var tok, rest := ms[0].token, ms[1..];
    var next := AfterTag(t, start, ms);
    WritableRest(ms);
    TagReads(t, start, ms, next);
    LexPrinted(t, next, rest);
    LexOne(t, pos, text, start, tok, next, Unpadded(rest));
  }

  lemma AfterTag(t: string, start: nat, ms: seq<Mark>) returns (next: nat)
    requires ms != [] && WrittenAt(t, start, PrintMarks(ms)) && NoneStandalone(t, start, ms)
    ensures next == start + |PrintMark(ms[0])| <= |t|
    ensures WrittenAt(t, next, PrintMarks(ms[1..])) && NoneStandalone(t, next, ms[1..])
    ensures next + |PrintMarks(ms[1..])| == start + |PrintMarks(ms)|
    ensures IsBlock(ms[0].token) ==> StandaloneEnd(t, start, next).None?
  {
    hide PrintMark, StandaloneEnd;
    var head, rest := PrintMark(ms[0]), PrintMarks(ms[1..]);
    WrittenHead(t, start, ms, head, rest);
    next := start + |head|;
  }

  lemma TagReads(t: string, start: nat, ms: seq<Mark>, next: nat)
    requires ms != [] && !ms[0].token.TextToken? && ValidName(ms[0].token.name) && WellPadded(ms[0])
    requires WrittenAt(t, start, PrintMarks(ms)) && next == start + |PrintMark(ms[0])|
    ensures PairAt(t, '{', start) && ReadTag(t, start) == Ok((TagOf(ms[0].token), next))
  {
    hide *;
    var head := PrintMark(ms[0]);
    WrittenHead(t, start, ms, head, PrintMarks(ms[1..]));
    ReadPrinted(t, start, ms[0], head);
  }

  lemma LexEnd(t: string, pos: nat, text: string)
    requires pos + |text| == |t| && WrittenAt(t, pos, text) && NoTagIn(text)
    ensures LexesTo(t, pos, TextKinds(text))
  {
    forall i | pos <= i ensures !PairAt(t, '{', i) {
      if i + 1 < |t| {
        assert t[pos + (i - pos)] == text[i - pos] && t[pos + (i - pos + 1)] == text[i - pos + 1];
        assert !PairAt(text, '{', i - pos);
      }
    }
    assert FindPair(t, '{', pos).None?;
    WrittenSlice(t, pos, text);
    assert t[pos..] == t[pos..|t|];
  }

  lemma WritableRest(ms: seq<Mark>)
    requires ms != [] && WritableMarks(ms)
    ensures WritableMarks(ms[1..])
  {
    var ts, rest := Unpadded(ms), Unpadded(ms[1..]);
    assert rest == ts[1..];
    forall i | 0 <= i < |rest| ensures WritableToken(rest[i]) {
      assert rest[i] == ts[i + 1];
    }
    forall i | 0 <= i && i + 1 < |rest| && rest[i].TextToken?
      ensures !rest[i + 1].TextToken? && rest[i].text[|rest[i].text| - 1..] != "{"
    {
      assert rest[i] == ts[i + 1] && rest[i + 1] == ts[i + 1 + 1];
    }
  }

  // ----- parsing inverts printing -----

  /**
   * Any tree of depth within the limit, with legal names and texts that show where they end, is
   * what its written form parses to, however the names are padded inside the braces, provided no
   * section tag stands alone on a line there.
   */
  lemma PrintPaddedThenParse(ns: seq<Node>, ms: seq<Mark>, maxDepth: int)
    requires Unpadded(ms) == Flatten(ns) && WritableMarks(ms) && Shallow(Depth(ns), maxDepth)
    requires NoneStandalone(PrintMarks(ms), 0, ms)
    ensures Parse(PrintMarks(ms), maxDepth) == Ok(ns)
  {
    LexPrinted(PrintMarks(ms), 0, ms);
    ParseIsGrammar(PrintMarks(ms), maxDepth, ns);
  }

  /** The form with no padding. */
  lemma PrintThenParse(ns: seq<Node>, maxDepth: int)
    requires Writable(Flatten(ns)) && Shallow(Depth(ns), maxDepth)
    requires NoneStandalone(Print(ns), 0, Plain(Flatten(ns)))
    ensures Parse(Print(ns), maxDepth) == Ok(ns)
  {
    PrintIsTokens(ns);
    assert Unpadded(Plain(Flatten(ns))) == Flatten(ns);
    PrintPaddedThenParse(ns, Plain(Flatten(ns)), maxDepth);
  }

  // ----- on one line no section tag stands alone -----

  function FirstBlock(ts: seq<Token>): Option<Token> {
    if ts == [] then None else if IsBlock(ts[0]) then Some(ts[0]) else FirstBlock(ts[1..])
  }

  function LastBlock(ts: seq<Token>): Option<Token> {
    if ts == [] then None
    else
      var later := LastBlock(ts[1..]);
      if later.Some? then later else if IsBlock(ts[0]) then Some(ts[0]) else None
  }

  lemma {:induction false} BlockAppend(a: seq<Token>, b: seq<Token>)
    ensures FirstBlock(a + b) == if FirstBlock(a).Some? then FirstBlock(a) else FirstBlock(b)
    ensures LastBlock(a + b) == if LastBlock(b).Some? then LastBlock(b) else LastBlock(a)
  {
    if a == [] {
      assert a + b == b;
    } else {
      assert (a + b)[0] == a[0] && (a + b)[1..] == a[1..] + b;
      BlockAppend(a[1..], b);
    }
  }

  /** A tree never starts with a closing section tag nor ends with an opening one. */
  predicate Bracketed(ts: seq<Token>) {
    && (FirstBlock(ts).Some? ==> FirstBlock(ts).value.OpenToken?)
    && (LastBlock(ts).Some? ==> LastBlock(ts).value.CloseToken?)
  }

  lemma {:induction false} FlattenIsBracketed(ns: seq<Node>)
    ensures Bracketed(Flatten(ns))
  {
    if ns != [] {
      FlattenIsBracketed(ns[1..]);
      BlockAppend(FlattenNode(ns[0]), Flatten(ns[1..]));
      if ns[0].Section? {
        var n := ns[0];
        BlockAppend([OpenToken(n.name, n.inverted)] + Flatten(n.body), [CloseToken(n.name)]);
        BlockAppend([OpenToken(n.name, n.inverted)], Flatten(n.body));
      }
    }
  }

  predicate OneLine(t: string) {
    forall i :: 0 <= i < |t| ==> t[i] != '\n'
  }

  ghost predicate OnOneLine(t: string, pos: nat, ms: seq<Mark>) {
    var ts := Unpadded(ms);
    && OneLine(t) && pos + |PrintMarks(ms)| == |t| && WrittenAt(t, pos, PrintMarks(ms))
    && (LastBlock(ts).Some? ==> LastBlock(ts).value.CloseToken?)
    && ((FirstBlock(ts).Some? ==> FirstBlock(ts).value.OpenToken?) || !AllBlank(t[..pos]))
  }

  lemma {:induction false} OneLineNoneStandalone(t: string, pos: nat, ms: seq<Mark>)
    requires OnOneLine(t, pos, ms)
    ensures NoneStandalone(t, pos, ms)
    decreases |ms|
  {
    hide PrintMark, WrittenAt, StandaloneEnd;
    if ms != [] {
      var head, rest := PrintMark(ms[0]), PrintMarks(ms[1..]);
      assert Unpadded(ms)[1..] == Unpadded(ms[1..]) && Unpadded(ms)[0] == ms[0].token;
      WrittenHead(t, pos, ms, head, rest);
      InkBehind(t, pos, ms[0], head);
      OneLineTag(t, pos, pos + |head|, ms[0].token, ms[1..], rest);
      OneLineNoneStandalone(t, pos + |head|, ms[1..]);
    }
  }

  lemma OneLineTag(t: string, start: nat, next: nat, tok: Token, ms: seq<Mark>, rest: string)
    requires OneLine(t) && start <= next && next + |rest| == |t| && WrittenAt(t, next, rest)
    requires rest == PrintMarks(ms)
    requires tok.OpenToken? ==> LastBlock(Unpadded(ms)).Some?
    requires tok.CloseToken? ==> !AllBlank(t[..start])
    ensures IsBlock(tok) ==> StandaloneEnd(t, start, next).None?
  {
    if tok.OpenToken? {
      BlockLeavesInk(ms);
      InkAhead(t, start, next, rest);
    } else if tok.CloseToken? {
      InkBeforeClose(t, start, next);
    }
  }

  lemma InkBeforeClose(t: string, start: nat, next: nat)
    requires OneLine(t) && start <= next <= |t| && !AllBlank(t[..start])
    ensures StandaloneEnd(t, start, next).None?
  {
    assert LineStart(t, start) == 0;
    assert t[0..start] == t[..start];
  }

  lemma InkBehind(t: string, pos: nat, m: Mark, s: string)
    requires s == PrintMark(m) && WrittenAt(t, pos, s)
    ensures !m.token.TextToken? || !AllBlank(t[..pos]) ==> !AllBlank(t[..pos + |s|])
  {
    var next := pos + |s|;
    if !m.token.TextToken? {
      assert s[0] == '{' && t[pos + 0] == s[0];
      assert t[..next][pos] == '{';
    } else if !AllBlank(t[..pos]) {
      var k :| 0 <= k < pos && !IsBlank(t[..pos][k]);
      assert t[..next][k] == t[..pos][k];
    }
  }

  lemma InkIsKept(head: string, rest: string)
    requires !AllBlank(head) || !AllBlank(rest)
    ensures !AllBlank(head + rest)
  {
    if !AllBlank(head) {
      var k :| 0 <= k < |head| && !IsBlank(head[k]);
      assert (head + rest)[k] == head[k];
    } else {
      var k :| 0 <= k < |rest| && !IsBlank(rest[k]);
      assert (head + rest)[|head| + k] == rest[k];
    }
  }

  lemma TagIsInk(m: Mark)
    requires !m.token.TextToken?
    ensures !AllBlank(PrintMark(m))
  {
    assert PrintMark(m)[0] == '{';
  }

  lemma PrintHead(ms: seq<Mark>)
    requires ms != []
    ensures PrintMarks(ms) == PrintMark(ms[0]) + PrintMarks(ms[1..])
  {
  }

  lemma {:induction false} BlockLeavesInk(ms: seq<Mark>)
    requires LastBlock(Unpadded(ms)).Some?
    ensures !AllBlank(PrintMarks(ms))
  {
    assert ms != [];
    assert Unpadded(ms)[1..] == Unpadded(ms[1..]) && Unpadded(ms)[0] == ms[0].token;
    assert IsBlock(ms[0].token) || LastBlock(Unpadded(ms[1..])).Some?;
    assert IsBlock(ms[0].token) ==> !ms[0].token.TextToken?;
    hide *;
    if IsBlock(ms[0].token) {
      TagIsInk(ms[0]);
    } else {
      BlockLeavesInk(ms[1..]);
    }
    PrintHead(ms);
    InkIsKept(PrintMark(ms[0]), PrintMarks(ms[1..]));
  }

  /** A later tag on the same line keeps an earlier one from standing alone. */
  lemma InkAhead(t: string, start: nat, next: nat, rest: string)
    requires OneLine(t) && start <= next && next + |rest| == |t| && WrittenAt(t, next, rest) && !AllBlank(rest)
    ensures StandaloneEnd(t, start, next).None?
  {
    WrittenSlice(t, next, rest);
    assert SkipBlank(t, next) < |t|;
  }

  /** On one line no condition on the tags is left, whatever the padding. */
  lemma OneLinePaddedRoundTrip(ns: seq<Node>, ms: seq<Mark>, maxDepth: int)
    requires Unpadded(ms) == Flatten(ns) && WritableMarks(ms) && Shallow(Depth(ns), maxDepth)
    requires OneLine(PrintMarks(ms))
    ensures Parse(PrintMarks(ms), maxDepth) == Ok(ns)
  {
    FlattenIsBracketed(ns);
    OneLineNoneStandalone(PrintMarks(ms), 0, ms);
    PrintPaddedThenParse(ns, ms, maxDepth);
  }

  /** Parsing inverts printing on every tree written on one line. */
  lemma OneLineRoundTrip(ns: seq<Node>, maxDepth: int)
    requires Writable(Flatten(ns)) && Shallow(Depth(ns), maxDepth) && OneLine(Print(ns))
    ensures Parse(Print(ns), maxDepth) == Ok(ns)
  {
    PrintIsTokens(ns);
    assert Unpadded(Plain(Flatten(ns))) == Flatten(ns);
    OneLinePaddedRoundTrip(ns, Plain(Flatten(ns)), maxDepth);
  }
}
