/**
 * The grammar of templates, twice: as the stack machine the parser runs, and as the flattening of
 * a tree to the token string it is written with. The main result says the two agree: the machine
 * accepts a token string exactly when it is the flattening of a tree within the depth limit, and
 * then it returns that tree.
 */
module TemplateGrammar {
  import opened Prelude
  import opened TemplateSyntax
  import opened TemplateLexer

  datatype Token =
    | TextToken(text: string)
    | VarToken(name: string)
    | OpenToken(name: string, inverted: bool)
    | CloseToken(name: string)

  datatype Located = Located(token: Token, line: nat)

  // ----- the tokens of a template -----

  function TextTokens(s: string, line: nat): seq<Located> {
    if s == [] then [] else [Located(TextToken(s), line)]
  }

  function TagTokens(tag: Tag, line: nat): seq<Located> {
    match tag
    case Comment => []
    case VarTag(n) => [Located(VarToken(n), line)]
    case OpenTag(n, inv) => [Located(OpenToken(n, inv), line)]
    case CloseTag(n) => [Located(CloseToken(n), line)]
  }

  function LexemeTokens(l: Lexeme): seq<Located> {
    TextTokens(l.before, l.line) + TagTokens(l.tag, l.line)
  }

  function Tokens(ls: seq<Lexeme>): seq<Located> {
    if ls == [] then [] else LexemeTokens(ls[0]) + Tokens(ls[1..])
  }

  function EndingTokens(e: Ending): seq<Located> {
    if e.Rest? then TextTokens(e.text, 1) else []
  }

  function TemplateTokens(t: string): seq<Located> {
    var l := Lex(t, 0);
    Tokens(l.lexemes) + EndingTokens(l.ending)
  }

  function Kinds(ts: seq<Located>): (ks: seq<Token>)
    ensures |ks| == |ts| && forall i :: 0 <= i < |ts| ==> ks[i] == ts[i].token
  {
    seq(|ts|, i requires 0 <= i < |ts| => ts[i].token)
  }

  // ----- the stack machine -----

  /** An open section: its tag and the siblings read before it. */
  datatype Frame = Frame(name: string, inverted: bool, line: nat, before: seq<Node>)

  /** The open sections, outermost first, and the nodes read so far in the innermost one. */
  datatype Machine = Machine(open: seq<Frame>, body: seq<Node>)

  const START := Machine([], [])

  function Step(m: Machine, t: Located, maxDepth: int): Result<Machine, ParseError> {
    match t.token
    case TextToken(s) => Ok(Machine(m.open, m.body + [Text(s)]))
    case VarToken(n) => Ok(Machine(m.open, m.body + [Var(n)]))
    case OpenToken(n, inv) =>
      if |m.open| >= maxDepth then Err(TooDeep(t.line))
      else Ok(Machine(m.open + [Frame(n, inv, t.line, m.body)], []))
    case CloseToken(n) =>
      if m.open == [] then Err(CloseUnopened(n, t.line))
      else
        var top := m.open[|m.open| - 1];
        if top.name != n then Err(CloseMismatch(n, top.name, top.line, t.line))
        else Ok(Machine(m.open[..|m.open| - 1], top.before + [Section(n, top.inverted, m.body)]))
  }

  function Run(m: Machine, ts: seq<Located>, maxDepth: int): Result<Machine, ParseError>
    decreases |ts|
  {
    if ts == [] then Ok(m)
    else
      match Step(m, ts[0], maxDepth)
      case Err(e) => Err(e)
      case Ok(m') => Run(m', ts[1..], maxDepth)
  }

  lemma {:induction false} RunAppend(m: Machine, a: seq<Located>, b: seq<Located>, maxDepth: int)
    ensures Run(m, a + b, maxDepth)
         == (match Run(m, a, maxDepth) case Err(e) => Err(e) case Ok(m') => Run(m', b, maxDepth))
    decreases |a|
  {
    if a == [] {
      assert a + b == b;
    } else {
      assert (a + b)[0] == a[0] && (a + b)[1..] == a[1..] + b;
      var s := Step(m, a[0], maxDepth);
      if s.Ok? {
        RunAppend(s.value, a[1..], b, maxDepth);
      }
    }
  }

  function TextNodes(text: string): seq<Node> {
    if text == [] then [] else [Text(text)]
  }

  /** The verdict once the scan has ended. */
  function Finish(m: Machine, ending: Ending): Result<seq<Node>, ParseError> {
    match ending
    case Bad(e) => Err(e)
    case Rest(text) =>
      if m.open == [] then Ok(m.body + TextNodes(text))
      else
        var top := m.open[|m.open| - 1];
        Err(Unclosed(top.name, top.line))
  }

  /** The verdict on a template, in the order the parser meets the errors. */
  function ParseFrom(m: Machine, l: Lexed, maxDepth: int): Result<seq<Node>, ParseError> {
    match Run(m, Tokens(l.lexemes), maxDepth)
    case Err(e) => Err(e)
    case Ok(m') => Finish(m', l.ending)
  }

  /** Reading one lexeme first: its text, then its tag. */
  lemma ParseFromStep(m: Machine, l: Lexeme, rest: Lexed, maxDepth: int)
    ensures ParseFrom(m, Lexed([l] + rest.lexemes, rest.ending), maxDepth)
         == (match Run(m, LexemeTokens(l), maxDepth)
             case Err(e) => Err(e)
             case Ok(m') => ParseFrom(m', rest, maxDepth))
  {
    assert ([l] + rest.lexemes)[1..] == rest.lexemes;
    RunAppend(m, LexemeTokens(l), Tokens(rest.lexemes), maxDepth);
  }

  function TagStep(m: Machine, tag: Tag, line: nat, maxDepth: int): Result<Machine, ParseError> {
    if tag.Comment? then Ok(m) else Step(m, TagTokens(tag, line)[0], maxDepth)
  }

  /** The tag step taken after the text of a lexeme. */
  lemma RunLexeme(m: Machine, l: Lexeme, maxDepth: int)
    ensures Run(m, LexemeTokens(l), maxDepth)
         == TagStep(Machine(m.open, m.body + TextNodes(l.before)), l.tag, l.line, maxDepth)
  {
    var texted := Machine(m.open, m.body + TextNodes(l.before));
    assert Run(m, TextTokens(l.before, l.line), maxDepth) == Ok(texted) by {
      if l.before == [] {
        assert m.body + [] == m.body;
      } else {
        RunOne(m, TextTokens(l.before, l.line), maxDepth);
      }
    }
    RunAppend(m, TextTokens(l.before, l.line), TagTokens(l.tag, l.line), maxDepth);
    if !l.tag.Comment? {
      RunOne(texted, TagTokens(l.tag, l.line), maxDepth);
    }
  }

  function Parse(t: string, maxDepth: int): Result<seq<Node>, ParseError> {
    ParseFrom(START, Lex(t, 0), maxDepth)
  }

  // ----- the flattening of a tree -----

  function FlattenNode(n: Node): seq<Token> {
    match n
    case Text(s) => [TextToken(s)]
    case Var(name) => [VarToken(name)]
    case Section(name, inv, body) => [OpenToken(name, inv)] + Flatten(body) + [CloseToken(name)]
  }

  function Flatten(ns: seq<Node>): seq<Token> {
    if ns == [] then [] else FlattenNode(ns[0]) + Flatten(ns[1..])
  }

  lemma {:induction false} FlattenAppend(a: seq<Node>, b: seq<Node>)
    ensures Flatten(a + b) == Flatten(a) + Flatten(b)
  {
    if a == [] {
      assert a + b == b;
    } else {
      assert (a + b)[0] == a[0] && (a + b)[1..] == a[1..] + b;
      FlattenAppend(a[1..], b);
    }
  }

  lemma FlattenSnoc(a: seq<Node>, n: Node)
    ensures Flatten(a + [n]) == Flatten(a) + FlattenNode(n)
  {
    FlattenAppend(a, [n]);
    assert Flatten([n]) == FlattenNode(n) + Flatten([]);
  }

  // ----- soundness: what the machine has built is what it has read -----

  /** The tokens a machine has consumed, read off its state. */
  function Consumed(open: seq<Frame>, body: seq<Node>): seq<Token> {
    if open == [] then Flatten(body)
    else
      var top := open[|open| - 1];
      Consumed(open[..|open| - 1], top.before) + [OpenToken(top.name, top.inverted)] + Flatten(body)
  }

  predicate Shallow(depth: nat, limit: int) {
    depth == 0 || depth <= limit
  }

  predicate WithinDepth(m: Machine, maxDepth: int) {
    && Shallow(|m.open|, maxDepth)
    && (forall k :: 0 <= k < |m.open| ==> Shallow(k + Depth(m.open[k].before), maxDepth))
    && Shallow(|m.open| + Depth(m.body), maxDepth)
  }

  lemma StepConsumes(m: Machine, t: Located, maxDepth: int)
    requires Step(m, t, maxDepth).Ok?
    ensures var m' := Step(m, t, maxDepth).value;
            Consumed(m'.open, m'.body) == Consumed(m.open, m.body) + [t.token]
  {
    var m' := Step(m, t, maxDepth).value;
    match t.token
    case TextToken(s) => FlattenSnoc(m.body, Text(s));
    case VarToken(n) => FlattenSnoc(m.body, Var(n));
    case OpenToken(n, inv) => assert m'.open[..|m'.open| - 1] == m.open;
    case CloseToken(n) =>
      var top := m.open[|m.open| - 1];
      FlattenSnoc(top.before, Section(n, top.inverted, m.body));
      ConsumedAppend(m'.open, top.before, FlattenNode(Section(n, top.inverted, m.body)), m'.body);
  }

  lemma ConsumedAppend(open: seq<Frame>, body: seq<Node>, extra: seq<Token>, body': seq<Node>)
    requires Flatten(body') == Flatten(body) + extra
    ensures Consumed(open, body') == Consumed(open, body) + extra
  {
  }

  lemma StepStaysShallow(m: Machine, t: Located, maxDepth: int)
    requires WithinDepth(m, maxDepth) && Step(m, t, maxDepth).Ok?
    ensures WithinDepth(Step(m, t, maxDepth).value, maxDepth)
  {
    match t.token
    case TextToken(s) => LeafStaysShallow(m, Text(s), maxDepth);
    case VarToken(n) => LeafStaysShallow(m, Var(n), maxDepth);
    case OpenToken(n, inv) =>
      OpenStaysShallow(m, Frame(n, inv, t.line, m.body), maxDepth);
    case CloseToken(n) => CloseStaysShallow(m, m.open[|m.open| - 1], n, maxDepth);
    hide WithinDepth;
  }

  lemma OpenStaysShallow(m: Machine, f: Frame, maxDepth: int)
    requires WithinDepth(m, maxDepth) && f.before == m.body && |m.open| < maxDepth
    ensures WithinDepth(Machine(m.open + [f], []), maxDepth)
  {
    assert Depth([]) == 0;
  }

  lemma LeafStaysShallow(m: Machine, n: Node, maxDepth: int)
    requires WithinDepth(m, maxDepth) && !n.Section?
    ensures WithinDepth(Machine(m.open, m.body + [n]), maxDepth)
  {
    DepthAppend(m.body, [n]);
    assert Depth([n]) == 0;
  }

  lemma CloseStaysShallow(m: Machine, top: Frame, n: string, maxDepth: int)
    requires WithinDepth(m, maxDepth) && |m.open| > 0 && top == m.open[|m.open| - 1]
    ensures WithinDepth(Machine(m.open[..|m.open| - 1], top.before + [Section(n, top.inverted, m.body)]), maxDepth)
  {
    DepthAppend(top.before, [Section(n, top.inverted, m.body)]);
    assert Depth([Section(n, top.inverted, m.body)]) == 1 + Depth(m.body);
  }

  lemma {:induction false} RunConsumes(m: Machine, ts: seq<Located>, maxDepth: int)
    requires Run(m, ts, maxDepth).Ok?
    ensures var m' := Run(m, ts, maxDepth).value;
            Consumed(m'.open, m'.body) == Consumed(m.open, m.body) + Kinds(ts)
    decreases |ts|
  {
    if ts != [] {
      StepConsumes(m, ts[0], maxDepth);
      RunConsumes(Step(m, ts[0], maxDepth).value, ts[1..], maxDepth);
      assert Kinds(ts) == [ts[0].token] + Kinds(ts[1..]);
    }
  }

  lemma {:induction false} RunStaysShallow(m: Machine, ts: seq<Located>, maxDepth: int)
    requires WithinDepth(m, maxDepth) && Run(m, ts, maxDepth).Ok?
    ensures WithinDepth(Run(m, ts, maxDepth).value, maxDepth)
    decreases |ts|
  {
    if ts != [] {
      StepStaysShallow(m, ts[0], maxDepth);
      RunStaysShallow(Step(m, ts[0], maxDepth).value, ts[1..], maxDepth);
    }
  }

  // ----- completeness: the machine rebuilds any flattened tree -----

  lemma {:induction false} RunNode(m: Machine, n: Node, ts: seq<Located>, maxDepth: int)
    requires Kinds(ts) == FlattenNode(n)
    requires n.Section? ==> |m.open| + 1 + Depth(n.body) <= maxDepth
    ensures Run(m, ts, maxDepth) == Ok(Machine(m.open, m.body + [n]))
    decreases n, 1
  {
    match n
    case Text(s) => assert ts == [Located(TextToken(s), ts[0].line)];
    case Var(s) => assert ts == [Located(VarToken(s), ts[0].line)];
    case Section(name, inv, body) =>
      var start, rest := SplitKinds(ts, [OpenToken(name, inv)], Flatten(body) + [CloseToken(name)]);
      var inner, end := SplitKinds(rest, Flatten(body), [CloseToken(name)]);
      assert start[0].token == OpenToken(name, inv) && end[0].token == CloseToken(name);
      var open := m.open + [Frame(name, inv, start[0].line, m.body)];
      RunFlatten(Machine(open, []), body, inner, maxDepth);
      assert [] + body == body;
      hide *;
      RunEnclosed(m, name, inv, body, start, inner, end, maxDepth);
  }

  /** An opening tag, the tokens of the body and the closing tag add one section. */
  lemma RunEnclosed(m: Machine, name: string, inv: bool, body: seq<Node>, start: seq<Located>, inner: seq<Located>,
                    end: seq<Located>, maxDepth: int)
    requires |start| == 1 && start[0].token == OpenToken(name, inv) && |end| == 1 && end[0].token == CloseToken(name)
    requires var open := m.open + [Frame(name, inv, start[0].line, m.body)];
             |m.open| < maxDepth && Run(Machine(open, []), inner, maxDepth) == Ok(Machine(open, body))
    ensures Run(m, start + (inner + end), maxDepth) == Ok(Machine(m.open, m.body + [Section(name, inv, body)]))
  {
    var open := m.open + [Frame(name, inv, start[0].line, m.body)];
    assert open[..|m.open|] == m.open;
    assert Step(m, start[0], maxDepth) == Ok(Machine(open, []));
    assert Step(Machine(open, body), end[0], maxDepth) == Ok(Machine(m.open, m.body + [Section(name, inv, body)]));
    hide *;
    RunOne(m, start, maxDepth);
    RunOne(Machine(open, body), end, maxDepth);
    RunAppend(Machine(open, []), inner, end, maxDepth);
    RunAppend(m, start, inner + end, maxDepth);
  }

  lemma {:induction false} RunFlatten(m: Machine, ns: seq<Node>, ts: seq<Located>, maxDepth: int)
    requires Kinds(ts) == Flatten(ns)
    requires Depth(ns) == 0 || |m.open| + Depth(ns) <= maxDepth
    ensures Run(m, ts, maxDepth) == Ok(Machine(m.open, m.body + ns))
    decreases ns, 0
  {
    if ns == [] {
      assert ts == [] && m.body + ns == m.body;
    } else {
      var first, rest := SplitKinds(ts, FlattenNode(ns[0]), Flatten(ns[1..]));
      RunAppend(m, first, rest, maxDepth);
      RunNode(m, ns[0], first, maxDepth);
      RunFlatten(Machine(m.open, m.body + [ns[0]]), ns[1..], rest, maxDepth);
      assert m.body + [ns[0]] + ns[1..] == m.body + ns;
    }
  }

  lemma RunOne(m: Machine, ts: seq<Located>, maxDepth: int)
    requires |ts| == 1
    ensures Run(m, ts, maxDepth) == Step(m, ts[0], maxDepth)
  {
  }

  lemma SplitKinds(ts: seq<Located>, a: seq<Token>, b: seq<Token>) returns (first: seq<Located>, rest: seq<Located>)
    requires Kinds(ts) == a + b
    ensures ts == first + rest && Kinds(first) == a && Kinds(rest) == b
  {
    first, rest := ts[..|a|], ts[|a|..];
    assert Kinds(first) == Kinds(ts)[..|a|] && Kinds(rest) == Kinds(ts)[|a|..];
  }

  // ----- the two descriptions agree -----

  /** Parsing is running the machine over all tokens, the trailing text included. */
  lemma ParseRuns(t: string, maxDepth: int)
    requires WellFormed(t)
    ensures Parse(t, maxDepth).Ok? <==>
              Run(START, TemplateTokens(t), maxDepth).Ok? && Run(START, TemplateTokens(t), maxDepth).value.open == []
    ensures Parse(t, maxDepth).Ok? ==> Parse(t, maxDepth).value == Run(START, TemplateTokens(t), maxDepth).value.body
  {
    var l := Lex(t, 0);
    var tail := TextTokens(l.ending.text, 1);
    RunAppend(START, Tokens(l.lexemes), tail, maxDepth);
    if Run(START, Tokens(l.lexemes), maxDepth).Ok? {
      var m := Run(START, Tokens(l.lexemes), maxDepth).value;
      if tail == [] {
        assert m.body + [] == m.body;
      } else {
        assert Run(m, tail, maxDepth) == Ok(Machine(m.open, m.body + [Text(l.ending.text)]));
      }
    }
  }

  /**
   * The parser accepts exactly the templates whose tags are well formed and whose tokens flatten
   * a tree no deeper than the limit, and it returns that tree.
   */
  lemma ParseIsGrammar(t: string, maxDepth: int, ns: seq<Node>)
    ensures Parse(t, maxDepth) == Ok(ns) <==>
              WellFormed(t) && Kinds(TemplateTokens(t)) == Flatten(ns) && Shallow(Depth(ns), maxDepth)
  {
    if WellFormed(t) {
      ParseRuns(t, maxDepth);
      if Parse(t, maxDepth) == Ok(ns) {
        RunsToTree(TemplateTokens(t), maxDepth);
      }
      if Kinds(TemplateTokens(t)) == Flatten(ns) && Shallow(Depth(ns), maxDepth) {
        RunFlatten(START, ns, TemplateTokens(t), maxDepth);
        assert [] + ns == ns;
      }
    }
  }

  lemma RunsToTree(ts: seq<Located>, maxDepth: int)
    requires Run(START, ts, maxDepth).Ok? && Run(START, ts, maxDepth).value.open == []
    ensures var ns := Run(START, ts, maxDepth).value.body; Kinds(ts) == Flatten(ns) && Shallow(Depth(ns), maxDepth)
  {
    RunConsumes(START, ts, maxDepth);
    RunStaysShallow(START, ts, maxDepth);
    assert Consumed([], []) == [];
  }

  /** Raising the limit never changes the tree of a template that already parses. */
  lemma LimitOnlyRejects(t: string, low: int, high: int)
    requires low <= high && Parse(t, low).Ok?
    ensures Parse(t, high) == Parse(t, low)
  {
    ParseIsGrammar(t, low, Parse(t, low).value);
    ParseIsGrammar(t, high, Parse(t, low).value);
  }
}
