/**
 * The parser as it runs: one pass, an incremental line counter, and a stack whose entries alias
 * node lists already placed in the tree. It is proved to compute `TemplateGrammar.Parse`.
 */
module TemplateParser {
  import opened Prelude
  import opened TemplateSyntax
  import opened TemplateLexer
  import opened TemplateGrammar

  /** A list of sibling nodes that later pushes still extend. */
  class NodeList {
    var items: seq<Item>
    ghost const depth: nat

    constructor (ghost depth: nat)
      ensures items == [] && this.depth == depth
    {
      items := [];
      this.depth := depth;
    }
  }

  datatype Item =
    | TextItem(text: string)
    | VarItem(name: string)
    | SectionItem(name: string, inverted: bool, body: NodeList)

  datatype OpenSection = OpenSection(name: string, line: nat, body: NodeList)

  /** The items read as the nodes `ns`; every nested list is one of `closed`. */
  ghost predicate Denote(items: seq<Item>, ns: seq<Node>, closed: set<NodeList>)
    reads closed
    decreases ns, 1
  {
    |items| == |ns| && forall i :: 0 <= i < |items| ==> DenotesNode(items[i], ns[i], closed)
  }

  ghost predicate DenotesNode(item: Item, n: Node, closed: set<NodeList>)
    reads closed
    decreases n, 0
  {
    match item
    case TextItem(s) => n == Text(s)
    case VarItem(name) => n == Var(name)
    case SectionItem(name, inv, list) =>
      && n.Section? && n.name == name && n.inverted == inv
      && list in closed && Denote(list.items, n.body, closed)
  }

  lemma {:induction false} DenoteMore(items: seq<Item>, ns: seq<Node>, closed: set<NodeList>, more: set<NodeList>)
    requires Denote(items, ns, closed) && closed <= more
    ensures Denote(items, ns, more)
    decreases ns, 1
  {
    forall i | 0 <= i < |items| ensures DenotesNode(items[i], ns[i], more) {
      if ns[i].Section? {
        DenoteMore(items[i].body.items, ns[i].body, closed, more);
      }
    }
  }

  lemma DenoteSnoc(items: seq<Item>, ns: seq<Node>, item: Item, n: Node, closed: set<NodeList>)
    requires Denote(items, ns, closed) && DenotesNode(item, n, closed)
    ensures Denote(items + [item], ns + [n], closed)
  {
  }

  /** `items` holds the nodes before an open section, then that section itself. */
  ghost predicate Level(items: seq<Item>, section: OpenSection, frame: Frame, closed: set<NodeList>)
    reads closed
  {
    && section.name == frame.name && section.line == frame.line
    && |items| > 0
    && items[|items| - 1] == SectionItem(frame.name, frame.inverted, section.body)
    && Denote(items[..|items| - 1], frame.before, closed)
  }

  lemma LevelMore(items: seq<Item>, section: OpenSection, frame: Frame, closed: set<NodeList>, more: set<NodeList>)
    requires Level(items, section, frame, closed) && closed <= more
    ensures Level(items, section, frame, more)
  {
    DenoteMore(items[..|items| - 1], frame.before, closed, more);
  }

  /** Finishing the section at the end of `items` turns the whole list into nodes. */
  lemma LevelCloses(items: seq<Item>, section: OpenSection, frame: Frame, body: seq<Node>, closed: set<NodeList>)
    requires Level(items, section, frame, closed) && section.body in closed && Denote(section.body.items, body, closed)
    ensures Denote(items, frame.before + [Section(frame.name, frame.inverted, body)], closed)
  {
    var last := items[|items| - 1];
    DenoteSnoc(items[..|items| - 1], frame.before, last, Section(frame.name, frame.inverted, body), closed);
    assert items == items[..|items| - 1] + [last];
  }

  ghost predicate Levels(lists: seq<NodeList>, open: seq<OpenSection>, frames: seq<Frame>, closed: set<NodeList>)
    requires |lists| == |open| + 1 == |frames| + 1
    reads lists, closed
  {
    forall k :: 0 <= k < |open| ==> Level(lists[k].items, open[k], frames[k], closed)
  }

  // ----- line bookkeeping -----

  class LineCounter {
    const template: string
    var counted: nat
    var line: nat
    var lineStart: nat
    ghost var steps: nat

    /** The counters always equal the naive count from the start, at one step a character. */
    ghost predicate Valid()
      reads this
    {
      && counted <= |template|
      && line == LineNo(template, counted)
      && lineStart == LineStart(template, counted)
      && steps == counted
    }

    constructor (t: string)
      ensures Valid() && template == t && counted == 0
    {
      template := t;
      counted, line, lineStart, steps := 0, 1, 0, 0;
    }

    method AdvanceTo(index: nat)
      requires Valid() && counted <= index <= |template|
      modifies this
      ensures Valid() && counted == index
    {
      var i := counted;
      while i < index
        invariant counted <= i <= index && counted == old(counted)
        invariant line == LineNo(template, i) && lineStart == LineStart(template, i)
        invariant steps == i
      {
        if template[i] == '\n' {
          line := line + 1;
          lineStart := i + 1;
        }
        i, steps := i + 1, steps + 1;
      }
      counted := index;
    }
  }

  // ----- the tree under construction -----

  /**
   * `lists` are the root and the lists of the open sections, distinct and still growing; with the
   * finished lists `closed` they hold exactly what the stack machine has built.
   */
  ghost predicate Built(lists: seq<NodeList>, open: seq<OpenSection>, m: Machine, closed: set<NodeList>)
    reads lists, closed
  {
    && |lists| == |open| + 1 == |m.open| + 1
    && (forall k :: 0 <= k < |open| ==> lists[k + 1] == open[k].body)
    && (forall k :: 0 <= k < |lists| ==> lists[k].depth == k && lists[k] !in closed)
    && Levels(lists, open, m.open, closed)
    && Denote(lists[|open|].items, m.body, closed)
  }

  method PushItem(list: NodeList, item: Item, ghost n: Node, ghost lists: seq<NodeList>,
                  ghost open: seq<OpenSection>, ghost m: Machine, ghost closed: set<NodeList>)
    requires Built(lists, open, m, closed) && list == lists[|open|] && DenotesNode(item, n, closed)
    modifies list
    ensures Built(lists, open, Machine(m.open, m.body + [n]), closed)
  {
    hide Denote, DenotesNode;
    DenoteSnoc(list.items, m.body, item, n, closed);
    list.items := list.items + [item];
  }

  method PushText(list: NodeList, text: string, ghost lists: seq<NodeList>,
                  ghost open: seq<OpenSection>, ghost m: Machine, ghost closed: set<NodeList>)
    requires Built(lists, open, m, closed) && list == lists[|open|]
    modifies list
    ensures Built(lists, open, Machine(m.open, m.body + TextNodes(text)), closed)
  {
    if text != [] {
      PushItem(list, TextItem(text), Text(text), lists, open, m, closed);
    } else {
      assert m.body + [] == m.body;
    }
  }

  /** A section tag: the new list is a node of its parent and the top of the stack at once. */
  method PushSection(list: NodeList, section: OpenSection, inverted: bool, ghost lists: seq<NodeList>,
                     ghost open: seq<OpenSection>, ghost m: Machine, ghost closed: set<NodeList>)
    requires Built(lists, open, m, closed) && list == lists[|open|]
    requires section.body.items == [] && section.body.depth == |lists| && section.body !in closed
    modifies list
    ensures var frame := Frame(section.name, inverted, section.line, m.body);
            Built(lists + [section.body], open + [section], Machine(m.open + [frame], []), closed)
  {
    assert Denote([], [], closed);
    hide Denote, DenotesNode;
    ghost var before, frame := list.items, Frame(section.name, inverted, section.line, m.body);
    list.items := list.items + [SectionItem(section.name, inverted, section.body)];
    assert list.items[..|list.items| - 1] == before;
    assert Level(list.items, section, frame, closed);
    assert Levels(lists, open, m.open, closed);
  }

  /** A matching closing tag: the innermost list is finished and stays where it was placed. */
  lemma CloseInnermost(lists: seq<NodeList>, open: seq<OpenSection>, m: Machine, closed: set<NodeList>)
    requires Built(lists, open, m, closed) && open != []
    ensures var top := m.open[|open| - 1];
            Built(lists[..|open|], open[..|open| - 1],
                  Machine(m.open[..|open| - 1], top.before + [Section(top.name, top.inverted, m.body)]),
                  closed + {lists[|open|]})
  {
    hide Denote, DenotesNode;
    var n := |open| - 1;
    var more := closed + {lists[n + 1]};
    DenoteMore(lists[n + 1].items, m.body, closed, more);
    forall k | 0 <= k <= n ensures Level(lists[k].items, open[k], m.open[k], more) {
      LevelMore(lists[k].items, open[k], m.open[k], closed, more);
    }
    LevelCloses(lists[n].items, open[n], m.open[n], m.body, more);
  }

  // ----- the pass -----

  /** The characters a block tag takes with it when it is alone on its line. */
  method Standalone(t: string, start: nat, next: nat, lineStart: nat) returns (eol: Option<nat>)
    requires start <= next <= |t| && lineStart == LineStart(t, start)
    ensures eol == StandaloneEnd(t, start, next)
  {
    var after := next;
    while after < |t| && IsBlank(t[after])
      invariant next <= after <= |t| && SkipBlank(t, next) == SkipBlank(t, after)
    {
      after := after + 1;
    }
    eol := None;
    if after >= |t| {
      eol := Some(after);
    } else if t[after] == '\n' {
      eol := Some(after + 1);
    } else if t[after] == '\r' && after + 1 < |t| && t[after + 1] == '\n' {
      eol := Some(after + 2);
    }
    if !AllBlank(t[lineStart..start]) {
      eol := None;
    }
  }

  /** What the scan finds next: only text, a malformed tag, or text and a tag. */
  datatype Scan =
    | TextOnly(text: string)
    | Malformed(error: ParseError)
    | TextAndTag(before: string, tag: Tag, line: nat, resume: nat)

  /** `s` is the first step of the scan of `t` from `pos`. */
  ghost predicate Scans(t: string, pos: nat, s: Scan) {
    && Resumable(t, pos)
    && match FindPair(t, '{', pos)
       case None => s == TextOnly(t[pos..])
       case Some(start) =>
         match ReadTag(t, start)
         case Err(e) => s == Malformed(e)
         case Ok((tag, next)) =>
           var (lexeme, resume) := NextLexeme(t, pos, start, tag, next);
           s == TextAndTag(lexeme.before, tag, LineNo(t, start), resume) && Resumable(t, resume)
  }

  /** The tokens up to `pos` have brought the machine to `m`. */
  ghost predicate Reached(t: string, pos: nat, m: Machine, maxDepth: int) {
    Resumable(t, pos) && ParseFrom(m, Lex(t, pos), maxDepth) == TemplateGrammar.Parse(t, maxDepth)
  }

  /** After a tag the machine has made its step, or its error is the parser's verdict. */
  ghost predicate Taken(t: string, s: Scan, m: Machine, maxDepth: int)
    requires s.TextAndTag?
  {
    match TagStep(Machine(m.open, m.body + TextNodes(s.before)), s.tag, s.line, maxDepth)
    case Err(e) => TemplateGrammar.Parse(t, maxDepth) == Err(e)
    case Ok(m') => Reached(t, s.resume, m', maxDepth)
  }

  /** One step of the scan is one step of the machine. */
  lemma ScanSteps(t: string, pos: nat, s: Scan, m: Machine, maxDepth: int)
    requires Reached(t, pos, m, maxDepth) && Scans(t, pos, s)
    ensures s.TextOnly? ==> TemplateGrammar.Parse(t, maxDepth) == Finish(m, Rest(s.text))
    ensures s.Malformed? ==> TemplateGrammar.Parse(t, maxDepth) == Err(s.error)
    ensures s.TextAndTag? ==> pos < s.resume <= |t| && Taken(t, s, m, maxDepth)
  {
    if s.TextAndTag? {
      var start := FindPair(t, '{', pos).value;
      var (tag, next) := ReadTag(t, start).value;
      var (lexeme, resume) := NextLexeme(t, pos, start, tag, next);
      ParseFromStep(m, lexeme, Lex(t, resume), maxDepth);
      RunLexeme(m, lexeme, maxDepth);
    }
  }

  method ScanNext(t: string, pos: nat, counter: LineCounter) returns (s: Scan)
    requires Resumable(t, pos) && counter.template == t && counter.Valid() && counter.counted <= pos
    modifies counter
    ensures Scans(t, pos, s)
    ensures counter.Valid() && (s.TextAndTag? ==> counter.counted <= s.resume)
  {
    hide LineStart, LineNo, Classify, NextLexeme;
    var found := FindPair(t, '{', pos);
    if found.None? {
      return TextOnly(t[pos..]);
    }
    var start := found.value;
    var end := FindPair(t, '}', start + 2);
    counter.AdvanceTo(start);
    var line := counter.line;
    if end.None? {
      return Malformed(NeverClosed(line));
    }
    var classified := Classify(t[start + 2..end.value], line);
    if classified.Err? {
      return Malformed(classified.error);
    }
    var before, resume := Extent(t, pos, start, classified.value, end.value + 2, counter.lineStart);
    return TextAndTag(before, classified.value, line, resume);
  }

  /** The text before a tag, and where the scan resumes after it. */
  method Extent(t: string, pos: nat, start: nat, tag: Tag, next: nat, lineStart: nat)
    returns (before: string, resume: nat)
    requires Resumable(t, pos) && pos <= start < next <= |t| && PairAt(t, '{', start) && PairAt(t, '}', next - 2)
    requires lineStart == LineStart(t, start)
    ensures before == NextLexeme(t, pos, start, tag, next).0.before
    ensures resume == NextLexeme(t, pos, start, tag, next).1 && Resumable(t, resume) && start < resume
  {
    ResumesAtResumable(t, pos, start, tag, next);
    hide NextLexeme;
    if !tag.VarTag? {
      var eol := Standalone(t, start, next, lineStart);
      if eol.Some? {
        StandaloneLexeme(t, pos, start, tag, next, eol.value);
        return t[pos..lineStart], eol.value;
      }
    }
    PlainLexeme(t, pos, start, tag, next);
    return t[pos..start], next;
  }

  lemma PlainLexeme(t: string, pos: nat, start: nat, tag: Tag, next: nat)
    requires pos <= start < next <= |t|
    requires tag.VarTag? || StandaloneEnd(t, start, next).None?
    ensures NextLexeme(t, pos, start, tag, next).0.before == t[pos..start]
    ensures NextLexeme(t, pos, start, tag, next).1 == next
  {
  }

  lemma StandaloneLexeme(t: string, pos: nat, start: nat, tag: Tag, next: nat, eol: nat)
    requires Resumable(t, pos) && pos <= start < next <= |t| && PairAt(t, '{', start)
    requires !tag.VarTag? && StandaloneEnd(t, start, next) == Some(eol)
    ensures pos <= LineStart(t, start)
    ensures NextLexeme(t, pos, start, tag, next).0.before == t[pos..LineStart(t, start)]
    ensures NextLexeme(t, pos, start, tag, next).1 == eol
  {
    StandaloneLineIsAhead(t, pos, start);
  }

  /** The list that pushes go to. */
  function Innermost(root: NodeList, open: seq<OpenSection>): NodeList {
    if open == [] then root else open[|open| - 1].body
  }

  /** What one tag does to the tree and to the stack of open sections. */
  method Apply(root: NodeList, open: seq<OpenSection>, tag: Tag, line: nat, maxDepth: int,
               ghost lists: seq<NodeList>, ghost m: Machine, ghost closed: set<NodeList>)
    returns (r: Result<seq<OpenSection>, ParseError>, ghost lists': seq<NodeList>, ghost closed': set<NodeList>)
    requires Built(lists, open, m, closed) && lists[0] == root
    modifies lists[|open|]
    ensures match TagStep(m, tag, line, maxDepth)
            case Err(e) => r == Err(e)
            case Ok(m') => r.Ok? && Built(lists', r.value, m', closed') && lists'[0] == root
    ensures closed' <= closed + {lists[|open|]}
    ensures forall k :: 0 <= k < |lists'| ==> fresh(lists'[k]) || (k < |lists| && lists'[k] == lists[k])
  {
    lists', closed' := lists, closed;
    var body := Innermost(root, open);
    assert body == lists[|open|];
    match tag
    case Comment =>
      r := Ok(open);
    case VarTag(name) =>
      PushItem(body, VarItem(name), Var(name), lists, open, m, closed);
      r := Ok(open);
    case OpenTag(name, inverted) =>
      if |open| >= maxDepth {
        return Err(TooDeep(line)), lists, closed;
      }
      var list := new NodeList(|lists|);
      PushSection(body, OpenSection(name, line, list), inverted, lists, open, m, closed);
      lists' := lists + [list];
      r := Ok(open + [OpenSection(name, line, list)]);
    case CloseTag(name) =>
      if open == [] {
        return Err(CloseUnopened(name, line)), lists, closed;
      }
      var current := open[|open| - 1];
      if current.name != name {
        return Err(CloseMismatch(name, current.name, current.line, line)), lists, closed;
      }
      CloseInnermost(lists, open, m, closed);
      lists', closed' := lists[..|open|], closed + {body};
      r := Ok(open[..|open| - 1]);
  }

  method Accept(root: NodeList, open: seq<OpenSection>, before: string, tag: Tag, line: nat, maxDepth: int,
                ghost lists: seq<NodeList>, ghost m: Machine, ghost closed: set<NodeList>)
    returns (r: Result<seq<OpenSection>, ParseError>, ghost lists': seq<NodeList>, ghost closed': set<NodeList>)
    requires Built(lists, open, m, closed) && lists[0] == root
    modifies lists[|open|]
    ensures match TagStep(Machine(m.open, m.body + TextNodes(before)), tag, line, maxDepth)
            case Err(e) => r == Err(e)
            case Ok(m') => r.Ok? && Built(lists', r.value, m', closed') && lists'[0] == root
    ensures closed' <= closed + {lists[|open|]}
    ensures forall k :: 0 <= k < |lists'| ==> fresh(lists'[k]) || (k < |lists| && lists'[k] == lists[k])
  {
    hide Denote, Levels, TagStep;
    PushText(Innermost(root, open), before, lists, open, m, closed);
    r, lists', closed' := Apply(root, open, tag, line, maxDepth,
                                lists, Machine(m.open, m.body + TextNodes(before)), closed);
  }

  datatype Outcome = Failed(error: ParseError) | Scanned | More(open: seq<OpenSection>, pos: nat)

  /** The last turn: the text after the last tag. */
  method TakeText(t: string, maxDepth: int, root: NodeList, open: seq<OpenSection>, text: string,
                  ghost lists: seq<NodeList>, ghost m: Machine, ghost closed: set<NodeList>)
    returns (ghost m': Machine)
    requires Built(lists, open, m, closed) && lists[0] == root
    requires TemplateGrammar.Parse(t, maxDepth) == Finish(m, Rest(text))
    modifies lists[|open|]
    ensures TemplateGrammar.Parse(t, maxDepth) == Finish(m', Rest([])) && Built(lists, open, m', closed)
  {
    hide TemplateGrammar.Parse, Denote, Levels;
    PushText(Innermost(root, open), text, lists, open, m, closed);
    m' := Machine(m.open, m.body + TextNodes(text));
    assert m'.body + TextNodes([]) == m'.body;
  }

  /** A turn that finds a tag: the text before it, and what the tag does. */
  method TakeTag(t: string, maxDepth: int, root: NodeList, open: seq<OpenSection>, scan: Scan,
                 ghost lists: seq<NodeList>, ghost m: Machine, ghost closed: set<NodeList>)
    returns (o: Outcome, ghost lists': seq<NodeList>, ghost m': Machine, ghost closed': set<NodeList>)
    requires Built(lists, open, m, closed) && lists[0] == root && scan.TextAndTag?
    requires Taken(t, scan, m, maxDepth)
    modifies lists[|open|]
    ensures !o.Scanned? && (o.Failed? ==> TemplateGrammar.Parse(t, maxDepth) == Err(o.error))
    ensures o.More? ==> o.pos == scan.resume && Reached(t, o.pos, m', maxDepth) && Built(lists', o.open, m', closed')
    ensures o.More? ==> lists'[0] == root && |lists'| == |o.open| + 1
    ensures closed' <= closed + {lists[|open|]}
    ensures forall k :: 0 <= k < |lists'| ==> fresh(lists'[k]) || (k < |lists| && lists'[k] == lists[k])
  {
    hide TemplateGrammar.Parse, Reached, Denote, Levels, TagStep;
    ghost var texted := Machine(m.open, m.body + TextNodes(scan.before));
    var accepted;
    accepted, lists', closed' := Accept(root, open, scan.before, scan.tag, scan.line, maxDepth, lists, m, closed);
    if accepted.Err? {
      return Failed(accepted.error), lists, m, closed;
    }
    m' := TagStep(texted, scan.tag, scan.line, maxDepth).value;
    o := More(accepted.value, scan.resume);
  }

  /** One turn of the parser's loop. */
  method Turn(t: string, maxDepth: int, root: NodeList, open: seq<OpenSection>, pos: nat, counter: LineCounter,
              ghost lists: seq<NodeList>, ghost m: Machine, ghost closed: set<NodeList>)
    returns (o: Outcome, ghost lists': seq<NodeList>, ghost m': Machine, ghost closed': set<NodeList>)
    requires Reached(t, pos, m, maxDepth) && Built(lists, open, m, closed) && lists[0] == root
    requires counter.template == t && counter.Valid() && counter.counted <= pos
    modifies counter, lists[|open|]
    ensures o.Failed? ==> TemplateGrammar.Parse(t, maxDepth) == Err(o.error)
    ensures o.Scanned? ==>
              TemplateGrammar.Parse(t, maxDepth) == Finish(m', Rest([])) && Built(lists', open, m', closed')
    ensures o.More? ==> pos < o.pos <= |t| && Reached(t, o.pos, m', maxDepth) && Built(lists', o.open, m', closed')
    ensures o.More? ==> counter.Valid() && counter.counted <= o.pos
    ensures o.Failed? || lists'[0] == root
    ensures o.More? ==> |lists'| == |o.open| + 1
    ensures closed' <= closed + {lists[|open|]}
    ensures forall k :: 0 <= k < |lists'| ==> fresh(lists'[k]) || (k < |lists| && lists'[k] == lists[k])
  {
    lists', m', closed' := lists, m, closed;
    var scan := ScanNext(t, pos, counter);
    ScanSteps(t, pos, scan, m, maxDepth);
    hide TemplateGrammar.Parse, Finish, Reached, Scans, Taken, Denote, Levels, LineNo, LineStart;
    match scan
    case Malformed(e) =>
      o := Failed(e);
    case TextOnly(text) =>
      m' := TakeText(t, maxDepth, root, open, text, lists, m, closed);
      o := Scanned;
    case TextAndTag(_, _, _, _) =>
      o, lists', m', closed' := TakeTag(t, maxDepth, root, open, scan, lists, m, closed);
  }

  method Parse(t: string, maxDepth: int) returns (r: Result<NodeList, ParseError>, ghost closed: set<NodeList>)
    ensures match TemplateGrammar.Parse(t, maxDepth)
            case Err(e) => r == Err(e)
            case Ok(ns) => r.Ok? && fresh(r.value) && fresh(closed) && Denote(r.value.items, ns, closed)
  {
    var root := new NodeList(0);
    var open: seq<OpenSection> := [];
    var pos := 0;
    var counter := new LineCounter(t);
    ghost var m, lists := START, [root];
    closed := {};
    assert Denote(root.items, [], {}) && Reached(t, pos, m, maxDepth) && Built(lists, open, m, closed);
    hide TemplateGrammar.Parse, Reached, Denote, Built, Finish;

    while true
      invariant pos <= |t| && Reached(t, pos, m, maxDepth)
      invariant fresh(counter) && counter.template == t && counter.Valid() && counter.counted <= pos
      invariant |lists| == |open| + 1 && lists[0] == root && Built(lists, open, m, closed)
      invariant fresh(closed) && forall k :: 0 <= k < |lists| ==> fresh(lists[k])
      decreases |t| - pos
    {
      var turn;
      turn, lists, m, closed := Turn(t, maxDepth, root, open, pos, counter, lists, m, closed);
      if turn.Failed? {
        return Err(turn.error), closed;
      }
      if turn.Scanned? {
        break;
      }
      open, pos := turn.open, turn.pos;
    }
    r := CloseTemplate(root, open, lists, m, closed);
  }

  method CloseTemplate(root: NodeList, open: seq<OpenSection>, ghost lists: seq<NodeList>,
                       ghost m: Machine, ghost closed: set<NodeList>)
    returns (r: Result<NodeList, ParseError>)
    requires Built(lists, open, m, closed) && lists[0] == root
    ensures match Finish(m, Rest([]))
            case Err(e) => r == Err(e)
            case Ok(ns) => r == Ok(root) && Denote(root.items, ns, closed)
  {
    if open != [] {
      var unclosed := open[|open| - 1];
      assert Level(lists[|open| - 1].items, unclosed, m.open[|open| - 1], closed);
      return Err(Unclosed(unclosed.name, unclosed.line));
    }
    assert m.body + TextNodes([]) == m.body;
    return Ok(root);
  }
}
