/**
 * What a render says, node by node: which sections are shown, what a variable leaves, and which line
 * ends the closing pass removes. Stated on trees, and on any written form of them.
 */
module TemplateSections {
  import opened Prelude
  import opened TemplateSyntax
  import opened TemplateGrammar
  import opened TemplateRoundTrip
  import opened TemplateRender

  /** The name is bound to a non-empty string or to true. */
  predicate Shows(ctx: Context, name: string) {
    name in ctx && match ctx[name] case Str(s) => s != "" case Flag(on) => on case Null => false case Undefined => false
  }

  /** The value of a name as text; nothing for a name that is unbound, null or undefined. */
  function Written(ctx: Context, name: string): string {
    if name !in ctx then ""
    else match ctx[name] case Str(s) => s case Flag(on) => (if on then "true" else "false") case Null => ""
         case Undefined => ""
  }

  lemma {:induction false} RenderTextAppend(a: seq<Node>, b: seq<Node>, ctx: Context)
    ensures RenderText(a + b, ctx) == RenderText(a, ctx) + RenderText(b, ctx)
  {
    if a == [] {
      assert a + b == b;
    } else {
      assert (a + b)[0] == a[0] && (a + b)[1..] == a[1..] + b;
      hide NodeText;
      RenderTextAppend(a[1..], b, ctx);
    }
  }

  lemma RenderAround(a: seq<Node>, n: Node, b: seq<Node>, ctx: Context)
    ensures RenderText(a + [n] + b, ctx) == RenderText(a, ctx) + RenderText([n], ctx) + RenderText(b, ctx)
  {
    hide RenderText;
    RenderTextAppend(a + [n], b, ctx);
    RenderTextAppend(a, [n], ctx);
  }

  lemma RenderOne(n: Node, ctx: Context)
    ensures RenderText([n], ctx) == NodeText(n, ctx)
  {
    assert [n][1..] == [];
  }

  /** A section whose name is shown is its body, and an inverted one is nothing; otherwise it is the other way round. */
  lemma SectionLaw(a: seq<Node>, name: string, body: seq<Node>, b: seq<Node>, ctx: Context)
    ensures RenderText(a + [Section(name, false, body)] + b, ctx)
         == RenderText(if Shows(ctx, name) then a + body + b else a + b, ctx)
    ensures RenderText(a + [Section(name, true, body)] + b, ctx)
         == RenderText(if Shows(ctx, name) then a + b else a + body + b, ctx)
  {
    RenderSection(name, false, body, ctx);
    RenderSection(name, true, body, ctx);
    hide *;
    RenderAround(a, Section(name, false, body), b, ctx);
    RenderAround(a, Section(name, true, body), b, ctx);
    RenderTextAppend(a, b, ctx);
    RenderTextAppend(a + body, b, ctx);
    RenderTextAppend(a, body, ctx);
    assert RenderText(a, ctx) + "" == RenderText(a, ctx);
  }

  lemma RenderSection(name: string, inverted: bool, body: seq<Node>, ctx: Context)
    ensures RenderText([Section(name, inverted, body)], ctx)
         == if Shows(ctx, name) != inverted then RenderText(body, ctx) else ""
  {
    RenderOne(Section(name, inverted, body), ctx);
    hide RenderText;
  }

  /** Texts stand as they are, and a variable is replaced by its value. */
  lemma LeafLaw(a: seq<Node>, name: string, text: string, b: seq<Node>, ctx: Context)
    ensures RenderText([], ctx) == ""
    ensures RenderText(a + [Text(text)] + b, ctx) == RenderText(a, ctx) + text + RenderText(b, ctx)
    ensures RenderText(a + [Var(name)] + b, ctx) == RenderText(a, ctx) + Written(ctx, name) + RenderText(b, ctx)
  {
    RenderAround(a, Text(text), b, ctx);
    RenderAround(a, Var(name), b, ctx);
    RenderOne(Text(text), ctx);
    RenderOne(Var(name), ctx);
  }

  /** The name a tag refers to, if any; closing tags are left out. */
  function TagName(t: Token): seq<string> {
    if t.VarToken? || t.OpenToken? then [t.name] else []
  }

  /** The names the tags of a token string refer to, in order. */
  function TagNames(ts: seq<Token>): seq<string> {
    if ts == [] then [] else TagName(ts[0]) + TagNames(ts[1..])
  }

  lemma TagNamesOne(t: Token)
    ensures TagNames([t]) == TagName(t)
  {
    assert TagNames([t]) == TagName(t) + TagNames([]);
  }

  lemma {:induction false} TagNamesAppend(a: seq<Token>, b: seq<Token>)
    ensures TagNames(a + b) == TagNames(a) + TagNames(b)
  {
    hide TagName;
    if a == [] {
      assert a + b == b;
    } else {
      TagNamesAppend(a[1..], b);
      assert (a + b)[0] == a[0] && (a + b)[1..] == a[1..] + b;
      Assoc(TagName(a[0]), TagNames(a[1..]), TagNames(b));
    }
  }

  lemma Assoc(x: seq<string>, y: seq<string>, z: seq<string>)
    ensures (x + y) + z == x + (y + z)
  {
  }

  lemma TagNamesOfSection(name: string, inverted: bool, body: seq<Node>)
    ensures TagNames(FlattenNode(Section(name, inverted, body))) == [name] + TagNames(Flatten(body))
  {
    var open, close := OpenToken(name, inverted), CloseToken(name);
    TagNamesOne(open);
    TagNamesOne(close);
    hide TagNames, Flatten;
    TagNamesAppend([open] + Flatten(body), [close]);
    TagNamesAppend([open], Flatten(body));
  }

  /** The names of a tree are those its tags are written with, in reading order. */
  lemma {:induction false} NamesAreTagNames(ns: seq<Node>)
    ensures Names(ns) == TagNames(Flatten(ns))
    decreases ns
  {
    if ns != [] {
      var n := ns[0];
      NamesAreTagNames(ns[1..]);
      TagNamesAppend(FlattenNode(n), Flatten(ns[1..]));
      NodeNamesAreTagNames(n);
    }
    hide FlattenNode, NodeNames;
  }

  lemma NodeNamesAreTagNames(n: Node)
    ensures NodeNames(n) == TagNames(FlattenNode(n))
    decreases n
  {
    if n.Section? {
      NamesAreTagNames(n.body);
      TagNamesOfSection(n.name, n.inverted, n.body);
    } else {
      TagNamesOne(FlattenNode(n)[0]);
    }
    hide TagNames, Flatten, Names;
  }

  // ----- written forms -----

  /** What rendering makes of the text a tree renders to. */
  function Outcome(text: string, maxOutput: int): Result<string, RenderError> {
    if text == "" || |text| <= maxOutput then Ok(Tidy(text)) else Err(TooLarge)
  }

  /** The tree `ns` is written as `ms`, with any padding inside the braces, and no section tag alone on its line. */
  ghost predicate Writes(ms: seq<Mark>, ns: seq<Node>, maxDepth: int) {
    && Unpadded(ms) == Flatten(ns) && WritableMarks(ms) && Shallow(Depth(ns), maxDepth)
    && NoneStandalone(PrintMarks(ms), 0, ms)
  }

  lemma WrittenRenders(ms: seq<Mark>, ns: seq<Node>, ctx: Context, maxOutput: int, maxDepth: int)
    requires Writes(ms, ns, maxDepth)
    ensures Render(PrintMarks(ms), ctx, maxOutput, maxDepth) == Outcome(RenderText(ns, ctx), maxOutput)
  {
    PrintPaddedThenParse(ns, ms, maxDepth);
    hide Parse, PrintMarks, RenderText, Tidy;
  }

  /** The section law on templates. */
  lemma SectionsRender(ms: seq<Mark>, a: seq<Node>, name: string, inverted: bool, body: seq<Node>, b: seq<Node>,
                       ctx: Context, maxOutput: int, maxDepth: int)
    requires Writes(ms, a + [Section(name, inverted, body)] + b, maxDepth)
    ensures Render(PrintMarks(ms), ctx, maxOutput, maxDepth)
         == Outcome(RenderText(if inverted then (if Shows(ctx, name) then a + b else a + body + b)
                               else (if Shows(ctx, name) then a + body + b else a + b), ctx), maxOutput)
  {
    hide *;
    WrittenRenders(ms, a + [Section(name, inverted, body)] + b, ctx, maxOutput, maxDepth);
    SectionLaw(a, name, body, b, ctx);
  }

  /** So a template with a shown section renders as one with its body in place, whatever the padding of either. */
  lemma ShownSectionIsItsBody(ms: seq<Mark>, ms': seq<Mark>, a: seq<Node>, name: string, body: seq<Node>, b: seq<Node>,
                              ctx: Context, maxOutput: int, maxDepth: int)
    requires Writes(ms, a + [Section(name, !Shows(ctx, name), body)] + b, maxDepth)
    requires Writes(ms', a + body + b, maxDepth)
    ensures Render(PrintMarks(ms), ctx, maxOutput, maxDepth) == Render(PrintMarks(ms'), ctx, maxOutput, maxDepth)
  {
    hide *;
    SectionsRender(ms, a, name, !Shows(ctx, name), body, b, ctx, maxOutput, maxDepth);
    WrittenRenders(ms', a + body + b, ctx, maxOutput, maxDepth);
  }

  /** A template that is one variable renders as its value, tidied. */
  lemma VariablesRender(ms: seq<Mark>, a: seq<Node>, name: string, b: seq<Node>, ctx: Context, maxOutput: int,
                        maxDepth: int)
    requires Writes(ms, a + [Var(name)] + b, maxDepth)
    ensures Render(PrintMarks(ms), ctx, maxOutput, maxDepth)
         == Outcome(RenderText(a, ctx) + Written(ctx, name) + RenderText(b, ctx), maxOutput)
  {
    hide *;
    WrittenRenders(ms, a + [Var(name)] + b, ctx, maxOutput, maxDepth);
    LeafLaw(a, name, "", b, ctx);
  }

  // ----- the closing pass -----

  function LineEnds(k: nat): string {
    seq(k, (i: nat) => '\n')
  }

  function Shortened(k: nat): nat {
    if k <= 3 then k else 3
  }

  lemma NewlinesOfRun(k: nat, b: string)
    requires b == [] || b[0] != '\n'
    ensures Newlines(LineEnds(k) + b) == k
  {
    if k > 0 {
      assert (LineEnds(k) + b)[1..] == LineEnds(k - 1) + b;
      NewlinesOfRun(k - 1, b);
    } else {
      assert LineEnds(k) + b == b;
    }
  }

  /** A run of line ends between two texts becomes at most three; nothing else changes. */
  lemma {:induction false} CollapseIsExact(a: string, k: nat, b: string)
    requires (a == [] || a[|a| - 1] != '\n') && (b == [] || b[0] != '\n')
    ensures Collapse(a + LineEnds(k) + b) == Collapse(a) + LineEnds(Shortened(k)) + Collapse(b)
    decreases |a|
  {
    hide *;
    var tail := LineEnds(Shortened(k)) + Collapse(b);
    if a == [] {
      CollapseRun(k, b);
      CollapseOfNothing();
      assert a + LineEnds(k) + b == LineEnds(k) + b;
      assert "" + tail == tail;
    } else {
      var rest := LineEnds(k) + b;
      var cut := Cut(a);
      CutEnds(a, cut);
      CollapseIsExact(a[cut..], k, b);
      assert a[cut..] + LineEnds(k) + b == a[cut..] + rest && a + LineEnds(k) + b == a + rest;
      assert Collapse(a[cut..]) + LineEnds(Shortened(k)) + Collapse(b) == Collapse(a[cut..]) + tail;
      CollapseStep(a, rest, tail, cut);
    }
    assert Collapse(a) + LineEnds(Shortened(k)) + Collapse(b) == Collapse(a) + tail;
  }

  /** How many characters collapse first: the leading run, or one other character. */
  function Cut(s: string): nat {
    if Newlines(s) == 0 then 1 else Newlines(s)
  }

  lemma CutEnds(a: string, cut: nat)
    requires a != [] && a[|a| - 1] != '\n' && cut == Cut(a)
    ensures 0 < cut <= |a| && (a[cut..] == [] || a[cut..][|a[cut..]| - 1] != '\n')
  {
    RunWithin(a, "");
  }

  lemma CollapseStep(a: string, rest: string, tail: string, cut: nat)
    requires a != [] && a[|a| - 1] != '\n' && cut == Cut(a) && cut <= |a|
    requires Collapse(a[cut..] + rest) == Collapse(a[cut..]) + tail
    ensures Collapse(a + rest) == Collapse(a) + tail
  {
    RunWithin(a, rest);
    hide Collapse, Newlines;
    var s := a + rest;
    CutSlices(a, rest, cut);
    CollapseHead(s, cut);
    CollapseHead(a, cut);
    Regroup(Collapse(a[..cut]), Collapse(a[cut..]), tail);
  }

  lemma CutSlices(a: string, rest: string, cut: nat)
    requires cut <= |a|
    ensures (a + rest)[..cut] == a[..cut] && (a + rest)[cut..] == a[cut..] + rest
  {
  }

  lemma Regroup(x: string, y: string, z: string)
    ensures x + (y + z) == (x + y) + z
  {
  }

  /** The leading run, or the first other character, collapses by itself. */
  lemma CollapseHead(s: string, cut: nat)
    requires s != [] && cut == Cut(s)
    ensures 0 < cut <= |s| && Collapse(s) == Collapse(s[..cut]) + Collapse(s[cut..])
  {
    var k := Newlines(s);
    hide Collapse, LineEnds;
    if k == 0 {
      CollapseChar(s[0], "");
      CollapseChar(s[0], s[1..]);
      CollapseOfNothing();
      assert s[..1] == [s[0]] == [s[0]] + "" && s == [s[0]] + s[1..];
    } else {
      var run, rest := s[..k], s[k..];
      IsLineEnds(run);
      CollapseOfNothing();
      CollapseRun(k, "");
      CollapseRun(k, rest);
      assert run + "" == run && s == run + rest;
      assert LineEnds(Shortened(k)) + "" == LineEnds(Shortened(k));
    }
  }

  lemma IsLineEnds(run: string)
    requires forall i :: 0 <= i < |run| ==> run[i] == '\n'
    ensures run == LineEnds(|run|)
  {
  }

  lemma CollapseChar(c: char, rest: string)
    requires c != '\n'
    ensures Collapse([c] + rest) == [c] + Collapse(rest)
  {
    assert ([c] + rest)[1..] == rest;
  }

  lemma CollapseOfNothing()
    ensures Collapse("") == ""
  {
  }

  lemma CollapseRun(k: nat, b: string)
    requires b == [] || b[0] != '\n'
    ensures Collapse(LineEnds(k) + b) == LineEnds(Shortened(k)) + Collapse(b)
  {
    var s := LineEnds(k) + b;
    NewlinesOfRun(k, b);
    if k == 0 {
      assert s == b && LineEnds(0) == [];
      assert LineEnds(0) + Collapse(b) == Collapse(b);
    } else {
      assert s[..k] == LineEnds(k) && s[k..] == b && LineEnds(3) == "\n\n\n";
    }
  }

  /** A text that does not end in a line end holds its leading run whole. */
  lemma {:induction false} RunWithin(a: string, b: string)
    requires a != [] && a[|a| - 1] != '\n'
    ensures Newlines(a) < |a| && Newlines(a + b) == Newlines(a)
  {
    if a[0] == '\n' {
      assert (a + b)[1..] == a[1..] + b;
      RunWithin(a[1..], b);
    }
  }

  /** What is rendered is the text with its runs shortened, less characters trimmed at the two ends. */
  lemma TidyIsTrimmed(s: string)
    ensures Padded(Collapse(s), Tidy(s))
  {
    TrimIsPadded(Collapse(s));
    hide Trim, Collapse;
  }
}
