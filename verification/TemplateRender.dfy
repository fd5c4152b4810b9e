/**
 * Rendering a parsed template against a flat context, and listing the names it refers to. The
 * walks run over the parser's own node lists; what they compute is stated on the tree.
 */
module TemplateRender {
  import opened Prelude
  import opened TemplateSyntax
  import opened TemplateGrammar
  import opened TemplateParser

  datatype Value = Str(text: string) | Flag(on: bool) | Null | Undefined

  type Context = map<string, Value>

  datatype RenderError = Syntax(error: ParseError) | TooLarge

  function Lookup(ctx: Context, name: string): Value {
    if name in ctx then ctx[name] else Undefined
  }

  predicate Truthy(v: Value) {
    v != Undefined && v != Null && v != Flag(false) && v != Str("")
  }

  function Display(v: Value): string {
    match v
    case Str(s) => s
    case Flag(on) => if on then "true" else "false"
    case _ => ""
  }

  // ----- what a tree renders to -----

  function NodeText(n: Node, ctx: Context): string {
    match n
    case Text(s) => s
    case Var(name) => Display(Lookup(ctx, name))
    case Section(name, inverted, body) =>
      if Truthy(Lookup(ctx, name)) != inverted then RenderText(body, ctx) else []
  }

  function RenderText(ns: seq<Node>, ctx: Context): string {
    if ns == [] then [] else NodeText(ns[0], ctx) + RenderText(ns[1..], ctx)
  }

  lemma {:induction false} RenderTextSnoc(ns: seq<Node>, n: Node, ctx: Context)
    ensures RenderText(ns + [n], ctx) == RenderText(ns, ctx) + NodeText(n, ctx)
  {
    hide NodeText;
    if ns == [] {
      assert ns + [n] == [n] && RenderText([n], ctx) == NodeText(n, ctx) + RenderText([], ctx);
    } else {
      assert (ns + [n])[0] == ns[0] && (ns + [n])[1..] == ns[1..] + [n];
      RenderTextSnoc(ns[1..], n, ctx);
    }
  }

  // ----- the closing whitespace pass -----

  function Newlines(s: string): (k: nat)
    ensures k <= |s|
    ensures forall i :: 0 <= i < k ==> s[i] == '\n'
    ensures k < |s| ==> s[k] != '\n'
  {
    if s != [] && s[0] == '\n' then 1 + Newlines(s[1..]) else 0
  }

  /** Every maximal run of four newlines or more becomes three. */
  function Collapse(s: string): string
    decreases |s|
  {
    if s == [] then []
    else
      var k := Newlines(s);
      if k == 0 then [s[0]] + Collapse(s[1..])
      else (if k >= 4 then "\n\n\n" else s[..k]) + Collapse(s[k..])
  }

  ghost predicate NoFourNewlines(s: string) {
    forall i :: 0 <= i && i + 3 < |s| ==> s[i] != '\n' || s[i + 1] != '\n' || s[i + 2] != '\n' || s[i + 3] != '\n'
  }

  lemma ShortRunThenText(run: string, rest: string)
    requires |run| <= 3 && NoFourNewlines(rest) && (rest != [] ==> rest[0] != '\n')
    ensures NoFourNewlines(run + rest)
  {
    var s := run + rest;
    forall i | 0 <= i && i + 3 < |s|
      ensures s[i] != '\n' || s[i + 1] != '\n' || s[i + 2] != '\n' || s[i + 3] != '\n'
    {
      if i < |run| {
        assert i + 3 >= |run| && s[|run|] == rest[0];
      } else {
        assert s[i] == rest[i - |run|];
      }
    }
  }

  lemma {:induction false} CollapseLeavesNoRun(s: string)
    ensures NoFourNewlines(Collapse(s))
    ensures Collapse(s) != [] && Collapse(s)[0] == '\n' ==> s != [] && s[0] == '\n'
    ensures |Collapse(s)| <= |s|
    decreases |s|
  {
    assert NoFourNewlines([]);
    hide NoFourNewlines;
    if s != [] {
      var k := Newlines(s);
      if k == 0 {
        CollapseLeavesNoRun(s[1..]);
        PlainThenText(s[0], Collapse(s[1..]));
      } else {
        CollapseLeavesNoRun(s[k..]);
        ShortRunThenText(if k >= 4 then "\n\n\n" else s[..k], Collapse(s[k..]));
      }
    }
  }

  lemma PlainThenText(c: char, rest: string)
    requires c != '\n' && NoFourNewlines(rest)
    ensures NoFourNewlines([c] + rest)
  {
    var s := [c] + rest;
    assert forall i :: 1 <= i < |s| ==> s[i] == rest[i - 1];
  }

  lemma RunIsShort(s: string, k: nat)
    requires NoFourNewlines(s) && k <= |s|
    ensures Newlines(s) <= 3 && NoFourNewlines(s[k..])
  {
    assert 0 + 3 < |s| ==> s[0] != '\n' || s[0 + 1] != '\n' || s[0 + 2] != '\n' || s[0 + 3] != '\n';
  }

  lemma {:induction false} CollapseKeepsShortRuns(s: string)
    requires NoFourNewlines(s)
    ensures Collapse(s) == s
    decreases |s|
  {
    hide NoFourNewlines;
    if s != [] {
      var k := if Newlines(s) == 0 then 1 else Newlines(s);
      RunIsShort(s, k);
      CollapseKeepsShortRuns(s[k..]);
      assert s == s[..k] + s[k..];
    }
  }

  lemma {:induction false} TrimStartKeepsShortRuns(s: string)
    requires NoFourNewlines(s)
    ensures NoFourNewlines(TrimStart(s))
  {
    if s != [] && IsTrimmed(s[0]) {
      TrimStartKeepsShortRuns(s[1..]);
    }
  }

  lemma {:induction false} TrimEndKeepsShortRuns(s: string)
    requires NoFourNewlines(s)
    ensures NoFourNewlines(TrimEnd(s))
  {
    if s != [] && IsTrimmed(s[|s| - 1]) {
      TrimEndKeepsShortRuns(s[..|s| - 1]);
    }
  }

  lemma {:induction false} TrimEndKeepsStart(s: string)
    requires s != [] ==> !IsTrimmed(s[0])
    ensures TrimEnd(s) != [] ==> !IsTrimmed(TrimEnd(s)[0])
  {
    if s != [] && IsTrimmed(s[|s| - 1]) {
      TrimEndKeepsStart(s[..|s| - 1]);
    }
  }

  function Tidy(s: string): string {
    Trim(Collapse(s))
  }

  /** The closing pass trims, leaves no run of four newlines, never grows, and is idempotent. */
  lemma TidyIsTidy(s: string)
    ensures var r := Tidy(s);
            && NoFourNewlines(r) && |r| <= |s|
            && (r != [] ==> !IsTrimmed(r[0]) && !IsTrimmed(r[|r| - 1]))
            && Tidy(r) == r
  {
    var c := Collapse(s);
    var r := Tidy(s);
    CollapseLeavesNoRun(s);
    TrimStartKeepsShortRuns(c);
    TrimEndKeepsShortRuns(TrimStart(c));
    TrimEndKeepsStart(TrimStart(c));
    CollapseKeepsShortRuns(r);
    assert TrimStart(r) == r && TrimEnd(r) == r;
  }

  // ----- the verdict on a render -----

  /** Emitting nothing never trips the size check. */
  predicate Fits(size: nat, maxOutput: int) {
    size == 0 || size <= maxOutput
  }

  function Render(t: string, ctx: Context, maxOutput: int, maxDepth: int): Result<string, RenderError> {
    match TemplateGrammar.Parse(t, maxDepth)
    case Err(e) => Err(Syntax(e))
    case Ok(ns) =>
      var text := RenderText(ns, ctx);
      if Fits(|text|, maxOutput) then Ok(Tidy(text)) else Err(TooLarge)
  }

  /** What every listing is: trimmed, without a run of four newlines, and within the size limit. */
  ghost predicate TidyOutput(r: string, maxOutput: int) {
    && NoFourNewlines(r) && (r != [] ==> !IsTrimmed(r[0]) && !IsTrimmed(r[|r| - 1]))
    && Fits(|r|, maxOutput)
  }

  lemma RenderIsTidy(t: string, ctx: Context, maxOutput: int, maxDepth: int)
    requires Render(t, ctx, maxOutput, maxDepth).Ok?
    ensures TidyOutput(Render(t, ctx, maxOutput, maxDepth).value, maxOutput)
  {
    TidyIsTidy(RenderText(TemplateGrammar.Parse(t, maxDepth).value, ctx));
    hide Tidy, TemplateGrammar.Parse, RenderText, NoFourNewlines;
  }

  // ----- the names a tree refers to -----

  function NodeNames(n: Node): seq<string> {
    match n
    case Text(_) => []
    case Var(name) => [name]
    case Section(name, _, body) => [name] + Names(body)
  }

  /** Every reference, in reading order, repeats included. */
  function Names(ns: seq<Node>): seq<string> {
    if ns == [] then [] else NodeNames(ns[0]) + Names(ns[1..])
  }

  lemma {:induction false} NamesSnoc(ns: seq<Node>, n: Node)
    ensures Names(ns + [n]) == Names(ns) + NodeNames(n)
  {
    if ns == [] {
      assert ns + [n] == [n] && Names([n]) == NodeNames(n) + Names([]);
    } else {
      assert (ns + [n])[0] == ns[0] && (ns + [n])[1..] == ns[1..] + [n];
      NamesSnoc(ns[1..], n);
    }
  }

  /** Insertion-ordered set union: `seen` extended by the names it does not hold yet. */
  function AddAll(seen: seq<string>, names: seq<string>): seq<string>
    decreases |names|
  {
    if names == [] then seen
    else AddAll(if names[0] in seen then seen else seen + [names[0]], names[1..])
  }

  lemma {:induction false} AddAllAppend(seen: seq<string>, a: seq<string>, b: seq<string>)
    ensures AddAll(seen, a + b) == AddAll(AddAll(seen, a), b)
    decreases |a|
  {
    if a == [] {
      assert a + b == b;
    } else {
      assert (a + b)[0] == a[0] && (a + b)[1..] == a[1..] + b;
      AddAllAppend(if a[0] in seen then seen else seen + [a[0]], a[1..], b);
    }
  }

  predicate NoRepeats(s: seq<string>) {
    forall i, j :: 0 <= i < j < |s| ==> s[i] != s[j]
  }

  /** Position of the first occurrence of `x`. */
  function FirstAt(s: seq<string>, x: string): (k: nat)
    requires x in s
    ensures k < |s| && s[k] == x && x !in s[..k]
  {
    if s[0] == x then 0 else 1 + FirstAt(s[1..], x)
  }

  /** `out` lists the elements of `names` once each, by first appearance. */
  ghost predicate FirstAppearances(out: seq<string>, names: seq<string>) {
    && NoRepeats(out)
    && (forall x :: x in out <==> x in names)
    && (forall i, j :: 0 <= i < j < |out| && out[i] in names && out[j] in names ==>
          FirstAt(names, out[i]) < FirstAt(names, out[j]))
  }

  lemma {:induction false} FirstAtAppend(a: seq<string>, b: seq<string>, x: string)
    requires x in a
    ensures FirstAt(a + b, x) == FirstAt(a, x)
  {
    assert (a + b)[0] == a[0] && (a + b)[1..] == a[1..] + b;
    if a[0] != x {
      FirstAtAppend(a[1..], b, x);
    }
  }

  lemma ExtendAppearances(out: seq<string>, names: seq<string>, x: string)
    requires FirstAppearances(out, names)
    ensures FirstAppearances(if x in out then out else out + [x], names + [x])
  {
    var out' := if x in out then out else out + [x];
    forall i, j | 0 <= i < j < |out'| ensures FirstAt(names + [x], out'[i]) < FirstAt(names + [x], out'[j]) {
      FirstAtAppend(names, [x], out'[i]);
      if j < |out| {
        FirstAtAppend(names, [x], out'[j]);
      }
    }
  }

  lemma {:induction false} AddAllListsAppearances(out: seq<string>, names: seq<string>, more: seq<string>)
    requires FirstAppearances(out, names)
    ensures FirstAppearances(AddAll(out, more), names + more)
    decreases |more|
  {
    hide FirstAppearances;
    if more == [] {
      assert names + more == names;
    } else {
      ExtendAppearances(out, names, more[0]);
      AddAllListsAppearances(if more[0] in out then out else out + [more[0]], names + [more[0]], more[1..]);
      assert names + [more[0]] + more[1..] == names + more;
    }
  }

  function Variables(t: string, maxDepth: int): Result<seq<string>, ParseError> {
    match TemplateGrammar.Parse(t, maxDepth)
    case Err(e) => Err(e)
    case Ok(ns) => Ok(AddAll([], Names(ns)))
  }

  /** The reported names are exactly those referred to, once each, by first appearance. */
  lemma VariablesAreTheNames(t: string, maxDepth: int, ns: seq<Node>)
    requires TemplateGrammar.Parse(t, maxDepth) == Ok(ns)
    ensures FirstAppearances(Variables(t, maxDepth).value, Names(ns))
  {
    AddAllListsAppearances([], [], Names(ns));
    assert [] + Names(ns) == Names(ns);
  }

  // ----- rendering depends on the reported names only -----

  ghost predicate Agree(names: seq<string>, c: Context, d: Context) {
    forall x <- names :: Lookup(c, x) == Lookup(d, x)
  }

  lemma {:induction false} TextDependsOnNames(ns: seq<Node>, c: Context, d: Context)
    requires Agree(Names(ns), c, d)
    ensures RenderText(ns, c) == RenderText(ns, d)
  {
    if ns != [] {
      var n := ns[0];
      assert forall x <- Names(ns[1..]) :: x in Names(ns);
      assert forall x <- NodeNames(n) :: x in Names(ns);
      TextDependsOnNames(ns[1..], c, d);
      if n.Var? {
        assert n.name in NodeNames(n);
      } else if n.Section? {
        assert NodeNames(n)[0] == n.name;
        assert forall x <- Names(n.body) :: x in NodeNames(n);
        TextDependsOnNames(n.body, c, d);
      }
    }
  }

  /** Two contexts that agree on the reported names render alike, down to the size failure. */
  lemma RenderDependsOnVariables(t: string, c: Context, d: Context, maxOutput: int, maxDepth: int)
    requires Variables(t, maxDepth).Ok? ==> Agree(Variables(t, maxDepth).value, c, d)
    ensures Render(t, c, maxOutput, maxDepth) == Render(t, d, maxOutput, maxDepth)
  {
    var p := TemplateGrammar.Parse(t, maxDepth);
    if p.Ok? {
      VariablesAreTheNames(t, maxDepth, p.value);
      TextDependsOnNames(p.value, c, d);
    }
  }

  // ----- the walks -----

  function Join(chunks: seq<string>): string {
    if chunks == [] then [] else Join(chunks[..|chunks| - 1]) + chunks[|chunks| - 1]
  }

  /** The output under construction, with its running size. */
  class Output {
    var chunks: seq<string>
    var size: nat
    const limit: int

    ghost predicate Valid()
      reads this
    {
      size == |Join(chunks)| && Fits(size, limit)
    }

    constructor (limit: int)
      ensures Valid() && this.limit == limit && chunks == []
    {
      this.limit := limit;
      chunks, size := [], 0;
    }

    method Emit(value: string) returns (ok: bool)
      requires Valid()
      modifies this
      ensures ok == Fits(|old(Join(chunks))| + |value|, limit)
      ensures ok ==> Valid() && Join(chunks) == old(Join(chunks)) + value
    {
      if value == [] {
        return true;
      }
      size := size + |value|;
      if size > limit {
        return false;
      }
      chunks := chunks + [value];
      assert chunks[..|chunks| - 1] == old(chunks);
      return true;
    }
  }

  method Walk(items: seq<Item>, ctx: Context, out: Output, ghost ns: seq<Node>, ghost closed: set<NodeList>)
    returns (ok: bool)
    requires Denote(items, ns, closed) && out.Valid()
    modifies out
    ensures ok == Fits(|old(Join(out.chunks))| + |RenderText(ns, ctx)|, out.limit)
    ensures ok ==> out.Valid() && Join(out.chunks) == old(Join(out.chunks)) + RenderText(ns, ctx)
    decreases ns, 1
  {
    ghost var start, part := Join(out.chunks), "";
    var i := 0;
    assert |items| == |ns| && start + part == start && RenderText(ns[..0], ctx) == part;
    hide Join, RenderText, NodeText, Denote;
    while i < |items|
      invariant 0 <= i <= |items| == |ns| && Denote(items, ns, closed) && out.Valid()
      invariant part == RenderText(ns[..i], ctx) && Join(out.chunks) == start + part
    {
      ghost var next := NodeText(ns[i], ctx);
      NextPrefix(ns, i, ctx, start, part, next);
      DenotesAt(items, ns, closed, i);
      var fits := WalkNode(items[i], ctx, out, ns[i], closed);
      if !fits {
        return false;
      }
      i, part := i + 1, part + next;
    }
    assert ns[..i] == ns;
    ok := true;
  }

  lemma NextPrefix(ns: seq<Node>, i: nat, ctx: Context, start: string, part: string, next: string)
    requires i < |ns| && part == RenderText(ns[..i], ctx) && next == NodeText(ns[i], ctx)
    ensures RenderText(ns[..i + 1], ctx) == part + next && start + part + next == start + (part + next)
    ensures |part + next| <= |RenderText(ns, ctx)|
  {
    RenderPrefix(ns, i, ctx);
    RenderPrefix(ns, i + 1, ctx);
  }

  lemma DenotesAt(items: seq<Item>, ns: seq<Node>, closed: set<NodeList>, i: nat)
    requires Denote(items, ns, closed) && i < |items|
    ensures |ns| == |items| && DenotesNode(items[i], ns[i], closed)
  {
  }

  lemma {:induction false} RenderPrefix(ns: seq<Node>, k: nat, ctx: Context)
    requires k <= |ns|
    ensures |RenderText(ns[..k], ctx)| <= |RenderText(ns, ctx)|
    ensures k < |ns| ==> RenderText(ns[..k + 1], ctx) == RenderText(ns[..k], ctx) + NodeText(ns[k], ctx)
    decreases |ns| - k
  {
    if k < |ns| {
      assert ns[..k + 1] == ns[..k] + [ns[k]];
      RenderTextSnoc(ns[..k], ns[k], ctx);
      RenderPrefix(ns, k + 1, ctx);
    } else {
      assert ns[..k] == ns;
    }
  }

  method WalkNode(item: Item, ctx: Context, out: Output, ghost n: Node, ghost closed: set<NodeList>)
    returns (ok: bool)
    requires DenotesNode(item, n, closed) && out.Valid()
    modifies out
    ensures ok == Fits(|old(Join(out.chunks))| + |NodeText(n, ctx)|, out.limit)
    ensures ok ==> out.Valid() && Join(out.chunks) == old(Join(out.chunks)) + NodeText(n, ctx)
    decreases n, 0
  {
    match item
    case TextItem(text) =>
      ok := out.Emit(text);
    case VarItem(name) =>
      ok := out.Emit(Display(Lookup(ctx, name)));
    case SectionItem(name, inverted, body) =>
      if Truthy(Lookup(ctx, name)) != inverted {
        ok := Walk(body.items, ctx, out, n.body, closed);
      } else {
        assert Join(out.chunks) + [] == Join(out.chunks);
        ok := true;
      }
  }

  method RenderTemplate(t: string, ctx: Context, limits: Limits) returns (r: Result<string, RenderError>)
    ensures r == Render(t, ctx, limits.Output(), limits.Depth())
    ensures r.Ok? ==> TidyOutput(r.value, limits.Output())
  {
    if Render(t, ctx, limits.Output(), limits.Depth()).Ok? {
      RenderIsTidy(t, ctx, limits.Output(), limits.Depth());
    }
    hide TidyOutput;
    var parsed, closed := TemplateParser.Parse(t, limits.Depth());
    if parsed.Err? {
      return Err(Syntax(parsed.error));
    }
    ghost var ns := TemplateGrammar.Parse(t, limits.Depth()).value;
    var out := new Output(limits.Output());
    var ok := Walk(parsed.value.items, ctx, out, ns, closed);
    if !ok {
      return Err(TooLarge);
    }
    assert [] + RenderText(ns, ctx) == RenderText(ns, ctx);
    return Ok(Tidy(Join(out.chunks)));
  }

  /** Validating needs no context: it fails exactly as rendering in any context does before it emits. */
  method AssertTemplateValid(t: string, limits: Limits) returns (error: Option<ParseError>)
    ensures forall ctx: Context ::
      if error.Some? then Render(t, ctx, limits.Output(), limits.Depth()) == Err(Syntax(error.value))
      else !IsSyntaxError(Render(t, ctx, limits.Output(), limits.Depth()))
  {
    var parsed, closed := TemplateParser.Parse(t, limits.Depth());
    error := if parsed.Err? then Some(parsed.error) else None;
  }

  predicate IsSyntaxError(r: Result<string, RenderError>) {
    r.Err? && r.error.Syntax?
  }

  method CollectNames(items: seq<Item>, seen: seq<string>, ghost ns: seq<Node>, ghost closed: set<NodeList>)
    returns (out: seq<string>)
    requires Denote(items, ns, closed)
    ensures out == AddAll(seen, Names(ns))
    decreases ns
  {
    out := seen;
    var i := 0;
    while i < |items|
      invariant 0 <= i <= |items| && out == AddAll(seen, Names(ns[..i]))
    {
      ghost var before := out;
      assert ns[..i + 1] == ns[..i] + [ns[i]];
      NamesSnoc(ns[..i], ns[i]);
      AddAllAppend(seen, Names(ns[..i]), NodeNames(ns[i]));
      assert DenotesNode(items[i], ns[i], closed);
      match items[i] {
        case TextItem(_) =>
        case VarItem(name) =>
          out := if name in out then out else out + [name];
        case SectionItem(name, _, body) =>
          AddAllAppend(before, [name], Names(ns[i].body));
          out := if name in out then out else out + [name];
          out := CollectNames(body.items, out, ns[i].body, closed);
      }
      i := i + 1;
    }
    assert ns[..i] == ns;
  }

  method TemplateVariables(t: string, limits: Limits) returns (r: Result<seq<string>, ParseError>)
    ensures r == Variables(t, limits.Depth())
  {
    var parsed, closed := TemplateParser.Parse(t, limits.Depth());
    if parsed.Err? {
      return Err(parsed.error);
    }
    var names := CollectNames(parsed.value.items, [], TemplateGrammar.Parse(t, limits.Depth()).value, closed);
    return Ok(names);
  }
}
