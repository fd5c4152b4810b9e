/**
 * Which error a malformed template gives: the first tag that cannot stand where it is, judged by how
 * many sections are open there and which of them is the innermost, or else the innermost section left
 * open at the end.
 */
module TemplateErrors {
  import opened Prelude
  import opened TemplateSyntax
  import opened TemplateLexer
  import opened TemplateGrammar

  /** Sections opened less sections closed among the first `k` tokens. */
  function Level(ts: seq<Located>, k: nat): int
    requires k <= |ts|
  {
    if k == 0 then 0
    else
      Level(ts, k - 1)
      + (if ts[k - 1].token.OpenToken? then 1 else if ts[k - 1].token.CloseToken? then -1 else 0)
  }

  /** Token `i` opens the section at level `d` that is still open before token `k`. */
  predicate OpenedBy(ts: seq<Located>, k: nat, d: int, i: nat)
    requires k <= |ts|
  {
    i < k && ts[i].token.OpenToken? && Level(ts, i) == d && forall j: nat :: i < j <= k ==> Level(ts, j) > d
  }

  /** Token `k` cannot stand where it is. */
  ghost predicate FaultAt(ts: seq<Located>, k: nat, maxDepth: int, e: ParseError)
    requires k < |ts|
  {
    var line, level := ts[k].line, Level(ts, k);
    match ts[k].token
    case OpenToken(_, _) => level >= maxDepth && e == TooDeep(line)
    case CloseToken(n) =>
      if level <= 0 then e == CloseUnopened(n, line)
      else
        exists i: nat :: OpenedBy(ts, k, level - 1, i) && ts[i].token.name != n
          && e == CloseMismatch(n, ts[i].token.name, ts[i].line, line)
    case _ => false
  }

  ghost predicate Faultless(ts: seq<Located>, k: nat, maxDepth: int)
    requires k <= |ts|
  {
    forall j: nat, e :: j < k ==> !FaultAt(ts, j, maxDepth, e)
  }

  /** The first fault of the token string is `e`. */
  ghost predicate FirstFault(ts: seq<Located>, maxDepth: int, e: ParseError) {
    exists k: nat :: k < |ts| && FaultAt(ts, k, maxDepth, e) && Faultless(ts, k, maxDepth)
  }

  // ----- the machine's stack is the open sections -----

  /** Frame `d` is the section that token `i` opened. */
  predicate FrameIs(m: Machine, ts: seq<Located>, k: nat, d: nat, i: nat)
    requires k <= |ts|
  {
    d < |m.open| && OpenedBy(ts, k, d, i) && m.open[d].name == ts[i].token.name && m.open[d].line == ts[i].line
  }

  ghost predicate HasFrame(m: Machine, ts: seq<Located>, k: nat, d: nat)
    requires k <= |ts|
  {
    exists i: nat :: FrameIs(m, ts, k, d, i)
  }

  /** The machine after the first `k` tokens: its frames are the sections open there, level by level. */
  ghost predicate StackIs(m: Machine, ts: seq<Located>, k: nat)
    requires k <= |ts|
  {
    |m.open| == Level(ts, k) && forall d: nat :: d < |m.open| ==> HasFrame(m, ts, k, d)
  }

  lemma FrameAt(m: Machine, ts: seq<Located>, k: nat, d: nat) returns (i: nat)
    requires k <= |ts| && StackIs(m, ts, k) && d < |m.open|
    ensures FrameIs(m, ts, k, d, i)
  {
    hide FrameIs, Level;
    assert HasFrame(m, ts, k, d);
    i :| FrameIs(m, ts, k, d, i);
  }

  lemma OpenedIsUnique(ts: seq<Located>, k: nat, d: int, i: nat, j: nat)
    requires k <= |ts| && OpenedBy(ts, k, d, i) && OpenedBy(ts, k, d, j)
    ensures i == j
  {
  }

  lemma StaysOpen(ts: seq<Located>, k: nat, d: int, i: nat)
    requires k < |ts| && OpenedBy(ts, k, d, i) && Level(ts, k + 1) > d
    ensures OpenedBy(ts, k + 1, d, i)
  {
    hide Level;
  }

  lemma StepFaults(m: Machine, ts: seq<Located>, k: nat, maxDepth: int, e: ParseError)
    requires k < |ts| && StackIs(m, ts, k)
    ensures Step(m, ts[k], maxDepth) == Err(e) <==> FaultAt(ts, k, maxDepth, e)
  {
    if ts[k].token.CloseToken? && m.open != [] {
      var d := |m.open| - 1;
      var i := FrameAt(m, ts, k, d);
      forall j: nat | OpenedBy(ts, k, d, j) ensures j == i {
        OpenedIsUnique(ts, k, d, i, j);
      }
    }
    hide OpenedBy;
  }

  lemma StepKeepsStack(m: Machine, ts: seq<Located>, k: nat, maxDepth: int)
    requires k < |ts| && StackIs(m, ts, k) && Step(m, ts[k], maxDepth).Ok?
    ensures StackIs(Step(m, ts[k], maxDepth).value, ts, k + 1)
  {
    var m', next := Step(m, ts[k], maxDepth).value, k + 1;
    assert |m'.open| == Level(ts, next);
    forall d: nat | d < |m'.open| ensures HasFrame(m', ts, next, d) {
      if d < |m.open| {
        var i := FrameAt(m, ts, k, d);
        StaysOpen(ts, k, d, i);
        assert FrameIs(m', ts, next, d, i);
      } else {
        assert FrameIs(m', ts, next, d, k);
      }
    }
  }

  lemma {:induction false} RunFaults(m: Machine, ts: seq<Located>, k: nat, maxDepth: int, e: ParseError)
    requires k <= |ts| && StackIs(m, ts, k)
    ensures Run(m, ts[k..], maxDepth) == Err(e)
       <==> exists j: nat :: k <= j < |ts| && FaultAt(ts, j, maxDepth, e)
              && forall i: nat, e' :: k <= i < j ==> !FaultAt(ts, i, maxDepth, e')
    ensures Run(m, ts[k..], maxDepth).Ok? ==> StackIs(Run(m, ts[k..], maxDepth).value, ts, |ts|)
    decreases |ts| - k
  {
    if k < |ts| {
      var s := Step(m, ts[k], maxDepth);
      assert ts[k..][0] == ts[k] && ts[k..][1..] == ts[k + 1..];
      forall e' ensures s == Err(e') <==> FaultAt(ts, k, maxDepth, e') {
        StepFaults(m, ts, k, maxDepth, e');
      }
      if s.Ok? {
        StepKeepsStack(m, ts, k, maxDepth);
        RunFaults(s.value, ts, k + 1, maxDepth, e);
      }
      hide FaultAt, StackIs, Step;
    }
  }

  lemma RunFromStart(ts: seq<Located>, maxDepth: int, e: ParseError)
    ensures Run(START, ts, maxDepth) == Err(e) <==> FirstFault(ts, maxDepth, e)
    ensures Run(START, ts, maxDepth).Ok? ==> StackIs(Run(START, ts, maxDepth).value, ts, |ts|)
  {
    assert StackIs(START, ts, 0) && ts[0..] == ts;
    RunFaults(START, ts, 0, maxDepth, e);
    hide FaultAt, StackIs, Run;
  }

  // ----- the verdict on a template -----

  /** The innermost section left open at the end of the tokens. */
  ghost predicate LeftOpen(ts: seq<Located>, e: ParseError) {
    Level(ts, |ts|) > 0
    && exists i: nat :: OpenedBy(ts, |ts|, Level(ts, |ts|) - 1, i) && e == Unclosed(ts[i].token.name, ts[i].line)
  }

  /**
   * A template's error is the first fault of the tokens before the scan stops; without one, what stopped
   * the scan; and without that, the innermost section left open.
   */
  lemma ErrorsAreExact(t: string, maxDepth: int, e: ParseError)
    ensures var l := Lex(t, 0);
            var ts := Tokens(l.lexemes);
            Parse(t, maxDepth) == Err(e) <==>
              FirstFault(ts, maxDepth, e)
              || (Faultless(ts, |ts|, maxDepth) && if l.ending.Bad? then e == l.ending.error else LeftOpen(ts, e))
  {
    var l := Lex(t, 0);
    var ts := Tokens(l.lexemes);
    forall e' ensures Run(START, ts, maxDepth) == Err(e') <==> FirstFault(ts, maxDepth, e') {
      RunFromStart(ts, maxDepth, e');
    }
    var r := Run(START, ts, maxDepth);
    SomeFault(ts, maxDepth);
    if r.Ok? {
      RunFromStart(ts, maxDepth, e);
      TopIsInnermost(r.value, ts, e);
    }
    hide FirstFault, Faultless, Run, Lex, Tokens, LeftOpen;
  }

  lemma TopIsInnermost(m: Machine, ts: seq<Located>, e: ParseError)
    requires StackIs(m, ts, |ts|)
    ensures LeftOpen(ts, e)
       <==> m.open != [] && e == Unclosed(m.open[|m.open| - 1].name, m.open[|m.open| - 1].line)
  {
    if m.open != [] {
      var d := |m.open| - 1;
      var i := FrameAt(m, ts, |ts|, d);
      forall j: nat | OpenedBy(ts, |ts|, d, j) ensures j == i {
        OpenedIsUnique(ts, |ts|, d, i, j);
      }
    }
    hide OpenedBy;
  }

  /** A token string with any fault has a first one. */
  lemma SomeFault(ts: seq<Located>, maxDepth: int)
    ensures Faultless(ts, |ts|, maxDepth) <==> forall e :: !FirstFault(ts, maxDepth, e)
  {
    hide FaultAt;
    if forall e :: !FirstFault(ts, maxDepth, e) {
      forall k: nat | k <= |ts| ensures Faultless(ts, k, maxDepth) {
        NoFaultBefore(ts, k, maxDepth);
      }
    }
  }

  lemma {:induction false} NoFaultBefore(ts: seq<Located>, k: nat, maxDepth: int)
    requires k <= |ts| && forall e :: !FirstFault(ts, maxDepth, e)
    ensures Faultless(ts, k, maxDepth)
  {
    hide FaultAt;
    if k > 0 {
      NoFaultBefore(ts, k - 1, maxDepth);
      var last := k - 1;
      assert forall e :: FaultAt(ts, last, maxDepth, e) ==> FirstFault(ts, maxDepth, e);
    }
  }

  // ----- the lines tags are reported on -----

  function LineEnds(s: string): nat {
    multiset(s)['\n']
  }

  lemma {:induction false} LineNoCounts(t: string, i: nat)
    requires i <= |t|
    ensures LineNo(t, i) == 1 + LineEnds(t[..i])
  {
    if i > 0 {
      LineNoCounts(t, i - 1);
      assert t[..i] == t[..i - 1] + [t[i - 1]];
    }
  }

  lemma JoinTwo(t: string, a: nat, b: nat, c: nat)
    requires a <= b <= c <= |t|
    ensures t[a..b] + t[b..c] == t[a..c]
  {
  }

  lemma NextCharges(t: string, pos: nat, start: nat, tag: Tag, next: nat)
    requires pos <= start < next <= |t|
    ensures var l := NextLexeme(t, pos, start, tag, next).0;
            l.before + l.indent == t[pos..start] && l.line == LineNo(t, start)
  {
    hide StandaloneEnd, LineStart, LineNo;
    var l := NextLexeme(t, pos, start, tag, next).0;
    var cut := Max(pos, LineStart(t, start));
    JoinTwo(t, pos, cut, start);
    assert (l.before == t[pos..cut] && l.indent == t[cut..start]) || (l.before == t[pos..start] && l.indent == []);
  }

  lemma NextLine(t: string, pos: nat, start: nat, tag: Tag, next: nat)
    requires pos <= start < next <= |t|
    ensures var l := NextLexeme(t, pos, start, tag, next).0;
            l.line == 1 + LineEnds(t[..pos] + l.before + l.indent)
  {
    hide *;
    LineNoCounts(t, start);
    NextCharges(t, pos, start, tag, next);
    var l := NextLexeme(t, pos, start, tag, next).0;
    assert t[..start] == t[..pos] + (l.before + l.indent) == t[..pos] + l.before + l.indent;
  }

  lemma LexHead(t: string, pos: nat) returns (lexeme: Lexeme, resume: nat)
    requires pos <= |t| && Lex(t, pos).lexemes != []
    ensures pos < resume <= |t| && Lex(t, pos).lexemes == [lexeme] + Lex(t, resume).lexemes
    ensures lexeme.before + lexeme.indent + lexeme.source + lexeme.trail == t[pos..resume]
    ensures lexeme.line == 1 + LineEnds(t[..pos] + lexeme.before + lexeme.indent)
  {
    var start := FindPair(t, '{', pos).value;
    var (tag, next) := ReadTag(t, start).value;
    NextLine(t, pos, start, tag, next);
    hide NextLexeme, LineEnds, ReadTag, FindPair;
    lexeme, resume := NextLexeme(t, pos, start, tag, next).0, NextLexeme(t, pos, start, tag, next).1;
  }

  /** A tag's line is one more than the newlines among the characters charged before its braces. */
  lemma {:induction false} LinesAreExact(t: string, pos: nat, k: nat)
    requires pos <= |t| && k < |Lex(t, pos).lexemes|
    ensures var ls := Lex(t, pos).lexemes;
            ls[k].line == 1 + LineEnds(t[..pos] + Charged(ls[..k]) + ls[k].before + ls[k].indent)
    decreases |t| - pos
  {
    hide *;
    var lexeme, resume := LexHead(t, pos);
    var ls, rest := Lex(t, pos).lexemes, Lex(t, resume).lexemes;
    if k == 0 {
      ChargedNothing();
      assert ls[..0] == [] && t[..pos] + [] == t[..pos];
    } else {
      LinesAreExact(t, resume, k - 1);
      assert ls[..k] == [lexeme] + rest[..k - 1];
      ChargedCons(lexeme, rest[..k - 1]);
      assert t[..resume] == t[..pos] + t[pos..resume];
      assert t[..resume] + Charged(rest[..k - 1]) == t[..pos] + Charged(ls[..k]);
    }
  }

  lemma ChargedNothing()
    ensures Charged([]) == []
  {
  }
}
