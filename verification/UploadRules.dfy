/**
 * Title patterns inherited down the category tree, for arbitrary parent links: dangling parents,
 * repeated rows and cycles included.
 */
module UploadRules {
  import opened Prelude

  datatype Category = Category(id: string, parent: Option<string>)

  type Parents = map<string, Option<string>>

  /** The parent map; a later row for the same id replaces an earlier one. */
  function ParentMap(cats: seq<Category>): Parents {
    if cats == [] then map[]
    else ParentMap(cats[..|cats| - 1])[cats[|cats| - 1].id := cats[|cats| - 1].parent]
  }

  /** A link is followed only to a non-empty id. */
  function Link(id: Option<string>): Option<string> {
    if id.Some? && id.value != "" then id else None
  }

  function Up(parents: Parents, id: string): Option<string> {
    if id in parents then Link(parents[id]) else None
  }

  /** The n-th ancestor, the category itself first; absent once the chain has ended. */
  function Ancestor(parents: Parents, id: string, n: nat): Option<string> {
    if n == 0 then Link(Some(id))
    else
      var below := Ancestor(parents, id, n - 1);
      if below.None? then None else Up(parents, below.value)
  }

  predicate HasPattern(patterns: map<string, string>, id: Option<string>) {
    id.Some? && id.value in patterns && patterns[id.value] != ""
  }

  /** The n-th ancestor is the nearest one with a pattern. */
  predicate IsNearest(patterns: map<string, string>, parents: Parents, id: string, n: nat) {
    && HasPattern(patterns, Ancestor(parents, id, n))
    && forall m: nat | m < n :: !HasPattern(patterns, Ancestor(parents, id, m))
  }

  /** What a category inherits: the nearest ancestor's pattern, or nothing when no ancestor has one. */
  ghost predicate Inherits(patterns: map<string, string>, parents: Parents, id: string, r: Option<string>) {
    match r
    case None => forall n: nat :: !HasPattern(patterns, Ancestor(parents, id, n))
    case Some(p) =>
      exists n: nat :: IsNearest(patterns, parents, id, n) && p == patterns[Ancestor(parents, id, n).value]
  }

  lemma InheritsIsUnique(patterns: map<string, string>, parents: Parents, id: string, r: Option<string>,
                         s: Option<string>)
    requires Inherits(patterns, parents, id, r) && Inherits(patterns, parents, id, s)
    ensures r == s
  {
    if r.Some? && s.Some? {
      var n: nat :| IsNearest(patterns, parents, id, n) && r.value == patterns[Ancestor(parents, id, n).value];
      var m: nat :| IsNearest(patterns, parents, id, m) && s.value == patterns[Ancestor(parents, id, m).value];
      assert n == m;
    }
  }

  /** A chain that has come back into a set closed under parents never leaves it. */
  lemma {:induction false} ClosedChain(parents: Parents, id: string, seen: set<string>, n: nat)
    requires Link(Some(id)).Some? ==> id in seen
    requires forall c <- seen :: Up(parents, c).Some? ==> Up(parents, c).value in seen
    ensures Ancestor(parents, id, n).Some? ==> Ancestor(parents, id, n).value in seen
  {
    if n > 0 {
      ClosedChain(parents, id, seen, n - 1);
    }
  }

  function Universe(parents: Parents, id: string): set<string> {
    {id} + set c | c in parents && parents[c].Some? :: parents[c].value
  }

  /** Climb from one category, remembering every id met. */
  method Climb(patterns: map<string, string>, parents: Parents, id: string) returns (r: Option<string>)
    ensures Inherits(patterns, parents, id, r)
  {
    var cur := Link(Some(id));
    var seen: set<string> := {};
    ghost var n := 0;
    while cur.Some? && cur.value !in seen
      invariant cur == Ancestor(parents, id, n)
      invariant forall m: nat | m < n :: !HasPattern(patterns, Ancestor(parents, id, m))
      invariant forall m: nat | m < n :: Ancestor(parents, id, m).Some? && Ancestor(parents, id, m).value in seen
      invariant forall c <- seen :: !HasPattern(patterns, Some(c))
      invariant forall c <- seen :: Up(parents, c).Some? ==> Up(parents, c).value in seen || Up(parents, c) == cur
      invariant cur.Some? ==> cur.value in Universe(parents, id)
      invariant seen <= Universe(parents, id) && (n > 0 && id != "" ==> id in seen)
      decreases Universe(parents, id) - seen
    {
      var c := cur.value;
      seen := seen + {c};
      if c in patterns && patterns[c] != "" {
        assert IsNearest(patterns, parents, id, n);
        return Some(patterns[c]);
      }
      cur := Up(parents, c);
      n := n + 1;
    }
    forall m: nat ensures !HasPattern(patterns, Ancestor(parents, id, m)) {
      ClosedChain(parents, id, seen, m);
    }
    r := None;
  }

  // ----- the chain of parents, on the rows -----

  /** The last row for `id` names `parent`, and that is a name. */
  predicate HasParent(cats: seq<Category>, id: string, parent: string) {
    parent != ""
    && exists j :: 0 <= j < |cats| && cats[j] == Category(id, Some(parent))
         && forall k :: j < k < |cats| ==> cats[k].id != id
  }

  /** `chain` climbs from parent to parent. */
  predicate Climbs(cats: seq<Category>, chain: seq<string>) {
    chain != [] && chain[0] != "" && forall i :: 0 < i < |chain| ==> HasParent(cats, chain[i - 1], chain[i])
  }

  predicate Owns(patterns: map<string, string>, id: string) {
    id in patterns && |patterns[id]| > 0
  }

  /** The chain from `id` ends at the first category with a pattern, which is `p`. */
  predicate EndsAtPattern(patterns: map<string, string>, cats: seq<Category>, chain: seq<string>, id: string,
                          p: string) {
    && Climbs(cats, chain) && chain[0] == id
    && Owns(patterns, chain[|chain| - 1]) && patterns[chain[|chain| - 1]] == p
    && forall i :: 0 <= i < |chain| - 1 ==> !Owns(patterns, chain[i])
  }

  ghost predicate ClimbsTo(patterns: map<string, string>, cats: seq<Category>, id: string, p: string) {
    exists chain :: EndsAtPattern(patterns, cats, chain, id, p)
  }

  lemma {:induction false} ParentIsLast(cats: seq<Category>, id: string, parent: string)
    ensures Up(ParentMap(cats), id) == Some(parent) <==> HasParent(cats, id, parent)
  {
    if cats != [] {
      var init, last := cats[..|cats| - 1], cats[|cats| - 1];
      if last.id == id {
        assert HasParent(cats, id, parent) ==> last == Category(id, Some(parent));
        if last == Category(id, Some(parent)) && parent != "" {
          assert cats[|cats| - 1] == Category(id, Some(parent));
        }
      } else {
        ParentIsLast(init, id, parent);
        if HasParent(init, id, parent) {
          var j :| 0 <= j < |init| && init[j] == Category(id, Some(parent))
                   && forall k :: j < k < |init| ==> init[k].id != id;
          assert cats[j] == init[j];
        }
        if HasParent(cats, id, parent) {
          var j :| 0 <= j < |cats| && cats[j] == Category(id, Some(parent))
                   && forall k :: j < k < |cats| ==> cats[k].id != id;
          assert init[j] == cats[j];
        }
      }
    }
  }

  lemma {:induction false} ChainIsAncestors(cats: seq<Category>, chain: seq<string>, n: nat)
    requires Climbs(cats, chain) && n < |chain|
    ensures Ancestor(ParentMap(cats), chain[0], n) == Some(chain[n])
  {
    if n > 0 {
      ChainIsAncestors(cats, chain, n - 1);
      ParentIsLast(cats, chain[n - 1], chain[n]);
    }
  }

  lemma {:induction false} AncestorsAreChain(cats: seq<Category>, id: string, n: nat) returns (chain: seq<string>)
    requires Ancestor(ParentMap(cats), id, n).Some?
    ensures |chain| == n + 1 && Climbs(cats, chain) && chain[0] == id
    ensures forall m: nat :: m <= n ==> Ancestor(ParentMap(cats), id, m) == Some(chain[m])
  {
    if n == 0 {
      chain := [id];
    } else {
      var init := AncestorsAreChain(cats, id, n - 1);
      var top := Ancestor(ParentMap(cats), id, n).value;
      ParentIsLast(cats, init[n - 1], top);
      chain := init + [top];
    }
  }

  /** What a category inherits is the pattern at the end of a chain of parents none of which has one before. */
  lemma InheritsIsChain(patterns: map<string, string>, cats: seq<Category>, id: string, p: string)
    ensures Inherits(patterns, ParentMap(cats), id, Some(p))
       <==> ClimbsTo(patterns, cats, id, p)
  {
    var parents := ParentMap(cats);
    if Inherits(patterns, parents, id, Some(p)) {
      var n: nat :| IsNearest(patterns, parents, id, n) && p == patterns[Ancestor(parents, id, n).value];
      var chain := AncestorsAreChain(cats, id, n);
      assert EndsAtPattern(patterns, cats, chain, id, p);
    }
    if chain :| EndsAtPattern(patterns, cats, chain, id, p) {
      forall m: nat | m < |chain| ensures Ancestor(parents, id, m) == Some(chain[m]) {
        ChainIsAncestors(cats, chain, m);
      }
      assert IsNearest(patterns, parents, id, |chain| - 1);
    }
  }

  function Lookup(m: map<string, string>, id: string): Option<string> {
    if id in m then Some(m[id]) else None
  }

  /**
   * The resolved map holds, for every listed category and no other id, exactly what it inherits.
   */
  method ResolveInheritance(patterns: map<string, string>, cats: seq<Category>) returns (resolved: map<string, string>)
    ensures forall c <- cats :: Inherits(patterns, ParentMap(cats), c.id, Lookup(resolved, c.id))
    ensures forall id <- resolved :: exists c <- cats :: c.id == id
    ensures forall c <- cats, p: string ::
              c.id in resolved && resolved[c.id] == p <==> ClimbsTo(patterns, cats, c.id, p)
  {
    var parents: Parents := map[];
    for k := 0 to |cats|
      invariant parents == ParentMap(cats[..k])
    {
      assert cats[..k + 1][..k] == cats[..k];
      parents := parents[cats[k].id := cats[k].parent];
    }
    assert cats[..|cats|] == cats;
    resolved := map[];
    for k := 0 to |cats|
      invariant forall j :: 0 <= j < k ==> Inherits(patterns, parents, cats[j].id, Lookup(resolved, cats[j].id))
      invariant forall id <- resolved :: exists j :: 0 <= j < k && cats[j].id == id
      invariant forall id <- resolved :: Inherits(patterns, parents, id, Some(resolved[id]))
    {
      var r := Climb(patterns, parents, cats[k].id);
      hide Inherits;
      if r.Some? {
        InheritsAll(patterns, parents, cats, k, resolved, cats[k].id, r.value);
        resolved := resolved[cats[k].id := r.value];
      } else if cats[k].id in resolved {
        InheritsIsUnique(patterns, parents, cats[k].id, r, Some(resolved[cats[k].id]));
      }
    }
    hide Inherits, ClimbsTo, ParentMap;
    forall c, p: string | c in cats
      ensures c.id in resolved && resolved[c.id] == p <==> ClimbsTo(patterns, cats, c.id, p)
    {
      ResolvedIsChain(patterns, cats, c.id, Lookup(resolved, c.id), p);
    }
  }

  lemma ResolvedIsChain(patterns: map<string, string>, cats: seq<Category>, id: string, r: Option<string>, p: string)
    requires Inherits(patterns, ParentMap(cats), id, r)
    ensures r == Some(p) <==> ClimbsTo(patterns, cats, id, p)
  {
    InheritsIsChain(patterns, cats, id, p);
    hide Inherits, ClimbsTo, ParentMap;
    if Inherits(patterns, ParentMap(cats), id, Some(p)) {
      InheritsIsUnique(patterns, ParentMap(cats), id, r, Some(p));
    }
  }

  lemma InheritsAll(patterns: map<string, string>, parents: Parents, cats: seq<Category>, k: nat,
                    resolved: map<string, string>, id: string, p: string)
    requires k < |cats| && Inherits(patterns, parents, id, Some(p))
    requires forall j :: 0 <= j < k ==> Inherits(patterns, parents, cats[j].id, Lookup(resolved, cats[j].id))
    ensures forall j :: 0 <= j < k ==> Inherits(patterns, parents, cats[j].id, Lookup(resolved[id := p], cats[j].id))
  {
    hide Inherits;
  }
}
