/** Dotted configuration overrides: the string-level conflict test of the command
    line (tensorcast/cli.py) and the tree builder of the configuration loader
    (tensorcast/daemon_runtime_config.py). YAML parsing and the set of known keys
    are parameters. */
module Overrides {
  import opened Common
  import opened Text

  /** A YAML value that is not a mapping. */
  datatype Value = Null | Scalar(text: string) | Items(items: seq<Value>)

  datatype Node = Leaf(value: Value) | Dict(entries: map<string, Node>)

  type Tree = map<string, Node>
  type Path = seq<string>

  datatype Override = Override(path: Path, node: Node)

  // ----- keys as text

  function Cut(s: string, sep: char): Option<nat> {
    if s == "" then None
    else if s[0] == sep then Some(0)
    else
      var i := Cut(s[1..], sep);
      if i.None? then None else Some(i.value + 1)
  }

  lemma {:induction false} CutFindsFirst(s: string, sep: char)
    ensures match Cut(s, sep)
            case None => sep !in s
            case Some(i) => i < |s| && s[i] == sep && sep !in s[..i]
  {
    if s != "" && s[0] != sep {
      CutFindsFirst(s[1..], sep);
      var i := Cut(s[1..], sep);
      if i.Some? { assert s[..i.value + 1] == [s[0]] + s[1..][..i.value]; }
    }
  }

  /** `s.split(".")`. */
  function Split(s: string): (parts: Path)
    ensures parts != []
    decreases |s|
  {
    CutFindsFirst(s, '.');
    var i := Cut(s, '.');
    if i.None? then [s] else [s[..i.value]] + Split(s[i.value + 1..])
  }

  function Join(parts: Path): string
    requires parts != []
  {
    if |parts| == 1 then parts[0] else parts[0] + "." + Join(parts[1..])
  }

  predicate Dotless(s: string) { '.' !in s }

  ghost predicate IsKeyPath(p: Path) {
    p != [] && forall i | 0 <= i < |p| :: p[i] != "" && Dotless(p[i])
  }

  lemma {:induction false} SplitJoins(s: string)
    ensures Join(Split(s)) == s
    ensures forall i | 0 <= i < |Split(s)| :: Dotless(Split(s)[i])
    decreases |s|
  {
    CutFindsFirst(s, '.');
    var i := Cut(s, '.');
    if i.Some? {
      var rest := s[i.value + 1..];
      SplitJoins(rest);
      assert Split(s) == [s[..i.value]] + Split(rest);
      assert Split(s)[1..] == Split(rest);
      assert s == s[..i.value] + "." + rest;
    }
  }

  predicate HasDoubleDot(s: string) {
    exists i | 0 <= i < |s| - 1 :: s[i] == '.' && s[i + 1] == '.'
  }

  /** Not empty, and no leading, trailing or double dot. */
  predicate GoodDots(key: string) {
    key != "" && key[0] != '.' && key[|key| - 1] != '.' && !HasDoubleDot(key)
  }

  /** `_parse_override_path`; None is its ValueError. */
  function ParsePath(raw: string): (path: Option<Path>)
    ensures path.Some? ==> path.value != []
  {
    var key := Strip(raw);
    if key == "" then None
    else if key[0] == '.' || key[|key| - 1] == '.' || HasDoubleDot(key) then None
    else
      var parts := Split(key);
      if exists i | 0 <= i < |parts| :: parts[i] == "" then None else Some(parts)
  }

  lemma ParsePathGivesKeyPath(raw: string)
    requires ParsePath(raw).Some?
    ensures IsKeyPath(ParsePath(raw).value) && Join(ParsePath(raw).value) == Strip(raw)
  {
    SplitJoins(Strip(raw));
  }

  /** The check for empty parts never fires: the checks on dots before it already
      rule them out, so a key is accepted exactly when those pass. */
  lemma PathAcceptedIff(raw: string)
    ensures var key := Strip(raw);
            ParsePath(raw).Some? <==> GoodDots(key)
  {
    var key := Strip(raw);
    if GoodDots(key) { NoEmptyParts(key); }
  }

  lemma {:induction false} NoEmptyParts(s: string)
    requires GoodDots(s)
    ensures forall i | 0 <= i < |Split(s)| :: Split(s)[i] != ""
    decreases |s|
  {
    CutFindsFirst(s, '.');
    var i := Cut(s, '.');
    if i.Some? {
      var rest := s[i.value + 1..];
      assert forall k | 0 <= k < |rest| :: rest[k] == s[i.value + 1 + k];
      NoEmptyParts(rest);
    }
  }

  // ----- the conflict test on text

  /** `_paths_conflict`. */
  predicate PathsConflict(a: string, b: string) {
    a == b || b + "." <= a || a + "." <= b
  }

  /** One path lies on the way to the other, or they are equal. */
  predicate Overlap(p: Path, q: Path) {
    p <= q || q <= p
  }

  lemma {:induction false} CutAfter(a: string, sep: char, x: string)
    requires sep !in a
    ensures Cut(a + [sep] + x, sep) == Some(|a|)
  {
    if a == "" {
      assert a + [sep] + x == [sep] + x;
    } else {
      CutAfter(a[1..], sep, x);
      assert (a + [sep] + x)[1..] == a[1..] + [sep] + x;
    }
  }

  lemma CutOfDotted(a: string, x: string)
    requires Dotless(a)
    ensures Cut(a + "." + x, '.') == Some(|a|)
  {
    CutAfter(a, '.', x);
  }

  lemma {:induction false} CutOfPrefix(u: string, v: string, sep: char)
    requires u <= v && Cut(u, sep).Some?
    ensures Cut(v, sep) == Cut(u, sep)
  {
    if u[0] != sep { CutOfPrefix(u[1..], v[1..], sep); }
  }

  lemma DotSplitsOnce(a: string, x: string, b: string, y: string)
    requires Dotless(a) && Dotless(b)
    ensures a + "." + x <= b + "." + y <==> a == b && x <= y
  {
    var u, v := a + "." + x, b + "." + y;
    CutOfDotted(a, x);
    CutOfDotted(b, y);
    if u <= v {
      CutOfPrefix(u, v, '.');
      assert a == u[..|a|] == v[..|a|] == b;
      assert x == u[|a| + 1..] && y == v[|a| + 1..];
      assert forall i | 0 <= i < |x| :: x[i] == u[|a| + 1 + i] == v[|a| + 1 + i] == y[i];
    }
  }

  lemma NoDotNoPrefix(a: string, x: string, b: string)
    requires Dotless(a) && Dotless(b)
    ensures !(a + "." + x <= b)
  {
    CutOfDotted(a, x);
    CutFindsFirst(b, '.');
    if a + "." + x <= b { CutOfPrefix(a + "." + x, b, '.'); }
  }

  /** The dotted text of `p` leads to that of `q` exactly when `p` is a proper prefix. */
  lemma {:induction false} DottedPrefixIff(p: Path, q: Path)
    requires IsKeyPath(p) && IsKeyPath(q)
    ensures Join(p) + "." <= Join(q) <==> p < q
  {
    if |q| == 1 {
      NoDotNoPrefix(p[0], if |p| == 1 then "" else Join(p[1..]) + ".", q[0]);
      assert Join(p) + "." == p[0] + "." + if |p| == 1 then "" else Join(p[1..]) + ".";
    } else if |p| == 1 {
      DotSplitsOnce(p[0], "", q[0], Join(q[1..]));
      assert p[0] + "." + "" == Join(p) + ".";
      assert p < q <==> p[0] == q[0];
    } else {
      var p', q' := p[1..], q[1..];
      assert IsKeyPath(p') && IsKeyPath(q');
      DottedPrefixIff(p', q');
      DotSplitsOnce(p[0], Join(p') + ".", q[0], Join(q'));
      assert Join(p) + "." == p[0] + "." + (Join(p') + ".");
      assert p == [p[0]] + p' && q == [q[0]] + q';
    }
  }

  lemma {:induction false} JoinIsInjective(p: Path, q: Path)
    requires IsKeyPath(p) && IsKeyPath(q) && Join(p) == Join(q)
    ensures p == q
  {
    if |q| > 1 { NoDotNoPrefix(q[0], Join(q[1..]), p[0]); }
    if |p| > 1 { NoDotNoPrefix(p[0], Join(p[1..]), q[0]); }
    if |p| > 1 && |q| > 1 {
      DotSplitsOnce(p[0], Join(p[1..]), q[0], Join(q[1..]));
      DotSplitsOnce(q[0], Join(q[1..]), p[0], Join(p[1..]));
      assert IsKeyPath(p[1..]) && IsKeyPath(q[1..]);
      JoinIsInjective(p[1..], q[1..]);
      assert p == [p[0]] + p[1..] && q == [q[0]] + q[1..];
    }
  }

  /** The text test decides exactly whether the two paths overlap. */
  lemma ConflictIffOverlap(p: Path, q: Path)
    requires IsKeyPath(p) && IsKeyPath(q)
    ensures PathsConflict(Join(p), Join(q)) <==> Overlap(p, q)
  {
    DottedPrefixIff(p, q);
    DottedPrefixIff(q, p);
    if Join(p) == Join(q) { JoinIsInjective(p, q); }
    assert Overlap(p, q) <==> p == q || p < q || q < p;
  }

  // ----- the tree builder

  /** The dictionary that the builder descends into below `part`: a missing or null
      entry is replaced by an empty one; None where a value is in the way. */
  function Below(t: Tree, part: string): Option<Tree> {
    if part !in t || t[part] == Leaf(Null) then Some(map[])
    else if t[part].Dict? then Some(t[part].entries)
    else None
  }

  /** `_apply_override`; None is its ValueError. */
  function Apply(t: Tree, path: Path, node: Node): Option<Tree>
    requires path != []
    decreases |path|
  {
    if |path| == 1 then
      if path[0] in t then None else Some(t[path[0] := node])
    else
      var below := Below(t, path[0]);
      if below.None? then None
      else
        var sub := Apply(below.value, path[1..], node);
        if sub.None? then None else Some(t[path[0] := Dict(sub.value)])
  }

  /** The non-null leaf at a path. */
  function LeafAt(t: Tree, path: Path): Option<Value>
    requires path != []
    decreases |path|
  {
    if path[0] !in t then None
    else match t[path[0]]
      case Leaf(v) => if |path| == 1 && v != Null then Some(v) else None
      case Dict(entries) => if |path| == 1 then None else LeafAt(entries, path[1..])
  }

  lemma PrefixStep(p: Path, q: Path)
    requires p != [] && q != []
    ensures Overlap(p, q) <==> p[0] == q[0] && (|p| == 1 || |q| == 1 || Overlap(p[1..], q[1..]))
  {
    assert p == [p[0]] + p[1..] && q == [q[0]] + q[1..];
    assert p <= q <==> p[0] == q[0] && p[1..] <= q[1..];
    assert q <= p <==> p[0] == q[0] && q[1..] <= p[1..];
  }

  /** Following `rest` into `n` ends at an entry that exists or hits a value on the way. */
  predicate Refuses(n: Node, rest: Path)
    decreases |rest|
  {
    rest == [] ||
    match n
    case Leaf(v) => v != Null
    case Dict(entries) => rest[0] in entries && Refuses(entries[rest[0]], rest[1..])
  }

  /** What keeps a later override with path `q` from being applied after `a`: `q` is on
      the way to `a`, or leads into the value of `a` and is refused there. */
  predicate Blocks(a: Override, q: Path) {
    q <= a.path || (a.path <= q && Refuses(a.node, q[|a.path|..]))
  }

  lemma BlocksStep(p: Path, v: Node, q: Path)
    requires p != [] && q != []
    ensures Blocks(Override(p, v), q) <==>
              && p[0] == q[0]
              && (if |p| == 1 then |q| == 1 || Refuses(v, q[1..])
                  else |q| == 1 || Blocks(Override(p[1..], v), q[1..]))
  {
    assert p == [p[0]] + p[1..] && q == [q[0]] + q[1..];
    assert p <= q <==> p[0] == q[0] && p[1..] <= q[1..];
    assert q <= p <==> p[0] == q[0] && q[1..] <= p[1..];
    if p <= q { assert q[1..][|p| - 1..] == q[|p|..]; }
  }

  /** Below a node, an override is refused exactly where `Refuses` says. */
  lemma {:induction false} RefusedBelow(t: Tree, q: Path, w: Node)
    requires q != [] && q[0] in t
    ensures Apply(t, q, w).None? <==> Refuses(t[q[0]], q[1..])
    decreases |q|
  {
    if |q| > 1 && t[q[0]].Dict? {
      var sub := t[q[0]].entries;
      if q[1] in sub { RefusedBelow(sub, q[1..], w); } else { FreshPartIsFree(sub, q[1..], w); }
    } else if |q| > 1 {
      EmptyTreeIsFree(q[1..], w);
    }
  }

  lemma FreshPartIsFree(t: Tree, q: Path, w: Node)
    requires q != [] && q[0] !in t
    ensures Apply(t, q, w).Some?
  {
    if |q| > 1 { EmptyTreeIsFree(q[1..], w); }
  }

  /** An applied override, whatever its value, keeps from being applied exactly the
      paths that it blocks. */
  lemma {:induction false} ApplyBlocks(t: Tree, p: Path, v: Node, q: Path, w: Node)
    requires p != [] && q != [] && Apply(t, p, v).Some?
    ensures Apply(Apply(t, p, v).value, q, w).None? <==> Apply(t, q, w).None? || Blocks(Override(p, v), q)
    decreases |p|
  {
    BlocksStep(p, v, q);
    if p[0] == q[0] {
      if |p| == 1 {
        FreshPartIsFree(t, q, w);
        RefusedBelow(Apply(t, p, v).value, q, w);
      } else if |q| > 1 {
        ApplyBlocks(Below(t, p[0]).value, p[1..], v, q[1..], w);
      }
    }
  }

  /** A value that is not a mapping blocks exactly the paths that overlap its own. */
  lemma LeafBlocksIffOverlap(a: Override, q: Path)
    requires a.node.Leaf? && a.node.value != Null
    ensures Blocks(a, q) <==> Overlap(a.path, q)
  {
  }

  /** Applying a leaf sets the leaf at its path and no other. */
  lemma {:induction false} ApplySetsLeaf(t: Tree, p: Path, v: Value, q: Path)
    requires p != [] && q != [] && v != Null && Apply(t, p, Leaf(v)).Some?
    ensures LeafAt(Apply(t, p, Leaf(v)).value, q) == if p == q then Some(v) else LeafAt(t, q)
    decreases |p|
  {
    if p[0] == q[0] {
      assert p == [p[0]] + p[1..] && q == [q[0]] + q[1..];
      if |p| > 1 && |q| > 1 {
        ApplySetsLeaf(Below(t, p[0]).value, p[1..], v, q[1..]);
      }
    }
  }

  /** Overrides on paths that do not overlap can be applied in either order. */
  lemma {:induction false} ApplyCommutes(t: Tree, p: Path, v: Node, q: Path, w: Node)
    requires p != [] && q != [] && !Overlap(p, q)
    requires Apply(t, p, v).Some? && Apply(Apply(t, p, v).value, q, w).Some?
    ensures Apply(t, q, w).Some?
    ensures Apply(Apply(t, q, w).value, p, v) == Apply(Apply(t, p, v).value, q, w)
    decreases |p|
  {
    PrefixStep(p, q);
    if p[0] == q[0] {
      var sub := Below(t, p[0]).value;
      ApplyCommutes(sub, p[1..], v, q[1..], w);
      CommuteBelow(t, p, v, q, w);
    } else {
      CommuteApart(t, p, v, q, w);
    }
  }

  lemma CommuteBelow(t: Tree, p: Path, v: Node, q: Path, w: Node)
    requires |p| > 1 && |q| > 1 && p[0] == q[0]
    requires Apply(t, p, v).Some? && Apply(Apply(t, p, v).value, q, w).Some?
    requires var sub := Below(t, p[0]).value;
             var p', q' := p[1..], q[1..];
             && Apply(sub, p', v).Some? && Apply(sub, q', w).Some?
             && Apply(Apply(sub, q', w).value, p', v) == Apply(Apply(sub, p', v).value, q', w)
    ensures Apply(t, q, w).Some?
    ensures Apply(Apply(t, q, w).value, p, v) == Apply(Apply(t, p, v).value, q, w)
  {
    var sub := Below(t, p[0]).value;
    var subP, subQ := Apply(sub, p[1..], v).value, Apply(sub, q[1..], w).value;
    var tp, tq := t[p[0] := Dict(subP)], t[p[0] := Dict(subQ)];
    assert Apply(t, p, v) == Some(tp) && Apply(t, q, w) == Some(tq);
    assert Below(tp, p[0]) == Some(subP) && Below(tq, p[0]) == Some(subQ);
    var both := Apply(subQ, p[1..], v);
    assert both.Some?;
    assert Apply(tp, q, w).value == t[p[0] := Dict(both.value)] == Apply(tq, p, v).value;
  }

  /** What one override writes at the first part of its path. */
  function Entry(t: Tree, p: Path, v: Node): Option<Node>
    requires p != []
  {
    if |p| == 1 then (if p[0] in t then None else Some(v))
    else
      var below := Below(t, p[0]);
      if below.None? then None
      else
        var sub := Apply(below.value, p[1..], v);
        if sub.None? then None else Some(Dict(sub.value))
  }

  lemma ApplyWritesEntry(t: Tree, p: Path, v: Node)
    requires p != []
    ensures Apply(t, p, v) == if Entry(t, p, v).None? then None else Some(t[p[0] := Entry(t, p, v).value])
  {
  }

  lemma EntryIsLocal(t: Tree, p: Path, v: Node, k: string, n: Node)
    requires p != [] && k != p[0]
    ensures Entry(t[k := n], p, v) == Entry(t, p, v)
  {
    assert Below(t[k := n], p[0]) == Below(t, p[0]);
  }

  lemma CommuteApart(t: Tree, p: Path, v: Node, q: Path, w: Node)
    requires p != [] && q != [] && p[0] != q[0]
    requires Apply(t, p, v).Some? && Apply(Apply(t, p, v).value, q, w).Some?
    ensures Apply(t, q, w).Some?
    ensures Apply(Apply(t, q, w).value, p, v) == Apply(Apply(t, p, v).value, q, w)
  {
    ApplyWritesEntry(t, p, v);
    ApplyWritesEntry(t, q, w);
    var ep := Entry(t, p, v).value;
    EntryIsLocal(t, q, w, p[0], ep);
    ApplyWritesEntry(t[p[0] := ep], q, w);
    var eq := Entry(t, q, w).value;
    EntryIsLocal(t, p, v, q[0], eq);
    ApplyWritesEntry(t[q[0] := eq], p, v);
    assert t[p[0] := ep][q[0] := eq] == t[q[0] := eq][p[0] := ep];
  }

  // ----- lists of overrides

  ghost predicate NonEmptyPaths(es: seq<Override>) {
    forall j | 0 <= j < |es| :: es[j].path != []
  }

  ghost predicate LeafOverrides(es: seq<Override>) {
    forall i | 0 <= i < |es| :: IsKeyPath(es[i].path) && es[i].node.Leaf? && es[i].node.value != Null
  }

  function ApplyAll(t: Tree, es: seq<Override>): Option<Tree>
    requires NonEmptyPaths(es)
    decreases |es|
  {
    if es == [] then Some(t)
    else
      var next := Apply(t, es[0].path, es[0].node);
      if next.None? then None else ApplyAll(next.value, es[1..])
  }

  ghost predicate Free(t: Tree, es: seq<Override>)
    requires NonEmptyPaths(es)
  {
    forall i | 0 <= i < |es| :: Apply(t, es[i].path, es[i].node).Some?
  }

  ghost predicate ConflictFree(es: seq<Override>) {
    forall i, j | 0 <= i < j < |es| :: !Overlap(es[i].path, es[j].path)
  }

  ghost predicate NoneBlocks(es: seq<Override>) {
    forall i, j | 0 <= i < j < |es| :: !Blocks(es[i], es[j].path)
  }

  /** Overrides with any values can all be applied exactly when each could be applied
      alone and none blocks a later one. */
  lemma {:induction false} ApplyAllSucceedsIff(t: Tree, es: seq<Override>)
    requires NonEmptyPaths(es)
    ensures ApplyAll(t, es).Some? <==> Free(t, es) && NoneBlocks(es)
    decreases |es|
  {
    if es != [] {
      var e, rest := es[0], es[1..];
      var next := Apply(t, e.path, e.node);
      if next.Some? {
        ApplyAllSucceedsIff(next.value, rest);
        forall j | 1 <= j < |es|
          ensures Apply(next.value, es[j].path, es[j].node).Some?
                  <==> Apply(t, es[j].path, es[j].node).Some? && !Blocks(e, es[j].path)
        {
          ApplyBlocks(t, e.path, e.node, es[j].path, es[j].node);
        }
        FreeAfterFirst(t, next.value, es);
        SplitNoneBlocks(es);
      }
    }
  }

  lemma FreeAfterFirst(t: Tree, next: Tree, es: seq<Override>)
    requires es != [] && NonEmptyPaths(es) && Apply(t, es[0].path, es[0].node) == Some(next)
    requires forall j | 1 <= j < |es| ::
               Apply(next, es[j].path, es[j].node).Some?
               <==> Apply(t, es[j].path, es[j].node).Some? && !Blocks(es[0], es[j].path)
    ensures Free(next, es[1..]) <==> Free(t, es) && forall j | 1 <= j < |es| :: !Blocks(es[0], es[j].path)
  {
    var rest := es[1..];
    assert forall j | 1 <= j < |es| :: es[j] == rest[j - 1];
    assert forall i | 0 <= i < |rest| :: rest[i] == es[i + 1];
  }

  lemma SplitNoneBlocks(es: seq<Override>)
    requires es != []
    ensures NoneBlocks(es) <==>
              NoneBlocks(es[1..]) && forall j | 1 <= j < |es| :: !Blocks(es[0], es[j].path)
  {
    var rest := es[1..];
    if NoneBlocks(rest) && forall j | 1 <= j < |es| :: !Blocks(es[0], es[j].path) {
      forall i, j | 0 <= i < j < |es| ensures !Blocks(es[i], es[j].path) {
        if i > 0 { assert es[i] == rest[i - 1] && es[j] == rest[j - 1]; }
      }
    }
    if NoneBlocks(es) {
      forall i, j | 0 <= i < j < |rest| ensures !Blocks(rest[i], rest[j].path) {
        assert rest[i] == es[i + 1] && rest[j] == es[j + 1];
      }
    }
  }

  /** For values that are not mappings: exactly when no two paths overlap. */
  lemma LeafOverridesApplyIff(t: Tree, es: seq<Override>)
    requires LeafOverrides(es)
    ensures ApplyAll(t, es).Some? <==> Free(t, es) && ConflictFree(es)
  {
    ApplyAllSucceedsIff(t, es);
    forall i, j | 0 <= i < j < |es| ensures Blocks(es[i], es[j].path) <==> Overlap(es[i].path, es[j].path) {
      LeafBlocksIffOverlap(es[i], es[j].path);
    }
  }

  /** On success the non-null leaves are those of the start plus exactly the overrides. */
  lemma {:induction false} LeavesAreTheOverrides(t: Tree, es: seq<Override>, q: Path)
    requires LeafOverrides(es) && ApplyAll(t, es).Some? && q != []
    ensures var leaf := LeafAt(ApplyAll(t, es).value, q);
            if exists i | 0 <= i < |es| :: es[i].path == q
            then exists i | 0 <= i < |es| :: es[i].path == q && leaf == Some(es[i].node.value)
            else leaf == LeafAt(t, q)
    decreases |es|
  {
    if es != [] {
      var e, rest := es[0], es[1..];
      var next := Apply(t, e.path, e.node).value;
      ApplySetsLeaf(t, e.path, e.node.value, q);
      LeavesAreTheOverrides(next, rest, q);
      if j :| 0 <= j < |rest| && rest[j].path == q {
        var i :| 0 <= i < |rest| && rest[i].path == q
                 && LeafAt(ApplyAll(t, es).value, q) == Some(rest[i].node.value);
        assert es[i + 1] == rest[i];
      } else {
        assert forall i | 1 <= i < |es| :: es[i] == rest[i - 1];
      }
    }
  }

  // ----- order does not matter

  /** The `i`-th override moved before all others. */
  function Fronted(es: seq<Override>, i: nat): (fs: seq<Override>)
    requires i < |es|
  {
    [es[i]] + (es[..i] + es[i + 1..])
  }

  /** What is left between the first override and the one moved before it. */
  function Others(es: seq<Override>, i: nat): seq<Override>
    requires 0 < i < |es|
  {
    es[1..i] + es[i + 1..]
  }

  lemma FrontedTail(es: seq<Override>, i: nat)
    requires 0 < i < |es| && NonEmptyPaths(es)
    ensures NonEmptyPaths(Others(es, i))
    ensures Fronted(es[1..], i - 1) == [es[i]] + Others(es, i)
    ensures Fronted(es, i) == [es[i]] + ([es[0]] + Others(es, i))
  {
    assert es[1..][..i - 1] == es[1..i] && es[1..][i..] == es[i + 1..];
    assert es[..i] == [es[0]] + es[1..i];
  }

  /** None of the first `n` paths overlaps `q`. */
  ghost predicate ApartFrom(es: seq<Override>, n: nat, q: Path)
    requires n <= |es|
  {
    forall j | 0 <= j < n :: !Overlap(es[j].path, q)
  }

  lemma ApartTail(es: seq<Override>, n: nat, q: Path)
    requires 0 < n <= |es| && NonEmptyPaths(es) && ApartFrom(es, n, q)
    ensures NonEmptyPaths(es[1..]) && ApartFrom(es[1..], n - 1, q)
  {
  }

  lemma {:induction false} MoveToFront(t: Tree, es: seq<Override>, i: nat)
    requires i < |es| && NonEmptyPaths(es)
    requires ApplyAll(t, es).Some?
    requires ApartFrom(es, i, es[i].path)
    ensures NonEmptyPaths(Fronted(es, i)) && ApplyAll(t, Fronted(es, i)) == ApplyAll(t, es)
    decreases |es|
  {
    if i == 0 {
      assert Fronted(es, 0) == es;
    } else {
      var x, y, rest := es[i], es[0], es[1..];
      var ty := Apply(t, y.path, y.node).value;
      assert ApplyAll(ty, rest) == ApplyAll(t, es);
      ApartTail(es, i, x.path);
      MoveToFront(ty, rest, i - 1);
      FrontedTail(es, i);
      SwapFirstTwo(t, x, y, Others(es, i));
    }
  }

  lemma ApplyFirst(t: Tree, e: Override, rest: seq<Override>)
    requires e.path != [] && NonEmptyPaths(rest)
    ensures NonEmptyPaths([e] + rest)
    ensures ApplyAll(t, [e] + rest) ==
            if Apply(t, e.path, e.node).None? then None else ApplyAll(Apply(t, e.path, e.node).value, rest)
  {
    assert ([e] + rest)[1..] == rest;
  }

  lemma SwapFirstTwo(t: Tree, x: Override, y: Override, rest: seq<Override>)
    requires x.path != [] && y.path != [] && NonEmptyPaths(rest)
    requires !Overlap(y.path, x.path) && Apply(t, y.path, y.node).Some?
    requires ApplyAll(Apply(t, y.path, y.node).value, [x] + rest).Some?
    ensures NonEmptyPaths([x] + ([y] + rest))
    ensures ApplyAll(t, [x] + ([y] + rest)) == ApplyAll(Apply(t, y.path, y.node).value, [x] + rest)
  {
    var ty := Apply(t, y.path, y.node).value;
    ApplyFirst(ty, x, rest);
    ApplyCommutes(t, y.path, y.node, x.path, x.node);
    ApplyFirst(t, x, [y] + rest);
    ApplyFirst(Apply(t, x.path, x.node).value, y, rest);
  }

  lemma MoveKeepsElements(es: seq<Override>, i: nat)
    requires i < |es|
    ensures multiset(es) == multiset([es[i]]) + multiset(es[..i] + es[i + 1..])
  {
    assert es == es[..i] + [es[i]] + es[i + 1..];
  }

  /** Any order of the same leaf overrides builds the same tree. */
  lemma {:induction false} OrderDoesNotMatter(t: Tree, a: seq<Override>, b: seq<Override>)
    requires LeafOverrides(a) && LeafOverrides(b)
    requires multiset(a) == multiset(b) && ApplyAll(t, a).Some?
    ensures ApplyAll(t, b) == ApplyAll(t, a)
    decreases |b|
  {
    if b == [] {
      assert |multiset(a)| == |a|;
    } else {
      var x := b[0];
      var i := TakeOut(a, b);
      LeafOverridesApplyIff(t, a);
      MoveToFront(t, a, i);
      var rest := a[..i] + a[i + 1..];
      assert Fronted(a, i)[1..] == rest;
      LeafRest(a, i);
      OrderDoesNotMatter(Apply(t, x.path, x.node).value, rest, b[1..]);
    }
  }

  lemma TakeOut(a: seq<Override>, b: seq<Override>) returns (i: nat)
    requires multiset(a) == multiset(b) && b != []
    ensures i < |a| && a[i] == b[0] && multiset(a[..i] + a[i + 1..]) == multiset(b[1..])
  {
    assert b == [b[0]] + b[1..];
    assert b[0] in multiset(b);
    assert b[0] in a;
    i :| 0 <= i < |a| && a[i] == b[0];
    MoveKeepsElements(a, i);
    assert multiset(b) == multiset([a[i]]) + multiset(b[1..]);
    assert multiset(a[..i] + a[i + 1..]) == multiset(a) - multiset([a[i]]);
    assert multiset(b[1..]) == multiset(b) - multiset([a[i]]);
  }

  lemma LeafRest(a: seq<Override>, i: nat)
    requires LeafOverrides(a) && i < |a|
    ensures LeafOverrides(a[..i] + a[i + 1..])
  {
    var rest := a[..i] + a[i + 1..];
    forall j | 0 <= j < |rest|
      ensures IsKeyPath(rest[j].path) && rest[j].node.Leaf? && rest[j].node.value != Null
    {
      assert rest[j] == if j < i then a[j] else a[j + 1];
    }
  }

  // ----- raw overrides

  type YamlParser = string -> Option<Node>

  /** `_extract_override_key`; None is its ServiceError. */
  function ExtractKey(raw: string): Option<string> {
    var i := Cut(raw, '=');
    if i.None? then None
    else
      CutFindsFirst(raw, '=');
      OrNone(Strip(raw[..i.value]))
  }

  /** One raw `key=value` text: None where the builder raises before it touches the tree. */
  function ParseOverride(raw: string, known: Path -> bool, yaml: YamlParser): (o: Option<Override>)
    ensures o.Some? ==> o.value.path != []
  {
    var i := Cut(raw, '=');
    if i.None? then None
    else
      CutFindsFirst(raw, '=');
      var path := ParsePath(raw[..i.value]);
      if path.None? || !known(path.value) then None
      else
        var text := raw[i.value + 1..];
        var node := if text == "" then Some(Leaf(Scalar(""))) else yaml(text);
        if node.None? || node.value == Leaf(Null) then None else Some(Override(path.value, node.value))
  }

  ghost predicate AllParse(raws: seq<Option<string>>, known: Path -> bool, yaml: YamlParser) {
    forall i | 0 <= i < |raws| :: raws[i].Some? ==> ParseOverride(raws[i].value, known, yaml).Some?
  }

  /** The overrides that a list of raw texts stands for, in order. */
  function Parsed(raws: seq<Option<string>>, known: Path -> bool, yaml: YamlParser): (es: seq<Override>)
    ensures forall i | 0 <= i < |es| :: es[i].path != []
  {
    if raws == [] then []
    else
      var rest := Parsed(raws[1..], known, yaml);
      if raws[0].None? then rest
      else
        var o := ParseOverride(raws[0].value, known, yaml);
        if o.None? then rest else [o.value] + rest
  }

  /** `i` is the first "=" of a text. */
  ghost predicate SplitsAt(raw: string, i: nat) {
    i < |raw| && raw[i] == '=' && '=' !in raw[..i]
  }

  lemma CutAtFirst(raw: string)
    ensures forall i: nat :: SplitsAt(raw, i) <==> Cut(raw, '=') == Some(i)
  {
    CutFindsFirst(raw, '=');
    forall i: nat | SplitsAt(raw, i) ensures Cut(raw, '=') == Some(i) {
      CutAfter(raw[..i], '=', raw[i + 1..]);
      assert raw == raw[..i] + ['='] + raw[i + 1..];
    }
  }

  /** The command line takes as key what stands before the first "=", trimmed; it fails
      exactly when there is no "=" or nothing but blanks before it. */
  lemma ExtractKeyIff(raw: string)
    ensures '=' !in raw ==> ExtractKey(raw).None?
    ensures forall i: nat | SplitsAt(raw, i) ::
              ExtractKey(raw) == if Blank(raw[..i]) then None else Some(Strip(raw[..i]))
  {
    CutFindsFirst(raw, '=');
    CutAtFirst(raw);
    if Cut(raw, '=').Some? { StripProps(raw[..Cut(raw, '=').value]); }
  }

  /** A text is an override exactly when what precedes its first "=" is a known path and
      what follows is empty or YAML other than null. */
  lemma ParseOverrideIff(raw: string, known: Path -> bool, yaml: YamlParser, o: Override)
    ensures ParseOverride(raw, known, yaml) == Some(o) <==>
              exists i: nat :: SplitsAt(raw, i) && ParsePath(raw[..i]) == Some(o.path) && known(o.path)
                && o.node != Leaf(Null)
                && (if i + 1 == |raw| then o.node == Leaf(Scalar("")) else yaml(raw[i + 1..]) == Some(o.node))
  {
    CutFindsFirst(raw, '=');
    CutAtFirst(raw);
    if Cut(raw, '=').Some? { assert SplitsAt(raw, Cut(raw, '=').value); }
  }

  /** The builder and the command line read the same key from a text the builder accepts. */
  lemma SameKeyText(raw: string, known: Path -> bool, yaml: YamlParser)
    requires ParseOverride(raw, known, yaml).Some?
    ensures ExtractKey(raw) == Some(Join(ParseOverride(raw, known, yaml).value.path))
    ensures IsKeyPath(ParseOverride(raw, known, yaml).value.path)
  {
    CutFindsFirst(raw, '=');
    ParsePathGivesKeyPath(raw[..Cut(raw, '=').value]);
  }

  lemma {:induction false} JoinHasGoodDots(p: Path)
    requires IsKeyPath(p)
    ensures GoodDots(Join(p))
  {
    if |p| == 1 {
      assert Join(p) == p[0];
    } else {
      var head, rest, key := p[0], Join(p[1..]), Join(p);
      assert IsKeyPath(p[1..]);
      JoinHasGoodDots(p[1..]);
      assert key[0] == head[0] && key[|key| - 1] == rest[|rest| - 1];
      forall i | 0 <= i < |key| - 1 ensures !(key[i] == '.' && key[i + 1] == '.') {
        if i < |head| {
          assert key[i] == head[i];
        } else if i == |head| {
          assert key[i + 1] == rest[0];
        } else {
          assert key[i] == rest[i - |head| - 1] && key[i + 1] == rest[i - |head|];
        }
      }
    }
  }

  lemma SplitOfJoin(p: Path)
    requires IsKeyPath(p)
    ensures Split(Join(p)) == p
  {
    JoinHasGoodDots(p);
    NoEmptyParts(Join(p));
    SplitJoins(Join(p));
    JoinIsInjective(Split(Join(p)), p);
  }

  /** A text written from a known path and a value is read back as that path and what
      YAML makes of the value. */
  lemma RenderedTextParses(p: Path, text: string, known: Path -> bool, yaml: YamlParser)
    requires IsKeyPath(p) && Trimmed(Join(p)) && '=' !in Join(p) && known(p)
    ensures var node := if text == "" then Some(Leaf(Scalar(""))) else yaml(text);
            ParseOverride(Join(p) + "=" + text, known, yaml)
            == if node.None? || node.value == Leaf(Null) then None else Some(Override(p, node.value))
  {
    var key := Join(p);
    var raw := key + "=" + text;
    CutAfter(key, '=', text);
    assert raw[..|key|] == key && raw[|key| + 1..] == text;
    StripProps(key);
    JoinHasGoodDots(p);
    PathAcceptedIff(key);
    SplitOfJoin(p);
  }

  // ----- builder against text test

  lemma {:induction false} EmptyTreeIsFree(p: Path, node: Node)
    requires p != []
    ensures Apply(map[], p, node).Some?
    decreases |p|
  {
    if |p| > 1 { EmptyTreeIsFree(p[1..], node); }
  }

  /** Starting from no configuration, a list of overrides builds a tree exactly when
      none of them blocks a later one. */
  lemma BuildSucceedsIffNoneBlocks(es: seq<Override>)
    requires NonEmptyPaths(es)
    ensures ApplyAll(map[], es).Some? <==> NoneBlocks(es)
  {
    ApplyAllSucceedsIff(map[], es);
    forall i | 0 <= i < |es| ensures Apply(map[], es[i].path, es[i].node).Some? {
      EmptyTreeIsFree(es[i].path, es[i].node);
    }
  }

  /** The texts that are there. */
  function Present(raws: seq<Option<string>>): seq<string> {
    if raws == [] then []
    else (if raws[0].None? then [] else [raws[0].value]) + Present(raws[1..])
  }

  function KeyText(raw: string): string {
    OrEmpty(ExtractKey(raw))
  }

  /** No two keys conflict under the command line's text test. */
  ghost predicate NoTextConflict(raws: seq<Option<string>>) {
    var texts := Present(raws);
    forall i, j | 0 <= i < j < |texts| :: !PathsConflict(KeyText(texts[i]), KeyText(texts[j]))
  }

  lemma {:induction false} ParsedMatchesPresent(raws: seq<Option<string>>, known: Path -> bool, yaml: YamlParser)
    requires AllParse(raws, known, yaml)
    ensures var es, texts := Parsed(raws, known, yaml), Present(raws);
            |es| == |texts| && forall i | 0 <= i < |es| :: ParseOverride(texts[i], known, yaml) == Some(es[i])
  {
    if raws != [] {
      var es, texts := Parsed(raws[1..], known, yaml), Present(raws[1..]);
      ParsedMatchesPresent(raws[1..], known, yaml);
      if raws[0].None? {
        assert Parsed(raws, known, yaml) == es && Present(raws) == texts;
      } else {
        var o := ParseOverride(raws[0].value, known, yaml).value;
        assert Parsed(raws, known, yaml) == [o] + es && Present(raws) == [raws[0].value] + texts;
      }
    }
  }

  /** The text test on the keys is the overlap test on the paths that the builder uses. */
  lemma TextConflictIffOverlap(raws: seq<Option<string>>, known: Path -> bool, yaml: YamlParser)
    requires AllParse(raws, known, yaml)
    ensures NoTextConflict(raws) <==> ConflictFree(Parsed(raws, known, yaml))
  {
    ParsedMatchesPresent(raws, known, yaml);
    var es, texts := Parsed(raws, known, yaml), Present(raws);
    forall i | 0 <= i < |es| ensures IsKeyPath(es[i].path) && KeyText(texts[i]) == Join(es[i].path) {
      SameKeyText(texts[i], known, yaml);
    }
    forall i, j | 0 <= i < j < |es|
      ensures PathsConflict(KeyText(texts[i]), KeyText(texts[j])) <==> Overlap(es[i].path, es[j].path)
    {
      ConflictIffOverlap(es[i].path, es[j].path);
    }
  }

  /** A later path that leads into the mapping of an earlier override and is merged there. */
  predicate Merges(a: Override, q: Path) {
    a.path < q && !Refuses(a.node, q[|a.path|..])
  }

  ghost predicate NoneMerges(es: seq<Override>) {
    forall i, j | 0 <= i < j < |es| :: !Merges(es[i], es[j].path)
  }

  lemma OverlapIffBlocksOrMerges(a: Override, q: Path)
    ensures Overlap(a.path, q) <==> Blocks(a, q) || Merges(a, q)
    ensures !(Blocks(a, q) && Merges(a, q))
  {
  }

  lemma ConflictFreeIff(es: seq<Override>)
    ensures ConflictFree(es) <==> NoneBlocks(es) && NoneMerges(es)
  {
    forall i, j | 0 <= i < j < |es|
      ensures Overlap(es[i].path, es[j].path) <==> Blocks(es[i], es[j].path) || Merges(es[i], es[j].path)
    {
      OverlapIffBlocksOrMerges(es[i], es[j].path);
    }
  }

  /** Over all texts that parse, whatever their values: keys that pass the text test
      always build; and builder and text test agree exactly when some override blocks
      a later one or none is merged into an earlier one's mapping. */
  lemma BuilderAgreesWithTextTestIff(raws: seq<Option<string>>, known: Path -> bool, yaml: YamlParser)
    requires AllParse(raws, known, yaml)
    ensures var es := Parsed(raws, known, yaml);
            var builds := ApplyAll(map[], es).Some?;
            && (NoTextConflict(raws) ==> builds)
            && ((builds <==> NoTextConflict(raws)) <==> !NoneBlocks(es) || NoneMerges(es))
  {
    var es := Parsed(raws, known, yaml);
    TextConflictIffOverlap(raws, known, yaml);
    BuildSucceedsIffNoneBlocks(es);
    ConflictFreeIff(es);
  }

  lemma LeavesNeverMerge(es: seq<Override>)
    requires forall i | 0 <= i < |es| :: es[i].node.Leaf? && es[i].node.value != Null
    ensures NoneMerges(es)
  {
  }

  /** In particular, for values that are not mappings the tree is built exactly when no
      two keys conflict as text. */
  lemma BuildSucceedsIffNoTextConflict(raws: seq<Option<string>>, known: Path -> bool, yaml: YamlParser)
    requires AllParse(raws, known, yaml)
    requires forall i | 0 <= i < |Parsed(raws, known, yaml)| :: Parsed(raws, known, yaml)[i].node.Leaf?
    ensures ApplyAll(map[], Parsed(raws, known, yaml)).Some? <==> NoTextConflict(raws)
  {
    var es, texts := Parsed(raws, known, yaml), Present(raws);
    ParsedMatchesPresent(raws, known, yaml);
    forall i | 0 <= i < |es| ensures es[i].node.value != Null {
      assert ParseOverride(texts[i], known, yaml) == Some(es[i]);
    }
    LeavesNeverMerge(es);
    BuilderAgreesWithTextTestIff(raws, known, yaml);
  }

  const WHOLE := "a={}"
  const PART := "a.y=2"

  lemma SampleTexts(known: Path -> bool, yaml: YamlParser)
    requires known(["a"]) && known(["a", "y"])
    requires yaml("{}") == Some(Dict(map[])) && yaml("2") == Some(Leaf(Scalar("2")))
    ensures ParseOverride(WHOLE, known, yaml) == Some(Override(["a"], Dict(map[])))
    ensures ParseOverride(PART, known, yaml) == Some(Override(["a", "y"], Leaf(Scalar("2"))))
  {
    assert ParseOverride(WHOLE, known, yaml) == Some(Override(["a"], Dict(map[]))) by {
      assert Join(["a"]) == "a" && WHOLE == "a" + "=" + "{}";
      RenderedTextParses(["a"], "{}", known, yaml);
    }
    assert ParseOverride(PART, known, yaml) == Some(Override(["a", "y"], Leaf(Scalar("2")))) by {
      assert ["a", "y"][1..] == ["y"] && Join(["a", "y"]) == "a.y" && PART == "a.y" + "=" + "2";
      RenderedTextParses(["a", "y"], "2", known, yaml);
    }
  }

  /** Two texts whose keys conflict: the mapping first and the key below it second are
      merged into one tree, and in the other order they are rejected. */
  lemma MappingValuesEscapeTheTest(known: Path -> bool, yaml: YamlParser)
    requires known(["a"]) && known(["a", "y"])
    requires yaml("{}") == Some(Dict(map[])) && yaml("2") == Some(Leaf(Scalar("2")))
    ensures PathsConflict(KeyText(WHOLE), KeyText(PART))
    ensures ApplyAll(map[], Parsed([Some(WHOLE), Some(PART)], known, yaml)).Some?
    ensures ApplyAll(map[], Parsed([Some(PART), Some(WHOLE)], known, yaml)).None?
  {
    SampleTexts(known, yaml);
    SameKeyText(WHOLE, known, yaml);
    SameKeyText(PART, known, yaml);
    var whole, part := Override(["a"], Dict(map[])), Override(["a", "y"], Leaf(Scalar("2")));
    ParsedPair(WHOLE, PART, known, yaml);
    ParsedPair(PART, WHOLE, known, yaml);
    assert "a" + "." == "a." && "a." <= "a.y";
    BuildSucceedsIffNoneBlocks([whole, part]);
    BuildSucceedsIffNoneBlocks([part, whole]);
    assert part.path[1..] == ["y"];
    assert !Refuses(whole.node, ["y"]);
    assert whole.path <= part.path && Blocks(part, whole.path);
    assert [part, whole][0] == part && [part, whole][1] == whole;
  }

  lemma ParsedPair(x: string, y: string, known: Path -> bool, yaml: YamlParser)
    requires ParseOverride(x, known, yaml).Some? && ParseOverride(y, known, yaml).Some?
    ensures Parsed([Some(x), Some(y)], known, yaml)
            == [ParseOverride(x, known, yaml).value, ParseOverride(y, known, yaml).value]
  {
    var raws := [Some(x), Some(y)];
    assert raws[1..] == [Some(y)] && [Some(y)][1..] == [];
    assert Parsed([], known, yaml) == [];
    assert Parsed([Some(y)], known, yaml) == [ParseOverride(y, known, yaml).value];
  }
}
