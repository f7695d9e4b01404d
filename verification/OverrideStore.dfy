/** The override tree as the loader builds it (tensorcast/daemon_runtime_config.py):
    nested dictionaries, updated in place. */
module OverrideStore {
  import opened Common
  import opened Overrides

  datatype Entry = Val(value: Value) | Sub(node: DictNode)

  ghost function Owned(e: Entry): set<DictNode>
    reads if e.Sub? then {e.node} else {}
  {
    if e.Sub? then e.node.repr else {}
  }

  ghost function Meaning(e: Entry): Node
    requires e.Sub? ==> e.node.Valid()
    reads if e.Sub? then {e.node} + e.node.repr else {}
  {
    match e case Val(v) => Leaf(v) case Sub(c) => Dict(c.Contents())
  }

  class DictNode {
    var entries: map<string, Entry>
    ghost var repr: set<DictNode>

    ghost predicate ChildOk(k: string)
      requires k in entries
      reads this, repr
      decreases repr, 0
    {
      entries[k].Sub? ==>
        && entries[k].node in repr && entries[k].node.repr < repr && this !in entries[k].node.repr
        && entries[k].node.Valid()
    }

    ghost predicate Apart(k: string, l: string)
      requires k in entries && l in entries && ChildOk(k) && ChildOk(l)
      reads this, repr
      decreases repr, 1
    {
      entries[k].Sub? && entries[l].Sub? && k != l ==> entries[k].node.repr !! entries[l].node.repr
    }

    /** Nested dictionaries form a tree: no sharing and no cycle. */
    ghost predicate Valid()
      reads this, repr
      decreases repr, 2
    {
      && this in repr
      && (forall k | k in entries :: ChildOk(k))
      && (forall k, l | k in entries && l in entries :: Apart(k, l))
    }

    ghost function NodeAt(k: string): Node
      requires k in entries && ChildOk(k)
      reads this, repr
      decreases repr, 0
    {
      match entries[k] case Val(v) => Leaf(v) case Sub(c) => Dict(c.Contents())
    }

    ghost function Contents(): Tree
      requires Valid()
      reads this, repr
      decreases repr, 2
    {
      map k | k in entries :: NodeAt(k)
    }

    constructor ()
      ensures Valid() && fresh(repr) && Contents() == map[] && entries == map[] && repr == {this}
    {
      entries := map[];
      repr := {this};
    }

    /** Nothing in this tree refers to the dictionaries of `e`. */
    ghost predicate Unshared(e: Entry)
      reads this, repr, if e.Sub? then {e.node} + e.node.repr else {}
    {
      e.Sub? ==> e.node.Valid() && e.node.repr !! repr
    }

    /** Storing a value or an unshared dictionary at a free part of the path. */
    method Put(part: string, e: Entry)
      requires Valid() && (part !in entries || entries[part].Val?) && Unshared(e)
      modifies this
      ensures Valid() && entries == old(entries)[part := e]
      ensures repr == old(repr) + old(Owned(e))
      ensures Contents() == old(Contents())[part := old(Meaning(e))]
    {
      entries := entries[part := e];
      if e.Sub? {
        repr := repr + e.node.repr;
      }
      forall k | k in entries ensures ChildOk(k) && (k != part ==> NodeAt(k) == old(NodeAt(k))) {
        if k != part { assert old(ChildOk(k)); }
      }
      forall k, l | k in entries && l in entries ensures Apart(k, l) {
        if k != part && l != part { assert old(Apart(k, l)); }
      }
    }

    /** A new dictionary for the rest of a path; `e` is still unshared. */
    method PutNew(part: string, ghost e: Entry)
      requires Valid() && (part !in entries || entries[part].Val?) && Unshared(e)
      modifies this
      ensures Valid() && part in entries && entries[part].Sub? && Unshared(e)
      ensures old(repr) <= repr && fresh(repr - old(repr)) && Owned(e) == old(Owned(e)) && Meaning(e) == old(Meaning(e))
      ensures Contents() == old(Contents())[part := Dict(map[])]
    {
      var child := new DictNode();
      Put(part, Sub(child));
    }

    /** The nested dictionary at `part` takes the rest of the path. */
    method Descend(part: string, path: Path, e: Entry) returns (ok: bool)
      requires Valid() && path != [] && part in entries && entries[part].Sub? && Unshared(e)
      modifies repr
      ensures Valid() && old(repr) <= repr && fresh(repr - old(repr) - old(Owned(e)))
      ensures part in old(Contents()) && old(Contents())[part].Dict?
      ensures var sub := Overrides.Apply(old(Contents())[part].entries, path, old(Meaning(e)));
              && (ok <==> sub.Some?)
              && Contents() == if ok then old(Contents())[part := Dict(sub.value)] else old(Contents())
      decreases |path|, 1
    {
      var c := entries[part].node;
      assert ChildOk(part);
      ok := c.Apply(path, e);
      repr := repr + c.repr;
      assert this !in c.repr;
      assert forall o | o in c.repr :: o in old(repr) ==> o in old(c.repr);
      assert c.repr < repr;
      forall k | k in entries
        ensures ChildOk(k) && (k != part ==> NodeAt(k) == old(NodeAt(k)))
        ensures k != part && entries[k].Sub? ==> entries[k].node.repr == old(entries[k].node.repr)
      {
        if k != part && entries[k].Sub? {
          var d := entries[k].node;
          assert old(ChildOk(k)) && old(Apart(k, part));
          assert old(d.Valid());
          assert d in old(d.repr);
          assert d.repr == old(d.repr);
        }
      }
      forall k, l | k in entries && l in entries ensures Apart(k, l) {
        assert old(ChildOk(k)) && old(ChildOk(l));
        assert old(Apart(k, l)) && old(Apart(k, part)) && old(Apart(l, part));
      }
    }

    /** `_apply_override`: it succeeds exactly when the value-level operation does and
        then holds its result; on a conflict nothing has changed. The descent of the
        loop is written as recursion. */
    method Apply(path: Path, e: Entry) returns (ok: bool)
      requires Valid() && path != [] && Unshared(e)
      modifies repr
      ensures Valid() && old(repr) <= repr && fresh(repr - old(repr) - old(Owned(e)))
      ensures var after := Overrides.Apply(old(Contents()), path, old(Meaning(e)));
              && (ok <==> after.Some?)
              && Contents() == if ok then after.value else old(Contents())
      decreases |path|, 0
    {
      var part := path[0];
      if |path| == 1 {
        ok := part !in entries;
        if ok {
          Put(part, e);
        }
        return;
      }
      assert part in entries ==> ChildOk(part) && Contents()[part] == NodeAt(part);
      var free := part !in entries || entries[part] == Val(Null);
      if !free && entries[part].Val? {
        return false;
      }
      if free {
        PutNew(part, e);
        EmptyTreeIsFree(path[1..], Meaning(e));
      }
      assert Contents() == old(Contents())[part := Dict(Below(old(Contents()), part).value)];
      DescentStep(old(Contents()), Contents(), path, old(Meaning(e)));
      ok := Descend(part, path[1..], e);
    }
  }

  lemma DescentStep(before: Tree, now: Tree, path: Path, node: Node)
    requires |path| > 1 && Below(before, path[0]).Some?
    requires now == before[path[0] := Dict(Below(before, path[0]).value)]
    ensures var sub := Overrides.Apply(now[path[0]].entries, path[1..], node);
            Overrides.Apply(before, path, node) == if sub.None? then None else Some(now[path[0] := Dict(sub.value)])
  {
    var sub := Overrides.Apply(now[path[0]].entries, path[1..], node);
    if sub.Some? {
      assert now[path[0] := Dict(sub.value)] == before[path[0] := Dict(sub.value)];
    }
  }

  // ----- building the whole tree

  function Without(m: Tree, todo: set<string>): Tree {
    map k | k in m && k !in todo :: m[k]
  }

  lemma WithoutEnds(m: Tree)
    ensures Without(m, m.Keys) == map[] && Without(m, {}) == m
  {
  }

  lemma WithoutOneLess(m: Tree, todo: set<string>, k: string)
    requires k in todo && k in m
    ensures Without(m, todo - {k}) == Without(m, todo)[k := m[k]]
  {
  }

  /** A parsed YAML value as fresh dictionaries that nothing else refers to. */
  method Load(n: Node) returns (e: Entry)
    ensures e.Sub? ==> e.node.Valid() && fresh(e.node.repr)
    ensures Meaning(e) == n
    decreases n, 1
  {
    if n.Leaf? {
      e := Val(n.value);
    } else {
      var d := LoadDict(n);
      e := Sub(d);
    }
  }

  method LoadDict(n: Node) returns (d: DictNode)
    requires n.Dict?
    ensures d.Valid() && fresh(d.repr) && d.Contents() == n.entries
    decreases n, 0
  {
    d := new DictNode();
    var todo := n.entries.Keys;
    WithoutEnds(n.entries);
    while todo != {}
      invariant todo <= n.entries.Keys && d.Valid() && fresh(d.repr)
      invariant d.entries.Keys == n.entries.Keys - todo && d.Contents() == Without(n.entries, todo)
    {
      var k :| k in todo;
      LoadInto(d, k, n.entries[k]);
      WithoutOneLess(n.entries, todo, k);
      todo := todo - {k};
    }
  }

  method LoadInto(d: DictNode, k: string, n: Node)
    requires d.Valid() && k !in d.entries
    modifies d
    ensures d.Valid() && fresh(d.repr - old(d.repr)) && d.entries.Keys == old(d.entries.Keys) + {k}
    ensures d.Contents() == old(d.Contents())[k := n]
    decreases n, 2
  {
    var sub := Load(n);
    d.Put(k, sub);
  }

  /** One parsed override on the tree so far. */
  method ApplyOne(root: DictNode, o: Override) returns (ok: bool)
    requires root.Valid() && o.path != []
    modifies root.repr
    ensures root.Valid() && fresh(root.repr - old(root.repr))
    ensures var after := Overrides.Apply(old(root.Contents()), o.path, o.node);
            && (ok <==> after.Some?)
            && root.Contents() == if ok then after.value else old(root.Contents())
  {
    var e := Load(o.node);
    ok := root.Apply(o.path, e);
  }

  method BuildInOrder(raws: seq<Option<string>>, known: Path -> bool, yaml: YamlParser)
    returns (tree: Option<DictNode>)
    ensures tree.Some? ==> tree.value.Valid() && fresh(tree.value.repr)
    ensures tree.Some? <==> AllParse(raws, known, yaml) && ApplyAll(map[], Parsed(raws, known, yaml)).Some?
    ensures tree.Some? ==> Some(tree.value.Contents()) == ApplyAll(map[], Parsed(raws, known, yaml))
  {
    var root := new DictNode();
    for n := 0 to |raws|
      invariant root.Valid() && fresh(root.repr) && AllParse(raws[..n], known, yaml)
      invariant ApplyAll(map[], Parsed(raws, known, yaml)) == ApplyAll(root.Contents(), Parsed(raws[n..], known, yaml))
    {
      assert raws[..n + 1] == raws[..n] + [raws[n]];
      assert raws[n..][1..] == raws[n + 1..];
      if raws[n].None? {
        continue;
      }
      var o := ParseOverride(raws[n].value, known, yaml);
      if o.None? {
        return None;
      }
      ApplyFirst(root.Contents(), o.value, Parsed(raws[n + 1..], known, yaml));
      var ok := ApplyOne(root, o.value);
      if !ok {
        return None;
      }
    }
    assert raws[..|raws|] == raws && raws[|raws|..] == [];
    tree := Some(root);
  }

  /** `_build_override_tree`: None is any ValueError, a missing text is skipped. It
      succeeds exactly when every text parses and no override blocks a later one, and
      agrees with the text test exactly when one does or none is merged. */
  method BuildTree(raws: seq<Option<string>>, known: Path -> bool, yaml: YamlParser)
    returns (tree: Option<DictNode>)
    ensures tree.Some? ==> tree.value.Valid() && fresh(tree.value.repr)
    ensures tree.Some? <==> AllParse(raws, known, yaml) && NoneBlocks(Parsed(raws, known, yaml))
    ensures tree.Some? ==> Some(tree.value.Contents()) == ApplyAll(map[], Parsed(raws, known, yaml))
    ensures AllParse(raws, known, yaml) ==>
              && (NoTextConflict(raws) ==> tree.Some?)
              && ((tree.Some? <==> NoTextConflict(raws)) <==>
                    !NoneBlocks(Parsed(raws, known, yaml)) || NoneMerges(Parsed(raws, known, yaml)))
  {
    tree := BuildInOrder(raws, known, yaml);
    BuildSucceedsIffNoneBlocks(Parsed(raws, known, yaml));
    if AllParse(raws, known, yaml) {
      BuilderAgreesWithTextTestIff(raws, known, yaml);
    }
  }
}
