/** The RAM filesystem's directory tree (RuxOS, `crates/axfs_ramfs/src/dir.rs`).

    Nodes are numbered; a directory maps names to nodes and knows its parent.  The root has no
    parent.  Looking up, creating and removing walk a path string component by component. */
module RamFs {
  import opened Wrappers
  import opened Path

  datatype VfsError = AlreadyExists | NotFound | DirectoryNotEmpty | InvalidInput | NotADirectory | Unsupported

  type VfsResult<+T> = Result<T, VfsError>

  datatype NodeType = FileType | DirType | OtherType

  datatype Node = File | Dir(parent: Option<nat>, children: map<string, nat>)

  type Nodes = map<nat, Node>

  const ROOT: nat := 0

  // ------------------------------------------------------------------
  // Path strings

  function TrimStart(path: string): string {
    if path != [] && path[0] == '/' then TrimStart(path[1..]) else path
  }

  function FindSlash(path: string): (n: nat)
    ensures n <= |path| && NoSlash(path[..n]) && (n < |path| ==> path[n] == '/')
  {
    if path == [] || path[0] == '/' then 0
    else
      var n := FindSlash(path[1..]);
      assert path[..n + 1] == [path[0]] + path[1..][..n];
      n + 1
  }

  lemma {:induction false} TrimShorter(path: string)
    ensures |TrimStart(path)| <= |path|
  {
    if path != [] && path[0] == '/' { TrimShorter(path[1..]); }
  }

  /** `split_path`. */
  function SplitPath(path: string): (r: (string, Option<string>))
    ensures r.1.Some? ==> |r.1.value| < |path|
  {
    TrimShorter(path);
    var trimmed := TrimStart(path);
    var n := FindSlash(trimmed);
    if n == |trimmed| then (trimmed, None) else (trimmed[..n], Some(trimmed[n + 1..]))
  }

  // ------------------------------------------------------------------
  // Walking

  /** Children and parents exist, and parents are directories. */
  ghost predicate Closed(nodes: Nodes) {
    && (forall d, name :: HasChild(nodes, d, name) ==> nodes[d].children[name] in nodes)
    && (forall d :: d in nodes && nodes[d].Dir? && nodes[d].parent.Some? ==> nodes[d].parent.value in nodes)
  }

  predicate HasChild(nodes: Nodes, d: nat, name: string) { d in nodes && nodes[d].Dir? && name in nodes[d].children }

  /** One component from a node. */
  function Step(nodes: Nodes, d: nat, name: string): (r: VfsResult<nat>)
    requires Closed(nodes) && d in nodes
    ensures r.Ok? ==> r.value in nodes && nodes[d].Dir?
  {
    if nodes[d].File? then Err(NotADirectory)
    else if name == "" || name == "." then Ok(d)
    else if name == ".." then (if nodes[d].parent.None? then Err(NotFound) else Ok(nodes[d].parent.value))
    else if HasChild(nodes, d, name) then Ok(nodes[d].children[name])
    else Err(NotFound)
  }

  /** `lookup`, of either kind of node. */
  function Lookup(nodes: Nodes, self: nat, path: string): (r: VfsResult<nat>)
    requires Closed(nodes) && self in nodes
    ensures r.Ok? ==> r.value in nodes
    decreases |path|
  {
    var (name, rest) := SplitPath(path);
    var node := Step(nodes, self, name);
    if node.Err? || rest.None? then node else Lookup(nodes, node.value, rest.value)
  }

  /** Where `create` and `remove` act: a directory and the last component. */
  function Target(nodes: Nodes, self: nat, path: string): (r: VfsResult<(nat, string)>)
    requires Closed(nodes) && self in nodes
    ensures r.Ok? ==> r.value.0 in nodes && nodes[r.value.0].Dir?
    decreases |path|
  {
    var (name, rest) := SplitPath(path);
    if nodes[self].File? then Err(NotADirectory)
    else if rest.None? then Ok((self, name))
    else
      var node := Step(nodes, self, name);
      if node.Err? then Err(node.error) else Target(nodes, node.value, rest.value)
  }

  /** Walking over a list of components. */
  function Walk(nodes: Nodes, self: nat, parts: seq<string>): (r: VfsResult<nat>)
    requires Closed(nodes) && self in nodes
    ensures r.Ok? ==> r.value in nodes
  {
    if parts == [] then Ok(self)
    else
      var d := Walk(nodes, self, parts[..|parts| - 1]);
      if d.Err? then d else Step(nodes, d.value, parts[|parts| - 1])
  }

  lemma {:induction false} WalkFirst(nodes: Nodes, self: nat, part: string, parts: seq<string>)
    requires Closed(nodes) && self in nodes
    ensures var n := Step(nodes, self, part);
            Walk(nodes, self, [part] + parts) == if n.Err? then n else Walk(nodes, n.value, parts)
  {
    hide Step;
    var all := [part] + parts;
    if parts == [] {
      assert all[..0] == [];
    } else {
      var front := parts[..|parts| - 1];
      WalkFirst(nodes, self, part, front);
      assert all[..|all| - 1] == [part] + front;
    }
  }

  /** A leading slash changes neither the split nor what it is split into. */
  lemma SplitPathSlash(path: string)
    requires path != [] && path[0] == '/'
    ensures SplitPath(path) == SplitPath(path[1..]) && Split(path) == [""] + Split(path[1..])
  {
  }

  lemma SplitPathName(path: string)
    requires path == [] || path[0] != '/'
    ensures var (name, rest) := SplitPath(path);
            Split(path) == if rest.None? then [name] else [name] + Split(rest.value)
  {
    hide Split;
    var n := FindSlash(path);
    if n == |path| {
      assert path[..n] == path;
      SplitPart(path);
    } else {
      assert path == path[..n] + "/" + path[n + 1..];
      SplitPart(path[..n]);
      SplitConcat(path[..n], path[n + 1..]);
    }
  }

  /** The recursion over the string is the walk over its components. */
  lemma {:induction false} LookupIsWalk(nodes: Nodes, self: nat, path: string)
    requires Closed(nodes) && self in nodes
    ensures Lookup(nodes, self, path) == Walk(nodes, self, Split(path))
    decreases |path|
  {
    hide Walk, Split, SplitPath, Closed;
    if path != [] && path[0] == '/' {
      SplitPathSlash(path);
      LookupIsWalk(nodes, self, path[1..]);
      WalkFirst(nodes, self, "", Split(path[1..]));
      if nodes[self].File? { WalkFile(nodes, self, Split(path[1..])); }
    } else {
      var (name, rest) := SplitPath(path);
      SplitPathName(path);
      WalkFirst(nodes, self, name, []);
      WalkNone(nodes, self, name);
      assert [name] + [] == [name];
      if rest.Some? {
        WalkFirst(nodes, self, name, Split(rest.value));
        var n := Step(nodes, self, name);
        if n.Ok? { LookupIsWalk(nodes, n.value, rest.value); }
      }
    }
  }

  lemma WalkNone(nodes: Nodes, self: nat, name: string)
    requires Closed(nodes) && self in nodes
    ensures var n := Step(nodes, self, name); n.Ok? ==> Walk(nodes, n.value, []) == n
  {
  }

  lemma WalkFile(nodes: Nodes, self: nat, parts: seq<string>)
    requires Closed(nodes) && self in nodes && nodes[self].File? && parts != []
    ensures Walk(nodes, self, parts) == Err(NotADirectory)
  {
    WalkFirst(nodes, self, parts[0], parts[1..]);
    assert [parts[0]] + parts[1..] == parts;
  }

  /** The place a path ends at, in terms of its components. */
  function TargetOf(nodes: Nodes, self: nat, parts: seq<string>): VfsResult<(nat, string)>
    requires Closed(nodes) && self in nodes && parts != []
  {
    var d := Walk(nodes, self, parts[..|parts| - 1]);
    if d.Err? then Err(d.error)
    else if nodes[d.value].File? then Err(NotADirectory)
    else Ok((d.value, parts[|parts| - 1]))
  }

  lemma TargetFirst(nodes: Nodes, self: nat, part: string, parts: seq<string>)
    requires Closed(nodes) && self in nodes && parts != []
    ensures var n := Step(nodes, self, part);
            TargetOf(nodes, self, [part] + parts) == if n.Err? then Err(n.error) else TargetOf(nodes, n.value, parts)
  {
    hide Walk, Step;
    var all := [part] + parts;
    WalkFirst(nodes, self, part, parts[..|parts| - 1]);
    assert all[..|all| - 1] == [part] + parts[..|parts| - 1];
    assert all[|all| - 1] == parts[|parts| - 1];
  }

  lemma TargetOne(nodes: Nodes, self: nat, name: string)
    requires Closed(nodes) && self in nodes
    ensures TargetOf(nodes, self, [name]) == if nodes[self].File? then Err(NotADirectory) else Ok((self, name))
  {
    assert [name][..0] == [];
  }

  lemma {:induction false} TargetIsWalk(nodes: Nodes, self: nat, path: string)
    requires Closed(nodes) && self in nodes
    ensures Target(nodes, self, path) == TargetOf(nodes, self, Split(path))
    decreases |path|
  {
    hide TargetOf, Split, SplitPath, Closed;
    if path != [] && path[0] == '/' {
      SplitPathSlash(path);
      TargetIsWalk(nodes, self, path[1..]);
      TargetFirst(nodes, self, "", Split(path[1..]));
    } else {
      var (name, rest) := SplitPath(path);
      SplitPathName(path);
      TargetOne(nodes, self, name);
      if rest.Some? {
        TargetFirst(nodes, self, name, Split(rest.value));
        var n := Step(nodes, self, name);
        if n.Ok? { TargetIsWalk(nodes, n.value, rest.value); }
      }
    }
  }

  // ------------------------------------------------------------------
  // The tree

  /** Following names down from the root. */
  function Follow(nodes: Nodes, names: seq<string>): Option<nat> {
    if names == [] then Some(ROOT)
    else
      var d := Follow(nodes, names[..|names| - 1]);
      var name := names[|names| - 1];
      if d.Some? && HasChild(nodes, d.value, name) then Some(nodes[d.value].children[name]) else None
  }

  /** A child exists, has a proper name, is not the root, and knows its parent if it is a directory. */
  ghost predicate ChildOk(nodes: Nodes, d: nat, name: string)
    requires HasChild(nodes, d, name)
  {
    var c := nodes[d].children[name];
    IsName(name) && c in nodes && c != ROOT && (nodes[c].Dir? ==> nodes[c].parent == Some(d))
  }

  ghost predicate ChildrenOk(nodes: Nodes) {
    && ROOT in nodes && nodes[ROOT].Dir? && nodes[ROOT].parent.None?
    && (forall d, name :: HasChild(nodes, d, name) ==> ChildOk(nodes, d, name))
  }

  /** No node is held twice. */
  ghost predicate OneHolder(nodes: Nodes) {
    forall d, n, d', n' ::
      HasChild(nodes, d, n) && HasChild(nodes, d', n') && nodes[d].children[n] == nodes[d'].children[n'] ==>
        d == d' && n == n'
  }

  ghost predicate Reached(nodes: Nodes, n: nat) { exists q :: Follow(nodes, q) == Some(n) }

  ghost predicate AllReached(nodes: Nodes) { forall n :: n in nodes ==> Reached(nodes, n) }

  /** The nodes form a tree under the root, and every directory's parent is the one that holds it. */
  ghost predicate Tree(nodes: Nodes) {
    ChildrenOk(nodes) && OneHolder(nodes) && AllReached(nodes) && Closed(nodes)
  }

  lemma {:induction false} FollowIn(nodes: Nodes, q: seq<string>)
    requires ChildrenOk(nodes) && Follow(nodes, q).Some?
    ensures Follow(nodes, q).value in nodes
  {
    if q != [] {
      FollowIn(nodes, q[..|q| - 1]);
      assert ChildOk(nodes, Follow(nodes, q[..|q| - 1]).value, q[|q| - 1]);
    }
  }

  lemma OnlyEmptyIsRoot(nodes: Nodes, q: seq<string>)
    requires ChildrenOk(nodes)
    ensures q != [] ==> Follow(nodes, q) != Some(ROOT)
  {
    if q != [] && Follow(nodes, q).Some? {
      assert ChildOk(nodes, Follow(nodes, q[..|q| - 1]).value, q[|q| - 1]);
    }
  }

  /** A node has one path. */
  lemma {:induction false} OnePath(nodes: Nodes, p: seq<string>, q: seq<string>)
    requires ChildrenOk(nodes) && OneHolder(nodes) && Follow(nodes, p).Some? && Follow(nodes, p) == Follow(nodes, q)
    ensures p == q
  {
    OnlyEmptyIsRoot(nodes, p);
    OnlyEmptyIsRoot(nodes, q);
    if p != [] && q != [] {
      var p0, q0, a, b := p[..|p| - 1], q[..|q| - 1], p[|p| - 1], q[|q| - 1];
      assert HasChild(nodes, Follow(nodes, p0).value, a) && HasChild(nodes, Follow(nodes, q0).value, b);
      OnePath(nodes, p0, q0);
      assert p == p0 + [a] && q == q0 + [b];
    }
  }

  lemma TreeClosed(nodes: Nodes)
    requires ChildrenOk(nodes) && OneHolder(nodes) && AllReached(nodes)
    ensures Tree(nodes)
  {
    hide Reached, IsName;
    forall d, name | HasChild(nodes, d, name) ensures nodes[d].children[name] in nodes {
      assert ChildOk(nodes, d, name);
    }
    forall d | d in nodes && nodes[d].Dir? && nodes[d].parent.Some? ensures nodes[d].parent.value in nodes {
      var q := PathTo(nodes, d);
      ParentHolds(nodes, d, q);
    }
  }

  lemma PathTo(nodes: Nodes, n: nat) returns (q: seq<string>)
    requires AllReached(nodes) && n in nodes
    ensures Follow(nodes, q) == Some(n)
  {
    assert Reached(nodes, n);
    q :| Follow(nodes, q) == Some(n);
  }

  /** The parent of a directory other than the root is what its path without the last name reaches. */
  lemma ParentHolds(nodes: Nodes, d: nat, q: seq<string>)
    requires ChildrenOk(nodes) && Follow(nodes, q) == Some(d) && d in nodes && nodes[d].Dir?
    ensures q == [] ==> nodes[d].parent == None
    ensures q != [] ==>
              var parent := nodes[d].parent;
              parent == Follow(nodes, q[..|q| - 1]) && parent.Some? && parent.value in nodes
  {
    if q != [] {
      assert ChildOk(nodes, Follow(nodes, q[..|q| - 1]).value, q[|q| - 1]);
    }
  }

  // ------------------------------------------------------------------
  // Canonical paths

  /** Where a walk from the root gets to, its stack of names leads to. */
  lemma {:induction false} WalkFollows(nodes: Nodes, parts: seq<string>)
    requires Tree(nodes) && Walk(nodes, ROOT, parts).Ok?
    ensures Follow(nodes, Resolve(parts)) == Some(Walk(nodes, ROOT, parts).value)
  {
    if parts != [] {
      var front, last := parts[..|parts| - 1], parts[|parts| - 1];
      WalkFollows(nodes, front);
      EnterFollows(nodes, Resolve(front), last, Walk(nodes, ROOT, front).value);
    }
  }

  lemma EnterFollows(nodes: Nodes, stack: seq<string>, part: string, d: nat)
    requires Tree(nodes) && d in nodes && Follow(nodes, stack) == Some(d) && Step(nodes, d, part).Ok?
    ensures Follow(nodes, Enter(stack, part)) == Some(Step(nodes, d, part).value)
  {
    hide AllReached, OneHolder;
    EnterCases(stack, part);
    if part == ".." {
      ParentHolds(nodes, d, stack);
    } else if !Skipped(part) {
      assert (stack + [part])[..|stack|] == stack;
    }
  }

  /** Along names, walking and following are the same. */
  lemma {:induction false} FollowWalks(nodes: Nodes, stack: seq<string>)
    requires Tree(nodes) && Names(stack) && Follow(nodes, stack).Some?
    ensures Walk(nodes, ROOT, stack) == Ok(Follow(nodes, stack).value)
  {
    hide ChildrenOk, OneHolder, AllReached, Closed;
    if stack != [] {
      FollowWalks(nodes, stack[..|stack| - 1]);
      assert IsName(stack[|stack| - 1]);
    }
  }

  /** The names before part `k` lead to a directory, and part `k` does not step above the root. */
  ghost predicate StepOk(nodes: Nodes, parts: seq<string>, k: nat)
    requires k < |parts|
  {
    var stack := Resolve(parts[..k]);
    var d := Follow(nodes, stack);
    d.Some? && d.value in nodes && nodes[d.value].Dir? && (parts[k] == ".." ==> stack != [])
  }

  ghost predicate StepsOk(nodes: Nodes, parts: seq<string>) {
    forall k :: 0 <= k < |parts| ==> StepOk(nodes, parts, k)
  }

  lemma StepsOkLast(nodes: Nodes, parts: seq<string>)
    requires parts != []
    ensures StepsOk(nodes, parts) <==> StepsOk(nodes, parts[..|parts| - 1]) && StepOk(nodes, parts, |parts| - 1)
  {
    hide Resolve, Follow;
    var front := parts[..|parts| - 1];
    assert forall k :: 0 <= k < |front| ==> front[..k] == parts[..k];
    assert forall k :: 0 <= k < |front| ==> (StepOk(nodes, front, k) <==> StepOk(nodes, parts, k));
  }

  /** From where the stack leads, a step succeeds exactly when it is all right and leads somewhere. */
  lemma StepExactly(nodes: Nodes, stack: seq<string>, part: string, d: nat)
    requires Tree(nodes) && d in nodes && Follow(nodes, stack) == Some(d)
    ensures Step(nodes, d, part).Ok? <==>
            nodes[d].Dir? && (part == ".." ==> stack != []) && Follow(nodes, Enter(stack, part)).Some?
  {
    hide OneHolder, AllReached, Closed;
    EnterCases(stack, part);
    if nodes[d].Dir? {
      ParentHolds(nodes, d, stack);
      assert (stack + [part])[..|stack|] == stack;
    }
  }

  /** A walk from the root succeeds exactly when every step on the way is all right and the names it
      ends with lead somewhere. */
  lemma {:induction false} WalkExactly(nodes: Nodes, parts: seq<string>)
    requires Tree(nodes)
    ensures Walk(nodes, ROOT, parts).Ok? <==> StepsOk(nodes, parts) && Follow(nodes, Resolve(parts)).Some?
  {
    hide ChildrenOk, OneHolder, AllReached, Closed, Step;
    TreeParts(nodes);
    if parts != [] {
      hide StepsOk, Follow;
      var front, last := parts[..|parts| - 1], parts[|parts| - 1];
      WalkExactly(nodes, front);
      StepsOkLast(nodes, parts);
      if Walk(nodes, ROOT, front).Ok? {
        WalkFollows(nodes, front);
        StepExactly(nodes, Resolve(front), last, Walk(nodes, ROOT, front).value);
      }
    }
  }

  /** When a path resolves, and to what: every prefix must lead to a directory, no `..` may be taken at
      the root, and the names left over must lead somewhere, which is then the answer. */
  lemma LookupExactly(nodes: Nodes, path: string)
    requires Tree(nodes)
    ensures var parts := Split(path);
            && (Lookup(nodes, ROOT, path).Ok? <==> StepsOk(nodes, parts) && Follow(nodes, Resolve(parts)).Some?)
            && (Lookup(nodes, ROOT, path).Ok? ==>
                Follow(nodes, Resolve(parts)) == Some(Lookup(nodes, ROOT, path).value))
  {
    hide Lookup, Walk, Follow, Split, Resolve, ChildrenOk, OneHolder, AllReached, Closed, StepsOk;
    TreeParts(nodes);
    LookupIsWalk(nodes, ROOT, path);
    WalkExactly(nodes, Split(path));
    if Walk(nodes, ROOT, Split(path)).Ok? { WalkFollows(nodes, Split(path)); }
  }

  /** A canonical path resolves exactly when its names lead somewhere. */
  lemma CanonicalLookup(nodes: Nodes, path: string)
    requires Tree(nodes)
    ensures var n := Follow(nodes, Resolve(Split(path)));
            if n.Some? then Lookup(nodes, ROOT, Canonical(path)) == Ok(n.value)
            else Lookup(nodes, ROOT, Canonical(path)).Err?
  {
    hide Lookup, Walk, Follow, Split, Resolve, Print, ChildrenOk, OneHolder, AllReached, Closed, StepsOk;
    TreeParts(nodes);
    var stack := Resolve(Split(path));
    StackNames(path);
    PrintedWalks(nodes, IsAbsolute(path), stack);
    LookupIsWalk(nodes, ROOT, Canonical(path));
    WalkExactly(nodes, stack);
    ResolveOfNames(stack);
    if Follow(nodes, stack).Some? { FollowWalks(nodes, stack); }
  }

  /** If a path leads to a node, its canonical form leads to the same node. */
  lemma CanonicalAgrees(nodes: Nodes, path: string)
    requires Tree(nodes) && Lookup(nodes, ROOT, path).Ok?
    ensures Lookup(nodes, ROOT, Canonical(path)) == Lookup(nodes, ROOT, path)
  {
    hide Lookup, Follow, Split, Resolve, Print, ChildrenOk, OneHolder, AllReached, Closed, StepsOk;
    TreeParts(nodes);
    LookupExactly(nodes, path);
    CanonicalLookup(nodes, path);
  }

  /** The converse holds unless a step is not all right: the canonical form resolves and the path does
      not, if and only if the names lead somewhere and some prefix leads to no directory or steps
      above the root. */
  lemma CanonicalGainsExactly(nodes: Nodes, path: string)
    requires Tree(nodes)
    ensures Lookup(nodes, ROOT, Canonical(path)).Ok? && Lookup(nodes, ROOT, path).Err? <==>
            && Follow(nodes, Resolve(Split(path))).Some?
            && exists k :: 0 <= k < |Split(path)| && !StepOk(nodes, Split(path), k)
  {
    hide Lookup, Follow, Split, Resolve, Print, ChildrenOk, OneHolder, AllReached, Closed, StepOk;
    TreeParts(nodes);
    LookupExactly(nodes, path);
    CanonicalLookup(nodes, path);
  }

  /** Two ways to gain: stepping back from a missing name, and a slash after a file. */
  lemma CanonicalMayGain(nodes: Nodes, name: string)
    requires Tree(nodes) && IsName(name)
    ensures var path := name + "/" + "..";
            !HasChild(nodes, ROOT, name) ==>
              Lookup(nodes, ROOT, path) == Err(NotFound) && Lookup(nodes, ROOT, Canonical(path)) == Ok(ROOT)
    ensures var path := name + "/" + "";
            HasChild(nodes, ROOT, name) && nodes[nodes[ROOT].children[name]].File? ==>
              && Lookup(nodes, ROOT, path) == Err(NotADirectory)
              && Lookup(nodes, ROOT, Canonical(path)) == Ok(nodes[ROOT].children[name])
  {
    hide Lookup, Split, Print, AllReached, OneHolder, Closed, ChildrenOk;
    TreeParts(nodes);
    SplitPart(name);
    assert [name][..0] == [];
    assert Resolve([name]) == [] + [name] == [name];
    assert Walk(nodes, ROOT, [name]) == Step(nodes, ROOT, name);
    GainStep(nodes, name, "..");
    GainStep(nodes, name, "");
    assert [name][..|[name]| - 1] == [];
    assert Follow(nodes, []) == Some(ROOT);
  }

  lemma GainStep(nodes: Nodes, name: string, last: string)
    requires Tree(nodes) && IsName(name) && NoSlash(last)
    ensures var path, r := name + "/" + last, Walk(nodes, ROOT, [name]);
            && Lookup(nodes, ROOT, path) == (if r.Err? then r else Step(nodes, r.value, last))
            && var n := Follow(nodes, Enter(Resolve([name]), last));
               n.Some? ==> Lookup(nodes, ROOT, Canonical(path)) == Ok(n.value)
  {
    hide Lookup, Split, Print, AllReached, OneHolder, Closed, ChildrenOk, Step, Follow, Enter;
    TreeParts(nodes);
    var path := name + "/" + last;
    SplitConcat(name, last);
    SplitPart(name);
    SplitPart(last);
    assert Split(path) == [name, last] && [name, last][..1] == [name];
    LookupIsWalk(nodes, ROOT, path);
    CanonicalLookup(nodes, path);
  }

  lemma PrintedWalks(nodes: Nodes, absolute: bool, stack: seq<string>)
    requires Tree(nodes) && Names(stack)
    ensures Walk(nodes, ROOT, Split(Print(absolute, stack))) == Walk(nodes, ROOT, stack)
  {
    hide Walk, Split, Print;
    SplitPrint(absolute, stack);
    var body := if stack == [] then [""] else stack;
    WalkFirst(nodes, ROOT, "", []);
    WalkFirst(nodes, ROOT, "", body);
    assert [""] + [] == [""];
    assert PrintedParts(absolute, stack) == if absolute then [""] + body else body;
  }

  // ------------------------------------------------------------------
  // Adding and deleting a leaf

  function NewNode(d: nat, dir: bool): Node { if dir then Dir(Some(d), map[]) else File }

  /** `d` holds the new node `id` under `name`. */
  function Insert(nodes: Nodes, d: nat, name: string, id: nat, dir: bool): Nodes
    requires d in nodes && nodes[d].Dir?
  {
    nodes[d := nodes[d].(children := nodes[d].children[name := id])][id := NewNode(d, dir)]
  }

  function Delete(nodes: Nodes, d: nat, name: string): Nodes
    requires HasChild(nodes, d, name)
  {
    nodes[d := nodes[d].(children := nodes[d].children - {name})] - {nodes[d].children[name]}
  }

  predicate IsLeaf(n: Node) { n.File? || n.children == map[] }

  ghost predicate CanInsert(nodes: Nodes, d: nat, name: string, id: nat) {
    d in nodes && nodes[d].Dir? && !HasChild(nodes, d, name) && IsName(name) && id !in nodes
  }

  ghost predicate CanDelete(nodes: Nodes, d: nat, name: string) {
    HasChild(nodes, d, name) && nodes[d].children[name] in nodes && IsLeaf(nodes[nodes[d].children[name]])
  }

  /** Deleting what was just inserted gives the very same nodes back. */
  lemma DeleteInserted(nodes: Nodes, d: nat, name: string, id: nat, dir: bool)
    requires CanInsert(nodes, d, name, id)
    ensures var nodes' := Insert(nodes, d, name, id, dir);
            CanDelete(nodes', d, name) && nodes'[d].children[name] == id && Delete(nodes', d, name) == nodes
  {
    assert nodes[d].children[name := id] - {name} == nodes[d].children;
  }

  lemma DeleteKeys(nodes: Nodes, d: nat, name: string)
    requires CanDelete(nodes, d, name) && nodes[d].children[name] != d
    ensures HasChild(nodes, d, name)
    ensures var c := nodes[d].children[name];
            c in nodes && IsLeaf(nodes[c]) && Delete(nodes, d, name).Keys == nodes.Keys - {c}
  {
  }

  /** What children there are after an insertion. */
  lemma InsertChildren(nodes: Nodes, d: nat, name: string, id: nat, dir: bool, x: nat, n: string)
    requires CanInsert(nodes, d, name, id)
    ensures var nodes' := Insert(nodes, d, name, id, dir);
            && (HasChild(nodes', x, n) <==> HasChild(nodes, x, n) || (x == d && n == name))
            && (HasChild(nodes', x, n) ==>
                  nodes'[x].children[n] == if x == d && n == name then id else nodes[x].children[n])
  {
  }

  lemma DeleteChildren(nodes: Nodes, d: nat, name: string, x: nat, n: string)
    requires CanDelete(nodes, d, name) && nodes[d].children[name] != d
    ensures var nodes' := Delete(nodes, d, name);
            && (HasChild(nodes', x, n) <==> HasChild(nodes, x, n) && !(x == d && n == name))
            && (HasChild(nodes', x, n) ==> nodes'[x].children[n] == nodes[x].children[n])
  {
  }

  /** Inserting makes exactly one more list of names lead somewhere. */
  lemma {:induction false} InsertFollow(nodes: Nodes, d: nat, name: string, id: nat, dir: bool, p: seq<string>,
      q: seq<string>)
    requires Tree(nodes) && CanInsert(nodes, d, name, id) && Follow(nodes, p) == Some(d)
    ensures Follow(Insert(nodes, d, name, id, dir), q) == if q == p + [name] then Some(id) else Follow(nodes, q)
  {
    hide Insert, HasChild, ChildrenOk, OneHolder, AllReached, Closed;
    if q != [] {
      var f, l := q[..|q| - 1], q[|q| - 1];
      assert q == f + [l];
      InsertFollow(nodes, d, name, id, dir, p, f);
      NothingBelow(nodes, d, name, id, p, l);
      InsertChildren(nodes, d, name, id, dir, id, l);
      if Follow(nodes, f).Some? {
        var x := Follow(nodes, f).value;
        FollowIn(nodes, f);
        InsertChildren(nodes, d, name, id, dir, x, l);
        if x == d { OnePath(nodes, p, f); }
      }
    }
  }

  lemma NothingBelow(nodes: Nodes, d: nat, name: string, id: nat, p: seq<string>, l: string)
    requires CanInsert(nodes, d, name, id) && Follow(nodes, p) == Some(d)
    ensures Follow(nodes, p + [name]) == None && Follow(nodes, p + [name] + [l]) == None && !HasChild(nodes, id, l)
  {
    assert (p + [name])[..|p|] == p && (p + [name] + [l])[..|p| + 1] == p + [name];
  }

  /** Deleting a leaf makes exactly one list of names lead nowhere. */
  lemma {:induction false} DeleteFollow(nodes: Nodes, d: nat, name: string, p: seq<string>, q: seq<string>)
    requires Tree(nodes) && CanDelete(nodes, d, name) && Follow(nodes, p) == Some(d)
    ensures Follow(Delete(nodes, d, name), q) == if q == p + [name] then None else Follow(nodes, q)
  {
    hide Delete, HasChild, ChildrenOk, OneHolder, AllReached, Closed, CanDelete, IsLeaf;
    NotOwnChild(nodes, d, name, p);
    if q != [] {
      var f, l := q[..|q| - 1], q[|q| - 1];
      assert q == f + [l];
      DeleteFollow(nodes, d, name, p, f);
      LeafBelow(nodes, d, name, p, l);
      if Follow(nodes, f).Some? {
        var x := Follow(nodes, f).value;
        FollowIn(nodes, f);
        DeleteChildren(nodes, d, name, x, l);
        if x == d { OnePath(nodes, p, f); }
      }
    }
  }

  lemma NotOwnChild(nodes: Nodes, d: nat, name: string, p: seq<string>)
    requires Tree(nodes) && CanDelete(nodes, d, name) && Follow(nodes, p) == Some(d)
    ensures HasChild(nodes, d, name) && nodes[d].children[name] != d
            && Follow(nodes, p + [name]) == Some(nodes[d].children[name])
  {
    assert (p + [name])[..|p|] == p;
    if nodes[d].children[name] == d { OnePath(nodes, p, p + [name]); }
  }

  lemma LeafBelow(nodes: Nodes, d: nat, name: string, p: seq<string>, l: string)
    requires CanDelete(nodes, d, name) && Follow(nodes, p) == Some(d)
    ensures Follow(nodes, p + [name] + [l]) == None
  {
    assert (p + [name])[..|p|] == p && (p + [name] + [l])[..|p| + 1] == p + [name];
  }

  lemma InsertHolders(nodes: Nodes, d: nat, name: string, id: nat, dir: bool)
    requires Tree(nodes) && CanInsert(nodes, d, name, id)
    ensures var nodes' := Insert(nodes, d, name, id, dir); ChildrenOk(nodes') && OneHolder(nodes')
  {
    hide IsName, AllReached;
    var nodes' := Insert(nodes, d, name, id, dir);
    forall x, n | HasChild(nodes', x, n) ensures ChildOk(nodes', x, n) {
      InsertChildren(nodes, d, name, id, dir, x, n);
      if HasChild(nodes, x, n) { assert ChildOk(nodes, x, n); }
    }
    forall x, n, x', n' | HasChild(nodes', x, n) && HasChild(nodes', x', n')
        && nodes'[x].children[n] == nodes'[x'].children[n']
      ensures x == x' && n == n'
    {
      InsertChildren(nodes, d, name, id, dir, x, n);
      InsertChildren(nodes, d, name, id, dir, x', n');
    }
  }

  lemma InsertKeepsTree(nodes: Nodes, d: nat, name: string, id: nat, dir: bool)
    requires Tree(nodes) && CanInsert(nodes, d, name, id)
    ensures Tree(Insert(nodes, d, name, id, dir))
  {
    hide Follow, IsName, OneHolder, Closed, Tree, HasChild;
    var nodes' := Insert(nodes, d, name, id, dir);
    assert AllReached(nodes) by { TreeParts(nodes); }
    InsertHolders(nodes, d, name, id, dir);
    var p := PathTo(nodes, d);
    forall n | n in nodes' ensures Reached(nodes', n) {
      if n == id {
        InsertFollow(nodes, d, name, id, dir, p, p + [name]);
      } else {
        var q := PathTo(nodes, n);
        InsertFollow(nodes, d, name, id, dir, p, q);
        NothingBelow(nodes, d, name, id, p, "");
      }
    }
    TreeClosed(nodes');
  }

  lemma TreeParts(nodes: Nodes)
    requires Tree(nodes)
    ensures ChildrenOk(nodes) && OneHolder(nodes) && AllReached(nodes) && Closed(nodes) && ROOT in nodes
  {
  }

  lemma DeleteHolders(nodes: Nodes, d: nat, name: string)
    requires Tree(nodes) && CanDelete(nodes, d, name) && nodes[d].children[name] != d
    ensures var nodes' := Delete(nodes, d, name); ChildrenOk(nodes') && OneHolder(nodes')
  {
    hide IsName, AllReached, Closed;
    var nodes' := Delete(nodes, d, name);
    assert ChildOk(nodes, d, name);
    forall x, n | HasChild(nodes', x, n) ensures ChildOk(nodes', x, n) {
      DeleteChildren(nodes, d, name, x, n);
      assert ChildOk(nodes, x, n);
      assert nodes[x].children[n] != nodes[d].children[name];
    }
    forall x, n, x', n' | HasChild(nodes', x, n) && HasChild(nodes', x', n')
        && nodes'[x].children[n] == nodes'[x'].children[n']
      ensures x == x' && n == n'
    {
      DeleteChildren(nodes, d, name, x, n);
      DeleteChildren(nodes, d, name, x', n');
    }
  }

  lemma DeleteKeepsTree(nodes: Nodes, d: nat, name: string)
    requires Tree(nodes) && CanDelete(nodes, d, name)
    ensures Tree(Delete(nodes, d, name))
  {
    hide Follow, IsName, OneHolder, Closed, Tree, IsLeaf;
    TreeParts(nodes);
    var p := PathTo(nodes, d);
    NotOwnChild(nodes, d, name, p);
    DeleteHolders(nodes, d, name);
    var nodes' := Delete(nodes, d, name);
    forall n | n in nodes' ensures Reached(nodes', n) {
      var q := PathTo(nodes, n);
      DeleteFollow(nodes, d, name, p, q);
    }
    TreeClosed(nodes');
  }

  // ------------------------------------------------------------------
  // Creating and removing by path

  predicate Reserved(name: string) { name == "" || name == "." || name == ".." }

  /** `create_node`. */
  function CreateIn(nodes: Nodes, d: nat, name: string, ty: NodeType, id: nat): (Nodes, VfsResult<()>)
    requires d in nodes && nodes[d].Dir?
  {
    if HasChild(nodes, d, name) then (nodes, Err(AlreadyExists))
    else if ty.OtherType? then (nodes, Err(Unsupported))
    else (Insert(nodes, d, name, id, ty.DirType?), Ok(()))
  }

  /** `remove_node`. */
  function RemoveFrom(nodes: Nodes, d: nat, name: string): (Nodes, VfsResult<()>)
    requires d in nodes && nodes[d].Dir? && Closed(nodes)
  {
    if !HasChild(nodes, d, name) then (nodes, Err(NotFound))
    else if !IsLeaf(nodes[nodes[d].children[name]]) then (nodes, Err(DirectoryNotEmpty))
    else (Delete(nodes, d, name), Ok(()))
  }

  function DoCreate(nodes: Nodes, self: nat, path: string, ty: NodeType, id: nat): (Nodes, VfsResult<()>)
    requires Closed(nodes) && self in nodes
  {
    var t := Target(nodes, self, path);
    if t.Err? then (nodes, Err(t.error))
    else if Reserved(t.value.1) then (nodes, Ok(()))
    else CreateIn(nodes, t.value.0, t.value.1, ty, id)
  }

  function DoRemove(nodes: Nodes, self: nat, path: string): (Nodes, VfsResult<()>)
    requires Closed(nodes) && self in nodes
  {
    var t := Target(nodes, self, path);
    if t.Err? then (nodes, Err(t.error))
    else if Reserved(t.value.1) then (nodes, Err(InvalidInput))
    else RemoveFrom(nodes, t.value.0, t.value.1)
  }

  /** What `create` does, in terms of the directory that all components but the last lead to: the error
      of each case, and exactly when and what it adds. */
  lemma CreateExactly(nodes: Nodes, self: nat, path: string, ty: NodeType, id: nat)
    requires Closed(nodes) && self in nodes && id !in nodes
    ensures Split(path) != []
    ensures var (nodes', r) := DoCreate(nodes, self, path, ty, id);
            var parts := Split(path);
            var d, last := Walk(nodes, self, parts[..|parts| - 1]), parts[|parts| - 1];
            if d.Err? then nodes' == nodes && r == Err(d.error)
            else if nodes[d.value].File? then nodes' == nodes && r == Err(NotADirectory)
            else if last == "" || last == "." || last == ".." then nodes' == nodes && r == Ok(())
            else if last in nodes[d.value].children then nodes' == nodes && r == Err(AlreadyExists)
            else if ty.OtherType? then nodes' == nodes && r == Err(Unsupported)
            else r == Ok(()) && Added(nodes, nodes', d.value, last, ty, id)
  {
    hide Target, Split, Walk, Closed;
    TargetIsWalk(nodes, self, path);
  }

  /** Exactly a new node has been added, in directory `d`: an empty file, or an empty directory below `d`. */
  ghost predicate Added(nodes: Nodes, nodes': Nodes, d: nat, name: string, ty: NodeType, id: nat)
    requires d in nodes && nodes[d].Dir?
  {
    && nodes'.Keys == nodes.Keys + {id}
    && (nodes'[id] == File <==> ty == FileType) && (nodes'[id] == Dir(Some(d), map[]) <==> ty == DirType)
    && nodes'[d] == Dir(nodes[d].parent, nodes[d].children[name := id])
    && forall n :: n in nodes && n != d ==> nodes'[n] == nodes[n]
  }

  /** What `remove` does, in the same terms. */
  lemma RemoveExactly(nodes: Nodes, self: nat, path: string)
    requires Closed(nodes) && self in nodes
    ensures Split(path) != []
    ensures var (nodes', r) := DoRemove(nodes, self, path);
            var parts := Split(path);
            var d, last := Walk(nodes, self, parts[..|parts| - 1]), parts[|parts| - 1];
            if d.Err? then nodes' == nodes && r == Err(d.error)
            else if nodes[d.value].File? then nodes' == nodes && r == Err(NotADirectory)
            else if last == "" || last == "." || last == ".." then nodes' == nodes && r == Err(InvalidInput)
            else if last !in nodes[d.value].children then nodes' == nodes && r == Err(NotFound)
            else
              var n := nodes[d.value].children[last];
              && n in nodes
              && if nodes[n].Dir? && nodes[n].children != map[] then nodes' == nodes && r == Err(DirectoryNotEmpty)
                 else r == Ok(()) && Detached(nodes, nodes', d.value, last, n)
  {
    hide Target, Split, Walk;
    TargetIsWalk(nodes, self, path);
    var t := Target(nodes, self, path);
    if t.Ok? && HasChild(nodes, t.value.0, t.value.1) { assert nodes[t.value.0].children[t.value.1] in nodes; }
  }

  /** Exactly the entry for `n` has gone from directory `d`, and `n` with it. */
  ghost predicate Detached(nodes: Nodes, nodes': Nodes, d: nat, name: string, n: nat)
    requires d in nodes && nodes[d].Dir?
  {
    && nodes'.Keys == nodes.Keys - {n}
    && (d != n ==> nodes'[d] == Dir(nodes[d].parent, nodes[d].children - {name}))
    && forall m :: m in nodes && m != d && m != n ==> nodes'[m] == nodes[m]
  }

  /** Why a walk fails: at its first component that cannot be taken, for want of a directory, a name in
      it, or a parent. */
  lemma {:induction false} WalkFails(nodes: Nodes, self: nat, parts: seq<string>) returns (k: nat)
    requires Closed(nodes) && self in nodes && Walk(nodes, self, parts).Err?
    ensures k < |parts| && Walk(nodes, self, parts[..k]).Ok?
    ensures var n, e := nodes[Walk(nodes, self, parts[..k]).value], Walk(nodes, self, parts).error;
            if n.File? then e == NotADirectory
            else e == NotFound && (if parts[k] == ".." then n.parent.None? else parts[k] !in n.children)
  {
    hide Closed;
    var front := parts[..|parts| - 1];
    if Walk(nodes, self, front).Ok? {
      k := |parts| - 1;
    } else {
      k := WalkFails(nodes, self, front);
      assert parts[..k] == front[..k];
    }
  }

  lemma TargetName(nodes: Nodes, self: nat, path: string)
    requires Closed(nodes) && self in nodes && Target(nodes, self, path).Ok?
    ensures var name := Target(nodes, self, path).value.1; !Reserved(name) ==> IsName(name)
  {
    hide Target, Split, Walk, Closed;
    TargetIsWalk(nodes, self, path);
    SplitNoSlash(path);
  }

  lemma CreateKeepsTree(nodes: Nodes, self: nat, path: string, ty: NodeType, id: nat)
    requires Tree(nodes) && self in nodes && id !in nodes
    ensures Tree(DoCreate(nodes, self, path, ty, id).0)
  {
    hide Tree, Target, Insert, Closed, ChildrenOk, OneHolder, AllReached;
    TreeParts(nodes);
    var t := Target(nodes, self, path);
    if t.Ok? && DoCreate(nodes, self, path, ty, id).0 != nodes {
      TargetName(nodes, self, path);
      InsertKeepsTree(nodes, t.value.0, t.value.1, id, ty.DirType?);
    }
  }

  lemma RemoveDeletes(nodes: Nodes, self: nat, path: string)
    requires Closed(nodes) && self in nodes
    ensures var t, r := Target(nodes, self, path), DoRemove(nodes, self, path);
            if r.1.Ok? then
              && t.Ok? && !Reserved(t.value.1) && CanDelete(nodes, t.value.0, t.value.1)
              && r.0 == Delete(nodes, t.value.0, t.value.1)
            else r.0 == nodes
  {
    hide Target, Delete, IsLeaf;
  }

  lemma RemoveWorks(nodes: Nodes, self: nat, path: string)
    requires Closed(nodes) && self in nodes && Target(nodes, self, path).Ok?
    requires var (d, name) := Target(nodes, self, path).value; !Reserved(name) && CanDelete(nodes, d, name)
    ensures var (d, name) := Target(nodes, self, path).value;
            CanDelete(nodes, d, name) && DoRemove(nodes, self, path) == (Delete(nodes, d, name), Ok(()))
  {
    hide Target, Delete, IsLeaf;
  }

  lemma CreateInserts(nodes: Nodes, self: nat, path: string, ty: NodeType, id: nat)
    requires Closed(nodes) && self in nodes && id !in nodes
    ensures var t, r := Target(nodes, self, path), DoCreate(nodes, self, path, ty, id);
            if r.0 != nodes then
              && t.Ok? && r == (Insert(nodes, t.value.0, t.value.1, id, ty.DirType?), Ok(()))
              && CanInsert(nodes, t.value.0, t.value.1, id)
            else r.1.Ok? ==> t.Ok? && Reserved(t.value.1)
  {
    hide Target, IsName;
    var t := Target(nodes, self, path);
    if t.Ok? {
      TargetName(nodes, self, path);
      assert id in Insert(nodes, t.value.0, t.value.1, id, ty.DirType?);
    }
  }

  lemma RemoveKeepsTree(nodes: Nodes, self: nat, path: string)
    requires Tree(nodes) && self in nodes
    ensures Tree(DoRemove(nodes, self, path).0)
  {
    hide Tree, Target, Delete, DoRemove, Closed, ChildrenOk, OneHolder, AllReached;
    TreeParts(nodes);
    RemoveDeletes(nodes, self, path);
    var t := Target(nodes, self, path);
    if DoRemove(nodes, self, path).1.Ok? {
      DeleteKeepsTree(nodes, t.value.0, t.value.1);
    }
  }

  /** The directory a path from the root ends in, in terms of names. */
  lemma TargetFollows(nodes: Nodes, path: string)
    requires Tree(nodes) && Target(nodes, ROOT, path).Ok? && !Reserved(Target(nodes, ROOT, path).value.1)
    ensures var (d, name) := Target(nodes, ROOT, path).value;
            var names := Resolve(Split(path));
            names != [] && names[|names| - 1] == name && Follow(nodes, names[..|names| - 1]) == Some(d)
  {
    hide Target, Split, Walk, Follow, ChildrenOk, OneHolder, AllReached, Closed;
    TreeParts(nodes);
    var parts := Split(path);
    TargetIsWalk(nodes, ROOT, path);
    WalkFollows(nodes, parts[..|parts| - 1]);
    var front := Resolve(parts[..|parts| - 1]);
    EnterCases(front, parts[|parts| - 1]);
    assert Resolve(parts) == front + [parts[|parts| - 1]];
  }

  /** Walks that succeed still do, and end in the same place, after an insertion. */
  lemma {:induction false} WalkGrows(nodes: Nodes, d: nat, name: string, id: nat, dir: bool, self: nat,
      parts: seq<string>)
    requires CanInsert(nodes, d, name, id) && Closed(nodes) && Closed(Insert(nodes, d, name, id, dir)) && self in nodes
    requires Walk(nodes, self, parts).Ok?
    ensures self in Insert(nodes, d, name, id, dir)
    ensures Walk(Insert(nodes, d, name, id, dir), self, parts) == Walk(nodes, self, parts)
  {
    hide IsName, Closed;
    if parts != [] {
      WalkGrows(nodes, d, name, id, dir, self, parts[..|parts| - 1]);
    }
  }

  /** Creating something at a path from the root: exactly that path's names lead to the new node and
      every other list of names leads where it did; looking the path up finds the node. */
  lemma CreateMakesPath(nodes: Nodes, path: string, ty: NodeType, id: nat)
    requires Tree(nodes) && id !in nodes && DoCreate(nodes, ROOT, path, ty, id).0 != nodes
    ensures var (nodes', r) := DoCreate(nodes, ROOT, path, ty, id);
            && r.Ok? && Tree(nodes')
            && (forall q :: Follow(nodes', q) == if q == Resolve(Split(path)) then Some(id) else Follow(nodes, q))
            && Follow(nodes, Resolve(Split(path))) == None
            && Lookup(nodes', ROOT, path) == Ok(id)
            && var names := Resolve(Split(path));
               && names != [] && id in nodes'
               && (nodes'[id].File? <==> ty.FileType?)
               && (nodes'[id] == Dir(Follow(nodes, names[..|names| - 1]), map[]) <==> ty.DirType?)
  {
    hide Tree, Target, Closed, Follow, Resolve, Split, Insert, CanInsert, Lookup, DoCreate, ChildrenOk, OneHolder,
        AllReached;
    TreeParts(nodes);
    CreateInserts(nodes, ROOT, path, ty, id);
    CreateKeepsTree(nodes, ROOT, path, ty, id);
    var nodes' := DoCreate(nodes, ROOT, path, ty, id).0;
    TreeParts(nodes');
    var (d, name) := Target(nodes, ROOT, path).value;
    CanInsertName(nodes, d, name, id);
    TargetFollows(nodes, path);
    var names := Resolve(Split(path));
    var p := names[..|names| - 1];
    assert names == p + [name];
    forall q ensures Follow(nodes', q) == if q == names then Some(id) else Follow(nodes, q) {
      InsertFollow(nodes, d, name, id, ty.DirType?, p, q);
    }
    NothingBelow(nodes, d, name, id, p, "");
    TargetKept(nodes, path, ty, id);
    InsertedNode(nodes, d, name, id, ty);
    CreatedType(nodes, ROOT, path, ty, id);
  }

  lemma InsertedNode(nodes: Nodes, d: nat, name: string, id: nat, ty: NodeType)
    requires d in nodes && nodes[d].Dir?
    ensures var nodes' := Insert(nodes, d, name, id, ty.DirType?);
            id in nodes' && nodes'[id] == if ty.DirType? then Dir(Some(d), map[]) else File
  {
  }

  lemma CreatedType(nodes: Nodes, self: nat, path: string, ty: NodeType, id: nat)
    requires Closed(nodes) && self in nodes && DoCreate(nodes, self, path, ty, id).0 != nodes
    ensures !ty.OtherType?
  {
    hide Target, Insert;
  }

  /** Removing what was just created restores the nodes as they were. */
  lemma RemoveUndoesCreate(nodes: Nodes, path: string, ty: NodeType, id: nat)
    requires Tree(nodes) && id !in nodes && DoCreate(nodes, ROOT, path, ty, id).0 != nodes
    ensures var nodes' := DoCreate(nodes, ROOT, path, ty, id).0;
            Tree(nodes') && DoRemove(nodes', ROOT, path) == (nodes, Ok(()))
  {
    hide Tree, Target, Closed, Insert, Delete, CanInsert, CanDelete, Lookup, DoCreate, DoRemove, ChildrenOk,
        OneHolder, AllReached;
    TreeParts(nodes);
    CreateInserts(nodes, ROOT, path, ty, id);
    CreateKeepsTree(nodes, ROOT, path, ty, id);
    var nodes' := DoCreate(nodes, ROOT, path, ty, id).0;
    TreeParts(nodes');
    TargetKept(nodes, path, ty, id);
    var (d, name) := Target(nodes, ROOT, path).value;
    CanInsertName(nodes, d, name, id);
    DeleteInserted(nodes, d, name, id, ty.DirType?);
    RemoveWorks(nodes', ROOT, path);
  }

  lemma CanInsertName(nodes: Nodes, d: nat, name: string, id: nat)
    requires CanInsert(nodes, d, name, id)
    ensures !Reserved(name) && d in nodes && nodes[d].Dir?
  {
  }

  /** After a creation the path ends in the same directory, and leads to the new node. */
  lemma TargetKept(nodes: Nodes, path: string, ty: NodeType, id: nat)
    requires Tree(nodes) && id !in nodes && DoCreate(nodes, ROOT, path, ty, id).0 != nodes
    requires Tree(DoCreate(nodes, ROOT, path, ty, id).0)
    ensures var nodes', t := DoCreate(nodes, ROOT, path, ty, id).0, Target(nodes, ROOT, path);
            t.Ok? && Target(nodes', ROOT, path) == t && Lookup(nodes', ROOT, path) == Ok(id)
  {
    hide Target, Split, Lookup, ChildrenOk, OneHolder, AllReached, Closed, DoCreate, IsName;
    TreeParts(nodes);
    var nodes' := DoCreate(nodes, ROOT, path, ty, id).0;
    TreeParts(nodes');
    CreateInserts(nodes, ROOT, path, ty, id);
    var (d, name) := Target(nodes, ROOT, path).value;
    var parts := Split(path);
    TargetIsWalk(nodes, ROOT, path);
    TargetIsWalk(nodes', ROOT, path);
    LookupIsWalk(nodes', ROOT, path);
    WalkGrows(nodes, d, name, id, ty.DirType?, ROOT, parts[..|parts| - 1]);
    CanInsertName(nodes, d, name, id);
  }

  /** Removing a path from the root takes a leaf away, and only the path's own names lead nowhere
      afterwards: a directory with something in it is never detached. */
  lemma RemoveDetachesLeaf(nodes: Nodes, path: string)
    requires Tree(nodes) && DoRemove(nodes, ROOT, path).1.Ok?
    ensures var nodes', names := DoRemove(nodes, ROOT, path).0, Resolve(Split(path));
            && Tree(nodes')
            && var n := Follow(nodes, names);
               && n.Some? && n.value in nodes && IsLeaf(nodes[n.value]) && nodes'.Keys == nodes.Keys - {n.value}
               && (forall q :: Follow(nodes', q) == if q == names then None else Follow(nodes, q))
  {
    hide Tree, Target, Closed, Follow, Resolve, Split, DoRemove, IsLeaf, Delete, CanDelete, ChildrenOk, OneHolder,
        AllReached;
    TreeParts(nodes);
    RemoveDeletes(nodes, ROOT, path);
    RemoveKeepsTree(nodes, ROOT, path);
    var (d, name) := Target(nodes, ROOT, path).value;
    TargetFollows(nodes, path);
    var names := Resolve(Split(path));
    var p := names[..|names| - 1];
    assert names == p + [name];
    NotOwnChild(nodes, d, name, p);
    DeleteKeys(nodes, d, name);
    forall q ensures Follow(Delete(nodes, d, name), q) == if q == names then None else Follow(nodes, q) {
      DeleteFollow(nodes, d, name, p, q);
    }
  }

  // ------------------------------------------------------------------
  // The filesystem

  datatype Op = CreateOp(path: string, ty: NodeType) | RemoveOp(path: string)

  class RamFileSystem {
    var nodes: Nodes
    var nextId: nat

    ghost predicate Valid()
      reads this
    {
      Tree(nodes) && forall id :: id in nodes ==> id < nextId
    }

    constructor ()
      ensures Valid() && nodes == map[ROOT := Dir(None, map[])]
    {
      nodes := map[ROOT := Dir(None, map[])];
      nextId := ROOT + 1;
      new;
      assert Follow(nodes, []) == Some(ROOT);
      TreeClosed(nodes);
    }

    /** `create_node`, in directory `d`. */
    method CreateNode(d: nat, name: string, ty: NodeType) returns (r: VfsResult<()>)
      requires d in nodes && nodes[d].Dir? && nextId !in nodes
      modifies this
      ensures (nodes, r) == CreateIn(old(nodes), d, name, ty, old(nextId))
      ensures r == if name in old(nodes)[d].children then Err(AlreadyExists)
                   else if ty.OtherType? then Err(Unsupported)
                   else Ok(())
      ensures if r.Ok? then Added(old(nodes), nodes, d, name, ty, old(nextId)) else nodes == old(nodes)
      ensures nextId == if r.Ok? then old(nextId) + 1 else old(nextId)
    {
      if name in nodes[d].children { return Err(AlreadyExists); }
      var node;
      match ty {
        case FileType => node := File;
        case DirType => node := Dir(Some(d), map[]);
        case OtherType => return Err(Unsupported);
      }
      nodes := nodes[d := nodes[d].(children := nodes[d].children[name := nextId])];
      nodes := nodes[nextId := node];
      nextId := nextId + 1;
      r := Ok(());
    }

    /** `remove_node`, in directory `d`. */
    method RemoveNode(d: nat, name: string) returns (r: VfsResult<()>)
      requires Closed(nodes) && d in nodes && nodes[d].Dir?
      modifies this`nodes
      ensures (nodes, r) == RemoveFrom(old(nodes), d, name)
      ensures if name !in old(nodes)[d].children then r == Err(NotFound) && nodes == old(nodes)
              else
                var n := old(nodes)[d].children[name];
                && n in old(nodes)
                && if old(nodes)[n].Dir? && old(nodes)[n].children != map[] then
                     r == Err(DirectoryNotEmpty) && nodes == old(nodes)
                   else r == Ok(()) && Detached(old(nodes), nodes, d, name, n)
    {
      if name !in nodes[d].children { return Err(NotFound); }
      assert HasChild(nodes, d, name);
      var node := nodes[d].children[name];
      if nodes[node].Dir? && nodes[node].children != map[] { return Err(DirectoryNotEmpty); }
      nodes := nodes[d := nodes[d].(children := nodes[d].children - {name})] - {node};
      r := Ok(());
    }

    /** `create`, called on node `self`. */
    method Create(self: nat, path: string, ty: NodeType) returns (r: VfsResult<()>)
      requires Closed(nodes) && self in nodes && nextId !in nodes
      modifies this
      ensures (nodes, r) == DoCreate(old(nodes), self, path, ty, old(nextId))
      ensures nextId == if nodes == old(nodes) then old(nextId) else old(nextId) + 1
      decreases |path|
    {
      hide Closed, SplitPath;
      if nodes[self].File? { return Err(NotADirectory); }
      var (name, rest) := SplitPath(path);
      if rest.Some? {
        var node := Step(nodes, self, name);
        if node.Err? { return Err(node.error); }
        r := Create(node.value, rest.value, ty);
      } else if name == "" || name == "." || name == ".." {
        r := Ok(());
      } else {
        r := CreateNode(self, name, ty);
      }
    }

    /** `remove`, called on node `self`. */
    method Remove(self: nat, path: string) returns (r: VfsResult<()>)
      requires Closed(nodes) && self in nodes
      modifies this`nodes
      ensures (nodes, r) == DoRemove(old(nodes), self, path)
      decreases |path|
    {
      hide Closed, SplitPath;
      if nodes[self].File? { return Err(NotADirectory); }
      var (name, rest) := SplitPath(path);
      if rest.Some? {
        var node := Step(nodes, self, name);
        if node.Err? { return Err(node.error); }
        r := Remove(node.value, rest.value);
      } else if name == "" || name == "." || name == ".." {
        r := Err(InvalidInput);
      } else {
        r := RemoveNode(self, name);
      }
    }

    /** Every run of `create` and `remove` keeps a tree. */
    method Run(ops: seq<Op>)
      requires Valid()
      modifies this
      ensures Valid()
    {
      hide Tree, Closed, ChildrenOk, OneHolder, AllReached;
      for i := 0 to |ops|
        invariant Valid()
      {
        TreeParts(nodes);
        match ops[i] {
          case CreateOp(path, ty) =>
            CreateKeepsTree(nodes, ROOT, path, ty, nextId);
            CreateInserts(nodes, ROOT, path, ty, nextId);
            var r := Create(ROOT, path, ty);
          case RemoveOp(path) =>
            RemoveKeepsTree(nodes, ROOT, path);
            RemoveDeletes(nodes, ROOT, path);
            var r := Remove(ROOT, path);
        }
      }
    }
  }
}
