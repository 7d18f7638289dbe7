/** Hostname suffix tags: a trie over reversed labels, against a linear scan of the file. */
module Geosite {

  // ----- The trie -----

  datatype Node = Node(tags: seq<string>, children: map<string, Node>)

  const LEAF := Node([], map[])

  function Child(n: Node, l: string): Node {
    if l in n.children then n.children[l] else LEAF
  }

  function Insert(n: Node, path: seq<string>, tag: string): Node
    decreases |path|
  {
    if path == [] then n.(tags := n.tags + [tag])
    else n.(children := n.children[path[0] := Insert(Child(n, path[0]), path[1..], tag)])
  }

  /** Tags of every node on the way down the path, the start excluded. */
  function Matches(n: Node, path: seq<string>): seq<string>
    decreases |path|
  {
    if path == [] || path[0] !in n.children then []
    else
      var next := n.children[path[0]];
      next.tags + Matches(next, path[1..])
  }

  method ForEachMatch(root: Node, path: seq<string>) returns (visited: seq<string>)
    ensures visited == Matches(root, path)
  {
    visited := [];
    var node := root;
    for i := 0 to |path|
      invariant visited + Matches(node, path[i..]) == Matches(root, path)
    {
      assert path[i..][0] == path[i] && path[i..][1..] == path[i + 1..];
      if path[i] !in node.children {
        assert visited + [] == visited;
        return;
      }
      ghost var before := visited;
      node := node.children[path[i]];
      for j := 0 to |node.tags|
        invariant visited == before + node.tags[..j]
      {
        visited := visited + [node.tags[j]];
      }
      assert node.tags[..|node.tags|] == node.tags;
      assert before + (node.tags + Matches(node, path[i + 1..])) == visited + Matches(node, path[i + 1..]);
    }
    assert visited + [] == visited;
  }

  // ----- The linear scan -----

  /** One line of the file: a path of labels, last label first, and its tag. */
  datatype Entry = Entry(path: seq<string>, tag: string)

  function Build(entries: seq<Entry>): Node {
    if entries == [] then LEAF
    else
      var last := entries[|entries| - 1];
      Insert(Build(entries[..|entries| - 1]), last.path, last.tag)
  }

  /** The tags filed under exactly this path, in file order. */
  function TagsOf(entries: seq<Entry>, path: seq<string>): seq<string> {
    if entries == [] then []
    else
      var last := entries[|entries| - 1];
      TagsOf(entries[..|entries| - 1], path) + (if last.path == path then [last.tag] else [])
  }

  /** Tags of each leading part of the path that is longer than `k`, shortest first. */
  function ScanFrom(entries: seq<Entry>, path: seq<string>, k: nat): seq<string>
    requires k <= |path|
    decreases |path| - k
  {
    if k == |path| then [] else TagsOf(entries, path[..k + 1]) + ScanFrom(entries, path, k + 1)
  }

  /** What a scan of the whole file finds: by suffix length, then in file order. */
  function Scan(entries: seq<Entry>, path: seq<string>): seq<string> {
    ScanFrom(entries, path, 0)
  }

  // ----- Trie against scan -----

  function TagsAt(n: Node, path: seq<string>): seq<string>
    decreases |path|
  {
    if path == [] then n.tags
    else if path[0] !in n.children then []
    else TagsAt(n.children[path[0]], path[1..])
  }

  lemma {:induction false} LeafHasNoTags(path: seq<string>)
    ensures TagsAt(LEAF, path) == []
  {
  }

  lemma {:induction false} InsertAddsOneTag(n: Node, path: seq<string>, tag: string, at: seq<string>)
    ensures TagsAt(Insert(n, path, tag), at) == TagsAt(n, at) + (if path == at then [tag] else [])
    decreases |path|
  {
    if path != [] && at != [] && path[0] == at[0] {
      InsertAddsOneTag(Child(n, path[0]), path[1..], tag, at[1..]);
      assert path == [path[0]] + path[1..] && at == [at[0]] + at[1..];
      if path[0] !in n.children { LeafHasNoTags(at[1..]); }
    }
  }

  lemma {:induction false} BuildFilesTags(entries: seq<Entry>, path: seq<string>)
    ensures TagsAt(Build(entries), path) == TagsOf(entries, path)
  {
    if entries == [] {
      LeafHasNoTags(path);
    } else {
      var last, init := entries[|entries| - 1], entries[..|entries| - 1];
      BuildFilesTags(init, path);
      InsertAddsOneTag(Build(init), last.path, last.tag, path);
    }
  }

  /** The node reached by a path, or an empty one. */
  function NodeAt(n: Node, path: seq<string>): Node
    decreases |path|
  {
    if path == [] then n else NodeAt(Child(n, path[0]), path[1..])
  }

  lemma {:induction false} NodeAtLeaf(path: seq<string>)
    ensures NodeAt(LEAF, path) == LEAF
    decreases |path|
  {
    if path != [] { NodeAtLeaf(path[1..]); }
  }

  lemma {:induction false} TagsAtNode(n: Node, path: seq<string>)
    ensures TagsAt(n, path) == NodeAt(n, path).tags
    decreases |path|
  {
    if path != [] {
      if path[0] in n.children { TagsAtNode(n.children[path[0]], path[1..]); } else { NodeAtLeaf(path[1..]); }
    }
  }

  lemma {:induction false} NodeAtStep(n: Node, path: seq<string>, k: nat)
    requires k < |path|
    ensures NodeAt(n, path[..k + 1]) == Child(NodeAt(n, path[..k]), path[k])
    decreases |path|
  {
    if k == 0 {
      assert path[..1][1..] == [];
    } else {
      assert path[..k + 1][1..] == path[1..][..k] && path[..k][1..] == path[1..][..k - 1];
      NodeAtStep(Child(n, path[0]), path[1..], k - 1);
    }
  }

  lemma {:induction false} MatchesFromLeaf(path: seq<string>)
    ensures Matches(LEAF, path) == []
  {
  }

  lemma {:induction false} WalkIsScan(entries: seq<Entry>, path: seq<string>, k: nat)
    requires k <= |path|
    ensures Matches(NodeAt(Build(entries), path[..k]), path[k..]) == ScanFrom(entries, path, k)
    decreases |path| - k
  {
    hide Build, TagsOf, TagsAt;
    if k < |path| {
      var root := Build(entries);
      var node := NodeAt(root, path[..k]);
      WalkIsScan(entries, path, k + 1);
      NodeAtStep(root, path, k);
      BuildFilesTags(entries, path[..k + 1]);
      TagsAtNode(root, path[..k + 1]);
      assert path[k..][0] == path[k] && path[k..][1..] == path[k + 1..];
      if path[k] !in node.children { MatchesFromLeaf(path[k + 1..]); }
    }
  }

  /** Looking a path up in the trie finds exactly what a scan of the file finds, in the same order. */
  lemma TrieIsScan(entries: seq<Entry>, path: seq<string>)
    ensures Matches(Build(entries), path) == Scan(entries, path)
  {
    WalkIsScan(entries, path, 0);
    assert path[..0] == [] && path[0..] == path;
  }
}
