/**
 The file browser tree of the Traefik service (src/services/traefik.rs).

 `Inserted` and `SortTree` say what `insert_file_tree_node` and `sort_file_tree` make of their
 argument; the methods are the code that updates the node lists. The tree is specified by
 `Describes`, which says of a node list what it must hold for a given map from component lists
 to metadata, without mentioning insertion. `BuiltIsCanonical` proves that the built tree is the
 one and only sorted tree that describes the input.
 */
module FileTree {
  import opened Paths

  datatype File = File(path: string, size: nat, readonly: bool, modified: nat)

  datatype Kind = Plain | Directory

  datatype Node = Node(name: string, path: string, kind: Kind, size: nat, readonly: bool, modified: nat,
                       children: seq<Node>)

  // ---------- insertion ----------

  function Parts(file: File): (parts: seq<string>)
    ensures |parts| <= |Split(file.path)|
  {
    NonEmpty(Split(file.path))
  }

  /** The path of the node for `parts[0]` when `parts` is what is left of the file's parts. */
  function NodePath(file: File, parts: seq<string>): string
    requires 0 < |parts| <= |Split(file.path)|
  {
    if |parts| == 1 then file.path
    else Join(Split(file.path)[..|Split(file.path)| - |parts| + 1])
  }

  function Position(nodes: seq<Node>, name: string, path: string): (i: nat)
    ensures i <= |nodes|
    ensures i < |nodes| ==> nodes[i].name == name && nodes[i].path == path
    ensures forall j :: 0 <= j < i ==> !(nodes[j].name == name && nodes[j].path == path)
  {
    if nodes == [] then 0
    else if nodes[0].name == name && nodes[0].path == path then 0
    else 1 + Position(nodes[1..], name, path)
  }

  /** The node an insertion works on: the one found, or a bare directory that is appended. */
  function Found(nodes: seq<Node>, parts: seq<string>, file: File): Node
    requires 0 < |parts| <= |Split(file.path)|
  {
    var path := NodePath(file, parts);
    var i := Position(nodes, parts[0], path);
    if i < |nodes| then nodes[i] else Node(parts[0], path, Directory, 0, false, 0, [])
  }

  function Inserted(nodes: seq<Node>, parts: seq<string>, file: File): (result: seq<Node>)
    requires 0 < |parts| <= |Split(file.path)|
    decreases |parts|, 1
  {
    Replaced(nodes, Position(nodes, parts[0], NodePath(file, parts)), Updated(Found(nodes, parts, file), parts, file))
  }

  function Updated(node: Node, parts: seq<string>, file: File): Node
    requires 0 < |parts| <= |Split(file.path)|
    decreases |parts|, 0
  {
    if |parts| == 1 then
      node.(kind := Plain, size := file.size, readonly := file.readonly, modified := file.modified)
    else
      node.(children := Inserted(node.children, parts[1..], file))
  }

  function Replaced(nodes: seq<Node>, i: nat, node: Node): (result: seq<Node>)
    requires i <= |nodes|
    ensures |result| == if i < |nodes| then |nodes| else |nodes| + 1
    ensures result[i] == node
    ensures forall j :: 0 <= j < |nodes| && j != i ==> result[j] == nodes[j]
  {
    if i < |nodes| then nodes[i := node] else nodes + [node]
  }

  /** The source's insertion: search, append a node if there is none, then overwrite it or descend. */
  method InsertFileTreeNode(siblings: seq<Node>, parts: seq<string>, file: File) returns (nodes: seq<Node>)
    requires 0 < |parts| <= |Split(file.path)|
    ensures nodes == Inserted(siblings, parts, file)
    decreases |parts|
  {
    nodes := siblings;
    var isFile := |parts| == 1;
    var path := file.path;
    if !isFile {
      var depth := |Split(file.path)| - |parts| + 1;
      path := Join(Split(file.path)[..depth]);
    }
    var i := FindNode(nodes, parts[0], path);
    if i == |nodes| {
      nodes := nodes + [Node(parts[0], path, if isFile then Plain else Directory,
                             if isFile then file.size else 0,
                             isFile && file.readonly,
                             if isFile then file.modified else 0,
                             [])];
    }
    if isFile {
      nodes := nodes[i := nodes[i].(kind := Plain, size := file.size, readonly := file.readonly,
                                    modified := file.modified)];
    } else {
      var children := InsertFileTreeNode(nodes[i].children, parts[1..], file);
      nodes := nodes[i := nodes[i].(children := children)];
    }
  }

  method FindNode(nodes: seq<Node>, name: string, path: string) returns (i: nat)
    ensures i == Position(nodes, name, path)
  {
    i := 0;
    while i < |nodes| && !(nodes[i].name == name && nodes[i].path == path)
      invariant 0 <= i <= |nodes|
      invariant forall j :: 0 <= j < i ==> !(nodes[j].name == name && nodes[j].path == path)
    {
      i := i + 1;
    }
  }

  // ---------- sorting ----------

  /** Directories first, then by name: the comparison does not return `Greater`. */
  predicate NodeLe(a: Node, b: Node) {
    (a.kind.Directory? && !b.kind.Directory?) || (a.kind == b.kind && !Less(b.name, a.name))
  }

  function InsertSorted(node: Node, nodes: seq<Node>): (result: seq<Node>)
    ensures multiset(result) == multiset{node} + multiset(nodes)
  {
    if nodes == [] || NodeLe(node, nodes[0]) then [node] + nodes
    else
      assert nodes == [nodes[0]] + nodes[1..];
      [nodes[0]] + InsertSorted(node, nodes[1..])
  }

  /** The stable sort by `NodeLe`. */
  function SortNodes(nodes: seq<Node>): (result: seq<Node>)
    ensures multiset(result) == multiset(nodes)
  {
    if nodes == [] then []
    else
      assert nodes == [nodes[0]] + nodes[1..];
      InsertSorted(nodes[0], SortNodes(nodes[1..]))
  }

  lemma SortedMembers(nodes: seq<Node>)
    ensures |SortNodes(nodes)| == |nodes|
    ensures forall n :: n in SortNodes(nodes) <==> n in nodes
  {
    assert |SortNodes(nodes)| == |multiset(SortNodes(nodes))| == |multiset(nodes)| == |nodes|;
    forall n ensures n in SortNodes(nodes) <==> n in nodes {
      assert n in SortNodes(nodes) <==> n in multiset(SortNodes(nodes));
      assert n in nodes <==> n in multiset(nodes);
    }
  }

  function SortTree(nodes: seq<Node>): (result: seq<Node>)
    ensures |result| == |nodes|
  {
    var sorted := SortNodes(nodes);
    SortedMembers(nodes);
    seq(|sorted|, i requires 0 <= i < |sorted| =>
      assert sorted[i] in nodes;
      sorted[i].(children := SortTree(sorted[i].children)))
  }

  predicate Sorted(nodes: seq<Node>) {
    forall i, j :: 0 <= i < j < |nodes| ==> NodeLe(nodes[i], nodes[j])
  }

  predicate SortedTree(nodes: seq<Node>) {
    && Sorted(nodes)
    && (forall i :: 0 <= i < |nodes| ==> SortedTree(nodes[i].children))
  }

  /** Directories before files, and names of one kind in lexicographic order. */
  ghost predicate ListedBefore(a: Node, b: Node) {
    if a.kind != b.kind then a.kind.Directory? else !Precedes(b.name, a.name)
  }

  /** The listing order of the browser, at every level. */
  ghost predicate Listed(nodes: seq<Node>) {
    && (forall i, j :: 0 <= i < j < |nodes| ==> ListedBefore(nodes[i], nodes[j]))
    && (forall i :: 0 <= i < |nodes| ==> Listed(nodes[i].children))
  }

  lemma NodeLeMeans(a: Node, b: Node)
    ensures NodeLe(a, b) <==> ListedBefore(a, b)
  {
    LessMeans(b.name, a.name);
  }

  /** Sorting by the comparison gives the listing order. */
  lemma {:induction false} SortedIsListed(nodes: seq<Node>)
    ensures SortedTree(nodes) <==> Listed(nodes)
    decreases nodes
  {
    forall i, j | 0 <= i < j < |nodes| ensures NodeLe(nodes[i], nodes[j]) <==> ListedBefore(nodes[i], nodes[j]) {
      NodeLeMeans(nodes[i], nodes[j]);
    }
    forall i | 0 <= i < |nodes| ensures SortedTree(nodes[i].children) <==> Listed(nodes[i].children) {
      SortedIsListed(nodes[i].children);
    }
  }

  method SortFileTree(nodes: seq<Node>) returns (sorted: seq<Node>)
    ensures sorted == SortTree(nodes) && Listed(sorted)
    decreases nodes
  {
    sorted := SortNodes(nodes);
    SortedMembers(nodes);
    for i := 0 to |sorted|
      invariant |sorted| == |nodes|
      invariant forall j :: 0 <= j < i ==> sorted[j] == SortTree(nodes)[j]
      invariant forall j :: i <= j < |sorted| ==> sorted[j] == SortNodes(nodes)[j]
    {
      assert SortNodes(nodes)[i] in nodes;
      var children := SortFileTree(sorted[i].children);
      sorted := sorted[i := sorted[i].(children := children)];
    }
    SortTreeSorts(nodes);
  }

  // ---------- building ----------

  function InsertedAll(files: seq<File>): seq<Node> {
    if files == [] then []
    else
      var before := InsertedAll(files[..|files| - 1]);
      var file := files[|files| - 1];
      if Parts(file) == [] then before else Inserted(before, Parts(file), file)
  }

  function Built(files: seq<File>): seq<Node> {
    SortTree(InsertedAll(files))
  }

  method BuildFileTree(files: seq<File>) returns (roots: seq<Node>)
    ensures roots == Built(files)
    ensures Listed(roots)
    ensures AllRegular(files) ==> Describes(roots, [], Contents(files))
  {
    roots := [];
    for i := 0 to |files|
      invariant roots == InsertedAll(files[..i])
    {
      assert files[..i + 1][..i] == files[..i];
      var parts := Parts(files[i]);
      if parts != [] {
        roots := InsertFileTreeNode(roots, parts, files[i]);
      }
    }
    assert files[..|files|] == files;
    roots := SortFileTree(roots);
    if AllRegular(files) {
      BuiltDescribes(files);
    }
  }

  // ---------- what a tree must hold ----------

  datatype Meta = Meta(size: nat, readonly: bool, modified: nat)

  function MetaOf(file: File): Meta {
    Meta(file.size, file.readonly, file.modified)
  }

  /** The files by their components; a later file with the same components replaces an earlier one. */
  function Contents(files: seq<File>): map<seq<string>, Meta> {
    if files == [] then map[]
    else
      var before := Contents(files[..|files| - 1]);
      var file := files[|files| - 1];
      if Parts(file) == [] then before else before[Parts(file) := MetaOf(file)]
  }

  function Heads(m: map<seq<string>, Meta>): set<string> {
    set k | k in m && k != [] :: k[0]
  }

  /** What lies below the name `a`. */
  function Below(m: map<seq<string>, Meta>, a: string): map<seq<string>, Meta> {
    map k | k in (set q | q in m && |q| > 1 && q[0] == a :: q[1..]) && [a] + k in m :: m[[a] + k]
  }

  /** A file carries the metadata of its own entry; a directory has no entry and no metadata. */
  predicate OwnData(node: Node, m: map<seq<string>, Meta>) {
    if [node.name] in m then
      node.kind == Plain && Meta(node.size, node.readonly, node.modified) == m[[node.name]]
    else
      node.kind == Directory && node.size == 0 && !node.readonly && node.modified == 0
  }

  predicate DistinctNames(nodes: seq<Node>) {
    forall i, j :: 0 <= i < j < |nodes| ==> nodes[i].name != nodes[j].name
  }

  predicate HasName(nodes: seq<Node>, name: string) {
    exists i :: 0 <= i < |nodes| && nodes[i].name == name
  }

  /**
   `nodes` is the tree of the files `m` below the components `above`: one node for each first
   component, no two of the same name, its path the join of the names down to it.
   */
  ghost predicate Describes(nodes: seq<Node>, above: seq<string>, m: map<seq<string>, Meta>)
    decreases nodes
  {
    && (forall k :: k in m ==> k != [])
    && DistinctNames(nodes)
    && (forall a :: a in Heads(m) ==> HasName(nodes, a))
    && (forall i :: 0 <= i < |nodes| ==> NodeDescribes(nodes[i], above, m))
  }

  ghost predicate NodeDescribes(node: Node, above: seq<string>, m: map<seq<string>, Meta>)
    decreases node
  {
    && node.name in Heads(m)
    && node.path == Join(above + [node.name])
    && OwnData(node, m)
    && Describes(node.children, above + [node.name], Below(m, node.name))
  }

  /** Every component is there, or none is: no empty component stands among the others. */
  predicate Regular(path: string) {
    NonEmpty(Split(path)) == Split(path) || NonEmpty(Split(path)) == []
  }

  predicate AllRegular(files: seq<File>) {
    forall i :: 0 <= i < |files| ==> Regular(files[i].path)
  }

  // ---------- insertion keeps the description ----------

  lemma BelowAt(m: map<seq<string>, Meta>, a: string, k: seq<string>)
    ensures k in Below(m, a) <==> k != [] && [a] + k in m
    ensures k in Below(m, a) ==> Below(m, a)[k] == m[[a] + k]
  {
    if k in Below(m, a) {
      var q :| q in m && |q| > 1 && q[0] == a && q[1..] == k;
      assert q == [a] + k;
    }
    if k != [] && [a] + k in m {
      assert ([a] + k)[1..] == k;
    }
  }

  lemma BelowUpdatedAt(m: map<seq<string>, Meta>, parts: seq<string>, v: Meta, a: string, k: seq<string>)
    requires parts != []
    ensures var after := if parts[0] == a && |parts| > 1 then Below(m, a)[parts[1..] := v] else Below(m, a);
            && (k in Below(m[parts := v], a) <==> k in after)
            && (k in after ==> Below(m[parts := v], a)[k] == after[k])
  {
    BelowAt(m, a, k);
    BelowAt(m[parts := v], a, k);
    assert parts == [parts[0]] + parts[1..];
    if parts[0] == a && k == parts[1..] {
      assert [a] + k == parts;
    } else {
      assert ([a] + k)[0] == a && ([a] + k)[1..] == k;
      assert [a] + k != parts;
    }
  }

  lemma BelowUpdated(m: map<seq<string>, Meta>, parts: seq<string>, v: Meta, a: string)
    requires parts != []
    ensures Below(m[parts := v], a) ==
            if parts[0] == a && |parts| > 1 then Below(m, a)[parts[1..] := v] else Below(m, a)
  {
    var after := if parts[0] == a && |parts| > 1 then Below(m, a)[parts[1..] := v] else Below(m, a);
    forall k
      ensures k in Below(m[parts := v], a) <==> k in after
      ensures k in after ==> Below(m[parts := v], a)[k] == after[k]
    {
      BelowUpdatedAt(m, parts, v, a, k);
    }
    SameMap(Below(m[parts := v], a), after);
  }

  lemma SameMap(a: map<seq<string>, Meta>, b: map<seq<string>, Meta>)
    requires forall k :: k in a <==> k in b
    requires forall k :: k in b ==> a[k] == b[k]
    ensures a == b
  {
  }

  lemma HeadsUpdated(m: map<seq<string>, Meta>, parts: seq<string>, v: Meta)
    requires parts != []
    ensures Heads(m[parts := v]) == Heads(m) + {parts[0]}
  {
    var m' := m[parts := v];
    forall a | a in Heads(m) ensures a in Heads(m') {
      var k :| k in m && k != [] && k[0] == a;
      assert k in m';
    }
    assert parts in m';
  }

  lemma OtherNodeKept(node: Node, above: seq<string>, m: map<seq<string>, Meta>, parts: seq<string>, v: Meta)
    requires parts != [] && node.name != parts[0] && NodeDescribes(node, above, m)
    ensures NodeDescribes(node, above, m[parts := v])
  {
    BelowUpdated(m, parts, v, node.name);
    HeadsUpdated(m, parts, v);
    assert [node.name] != parts;
  }

  lemma NodePathIsJoin(above: seq<string>, parts: seq<string>, file: File)
    requires parts != [] && above + parts == Split(file.path)
    ensures NodePath(file, parts) == Join(above + [parts[0]])
  {
    JoinSplit(file.path);
    assert Split(file.path)[..|above| + 1] == above + [parts[0]];
    assert |parts| == 1 ==> above + parts == above + [parts[0]];
  }

  lemma NothingBelow(m: map<seq<string>, Meta>, a: string)
    requires a !in Heads(m)
    ensures Below(m, a) == map[] && [a] !in m
  {
    assert forall q :: q in m && q != [] ==> q[0] in Heads(m);
  }

  lemma FoundDescribes(nodes: seq<Node>, above: seq<string>, m: map<seq<string>, Meta>, parts: seq<string>, file: File)
    requires Describes(nodes, above, m)
    requires parts != [] && above + parts == Split(file.path)
    ensures var node := Found(nodes, parts, file);
            && node.name == parts[0]
            && node.path == Join(above + [parts[0]])
            && Describes(node.children, above + [parts[0]], Below(m, parts[0]))
            && OwnData(node, m)
    ensures var i := Position(nodes, parts[0], NodePath(file, parts));
            forall j :: 0 <= j < |nodes| && j != i ==> nodes[j].name != parts[0]
  {
    NodePathIsJoin(above, parts, file);
    var i := Position(nodes, parts[0], NodePath(file, parts));
    if i == |nodes| {
      forall j | 0 <= j < |nodes| ensures nodes[j].name != parts[0] {
        assert NodeDescribes(nodes[j], above, m);
      }
      assert parts[0] !in Heads(m);
      NothingBelow(m, parts[0]);
    }
  }

  lemma ReplacedHasName(nodes: seq<Node>, i: nat, node: Node, a: string)
    requires i <= |nodes| && HasName(nodes, a) && a != node.name
    requires i < |nodes| ==> nodes[i].name == node.name
    ensures HasName(Replaced(nodes, i, node), a)
  {
    var j :| 0 <= j < |nodes| && nodes[j].name == a;
    assert Replaced(nodes, i, node)[j].name == a;
  }

  lemma ReplacedDescribes(
    nodes: seq<Node>, above: seq<string>, m: map<seq<string>, Meta>, i: nat, node: Node, m': map<seq<string>, Meta>)
    requires i <= |nodes| && Describes(nodes, above, m) && NodeDescribes(node, above, m')
    requires forall k :: k in m' ==> k != []
    requires Heads(m') == Heads(m) + {node.name}
    requires forall j :: 0 <= j < |nodes| && j != i ==>
               nodes[j].name != node.name && NodeDescribes(nodes[j], above, m')
    requires i < |nodes| ==> nodes[i].name == node.name
    ensures Describes(Replaced(nodes, i, node), above, m')
  {
    var after := Replaced(nodes, i, node);
    forall a | a in Heads(m') ensures HasName(after, a) {
      if a == node.name {
        assert after[i].name == a;
      } else {
        ReplacedHasName(nodes, i, node, a);
      }
    }
  }

  lemma {:induction false} InsertedDescribes(
    nodes: seq<Node>, above: seq<string>, m: map<seq<string>, Meta>, parts: seq<string>, file: File)
    requires Describes(nodes, above, m)
    requires parts != [] && above + parts == Split(file.path)
    ensures Describes(Inserted(nodes, parts, file), above, m[parts := MetaOf(file)])
    decreases |parts|, 1
  {
    var i := Position(nodes, parts[0], NodePath(file, parts));
    var node := Updated(Found(nodes, parts, file), parts, file);
    FoundDescribes(nodes, above, m, parts, file);
    HeadsUpdated(m, parts, MetaOf(file));
    UpdatedDescribes(nodes, above, m, parts, file);
    forall j | 0 <= j < |nodes| && j != i
      ensures NodeDescribes(nodes[j], above, m[parts := MetaOf(file)])
    {
      OtherNodeKept(nodes[j], above, m, parts, MetaOf(file));
    }
    ReplacedDescribes(nodes, above, m, i, node, m[parts := MetaOf(file)]);
  }

  lemma {:induction false} UpdatedDescribes(
    nodes: seq<Node>, above: seq<string>, m: map<seq<string>, Meta>, parts: seq<string>, file: File)
    requires Describes(nodes, above, m)
    requires parts != [] && above + parts == Split(file.path)
    ensures NodeDescribes(Updated(Found(nodes, parts, file), parts, file), above, m[parts := MetaOf(file)])
    decreases |parts|, 0
  {
    if |parts| > 1 {
      var node := Found(nodes, parts, file);
      FoundDescribes(nodes, above, m, parts, file);
      Behind(above, parts);
      InsertedDescribes(node.children, above + [parts[0]], Below(m, parts[0]), parts[1..], file);
      UpdatedDirectory(node, above, m, parts, file);
    } else {
      UpdatedFile(nodes, above, m, parts, file);
    }
  }

  lemma Behind(above: seq<string>, parts: seq<string>)
    requires parts != []
    ensures above + [parts[0]] + parts[1..] == above + parts
  {
  }

  lemma UpdatedFile(
    nodes: seq<Node>, above: seq<string>, m: map<seq<string>, Meta>, parts: seq<string>, file: File)
    requires Describes(nodes, above, m)
    requires |parts| == 1 && above + parts == Split(file.path)
    ensures NodeDescribes(Updated(Found(nodes, parts, file), parts, file), above, m[parts := MetaOf(file)])
  {
    FoundDescribes(nodes, above, m, parts, file);
    assert parts == [parts[0]];
    PlainDescribes(Found(nodes, parts, file), above, m, MetaOf(file));
  }

  lemma UpdatedDirectory(
    node: Node, above: seq<string>, m: map<seq<string>, Meta>, parts: seq<string>, file: File)
    requires 1 < |parts| <= |Split(file.path)| && node.name == parts[0] && OwnData(node, m)
    requires node.path == Join(above + [node.name])
    requires Describes(Inserted(node.children, parts[1..], file), above + [node.name],
                       Below(m, node.name)[parts[1..] := MetaOf(file)])
    ensures NodeDescribes(Updated(node, parts, file), above, m[parts := MetaOf(file)])
  {
    DirectoryDescribes(node, above, m, parts, MetaOf(file), Inserted(node.children, parts[1..], file));
  }

  lemma PlainDescribes(node: Node, above: seq<string>, m: map<seq<string>, Meta>, v: Meta)
    requires node.path == Join(above + [node.name])
    requires Describes(node.children, above + [node.name], Below(m, node.name))
    ensures NodeDescribes(node.(kind := Plain, size := v.size, readonly := v.readonly, modified := v.modified),
                          above, m[[node.name] := v])
  {
    BelowUpdated(m, [node.name], v, node.name);
    HeadsUpdated(m, [node.name], v);
  }

  lemma DirectoryDescribes(
    node: Node, above: seq<string>, m: map<seq<string>, Meta>, parts: seq<string>, v: Meta, children: seq<Node>)
    requires |parts| > 1 && node.name == parts[0] && OwnData(node, m)
    requires node.path == Join(above + [node.name])
    requires Describes(children, above + [node.name], Below(m, node.name)[parts[1..] := v])
    ensures NodeDescribes(node.(children := children), above, m[parts := v])
  {
    BelowUpdated(m, parts, v, node.name);
    HeadsUpdated(m, parts, v);
    assert [node.name] != parts;
  }

  // ---------- sorting keeps the description ----------

  lemma InsertSortedMembers(node: Node, nodes: seq<Node>)
    ensures forall n :: n in InsertSorted(node, nodes) <==> n == node || n in nodes
  {
    forall n ensures n in InsertSorted(node, nodes) <==> n == node || n in nodes {
      assert n in InsertSorted(node, nodes) <==> n in multiset(InsertSorted(node, nodes));
      assert n in nodes <==> n in multiset(nodes);
    }
  }

  lemma NodeLeTransitive(a: Node, b: Node, c: Node)
    requires NodeLe(a, b) && NodeLe(b, c)
    ensures NodeLe(a, c)
  {
    if a.kind == b.kind == c.kind && Less(c.name, a.name) {
      LessTotal(a.name, b.name);
      if Less(a.name, b.name) {
        LessTransitive(c.name, a.name, b.name);
      }
    }
  }

  lemma NodeLeTotal(a: Node, b: Node)
    requires !NodeLe(a, b)
    ensures NodeLe(b, a)
  {
    if a.kind == b.kind {
      LessAsymmetric(b.name, a.name);
    }
  }

  lemma {:induction false} InsertSortedSorted(node: Node, nodes: seq<Node>)
    requires Sorted(nodes)
    ensures Sorted(InsertSorted(node, nodes))
  {
    if nodes == [] || NodeLe(node, nodes[0]) {
      forall j | 0 <= j < |nodes| ensures NodeLe(node, nodes[j]) {
        if j > 0 {
          NodeLeTransitive(node, nodes[0], nodes[j]);
        }
      }
    } else {
      InsertSortedSorted(node, nodes[1..]);
      InsertSortedMembers(node, nodes[1..]);
      NodeLeTotal(node, nodes[0]);
      var rest := InsertSorted(node, nodes[1..]);
      forall j | 0 <= j < |rest| ensures NodeLe(nodes[0], rest[j]) {
        assert rest[j] in rest;
      }
    }
  }

  lemma {:induction false} InsertSortedDistinct(node: Node, nodes: seq<Node>)
    requires DistinctNames(nodes)
    requires forall i :: 0 <= i < |nodes| ==> nodes[i].name != node.name
    ensures DistinctNames(InsertSorted(node, nodes))
  {
    if nodes != [] && !NodeLe(node, nodes[0]) {
      InsertSortedDistinct(node, nodes[1..]);
      InsertSortedMembers(node, nodes[1..]);
      var rest := InsertSorted(node, nodes[1..]);
      forall j | 0 <= j < |rest| ensures rest[j].name != nodes[0].name {
        assert rest[j] in rest;
      }
    }
  }

  lemma {:induction false} SortNodesSorted(nodes: seq<Node>)
    ensures Sorted(SortNodes(nodes))
    ensures DistinctNames(nodes) ==> DistinctNames(SortNodes(nodes))
  {
    if nodes != [] {
      SortNodesSorted(nodes[1..]);
      var rest := SortNodes(nodes[1..]);
      InsertSortedSorted(nodes[0], rest);
      if DistinctNames(nodes) {
        SortedMembers(nodes[1..]);
        forall i | 0 <= i < |rest| ensures rest[i].name != nodes[0].name {
          assert rest[i] in nodes[1..];
        }
        InsertSortedDistinct(nodes[0], rest);
      }
    }
  }

  lemma {:induction false} SortTreeSorted(nodes: seq<Node>)
    ensures SortedTree(SortTree(nodes))
  {
    SortNodesSorted(nodes);
    SortedMembers(nodes);
    var sorted, result := SortNodes(nodes), SortTree(nodes);
    forall i | 0 <= i < |result| ensures SortedTree(result[i].children) {
      assert sorted[i] in nodes;
      SortTreeSorted(sorted[i].children);
    }
    forall i, j | 0 <= i < j < |result| ensures NodeLe(result[i], result[j]) {
      assert NodeLe(sorted[i], sorted[j]);
    }
  }

  /** The sort gives the listing order at every level. */
  lemma {:induction false} SortTreeSorts(nodes: seq<Node>)
    ensures SortedTree(SortTree(nodes)) && Listed(SortTree(nodes))
  {
    SortTreeSorted(nodes);
    SortedIsListed(SortTree(nodes));
  }

  lemma SortTreeDistinct(nodes: seq<Node>)
    requires DistinctNames(nodes)
    ensures DistinctNames(SortTree(nodes))
  {
    SortNodesSorted(nodes);
    SortedMembers(nodes);
    assert forall i :: 0 <= i < |nodes| ==> SortTree(nodes)[i].name == SortNodes(nodes)[i].name;
  }

  lemma SortTreeHasName(nodes: seq<Node>, a: string)
    requires HasName(nodes, a)
    ensures HasName(SortTree(nodes), a)
  {
    var i :| 0 <= i < |nodes| && nodes[i].name == a;
    SortedMembers(nodes);
    assert nodes[i] in SortNodes(nodes);
    var j :| 0 <= j < |SortNodes(nodes)| && SortNodes(nodes)[j] == nodes[i];
    assert SortTree(nodes)[j].name == a;
  }

  lemma WithChildren(node: Node, children: seq<Node>, above: seq<string>, m: map<seq<string>, Meta>)
    requires NodeDescribes(node, above, m)
    requires Describes(children, above + [node.name], Below(m, node.name))
    ensures NodeDescribes(node.(children := children), above, m)
  {
  }

  lemma {:induction false} SortTreeDescribes(nodes: seq<Node>, above: seq<string>, m: map<seq<string>, Meta>)
    requires Describes(nodes, above, m)
    ensures Describes(SortTree(nodes), above, m)
    decreases nodes
  {
    SortTreeDistinct(nodes);
    SortedMembers(nodes);
    var sorted, result := SortNodes(nodes), SortTree(nodes);
    forall i | 0 <= i < |result| ensures NodeDescribes(result[i], above, m) {
      assert sorted[i] in nodes;
      SortTreeDescribes(sorted[i].children, above + [sorted[i].name], Below(m, sorted[i].name));
      WithChildren(sorted[i], SortTree(sorted[i].children), above, m);
    }
    forall a | a in Heads(m) ensures HasName(result, a) {
      SortTreeHasName(nodes, a);
    }
  }

  // ---------- the built tree describes the files ----------

  lemma {:induction false} InsertedAllDescribes(files: seq<File>)
    requires AllRegular(files)
    ensures Describes(InsertedAll(files), [], Contents(files))
  {
    if files == [] {
      assert Heads(map[]) == {};
    } else {
      var before, file := files[..|files| - 1], files[|files| - 1];
      InsertedAllDescribes(before);
      if Parts(file) != [] {
        assert [] + Parts(file) == Split(file.path);
        InsertedDescribes(InsertedAll(before), [], Contents(before), Parts(file), file);
      }
    }
  }

  lemma BuiltDescribes(files: seq<File>)
    requires AllRegular(files)
    ensures Describes(Built(files), [], Contents(files))
    ensures SortedTree(Built(files)) && Listed(Built(files))
  {
    InsertedAllDescribes(files);
    SortTreeDescribes(InsertedAll(files), [], Contents(files));
    SortTreeSorts(InsertedAll(files));
  }

  // ---------- there is only one such tree ----------

  /** The order of siblings, from their names alone: what is not a file itself comes first. */
  predicate NameLess(m: map<seq<string>, Meta>, a: string, b: string) {
    ([a] !in m && [b] in m) || (([a] in m <==> [b] in m) && Less(a, b))
  }

  lemma NameLessAsymmetric(m: map<seq<string>, Meta>, a: string, b: string)
    requires NameLess(m, a, b)
    ensures !NameLess(m, b, a) && a != b
  {
    if Less(a, b) {
      LessAsymmetric(a, b);
    }
  }

  ghost predicate StrictNames(m: map<seq<string>, Meta>, names: seq<string>) {
    forall i, j :: 0 <= i < j < |names| ==> NameLess(m, names[i], names[j])
  }

  lemma {:induction false} OneOrder(m: map<seq<string>, Meta>, s: seq<string>, t: seq<string>)
    requires StrictNames(m, s) && StrictNames(m, t)
    requires forall a :: a in s <==> a in t
    ensures s == t
  {
    if s == [] {
      NoMembers(t);
    } else if t == [] {
      NoMembers(s);
    } else {
      assert s[0] in t && t[0] in s;
      if s[0] != t[0] {
        NameLessAsymmetric(m, s[0], t[0]);
      }
      forall a ensures a in s[1..] <==> a in t[1..] {
        assert a in s <==> a == s[0] || a in s[1..];
        assert a in t <==> a == t[0] || a in t[1..];
        FirstIsFirst(m, s);
        FirstIsFirst(m, t);
      }
      OneOrder(m, s[1..], t[1..]);
    }
  }

  lemma NoMembers(s: seq<string>)
    ensures (forall a :: a !in s) ==> s == []
  {
    if s != [] {
      assert s[0] in s;
    }
  }

  lemma FirstIsFirst(m: map<seq<string>, Meta>, s: seq<string>)
    requires s != [] && StrictNames(m, s)
    ensures s[0] !in s[1..]
  {
    if s[0] in s[1..] {
      var i :| 1 <= i < |s| && s[i] == s[0];
      NameLessAsymmetric(m, s[0], s[i]);
    }
  }

  function Names(nodes: seq<Node>): (names: seq<string>)
    ensures |names| == |nodes|
    ensures forall i :: 0 <= i < |nodes| ==> names[i] == nodes[i].name
  {
    seq(|nodes|, i requires 0 <= i < |nodes| => nodes[i].name)
  }

  lemma DescribedNames(nodes: seq<Node>, above: seq<string>, m: map<seq<string>, Meta>)
    requires Describes(nodes, above, m) && SortedTree(nodes)
    ensures StrictNames(m, Names(nodes))
    ensures forall a :: a in Names(nodes) <==> a in Heads(m)
  {
    var names := Names(nodes);
    forall i, j | 0 <= i < j < |names| ensures NameLess(m, names[i], names[j]) {
      assert NodeLe(nodes[i], nodes[j]);
      assert NodeDescribes(nodes[i], above, m) && NodeDescribes(nodes[j], above, m);
      LessTotal(names[i], names[j]);
    }
    forall a | a in Heads(m) ensures a in names {
      var i :| 0 <= i < |nodes| && nodes[i].name == a;
      assert names[i] == a;
    }
    forall a | a in names ensures a in Heads(m) {
      var i :| 0 <= i < |nodes| && names[i] == a;
      assert NodeDescribes(nodes[i], above, m);
    }
  }

  lemma {:induction false} OneTree(a: seq<Node>, b: seq<Node>, above: seq<string>, m: map<seq<string>, Meta>)
    requires Describes(a, above, m) && SortedTree(a)
    requires Describes(b, above, m) && SortedTree(b)
    ensures a == b
    decreases a
  {
    DescribedNames(a, above, m);
    DescribedNames(b, above, m);
    OneOrder(m, Names(a), Names(b));
    assert |a| == |Names(a)| == |b|;
    forall i | 0 <= i < |a| ensures a[i] == b[i] {
      assert Names(a)[i] == Names(b)[i];
      assert NodeDescribes(a[i], above, m) && NodeDescribes(b[i], above, m);
      OneTree(a[i].children, b[i].children, above + [a[i].name], Below(m, a[i].name));
    }
  }

  /** The built tree is the one sorted tree that holds exactly the given files. */
  lemma BuiltIsCanonical(files: seq<File>, tree: seq<Node>)
    requires AllRegular(files)
    ensures tree == Built(files) <==> Describes(tree, [], Contents(files)) && Listed(tree)
  {
    BuiltDescribes(files);
    SortedIsListed(tree);
    if Describes(tree, [], Contents(files)) && Listed(tree) {
      OneTree(tree, Built(files), [], Contents(files));
    }
  }

  // ---------- files with distinct paths, in any order ----------

  predicate DistinctPaths(files: seq<File>) {
    forall i, j :: 0 <= i < j < |files| ==> files[i].path != files[j].path
  }

  lemma PartsIdentify(f: File, g: File)
    requires Regular(f.path) && Regular(g.path) && Parts(f) != []
    requires Parts(f) == Parts(g)
    ensures f.path == g.path
  {
    JoinSplit(f.path);
    JoinSplit(g.path);
  }

  predicate IsFileAt(file: File, k: seq<string>, v: Meta) {
    k != [] && Parts(file) == k && MetaOf(file) == v
  }

  /** Some listed file has these parts and this metadata. */
  predicate Lists(files: seq<File>, k: seq<string>, v: Meta) {
    exists i :: 0 <= i < |files| && IsFileAt(files[i], k, v)
  }

  lemma LastFileWins(files: seq<File>, k: seq<string>, v: Meta)
    requires files != [] && AllRegular(files) && DistinctPaths(files)
    requires k != [] && Parts(files[|files| - 1]) == k
    ensures MetaOf(files[|files| - 1]) == v <==>
            Lists(files, k, v)
  {
    var n := |files| - 1;
    if MetaOf(files[n]) == v {
      assert IsFileAt(files[n], k, v);
    }
    if i :| 0 <= i < |files| && IsFileAt(files[i], k, v) {
      PartsIdentify(files[i], files[n]);
    }
  }

  lemma OtherFilesCount(before: seq<File>, file: File, k: seq<string>, v: Meta)
    requires k == [] || Parts(file) != k
    ensures Lists(before + [file], k, v) <==> Lists(before, k, v)
  {
    var files := before + [file];
    if i :| 0 <= i < |files| && IsFileAt(files[i], k, v) {
      assert i < |before| && before[i] == files[i];
    }
    if i :| 0 <= i < |before| && IsFileAt(before[i], k, v) {
      assert files[i] == before[i];
    }
  }

  lemma {:induction false} ContentsExactly(files: seq<File>, k: seq<string>, v: Meta)
    requires AllRegular(files) && DistinctPaths(files)
    ensures k in Contents(files) && Contents(files)[k] == v <==>
            Lists(files, k, v)
  {
    if files != [] {
      if k != [] && Parts(files[|files| - 1]) == k {
        LastFileWins(files, k, v);
      } else {
        ContentsExactly(files[..|files| - 1], k, v);
        OtherFilesCount(files[..|files| - 1], files[|files| - 1], k, v);
        assert files[..|files| - 1] + [files[|files| - 1]] == files;
      }
    }
  }

  lemma SameFilesSameContents(files: seq<File>, others: seq<File>)
    requires AllRegular(files) && DistinctPaths(files)
    requires AllRegular(others) && DistinctPaths(others)
    requires forall f :: f in files ==> f in others
    ensures forall k :: k in Contents(files) ==> k in Contents(others) && Contents(others)[k] == Contents(files)[k]
  {
    forall k | k in Contents(files)
      ensures k in Contents(others) && Contents(others)[k] == Contents(files)[k]
    {
      var v := Contents(files)[k];
      ContentsExactly(files, k, v);
      var i :| 0 <= i < |files| && IsFileAt(files[i], k, v);
      assert files[i] in others;
      var j :| 0 <= j < |others| && others[j] == files[i];
      ContentsExactly(others, k, v);
    }
  }

  lemma PermutationFacts(files: seq<File>, others: seq<File>)
    requires multiset(files) == multiset(others)
    ensures forall f :: f in files <==> f in others
  {
    forall f ensures f in files <==> f in others {
      assert f in files <==> f in multiset(files);
      assert f in others <==> f in multiset(others);
    }
  }

  /** The order in which the files are listed does not matter. */
  lemma {:induction false} OrderDoesNotMatter(files: seq<File>, others: seq<File>)
    requires AllRegular(files) && DistinctPaths(files) && DistinctPaths(others)
    requires multiset(files) == multiset(others)
    ensures Built(files) == Built(others)
  {
    PermutationFacts(files, others);
    forall i | 0 <= i < |others| ensures Regular(others[i].path) {
      assert others[i] in files;
    }
    SameFilesSameContents(files, others);
    SameFilesSameContents(others, files);
    assert Contents(files) == Contents(others);
    BuiltDescribes(others);
    BuiltIsCanonical(files, Built(others));
  }

  /** A file node with this metadata is found by following the names. */
  predicate HasFile(nodes: seq<Node>, k: seq<string>, v: Meta)
    decreases |k|
  {
    k != [] && exists i :: 0 <= i < |nodes| && nodes[i].name == k[0] && FileUnder(nodes[i], k, v)
  }

  predicate FileUnder(node: Node, k: seq<string>, v: Meta)
    requires k != []
    decreases |k|, 0
  {
    if |k| == 1 then node.kind == Plain && Meta(node.size, node.readonly, node.modified) == v
    else HasFile(node.children, k[1..], v)
  }

  lemma {:induction false} InsertedHasFile(nodes: seq<Node>, parts: seq<string>, file: File)
    requires 0 < |parts| <= |Split(file.path)|
    ensures HasFile(Inserted(nodes, parts, file), parts, MetaOf(file))
    decreases |parts|
  {
    var i := Position(nodes, parts[0], NodePath(file, parts));
    var found := Found(nodes, parts, file);
    assert Inserted(nodes, parts, file)[i] == Updated(found, parts, file);
    if |parts| > 1 {
      InsertedHasFile(found.children, parts[1..], file);
    }
    assert FileUnder(Inserted(nodes, parts, file)[i], parts, MetaOf(file));
  }

  lemma {:induction false} SortTreeHasFile(nodes: seq<Node>, k: seq<string>, v: Meta)
    requires HasFile(nodes, k, v)
    ensures HasFile(SortTree(nodes), k, v)
    decreases |k|
  {
    var i :| 0 <= i < |nodes| && nodes[i].name == k[0] && FileUnder(nodes[i], k, v);
    SortedMembers(nodes);
    assert nodes[i] in SortNodes(nodes);
    var j :| 0 <= j < |SortNodes(nodes)| && SortNodes(nodes)[j] == nodes[i];
    if |k| > 1 {
      SortTreeHasFile(nodes[i].children, k[1..], v);
    }
    assert FileUnder(SortTree(nodes)[j], k, v);
  }

  /** Whatever its path looks like, the file listed last is found by the components of its path that are not empty. */
  lemma ListedFileIsThere(files: seq<File>, file: File)
    requires Parts(file) != []
    ensures HasFile(Built(files + [file]), Parts(file), MetaOf(file))
  {
    assert (files + [file])[..|files|] == files;
    InsertedHasFile(InsertedAll(files), Parts(file), file);
    SortTreeHasFile(InsertedAll(files + [file]), Parts(file), MetaOf(file));
  }

  lemma {:induction false} DescribedFiles(
    nodes: seq<Node>, above: seq<string>, m: map<seq<string>, Meta>, k: seq<string>, v: Meta)
    requires Describes(nodes, above, m)
    ensures HasFile(nodes, k, v) <==> k in m && m[k] == v
    decreases |k|
  {
    if k != [] {
      assert k == [k[0]] + k[1..];
      forall i | 0 <= i < |nodes| && nodes[i].name == k[0]
        ensures FileUnder(nodes[i], k, v) <==> k in m && m[k] == v
      {
        assert NodeDescribes(nodes[i], above, m);
        if |k| > 1 {
          BelowAt(m, k[0], k[1..]);
          DescribedFiles(nodes[i].children, above + [k[0]], Below(m, k[0]), k[1..], v);
        } else {
          assert k == [k[0]];
        }
      }
      if k in m {
        assert k[0] in Heads(m);
        var i :| 0 <= i < |nodes| && nodes[i].name == k[0];
      }
    }
  }

  /** The file nodes of the built tree are the listed files, with their metadata. */
  lemma FileNodesAreTheFiles(files: seq<File>, k: seq<string>, v: Meta)
    requires AllRegular(files) && DistinctPaths(files)
    ensures HasFile(Built(files), k, v) <==> Lists(files, k, v)
  {
    BuiltDescribes(files);
    DescribedFiles(Built(files), [], Contents(files), k, v);
    ContentsExactly(files, k, v);
  }

  // ---------- paths with empty components ----------

  lemma JoinHasSlash(components: seq<string>)
    requires |components| > 1
    ensures '/' in Join(components)
  {
    var i := |components[0]|;
    assert Join(components)[i] == '/';
  }

  lemma RootName(file: File)
    requires Parts(file) != []
    ensures !Regular(file.path) ==> NodePath(file, Parts(file)) != Parts(file)[0]
    ensures Regular(file.path) ==> NodePath(file, Parts(file)) == Parts(file)[0]
  {
    var parts, components := Parts(file), Split(file.path);
    assert '/' !in parts[0] by { assert parts[0] in components; }
    JoinSplit(file.path);
    if !Regular(file.path) {
      assert |parts| < |components|;
      if |parts| > 1 {
        JoinHasSlash(components[..|components| - |parts| + 1]);
      } else if file.path == parts[0] {
        SplitName(parts[0]);
      }
    } else {
      assert components[..1] == [parts[0]];
    }
  }

  /** The node that a file alone gives. */
  function Root(file: File): Node
    requires Parts(file) != []
  {
    Updated(Node(Parts(file)[0], NodePath(file, Parts(file)), Directory, 0, false, 0, []), Parts(file), file)
  }

  lemma RootFields(file: File)
    requires Parts(file) != []
    ensures Root(file).name == Parts(file)[0] && Root(file).path == NodePath(file, Parts(file))
    ensures Root(file).kind == if |Parts(file)| == 1 then Plain else Directory
  {
  }

  lemma InsertNew(nodes: seq<Node>, file: File)
    requires Parts(file) != []
    requires forall i :: 0 <= i < |nodes| ==> nodes[i].path != NodePath(file, Parts(file))
    ensures Inserted(nodes, Parts(file), file) == nodes + [Root(file)]
  {
    assert Position(nodes, Parts(file)[0], NodePath(file, Parts(file))) == |nodes|;
    assert Found(nodes, Parts(file), file) ==
           Node(Parts(file)[0], NodePath(file, Parts(file)), Directory, 0, false, 0, []);
  }

  lemma TwoInserted(f: File, g: File)
    requires Parts(f) != [] && Parts(g) != []
    requires NodePath(f, Parts(f)) != NodePath(g, Parts(g))
    ensures InsertedAll([f, g]) == [Root(f), Root(g)]
  {
    RootFields(f);
    InsertNew([], f);
    InsertNew([Root(f)], g);
    assert [f, g][..1] == [f] && [f][..0] == [];
    assert InsertedAll([]) == [];
    assert InsertedAll([f]) == [] + [Root(f)];
  }

  lemma TwoSorted(a: Node, b: Node)
    requires NodeLe(a, b)
    ensures SortNodes([a, b]) == [a, b]
  {
    assert [a, b][1..] == [b] && [b][1..] == [];
    assert SortNodes([]) == [];
    assert SortNodes([b]) == [b];
    assert InsertSorted(a, [b]) == [a, b];
  }

  /** Two files whose first parts have one name but different node paths keep their list order. */
  lemma TwoRoots(f: File, g: File)
    requires Parts(f) != [] && Parts(g) != [] && |Parts(f)| == |Parts(g)| && Parts(f)[0] == Parts(g)[0]
    requires NodePath(f, Parts(f)) != NodePath(g, Parts(g))
    ensures |Built([f, g])| == 2 && Built([f, g])[0].path == NodePath(f, Parts(f))
  {
    TwoInserted(f, g);
    RootFields(f);
    RootFields(g);
    if Less(Root(g).name, Root(f).name) {
      LessAsymmetric(Root(g).name, Root(f).name);
    }
    TwoSorted(Root(f), Root(g));
  }

  /** Listed with `other`, in the order given or the other way round, `path` gives one tree. */
  ghost predicate SameEitherWay(path: string, other: string) {
    forall f: File, g: File :: f.path == path && g.path == other ==> Built([f, g]) == Built([g, f])
  }

  lemma RegularEitherWay(path: string, other: string)
    requires Regular(path) && Regular(other) && path != other
    ensures SameEitherWay(path, other)
  {
    forall f: File, g: File | f.path == path && g.path == other
      ensures Built([f, g]) == Built([g, f])
    {
      TwoFiles(f, g);
    }
  }

  lemma TwoFiles(f: File, g: File)
    requires Regular(f.path) && Regular(g.path) && f.path != g.path
    ensures Built([f, g]) == Built([g, f])
  {
    assert multiset([f, g]) == multiset{f, g};
    assert multiset([g, f]) == multiset{f, g};
    OrderDoesNotMatter([f, g], [g, f]);
  }

  lemma IrregularOrderMatters(path: string) returns (other: string)
    requires !Regular(path)
    ensures Regular(other) && other != path && !SameEitherWay(path, other)
  {
    var f := File(path, 0, false, 0);
    var parts := Parts(f);
    forall i | 0 <= i < |parts| ensures '/' !in parts[i] {
      assert parts[i] in Split(path);
    }
    SplitJoin(parts);
    NonEmptyKeeps(parts);
    other := Join(parts);
    var g := File(other, 0, false, 0);
    assert Parts(g) == parts && Regular(other);
    RootName(f);
    RootName(g);
    TwoRoots(f, g);
    TwoRoots(g, f);
    assert Built([f, g])[0].path != Built([g, f])[0].path;
  }

  /**
   A path can be listed with every regular path in either order exactly when it is regular
   itself. For an irregular one the regular path with the same parts gives two roots of one name.
   */
  lemma OrderMattersExactly(path: string)
    ensures Regular(path) <==>
            forall other :: Regular(other) && other != path ==> SameEitherWay(path, other)
  {
    if Regular(path) {
      forall other | Regular(other) && other != path ensures SameEitherWay(path, other) {
        RegularEitherWay(path, other);
      }
    } else {
      var other := IrregularOrderMatters(path);
    }
  }
}
