/** The file tree of the explorer panel: a forest of `FileNode` values that is
    only ever replaced wholesale. `ToggleNode`/`Toggle` are the copy-on-write
    rewrite behind `toggleFolder`; `Survives`, `Visible` and `Render` are the
    search filter and the view that `renderFileTree` builds from it. */
module FileExplorer {
  import opened Options
  import opened Strings

  datatype Kind = File | Folder

  /** `expanded`, `language` and `children` are optional properties of the
      JavaScript object; any node may carry children, although only folders
      show them. */
  datatype FileNode = FileNode(
    id: string,
    name: string,
    kind: Kind,
    expanded: Option<bool>,
    language: Option<string>,
    children: Children)

  /** The optional `children` array; `Present([])` is an empty array, which
      JavaScript treats as truthy. */
  datatype Children = Absent | Present(nodes: seq<FileNode>)

  /** JavaScript truthiness of the optional `expanded` flag. */
  predicate IsOpen(flag: Option<bool>)
  {
    flag == Some(true)
  }

  // ---------------------------------------------------------------------
  // toggleFolder

  /** One step of `toggleNode`: a folder whose id matches gets `!expanded`
      (a missing flag reads as false) and keeps its children untouched;
      any other node with children is rebuilt around its toggled children. */
  function ToggleNode(n: FileNode, id: string): FileNode
    decreases n
  {
    if n.id == id && n.kind == Folder then
      n.(expanded := Some(!IsOpen(n.expanded)))
    else if n.children.Present? then
      n.(children := Present(Toggle(n.children.nodes, id)))
    else
      n
  }

  /** `toggleNode(nodes)`: `nodes.map(...)`. */
  function Toggle(nodes: seq<FileNode>, id: string): seq<FileNode>
    decreases nodes
  {
    if nodes == [] then [] else [ToggleNode(nodes[0], id)] + Toggle(nodes[1..], id)
  }

  // ---------------------------------------------------------------------
  // Observations used to state what a toggle does

  /** The shape of a tree: everything but the `expanded` flags. */
  function EraseNode(n: FileNode): FileNode
    decreases n
  {
    n.(expanded := None,
       children := if n.children.Present? then Present(Erase(n.children.nodes)) else Absent)
  }

  function Erase(nodes: seq<FileNode>): seq<FileNode>
    decreases nodes
  {
    if nodes == [] then [] else [EraseNode(nodes[0])] + Erase(nodes[1..])
  }

  /** One line of a pre-order listing of the tree. */
  datatype Entry = Entry(id: string, kind: Kind, expanded: Option<bool>)

  function NodeEntries(n: FileNode): seq<Entry>
    decreases n
  {
    [Entry(n.id, n.kind, n.expanded)] + (if n.children.Present? then Entries(n.children.nodes) else [])
  }

  /** Every node of the forest, in pre-order, with its id, kind and flag. */
  function Entries(nodes: seq<FileNode>): seq<Entry>
    decreases nodes
  {
    if nodes == [] then [] else NodeEntries(nodes[0]) + Entries(nodes[1..])
  }

  /** Number of nodes whose id is `id`. */
  function CountId(es: seq<Entry>, id: string): nat
  {
    if es == [] then 0 else (if es[0].id == id then 1 else 0) + CountId(es[1..], id)
  }

  /** Some folder of the forest has id `id`. */
  predicate HasFolder(nodes: seq<FileNode>, id: string)
  {
    exists e :: e in Entries(nodes) && e.id == id && e.kind == Folder
  }

  /** What a toggle of `id` should do to one listed node. */
  function Flip(e: Entry, id: string): Entry
  {
    if e.id == id && e.kind == Folder then e.(expanded := Some(!IsOpen(e.expanded))) else e
  }

  function FlipAll(es: seq<Entry>, id: string): (r: seq<Entry>)
    ensures |r| == |es|
    ensures forall i :: 0 <= i < |es| ==> r[i] == Flip(es[i], id)
  {
    if es == [] then [] else [Flip(es[0], id)] + FlipAll(es[1..], id)
  }

  lemma {:induction false} CountIdAppend(a: seq<Entry>, b: seq<Entry>, id: string)
    ensures CountId(a + b, id) == CountId(a, id) + CountId(b, id)
  {
    if a != [] {
      assert (a + b)[1..] == a[1..] + b;
      CountIdAppend(a[1..], b, id);
    } else {
      assert a + b == b;
    }
  }

  lemma {:induction false} FlipAllAbsent(es: seq<Entry>, id: string)
    requires CountId(es, id) == 0
    ensures FlipAll(es, id) == es
  {
    if es != [] {
      FlipAllAbsent(es[1..], id);
    }
  }

  lemma {:induction false} FlipAllAppend(a: seq<Entry>, b: seq<Entry>, id: string)
    ensures FlipAll(a + b, id) == FlipAll(a, id) + FlipAll(b, id)
  {
    if a != [] {
      assert (a + b)[1..] == a[1..] + b;
      FlipAllAppend(a[1..], b, id);
    }
  }

  // ---------------------------------------------------------------------
  // Properties of toggleFolder

  lemma {:induction false} ToggleNodeKeepsShape(n: FileNode, id: string)
    ensures EraseNode(ToggleNode(n, id)) == EraseNode(n)
    decreases n
  {
    if !(n.id == id && n.kind == Folder) && n.children.Present? {
      ToggleKeepsShape(n.children.nodes, id);
    }
  }

  /** A toggle preserves the forest's shape at every level: ids, names,
      kinds, languages, child order and child counts; only `expanded`
      flags can differ. */
  lemma {:induction false} ToggleKeepsShape(nodes: seq<FileNode>, id: string)
    ensures Erase(Toggle(nodes, id)) == Erase(nodes)
    decreases nodes
  {
    if nodes != [] {
      ToggleNodeKeepsShape(nodes[0], id);
      ToggleKeepsShape(nodes[1..], id);
    }
  }

  lemma {:induction false} ToggleNodeFlipsTarget(n: FileNode, id: string)
    requires CountId(NodeEntries(n), id) <= 1
    ensures NodeEntries(ToggleNode(n, id)) == FlipAll(NodeEntries(n), id)
    decreases n
  {
    var own := [Entry(n.id, n.kind, n.expanded)];
    var below := if n.children.Present? then Entries(n.children.nodes) else [];
    CountIdAppend(own, below, id);
    FlipAllAppend(own, below, id);
    if n.id == id && n.kind == Folder {
      FlipAllAbsent(below, id);
    } else if n.children.Present? {
      ToggleFlipsTarget(n.children.nodes, id);
    }
  }

  /** When at most one node carries `id`, toggling negates the flag of
      exactly the folders with that id (a missing flag reads as false and
      becomes true) and leaves every other node's flag as it was. */
  lemma {:induction false} ToggleFlipsTarget(nodes: seq<FileNode>, id: string)
    requires CountId(Entries(nodes), id) <= 1
    ensures Entries(Toggle(nodes, id)) == FlipAll(Entries(nodes), id)
    decreases nodes
  {
    if nodes != [] {
      CountIdAppend(NodeEntries(nodes[0]), Entries(nodes[1..]), id);
      FlipAllAppend(NodeEntries(nodes[0]), Entries(nodes[1..]), id);
      ToggleNodeFlipsTarget(nodes[0], id);
      ToggleFlipsTarget(nodes[1..], id);
    }
  }

  lemma {:induction false} ToggleNodeWithoutFolder(n: FileNode, id: string)
    requires !HasFolder([n], id)
    ensures ToggleNode(n, id) == n
    decreases n
  {
    assert Entries([n]) == NodeEntries(n) + Entries([]);
    assert Entry(n.id, n.kind, n.expanded) in Entries([n]);
    if n.children.Present? {
      ToggleWithoutFolder(n.children.nodes, id);
    }
  }

  /** Toggling an id that names no folder (an absent id, or a file's id)
      returns a forest equal to the input. */
  lemma {:induction false} ToggleWithoutFolder(nodes: seq<FileNode>, id: string)
    requires !HasFolder(nodes, id)
    ensures Toggle(nodes, id) == nodes
    decreases nodes
  {
    if nodes != [] {
      assert Entries([nodes[0]]) == NodeEntries(nodes[0]) + Entries([]);
      ToggleNodeWithoutFolder(nodes[0], id);
      ToggleWithoutFolder(nodes[1..], id);
    }
  }

  /** With a unique id, a toggle changes the forest exactly when a folder
      carries that id. */
  lemma ToggleChangesIffFolder(nodes: seq<FileNode>, id: string)
    requires CountId(Entries(nodes), id) <= 1
    ensures Toggle(nodes, id) != nodes <==> HasFolder(nodes, id)
  {
    if HasFolder(nodes, id) {
      var e :| e in Entries(nodes) && e.id == id && e.kind == Folder;
      var i :| 0 <= i < |Entries(nodes)| && Entries(nodes)[i] == e;
      ToggleFlipsTarget(nodes, id);
      assert Entries(Toggle(nodes, id))[i] != Entries(nodes)[i];
    } else {
      ToggleWithoutFolder(nodes, id);
    }
  }

  /** Every folder with id `id` has an explicit `expanded` flag. */
  predicate FlagsPresent(nodes: seq<FileNode>, id: string)
  {
    forall e :: e in Entries(nodes) && e.id == id && e.kind == Folder ==> e.expanded.Some?
  }

  lemma {:induction false} ToggleNodeTwice(n: FileNode, id: string)
    requires FlagsPresent([n], id)
    ensures ToggleNode(ToggleNode(n, id), id) == n
    decreases n
  {
    assert Entries([n]) == NodeEntries(n) + Entries([]);
    if n.id == id && n.kind == Folder {
      assert Entry(n.id, n.kind, n.expanded) in Entries([n]);
      var once := ToggleNode(n, id);
      assert once.expanded == Some(!n.expanded.value);
      assert ToggleNode(once, id).expanded == Some(!!n.expanded.value);
    } else if n.children.Present? {
      assert forall e :: e in Entries(n.children.nodes) ==> e in Entries([n]);
      ToggleTwice(n.children.nodes, id);
    }
  }

  /** Toggling the same id twice restores the forest, provided the matching
      folders had an explicit flag (a missing flag comes back as `false`). */
  lemma {:induction false} ToggleTwice(nodes: seq<FileNode>, id: string)
    requires FlagsPresent(nodes, id)
    ensures Toggle(Toggle(nodes, id), id) == nodes
    decreases nodes
  {
    if nodes != [] {
      assert Entries([nodes[0]]) == NodeEntries(nodes[0]) + Entries([]);
      ToggleNodeTwice(nodes[0], id);
      ToggleTwice(nodes[1..], id);
    }
  }

  // ---------------------------------------------------------------------
  // renderFileTree

  predicate NameMatches(n: FileNode, query: string)
  {
    ContainsIgnoreCase(n.name, query)
  }

  /** The search rule of `renderFileTree`: with an empty query every node is
      kept; otherwise a node is kept when its own name, or the name of one of
      its DIRECT children, contains the query ignoring case. Deeper
      descendants are not consulted. */
  predicate Survives(n: FileNode, query: string)
  {
    || query == ""
    || NameMatches(n, query)
    || (n.children.Present? && exists c :: c in n.children.nodes && NameMatches(c, query))
  }

  /** The nodes of one level that the search keeps, in their order. */
  function Visible(nodes: seq<FileNode>, query: string): (r: seq<FileNode>)
    ensures |r| <= |nodes|
    ensures forall n :: n in r <==> n in nodes && Survives(n, query)
  {
    if nodes == [] then []
    else (if Survives(nodes[0], query) then [nodes[0]] else []) + Visible(nodes[1..], query)
  }

  /** One rendered line of the tree. A folder row shows its chevron (`open`)
      and, when `body` is present, the rows of its children. */
  datatype Row =
    | FolderRow(id: string, name: string, open: bool, body: Option<seq<Row>>)
    | FileRow(id: string, name: string)

  function RenderNode(n: FileNode, query: string): Row
    decreases n
  {
    if n.kind == Folder then
      FolderRow(n.id, n.name, IsOpen(n.expanded),
        if IsOpen(n.expanded) && n.children.Present? then Some(Render(n.children.nodes, query)) else None)
    else
      FileRow(n.id, n.name)
  }

  /** `renderFileTree(nodes)`: map every node to a row or to `null`, then
      drop the `null`s. */
  function Render(nodes: seq<FileNode>, query: string): seq<Row>
    decreases nodes
  {
    if nodes == [] then []
    else (if Survives(nodes[0], query) then [RenderNode(nodes[0], query)] else []) + Render(nodes[1..], query)
  }

  /** Keeping is order-preserving: filtering a concatenation filters each
      part. */
  lemma {:induction false} VisibleAppend(a: seq<FileNode>, b: seq<FileNode>, query: string)
    ensures Visible(a + b, query) == Visible(a, query) + Visible(b, query)
  {
    if a == [] {
      assert a + b == b;
    } else {
      assert (a + b)[1..] == a[1..] + b;
      VisibleAppend(a[1..], b, query);
    }
  }

  /** An empty query keeps every node of a level. */
  lemma {:induction false} EmptyQueryKeepsAll(nodes: seq<FileNode>)
    ensures Visible(nodes, "") == nodes
  {
    if nodes != [] {
      EmptyQueryKeepsAll(nodes[1..]);
    }
  }

  /** The rows of an already filtered level, one per node. */
  function RowsOf(nodes: seq<FileNode>, query: string): (r: seq<Row>)
    ensures |r| == |nodes|
    ensures forall i :: 0 <= i < |nodes| ==> r[i] == RenderNode(nodes[i], query)
  {
    if nodes == [] then [] else [RenderNode(nodes[0], query)] + RowsOf(nodes[1..], query)
  }

  /** The rendered rows of a level are exactly the rows of the kept nodes,
      in order. */
  lemma {:induction false} RenderShowsVisible(nodes: seq<FileNode>, query: string)
    ensures Render(nodes, query) == RowsOf(Visible(nodes, query), query)
  {
    if nodes != [] {
      RenderShowsVisible(nodes[1..], query);
      var head := if Survives(nodes[0], query) then [nodes[0]] else [];
      assert RowsOf(head + Visible(nodes[1..], query), query)
          == RowsOf(head, query) + RowsOf(Visible(nodes[1..], query), query);
    }
  }

  /** A file row never shows children; a folder row shows them, filtered by
      the same query, exactly when the folder is expanded and has a children
      array. */
  lemma RowShowsChildren(n: FileNode, query: string)
    ensures RenderNode(n, query).id == n.id && RenderNode(n, query).name == n.name
    ensures RenderNode(n, query).FileRow? <==> n.kind == File
    ensures RenderNode(n, query).FolderRow? ==>
      && RenderNode(n, query).open == IsOpen(n.expanded)
      && (RenderNode(n, query).body.Some? <==> IsOpen(n.expanded) && n.children.Present?)
      && (RenderNode(n, query).body.Some? ==> RenderNode(n, query).body.value == Render(n.children.nodes, query))
  {
  }

  // ---------------------------------------------------------------------
  // The sample tree the explorer starts with

  function FileLeaf(id: string, name: string, language: string): FileNode
  {
    FileNode(id, name, File, None, Some(language), Absent)
  }

  const AppTsx := FileLeaf("3", "App.tsx", "typescript")
  const MainTsx := FileLeaf("4", "main.tsx", "typescript")
  const SrcFolder := FileNode("2", "src", Folder, Some(true), None, Present([AppTsx, MainTsx]))
  const PackageJson := FileLeaf("5", "package.json", "json")
  const Readme := FileLeaf("6", "README.md", "markdown")
  const ProjectFolder := FileNode("1", "Project", Folder, Some(true), None, Present([SrcFolder, PackageJson, Readme]))

  const InitialFiles: seq<FileNode> := [ProjectFolder]

  lemma NoOccurrence(s: string, q: string)
    requires |q| >= 2
    requires forall i :: 0 <= i < |s| - 1 ==> !(s[i] == q[0] && s[i + 1] == q[1])
    ensures !Contains(s, q)
  {
  }

  lemma NameMisses(name: string)
    requires forall i :: 0 <= i < |name| - 1 ==> !(LowerChar(name[i]) == 'a' && LowerChar(name[i + 1]) == 'p')
    ensures !ContainsIgnoreCase(name, "App")
  {
    assert ToLower("App") == "app";
    NoOccurrence(ToLower(name), "app");
  }

  lemma ProjectNameMisses()
    ensures !NameMatches(ProjectFolder, "App")
  {
    NameMisses("Project");
  }

  lemma ChildNamesMiss()
    ensures !NameMatches(SrcFolder, "App") && !NameMatches(PackageJson, "App") && !NameMatches(Readme, "App")
  {
    NameMisses("src");
    NameMisses("package.json");
    NameMisses("README.md");
  }

  lemma ProjectHidden()
    ensures !Survives(InitialFiles[0], "App")
  {
    ProjectNameMisses();
    ChildNamesMiss();
    assert ProjectFolder.children.nodes == [SrcFolder, PackageJson, Readme];
  }

  lemma SrcKept()
    ensures Survives(SrcFolder, "App")
  {
    assert ToLower("App") == "app";
    assert ToLower(AppTsx.name)[..3] == "app";
    assert OccursAt(ToLower(AppTsx.name), "app", 0);
    assert NameMatches(AppTsx, "App");
  }

  /** On the sample tree the query "App" hides everything: "App.tsx" is a
      grandchild of "Project", and neither "Project" nor its direct children
      "src", "package.json", "README.md" contain "app". The folder "src"
      alone would be kept, because its direct child "App.tsx" matches. */
  lemma SampleSearchApp()
    ensures Visible(InitialFiles, "App") == []
    ensures Render(InitialFiles, "App") == []
    ensures Visible([SrcFolder], "App") == [SrcFolder]
  {
    ProjectHidden();
    SrcKept();
  }
}
