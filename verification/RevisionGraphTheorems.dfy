/** What the packaged graph loader's checks do and do not say about the migration graph. */
module RevisionGraphTheorems {
  import opened Wrappers
  import opened Whitespace
  import opened RevisionGraph

  // ----- Head resolution -----

  datatype HeadFailure = HeadUnreadable | HeadMalformed | HeadZero | HeadMultiple

  // The packaged head the loader reports.
  method LoadPackagedHead(files: seq<File>) returns (r: Result<string, HeadFailure>)
    ensures r == Err(HeadUnreadable) || r == Err(HeadMalformed) <==> !Acceptable(files)
    ensures r == Err(HeadUnreadable) ==> FirstFault({}, files) == Some(Unreadable)
    ensures r == Err(HeadMalformed) ==> FirstFault({}, files) != Some(Unreadable)
    ensures r == Err(HeadZero) ==> exists g :: Describes(files, g) && g.heads == []
    ensures r == Err(HeadMultiple) ==> exists g :: Describes(files, g) && |g.heads| > 1
    ensures r.Ok? ==> exists g, id :: Describes(files, g) && g.heads == [id] && r.value == Strip(id)
  {
    var parsed := ParseRevisions(files);
    match parsed
    case Err(Unreadable) =>
      return Err(HeadUnreadable);
    case Err(Malformed) =>
      return Err(HeadMalformed);
    case Ok(graph) =>
      if graph.heads == [] {
        return Err(HeadZero);
      }
      if |graph.heads| > 1 {
        return Err(HeadMultiple);
      }
      var head := graph.heads[0];
      HeadIsDeclared(files, graph, head);
      StripIdempotent(head);
      var stripped := Strip(head);
      if !IsRevision(stripped) {
        return Err(HeadMalformed);
      }
      assert graph.heads == [head];
      return Ok(stripped);
  }

  // Every id in the graph passed the shape validator.
  lemma HeadIsDeclared(files: seq<File>, graph: Graph, id: string)
    requires Describes(files, graph) && id in graph.heads
    ensures IsRevision(id)
  {
    assert Declared(Nodes(files), id);
  }

  // ----- What a file names -----

  // The parents a static value names, element by element.
  predicate NamesParents(value: StaticValue, parents: Parents) {
    match value
    case NoneConstant => parents == [None]
    case TextConstant(text) => parents == [Some(Strip(text))]
    case Elements(elements) =>
      if elements == [] then parents == [None]
      else
        && |parents| == |elements|
        && forall k | 0 <= k < |elements| ::
             parents[k] == if elements[k].TextElement? then Some(Strip(elements[k].text)) else None
    case OtherConstant => false
    case Dynamic => false
  }

  predicate WellFormedValue(value: StaticValue) {
    match value
    case NoneConstant => true
    case TextConstant(text) => IsRevision(Strip(text))
    case Elements(elements) =>
      forall k | 0 <= k < |elements| ::
        !elements[k].DynamicElement? && (elements[k].TextElement? ==> IsRevision(Strip(elements[k].text)))
    case OtherConstant => false
    case Dynamic => false
  }

  lemma {:induction false} ElementsNameParents(elements: seq<Element>)
    ensures ElementParents(elements).Ok? <==>
            forall k | 0 <= k < |elements| ::
              !elements[k].DynamicElement? && (elements[k].TextElement? ==> IsRevision(Strip(elements[k].text)))
    ensures ElementParents(elements).Ok? ==>
              var parents := ElementParents(elements).value;
              && |parents| == |elements|
              && forall k | 0 <= k < |elements| ::
                   parents[k] == if elements[k].TextElement? then Some(Strip(elements[k].text)) else None
    decreases |elements|
  {
    if elements != [] {
      ElementsNameParents(elements[1..]);
      assert forall k | 0 < k < |elements| :: elements[k] == elements[1..][k - 1];
    }
  }

  lemma ValuesNameParents(value: StaticValue)
    ensures DeclaredParents(value).Ok? <==> WellFormedValue(value)
    ensures DeclaredParents(value).Ok? ==> NamesParents(value, DeclaredParents(value).value)
  {
    if value.Elements? {
      ElementsNameParents(value.elements);
    }
  }

  // A file is read exactly when its revision has the shape of one and its down_revision is static
  // and well formed.
  lemma ReadableExactly(file: File)
    ensures Readable(file) <==>
            && file.Parsed? && file.revision.Some? && IsRevision(file.revision.value)
            && file.downRevision.Some? && WellFormedValue(file.downRevision.value)
    ensures Readable(file) ==> NodeOf(file).id == file.revision.value
  {
    if file.Parsed? && file.downRevision.Some? {
      ValuesNameParents(file.downRevision.value);
    }
  }

  predicate GoodElement(element: Element) {
    !element.DynamicElement? && (element.TextElement? ==> IsRevision(Strip(element.text)))
  }

  // Element k is the first bad one.
  predicate FirstBad(elements: seq<Element>, k: nat) {
    k < |elements| && !GoodElement(elements[k]) && forall j | 0 <= j < k :: GoodElement(elements[j])
  }

  lemma {:induction false} FirstBadElementDecides(elements: seq<Element>, k: nat)
    requires FirstBad(elements, k)
    ensures ElementParents(elements) == Err(if elements[k].DynamicElement? then Unreadable else Malformed)
    decreases |elements|
  {
    if k > 0 {
      assert GoodElement(elements[0]);
      assert elements[1..][k - 1] == elements[k] && forall j | 0 <= j < k - 1 :: elements[1..][j] == elements[j + 1];
      FirstBadElementDecides(elements[1..], k - 1);
    } else {
      assert !GoodElement(elements[0]);
    }
  }

  // Main result: why a file is rejected.  Missing or dynamic declarations make the graph unreadable,
  // repeated, ill-shaped or non-text ones malformed; the revision is looked at first, and in a
  // sequence of parents the first bad element decides.
  lemma FileFaultsExactly(known: set<string>, file: File)
    ensures file.Unparsable? ==> ReadFile(known, file) == Err(Unreadable)
    ensures file.Parsed? && file.revision.None? ==> ReadFile(known, file) == Err(Unreadable)
    ensures file.Parsed? && file.revision.Some? &&
            (file.revision.value in known || !IsRevision(file.revision.value)) ==>
              ReadFile(known, file) == Err(Malformed)
    ensures file.Parsed? && file.revision.Some? && file.revision.value !in known && IsRevision(file.revision.value) ==>
              match file.downRevision
              case None => ReadFile(known, file) == Err(Unreadable)
              case Some(Dynamic) => ReadFile(known, file) == Err(Unreadable)
              case Some(OtherConstant) => ReadFile(known, file) == Err(Malformed)
              case Some(TextConstant(text)) => !IsRevision(Strip(text)) ==> ReadFile(known, file) == Err(Malformed)
              case Some(Elements(elements)) =>
                forall k: nat | FirstBad(elements, k) ::
                  ReadFile(known, file) == Err(if elements[k].DynamicElement? then Unreadable else Malformed)
              case Some(NoneConstant) => ReadFile(known, file) == Ok(Node(file.revision.value, [None]))
  {
    if file.Parsed? && file.downRevision.Some? && file.downRevision.value.Elements? {
      forall k: nat | FirstBad(file.downRevision.value.elements, k) {
        FirstBadElementDecides(file.downRevision.value.elements, k);
      }
    }
  }

  // Main result: in an accepted graph each file's revision has exactly the parents its
  // down_revision names, in order and none left out, and no named parent is a head.
  lemma FilesNameParents(files: seq<File>, graph: Graph, i: nat)
    requires Describes(files, graph) && i < |files|
    ensures files[i].Parsed? && files[i].revision.Some? && files[i].downRevision.Some?
    ensures files[i].revision.value in graph.parents
    ensures NamesParents(files[i].downRevision.value, graph.parents[files[i].revision.value])
    ensures files[i].downRevision.value.TextConstant? ==>
              Strip(files[i].downRevision.value.text) in graph.parents &&
              Strip(files[i].downRevision.value.text) !in graph.heads
    ensures files[i].downRevision.value.Elements? ==>
              forall k | 0 <= k < |files[i].downRevision.value.elements| ::
                var element := files[i].downRevision.value.elements[k];
                element.TextElement? ==> Strip(element.text) in graph.parents && Strip(element.text) !in graph.heads
  {
    ReadableExactly(files[i]);
    var id := NodeOf(files[i]).id;
    assert Nodes(files)[i].id in graph.parents;
    ValuesNameParents(files[i].downRevision.value);
    forall parent | Some(parent) in graph.parents[id]
      ensures parent in graph.parents && parent !in graph.heads
    {
      assert Named(graph.parents, parent);
    }
  }

  // ----- Paths -----

  // Consecutive elements of a path are a parent and a revision that names it.
  predicate Names(parents: Edges, child: string, parent: string) {
    child in parents && Some(parent) in parents[child]
  }

  predicate IsPath(parents: Edges, path: seq<string>) {
    && path != []
    && (forall k | 0 <= k < |path| :: path[k] in parents)
    && (forall k | 0 <= k < |path| - 1 :: Names(parents, path[k + 1], path[k]))
  }

  predicate IsCycle(parents: Edges, path: seq<string>) {
    IsPath(parents, path) && |path| > 1 && path[0] == path[|path| - 1]
  }

  ghost predicate Acyclic(parents: Edges) {
    forall path :: !IsCycle(parents, path)
  }

  // `ancestor` lies on or below `id` along parent edges.
  ghost predicate Reaches(parents: Edges, ancestor: string, id: string) {
    exists path :: IsPath(parents, path) && path[0] == ancestor && path[|path| - 1] == id
  }

  // ----- Cycles -----

  lemma {:induction false} DistinctFits(path: seq<string>, ids: set<string>)
    requires forall k | 0 <= k < |path| :: path[k] in ids
    requires forall i, j | 0 <= i < j < |path| :: path[i] != path[j]
    ensures |path| <= |ids|
    decreases |path|
  {
    if path != [] {
      DistinctFits(path[1..], ids - {path[0]});
    }
  }

  lemma SubpathIsPath(parents: Edges, path: seq<string>, i: nat, j: nat)
    requires IsPath(parents, path) && i <= j < |path|
    ensures IsPath(parents, path[i..j + 1])
  {
  }

  lemma PathExtends(parents: Edges, path: seq<string>, child: string)
    requires IsPath(parents, path) && Names(parents, child, path[|path| - 1])
    ensures IsPath(parents, path + [child])
  {
  }

  lemma {:induction false} ReachesTransitively(parents: Edges, a: string, b: string, c: string)
    requires Reaches(parents, a, b) && Reaches(parents, b, c)
    ensures Reaches(parents, a, c)
  {
    var first :| IsPath(parents, first) && first[0] == a && first[|first| - 1] == b;
    var second :| IsPath(parents, second) && second[0] == b && second[|second| - 1] == c;
    var joined := first + second[1..];
    forall k | 0 <= k < |joined| - 1
      ensures Names(parents, joined[k + 1], joined[k])
    {
      if k < |first| - 1 {
        assert Names(parents, first[k + 1], first[k]);
      } else {
        assert Names(parents, second[k - |first| + 2], second[k - |first| + 1]);
      }
    }
    assert joined[0] == a && joined[|joined| - 1] == c && IsPath(parents, joined);
  }

  // Climbing from a revision to one that names it, without repeating, ends at a revision nobody
  // names or at one that lies on a cycle.
  lemma {:induction false} ClimbEnds(parents: Edges, path: seq<string>) returns (end: string, cycle: seq<string>)
    requires IsPath(parents, path)
    requires forall i, j | 0 <= i < j < |path| :: path[i] != path[j]
    ensures end in parents && Reaches(parents, path[0], end)
    ensures !Named(parents, end) || (IsCycle(parents, cycle) && cycle[0] == end)
    decreases |parents| - |path|
  {
    var last := path[|path| - 1];
    assert forall k | 0 <= k < |path| :: path[k] in parents.Keys;
    DistinctFits(path, parents.Keys);
    assert Reaches(parents, path[0], last);
    if !Named(parents, last) {
      return last, [];
    }
    var child :| child in parents && Some(last) in parents[child];
    assert Names(parents, child, last);
    PathExtends(parents, path, child);
    var longer := path + [child];
    if child in path {
      var i :| 0 <= i < |path| && path[i] == child;
      SubpathIsPath(parents, longer, i, |path|);
      SubpathIsPath(parents, longer, 0, i);
      assert longer[0..i + 1][i] == child;
      end, cycle := child, longer[i..|path| + 1];
      assert |cycle| > 1 && cycle[0] == child && cycle[|cycle| - 1] == child;
      return;
    }
    assert forall k | 0 <= k < |longer| :: longer[k] in parents.Keys;
    DistinctFits(longer, parents.Keys);
    end, cycle := ClimbEnds(parents, longer);
  }

  // Main result: a non-empty graph in which every revision is named contains a cycle.
  lemma NoHeadMeansCycle(parents: Edges, heads: seq<string>)
    requires AreHeads(heads, parents) && heads == [] && parents != map[]
    ensures !Acyclic(parents)
  {
    var id :| id in parents;
    assert IsPath(parents, [id]);
    var end, cycle := ClimbEnds(parents, [id]);
    assert end !in heads;
  }

  // Main result: with a single head, every revision is an ancestor of the head exactly when every
  // cycle climbs to it.
  lemma SingleHeadCoverage(parents: Edges, head: string)
    requires AreHeads([head], parents)
    ensures (forall id | id in parents :: Reaches(parents, id, head)) <==>
            (forall cycle | IsCycle(parents, cycle) :: Reaches(parents, cycle[0], head))
  {
    if forall cycle | IsCycle(parents, cycle) :: Reaches(parents, cycle[0], head) {
      forall id | id in parents
        ensures Reaches(parents, id, head)
      {
        assert IsPath(parents, [id]);
        var end, cycle := ClimbEnds(parents, [id]);
        if Named(parents, end) {
          ReachesTransitively(parents, id, end, head);
        } else {
          assert end in [head];
        }
      }
    }
  }

  // In particular the head covers every acyclic graph.
  lemma SingleHeadCoversAcyclicGraph(parents: Edges, head: string)
    requires AreHeads([head], parents) && Acyclic(parents)
    ensures forall id | id in parents :: Reaches(parents, id, head)
  {
    SingleHeadCoverage(parents, head);
  }

  const ESCAPING_FILES := [
    Parsed(Some("a"), Some(NoneConstant)),
    Parsed(Some("b"), Some(TextConstant("c"))),
    Parsed(Some("c"), Some(TextConstant("b")))]

  const ESCAPING_EDGES: Edges := map["a" := [None], "b" := [Some("c")], "c" := [Some("b")]]

  lemma EscapingNodes()
    ensures AllReadable(ESCAPING_FILES)
    ensures Nodes(ESCAPING_FILES) == [Node("a", [None]), Node("b", [Some("c")]), Node("c", [Some("b")])]
  {
  }

  lemma EscapingEdges(nodes: seq<Node>)
    requires nodes == [Node("a", [None]), Node("b", [Some("c")]), Node("c", [Some("b")])]
    ensures DistinctIds(nodes) && Declares(nodes, ESCAPING_EDGES)
  {
    assert nodes[0].id == "a" && nodes[1].id == "b" && nodes[2].id == "c";
  }

  lemma EscapingHeads()
    ensures AreHeads(["a"], ESCAPING_EDGES) && Closed(ESCAPING_EDGES)
  {
    assert Some("b") in ESCAPING_EDGES["c"] && Some("c") in ESCAPING_EDGES["b"];
    assert Named(ESCAPING_EDGES, "b") && Named(ESCAPING_EDGES, "c") && !Named(ESCAPING_EDGES, "a");
  }

  // The loader itself never looks for cycles: it accepts this graph, whose head covers neither
  // revision of a cycle beside it.
  lemma CycleEscapesLoader()
    ensures Describes(ESCAPING_FILES, Graph(["a"], ESCAPING_EDGES))
    ensures IsCycle(ESCAPING_EDGES, ["b", "c", "b"])
    ensures !Reaches(ESCAPING_EDGES, "b", "a")
  {
    EscapingNodes();
    EscapingEdges(Nodes(ESCAPING_FILES));
    EscapingHeads();
    NothingNamesRootA();
  }

  lemma NothingNamesRootA()
    ensures IsCycle(ESCAPING_EDGES, ["b", "c", "b"])
    ensures !Reaches(ESCAPING_EDGES, "b", "a")
  {
    assert Names(ESCAPING_EDGES, "c", "b") && Names(ESCAPING_EDGES, "b", "c");
    forall path | IsPath(ESCAPING_EDGES, path) && path[0] == "b"
      ensures path[|path| - 1] != "a"
    {
      assert |path| > 1 ==> Names(ESCAPING_EDGES, path[|path| - 2 + 1], path[|path| - 2]);
    }
  }

  // ----- Ids and file order -----

  // Parents are stored stripped and ids are not, so an id with surrounding white space can only
  // be a head.
  lemma PaddedIdIsHead(files: seq<File>, graph: Graph, id: string)
    requires Describes(files, graph) && id in graph.parents && Strip(id) != id
    ensures id in graph.heads
  {
    if Named(graph.parents, id) {
      var child :| child in graph.parents && Some(id) in graph.parents[child];
      assert Declared(Nodes(files), child);
      var i :| 0 <= i < |files| && Nodes(files)[i].id == child;
      NodeParentsAreStripped(files[i], id);
    }
  }

  lemma NodeParentsAreStripped(file: File, id: string)
    requires Readable(file) && Some(id) in NodeOf(file).parents
    ensures Strip(id) == id
  {
    DeclaredParentsAreStripped(file.downRevision.value, id);
  }

  lemma DeclaredParentsAreStripped(value: StaticValue, id: string)
    requires DeclaredParents(value).Ok? && Some(id) in DeclaredParents(value).value
    ensures Strip(id) == id
  {
    match value
    case TextConstant(text) => StripIdempotent(text);
    case Elements(elements) => ElementParentsAreStripped(elements, id);
    case NoneConstant =>
    case OtherConstant =>
    case Dynamic =>
  }

  lemma {:induction false} ElementParentsAreStripped(elements: seq<Element>, id: string)
    requires ElementParents(elements).Ok? && Some(id) in ElementParents(elements).value
    ensures Strip(id) == id
    decreases |elements|
  {
    if elements != [] {
      if elements[0].TextElement? {
        StripIdempotent(elements[0].text);
      }
      if Some(id) in ElementParents(elements[1..]).value {
        ElementParentsAreStripped(elements[1..], id);
      }
    }
  }

  // The same items in another order: item i of the first list is item to[i] of the second.
  ghost predicate Reordered<T(!new)>(items: seq<T>, others: seq<T>, to: seq<nat>, from: seq<nat>) {
    && |to| == |from| == |items| == |others|
    && (forall i | 0 <= i < |to| :: to[i] < |to| && from[to[i]] == i && others[to[i]] == items[i])
    && (forall k | 0 <= k < |from| :: from[k] < |from| && to[from[k]] == k && items[from[k]] == others[k])
  }

  lemma ReorderedNodes(files: seq<File>, others: seq<File>, to: seq<nat>, from: seq<nat>)
    requires Reordered(files, others, to, from) && AllReadable(files)
    ensures AllReadable(others) && Reordered(Nodes(files), Nodes(others), to, from)
  {
  }

  // Whether the loader accepts a list of files does not depend on their order.
  lemma OrderKeepsAcceptance(files: seq<File>, others: seq<File>, to: seq<nat>, from: seq<nat>)
    requires Reordered(files, others, to, from) && Acceptable(files)
    ensures Acceptable(others)
  {
  }

  lemma SameEdges(nodes: seq<Node>, others: seq<Node>, to: seq<nat>, from: seq<nat>, a: Edges, b: Edges)
    requires Reordered(nodes, others, to, from) && Declares(nodes, a) && Declares(others, b)
    ensures a == b
  {
  }

  lemma SameHeads(heads: seq<string>, others: seq<string>, parents: Edges)
    requires AreHeads(heads, parents) && AreHeads(others, parents)
    ensures |heads| <= |others|
  {
    DistinctFits(heads, set id | id in others);
    DistinctCount(others);
  }

  // Main result: the graph the loader reads does not depend on the order of the files.
  lemma OrderDoesNotMatter(files: seq<File>, others: seq<File>, to: seq<nat>, from: seq<nat>,
                           graph: Graph, other: Graph)
    requires Reordered(files, others, to, from)
    requires Describes(files, graph) && Describes(others, other)
    ensures graph.parents == other.parents
    ensures forall id :: id in graph.heads <==> id in other.heads
    ensures |graph.heads| == |other.heads|
  {
    ReorderedNodes(files, others, to, from);
    SameEdges(Nodes(files), Nodes(others), to, from, graph.parents, other.parents);
    SameHeads(graph.heads, other.heads, graph.parents);
    SameHeads(other.heads, graph.heads, graph.parents);
  }

  lemma {:induction false} DistinctCount(path: seq<string>)
    ensures |set id | id in path| <= |path|
    decreases |path|
  {
    if path == [] {
      assert (set id | id in path) == {};
    } else {
      DistinctCount(path[1..]);
      assert (set id | id in path) == {path[0]} + (set id | id in path[1..]);
    }
  }
}
