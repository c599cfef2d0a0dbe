/** The packaged migration graph: how the loader reads it and what it accepts. */
module RevisionGraph {
  import opened Wrappers
  import opened Whitespace

  // ----- Identifiers -----

  predicate IsRevisionChar(c: char) {
    '0' <= c <= '9' || 'a' <= c <= 'z' || c == '_' || c == '-'
  }

  predicate IsRevision(s: string) {
    var stripped := Strip(s);
    && stripped != ""
    && ',' !in stripped
    && forall i | 0 <= i < |stripped| :: IsRevisionChar(stripped[i])
  }

  // ----- Files -----

  datatype Element = TextElement(text: string) | NoneElement | DynamicElement

  datatype StaticValue =
    | NoneConstant
    | TextConstant(text: string)
    | OtherConstant
    | Elements(elements: seq<Element>)
    | Dynamic

  // A migration file as its syntax tree shows it: the first suitable module-level assignments.
  datatype File = Unparsable | Parsed(revision: Option<string>, downRevision: Option<StaticValue>)

  datatype Failure = Unreadable | Malformed

  type Parents = seq<Option<string>>

  datatype Node = Node(id: string, parents: Parents)

  type Edges = map<string, Parents>

  datatype Graph = Graph(heads: seq<string>, parents: Edges)

  function ParentText(text: string): Result<Option<string>, Failure> {
    if IsRevision(Strip(text)) then Ok(Some(Strip(text))) else Err(Malformed)
  }

  function ElementParent(element: Element): Result<Option<string>, Failure> {
    match element
    case TextElement(text) => ParentText(text)
    case NoneElement => Ok(None)
    case DynamicElement => Err(Unreadable)
  }

  // The parents the elements name, or the failure of the first bad element.
  function ElementParents(elements: seq<Element>): Result<Parents, Failure> {
    if elements == [] then Ok([])
    else
      match ElementParent(elements[0])
      case Err(e) => Err(e)
      case Ok(parent) =>
        match ElementParents(elements[1..])
        case Err(e) => Err(e)
        case Ok(rest) => Ok([parent] + rest)
  }

  function DeclaredParents(value: StaticValue): Result<Parents, Failure> {
    match value
    case NoneConstant => Ok([None])
    case TextConstant(text) =>
      (match ParentText(text)
       case Err(e) => Err(e)
       case Ok(parent) => Ok([parent]))
    case OtherConstant => Err(Malformed)
    case Elements(elements) =>
      (match ElementParents(elements)
       case Err(e) => Err(e)
       case Ok(parents) => if parents == [] then Ok([None]) else Ok(parents))
    case Dynamic => Err(Unreadable)
  }

  method EvaluateDownRevision(value: StaticValue) returns (r: Result<Parents, Failure>)
    ensures r == DeclaredParents(value)
  {
    match value
    case NoneConstant =>
      return Ok([None]);
    case TextConstant(text) =>
      var stripped := Strip(text);
      StripIdempotent(text);
      if stripped == "" || !IsRevision(stripped) {
        return Err(Malformed);
      }
      return Ok([Some(stripped)]);
    case OtherConstant =>
      return Err(Malformed);
    case Dynamic =>
      return Err(Unreadable);
    case Elements(elements) =>
      var ids: Parents := [];
      assert elements[0..] == elements;
      assert forall rest: Parents :: [] + rest == rest;
      for i := 0 to |elements|
        invariant ElementParents(elements) ==
                  match ElementParents(elements[i..])
                  case Err(e) => Err(e)
                  case Ok(rest) => Ok(ids + rest)
      {
        assert elements[i..][1..] == elements[i + 1..];
        match elements[i]
        case TextElement(text) =>
          var stripped := Strip(text);
          StripIdempotent(text);
          if stripped == "" || !IsRevision(stripped) {
            return Err(Malformed);
          }
          assert forall rest: Parents :: ids + ([Some(stripped)] + rest) == ids + [Some(stripped)] + rest;
          ids := ids + [Some(stripped)];
        case NoneElement =>
          assert forall rest: Parents :: ids + ([None] + rest) == ids + [None] + rest;
          ids := ids + [None];
        case DynamicElement =>
          return Err(Unreadable);
      }
      assert ids + [] == ids;
      if ids == [] {
        return Ok([None]);
      }
      return Ok(ids);
  }

  // What one file declares, or why the loader rejects it once `known` ids have been read.
  function ReadFile(known: set<string>, file: File): Result<Node, Failure> {
    if file.Unparsable? || file.revision.None? then Err(Unreadable)
    else
      var id := file.revision.value;
      if id in known || !IsRevision(id) then Err(Malformed)
      else if file.downRevision.None? then Err(Unreadable)
      else
        match DeclaredParents(file.downRevision.value)
        case Err(e) => Err(e)
        case Ok(parents) => Ok(Node(id, parents))
  }

  predicate Readable(file: File) {
    ReadFile({}, file).Ok?
  }

  function NodeOf(file: File): Node
    requires Readable(file)
  {
    ReadFile({}, file).value
  }

  // The failure of the first file the loader rejects.
  function FirstFault(known: set<string>, files: seq<File>): Option<Failure>
    decreases |files|
  {
    if files == [] then None
    else
      match ReadFile(known, files[0])
      case Err(e) => Some(e)
      case Ok(node) => FirstFault(known + {node.id}, files[1..])
  }

  predicate AllReadable(files: seq<File>) {
    forall i | 0 <= i < |files| :: Readable(files[i])
  }

  function Nodes(files: seq<File>): (nodes: seq<Node>)
    requires AllReadable(files)
    ensures |nodes| == |files| && forall i | 0 <= i < |files| :: nodes[i] == NodeOf(files[i])
  {
    seq(|files|, i requires 0 <= i < |files| => NodeOf(files[i]))
  }

  predicate DistinctIds(nodes: seq<Node>) {
    forall i, j | 0 <= i < j < |nodes| :: nodes[i].id != nodes[j].id
  }

  ghost predicate Declared(nodes: seq<Node>, id: string) {
    exists i | 0 <= i < |nodes| :: nodes[i].id == id
  }

  // Exactly the declared nodes.
  ghost predicate Declares(nodes: seq<Node>, parents: Edges) {
    && (forall id | id in parents :: Declared(nodes, id))
    && (forall i | 0 <= i < |nodes| :: nodes[i].id in parents && parents[nodes[i].id] == nodes[i].parents)
  }

  // Every named parent is declared.
  ghost predicate NoDangling(nodes: seq<Node>) {
    forall i, p | 0 <= i < |nodes| && p in nodes[i].parents && p.Some? :: Declared(nodes, p.value)
  }

  // ----- Graphs -----

  // Some revision names `id` as a parent.
  ghost predicate Named(parents: Edges, id: string) {
    exists child | child in parents :: Some(id) in parents[child]
  }

  // No dangling parent.
  ghost predicate Closed(parents: Edges) {
    forall child, p | child in parents && p in parents[child] && p.Some? :: p.value in parents
  }

  ghost predicate AreHeads(heads: seq<string>, parents: Edges) {
    && (forall id :: id in heads <==> id in parents && !Named(parents, id))
    && (forall i, j | 0 <= i < j < |heads| :: heads[i] != heads[j])
  }

  // The graph a list of files describes, when the loader accepts it.
  ghost predicate Describes(files: seq<File>, graph: Graph) {
    && HasRead(files, graph.parents)
    && Closed(graph.parents)
    && AreHeads(graph.heads, graph.parents)
  }

  ghost predicate Acceptable(files: seq<File>) {
    AllReadable(files) && DistinctIds(Nodes(files)) && NoDangling(Nodes(files))
  }

  // The edges once the files in `done` have been read.
  ghost predicate HasRead(done: seq<File>, parents: Edges) {
    AllReadable(done) && DistinctIds(Nodes(done)) && Declares(Nodes(done), parents)
  }

  lemma DeclareOneMore(nodes: seq<Node>, parents: Edges, node: Node)
    requires DistinctIds(nodes) && Declares(nodes, parents) && node.id !in parents
    ensures DistinctIds(nodes + [node]) && Declares(nodes + [node], parents[node.id := node.parents])
  {
    var all := nodes + [node];
    forall id | Declared(nodes, id) || id == node.id
      ensures Declared(all, id)
    {
      if id == node.id {
        assert all[|nodes|].id == id;
      } else {
        var k :| 0 <= k < |nodes| && nodes[k].id == id;
        assert all[k].id == id;
      }
    }
  }

  lemma ReadOneMore(done: seq<File>, parents: Edges, file: File, node: Node)
    requires HasRead(done, parents) && ReadFile(parents.Keys, file) == Ok(node)
    ensures HasRead(done + [file], parents[node.id := node.parents])
  {
    assert AllReadable(done + [file]);
    assert Nodes(done + [file]) == Nodes(done) + [node];
    DeclareOneMore(Nodes(done), parents, node);
  }

  // A file rejected after others have been read is bad by itself or repeats an id.
  lemma RejectedIsUnacceptable(files: seq<File>, i: nat, parents: Edges)
    requires i < |files| && HasRead(files[..i], parents)
    requires ReadFile(parents.Keys, files[i]).Err?
    ensures !Acceptable(files)
  {
  }

  lemma AddNames(parents: Edges, id: string, named: Parents)
    requires id !in parents
    ensures forall p :: Named(parents[id := named], p) <==> Named(parents, p) || Some(p) in named
  {
    var next := parents[id := named];
    forall p
      ensures Named(next, p) <==> Named(parents, p) || Some(p) in named
    {
      if Named(parents, p) {
        var child :| child in parents && Some(p) in parents[child];
        assert child in next && Some(p) in next[child];
      }
      if Some(p) in named {
        assert id in next && Some(p) in next[id];
      }
    }
  }

  lemma ClosedMeansNoDangling(nodes: seq<Node>, parents: Edges)
    requires Declares(nodes, parents)
    ensures Closed(parents) <==> NoDangling(nodes)
  {
  }

  // Each id once.
  ghost predicate Lists(order: seq<string>, ids: set<string>) {
    && (forall id :: id in order <==> id in ids)
    && (forall a, b | 0 <= a < b < |order| :: order[a] != order[b])
  }

  // What the first loop accumulates: the edges, the ids in file order, and the ids named as parents.
  datatype Reading = Reading(parents: Edges, order: seq<string>, consumed: set<string>)

  // The loop over the files, stopping at the first one it rejects.
  method ReadFiles(files: seq<File>) returns (r: Result<Reading, Failure>)
    ensures r.Err? ==> !Acceptable(files) && FirstFault({}, files) == Some(r.error)
    ensures r.Ok? ==>
              && FirstFault({}, files).None?
              && HasRead(files, r.value.parents)
              && Lists(r.value.order, r.value.parents.Keys)
              && forall p :: p in r.value.consumed <==> Named(r.value.parents, p)
  {
    var parents: Edges := map[];
    var order: seq<string> := [];
    var consumed: set<string> := {};
    assert files[0..] == files && parents.Keys == {};
    for i := 0 to |files|
      invariant HasRead(files[..i], parents)
      invariant Lists(order, parents.Keys)
      invariant forall p :: p in consumed <==> Named(parents, p)
      invariant FirstFault({}, files) == FirstFault(parents.Keys, files[i..])
    {
      assert files[i..][1..] == files[i + 1..];
      match ReadFile(parents.Keys, files[i])
      case Err(e) =>
        RejectedIsUnacceptable(files, i, parents);
        return Err(e);
      case Ok(node) =>
        ReadOneMore(files[..i], parents, files[i], node);
        assert files[..i] + [files[i]] == files[..i + 1];
        AddNames(parents, node.id, node.parents);
        assert parents[node.id := node.parents].Keys == parents.Keys + {node.id};
        parents := parents[node.id := node.parents];
        order := order + [node.id];
        consumed := consumed + set p | p in node.parents && p.Some? :: p.value;
    }
    assert files[..|files|] == files;
    return Ok(Reading(parents, order, consumed));
  }

  // The loops that look for a parent no file declares.
  method CheckParents(order: seq<string>, parents: Edges) returns (closed: bool)
    requires Lists(order, parents.Keys)
    ensures closed <==> Closed(parents)
  {
    for i := 0 to |order|
      invariant forall k, p | 0 <= k < i && p in parents[order[k]] && p.Some? :: p.value in parents
    {
      var named := parents[order[i]];
      for j := 0 to |named|
        invariant forall k | 0 <= k < j && named[k].Some? :: named[k].value in parents
      {
        if named[j].Some? && named[j].value !in parents {
          return false;
        }
      }
    }
    return true;
  }

  // The loop that keeps, in file order, the ids no file consumes.
  method CollectHeads(order: seq<string>, consumed: set<string>) returns (heads: seq<string>)
    requires forall a, b | 0 <= a < b < |order| :: order[a] != order[b]
    ensures forall id :: id in heads <==> id in order && id !in consumed
    ensures forall a, b | 0 <= a < b < |heads| :: heads[a] != heads[b]
  {
    heads := [];
    for i := 0 to |order|
      invariant forall id :: id in heads <==> id in order[..i] && id !in consumed
      invariant forall a, b | 0 <= a < b < |heads| :: heads[a] != heads[b]
    {
      if order[i] !in consumed {
        heads := heads + [order[i]];
      }
    }
  }

  // Main result: the loader accepts exactly the acceptable file lists and then describes them; its
  // heads are exactly the revisions no file names as a parent.  Otherwise it reports the first
  // rejected file, or a dangling parent when every file can be read.
  method ParseRevisions(files: seq<File>) returns (r: Result<Graph, Failure>)
    ensures r.Ok? <==> Acceptable(files)
    ensures r.Ok? ==> Describes(files, r.value)
    ensures r.Err? ==> r.error == FirstFault({}, files).GetOr(Malformed)
  {
    var read := ReadFiles(files);
    if read.Err? {
      return Err(read.error);
    }
    var Reading(parents, order, consumed) := read.value;
    ClosedMeansNoDangling(Nodes(files), parents);
    var closed := CheckParents(order, parents);
    if !closed {
      return Err(Malformed);
    }
    var heads := CollectHeads(order, consumed);
    return Ok(Graph(heads, parents));
  }
}
