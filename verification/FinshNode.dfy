/**
  Syntax tree nodes as the parser links them and the compiler annotates them in place.
  A Shape says which nodes make up a tree; View reads the tree off them.
 */
module FinshNode {
  import opened FinshTree

  class Node {
    var kind: NodeType
    var id: IdType
    var value: Word
    var address: bool
    var data: DataType
    var child: Node?
    var sibling: Node?

    /** An entry of the cleared node table. */
    constructor ()
      ensures kind == Unknown && id == NoId && value == 0 && !address && data == Void
      ensures child == null && sibling == null
    {
      kind, id, value, address, data, child, sibling := Unknown, NoId, 0, false, Void, null, null;
    }
  }

  datatype Shape = Leafless | Joint(node: Node, child: Shape, sibling: Shape)

  ghost function Nodes(sh: Shape): set<Node> {
    match sh
    case Leafless => {}
    case Joint(node, child, sibling) => {node} + Nodes(child) + Nodes(sibling)
  }

  /** The nodes are linked in this shape, each in one place only. */
  ghost predicate Linked(root: Node?, sh: Shape)
    reads Nodes(sh)
  {
    match sh
    case Leafless => root == null
    case Joint(node, child, sibling) =>
      root == node &&
      node !in Nodes(child) && node !in Nodes(sibling) && Nodes(child) !! Nodes(sibling) &&
      Linked(node.child, child) && Linked(node.sibling, sibling)
  }

  ghost function View(sh: Shape): (f: Forest)
    reads Nodes(sh)
    ensures f.Nil? <==> sh.Leafless?
  {
    match sh
    case Leafless => Nil
    case Joint(node, child, sibling) =>
      FinshTree.Node(node.kind, node.id, node.value, node.address, node.data, View(child), View(sibling))
  }

  lemma {:induction false} NodesExist(sh: Shape)
    ensures forall n :: n in Nodes(sh) ==> allocated(n)
  {
    if sh.Joint? {
      NodesExist(sh.child);
      NodesExist(sh.sibling);
    }
  }
}
