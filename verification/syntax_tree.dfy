/** The parse tree a tree-sitter parser hands to the extractors, reduced to
    what they read: the node type, the named fields, the ordered children,
    the decoded text of the node's byte range and its start and end rows. */
module SyntaxTree {
  import opened Text

  /** A named field names one of the node's own children, as in tree-sitter;
      `fields[f]` is that child's index in `children`. */
  datatype Tree = Tree(
    kind: string,
    fields: map<string, nat>,
    children: seq<Tree>,
    text: string,
    startRow: nat,
    endRow: nat)

  /** `node.child_by_field_name(f)`: the child the field names, if any. */
  function Field(t: Tree, f: string): (r: Option<Tree>)
    ensures r.Some? <==> f in t.fields && t.fields[f] < |t.children|
    ensures r.Some? ==> r.value == t.children[t.fields[f]] && r.value < t
  {
    if f in t.fields && t.fields[f] < |t.children| then Some(t.children[t.fields[f]]) else None
  }

  /** Text of an optional node, as `source_code[n.start_byte:n.end_byte].decode()`. */
  function TextOf(n: Option<Tree>): Option<string>
  {
    if n.Some? then Some(n.value.text) else None
  }

  /** 1-based first line of a construct: `node.start_point[0] + 1`. */
  function StartLine(t: Tree): nat { t.startRow + 1 }

  /** 1-based last line of a construct: `node.end_point[0] + 1`. */
  function EndLine(t: Tree): nat { t.endRow + 1 }
}
