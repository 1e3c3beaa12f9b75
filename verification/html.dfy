/** The parsed HTML tree and the three attribute helpers of utils/html.go.
    The post-processing pass uses GetHtmlId and FindOrAppendAtribute;
    IsHtmlIdEquals is modelled alongside them.

    A node is an immutable value: its type, its `Data` (the tag name of an
    element, the payload of a text node), its attribute list in document
    order (duplicate keys allowed) and its children in document order. */
module Html {
  import opened Wrappers

  /** The node types of the HTML parser. */
  datatype NodeType = ErrorNode | TextNode | DocumentNode | ElementNode | CommentNode | DoctypeNode | RawNode

  datatype Attr = Attr(key: string, val: string)

  datatype Node = Node(kind: NodeType, data: string, attrs: seq<Attr>, children: seq<Node>)

  /** `local` relates every node of `a` to the node at the same position of
      `b`, and the two trees have the same number of children everywhere. */
  ghost predicate Everywhere(a: Node, b: Node, local: (Node, Node) -> bool)
    decreases a
  {
    && local(a, b)
    && |a.children| == |b.children|
    && forall i :: 0 <= i < |a.children| ==> Everywhere(a.children[i], b.children[i], local)
  }

  /** A weaker local relation holds wherever a stronger one does. */
  lemma {:induction false} EverywhereWeakens(a: Node, b: Node, strong: (Node, Node) -> bool, weak: (Node, Node) -> bool)
    requires Everywhere(a, b, strong)
    requires forall x, y :: strong(x, y) ==> weak(x, y)
    ensures Everywhere(a, b, weak)
    decreases a
  {
    forall i | 0 <= i < |a.children|
      ensures Everywhere(a.children[i], b.children[i], weak)
    {
      EverywhereWeakens(a.children[i], b.children[i], strong, weak);
    }
  }

  /** A local relation that holds of every node with itself holds everywhere
      between a tree and itself. */
  lemma {:induction false} EverywhereReflexive(a: Node, local: (Node, Node) -> bool)
    requires forall x :: local(x, x)
    ensures Everywhere(a, a, local)
    decreases a
  {
    forall i | 0 <= i < |a.children|
      ensures Everywhere(a.children[i], a.children[i], local)
    {
      EverywhereReflexive(a.children[i], local);
    }
  }

  /** An attribute whose key is `id`. */
  predicate IsId(a: Attr) {
    a.key == "id"
  }

  /** An attribute `id="v"`. */
  predicate IsIdWith(a: Attr, v: string) {
    a.key == "id" && a.val == v
  }

  /** Some attribute of `attrs`, at any position, is `id="v"`. */
  predicate HasIdWith(attrs: seq<Attr>, v: string) {
    exists j :: 0 <= j < |attrs| && IsIdWith(attrs[j], v)
  }

  /** Position `j` holds the first `id` attribute of `attrs`. */
  predicate IsFirstId(attrs: seq<Attr>, j: int) {
    0 <= j < |attrs| && IsId(attrs[j]) && forall k :: 0 <= k < j ==> !IsId(attrs[k])
  }

  /** Position `j` holds the first attribute `id="v"` of `attrs`. */
  predicate IsFirstIdWith(attrs: seq<Attr>, v: string, j: int) {
    0 <= j < |attrs| && IsIdWith(attrs[j], v) && forall k :: 0 <= k < j ==> !IsIdWith(attrs[k], v)
  }

  /** The attribute scan of IsHtmlIdEquals, from position `i` on. */
  function AnyIdFrom(attrs: seq<Attr>, id: string, i: nat): (r: bool)
    requires i <= |attrs|
    ensures r <==> exists j :: i <= j < |attrs| && IsIdWith(attrs[j], id)
    decreases |attrs| - i
  {
    if i == |attrs| then false
    else if IsIdWith(attrs[i], id) then true
    else AnyIdFrom(attrs, id, i + 1)
  }

  /** IsHtmlIdEquals: a nil node has no id; otherwise true when ANY `id`
      attribute (not only the first) carries the value `id`. */
  function IsHtmlIdEquals(node: Option<Node>, id: string): (r: bool)
    ensures node.None? ==> !r
    ensures node.Some? ==> (r <==> HasIdWith(node.value.attrs, id))
  {
    match node
    case None => false
    case Some(n) => AnyIdFrom(n.attrs, id, 0)
  }

  /** The attribute scan of GetHtmlId, from position `i` on. */
  function IdFrom(attrs: seq<Attr>, i: nat): (r: string)
    requires i <= |attrs|
    ensures (forall k :: i <= k < |attrs| ==> !IsId(attrs[k])) ==> r == ""
    ensures forall j :: i <= j < |attrs| && IsId(attrs[j]) && (forall k :: i <= k < j ==> !IsId(attrs[k])) ==>
                        r == attrs[j].val
    decreases |attrs| - i
  {
    if i == |attrs| then ""
    else if IsId(attrs[i]) then attrs[i].val
    else IdFrom(attrs, i + 1)
  }

  /** GetHtmlId: the value of the FIRST `id` attribute, or "" when there is none. */
  function GetHtmlId(n: Node): (r: string)
    ensures (forall k :: 0 <= k < |n.attrs| ==> !IsId(n.attrs[k])) ==> r == ""
    ensures forall j :: IsFirstId(n.attrs, j) ==> r == n.attrs[j].val
  {
    IdFrom(n.attrs, 0)
  }

  /** The attribute scan of FindOrAppendAtribute, from position `i` on: the
      first attribute whose key is `id` and whose VALUE is `key`. */
  function MatchFrom(attrs: seq<Attr>, key: string, i: nat): (r: Option<nat>)
    requires i <= |attrs|
    ensures r.Some? ==> i <= r.value < |attrs| && IsIdWith(attrs[r.value], key)
                        && forall k :: i <= k < r.value ==> !IsIdWith(attrs[k], key)
    ensures r.None? ==> forall k :: i <= k < |attrs| ==> !IsIdWith(attrs[k], key)
    decreases |attrs| - i
  {
    if i == |attrs| then None
    else if IsIdWith(attrs[i], key) then Some(i)
    else MatchFrom(attrs, key, i + 1)
  }

  /** The node after the call, and the index the call returned. */
  datatype Slot = Slot(node: Node, index: nat)

  /** FindOrAppendAtribute, as written: it looks for an attribute with key
      `id` and value `key` (never for an attribute whose key is `key`); when
      there is none it appends `key=""` and returns the new last index. */
  function FindOrAppendAttribute(n: Node, key: string): (r: Slot)
    ensures r.index < |r.node.attrs|
    ensures r.node.kind == n.kind && r.node.data == n.data && r.node.children == n.children
    ensures HasIdWith(n.attrs, key) ==> r.node == n && IsFirstIdWith(n.attrs, key, r.index)
    ensures !HasIdWith(n.attrs, key) ==>
              && r.node.attrs == n.attrs + [Attr(key, "")]
              && r.index == |n.attrs|
  {
    match MatchFrom(n.attrs, key, 0)
    case Some(i) => Slot(n, i)
    case None =>
      var attrs := n.attrs + [Attr(key, "")];
      Slot(n.(attrs := attrs), |attrs| - 1)
  }

  /** With at least one `id` attribute, the id GetHtmlId reports is one
      IsHtmlIdEquals accepts; without one, IsHtmlIdEquals accepts no value,
      not even the "" that GetHtmlId then reports. */
  lemma IdLookupsAgree(n: Node)
    ensures (exists j :: 0 <= j < |n.attrs| && IsId(n.attrs[j])) ==> IsHtmlIdEquals(Some(n), GetHtmlId(n))
    ensures (forall j :: 0 <= j < |n.attrs| ==> !IsId(n.attrs[j])) ==>
              forall x :: !IsHtmlIdEquals(Some(n), x)
  {
    if exists j :: 0 <= j < |n.attrs| && IsId(n.attrs[j]) {
      var j := FirstIdIndex(n.attrs);
      assert IsIdWith(n.attrs[j], GetHtmlId(n));
    }
  }

  /** The position of the first `id` attribute, when there is one. */
  lemma FirstIdIndex(attrs: seq<Attr>) returns (j: nat)
    requires exists j :: 0 <= j < |attrs| && IsId(attrs[j])
    ensures IsFirstId(attrs, j)
  {
    j := 0;
    while !IsId(attrs[j])
      invariant j < |attrs|
      invariant forall k :: 0 <= k < j ==> !IsId(attrs[k])
      invariant exists m :: j <= m < |attrs| && IsId(attrs[m])
      decreases |attrs| - j
    {
      j := j + 1;
    }
  }

  /** Only the first `id` counts for GetHtmlId: an element whose second `id`
      is "b" is still reported as "a", though IsHtmlIdEquals accepts "b". */
  lemma LaterIdsIgnored()
    ensures var n := Node(ElementNode, "div", [Attr("id", "a"), Attr("id", "b")], []);
            GetHtmlId(n) == "a" && IsHtmlIdEquals(Some(n), "b")
  {
    var n := Node(ElementNode, "div", [Attr("id", "a"), Attr("id", "b")], []);
    assert IsFirstId(n.attrs, 0);
    assert IsIdWith(n.attrs[1], "b");
  }

  /** The lookup never finds an attribute by its own key: an element that
      already has `class="btn"` gets a second, empty `class` attribute. */
  lemma ExistingKeyNotFound()
    ensures var n := Node(ElementNode, "a", [Attr("class", "btn")], []);
            var s := FindOrAppendAttribute(n, "class");
            s.node.attrs == [Attr("class", "btn"), Attr("class", "")] && s.index == 1
  {
    var n := Node(ElementNode, "a", [Attr("class", "btn")], []);
    assert !IsIdWith(n.attrs[0], "class");
    assert !HasIdWith(n.attrs, "class");
  }
}
