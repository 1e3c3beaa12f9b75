/** The HTML post-processing pass (build/html.go): a pre-order walk that
    finds marker elements by their first `id` and hands them to the TOC
    styler, the body styler or the date rewriter. The pass never creates,
    removes or reorders nodes; it rewrites attribute lists and `Data` only. */
module PostProcess {
  import opened Wrappers
  import opened Html
  import opened Dates

  const TocId := "author-toc"
  const BodyId := "author-body"
  const DateId := "author-date"
  const CopyrightYearId := "author-copyright-year"

  /** The style every image in the body receives. */
  const ImgStyle := "max-width: 100%;"

  datatype Marker = TocMarker | BodyMarker | DateMarker | CopyrightYearMarker | NoMarker

  /** The marker an element's first `id` names. */
  function MarkerOf(id: string): Marker {
    if id == TocId then TocMarker
    else if id == BodyId then BodyMarker
    else if id == DateId then DateMarker
    else if id == CopyrightYearId then CopyrightYearMarker
    else NoMarker
  }

  /** The marker the dispatcher sees at a node: only elements are inspected. */
  function MarkerAt(n: Node): (r: Marker)
    ensures n.kind != ElementNode ==> r == NoMarker
    ensures n.kind == ElementNode && (forall k :: 0 <= k < |n.attrs| ==> !IsId(n.attrs[k])) ==> r == NoMarker
    ensures forall j :: n.kind == ElementNode && IsFirstId(n.attrs, j) ==> r == MarkerOf(n.attrs[j].val)
  {
    if n.kind == ElementNode then MarkerOf(GetHtmlId(n)) else NoMarker
  }

  /** The class token the TOC styler adds to a tag, if it styles that tag. */
  function TocClass(tag: string): Option<string> {
    if tag == "ul" then Some("nav flex-column fixed-column")
    else if tag == "li" then Some("nav-item")
    else if tag == "a" then Some("nav-link")
    else None
  }

  /** `after` is `before` once the slot FindOrAppendAtribute picks for `key`
      has been written with `text` (appended to the slot's value when
      `append`, replacing it otherwise): the first attribute `id="key"` when
      there is one, else a new trailing attribute `key="text"`. */
  ghost predicate SlotWritten(before: seq<Attr>, after: seq<Attr>, key: string, text: string, append: bool) {
    if HasIdWith(before, key) then
      exists j :: IsFirstIdWith(before, key, j)
                  && after == before[j := Attr("id", if append then key + text else text)]
    else after == before + [Attr(key, text)]
  }

  /** `node.Attr[idx].Val += text` after FindOrAppendAtribute(node, key). */
  function AppendToSlot(n: Node, key: string, text: string): (r: Node)
    ensures r.kind == n.kind && r.data == n.data && r.children == n.children
    ensures SlotWritten(n.attrs, r.attrs, key, text, true)
  {
    var s := FindOrAppendAttribute(n, key);
    var a := s.node.attrs[s.index];
    assert a.val == "" ==> a.val + text == text;
    s.node.(attrs := s.node.attrs[s.index := Attr(a.key, a.val + text)])
  }

  /** `node.Attr[idx].Val = text` after FindOrAppendAtribute(node, key). */
  function SetSlot(n: Node, key: string, text: string): (r: Node)
    ensures r.kind == n.kind && r.data == n.data && r.children == n.children
    ensures SlotWritten(n.attrs, r.attrs, key, text, false)
  {
    var s := FindOrAppendAttribute(n, key);
    var a := s.node.attrs[s.index];
    s.node.(attrs := s.node.attrs[s.index := Attr(a.key, text)])
  }

  /** postProcessHtmlToc: every `ul`, `li` and `a` element of the subtree gets
      its class token; every node is descended, elements or not. */
  function StyleToc(n: Node): (r: Node)
    ensures r.kind == n.kind && r.data == n.data && |r.children| == |n.children|
    decreases n
  {
    var m := if n.kind == ElementNode && TocClass(n.data).Some?
             then AppendToSlot(n, "class", TocClass(n.data).value)
             else n;
    m.(children := seq(|n.children|, i requires 0 <= i < |n.children| => StyleToc(n.children[i])))
  }

  /** postProcessHtmlBody: every `img` element reached through element
      ancestors gets its style; `h1` is matched but left alone; a non-element
      node is neither changed nor descended. */
  function StyleBody(n: Node): (r: Node)
    ensures r.kind == n.kind && r.data == n.data && |r.children| == |n.children|
    decreases n
  {
    if n.kind != ElementNode then n
    else
      var m := if n.data == "img" then SetSlot(n, "style", ImgStyle) else n;
      m.(children := seq(|n.children|, i requires 0 <= i < |n.children| => StyleBody(n.children[i])))
  }

  /** `b` is `a`, except perhaps for its `Data`, and then `a`'s `Data` was
      a date. */
  ghost predicate Redated(a: Node, b: Node) {
    && b.kind == a.kind && b.attrs == a.attrs && b.children == a.children
    && (b.data == a.data || ParseIso(a.data).Some?)
  }

  /** postProcessHtmlDate: when the first child's `Data` parses as a
      YYYY-MM-DD date, it becomes the year alone (`onlyYear`) or the digits
      rearranged as DD.MM.YYYY.; otherwise, and without children, nothing
      changes. Nothing but that one `Data` ever changes. */
  function RewriteDate(n: Node, onlyYear: bool): (r: Node)
    ensures r.kind == n.kind && r.data == n.data && r.attrs == n.attrs
    ensures |r.children| == |n.children|
    ensures forall i :: 0 <= i < |n.children| ==> Redated(n.children[i], r.children[i])
    ensures |n.children| == 0 || ParseIso(n.children[0].data).None? ==> r == n
    ensures |n.children| > 0 && ParseIso(n.children[0].data).Some? ==>
              var s := n.children[0].data;
              r.children == [n.children[0].(data := if onlyYear then s[0..4]
                                                    else s[8..10] + "." + s[5..7] + "." + s[0..4] + ".")]
                            + n.children[1..]
  {
    if |n.children| == 0 then n
    else
      var first := n.children[0];
      match ParseIso(first.data)
      case None => n
      case Some(d) =>
        FormatAfterParse(first.data);
        var text := if onlyYear then FormatYear(d) else FormatDotted(d);
        n.(children := [first.(data := text)] + n.children[1..])
  }

  /** The node a date or copyright-year marker becomes before it is
      descended; any other node is descended as it is. */
  function Dated(n: Node, marker: Marker): (r: Node)
    ensures r.kind == n.kind && r.data == n.data && r.attrs == n.attrs
    ensures |r.children| == |n.children|
    ensures forall i :: 0 <= i < |n.children| ==> Redated(n.children[i], r.children[i])
    ensures marker != DateMarker && marker != CopyrightYearMarker ==> r == n
    ensures |n.children| > 0 ==> r.children[1..] == n.children[1..]
  {
    if marker == DateMarker then RewriteDate(n, false)
    else if marker == CopyrightYearMarker then RewriteDate(n, true)
    else n
  }

  /** postProcessHtmlNode: a TOC or body marker is handed to its styler and
      not descended further; a date marker is rewritten and then descended;
      every other node is descended in child order. */
  function Walk(n: Node): (r: Node)
    ensures r.kind == n.kind && r.data == n.data && |r.children| == |n.children|
    decreases n.children
  {
    var marker := MarkerAt(n);
    if marker == TocMarker then StyleToc(n)
    else if marker == BodyMarker then StyleBody(n)
    else
      var m := Dated(n, marker);
      m.(children := seq(|m.children|, i requires 0 <= i < |m.children| => Walk(m.children[i])))
  }

  // ---------------------------------------------------------------------
  // Properties of the stylers

  /** The TOC styler's effect on one node: tag and type kept; a `ul`, `li`
      or `a` element has its class token written into its slot; every other
      node keeps its attributes. */
  ghost predicate TocStep(a: Node, b: Node) {
    && b.kind == a.kind
    && b.data == a.data
    && if a.kind == ElementNode && TocClass(a.data).Some?
       then SlotWritten(a.attrs, b.attrs, "class", TocClass(a.data).value, true)
       else b.attrs == a.attrs
  }

  /** Every node of a TOC subtree, the marker included, is styled by
      TocStep, and the subtree keeps its shape. */
  lemma {:induction false} TocStyled(n: Node)
    ensures Everywhere(n, StyleToc(n), TocStep)
    decreases n
  {
    forall i | 0 <= i < |n.children|
      ensures Everywhere(n.children[i], StyleToc(n).children[i], TocStep)
    {
      TocStyled(n.children[i]);
    }
  }

  /** The body styler's effect: a non-element node and everything below it
      is left as it is; an element keeps its tag, an `img` gets `style`
      written into its slot, every other element (`h1` included) keeps its
      attributes, and the children are styled in the same way. */
  ghost predicate BodyStyled(a: Node, b: Node)
    decreases a
  {
    if a.kind != ElementNode then b == a
    else
      && b.kind == a.kind
      && b.data == a.data
      && (if a.data == "img" then SlotWritten(a.attrs, b.attrs, "style", ImgStyle, false)
          else b.attrs == a.attrs)
      && |b.children| == |a.children|
      && forall i :: 0 <= i < |a.children| ==> BodyStyled(a.children[i], b.children[i])
  }

  lemma {:induction false} BodyStyledHolds(n: Node)
    ensures BodyStyled(n, StyleBody(n))
    decreases n
  {
    if n.kind == ElementNode {
      forall i | 0 <= i < |n.children|
        ensures BodyStyled(n.children[i], StyleBody(n).children[i])
      {
        BodyStyledHolds(n.children[i]);
      }
    }
  }

  /** Styling is not idempotent: an image without an `id="style"` attribute
      styled twice carries two `style` attributes. */
  lemma BodyStylingAccumulates(n: Node)
    requires n.kind == ElementNode && n.data == "img" && !HasIdWith(n.attrs, "style")
    ensures StyleBody(n).attrs == n.attrs + [Attr("style", ImgStyle)]
    ensures StyleBody(StyleBody(n)).attrs == n.attrs + [Attr("style", ImgStyle), Attr("style", ImgStyle)]
  {
    var once := StyleBody(n);
    assert once.attrs == n.attrs + [Attr("style", ImgStyle)];
    assert !HasIdWith(once.attrs, "style") by {
      assert forall j :: 0 <= j < |n.attrs| ==> once.attrs[j] == n.attrs[j];
    }
  }

  /** Likewise a `ul`, `li` or `a` element without an `id="class"` attribute
      gets one more `class` attribute per TOC styling run. */
  lemma TocStylingAccumulates(n: Node)
    requires n.kind == ElementNode && TocClass(n.data).Some? && !HasIdWith(n.attrs, "class")
    ensures var t := TocClass(n.data).value;
            && StyleToc(n).attrs == n.attrs + [Attr("class", t)]
            && StyleToc(StyleToc(n)).attrs == n.attrs + [Attr("class", t), Attr("class", t)]
  {
    var t := TocClass(n.data).value;
    var once := StyleToc(n);
    assert once.attrs == n.attrs + [Attr("class", t)];
    assert !HasIdWith(once.attrs, "class") by {
      assert forall j :: 0 <= j < |n.attrs| ==> once.attrs[j] == n.attrs[j];
    }
  }

  // ---------------------------------------------------------------------
  // Properties of the whole pass

  /** No element of the tree has a marker as its first `id`. */
  ghost predicate NoMarkers(n: Node)
    decreases n
  {
    MarkerAt(n) == NoMarker && forall i :: 0 <= i < |n.children| ==> NoMarkers(n.children[i])
  }

  /** A tree without markers comes out of the pass exactly as it went in. */
  lemma {:induction false} WalkWithoutMarkers(n: Node)
    requires NoMarkers(n)
    ensures Walk(n) == n
    decreases n
  {
    forall i | 0 <= i < |n.children|
      ensures Walk(n.children[i]) == n.children[i]
    {
      WalkWithoutMarkers(n.children[i]);
    }
    assert Walk(n).children == n.children;
  }

  /** Type kept, and `Data` kept unless the old `Data` was a date. */
  ghost predicate Reshaped(a: Node, b: Node) {
    a.kind == b.kind && (a.data == b.data || ParseIso(a.data).Some?)
  }

  /** Type and `Data` kept: only attributes may differ. */
  ghost predicate SameKindAndData(a: Node, b: Node) {
    a.kind == b.kind && a.data == b.data
  }

  /** Type and attributes kept: only `Data` may differ. */
  ghost predicate SameKindAndAttrs(a: Node, b: Node) {
    a.kind == b.kind && a.attrs == b.attrs
  }

  /** The pass preserves the tree's shape (types, child counts, child
      order); the only `Data` it changes is a date's. */
  lemma WalkKeepsShape(n: Node)
    ensures Everywhere(n, Walk(n), Reshaped)
  {
    WalkKeepsShapeFrom(n, n);
  }

  /** WalkKeepsShape for a node `m` that is `n` with perhaps its date
      rewritten, as the dispatcher walks a date marker's first child. */
  lemma {:induction false} WalkKeepsShapeFrom(n: Node, m: Node)
    requires Redated(n, m)
    ensures Everywhere(n, Walk(m), Reshaped)
    decreases n.children
  {
    var r := Walk(m);
    assert MarkerAt(m) == MarkerAt(n);
    match MarkerAt(n)
    case TocMarker =>
      forall i | 0 <= i < |n.children|
        ensures Everywhere(n.children[i], r.children[i], Reshaped)
      {
        TocStyled(n.children[i]);
        EverywhereWeakens(n.children[i], r.children[i], TocStep, Reshaped);
      }
    case BodyMarker =>
      forall i | 0 <= i < |n.children|
        ensures Everywhere(n.children[i], r.children[i], Reshaped)
      {
        BodyStyledHolds(n.children[i]);
        BodyStyledKeepsShape(n.children[i], r.children[i]);
      }
    case _ =>
      var m' := Dated(m, MarkerAt(n));
      forall i | 0 <= i < |n.children|
        ensures Everywhere(n.children[i], r.children[i], Reshaped)
      {
        assert r.children[i] == Walk(m'.children[i]);
        WalkKeepsShapeFrom(n.children[i], m'.children[i]);
      }
  }

  lemma {:induction false} BodyStyledKeepsShape(a: Node, b: Node)
    requires BodyStyled(a, b)
    ensures Everywhere(a, b, Reshaped)
    decreases a
  {
    if a.kind != ElementNode {
      EverywhereReflexive(a, Reshaped);
    } else {
      forall i | 0 <= i < |a.children|
        ensures Everywhere(a.children[i], b.children[i], Reshaped)
      {
        BodyStyledKeepsShape(a.children[i], b.children[i]);
      }
    }
  }

  /** A TOC marker is handed whole to the TOC styler: nothing below it is
      dispatched, so no `Data` in it changes, a nested date marker included. */
  lemma TocMarkerHandedOff(n: Node)
    requires n.kind == ElementNode && GetHtmlId(n) == TocId
    ensures Walk(n) == StyleToc(n)
    ensures Everywhere(n, Walk(n), TocStep)
    ensures Everywhere(n, Walk(n), SameKindAndData)
  {
    TocStyled(n);
    EverywhereWeakens(n, Walk(n), TocStep, SameKindAndData);
  }

  /** A body marker is handed whole to the body styler, with the same
      consequence: no `Data` below it changes. */
  lemma BodyMarkerHandedOff(n: Node)
    requires n.kind == ElementNode && GetHtmlId(n) == BodyId
    ensures Walk(n) == StyleBody(n)
    ensures BodyStyled(n, Walk(n))
    ensures Everywhere(n, Walk(n), SameKindAndData)
  {
    BodyStyledHolds(n);
    BodyStyledKeepsData(n, Walk(n));
  }

  lemma {:induction false} BodyStyledKeepsData(a: Node, b: Node)
    requires BodyStyled(a, b)
    ensures Everywhere(a, b, SameKindAndData)
    decreases a
  {
    if a.kind != ElementNode {
      EverywhereReflexive(a, SameKindAndData);
    } else {
      forall i | 0 <= i < |a.children|
        ensures Everywhere(a.children[i], b.children[i], SameKindAndData)
      {
        BodyStyledKeepsData(a.children[i], b.children[i]);
      }
    }
  }

  /** No element of the tree is a TOC or body marker. */
  ghost predicate NoStylerMarkers(n: Node)
    decreases n
  {
    && MarkerAt(n) != TocMarker
    && MarkerAt(n) != BodyMarker
    && forall i :: 0 <= i < |n.children| ==> NoStylerMarkers(n.children[i])
  }

  /** Outside TOC and body subtrees no attribute changes: in a tree without
      such markers only dates' `Data` may be rewritten. */
  lemma WalkKeepsAttrs(n: Node)
    requires NoStylerMarkers(n)
    ensures Everywhere(n, Walk(n), SameKindAndAttrs)
  {
    WalkKeepsAttrsFrom(n, n);
  }

  lemma {:induction false} WalkKeepsAttrsFrom(n: Node, m: Node)
    requires NoStylerMarkers(n)
    requires Redated(n, m)
    ensures Everywhere(n, Walk(m), SameKindAndAttrs)
    decreases n.children
  {
    var r := Walk(m);
    assert MarkerAt(m) == MarkerAt(n);
    var m' := Dated(m, MarkerAt(n));
    forall i | 0 <= i < |n.children|
      ensures Everywhere(n.children[i], r.children[i], SameKindAndAttrs)
    {
      assert r.children[i] == Walk(m'.children[i]);
      WalkKeepsAttrsFrom(n.children[i], m'.children[i]);
    }
  }

  /** For every date or copyright-year marker whose first child's `Data` is
      a date: the marker keeps its tag and attributes, the first child's
      `Data` becomes the year alone or `DD.MM.YYYY.`, and every child is then
      walked, the rewritten first child included. When the first child's
      `Data` is no date, or there is no child, the children are walked as
      they are. */
  lemma DateMarkerWalked(n: Node, onlyYear: bool)
    requires MarkerAt(n) == (if onlyYear then CopyrightYearMarker else DateMarker)
    ensures Walk(n).attrs == n.attrs && Walk(n).data == n.data
    ensures |n.children| > 0 && ParseIso(n.children[0].data).Some? ==>
              var s := n.children[0].data;
              && Walk(n).children[0].data == (if onlyYear then s[0..4]
                                              else s[8..10] + "." + s[5..7] + "." + s[0..4] + ".")
              && Walk(n).children[0] == Walk(n.children[0].(data := Walk(n).children[0].data))
    ensures |n.children| == 0 || ParseIso(n.children[0].data).None? ==>
              forall i :: 0 <= i < |n.children| ==> Walk(n).children[i] == Walk(n.children[i])
    ensures forall i :: 1 <= i < |n.children| ==> Walk(n).children[i] == Walk(n.children[i])
  {
    var m := Dated(n, MarkerAt(n));
    WalkDescends(n);
    if |n.children| > 0 && ParseIso(n.children[0].data).Some? {
      var s := n.children[0].data;
      var t := if onlyYear then s[0..4] else s[8..10] + "." + s[5..7] + "." + s[0..4] + ".";
      assert m.children[0] == n.children[0].(data := t);
    } else {
      assert m == n;
    }
    forall i | 1 <= i < |n.children|
      ensures Walk(n).children[i] == Walk(n.children[i])
    {
      assert m.children[i] == m.children[1..][i - 1];
    }
  }

  /** Outside TOC and body markers the walk rewrites a date marker first and
      then walks each of the children it ends up with. */
  lemma WalkDescends(n: Node)
    requires MarkerAt(n) != TocMarker && MarkerAt(n) != BodyMarker
    ensures var m := Dated(n, MarkerAt(n));
            && Walk(n).attrs == m.attrs
            && |Walk(n).children| == |m.children|
            && forall i :: 0 <= i < |m.children| ==> Walk(n).children[i] == Walk(m.children[i])
  {
  }

  /** The other half of the lookup mix-up: an element that carries
      `id="class"` has the TOC class text appended to that `id`, and an image
      that carries `id="style"` has its `id` replaced by the style. */
  lemma IdSlotOverwritten()
    ensures StyleToc(Node(ElementNode, "a", [Attr("id", "class")], [])).attrs == [Attr("id", "classnav-link")]
    ensures StyleBody(Node(ElementNode, "img", [Attr("id", "style")], [])).attrs == [Attr("id", ImgStyle)]
  {
    var a := Node(ElementNode, "a", [Attr("id", "class")], []);
    var img := Node(ElementNode, "img", [Attr("id", "style")], []);
    assert IsFirstIdWith(a.attrs, "class", 0);
    assert IsFirstIdWith(img.attrs, "style", 0);
    assert TocClass("a") == Some("nav-link");
    assert "class" + "nav-link" == "classnav-link";
  }

  /** A copyright-year marker's date becomes the year alone. */
  lemma CopyrightYearExample()
    ensures var year := Node(ElementNode, "span", [Attr("id", CopyrightYearId)], [Node(TextNode, "1999-12-31", [], [])]);
            Walk(year) == Node(ElementNode, "span", [Attr("id", CopyrightYearId)], [Node(TextNode, "1999", [], [])])
  {
    var text := Node(TextNode, "1999-12-31", [], []);
    var year := Node(ElementNode, "span", [Attr("id", CopyrightYearId)], [text]);
    var text' := text.(data := "1999");
    assert IsFirstId(year.attrs, 0);
    YearRewritten(year, text);
    var r := Walk(year);
    assert r.children[0] == Walk(text');
  }

  lemma YearRewritten(year: Node, text: Node)
    requires text == Node(TextNode, "1999-12-31", [], []) && year.children == [text]
    ensures RewriteDate(year, true).children == [text.(data := "1999")]
  {
    assert IsoShaped(text.data);
    assert ParseIso(text.data).Some?;
    assert text.data[0..4] == "1999";
  }

  /** A date marker's date becomes DD.MM.YYYY., and the marker's children
      are then walked, so a copyright year nested in it is rewritten too. */
  lemma DateExample()
    ensures var year := Node(ElementNode, "span", [Attr("id", CopyrightYearId)], [Node(TextNode, "1999-12-31", [], [])]);
            var date := Node(ElementNode, "p", [Attr("id", DateId)], [Node(TextNode, "2024-05-01", [], []), year]);
            Walk(date) == Node(ElementNode, "p", [Attr("id", DateId)],
                               [Node(TextNode, "01.05.2024.", [], []),
                                Node(ElementNode, "span", [Attr("id", CopyrightYearId)], [Node(TextNode, "1999", [], [])])])
  {
    var year := Node(ElementNode, "span", [Attr("id", CopyrightYearId)], [Node(TextNode, "1999-12-31", [], [])]);
    var text := Node(TextNode, "2024-05-01", [], []);
    var text' := Node(TextNode, "01.05.2024.", [], []);
    var date := Node(ElementNode, "p", [Attr("id", DateId)], [text, year]);
    CopyrightYearExample();
    DateRewritten(text, year);
    assert IsFirstId(date.attrs, 0);
    WalkLeaf(text');
    DescendTwo(date, RewriteDate(date, false), text', year);
  }

  /** A childless non-element comes out of the pass as it went in. */
  lemma WalkLeaf(t: Node)
    requires t.kind != ElementNode && t.children == []
    ensures Walk(t) == t
  {
    assert Walk(t).children == [];
  }

  /** The dispatcher descends a date marker's two (rewritten) children. */
  lemma DescendTwo(n: Node, m: Node, a: Node, b: Node)
    requires MarkerAt(n) == DateMarker
    requires m == RewriteDate(n, false)
    requires m.children == [a, b]
    ensures Walk(n) == m.(children := [Walk(a), Walk(b)])
  {
    WalkDescends(n);
    assert Walk(n).children == [Walk(a), Walk(b)];
  }

  lemma DateRewritten(text: Node, year: Node)
    requires text == Node(TextNode, "2024-05-01", [], [])
    ensures var date := Node(ElementNode, "p", [Attr("id", DateId)], [text, year]);
            RewriteDate(date, false).children == [text.(data := "01.05.2024."), year]
  {
    var date := Node(ElementNode, "p", [Attr("id", DateId)], [text, year]);
    assert IsoShaped(text.data);
    assert ParseIso(text.data).Some?;
    DottedText(text.data);
    assert date.children[1..] == [year];
  }

  lemma DottedText(s: string)
    requires s == "2024-05-01"
    ensures s[8..10] + "." + s[5..7] + "." + s[0..4] + "." == "01.05.2024."
  {
    var t := s[8..10] + "." + s[5..7] + "." + s[0..4] + ".";
    assert s[8..10] == "01" && s[5..7] == "05" && s[0..4] == "2024";
    assert |t| == 11 && forall i :: 0 <= i < 11 ==> t[i] == "01.05.2024."[i];
  }

  /** A date marker whose text is no date is left as it is. */
  lemma NotADateExample()
    ensures var na := Node(ElementNode, "p", [Attr("id", DateId)], [Node(TextNode, "N/A", [], [])]);
            Walk(na) == na
  {
    var text := Node(TextNode, "N/A", [], []);
    var na := Node(ElementNode, "p", [Attr("id", DateId)], [text]);
    assert IsFirstId(na.attrs, 0);
    assert Walk(text) == text;
    assert Walk(na).children == na.children;
  }

  /** A date inside a TOC is not rewritten, while the list is styled. */
  lemma TocExample()
    ensures var date := Node(ElementNode, "span", [Attr("id", DateId)], [Node(TextNode, "2024-05-01", [], [])]);
            var toc := Node(ElementNode, "ul", [Attr("id", TocId)], [Node(ElementNode, "li", [], [date])]);
            Walk(toc) == Node(ElementNode, "ul", [Attr("id", TocId), Attr("class", "nav flex-column fixed-column")],
                              [Node(ElementNode, "li", [Attr("class", "nav-item")], [date])])
  {
    var text := Node(TextNode, "2024-05-01", [], []);
    var date := Node(ElementNode, "span", [Attr("id", DateId)], [text]);
    var li := Node(ElementNode, "li", [], [date]);
    var toc := Node(ElementNode, "ul", [Attr("id", TocId)], [li]);
    assert IsFirstId(toc.attrs, 0);
    assert !HasIdWith(toc.attrs, "class") && !HasIdWith(li.attrs, "class") && !HasIdWith(date.attrs, "class");
    assert StyleToc(text) == text;
    assert StyleToc(date) == date;
    assert StyleToc(li) == li.(attrs := [Attr("class", "nav-item")]);
  }
}
