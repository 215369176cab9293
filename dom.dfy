/** The part of the browser's DOM the content scripts read: a finite tree of element and
    text nodes, the selectors they hand to `querySelector`/`querySelectorAll`, and the
    page they run in. Rendering (`innerText`, `outerHTML`) is abstract: each node carries
    the strings the browser would produce for it. */
module Dom {
  import opened Wrappers
  import Text

  /** Object identity of a node: two values with the same id are the same DOM object,
      possibly at different moments (a node whose text or attributes were changed in place
      keeps its id). */
  type NodeId = nat

  datatype Kind = Element(tag: string) | TextNode

  /** `text` is what `innerText` returns for an element (and the character data of a text
      node); `html` is what `outerHTML` returns for an element. */
  datatype Node = Node(
    id: NodeId,
    kind: Kind,
    attrs: map<string, string>,
    classes: seq<string>,
    children: seq<Node>,
    text: string,
    html: string)

  /** `node.nodeType === 1`. */
  predicate IsElement(n: Node) {
    n.kind.Element?
  }

  /** `n.innerText`: `undefined` on a text node. */
  function InnerText(n: Node): Option<string> {
    if IsElement(n) then Some(n.text) else None
  }

  /** `n.outerHTML`: `undefined` on a text node. */
  function OuterHtml(n: Node): Option<string> {
    if IsElement(n) then Some(n.html) else None
  }

  /** `n.getAttribute(name)`: `null` when the attribute is absent. */
  function GetAttribute(n: Node, name: string): Option<string> {
    if IsElement(n) && name in n.attrs then Some(n.attrs[name]) else None
  }

  /** The page: `document.title`, `location.pathname`, `location.href` and the tree under
      `document.documentElement`. */
  datatype Document = Document(title: string, pathname: string, href: string, root: Node)

  /** One compound selector of a descendant chain: an optional tag and an optional
      `[class*="..."]` substring test. */
  datatype Compound = Compound(tag: Option<string>, classContains: Option<string>)

  datatype Selector =
    | Tag(name: string)                         // `span`, `img`
    | Class(name: string)                       // `.webcast-chatroom`
    | HasAttr(name: string)                     // `[data-index]`
    | AttrEquals(name: string, value: string)   // `[data-e2e="live-comment-list"]`
    | Descendant(steps: seq<Compound>)          // `div[class*="webcast-chatroom"] div div`
    | Identity(id: NodeId)                      // not CSS: the node object with this identity

  /** The value of the `class` attribute, rebuilt from the class list. */
  function ClassAttribute(n: Node): string {
    Text.Join(n.classes, " ")
  }

  predicate CompoundMatches(c: Compound, n: Node) {
    IsElement(n)
    && (c.tag.None? || n.kind.tag == c.tag.value)
    && (c.classContains.None? || Text.Contains(ClassAttribute(n), c.classContains.value))
  }

  /** Some of the `ancestors` (root first), in order, match the `steps` (outermost first):
      the descendant combinator. Matching the nearest ancestor greedily is complete. */
  predicate AncestorsMatch(steps: seq<Compound>, ancestors: seq<Node>)
    decreases |ancestors|
  {
    if steps == [] then true
    else if ancestors == [] then false
    else if CompoundMatches(steps[|steps| - 1], ancestors[|ancestors| - 1]) then
      AncestorsMatch(steps[..|steps| - 1], ancestors[..|ancestors| - 1])
    else
      AncestorsMatch(steps, ancestors[..|ancestors| - 1])
  }

  /** Element `n`, below `ancestors`, matches `sel`. Text nodes match nothing. */
  predicate Matches(sel: Selector, ancestors: seq<Node>, n: Node) {
    IsElement(n) &&
    match sel
    case Tag(name) => n.kind.tag == name
    case Class(name) => name in n.classes
    case HasAttr(name) => name in n.attrs
    case AttrEquals(name, v) => name in n.attrs && n.attrs[name] == v
    case Descendant(steps) =>
      |steps| > 0 && CompoundMatches(steps[|steps| - 1], n) && AncestorsMatch(steps[..|steps| - 1], ancestors)
    case Identity(id) => n.id == id
  }

  /** A matching node together with its ancestors, root first; the last ancestor is the
      node's `parentElement`. */
  datatype Hit = Hit(ancestors: seq<Node>, node: Node)

  /** A hit whose recorded parent really has the node among its children. */
  predicate Parented(h: Hit) {
    |h.ancestors| > 0 && h.node in h.ancestors[|h.ancestors| - 1].children
  }

  /** The matching nodes of the subtree rooted at `n` (itself first), in document order. */
  function Subtree(n: Node, ancestors: seq<Node>, sel: Selector): (r: seq<Hit>)
    ensures forall h :: h in r ==> Matches(sel, h.ancestors, h.node)
    ensures forall h :: h in r ==> h == Hit(ancestors, n) || Parented(h)
    decreases n, 1, 0
  {
    (if Matches(sel, ancestors, n) then [Hit(ancestors, n)] else []) + Below(n, ancestors, sel, 0)
  }

  /** The matching nodes below the children `n.children[i..]`, in document order. */
  function Below(n: Node, ancestors: seq<Node>, sel: Selector, i: nat): (r: seq<Hit>)
    requires i <= |n.children|
    ensures forall h :: h in r ==> Matches(sel, h.ancestors, h.node) && Parented(h)
    decreases n, 0, |n.children| - i
  {
    if i == |n.children| then []
    else Subtree(n.children[i], ancestors + [n], sel) + Below(n, ancestors, sel, i + 1)
  }

  function Nodes(hs: seq<Hit>): (r: seq<Node>)
    ensures |r| == |hs| && forall i :: 0 <= i < |hs| ==> r[i] == hs[i].node
  {
    seq(|hs|, i requires 0 <= i < |hs| => hs[i].node)
  }

  /** `n.querySelectorAll(sel)`: the matching descendants of `n`, in document order. */
  function QueryAll(n: Node, sel: Selector): seq<Node> {
    Nodes(Below(n, [], sel, 0))
  }

  /** `n.querySelector(sel)`, with the parent of the match. */
  function QueryFirst(n: Node, sel: Selector): (r: Option<Hit>)
    ensures r.Some? ==> Matches(sel, r.value.ancestors, r.value.node) && Parented(r.value)
  {
    var hs := Below(n, [], sel, 0);
    if hs == [] then None else assert hs[0] in hs; Some(hs[0])
  }

  /** `hit.node.parentElement` (recorded by the query). */
  function Parent(h: Hit): Node
    requires Parented(h)
  {
    h.ancestors[|h.ancestors| - 1]
  }

  /** `document.querySelector(sel)`: the document element itself is a candidate too. */
  function DocQueryFirst(root: Node, sel: Selector): (r: Option<Node>)
    ensures r.Some? ==> exists ancestors :: Matches(sel, ancestors, r.value)
  {
    var hs := Subtree(root, [], sel);
    if hs == [] then None else assert hs[0] in hs; Some(hs[0].node)
  }

  /** The current state of the node object `id`, if it is still in the document
      (`node.isConnected`). */
  function FindNode(root: Node, id: NodeId): (r: Option<Node>)
    ensures r.Some? ==> IsElement(r.value) && r.value.id == id
  {
    DocQueryFirst(root, Identity(id))
  }

  /** Every node a query returns is an element: text nodes are never handed on. */
  lemma QueryAllElements(n: Node, sel: Selector)
    ensures forall m :: m in QueryAll(n, sel) ==> IsElement(m)
  {
    var hs := Below(n, [], sel, 0);
    forall m | m in QueryAll(n, sel) ensures IsElement(m) {
      var i :| 0 <= i < |hs| && Nodes(hs)[i] == m;
      assert hs[i] in hs;
    }
  }

  /** The first present value of `rs`. */
  function FirstSome(rs: seq<Option<Node>>): Option<Node> {
    if rs == [] then None
    else if rs[0].Some? then rs[0]
    else FirstSome(rs[1..])
  }

  lemma {:induction false} FirstSomeSpec(rs: seq<Option<Node>>)
    ensures FirstSome(rs).Some? <==> exists k :: 0 <= k < |rs| && rs[k].Some?
    ensures FirstSome(rs).Some? ==>
              exists k :: 0 <= k < |rs| && FirstSome(rs) == rs[k] && forall j :: 0 <= j < k ==> rs[j].None?
  {
    if rs != [] && rs[0].None? {
      var rest := rs[1..];
      FirstSomeSpec(rest);
      if k :| 0 <= k < |rs| && rs[k].Some? {
        assert rest[k - 1] == rs[k];
      }
      if FirstSome(rest).Some? {
        var k :| 0 <= k < |rest| && FirstSome(rest) == rest[k] && forall j :: 0 <= j < k ==> rest[j].None?;
        assert rest[k] == rs[k + 1];
        forall j | 0 <= j < k + 1 ensures rs[j].None? {
          if j > 0 {
            assert rs[j] == rest[j - 1];
          }
        }
      }
    }
  }

  /** What `document.querySelector` returns for each selector. */
  function Probes(root: Node, selectors: seq<Selector>): (rs: seq<Option<Node>>)
    ensures |rs| == |selectors| && forall i :: 0 <= i < |selectors| ==> rs[i] == DocQueryFirst(root, selectors[i])
  {
    seq(|selectors|, i requires 0 <= i < |selectors| => DocQueryFirst(root, selectors[i]))
  }

  /** The container locator: the selectors are tried in order against the whole document
      and the first match of the first selector that matches anything is the result. */
  function Locate(root: Node, selectors: seq<Selector>): Option<Node> {
    FirstSome(Probes(root, selectors))
  }

  /** `Locate` finds something exactly when some selector matches, and then it is the
      first match of a selector before which none matches. */
  lemma LocateSpec(root: Node, selectors: seq<Selector>)
    ensures Locate(root, selectors).Some? <==>
              exists k :: 0 <= k < |selectors| && DocQueryFirst(root, selectors[k]).Some?
    ensures Locate(root, selectors).Some? ==>
              exists k :: 0 <= k < |selectors| && Locate(root, selectors) == DocQueryFirst(root, selectors[k])
                          && forall j :: 0 <= j < k ==> DocQueryFirst(root, selectors[j]).None?
  {
    var rs := Probes(root, selectors);
    FirstSomeSpec(rs);
    if k :| 0 <= k < |selectors| && DocQueryFirst(root, selectors[k]).Some? {
      assert rs[k].Some?;
    }
    if Locate(root, selectors).Some? {
      var k :| 0 <= k < |rs| && FirstSome(rs) == rs[k] && forall j :: 0 <= j < k ==> rs[j].None?;
      forall j | 0 <= j < k ensures DocQueryFirst(root, selectors[j]).None? {
        assert rs[j].None?;
      }
    }
  }

  /** The locator's loop over the selectors, with its early `break`. */
  method FirstMatching(root: Node, selectors: seq<Selector>) returns (found: Option<Node>)
    ensures found == Locate(root, selectors)
  {
    ghost var rs := Probes(root, selectors);
    found := None;
    var i := 0;
    while i < |selectors|
      invariant 0 <= i <= |selectors|
      invariant found.None?
      invariant FirstSome(rs) == FirstSome(rs[i..])
    {
      var element := DocQueryFirst(root, selectors[i]);
      if element.Some? {
        found := element;
        break;
      }
      assert rs[i..][1..] == rs[i + 1..];
      i := i + 1;
    }
  }

  // ---------------------------------------------------------------------------
  // MutationObserver records
  // ---------------------------------------------------------------------------

  /** A mutation record of the observed subtree: nodes inserted (`childList`) or a node
      whose attributes changed (`attributes`). Nodes are given in their current state. */
  datatype Mutation = ChildList(added: seq<Node>) | Attributes(target: Node)

  /** The element nodes of `ns`, in order: a node is kept exactly when it is an element
      node of the input. */
  function ElementsOf(ns: seq<Node>): (r: seq<Node>)
    ensures forall m :: m in r <==> IsElement(m) && m in ns
    decreases |ns|
  {
    if ns == [] then [] else ElementsOf(ns[..|ns| - 1]) + IfElement(ns[|ns| - 1])
  }

  /** `[n]` for an element node (`nodeType === 1`), `[]` otherwise. */
  function IfElement(n: Node): (r: seq<Node>)
    ensures forall m :: m in r <==> IsElement(m) && m == n
  {
    if IsElement(n) then [n] else []
  }

  /** Keeping the element nodes works piece by piece and keeps their order: the
      elements of `a + b` are those of `a` followed by those of `b`. */
  lemma {:induction false} ElementsAppend(a: seq<Node>, b: seq<Node>)
    ensures ElementsOf(a + b) == ElementsOf(a) + ElementsOf(b)
    decreases |b|
  {
    if b == [] {
      assert a + b == a;
    } else {
      var b' := b[..|b| - 1];
      AppendFront(a, b);
      ElementsAppend(a, b');
      AppendAssociates(ElementsOf(a), ElementsOf(b'), IfElement(b[|b| - 1]));
    }
  }

  /** A list of element nodes is kept whole. */
  lemma {:induction false} ElementsKeptWhole(ns: seq<Node>)
    requires forall i :: 0 <= i < |ns| ==> IsElement(ns[i])
    ensures ElementsOf(ns) == ns
    decreases |ns|
  {
    if ns != [] {
      var prev := ns[..|ns| - 1];
      forall i | 0 <= i < |prev| ensures IsElement(prev[i]) {
        assert prev[i] == ns[i];
      }
      ElementsKeptWhole(prev);
      assert IfElement(ns[|ns| - 1]) == [ns[|ns| - 1]];
      DropLastSnoc(ns);
    }
  }

  /** A non-empty sequence is its front followed by its last element. */
  lemma DropLastSnoc<T>(s: seq<T>)
    requires s != []
    ensures s[..|s| - 1] + [s[|s| - 1]] == s
  {
  }

  /** The front and the last element of `a + b`, for a non-empty `b`. */
  lemma AppendFront<T>(a: seq<T>, b: seq<T>)
    requires b != []
    ensures (a + b)[..|a + b| - 1] == a + b[..|b| - 1] && (a + b)[|a + b| - 1] == b[|b| - 1]
  {
  }

  lemma AppendAssociates<T>(x: seq<T>, y: seq<T>, z: seq<T>)
    ensures (x + y) + z == x + (y + z)
  {
  }

  /** A list without element nodes is dropped whole. */
  lemma {:induction false} ElementsDroppedWhole(ns: seq<Node>)
    requires forall i :: 0 <= i < |ns| ==> !IsElement(ns[i])
    ensures ElementsOf(ns) == []
    decreases |ns|
  {
    if ns != [] {
      var prev := ns[..|ns| - 1];
      forall i | 0 <= i < |prev| ensures !IsElement(prev[i]) {
        assert prev[i] == ns[i];
      }
      ElementsDroppedWhole(prev);
    }
  }
}
