/**
 * An abstract DOM. An element is its tag name, its class list, its own text and
 * its child elements; a node inside a tree is addressed by a path of child
 * indexes, which is what a selector query hands back.
 */
module Dom {
  import opened Options

  datatype Node = Node(tag: string, classes: set<string>, text: string, children: seq<Node>)

  /** What assigning markup to `innerHTML` puts inside an element: text and child elements. */
  datatype Fragment = Fragment(text: string, children: seq<Node>)

  type Path = seq<nat>

  /** `textContent`: the element's own text followed by that of its children, in order. */
  function TextContent(n: Node): string
    decreases n, 1
  {
    n.text + ChildrenText(n, 0)
  }

  function ChildrenText(n: Node, i: nat): string
    requires i <= |n.children|
    decreases n, 0, |n.children| - i
  {
    if i == |n.children| then "" else TextContent(n.children[i]) + ChildrenText(n, i + 1)
  }

  /** The element `n` after `n.textContent = s`: only the text is left. */
  function WithText(n: Node, s: string): (r: Node)
    ensures r.tag == n.tag && r.classes == n.classes
    ensures TextContent(r) == s && r.children == []
  {
    n.(text := s, children := [])
  }

  /** The element `n` after `n.innerHTML = markup`, where `f` is what the markup parses to. */
  function WithInner(n: Node, f: Fragment): (r: Node)
    ensures r.tag == n.tag && r.classes == n.classes
    ensures r.text == f.text && r.children == f.children
  {
    n.(text := f.text, children := f.children)
  }

  predicate ValidPath(t: Node, p: Path)
    decreases |p|
  {
    p == [] || (p[0] < |t.children| && ValidPath(t.children[p[0]], p[1..]))
  }

  /** The node that path `p` leads to from `t`. */
  function At(t: Node, p: Path): Node
    requires ValidPath(t, p)
    decreases |p|
  {
    if p == [] then t else At(t.children[p[0]], p[1..])
  }

  predicate IsPrefix(p: Path, q: Path) {
    |p| <= |q| && q[..|p|] == p
  }

  /** Neither path leads through the other: they part at some index. */
  predicate Apart(p: Path, q: Path) {
    !IsPrefix(p, q) && !IsPrefix(q, p)
  }

  /** `t` with the node at `p` replaced by `n`. */
  function Replace(t: Node, p: Path, n: Node): (r: Node)
    requires ValidPath(t, p)
    ensures ValidPath(r, p) && At(r, p) == n
    decreases |p|
  {
    if p == [] then n
    else t.(children := t.children[p[0] := Replace(t.children[p[0]], p[1..], n)])
  }

  /** A path that is neither above nor below `p` still leads to the same node after a replacement at `p`. */
  lemma {:induction false} ReplaceElsewhere(t: Node, p: Path, n: Node, q: Path)
    requires ValidPath(t, p) && ValidPath(t, q)
    requires Apart(p, q)
    ensures ValidPath(Replace(t, p, n), q) && At(Replace(t, p, n), q) == At(t, q)
    decreases |p|
  {
    assert IsPrefix([], q) && IsPrefix([], p);
    var r := Replace(t, p, n);
    if p[0] != q[0] {
      assert r.children[q[0]] == t.children[q[0]];
    } else {
      PrefixStep(p, q);
      PrefixStep(q, p);
      ReplaceElsewhere(t.children[p[0]], p[1..], n, q[1..]);
    }
  }

  /**
   * The nodes above `p` keep their tag, classes, text and number of children
   * when the node at `p` is replaced.
   */
  lemma {:induction false} ReplaceKeepsAncestors(t: Node, p: Path, n: Node, q: Path)
    requires ValidPath(t, p) && IsPrefix(q, p) && q != p
    ensures ValidPath(t, q) && ValidPath(Replace(t, p, n), q)
    ensures SameShell(At(Replace(t, p, n), q), At(t, q))
    decreases |q|
  {
    var r := Replace(t, p, n);
    if q != [] {
      assert q[0] == p[0];
      PrefixStep(q, p);
      ReplaceKeepsAncestors(t.children[p[0]], p[1..], n, q[1..]);
    }
  }

  /** Below a shared first index, one path is a prefix of the other iff their tails are. */
  lemma PrefixStep(p: Path, q: Path)
    requires p != [] && q != [] && p[0] == q[0]
    ensures IsPrefix(p, q) <==> IsPrefix(p[1..], q[1..])
  {
    if |p| <= |q| {
      assert q[..|p|] == [q[0]] + q[1..][..|p| - 1];
      assert p == [p[0]] + p[1..];
    }
  }

  /** Two elements agree on everything but the contents of their children. */
  predicate SameShell(a: Node, b: Node) {
    a.tag == b.tag && a.classes == b.classes && a.text == b.text && |a.children| == |b.children|
  }

  /**
   * `r` differs from `t` only at `p` and below: every node apart from `p` is
   * unchanged, and the nodes above `p` keep their tag, classes, text and
   * number of children.
   */
  ghost predicate ChangedOnlyAt(t: Node, r: Node, p: Path) {
    && ValidPath(t, p) && ValidPath(r, p)
    && (forall q :: ValidPath(t, q) && Apart(p, q) ==> ValidPath(r, q) && At(r, q) == At(t, q))
    && (forall q :: IsPrefix(q, p) && q != p ==> ValidPath(t, q) && ValidPath(r, q) && SameShell(At(r, q), At(t, q)))
  }

  /** A replacement at `p` changes the tree only at `p` and below. */
  lemma ReplaceOnlyAt(t: Node, p: Path, n: Node)
    requires ValidPath(t, p)
    ensures ChangedOnlyAt(t, Replace(t, p, n), p)
  {
    forall q | ValidPath(t, q) && Apart(p, q)
      ensures ValidPath(Replace(t, p, n), q) && At(Replace(t, p, n), q) == At(t, q)
    {
      ReplaceElsewhere(t, p, n, q);
    }
    forall q | IsPrefix(q, p) && q != p
      ensures ValidPath(t, q) && ValidPath(Replace(t, p, n), q) && SameShell(At(Replace(t, p, n), q), At(t, q))
    {
      ReplaceKeepsAncestors(t, p, n, q);
    }
  }

  /** The parent of the node at a non-empty path, and the node's index among its siblings. */
  lemma {:induction false} ParentOf(t: Node, p: Path)
    requires ValidPath(t, p) && p != []
    ensures ValidPath(t, p[..|p| - 1])
    ensures p[|p| - 1] < |At(t, p[..|p| - 1]).children|
    ensures At(t, p) == At(t, p[..|p| - 1]).children[p[|p| - 1]]
    decreases |p|
  {
    if |p| > 1 {
      ParentOf(t.children[p[0]], p[1..]);
      assert p[1..][..|p[1..]| - 1] == p[..|p| - 1][1..];
    }
  }

  /** `t` after `element.remove()` for the node at `p`. */
  function Remove(t: Node, p: Path): (r: Node)
    requires ValidPath(t, p) && p != []
  {
    ParentOf(t, p);
    var up, i := p[..|p| - 1], p[|p| - 1];
    var parent := At(t, up);
    Replace(t, up, parent.(children := parent.children[..i] + parent.children[i + 1..]))
  }

  /**
   * Removing the node at `p` takes it out of its parent's children, keeps its
   * siblings in order, and changes nothing else: the parent keeps its tag,
   * classes and text, its ancestors keep theirs, and every other subtree stays.
   */
  lemma RemoveSpec(t: Node, p: Path)
    requires ValidPath(t, p) && p != []
    ensures var up, i := p[..|p| - 1], p[|p| - 1];
      && ValidPath(t, up) && ValidPath(Remove(t, p), up)
      && i < |At(t, up).children|
      && var before, after := At(t, up), At(Remove(t, p), up);
      && after.tag == before.tag && after.classes == before.classes && after.text == before.text
      && after.children == before.children[..i] + before.children[i + 1..]
    ensures forall q :: ValidPath(t, q) && Apart(q, p[..|p| - 1]) ==> ValidPath(Remove(t, p), q) && At(Remove(t, p), q) == At(t, q)
    ensures ChangedOnlyAt(t, Remove(t, p), p[..|p| - 1])
  {
    ParentOf(t, p);
    var up, i := p[..|p| - 1], p[|p| - 1];
    var parent := At(t, up);
    forall q | ValidPath(t, q) && Apart(q, up)
      ensures ValidPath(Remove(t, p), q) && At(Remove(t, p), q) == At(t, q)
    {
      ReplaceElsewhere(t, up, parent.(children := parent.children[..i] + parent.children[i + 1..]), q);
    }
    ReplaceOnlyAt(t, up, parent.(children := parent.children[..i] + parent.children[i + 1..]));
  }

  /**
   * `querySelector`: the first strict descendant of `t`, in document order,
   * that matches `selector` under the matching relation `m`.
   */
  function FindOne(m: (string, Node) -> bool, selector: string, t: Node): (r: Option<Path>)
    ensures r.Some? ==> r.value != [] && ValidPath(t, r.value) && m(selector, At(t, r.value))
    ensures r.None? ==> forall q :: ValidPath(t, q) && q != [] ==> !m(selector, At(t, q))
    decreases t, 1
  {
    FindFrom(m, selector, t, 0)
  }

  /** The first match among the children `i..` of `t` and their descendants. */
  function FindFrom(m: (string, Node) -> bool, selector: string, t: Node, i: nat): (r: Option<Path>)
    requires i <= |t.children|
    ensures r.Some? ==> r.value != [] && ValidPath(t, r.value) && m(selector, At(t, r.value))
    ensures r.None? ==> forall q :: ValidPath(t, q) && q != [] && q[0] >= i ==> !m(selector, At(t, q))
    decreases t, 0, |t.children| - i
  {
    if i == |t.children| then None
    else if m(selector, t.children[i]) then Some([i])
    else match FindOne(m, selector, t.children[i])
      case Some(p) =>
        assert ([i] + p)[1..] == p;
        Some([i] + p)
      case None =>
        var rest := FindFrom(m, selector, t, i + 1);
        assert rest.None? ==> forall q :: ValidPath(t, q) && q != [] && q[0] == i ==> !m(selector, At(t, q)) by {
          forall q | ValidPath(t, q) && q != [] && q[0] == i && rest.None?
            ensures !m(selector, At(t, q))
          {
            if q[1..] != [] {
              assert ValidPath(t.children[i], q[1..]);
            }
          }
        }
        rest
  }
}
