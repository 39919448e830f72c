/**
 * The XML element tree both editors work on, and the tag-path operations they
 * perform on it: ElementPath-style lookup of `./a/b/c` (lxml's `findall`,
 * metapype's `find_all_nodes_by_path`), removing every match from its parent,
 * and appending a new child under the nodes of a parent path.
 *
 * A document is held as one `Element` value; an editor that "changes the tree
 * in place" replaces its root with the updated value.
 */
module ElementTree {
  import opened Wrappers

  /** One XML element: tag, optional text, attributes and ordered children. */
  datatype Element = Element(
    tag: string,
    text: Option<string>,
    attrib: map<string, string>,
    children: seq<Element>)

  /** A new element with a tag and a text and nothing else. */
  function TextElement(tag: string, text: string): Element
  {
    Element(tag, Some(text), map[], [])
  }

  /** A path minus its last segment: the path of the parents of its matches. */
  function Parent(path: seq<string>): seq<string>
    requires path != []
  {
    path[..|path| - 1]
  }

  function Last(path: seq<string>): string
    requires path != []
  {
    path[|path| - 1]
  }

  // ---------------------------------------------------------------------------
  // Lookup
  // ---------------------------------------------------------------------------

  /**
   * The elements reached from `e` by following `path` tag by tag through the
   * children, in document order. The empty path reaches `e` itself, so
   * `Find(root, ["dataset", "title"])` is `root.findall('./dataset/title')`.
   */
  function Find(e: Element, path: seq<string>): seq<Element>
    decreases |path|, 1, 0
  {
    if path == [] then [e] else FindIn(e.children, path)
  }

  /** The matches of `path` among the siblings `cs` and below them. */
  function FindIn(cs: seq<Element>, path: seq<string>): seq<Element>
    requires path != []
    decreases |path|, 0, |cs|
  {
    if cs == [] then []
    else (if cs[0].tag == path[0] then Find(cs[0], path[1..]) else []) + FindIn(cs[1..], path)
  }

  /** The matches of `path` below each of `es`, concatenated in order. */
  function FindAll(es: seq<Element>, path: seq<string>): seq<Element>
  {
    if es == [] then [] else Find(es[0], path) + FindAll(es[1..], path)
  }

  // ---------------------------------------------------------------------------
  // Edits applied to the matches of a path
  // ---------------------------------------------------------------------------

  /** What an editor does to a parent element. */
  datatype Edit =
    | DropTag(dropped: string)         // remove every child with this tag
    | AppendChild(child: Element)      // append a child as the last one
    | Then(first: Edit, second: Edit)  // one edit after the other

  /** The children whose tag is not `t`, in their order. */
  function Without(cs: seq<Element>, t: string): seq<Element>
  {
    if cs == [] then [] else (if cs[0].tag == t then [] else [cs[0]]) + Without(cs[1..], t)
  }

  /** An edit changes the children of an element and nothing else. */
  function ApplyEdit(ed: Edit, e: Element): (r: Element)
    ensures r.tag == e.tag && r.text == e.text && r.attrib == e.attrib
  {
    match ed
    case DropTag(t) => e.(children := Without(e.children, t))
    case AppendChild(x) => e.(children := e.children + [x])
    case Then(a, b) => ApplyEdit(b, ApplyEdit(a, e))
  }

  function ApplyAll(ed: Edit, es: seq<Element>): seq<Element>
  {
    if es == [] then [] else [ApplyEdit(ed, es[0])] + ApplyAll(ed, es[1..])
  }

  /** `e` with `ed` applied to every element that `path` reaches. */
  function Modify(e: Element, path: seq<string>, ed: Edit): (r: Element)
    ensures r.tag == e.tag
    decreases |path|, 1, 0
  {
    if path == [] then ApplyEdit(ed, e) else e.(children := ModifyIn(e.children, path, ed))
  }

  function ModifyIn(cs: seq<Element>, path: seq<string>, ed: Edit): seq<Element>
    requires path != []
    decreases |path|, 0, |cs|
  {
    if cs == [] then []
    else [if cs[0].tag == path[0] then Modify(cs[0], path[1..], ed) else cs[0]]
         + ModifyIn(cs[1..], path, ed)
  }

  /** Every match of `path` detached from its parent. */
  function DeleteAll(e: Element, path: seq<string>): Element
    requires path != []
  {
    Modify(e, Parent(path), DropTag(Last(path)))
  }

  /** `x` appended as the last child of every match of `parent`. */
  function AppendUnder(e: Element, parent: seq<string>, x: Element): Element
  {
    Modify(e, parent, AppendChild(x))
  }

  /** Delete every `parent/x.tag`, then append `x` under `parent`. */
  function Replace(e: Element, parent: seq<string>, x: Element): Element
  {
    AppendUnder(DeleteAll(e, parent + [x.tag]), parent, x)
  }

  // ---------------------------------------------------------------------------
  // Removing the matches one at a time
  // ---------------------------------------------------------------------------

  /** The children with the first one tagged `t` removed. */
  function DropFirst(cs: seq<Element>, t: string): seq<Element>
  {
    if cs == [] then [] else if cs[0].tag == t then cs[1..] else [cs[0]] + DropFirst(cs[1..], t)
  }

  /** `e` with its first match (in document order) of `path` detached. */
  function RemoveFirst(e: Element, path: seq<string>): Element
    requires path != []
  {
    RemoveFirstBelow(e, Parent(path), Last(path))
  }

  function RemoveFirstBelow(e: Element, parent: seq<string>, t: string): Element
    decreases |parent|, 1, 0
  {
    if parent == [] then e.(children := DropFirst(e.children, t))
    else e.(children := RemoveFirstIn(e.children, parent, t))
  }

  function RemoveFirstIn(cs: seq<Element>, parent: seq<string>, t: string): seq<Element>
    requires parent != []
    decreases |parent|, 0, |cs|
  {
    if cs == [] then []
    else if cs[0].tag == parent[0] && Find(cs[0], parent[1..] + [t]) != [] then
      [RemoveFirstBelow(cs[0], parent[1..], t)] + cs[1..]
    else [cs[0]] + RemoveFirstIn(cs[1..], parent, t)
  }

  /**
   * `for elm in root.findall(path): elm.getparent().remove(elm)`: the matches
   * are collected first and detached one after the other.
   */
  method RemoveMatches(e: Element, path: seq<string>) returns (r: Element)
    requires path != []
    ensures r == DeleteAll(e, path)
    ensures Find(r, path) == []
  {
    var matches := Find(e, path);
    r := e;
    assert path == Parent(path) + [Last(path)];
    for i := 0 to |matches|
      invariant Find(r, path) == matches[i..]
      invariant DeleteAll(r, path) == DeleteAll(e, path)
    {
      RemoveFirstFind(r, Parent(path), Last(path));
      RemoveFirstDelete(r, Parent(path), Last(path));
      r := RemoveFirst(r, path);
    }
    DeleteNothing(r, path);
  }

  // ---------------------------------------------------------------------------
  // Lemmas about lookup
  // ---------------------------------------------------------------------------

  lemma {:induction false} FindAllConcat(a: seq<Element>, b: seq<Element>, path: seq<string>)
    ensures FindAll(a + b, path) == FindAll(a, path) + FindAll(b, path)
  {
    if a == [] {
      assert a + b == b;
    } else {
      assert (a + b)[0] == a[0] && (a + b)[1..] == a[1..] + b;
      FindAllConcat(a[1..], b, path);
    }
  }

  lemma {:induction false} FindInConcat(a: seq<Element>, b: seq<Element>, path: seq<string>)
    requires path != []
    ensures FindIn(a + b, path) == FindIn(a, path) + FindIn(b, path)
  {
    if a == [] {
      assert a + b == b;
    } else {
      assert (a + b)[0] == a[0] && (a + b)[1..] == a[1..] + b;
      FindInConcat(a[1..], b, path);
    }
  }

  /** Following `q + r` is following `q`, then `r` from each match of `q`. */
  lemma {:induction false} FindSplit(e: Element, q: seq<string>, r: seq<string>)
    ensures Find(e, q + r) == FindAll(Find(e, q), r)
    decreases |q|, 1, 0
  {
    if q == [] {
      assert q + r == r;
      assert FindAll([e], r) == Find(e, r) + FindAll([], r);
    } else {
      FindInSplit(e.children, q, r);
    }
  }

  lemma {:induction false} FindInSplit(cs: seq<Element>, q: seq<string>, r: seq<string>)
    requires q != []
    ensures FindIn(cs, q + r) == FindAll(FindIn(cs, q), r)
    decreases |q|, 0, |cs|
  {
    if cs != [] {
      assert (q + r)[0] == q[0] && (q + r)[1..] == q[1..] + r;
      var head := if cs[0].tag == q[0] then Find(cs[0], q[1..]) else [];
      if cs[0].tag == q[0] {
        FindSplit(cs[0], q[1..], r);
      }
      FindInSplit(cs[1..], q, r);
      FindAllConcat(head, FindIn(cs[1..], q), r);
    }
  }

  /** Every match of a non-empty path carries the path's last tag. */
  lemma {:induction false} FindTag(e: Element, path: seq<string>, m: Element)
    requires path != [] && m in Find(e, path)
    ensures m.tag == Last(path)
    decreases |path|, 1, 0
  {
    FindInTag(e.children, path, m);
  }

  lemma {:induction false} FindInTag(cs: seq<Element>, path: seq<string>, m: Element)
    requires path != [] && m in FindIn(cs, path)
    ensures m.tag == Last(path)
    decreases |path|, 0, |cs|
  {
    var head := if cs[0].tag == path[0] then Find(cs[0], path[1..]) else [];
    if m in head {
      if path[1..] == [] {
        assert m == cs[0];
      } else {
        FindTag(cs[0], path[1..], m);
        assert Last(path[1..]) == Last(path);
      }
    } else {
      FindInTag(cs[1..], path, m);
    }
  }

  lemma {:induction false} FindAllEmpty(es: seq<Element>, m: Element, path: seq<string>)
    requires m in es && FindAll(es, path) == []
    ensures Find(m, path) == []
  {
    if es[0] != m {
      FindAllEmpty(es[1..], m, path);
    }
  }

  // ---------------------------------------------------------------------------
  // Lemmas about edits
  // ---------------------------------------------------------------------------

  lemma {:induction false} ApplyAllConcat(ed: Edit, a: seq<Element>, b: seq<Element>)
    ensures ApplyAll(ed, a + b) == ApplyAll(ed, a) + ApplyAll(ed, b)
  {
    if a == [] {
      assert a + b == b;
    } else {
      assert (a + b)[0] == a[0] && (a + b)[1..] == a[1..] + b;
      ApplyAllConcat(ed, a[1..], b);
    }
  }

  lemma {:induction false} WithoutConcat(a: seq<Element>, b: seq<Element>, t: string)
    ensures Without(a + b, t) == Without(a, t) + Without(b, t)
  {
    if a == [] {
      assert a + b == b;
    } else {
      assert (a + b)[0] == a[0] && (a + b)[1..] == a[1..] + b;
      WithoutConcat(a[1..], b, t);
    }
  }

  /** Removing the `t` children leaves none for a lookup of `t`. */
  lemma {:induction false} WithoutFind(cs: seq<Element>, t: string)
    ensures FindIn(Without(cs, t), [t]) == []
    ensures Without(Without(cs, t), t) == Without(cs, t)
  {
    if cs != [] {
      WithoutFind(cs[1..], t);
      var head := if cs[0].tag == t then [] else [cs[0]];
      WithoutConcat(head, Without(cs[1..], t), t);
      FindInConcat(head, Without(cs[1..], t), [t]);
    }
  }

  /** Children none of which is tagged `t` are untouched by removing `t`. */
  lemma {:induction false} WithoutUnmatched(cs: seq<Element>, t: string)
    requires FindIn(cs, [t]) == []
    ensures Without(cs, t) == cs
  {
    if cs != [] {
      var c := cs[0];
      assert [t][1..] == [] && Find(c, []) == [c];
      assert FindIn(cs, [t]) == (if c.tag == t then [c] else []) + FindIn(cs[1..], [t]);
      WithoutUnmatched(cs[1..], t);
      assert cs == [cs[0]] + cs[1..];
    }
  }

  /**
   * `r` is `e` edited along `path` and nowhere else: `e` keeps its tag, text
   * and attributes, and each child keeps its place; a child tagged `path[0]`
   * is edited along the rest of the path, and every other child is as it was.
   */
  predicate EditedBelow(e: Element, r: Element, path: seq<string>, ed: Edit)
    requires path != []
  {
    r.tag == e.tag && r.text == e.text && r.attrib == e.attrib
    && |r.children| == |e.children|
    && forall i | 0 <= i < |e.children| ::
         r.children[i] == if e.children[i].tag == path[0] then Modify(e.children[i], path[1..], ed) else e.children[i]
  }

  /** Editing the matches of a path changes nothing off that path. */
  lemma ModifyFrame(e: Element, path: seq<string>, ed: Edit)
    requires path != []
    ensures EditedBelow(e, Modify(e, path, ed), path, ed)
  {
    ModifyInFrame(e.children, path, ed);
  }

  lemma {:induction false} ModifyInFrame(cs: seq<Element>, path: seq<string>, ed: Edit)
    requires path != []
    ensures |ModifyIn(cs, path, ed)| == |cs|
    ensures forall i | 0 <= i < |cs| ::
      ModifyIn(cs, path, ed)[i] == if cs[i].tag == path[0] then Modify(cs[i], path[1..], ed) else cs[i]
  {
    if cs != [] {
      ModifyInFrame(cs[1..], path, ed);
      var r := ModifyIn(cs, path, ed);
      assert r[1..] == ModifyIn(cs[1..], path, ed);
      forall i | 1 <= i < |cs|
        ensures r[i] == if cs[i].tag == path[0] then Modify(cs[i], path[1..], ed) else cs[i]
      {
        assert r[i] == r[1..][i - 1] && cs[i] == cs[1..][i - 1];
      }
    }
  }

  /** The matches of `path` after editing them are the edited matches. */
  lemma {:induction false} ModifyFind(e: Element, path: seq<string>, ed: Edit)
    ensures Find(Modify(e, path, ed), path) == ApplyAll(ed, Find(e, path))
    decreases |path|, 1, 0
  {
    if path != [] {
      ModifyInFind(e.children, path, ed);
    }
  }

  lemma {:induction false} ModifyInFind(cs: seq<Element>, path: seq<string>, ed: Edit)
    requires path != []
    ensures FindIn(ModifyIn(cs, path, ed), path) == ApplyAll(ed, FindIn(cs, path))
    decreases |path|, 0, |cs|
  {
    if cs != [] {
      var m := ModifyIn(cs, path, ed);
      assert m[0] == (if cs[0].tag == path[0] then Modify(cs[0], path[1..], ed) else cs[0]);
      assert m[1..] == ModifyIn(cs[1..], path, ed);
      var head := if cs[0].tag == path[0] then Find(cs[0], path[1..]) else [];
      if cs[0].tag == path[0] {
        ModifyFind(cs[0], path[1..], ed);
      }
      ModifyInFind(cs[1..], path, ed);
      ApplyAllConcat(ed, head, FindIn(cs[1..], path));
    }
  }

  /** An edit that leaves every match as it is leaves the tree as it is. */
  lemma {:induction false} ModifyFixed(e: Element, path: seq<string>, ed: Edit)
    requires forall m | m in Find(e, path) :: ApplyEdit(ed, m) == m
    ensures Modify(e, path, ed) == e
    decreases |path|, 1, 0
  {
    if path != [] {
      ModifyInFixed(e.children, path, ed);
    }
  }

  lemma {:induction false} ModifyInFixed(cs: seq<Element>, path: seq<string>, ed: Edit)
    requires path != []
    requires forall m | m in FindIn(cs, path) :: ApplyEdit(ed, m) == m
    ensures ModifyIn(cs, path, ed) == cs
    decreases |path|, 0, |cs|
  {
    if cs != [] {
      var head := if cs[0].tag == path[0] then Find(cs[0], path[1..]) else [];
      assert FindIn(cs, path) == head + FindIn(cs[1..], path);
      if cs[0].tag == path[0] {
        ModifyFixed(cs[0], path[1..], ed);
      }
      ModifyInFixed(cs[1..], path, ed);
      assert cs == [cs[0]] + cs[1..];
    }
  }

  /** Two edits of the same matches, one after the other, are one `Then` edit. */
  lemma {:induction false} ModifyCompose(e: Element, path: seq<string>, a: Edit, b: Edit)
    ensures Modify(Modify(e, path, a), path, b) == Modify(e, path, Then(a, b))
    decreases |path|, 1, 0
  {
    if path != [] {
      ModifyInCompose(e.children, path, a, b);
    }
  }

  lemma {:induction false} ModifyInCompose(cs: seq<Element>, path: seq<string>, a: Edit, b: Edit)
    requires path != []
    ensures ModifyIn(ModifyIn(cs, path, a), path, b) == ModifyIn(cs, path, Then(a, b))
    decreases |path|, 0, |cs|
  {
    if cs != [] {
      var m := ModifyIn(cs, path, a);
      assert m[0] == (if cs[0].tag == path[0] then Modify(cs[0], path[1..], a) else cs[0]);
      assert m[1..] == ModifyIn(cs[1..], path, a);
      if cs[0].tag == path[0] {
        ModifyCompose(cs[0], path[1..], a, b);
      }
      ModifyInCompose(cs[1..], path, a, b);
    }
  }

  ghost predicate IdempotentEdit(ed: Edit)
  {
    forall c :: ApplyEdit(ed, ApplyEdit(ed, c)) == ApplyEdit(ed, c)
  }

  /** Applying an idempotent edit to the same matches twice is applying it once. */
  lemma {:induction false} ModifyIdempotent(e: Element, path: seq<string>, ed: Edit)
    requires IdempotentEdit(ed)
    ensures Modify(Modify(e, path, ed), path, ed) == Modify(e, path, ed)
    decreases |path|, 1, 0
  {
    if path != [] {
      ModifyInIdempotent(e.children, path, ed);
    }
  }

  lemma {:induction false} ModifyInIdempotent(cs: seq<Element>, path: seq<string>, ed: Edit)
    requires path != [] && IdempotentEdit(ed)
    ensures ModifyIn(ModifyIn(cs, path, ed), path, ed) == ModifyIn(cs, path, ed)
    decreases |path|, 0, |cs|
  {
    if cs != [] {
      var m := ModifyIn(cs, path, ed);
      assert m[0] == (if cs[0].tag == path[0] then Modify(cs[0], path[1..], ed) else cs[0]);
      assert m[1..] == ModifyIn(cs[1..], path, ed);
      if cs[0].tag == path[0] {
        ModifyIdempotent(cs[0], path[1..], ed);
      }
      ModifyInIdempotent(cs[1..], path, ed);
    }
  }

  // ---------------------------------------------------------------------------
  // Delete, append, replace
  // ---------------------------------------------------------------------------

  /**
   * After deleting, nothing matches `path`, and each parent of a former match
   * keeps exactly its other children, in their order.
   */
  lemma {:induction false} DeleteAllFind(e: Element, path: seq<string>)
    requires path != []
    ensures Find(DeleteAll(e, path), path) == []
    ensures Find(DeleteAll(e, path), Parent(path)) == ApplyAll(DropTag(Last(path)), Find(e, Parent(path)))
  {
    var q, t := Parent(path), Last(path);
    assert path == q + [t];
    ModifyFind(e, q, DropTag(t));
    FindSplit(DeleteAll(e, path), q, [t]);
    DroppedFindNothing(Find(e, q), t);
  }

  lemma {:induction false} DroppedFindNothing(es: seq<Element>, t: string)
    ensures FindAll(ApplyAll(DropTag(t), es), [t]) == []
  {
    if es != [] {
      WithoutFind(es[0].children, t);
      DroppedFindNothing(es[1..], t);
    }
  }

  /** Deleting where nothing matches leaves the tree unchanged. */
  lemma {:induction false} DeleteNothing(e: Element, path: seq<string>)
    requires path != [] && Find(e, path) == []
    ensures DeleteAll(e, path) == e
  {
    var q, t := Parent(path), Last(path);
    assert path == q + [t];
    FindSplit(e, q, [t]);
    forall m | m in Find(e, q)
      ensures ApplyEdit(DropTag(t), m) == m
    {
      FindAllEmpty(Find(e, q), m, [t]);
      WithoutUnmatched(m.children, t);
    }
    ModifyFixed(e, q, DropTag(t));
  }

  /**
   * With exactly one parent match `P`, replacing leaves `x` as the only match
   * of `parent + [x.tag]`, and `P` keeps its other children in order with `x`
   * appended as its last child.
   */
  lemma {:induction false} ReplaceFind(e: Element, parent: seq<string>, x: Element)
    requires |Find(e, parent)| == 1
    ensures var p := Find(e, parent)[0];
      Find(Replace(e, parent, x), parent) == [p.(children := Without(p.children, x.tag) + [x])]
    ensures Find(Replace(e, parent, x), parent + [x.tag]) == [x]
  {
    var t := x.tag;
    var p := Find(e, parent)[0];
    assert Find(e, parent) == [p];
    assert Parent(parent + [t]) == parent && Last(parent + [t]) == t;
    var d := DeleteAll(e, parent + [t]);
    ModifyFind(e, parent, DropTag(t));
    ModifyFind(d, parent, AppendChild(x));
    var p' := p.(children := Without(p.children, t) + [x]);
    assert Find(Replace(e, parent, x), parent) == [p'];
    FindSplit(Replace(e, parent, x), parent, [t]);
    assert FindAll([p'], [t]) == Find(p', [t]) + FindAll([], [t]);
    FindInConcat(Without(p.children, t), [x], [t]);
    WithoutFind(p.children, t);
    assert FindIn([x], [t]) == Find(x, []) + FindIn([], [t]);
  }

  /** With exactly one parent match, appending adds `x` after the existing matches. */
  lemma {:induction false} AppendUnderFind(e: Element, parent: seq<string>, x: Element)
    requires |Find(e, parent)| == 1
    ensures Find(AppendUnder(e, parent, x), parent + [x.tag]) == Find(e, parent + [x.tag]) + [x]
  {
    var t := x.tag;
    var p := Find(e, parent)[0];
    assert Find(e, parent) == [p];
    ModifyFind(e, parent, AppendChild(x));
    var p' := p.(children := p.children + [x]);
    FindSplit(AppendUnder(e, parent, x), parent, [t]);
    FindSplit(e, parent, [t]);
    assert FindAll([p'], [t]) == Find(p', [t]) + FindAll([], [t]);
    assert FindAll([p], [t]) == Find(p, [t]) + FindAll([], [t]);
    FindInConcat(p.children, [x], [t]);
    assert FindIn([x], [t]) == Find(x, []) + FindIn([], [t]);
  }

  lemma {:induction false} ModifyInConcat(a: seq<Element>, b: seq<Element>, path: seq<string>, ed: Edit)
    requires path != []
    ensures ModifyIn(a + b, path, ed) == ModifyIn(a, path, ed) + ModifyIn(b, path, ed)
  {
    if a == [] {
      assert a + b == b;
    } else {
      var c := a[0];
      var head := [if c.tag == path[0] then Modify(c, path[1..], ed) else c];
      assert (a + b)[0] == c && (a + b)[1..] == a[1..] + b;
      ModifyInConcat(a[1..], b, path, ed);
      assert ModifyIn(a + b, path, ed) == head + (ModifyIn(a[1..], path, ed) + ModifyIn(b, path, ed));
      assert ModifyIn(a, path, ed) == head + ModifyIn(a[1..], path, ed);
    }
  }

  /** After adding an empty `t` child to an element that has none, it is the only `t` child. */
  lemma {:induction false} SubElementFind(e: Element, t: string)
    requires FindIn(e.children, [t]) == []
    ensures Find(AppendUnder(e, [], Element(t, None, map[], [])), [t]) == [Element(t, None, map[], [])]
  {
    var c := Element(t, None, map[], []);
    assert AppendUnder(e, [], c).children == e.children + [c];
    FindInConcat(e.children, [c], [t]);
    assert FindIn([c], [t]) == Find(c, []) + FindIn([], [t]);
  }

  /**
   * Adding an empty `t` child to an element that has none, then appending `x`
   * under the `t` children, adds one last child `t` holding just `x`.
   */
  lemma {:induction false} SubElementThenAppend(e: Element, t: string, x: Element)
    requires FindIn(e.children, [t]) == []
    ensures AppendUnder(AppendUnder(e, [], Element(t, None, map[], [])), [t], x)
         == e.(children := e.children + [Element(t, None, map[], [x])])
  {
    var c := Element(t, None, map[], []);
    var ed := AppendChild(x);
    var r := AppendUnder(e, [], c);
    assert r.children == e.children + [c];
    ModifyInConcat(e.children, [c], [t], ed);
    ModifyInFixed(e.children, [t], ed);
    var tail := ModifyIn([c], [t], ed);
    assert tail == [Modify(c, [], ed)] + ModifyIn([], [t], ed);
    assert Modify(c, [], ed) == Element(t, None, map[], [x]);
    assert AppendUnder(r, [t], x) == r.(children := ModifyIn(r.children, [t], ed));
  }

  /** Replacing is appending when there was nothing to delete. */
  lemma {:induction false} ReplaceWithoutMatches(e: Element, parent: seq<string>, x: Element)
    requires Find(e, parent + [x.tag]) == []
    ensures Replace(e, parent, x) == AppendUnder(e, parent, x)
  {
    DeleteNothing(e, parent + [x.tag]);
  }

  /** Replacing twice with the same element is replacing once. */
  lemma {:induction false} ReplaceIdempotent(e: Element, parent: seq<string>, x: Element)
    ensures Replace(Replace(e, parent, x), parent, x) == Replace(e, parent, x)
  {
    var t := x.tag;
    var ed := Then(DropTag(t), AppendChild(x));
    assert Parent(parent + [t]) == parent && Last(parent + [t]) == t;
    ModifyCompose(e, parent, DropTag(t), AppendChild(x));
    var r := Replace(e, parent, x);
    ModifyCompose(r, parent, DropTag(t), AppendChild(x));
    forall c | true
      ensures ApplyEdit(ed, ApplyEdit(ed, c)) == ApplyEdit(ed, c)
    {
      var once := Without(c.children, t) + [x];
      WithoutConcat(Without(c.children, t), [x], t);
      WithoutFind(c.children, t);
      assert Without([x], t) == [] + Without([], t);
      assert Without(once, t) == Without(c.children, t);
    }
    ModifyIdempotent(e, parent, ed);
  }

  // ---------------------------------------------------------------------------
  // Lemmas for the one-at-a-time removal
  // ---------------------------------------------------------------------------

  lemma {:induction false} DropFirstFind(cs: seq<Element>, t: string)
    requires FindIn(cs, [t]) != []
    ensures FindIn(DropFirst(cs, t), [t]) == FindIn(cs, [t])[1..]
  {
    assert [t][1..] == [];
    if cs[0].tag == t {
      assert FindIn(cs, [t]) == [cs[0]] + FindIn(cs[1..], [t]);
    } else {
      DropFirstFind(cs[1..], t);
      var r := [cs[0]] + DropFirst(cs[1..], t);
      assert r[0] == cs[0] && r[1..] == DropFirst(cs[1..], t);
    }
  }

  lemma {:induction false} DropFirstWithout(cs: seq<Element>, t: string)
    ensures Without(DropFirst(cs, t), t) == Without(cs, t)
  {
    if cs != [] && cs[0].tag != t {
      DropFirstWithout(cs[1..], t);
      var r := [cs[0]] + DropFirst(cs[1..], t);
      assert r[0] == cs[0] && r[1..] == DropFirst(cs[1..], t);
    }
  }

  /** Detaching the first match leaves the remaining matches, in order. */
  lemma {:induction false} RemoveFirstFind(e: Element, parent: seq<string>, t: string)
    requires Find(e, parent + [t]) != []
    ensures Find(RemoveFirstBelow(e, parent, t), parent + [t]) == Find(e, parent + [t])[1..]
    decreases |parent|, 1, 0
  {
    if parent == [] {
      assert parent + [t] == [t];
      DropFirstFind(e.children, t);
    } else {
      RemoveFirstInFind(e.children, parent, t);
    }
  }

  lemma {:induction false} RemoveFirstInFind(cs: seq<Element>, parent: seq<string>, t: string)
    requires parent != [] && FindIn(cs, parent + [t]) != []
    ensures FindIn(RemoveFirstIn(cs, parent, t), parent + [t]) == FindIn(cs, parent + [t])[1..]
    decreases |parent|, 0, |cs|
  {
    var p := parent + [t];
    assert p[0] == parent[0] && p[1..] == parent[1..] + [t];
    var head := if cs[0].tag == parent[0] then Find(cs[0], parent[1..] + [t]) else [];
    assert FindIn(cs, p) == head + FindIn(cs[1..], p);
    if cs[0].tag == parent[0] && head != [] {
      RemoveFirstFind(cs[0], parent[1..], t);
      var r := [RemoveFirstBelow(cs[0], parent[1..], t)] + cs[1..];
      assert r[0] == RemoveFirstBelow(cs[0], parent[1..], t) && r[1..] == cs[1..];
      assert FindIn(r, p) == head[1..] + FindIn(cs[1..], p);
    } else {
      RemoveFirstInFind(cs[1..], parent, t);
      var r := [cs[0]] + RemoveFirstIn(cs[1..], parent, t);
      assert r[0] == cs[0] && r[1..] == RemoveFirstIn(cs[1..], parent, t);
    }
  }

  /** Detaching the first match does not change what deleting all of them gives. */
  lemma {:induction false} RemoveFirstDelete(e: Element, parent: seq<string>, t: string)
    ensures Modify(RemoveFirstBelow(e, parent, t), parent, DropTag(t)) == Modify(e, parent, DropTag(t))
    decreases |parent|, 1, 0
  {
    if parent == [] {
      DropFirstWithout(e.children, t);
    } else {
      RemoveFirstInDelete(e.children, parent, t);
    }
  }

  lemma {:induction false} RemoveFirstInDelete(cs: seq<Element>, parent: seq<string>, t: string)
    requires parent != []
    ensures ModifyIn(RemoveFirstIn(cs, parent, t), parent, DropTag(t)) == ModifyIn(cs, parent, DropTag(t))
    decreases |parent|, 0, |cs|
  {
    if cs != [] {
      if cs[0].tag == parent[0] && Find(cs[0], parent[1..] + [t]) != [] {
        RemoveFirstDelete(cs[0], parent[1..], t);
        var r := [RemoveFirstBelow(cs[0], parent[1..], t)] + cs[1..];
        assert r[0] == RemoveFirstBelow(cs[0], parent[1..], t) && r[1..] == cs[1..];
      } else {
        RemoveFirstInDelete(cs[1..], parent, t);
        var r := [cs[0]] + RemoveFirstIn(cs[1..], parent, t);
        assert r[0] == cs[0] && r[1..] == RemoveFirstIn(cs[1..], parent, t);
      }
    }
  }
}
