/**
 * `Eml`: an EML document held as a metapype `Node` tree, with the title
 * operations and the node lookup they share. The lookup table is a parameter
 * of each operation, so that both the shipped table and a table holding every
 * key the code reads can be reasoned about.
 */
module Eml {
  import opened Wrappers
  import opened ElementTree
  import opened EmlConstants
  import Xpath

  /** The `AssertionError`s the title methods raise, catch and print. */
  datatype Reason =
    | Blank         // the title is `None` or empty
    | TooShort      // the title has fewer than three characters
    | NotOneParent  // the parent path does not match exactly one node

  /** How a title method ends. */
  datatype Outcome =
    | Done
    | Raised(error: LookupError)  // an uncaught exception reaches the caller
    | Caught(reason: Reason)      // an assertion failed; nothing was changed

  /** What `_get_node` does with the nodes it found. */
  datatype NodeResult =
    | Returned(nodes: seq<Element>)  // `pretty=False`: the nodes are returned
    | Shown(xpath: string)           // `pretty=True`: `show_overview(xpath)` displays them
    | Missing                        // no node: `MissingNodeException` is raised and caught

  /** `Node(names.EML)` with the attribute `system="metapype"`. */
  function EmptyEml(): Element
  {
    Element(EML, None, map["system" := "metapype"], [])
  }

  /** The node `set_title` adds: tagged with the path's last name, its content the title. */
  function NewNode(path: seq<string>, title: string): Element
    requires path != []
  {
    Element(Last(path), Some(title), map[], [])
  }

  /**
   * The nodes `show_overview` displays for a string xpath: `None` when its
   * assertion that the xpath starts with `./` fails, which nothing catches,
   * so the caller receives an `AssertionError`. Prefixing each segment
   * with `names.` only rebinds the loop variable, so the segments are looked
   * up as they are.
   */
  function OverviewOf(root: Element, xpath: string): Option<seq<Element>>
  {
    match Xpath.Parse(xpath)
    case None => None
    case Some(segments) => Some(Find(root, segments))
  }

  /** `set_title(title)`: how it ends and the tree it leaves. */
  function SetTitleSpec(root: Element, table: Table, title: Option<string>): (Outcome, Element)
    requires PathsNested(table)
  {
    match PathOf(table, "title")
    case Failure(e) => (Raised(e), root)
    case Success(path) =>
      match ParentOf(table, "title")
      case Failure(e) => (Raised(e), root)
      case Success(parent) =>
        match NodeTargetOf(table, "title")
        case Failure(e) => (Raised(e), root)
        case Success(_) =>
          if title.None? || title.value == "" then (Caught(Blank), root)
          else if |title.value| < 3 then (Caught(TooShort), root)
          else if |Find(root, parent)| != 1 then (Caught(NotOneParent), root)
          else (Done, Replace(root, parent, NewNode(path, title.value)))
  }

  /** `delete_title()`: how it ends and the tree it leaves. */
  function DeleteTitleSpec(root: Element, table: Table): (Outcome, Element)
    requires PathsNested(table)
  {
    match PathOf(table, "title")
    case Failure(e) => (Raised(e), root)
    case Success(path) =>
      match ParentOf(table, "title")
      case Failure(e) => (Raised(e), root)
      case Success(parent) =>
        if |Find(root, parent)| != 1 then (Caught(NotOneParent), root)
        else (Done, DeleteAll(root, path))
  }

  class Eml {
    /** The root node of the document. */
    var root: Element
    /**
     * Whether the document runs interactively: `get_title` then shows the
     * title nodes instead of returning them.
     */
    const interactive: bool

    /** `Eml()` without a file: an empty `eml` root. */
    constructor Empty(interactive: bool)
      ensures root == EmptyEml() && this.interactive == interactive
    {
      root := EmptyEml();
      this.interactive := interactive;
    }

    /** `show_overview(xpath)` for a string xpath: the nodes it displays. */
    function Overview(xpath: string): Option<seq<Element>>
      reads this
    {
      OverviewOf(root, xpath)
    }

    /**
     * `_get_node(path, target, pretty, quiet)`: collect the nodes at `path`
     * one by one, then return them, or show them through the xpath built from
     * `path`.
     */
    method GetNode(path: seq<string>, pretty: bool) returns (r: NodeResult)
      requires path != []
      ensures Find(root, path) == [] ==> r == Missing
      ensures Find(root, path) != [] && !pretty ==> r == Returned(Find(root, path))
      ensures Find(root, path) != [] && pretty ==> r == Shown(Xpath.Build(path))
    {
      var nodes := Find(root, path);
      var targetNodes: seq<Element> := [];
      for i := 0 to |nodes|
        invariant targetNodes == nodes[..i]
      {
        targetNodes := targetNodes + [nodes[i]];
      }
      if |targetNodes| == 0 {
        return Missing;
      }
      var nodeXpath := Xpath.Build(path);
      if pretty {
        return Shown(nodeXpath);
      }
      return Returned(targetNodes);
    }

    /**
     * `get_title()`: the title nodes, returned only when not interactive and
     * when there are some; a missing `path` or `target` key is raised.
     */
    method GetTitle(table: Table) returns (r: Result<Option<seq<Element>>, LookupError>)
      requires PathsNested(table)
      ensures PathOf(table, "title").Failure? ==> r == Failure(PathOf(table, "title").error)
      ensures PathOf(table, "title").Success? && TargetOf(table, "title").Failure? ==>
        r == Failure(TargetOf(table, "title").error)
      ensures PathOf(table, "title").Success? && TargetOf(table, "title").Success? ==>
        var nodes := Find(root, PathOf(table, "title").value);
        r == Success(if interactive || nodes == [] then None else Some(nodes))
    {
      var path := PathOf(table, "title");
      if path.Failure? {
        return Failure(path.error);
      }
      var target := TargetOf(table, "title");
      if target.Failure? {
        return Failure(target.error);
      }
      if interactive {
        var shown := GetNode(path.value, true);
        return Success(None);
      }
      var node := GetNode(path.value, false);
      if node.Returned? {
        return Success(Some(node.nodes));
      }
      return Success(None);
    }

    /** `delete_title()`. */
    method DeleteTitle(table: Table) returns (outcome: Outcome)
      requires PathsNested(table)
      modifies this
      ensures (outcome, root) == DeleteTitleSpec(old(root), table)
    {
      var path := PathOf(table, "title");
      if path.Failure? {
        return Raised(path.error);
      }
      var parent := ParentOf(table, "title");
      if parent.Failure? {
        return Raised(parent.error);
      }
      var parents := Find(root, parent.value);
      if |parents| != 1 {
        return Caught(NotOneParent);
      }
      root := RemoveMatches(root, path.value);
      return Done;
    }

    /** `set_title(title)`. */
    method SetTitle(table: Table, title: Option<string>) returns (outcome: Outcome)
      requires PathsNested(table)
      modifies this
      ensures (outcome, root) == SetTitleSpec(old(root), table, title)
    {
      var path := PathOf(table, "title");
      if path.Failure? {
        return Raised(path.error);
      }
      var parent := ParentOf(table, "title");
      if parent.Failure? {
        return Raised(parent.error);
      }
      var nodeTarget := NodeTargetOf(table, "title");
      if nodeTarget.Failure? {
        return Raised(nodeTarget.error);
      }
      if title.None? || title.value == "" {
        return Caught(Blank);
      }
      if |title.value| < 3 {
        return Caught(TooShort);
      }
      assert Nested(table["title"]);
      var nodes := Find(root, path.value);
      var parents := Find(root, parent.value);
      if |parents| != 1 {
        return Caught(NotOneParent);
      }
      var newNode := NewNode(path.value, title.value);
      assert path.value == parent.value + [newNode.tag];
      if |nodes| == 0 {
        ReplaceWithoutMatches(root, parent.value, newNode);
        root := AppendUnder(root, parent.value, newNode);
      } else {
        ghost var before := root;
        var deleted := DeleteTitle(table);
        DeleteAllFind(before, path.value);
        root := AppendUnder(root, parent.value, newNode);
      }
      return Done;
    }
  }

  // ---------------------------------------------------------------------------
  // Lemmas
  // ---------------------------------------------------------------------------

  /** The table holds every key `set_title` reads for `title`. */
  predicate SetTitleKeys(table: Table)
  {
    PathOf(table, "title").Success? && ParentOf(table, "title").Success?
    && NodeTargetOf(table, "title").Success?
  }

  /**
   * A title that is `None`, empty or shorter than three characters is
   * rejected by a caught assertion, and the tree is left unchanged.
   */
  lemma SetTitleValidates(root: Element, table: Table, title: Option<string>)
    requires PathsNested(table) && SetTitleKeys(table)
    requires title.None? || |title.value| < 3
    ensures SetTitleSpec(root, table, title).1 == root
    ensures SetTitleSpec(root, table, title).0
      == if title.None? || title.value == "" then Caught(Blank) else Caught(TooShort)
  {
  }

  /** Unless the parent path matches exactly one node, `set_title` changes nothing. */
  lemma SetTitleNeedsOneParent(root: Element, table: Table, title: string)
    requires PathsNested(table) && SetTitleKeys(table)
    requires |title| >= 3
    requires |Find(root, ParentOf(table, "title").value)| != 1
    ensures SetTitleSpec(root, table, Some(title)) == (Caught(NotOneParent), root)
  {
  }

  /**
   * A successful `set_title` leaves exactly one node at the path, the new one,
   * whether or not there were some before; it is the last child of the single
   * parent, whose other children keep their order. Nothing off the parent
   * path changes, and the root keeps its tag, text and attributes.
   */
  lemma SetTitleSucceeds(root: Element, table: Table, title: string)
    requires PathsNested(table) && SetTitleKeys(table)
    requires |title| >= 3
    requires |Find(root, ParentOf(table, "title").value)| == 1
    ensures var path, parent := PathOf(table, "title").value, ParentOf(table, "title").value;
      var (outcome, r) := SetTitleSpec(root, table, Some(title));
      var p := Find(root, parent)[0];
      outcome == Done
      && Find(r, path) == [NewNode(path, title)]
      && Find(r, parent) == [p.(children := Without(p.children, Last(path)) + [NewNode(path, title)])]
      && r.tag == root.tag && r.text == root.text && r.attrib == root.attrib
      && EditedBelow(root, r, parent, Then(DropTag(Last(path)), AppendChild(NewNode(path, title))))
  {
    var path, parent := PathOf(table, "title").value, ParentOf(table, "title").value;
    var x := NewNode(path, title);
    assert Nested(table["title"]);
    assert path == parent + [x.tag];
    ReplaceFind(root, parent, x);
    assert Parent(path) == parent && Last(path) == x.tag;
    ModifyCompose(root, parent, DropTag(x.tag), AppendChild(x));
    ModifyFrame(root, parent, Then(DropTag(x.tag), AppendChild(x)));
  }

  /**
   * With the shipped table `set_title` never gets past reading
   * `node_target`: it raises `KeyError` and leaves the tree as it was.
   */
  lemma ShippedSetTitleRaises(root: Element, title: Option<string>)
    ensures PathsNested(LOOKUPS)
    ensures SetTitleSpec(root, LOOKUPS, title) == (Raised(KeyError("node_target")), root)
  {
    LookupsNested();
    NoNodeTarget();
  }

  /**
   * A successful `delete_title` leaves no node at the path, and the single
   * parent keeps its other children in order; nothing off the parent path
   * changes, and the root keeps its tag, text and attributes. It fails only on
   * the parent count, leaving the tree unchanged.
   */
  lemma DeleteTitleEffect(root: Element, table: Table)
    requires PathsNested(table)
    requires PathOf(table, "title").Success? && ParentOf(table, "title").Success?
    ensures var path, parent := PathOf(table, "title").value, ParentOf(table, "title").value;
      var (outcome, r) := DeleteTitleSpec(root, table);
      if |Find(root, parent)| == 1 then
        var p := Find(root, parent)[0];
        outcome == Done && Find(r, path) == []
        && Find(r, parent) == [p.(children := Without(p.children, Last(path)))]
        && r.tag == root.tag && r.text == root.text && r.attrib == root.attrib
        && EditedBelow(root, r, parent, DropTag(Last(path)))
      else outcome == Caught(NotOneParent) && r == root
  {
    var path, parent := PathOf(table, "title").value, ParentOf(table, "title").value;
    assert Nested(table["title"]);
    if |Find(root, parent)| == 1 {
      DeleteAllFind(root, path);
      var p := Find(root, parent)[0];
      assert Find(root, parent) == [p];
      ModifyFrame(root, parent, DropTag(Last(path)));
    }
  }

  /**
   * The xpath `_get_node` builds makes `show_overview` display exactly the
   * nodes `_get_node` found, when no tag contains `/` or ends with `.`.
   */
  lemma OverviewShowsFound(root: Element, path: seq<string>)
    requires path != []
    requires forall i | 0 <= i < |path| :: Xpath.PlainSegment(path[i])
    ensures OverviewOf(root, Xpath.Build(path)) == Some(Find(root, path))
  {
    Xpath.ParseBuild(path);
  }

  /** `show_overview` rejects an xpath that does not start with `./`. */
  lemma OverviewNeedsRelative(root: Element, xpath: string)
    ensures OverviewOf(root, xpath).Some? <==> Xpath.StartsRelative(xpath)
  {
  }
}
