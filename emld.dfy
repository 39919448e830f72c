/**
 * `Emld`: an EML document parsed into an lxml element tree, with the get, set
 * and delete operations on the dataset title. Only the non-interactive paths
 * are modelled (`INTERACTIVE=False`, `pretty=False`, `quiet=True`).
 */
module Emld {
  import opened Wrappers
  import opened ElementTree
  import Xpath
  import Constants

  /** The ElementPath expressions the title methods pass to `findall`. */
  const TITLE_XPATH: string := "./dataset/title"
  const DATASET_XPATH: string := "./dataset"

  /** The tag paths those expressions denote. */
  const TITLE_PATH: seq<string> := ["dataset", "title"]
  const DATASET_PATH: seq<string> := ["dataset"]

  /** `etree.Element('title')` with its text set to `title`. */
  function TitleNode(title: string): Element
  {
    TextElement("title", title)
  }

  /** `etree.SubElement(root, 'dataset')`: a new, empty `dataset` element. */
  function EmptyDataset(): Element
  {
    Element("dataset", None, map[], [])
  }

  /** The single title match, if there is exactly one. */
  function TitleOf(root: Element): (r: Option<Element>)
    ensures r.Some? <==> |Find(root, TITLE_PATH)| == 1
    ensures r.Some? ==> Find(root, TITLE_PATH) == [r.value] && r.value.tag == "title"
  {
    var matches := Find(root, TITLE_PATH);
    if |matches| == 1 then
      FindTag(root, TITLE_PATH, matches[0]);
      Some(matches[0])
    else None
  }

  /**
   * Text lxml accepts as element content: tab, line feed, carriage return and
   * every character from the space on, except U+FFFE and U+FFFF. Assigning any
   * other string to `.text` raises `ValueError`.
   */
  predicate XmlCompatible(s: string)
  {
    forall i | 0 <= i < |s| ::
      s[i] == '\t' || s[i] == '\n' || s[i] == '\r'
      || (' ' <= s[i] && s[i] != '\U{FFFE}' && s[i] != '\U{FFFF}')
  }

  /**
   * The tree `set_title` leaves, by the number of `dataset` children and of
   * titles below them:
   *  - no dataset: a new last child `dataset` holding just the new title;
   *  - one dataset: an existing single title is removed and the new one is
   *    appended as the dataset's last child; with several titles none is
   *    removed, because `get_title` found none;
   *  - several datasets: the new title is appended to a Python list, not to
   *    the tree, and only a single existing title is removed.
   * A title lxml refuses raises when it is assigned, after the empty
   * `dataset` was added or the single title deleted; the handler catches it,
   * so those changes stay and no title is added.
   */
  function SetTitleResult(root: Element, title: string): Element
  {
    var datasets := Find(root, DATASET_PATH);
    var titles := Find(root, TITLE_PATH);
    if !XmlCompatible(title) then
      if |datasets| == 0 then AppendUnder(root, [], EmptyDataset()) else DeleteTitleResult(root)
    else if |datasets| == 0 then
      root.(children := root.children + [Element("dataset", None, map[], [TitleNode(title)])])
    else if |datasets| == 1 then
      if |titles| <= 1 then Replace(root, DATASET_PATH, TitleNode(title))
      else AppendUnder(root, DATASET_PATH, TitleNode(title))
    else if |titles| == 1 then DeleteAll(root, TITLE_PATH)
    else root
  }

  /** The tree `delete_title` leaves: every title removed, if `get_title` found exactly one. */
  function DeleteTitleResult(root: Element): Element
  {
    if |Find(root, TITLE_PATH)| == 1 then DeleteAll(root, TITLE_PATH) else root
  }

  class Emld {
    /** The root element of the parsed document. */
    var root: Element

    /** A document whose parsed root is `root`; reading and parsing the file is not modelled. */
    constructor(root: Element)
      ensures this.root == root
    {
      this.root := root;
    }

    /** `get_title()`: the title element when exactly one matches, else `None`. */
    function GetTitle(): (r: Option<Element>)
      reads this
      ensures r.Some? <==> |Find(root, TITLE_PATH)| == 1
      ensures r.Some? ==> Find(root, TITLE_PATH) == [r.value]
    {
      TitleOf(root)
    }

    /** `delete_title(quiet=True)`. */
    method DeleteTitle()
      modifies this
      ensures root == DeleteTitleResult(old(root))
    {
      var title := GetTitle();
      if title.Some? {
        root := RemoveMatches(root, TITLE_PATH);
      }
    }

    /**
     * `set_title(title)` on a non-interactive document; `problem` tells
     * whether the handler caught an exception and printed `set title problem`.
     */
    method SetTitle(title: string) returns (problem: bool)
      modifies this
      ensures root == SetTitleResult(old(root), title)
      ensures problem <==> !XmlCompatible(title)
    {
      ghost var before := root;
      var titleElement := GetTitle();
      assert TITLE_PATH == DATASET_PATH + ["title"];
      FindSplit(root, DATASET_PATH, ["title"]);
      if Find(root, DATASET_PATH) == [] {
        SubElementFind(root, "dataset");
        root := AppendUnder(root, [], EmptyDataset());
      }
      var datasets := Find(root, DATASET_PATH);
      if titleElement.Some? {
        DeleteTitle();
      }
      if !XmlCompatible(title) {
        // `title_element.text = title` raises `ValueError`
        return true;
      }
      var newTitle := TitleNode(title);
      if |datasets| == 1 {
        root := AppendUnder(root, DATASET_PATH, newTitle);
      }
      if Find(before, DATASET_PATH) == [] {
        SubElementThenAppend(before, "dataset", newTitle);
      } else if |Find(before, TITLE_PATH)| == 0 {
        ReplaceWithoutMatches(before, DATASET_PATH, newTitle);
      }
      return false;
    }
  }

  // ---------------------------------------------------------------------------
  // Lemmas
  // ---------------------------------------------------------------------------

  /** The two ElementPath expressions denote the tag paths the model follows. */
  lemma XpathsDenotePaths()
    ensures Xpath.Parse(TITLE_XPATH) == Some(TITLE_PATH)
    ensures Xpath.Parse(DATASET_XPATH) == Some(DATASET_PATH)
  {
    DatasetSegment();
    TitleSegment();
    Xpath.ParseBuild(TITLE_PATH);
    Xpath.ParseBuild(DATASET_PATH);
  }

  /** The xpaths the title methods spell out are those of the `title` entry of the lookup table. */
  lemma TitleXpathsInTable()
    ensures "title" in Constants.LOOKUPS
    ensures Constants.LOOKUPS["title"].nodeXpath == TITLE_XPATH
    ensures Constants.LOOKUPS["title"].parent == DATASET_XPATH
  {
    Constants.LookupsHoldEntries();
    assert Constants.ENTRIES[0] == ("title", Constants.TITLE_LOOKUP);
  }

  lemma DatasetSegment()
    ensures Xpath.PlainSegment("dataset")
    ensures Xpath.Build(DATASET_PATH) == DATASET_XPATH
  {
  }

  lemma TitleSegment()
    ensures Xpath.PlainSegment("title")
    ensures Xpath.Build(TITLE_PATH) == TITLE_XPATH
  {
    assert Xpath.Join(TITLE_PATH) == "dataset" + "/" + Xpath.Join(["title"]);
  }

  /**
   * Without a `dataset`, `set_title` adds exactly one `dataset` as the root's
   * last child, holding exactly one `title` with the given text; the root is
   * otherwise unchanged.
   */
  lemma SetTitleCreatesDataset(root: Element, title: string)
    requires Find(root, DATASET_PATH) == [] && XmlCompatible(title)
    ensures var r := SetTitleResult(root, title);
      var dataset := Element("dataset", None, map[], [TitleNode(title)]);
      r == root.(children := root.children + [dataset])
      && Find(r, DATASET_PATH) == [dataset]
      && Find(r, TITLE_PATH) == [TitleNode(title)]
      && TitleOf(r) == Some(TitleNode(title))
  {
    var dataset := Element("dataset", None, map[], [TitleNode(title)]);
    var r := SetTitleResult(root, title);
    FindInConcat(root.children, [dataset], DATASET_PATH);
    assert FindIn([dataset], DATASET_PATH) == Find(dataset, []) + FindIn([], DATASET_PATH);
    assert TITLE_PATH == DATASET_PATH + ["title"];
    FindSplit(r, DATASET_PATH, ["title"]);
    assert FindAll([dataset], ["title"]) == Find(dataset, ["title"]) + FindAll([], ["title"]);
    assert FindIn([TitleNode(title)], ["title"]) == Find(TitleNode(title), []) + FindIn([], ["title"]);
  }

  /**
   * With one `dataset` and at most one title, `set_title` leaves exactly one
   * title, the new one: the old title is removed, the new one is the
   * dataset's last child, and the dataset's other children keep their order.
   * Nothing outside the datasets changes.
   */
  lemma SetTitleReplaces(root: Element, title: string)
    requires |Find(root, DATASET_PATH)| == 1 && |Find(root, TITLE_PATH)| <= 1
    requires XmlCompatible(title)
    ensures var r := SetTitleResult(root, title);
      var d := Find(root, DATASET_PATH)[0];
      Find(r, DATASET_PATH) == [d.(children := Without(d.children, "title") + [TitleNode(title)])]
      && Find(r, TITLE_PATH) == [TitleNode(title)]
      && TitleOf(r) == Some(TitleNode(title))
      && EditedBelow(root, r, DATASET_PATH, Then(DropTag("title"), AppendChild(TitleNode(title))))
  {
    var x := TitleNode(title);
    assert DATASET_PATH + [x.tag] == TITLE_PATH;
    ReplaceFind(root, DATASET_PATH, x);
    assert Parent(TITLE_PATH) == DATASET_PATH && Last(TITLE_PATH) == "title";
    ModifyCompose(root, DATASET_PATH, DropTag("title"), AppendChild(x));
    ModifyFrame(root, DATASET_PATH, Then(DropTag("title"), AppendChild(x)));
  }

  /**
   * A title lxml refuses adds no title. Without a `dataset` the only change is
   * a new empty `dataset`; otherwise the tree is what `delete_title` leaves.
   * Either way `get_title` then finds nothing.
   */
  lemma SetTitleRefused(root: Element, title: string)
    requires !XmlCompatible(title)
    ensures var r := SetTitleResult(root, title);
      (if Find(root, DATASET_PATH) == [] then
         r == root.(children := root.children + [EmptyDataset()]) && Find(r, TITLE_PATH) == []
       else r == DeleteTitleResult(root))
      && TitleOf(r) == None
  {
    var r := SetTitleResult(root, title);
    if Find(root, DATASET_PATH) == [] {
      FindInConcat(root.children, [EmptyDataset()], DATASET_PATH);
      assert FindIn([EmptyDataset()], DATASET_PATH) == Find(EmptyDataset(), []) + FindIn([], DATASET_PATH);
      assert TITLE_PATH == DATASET_PATH + ["title"];
      FindSplit(r, DATASET_PATH, ["title"]);
      assert FindAll([EmptyDataset()], ["title"]) == Find(EmptyDataset(), ["title"]) + FindAll([], ["title"]);
    } else {
      DeleteTitleRemoves(root);
    }
  }

  /** With at most one `dataset` and at most one title, setting a title twice is setting it once. */
  lemma SetTitleIdempotent(root: Element, title: string)
    requires |Find(root, DATASET_PATH)| <= 1 && |Find(root, TITLE_PATH)| <= 1
    ensures SetTitleResult(SetTitleResult(root, title), title) == SetTitleResult(root, title)
  {
    var x := TitleNode(title);
    var r := SetTitleResult(root, title);
    if !XmlCompatible(title) {
      RefusedTwice(root, title);
    } else if Find(root, DATASET_PATH) == [] {
      SetTitleCreatesDataset(root, title);
      var d := Element("dataset", None, map[], [x]);
      assert Without(d.children, "title") == [] by {
        assert d.children == [x] && Without([], "title") == [];
      }
      ReplaceFind(r, DATASET_PATH, x);
      assert DATASET_PATH + [x.tag] == TITLE_PATH;
      ReplaceIsFixed(r, DATASET_PATH, x);
    } else {
      SetTitleReplaces(root, title);
      ReplaceIdempotent(root, DATASET_PATH, x);
    }
  }

  /** A refused title leaves one `dataset` and no title when there was at most one of each. */
  lemma RefusedTwice(root: Element, title: string)
    requires |Find(root, DATASET_PATH)| <= 1 && |Find(root, TITLE_PATH)| <= 1
    requires !XmlCompatible(title)
    ensures SetTitleResult(SetTitleResult(root, title), title) == SetTitleResult(root, title)
  {
    var r := SetTitleResult(root, title);
    SetTitleRefused(root, title);
    if Find(root, DATASET_PATH) == [] {
      var d := EmptyDataset();
      FindInConcat(root.children, [d], DATASET_PATH);
      assert FindIn([d], DATASET_PATH) == Find(d, []) + FindIn([], DATASET_PATH);
      assert Find(r, DATASET_PATH) == [d];
      SetTitleRefused(r, title);
    } else if |Find(root, TITLE_PATH)| == 1 {
      DeleteTitleRemoves(root);
      DeleteAllFind(root, TITLE_PATH);
      assert Parent(TITLE_PATH) == DATASET_PATH;
      SetTitleRefused(r, title);
    } else {
      SetTitleRefused(r, title);
    }
  }

  /** Replacing `x` under a single parent whose children are just `[x]` changes nothing. */
  lemma ReplaceIsFixed(e: Element, parent: seq<string>, x: Element)
    requires |Find(e, parent)| == 1 && Find(e, parent)[0].children == [x]
    ensures Replace(e, parent, x) == e
  {
    var ed := Then(DropTag(x.tag), AppendChild(x));
    assert Parent(parent + [x.tag]) == parent && Last(parent + [x.tag]) == x.tag;
    ModifyCompose(e, parent, DropTag(x.tag), AppendChild(x));
    var p := Find(e, parent)[0];
    assert Find(e, parent) == [p];
    assert Without([x], x.tag) == [] by {
      assert Without([x], x.tag) == [] + Without([], x.tag);
    }
    assert ApplyEdit(ed, p) == p;
    ModifyFixed(e, parent, ed);
  }

  /**
   * With one `dataset` and two or more titles, `set_title` removes none of
   * them and appends one more, so `get_title` still finds none; nothing
   * outside the datasets changes.
   */
  lemma SetTitleAccumulates(root: Element, title: string)
    requires |Find(root, DATASET_PATH)| == 1 && |Find(root, TITLE_PATH)| >= 2
    requires XmlCompatible(title)
    ensures var r := SetTitleResult(root, title);
      Find(r, TITLE_PATH) == Find(root, TITLE_PATH) + [TitleNode(title)]
      && TitleOf(r) == None
      && EditedBelow(root, r, DATASET_PATH, AppendChild(TitleNode(title)))
  {
    assert DATASET_PATH + [TitleNode(title).tag] == TITLE_PATH;
    AppendUnderFind(root, DATASET_PATH, TitleNode(title));
    ModifyFrame(root, DATASET_PATH, AppendChild(TitleNode(title)));
  }

  /**
   * With several `dataset` children, `set_title` adds no title: a single
   * existing one is removed and otherwise the tree is left as it was.
   */
  lemma SetTitleManyDatasets(root: Element, title: string)
    requires |Find(root, DATASET_PATH)| >= 2
    ensures var r := SetTitleResult(root, title);
      if |Find(root, TITLE_PATH)| == 1 then
        Find(r, TITLE_PATH) == [] && EditedBelow(root, r, DATASET_PATH, DropTag("title"))
      else r == root
  {
    DeleteTitleRemoves(root);
  }

  /**
   * `delete_title` removes every title when exactly one exists, and every
   * dataset keeps its other children in order, with nothing outside the
   * datasets changed; otherwise nothing changes.
   */
  lemma DeleteTitleRemoves(root: Element)
    ensures var r := DeleteTitleResult(root);
      if |Find(root, TITLE_PATH)| == 1 then
        Find(r, TITLE_PATH) == []
        && Find(r, DATASET_PATH) == ApplyAll(DropTag("title"), Find(root, DATASET_PATH))
        && EditedBelow(root, r, DATASET_PATH, DropTag("title"))
        && TitleOf(r) == None
      else r == root
  {
    DeleteAllFind(root, TITLE_PATH);
    assert Parent(TITLE_PATH) == DATASET_PATH;
    ModifyFrame(root, DATASET_PATH, DropTag("title"));
  }
}
