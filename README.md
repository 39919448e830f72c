# pyEML title editing, modelled in Dafny

pyEML edits Ecological Metadata Language (EML) documents. It has two editor
classes, and both can read, set and delete a dataset's title:

- `Emld` works on an lxml element tree. It finds nodes with ElementPath
  expressions such as `./dataset/title`, and its `LOOKUPS` table in
  `constants.py` describes every metadata field by xpath strings.
- `Eml` works on a metapype node tree. It finds nodes by lists of tag names,
  taken from the smaller `LOOKUPS` table in `eml_constants.py`. It shows a
  node by rebuilding an xpath string from that list and parsing it again.

This project models these parts:

- `wrappers.dfy`: `Option` and `Result`.
- `values.dfy`: the `values_dict` templates (nested dicts with `None` or string
  leaves), and the dict a Python dict display builds from its key/value pairs.
- `xpath.dfy`: `'/'.join`, `str.split('/')` and `str.replace('./', '')` on
  strings. Also the xpath `_get_node` builds and the path `show_overview`
  recovers from it.
- `element_tree.dfy`: an XML element as a value. It covers lookup along a tag
  path (lxml `findall`, metapype `find_all_nodes_by_path`), detaching every
  match from its parent, and appending a child under the matches of a parent
  path. The `Edit` datatype names what is done to a parent. `RemoveMatches` is
  the loop that detaches the matches one at a time.
- `constants.dfy`: `APP_NAME`, `CURRENT_RELEASE` and the twenty-entry
  `LOOKUPS` table, with its well-formedness proved entry by entry.
- `eml_constants.dfy`: the `Eml` table as a partial map. Reading a missing key
  is a `KeyError`.
- `emld.dfy`: class `Emld`, with `root` as a field. `get_title`, `set_title`
  and `delete_title` are modelled on their non-interactive paths. Each method
  is specified by a function of the old tree, and lemmas state what that
  function does.
- `eml.dfy`: class `Eml`, holding the empty constructor, `_get_node`,
  `get_title`, `set_title`, `delete_title` and `show_overview` for a string
  xpath. An operation's outcome says whether it finished, raised an uncaught
  `KeyError`, or hit an `AssertionError` that it caught and printed.

Behaviours of the code that the model keeps:

- `Emld.get_title` gives an element only when exactly one title matches.
  - So `delete_title` removes nothing when there are several titles.
  - With one dataset and several titles, `set_title` adds one more title.
- `Emld.set_title` on a document with several `dataset` children appends the
  new title to a Python list, not to the tree.
- `Emld.set_title` adds the empty `dataset` and deletes a single old title
  before it assigns the new title's text. A title lxml refuses raises there:
  one holding a NUL, a control character other than tab, line feed or
  carriage return, U+FFFE or U+FFFF. The catch-all handler keeps the changes
  already made, and `get_title` then finds no title (`SetTitleRefused`).
  - With no dataset, an empty one is left.
  - A single old title is gone.
  - Two or more old titles stay.
- `Eml.set_title` reads `LOOKUPS['title']['node_target']`, but that table names
  the field `target`. With the shipped table, every call raises `KeyError`
  before the tree is touched (`ShippedSetTitleRaises`).
  - The successful path is proved for any table that holds the keys it reads
    (`SetTitleSucceeds`).
- `show_overview` prefixes each segment with `names.` inside its loop. This
  only rebinds the loop variable, so the segments are looked up unchanged.
- Parsing an xpath with `replace('./', '')` does not always give back the path
  it was built from. A tag ending in `.` merges with the next one, and the
  empty path parses as one empty tag (`ParseBuildDotSegment`,
  `ParseBuildEmpty`).

## Model

| member | source | states |
|---|---|---|
| Values.DictOf | src/pyEML/constants.py:13-237 | a key is in the dict built from a display exactly when some pair of the display has that key |
| Values.DictOfValue | src/pyEML/constants.py:13-237 | every value in the dict is the value of a pair of the display with that key |
| Values.DictOfDistinct | src/pyEML/constants.py:13-237 | when no key repeats, each pair's key maps to that pair's value |
| Xpath.Split | src/pyEML/eml.py:161 | `split('/')` gives at least one piece and no piece contains `/` |
| Xpath.Join | src/pyEML/eml.py:221 | `'/'.join(segments)` (no contract of its own; `JoinSplit` and `SplitJoin` relate it to `Split`) |
| Xpath.StripDotSlash | src/pyEML/eml.py:160 | `replace('./', '')`, scanning left to right without overlap (no contract of its own; `StripJoin` states what it does to a built xpath) |
| Xpath.Build | src/pyEML/eml.py:221 | the xpath `_get_node` builds, `'./' + '/'.join(path)` (no contract of its own; `ParseBuild`, `ParseBuildDotSegment`, `ParseBuildEmpty` and `OverviewShowsFound` state what parsing the result gives back) |
| Xpath.Parse | src/pyEML/eml.py:159-161 | `show_overview` accepts a string exactly when it starts with `./`, and then gives at least one segment, none holding `/` |
| Xpath.SplitWithoutSeparator | src/pyEML/eml.py:161 | a string without `/` splits into itself alone |
| Xpath.SplitAfterSegment | src/pyEML/eml.py:161 | a leading separator-free piece followed by `/` becomes the first piece of the split |
| Xpath.SplitChild | src/pyEML/eml.py:161 | appending `/` and a separator-free piece appends exactly that piece to the split |
| Xpath.SplitJoin | src/pyEML/eml.py:161 | splitting the `/`-join of a non-empty list of separator-free tags gives the list back |
| Xpath.JoinPrepend | src/pyEML/eml.py:221 | a character put in front of the first piece is put in front of the joined string |
| Xpath.JoinSplit | src/pyEML/eml.py:161 | joining the pieces of any split with `/` gives the original string back |
| Xpath.StripWithoutSeparator | src/pyEML/eml.py:160 | `replace('./', '')` leaves a string without `/` unchanged |
| Xpath.StripCons | src/pyEML/eml.py:160 | a first character that does not start `./` is kept and the rest is processed on its own |
| Xpath.StripAfterSegment | src/pyEML/eml.py:160 | a tag without `/` that does not end in `.`, followed by `/`, passes through `replace` unchanged |
| Xpath.StripJoin | src/pyEML/eml.py:160 | the `/`-join of such tags passes through `replace('./', '')` unchanged |
| Xpath.ParseBuild | src/pyEML/eml.py:159-161 | parsing the xpath built from a non-empty path of such tags gives the path back |
| Xpath.ParseBuildDotSegment | src/pyEML/eml.py:160 | `./a./b` parses to the single tag `ab`, so a tag ending in `.` is not recovered |
| Xpath.ParseBuildEmpty | src/pyEML/eml.py:221 | the xpath built from the empty path, `./`, parses to one empty tag |
| ElementTree.ApplyEdit | src/pyEML/emld.py:144 | an edit of a parent changes only its children, never its tag, text or attributes |
| ElementTree.Modify | src/pyEML/emld.py:182-183 | editing the matches below an element keeps that element's tag |
| ElementTree.Find | src/pyEML/emld.py:78 | `findall` of a tag path: the elements reached by following the path tag by tag through the children, in document order (no contract of its own; `FindSplit`, `FindTag`, `FindAllConcat` state its properties) |
| ElementTree.FindIn | src/pyEML/eml.py:209 | the same lookup among a list of siblings, as metapype's `find_all_nodes_by_path` does from a parent (no contract of its own) |
| ElementTree.DeleteAll | src/pyEML/emld.py:182-183 | every match of a path detached from its parent (no contract of its own; `DeleteAllFind`, `DeleteNothing` and `RemoveMatches` state what it does) |
| ElementTree.AppendUnder | src/pyEML/emld.py:144 | a child appended as the last child of every match of a parent path (no contract of its own; `AppendUnderFind`, `SubElementFind` state what it does) |
| ElementTree.Replace | src/pyEML/eml.py:98-102 | delete every `parent/tag` and then append the new node under `parent` (no contract of its own; `ReplaceFind`, `ReplaceIdempotent` state what it does) |
| ElementTree.RemoveMatches | src/pyEML/emld.py:182-183 | detaching the matches one after the other gives the same tree as deleting them all at once, and no match is left |
| ElementTree.FindAllConcat | src/pyEML/emld.py:135 | the matches below `a + b` are the matches below `a` followed by those below `b` |
| ElementTree.FindInConcat | src/pyEML/emld.py:135 | lookup among the siblings `a + b` is lookup among `a` followed by lookup among `b` |
| ElementTree.ApplyAllConcat | src/pyEML/emld.py:182-183 | editing `a + b` element by element is editing `a`, then `b` |
| ElementTree.WithoutConcat | src/pyEML/eml.py:127-128 | removing the `t` children of `a + b` is removing them from `a` and from `b` |
| ElementTree.ModifyInConcat | src/pyEML/eml.py:101-102 | editing the matches among the siblings `a + b` is editing among `a` and among `b` separately |
| ElementTree.FindSplit | src/pyEML/emld.py:133-135 | looking up `q + r` is looking up `r` below each match of `q`, in order |
| ElementTree.FindTag | src/pyEML/emld.py:78-79 | every match of a non-empty path carries the path's last tag |
| ElementTree.FindAllEmpty | src/pyEML/emld.py:133-135 | when nothing matches below a list of elements, nothing matches below any one of them |
| ElementTree.WithoutFind | src/pyEML/eml.py:127-128 | after removing the children tagged `t`, none is found and removing again changes nothing |
| ElementTree.WithoutUnmatched | src/pyEML/eml.py:127-128 | removing the `t` children of a parent that has none leaves its children unchanged |
| ElementTree.ModifyFind | src/pyEML/emld.py:182-183 | after an edit of the matches of a path, the matches are exactly the edited old matches, in order |
| ElementTree.ModifyFixed | src/pyEML/emld.py:182-183 | an edit that leaves each match unchanged leaves the whole tree unchanged |
| ElementTree.ModifyCompose | src/pyEML/eml.py:101-102 | two edits of the same matches, one after the other, equal the single combined edit |
| ElementTree.ModifyIdempotent | src/pyEML/eml.py:101-102 | an edit that is idempotent on each element is idempotent on the tree |
| ElementTree.ModifyFrame | src/pyEML/emld.py:182-183 | editing the matches of a path keeps the root's tag, text and attributes and every child in its place; only children on the path are edited, the others stay as they were |
| ElementTree.ModifyInFrame | src/pyEML/emld.py:182-183 | editing among siblings keeps their number, edits each one on the path, and leaves every other sibling unchanged |
| ElementTree.DeleteAllFind | src/pyEML/emld.py:182-183 | after deleting, nothing matches the path, and each parent match has lost exactly its children with the deleted tag |
| ElementTree.DroppedFindNothing | src/pyEML/emld.py:182-183 | parents whose `t` children were dropped have no `t` child left |
| ElementTree.DeleteNothing | src/pyEML/emld.py:182-183 | deleting where nothing matches leaves the tree unchanged |
| ElementTree.ReplaceFind | src/pyEML/eml.py:98-102 | with one parent match, replacing leaves the new node as the parent's last child, the only match of its path, with the other children kept in order |
| ElementTree.AppendUnderFind | src/pyEML/emld.py:144 | with one parent match, appending adds the new node after the existing matches of its path |
| ElementTree.SubElementFind | src/pyEML/emld.py:133-134 | an empty `t` child added to an element without one is then its only `t` child |
| ElementTree.SubElementThenAppend | src/pyEML/emld.py:133-144 | adding an empty `t` child and then appending `x` under it gives the element with one more last child `t` holding just `x` |
| ElementTree.ReplaceWithoutMatches | src/pyEML/eml.py:98-99 | when nothing matches the new node's path, replacing is appending |
| ElementTree.ReplaceIdempotent | src/pyEML/eml.py:98-102 | replacing twice with the same node is replacing once |
| ElementTree.DropFirstFind | src/pyEML/emld.py:182-183 | detaching the first `t` child leaves the other `t` children, in order |
| ElementTree.DropFirstWithout | src/pyEML/emld.py:182-183 | detaching one `t` child before removing all of them changes nothing |
| ElementTree.RemoveFirstFind | src/pyEML/emld.py:182-183 | detaching the first match of a path leaves the remaining matches, in order |
| ElementTree.RemoveFirstDelete | src/pyEML/emld.py:182-183 | detaching the first match does not change the result of deleting all matches |
| Constants.ChildOfUnique | src/pyEML/constants.py:15-17 | an xpath determines both its parent xpath and its last tag |
| Constants.EntriesDistinct | src/pyEML/constants.py:13-237 | the display has twenty pairs and no key is repeated |
| Constants.LookupsHoldEntries | src/pyEML/constants.py:13-237 | every pair of the display is in the dict with its own value |
| Constants.WellFormedOf | src/pyEML/constants.py:14-21 | an entry with a relative parent, one template key, and node xpath equal to parent + `/` + key is well formed |
| Constants.TitleWellFormed | src/pyEML/constants.py:14-21 | `title` is well formed: both xpaths start with `./`, one template key, node xpath = parent + `/` + key |
| Constants.CreatorWellFormed | src/pyEML/constants.py:22-36 | the same for `creator` |
| Constants.KeywordsWellFormed | src/pyEML/constants.py:37-46 | the same for `keywords` |
| Constants.PublisherWellFormed | src/pyEML/constants.py:47-66 | the same for `publisher` |
| Constants.PubDateWellFormed | src/pyEML/constants.py:67-74 | the same for `pub_date` |
| Constants.TemporalCoverageWellFormed | src/pyEML/constants.py:75-91 | the same for `temporal_coverage` |
| Constants.CuiWellFormed | src/pyEML/constants.py:92-99 | the same for `cui` |
| Constants.IntRightsWellFormed | src/pyEML/constants.py:100-109 | the same for `int_rights` |
| Constants.StatusWellFormed | src/pyEML/constants.py:110-119 | the same for `status` |
| Constants.DoiWellFormed | src/pyEML/constants.py:120-127 | the same for `doi` |
| Constants.ContactWellFormed | src/pyEML/constants.py:128-142 | the same for `contact` |
| Constants.UsageCitationWellFormed | src/pyEML/constants.py:143-156 | the same for `usage_citation` |
| Constants.VersionWellFormed | src/pyEML/constants.py:157-167 | the same for `version` |
| Constants.ProtocolCitationWellFormed | src/pyEML/constants.py:168-175 | the same for `protocol_citation` |
| Constants.AbstractWellFormed | src/pyEML/constants.py:176-185 | the same for `abstract` |
| Constants.LitCitedWellFormed | src/pyEML/constants.py:186-195 | the same for `lit_cited` |
| Constants.LanguageWellFormed | src/pyEML/constants.py:196-203 | the same for `language` |
| Constants.GeographicCoverageWellFormed | src/pyEML/constants.py:204-211 | the same for `geographic_coverage` |
| Constants.MetadataProviderWellFormed | src/pyEML/constants.py:212-226 | the same for `metadata_provider` |
| Constants.NpsProducingUnitsWellFormed | src/pyEML/constants.py:227-236 | the same for `nps_producing_units` |
| Constants.EntriesWellFormed | src/pyEML/constants.py:13-237 | every pair of the display holds a well-formed entry |
| Constants.LookupsWellFormed | src/pyEML/constants.py:13-237 | every entry of `LOOKUPS` is well formed: both xpaths start with `./`, and the parent is the node xpath without its last `/segment`, which is the template's single key |
| Constants.NoLeavesA | src/pyEML/constants.py:14-74 | the templates from `title` to `pub_date` have only `None` leaves |
| Constants.NoLeavesB | src/pyEML/constants.py:75-127 | the templates from `temporal_coverage` to `doi` have only `None` leaves |
| Constants.NoLeavesC | src/pyEML/constants.py:128-185 | the templates from `contact` to `abstract`, except `version`, have only `None` leaves |
| Constants.NoLeavesD | src/pyEML/constants.py:186-236 | the templates from `lit_cited` to `nps_producing_units` have only `None` leaves |
| Constants.VersionLeaves | src/pyEML/constants.py:157-167 | the `version` template's leaves are `APP_NAME` then `CURRENT_RELEASE` |
| Constants.EntriesLeaves | src/pyEML/constants.py:13-237 | every template leaf is `None` except in `version`, whose leaves are `"pyEML"` and `"0.0.1"` |
| Constants.SharedXpath | src/pyEML/constants.py:212-236 | `metadata_provider` and `nps_producing_units` are distinct keys with the same node xpath, so an xpath does not determine its key |
| Constants.LOOKUPS | src/pyEML/constants.py:13-237 | the twenty-entry table, built from its display by `DictOf` (a constant; stated by `LookupsHoldEntries`, `LookupsWellFormed` and the leaf lemmas) |
| EmlConstants.LookupsNested | src/pyEML/eml_constants.py:4-38 | in every entry the parent is the path minus its last tag; `title` is `[dataset, title]` under `[dataset]` and `creator` is `[dataset, creator]` under `[dataset]` |
| EmlConstants.TargetsAreKeys | src/pyEML/eml_constants.py:4-38 | each entry's `target` is its own key, which is also its template's single key and its path's last tag |
| EmlConstants.NoNodeTarget | src/pyEML/eml_constants.py:4-38 | reading `node_target` is a `KeyError` for every key of the table |
| EmlConstants.LOOKUPS | src/pyEML/eml_constants.py:4-38 | the `title` and `creator` entries, each with `path`, `parent`, `target` and `values_dict` and no `node_target` (a constant; stated by `LookupsNested`, `TargetsAreKeys`, `NoNodeTarget`) |
| EmlConstants.Field | src/pyEML/eml_constants.py:4-38 | `table[key][field]`: `KeyError(key)` for a missing entry, `KeyError(field)` for a missing field, else the value (no contract of its own) |
| EmlConstants.PathOf | src/pyEML/eml.py:56 | `LOOKUPS[key]['path']` as `Field` reads it (no contract of its own) |
| EmlConstants.ParentOf | src/pyEML/eml.py:84 | `LOOKUPS[key]['parent']` as `Field` reads it (no contract of its own) |
| EmlConstants.TargetOf | src/pyEML/eml.py:57 | `LOOKUPS[key]['target']` as `Field` reads it (no contract of its own) |
| EmlConstants.NodeTargetOf | src/pyEML/eml.py:85 | `LOOKUPS[key]['node_target']` as `Field` reads it; the shipped table has no such field (no contract of its own) |
| Emld.TitleOf | src/pyEML/emld.py:76-98 | a title is returned exactly when `./dataset/title` has one match; it is that match and its tag is `title` |
| Emld.Emld.constructor | src/pyEML/emld.py:43-47 | the document's root is the parsed root |
| Emld.Emld.GetTitle | src/pyEML/emld.py:76-98 | `get_title()` returns an element exactly when one title matches, and then it is that match |
| Emld.Emld.DeleteTitle | src/pyEML/emld.py:150-183 | `delete_title(quiet=True)` removes every title when `get_title` finds one, and otherwise changes nothing |
| Emld.Emld.SetTitle | src/pyEML/emld.py:100-148 | `set_title` leaves the tree `SetTitleResult` gives for the old tree: the outcome of its lxml calls, by the number of datasets and titles, including a title lxml refuses; `problem` is true exactly when the handler catches that refusal |
| Emld.SetTitleResult | src/pyEML/emld.py:131-148 | the tree `set_title` leaves, case by case on the number of datasets and titles and on whether lxml accepts the title (no contract of its own; stated by the `SetTitle*` lemmas) |
| Emld.DeleteTitleResult | src/pyEML/emld.py:164-183 | the tree `delete_title` leaves: every title removed when `get_title` finds one, else the tree as it was (no contract of its own; stated by `DeleteTitleRemoves`) |
| Emld.XmlCompatible | src/pyEML/emld.py:143 | the text lxml accepts on `.text =`: tab, line feed, carriage return and every character from the space on except U+FFFE and U+FFFF (no contract of its own) |
| Emld.XpathsDenotePaths | src/pyEML/emld.py:76-135 | `./dataset/title` and `./dataset` denote the tag paths `[dataset, title]` and `[dataset]` |
| Emld.TitleXpathsInTable | src/pyEML/constants.py:14-21 | the xpaths the title methods spell out are the node xpath and parent of the table's `title` entry |
| Emld.SetTitleCreatesDataset | src/pyEML/emld.py:133-144 | with no dataset and a title lxml accepts, the root changes only by one new last child `dataset`, which holds exactly one title with the given text, and `get_title` then returns it |
| Emld.SetTitleReplaces | src/pyEML/emld.py:135-144 | with one dataset, at most one title and a title lxml accepts, the new title is the only one, last in the dataset, the other children keep their order, and nothing outside the dataset changes |
| Emld.SetTitleRefused | src/pyEML/emld.py:133-148 | a title lxml refuses adds no title: without a dataset the only change is a new empty `dataset`, otherwise the tree is what `delete_title` leaves, and `get_title` then finds nothing |
| Emld.RefusedTwice | src/pyEML/emld.py:133-148 | with at most one dataset and one title, a refused title set twice leaves the same tree as once |
| Emld.SetTitleIdempotent | src/pyEML/emld.py:100-148 | with at most one dataset and one title, setting the same title twice equals setting it once, whether lxml accepts the title or not |
| Emld.ReplaceIsFixed | src/pyEML/emld.py:140-144 | replacing `x` under a single parent whose only child is `x` changes nothing |
| Emld.SetTitleAccumulates | src/pyEML/emld.py:138-144 | with one dataset, two or more titles and a title lxml accepts, none is removed, one is appended, `get_title` still finds none, and only the datasets change |
| Emld.SetTitleManyDatasets | src/pyEML/emld.py:135-142 | with several datasets no title is added: a single existing title is removed with nothing else changed, and otherwise the tree is left as it was |
| Emld.DeleteTitleRemoves | src/pyEML/emld.py:164-183 | with one title, every title goes, each dataset keeps its other children in order, and the root's tag, text, attributes and non-dataset children are unchanged; otherwise the tree is unchanged |
| Eml.Eml.Empty | src/pyEML/eml.py:36-38 | an `Eml` built without a file has the root `eml` with `system="metapype"` and no children |
| Eml.Eml.GetNode | src/pyEML/eml.py:196-233 | no match gives `Missing`; otherwise the matches are returned, or, when pretty, shown through the xpath `./` + `'/'.join(path)` |
| Eml.Eml.GetTitle | src/pyEML/eml.py:52-68 | a missing `path` or `target` key is raised; otherwise the title nodes are returned when not interactive and some exist, and `None` otherwise |
| Eml.Eml.DeleteTitle | src/pyEML/eml.py:110-134 | the outcome and new tree are those of `DeleteTitleSpec` on the old tree |
| Eml.Eml.SetTitle | src/pyEML/eml.py:80-107 | the outcome and new tree are those of `SetTitleSpec` on the old tree |
| Eml.SetTitleValidates | src/pyEML/eml.py:87-88 | a `None`, empty or shorter-than-three title ends in a caught assertion and leaves the tree unchanged |
| Eml.SetTitleNeedsOneParent | src/pyEML/eml.py:90-92 | unless the parent path has exactly one match, the assertion is caught and the tree is unchanged |
| Eml.SetTitleSucceeds | src/pyEML/eml.py:90-102 | otherwise the call succeeds, the new node is the only match of the path, it is the parent's last child with the other children kept in order, the root keeps its tag, text and attributes, and nothing off the parent path changes |
| Eml.ShippedSetTitleRaises | src/pyEML/eml.py:83-85 | with the shipped table every call raises `KeyError('node_target')` and leaves the tree unchanged |
| Eml.DeleteTitleEffect | src/pyEML/eml.py:119-128 | with one parent match every title node is removed, the parent keeps its other children in order, the root keeps its tag, text and attributes and nothing off the parent path changes; otherwise the assertion is caught and nothing changes |
| Eml.OverviewShowsFound | src/pyEML/eml.py:221-224 | the xpath `_get_node` builds makes `show_overview` display exactly the nodes `_get_node` found, when no tag contains `/` or ends in `.` |
| Eml.OverviewNeedsRelative | src/pyEML/eml.py:159 | `show_overview` accepts a string xpath exactly when it starts with `./` |
| Eml.OverviewOf | src/pyEML/eml.py:158-164 | `show_overview` of a string xpath: `None` when the `./` assertion fails, which nothing catches, so the caller receives an `AssertionError`; otherwise the nodes at the parsed segments (no contract of its own; `OverviewShowsFound`, `OverviewNeedsRelative` state what it shows) |
| Eml.Eml.Overview | src/pyEML/eml.py:158-164 | `OverviewOf` on the document's current root (no contract of its own) |
| Eml.SetTitleSpec | src/pyEML/eml.py:80-107 | the outcome and tree of `set_title`: the three lookups in order, each raising `KeyError` when missing, then the two caught title assertions, then the caught parent-count assertion, then delete-and-append (no contract of its own; stated by the `SetTitle*` lemmas) |
| Eml.DeleteTitleSpec | src/pyEML/eml.py:110-134 | the outcome and tree of `delete_title`: the two lookups, the caught parent-count assertion, then every title removed (no contract of its own; stated by `DeleteTitleEffect`) |

## Left out

- Reading and writing files (`etree.parse`, `metapype_io`, `write_eml`, `save_xml`, `pretty_print`) is not modelled. An `Emld` is built from an already parsed root, and an `Eml` only without a file.
- Printing is not modelled. That covers the `pretty=True` output of `Emld.get_title`, the overview `_show_overview` prints, and the messages of caught assertions. `Eml.GetNode` returns the xpath it would show instead of showing it.
- The interactive paths of `Emld` (`input()` prompts and overwrite questions) are not modelled. `Emld.DeleteTitle` models `quiet=True`, and `Emld.SetTitle` models `INTERACTIVE=False`.
- metapype's node-id registry (`get_node_instance`, `delete_node_instance`) is not modelled. Looking a node up by its id is taken to give back the same node.
- XPath is modelled only as tag paths from the root. Predicates, wildcards, `//` and namespaces are not modelled.
- Eml.Eml.GetTitle, Eml.Eml.SetTitle, Eml.Eml.DeleteTitle: these require a table whose every path has at least two tags, extending its parent by one (`PathsNested`). The shipped table meets this (`LookupsNested`). For other tables the source's behaviour is not modelled.
- Eml.Eml.GetNode, Eml.SetTitleSucceeds, Eml.DeleteTitleEffect: the empty path is not modelled. metapype's `find_all_nodes_by_path` is not part of this model, and the source passes it only non-empty paths that start at a child of the root; `Find` reads such a path from the root's children.
- Eml.Eml.GetTitle, Eml.Eml.DeleteTitle, Eml.Eml.SetTitle: the `MissingNodeException` and `AssertionError` messages are reduced to a `Reason` tag.
- The `_set_node` and `_delete_node` stubs, which have no body, are not modelled.
- The other tables in `constants.py` (`AVAILABLE_ATTRIBUTES`, `CUI_CHOICES`, `LICENSE_TEXT` and the rest) are not modelled. No modelled operation reads them.
- `error_classes.py` (terminal colour codes and the exception class) is not part of this model, and neither is `test/interactive.py`.
- Element text tails and the whitespace lxml keeps around removed nodes are not modelled.
- Elements are values, so node identity and aliasing are not modelled. Both `get_title`s return live tree nodes, and a caller that changes one changes the document; here they return copies.
