# react-spatial layer service and canvas save button, in Dafny

This project models two parts of react-spatial, a React toolkit for web maps.

The first is the **layer service**.
- `ConfigReader.readConfig` turns a nested layer configuration into a tree of layers.
- `LayerService` answers queries over that tree: top-level layers, the flat pre-order list, lookup by name, parent, radio-group members.
- It keeps a registry of event callbacks (`on` / `un`).
- `Layer.setVisible` changes visibility in a radio-group-aware way and fires a `change:visible` callback for every layer whose visibility changed.

The second is the **file naming of `CanvasSaveButton`**:
- the file extension chosen from the save format;
- the download name built from the document title;
- the dpi used for the exported image.

The files `LayerService.js`, `Layer.js` and `ConfigReader.js` are not part of this model. The behaviour modelled for them follows the scenarios of `src/LayerService.test.js`. Where those scenarios leave a rule open, the model fixes one reading and says so under "Left out". Each scenario is restated in module `Examples` as a method over the concrete configuration of the test, and proved.

Layout:
- `Forests.dfy`: the layer tree as an arena. A layer is identified by its position in `nodes`, and that position is also its pre-order index. Also defines the subtree relation and the pre-order traversal.
- `ConfigReader.dfy`: `ReadConfig`, plus its two partners. `ReconstructAll` rebuilds the configuration (a round trip). The pre-order traversal visits positions `0 … n-1`.
- `Visibility.dfy`: `SetVisibleSpec`, the visibility after `setVisible` as a function of the visibility before it, together with its properties. It also holds the notice class of each layer (`NoticeRank`) and radio exclusivity (`RadioExclusive`).
- `Wrappers.dfy`: the `Option` type.
- `Seqs.dfy`: small generic facts about sequence concatenation and slicing, used by the proofs.
- `Events.dfy`: the callback lists (`Added`, `Without`) and the notification log (`Dispatch`) and the order in which changed layers are reported (`NoticeOrder`).
- `LayerService.dfy`: class `LayerService`. Its mutable state is the visibility vector, the callback map and the log of calls. The forest, the configuration and the name index are constant fields.
- `CanvasSaveButton.dfy`: `FileExt`, `Create`, `DownloadImageName`, `Dpi`.
- `Examples.dfy`: the test scenarios of `src/LayerService.test.js`.

The visibility rule modelled for `setVisible(v)`:
- the layer and its whole subtree take `v`;
- when `v` is true, every ancestor is switched on, without cascading into the ancestor's other children;
- also when `v` is true, at every level of that path (the layer itself and each ancestor), the radio rivals are switched off together with their subtrees. A radio rival is a different sibling in the same non-empty radio group.

Notifications are sent after the whole change. There is one per changed layer, to every `change:visible` callback in registration order. The layers are reported in this order:
1. the layer itself;
2. the layers switched off because they lie under a radio rival, of the layer or of one of its ancestors;
3. the layer's descendants;
4. the ancestors switched on.

Within each group the order is the flat (pre-order) order. The first three groups follow the order stated for `setVisible`: the layer, then the siblings it switches off, then its descendants in pre-order. The ancestors come last because that statement does not mention them. One call per changed layer is what makes the test at `src/LayerService.test.js:82-88` see three calls: showing `2` also switches on `1-2` and `1`, and the calls are reported for `2`, `1`, `1-2`.

## Model

| member | source | states |
|---|---|---|
| ConfigReader.ReadConfig | src/LayerService.test.js:6-9 | The forest read from a configuration is well formed: a parent comes before its children, parent and children links agree, and the roots are exactly the parentless layers. The layer names in arena order are the configuration's names in pre-order. There are as many roots as top-level descriptors. |
| ConfigReader.ReadConfigRoundTrip | src/LayerService.test.js:6-29 | Rebuilding descriptors from the roots of the read forest gives back the configuration exactly: names, radio groups, visibility flags and the nesting of children. |
| ConfigReader.ReadConfigPreorder | src/LayerService.test.js:6-9 | The pre-order traversal of the read forest visits the positions 0, 1, …, n-1 in order, so the arena order is the flat order. |
| ConfigReader.AddNode | src/LayerService.test.js:11-29 | Reading one descriptor appends one layer with the descriptor's name, radio group and visibility, the given parent and no children. It is added to the end of the parent's children, or of the roots. Every other layer is untouched. |
| ConfigReader.AddTrees | src/LayerService.test.js:6-9 | Reading a list of descriptors appends one layer per name of their pre-order. |
| ConfigReader.AddTreesFrame | src/LayerService.test.js:11-29 | Reading descriptors under a parent leaves every other existing layer and the roots untouched, and changes the parent only in its children. |
| ConfigReader.AddTreesAttached | src/LayerService.test.js:11-29 | Reading n descriptors under a parent extends the parent's children (or the roots) by n new layers, keeping the old ones as a prefix. |
| ConfigReader.AddTreesRoundTrip | src/LayerService.test.js:11-29 | For any prefix forest, the layers appended for a descriptor list rebuild to that list. |
| ConfigReader.AddTreesPreorder | src/LayerService.test.js:11-29 | The layers appended for a descriptor list are visited in pre-order as a contiguous range of new positions. |
| ConfigReader.AddTreesWF | src/LayerService.test.js:6-9 | Appending descriptors to a well-formed forest keeps it well formed. |
| ConfigReader.AddTreesNames | src/LayerService.test.js:11-29 | The names of the appended layers are the pre-order names of the descriptors. |
| Forests.Siblings | src/LayerService.test.js:66-72 | The siblings of a layer include the layer, are increasing, and all share its parent. |
| Forests.SubtreeTransitive | src/LayerService.test.js:74-80 | Lying below a layer is transitive. |
| Forests.SubtreesNested | src/LayerService.test.js:74-80 | Two subtrees that share a layer are nested. |
| Forests.SiblingsDisjoint | src/LayerService.test.js:66-72 | Distinct siblings have disjoint subtrees. |
| Forests.SubtreeByChildren | src/LayerService.test.js:74-80 | The subtree of a layer is the layer together with the subtrees of its children, in both directions. |
| Forests.SubtreeAfterRoot | src/LayerService.test.js:11-29 | A descendant comes after its ancestor in the arena. |
| Visibility.SetVisiblePointwise | src/LayerService.test.js:66-88 | After setVisible(id, v), every layer of id's subtree has v. If v is true, every ancestor is on and every layer under a radio rival along the path is off. Every other layer keeps its previous visibility. |
| Visibility.SetVisibleCascades | src/LayerService.test.js:74-80 | Every layer of the subtree takes the new value (downward cascade). |
| Visibility.SetVisibleRaisesAncestors | src/LayerService.test.js:82-88 | Showing a layer shows all of its ancestors. |
| Visibility.SetVisibleExcludesRivals | src/LayerService.test.js:66-72 | Showing a layer hides every radio rival of the layer and of each of its ancestors, together with the rival's subtree. |
| Visibility.SetVisibleShowsOnlyPath | src/LayerService.test.js:82-88 | Showing a layer switches on nothing but the layer, its subtree and its ancestors. |
| Visibility.SetVisibleFrame | src/LayerService.test.js:66-80 | A layer outside the subtree, the ancestors and the rivals' subtrees keeps its visibility. |
| Visibility.SetVisibleIdempotent | src/LayerService.test.js:66-80 | Applying setVisible twice with the same value is the same as applying it once. |
| Visibility.SetVisibleConsistent | src/LayerService.test.js:74-88 | If every visible layer's parent is visible before the call, the same holds after it. |
| Visibility.NoticeRankMeaning | src/LayerService.test.js:82-88 | For a layer that setVisible(id, v) changes: class 0 is exactly id, class 1 exactly the layers under a radio rival along the path (only when showing), class 2 exactly id's proper descendants, class 3 exactly its proper ancestors (only when showing). |
| Visibility.SetVisibleRadioExclusive | src/LayerService.test.js:66-72 | If no two radio rivals are visible together before setVisible, the same holds after it. This always holds for hiding, and for showing when no layer strictly below the shown one has a radio rival. |
| Visibility.HideOnlyHides | src/LayerService.test.js:74-80 | Hiding a layer never switches any layer on. |
| Visibility.ShownLayer | src/LayerService.test.js:82-88 | A layer visible after showing id is on id's path, strictly below id, or was already visible. |
| Visibility.PathRivalHidden | src/LayerService.test.js:66-72 | After showing id, no radio rival of id or of an ancestor of id is visible. |
| Visibility.UpPointwise | src/LayerService.test.js:82-88 | Raising the ancestors switches on exactly the proper ancestors, switches off the rivals' subtrees along the path, and leaves everything else alone. |
| Events.Added | src/LayerService.test.js:90-107 | on: the callback is in the list afterwards, it is appended only when absent, the list stays duplicate-free, and the old list is a prefix. |
| Events.Without | src/LayerService.test.js:109-128 | un: an absent callback leaves the list unchanged. A present one is removed once (the length drops by one) and no other callback is lost. A duplicate-free list no longer contains it. |
| Events.WithoutAdded | src/LayerService.test.js:120-127 | Registering a new callback and then removing it restores the list. |
| Events.CallsForMembers | src/LayerService.test.js:82-88 | Firing an event on one layer calls exactly the registered callbacks with that event and layer. |
| Events.DispatchMembers | src/LayerService.test.js:82-88 | Dispatching over a list of layers produces exactly the calls whose layer is listed and whose callback is registered. |
| Events.Dispatch | src/LayerService.test.js:82-88 | The number of calls is the number of layers times the number of callbacks. |
| Events.DispatchSnoc | src/LayerService.test.js:82-88 | Dispatching over one more layer appends that layer's calls to the earlier ones. |
| Events.DispatchAppend | src/LayerService.test.js:82-88 | Dispatching over two lists of layers one after the other gives the calls of the first list, then those of the second. |
| Events.RankChangedIncreasing | src/LayerService.test.js:82-88 | The changed layers of one notice class are listed in strictly increasing position order, and only positions already scanned appear. |
| Events.RankChangedMembers | src/LayerService.test.js:82-88 | A position is listed for a notice class exactly when it was scanned, has that class and changed. |
| Events.ChangedUpToMembers | src/LayerService.test.js:82-88 | A position is listed among the classes below k exactly when it changed and its class is below k. |
| Events.ChangedUpToNoDup | src/LayerService.test.js:82-88 | No position is listed twice across the classes. |
| Events.NoticeOrderMembers | src/LayerService.test.js:82-88 | When every class is valid, the notification order lists exactly the changed layers, each once. |
| Events.NoticeNone | src/LayerService.test.js:82-88 | When nothing changes, no layer is reported. |
| LayerServices.BuildIndex | src/LayerService.test.js:41-47 | Every layer name is a key, every key maps to a layer of that name, and when names repeat the last layer wins. |
| LayerServices.IndexOf | src/LayerService.test.js:109-128 | Gives the first position of the callback in the list, or None exactly when it is absent. |
| LayerServices.LayerService.constructor | src/LayerService.test.js:6-9 | The service holds the forest read from the configuration and a correct name index. Every layer starts with its configured visibility. There are no callbacks and no calls. |
| LayerServices.LayerService.GetLayers | src/LayerService.test.js:36-39 | getLayers returns one parentless layer per top-level descriptor, in order, and these rebuild to the configuration. |
| LayerServices.LayerService.GetLayersAsFlatArray | src/LayerService.test.js:31-34 | getLayersAsFlatArray returns the pre-order traversal, which is every layer exactly once in position order, carrying the configuration's pre-order names. |
| LayerServices.FlattenForest | src/LayerService.test.js:31-34 | The stack-driven walk over the forest returns exactly its pre-order traversal. |
| LayerServices.LayerService.GetLayer | src/LayerService.test.js:41-47 | getLayer finds a layer exactly when the name is configured, and the layer found carries that name. |
| LayerServices.LayerService.GetName | src/LayerService.test.js:49-53 | Looking up a layer's name finds that layer. |
| LayerServices.LayerService.GetParent | src/LayerService.test.js:49-53 | getParent gives None exactly for a top-level layer. Otherwise it gives the unique layer whose children include this one. |
| LayerServices.LayerService.GetRadioGroupLayers | src/LayerService.test.js:55-64 | With no group name (absent or empty) the result is None. Otherwise it is every layer of that group, in flat order, and nothing else. |
| LayerServices.GroupMembers | src/LayerService.test.js:55-64 | The scan over the layers collects, in increasing position order, exactly the layers whose radio group is the given one. |
| LayerServices.LayerService.On | src/LayerService.test.js:90-107 | on adds the callback to the event's list as Added does. Visibility and the call log are unchanged. |
| LayerServices.LayerService.Un | src/LayerService.test.js:109-128 | un removes the callback from the event's list as Without does. An unknown event changes nothing. |
| LayerServices.LayerService.SetVisible | src/LayerService.test.js:66-88 | The new visibility is SetVisibleSpec of the old one. For each registered callback, the log grows by one change:visible call per changed layer. The layers come in notice order: the layer itself, the rivals' layers switched off, its descendants, then its ancestors. The callbacks are unchanged. |
| LayerServices.LayerService.SetSubtree | src/LayerService.test.js:74-80 | The recursive cascade sets the subtree and nothing else. |
| LayerServices.LayerService.ExcludeRivals | src/LayerService.test.js:66-72 | The loop over siblings switches off the subtrees of the layer's radio rivals and nothing else. |
| LayerServices.LayerService.RaiseAncestors | src/LayerService.test.js:82-88 | The walk up the parents raises every ancestor and excludes the rivals at every level. |
| LayerServices.LayerService.Notify | src/LayerService.test.js:82-88 | The scan, class by class and then by position, appends exactly the dispatch of change:visible over the changed layers, in notice order. |
| LayerServices.LayerService.Emit | src/LayerService.test.js:82-88 | Calls each registered callback of the event once for the layer, in registration order. |
| Examples.ExampleForest | src/LayerService.test.js:11-29 | The test configuration reads into a seven-layer forest. Its roots are 'root' and '1'; '1-1' and '1-2' are the radio children of '1'; '1-2-1', '1-2-2' and '2' are the children of '1-2'. |
| Examples.ExampleNames | src/LayerService.test.js:11-29 | The configured names in pre-order are pairwise distinct. |
| Examples.ExampleCounts | src/LayerService.test.js:31-39 | The flat array holds 7 layers and there are 2 top-level layers. |
| Examples.ExampleLookups | src/LayerService.test.js:41-47 | 'root', '1-2-2' and '1-2' are found and '42' is not. |
| Examples.ExampleParent | src/LayerService.test.js:49-53 | The parent of '1-2' is named '1'. |
| Examples.OneTwoParent | src/LayerService.test.js:49-53 | In the test forest the layer named '1-2' is at position 3, and its parent is position 1, named '1'. |
| Examples.ExampleNoGroup | src/LayerService.test.js:55-58 | With no radio name the result is None (null). |
| Examples.ExampleRadioGroup | src/LayerService.test.js:60-63 | The 'radio' group is exactly '1-1' and '1-2'. |
| Examples.ExampleEmptyGroup | src/LayerService.test.js:60-64 | The 'no-radio' group is empty. |
| Examples.ExampleRadioToggle | src/LayerService.test.js:66-72 | After showing '1-1' it is visible. After then showing '1-2', '1-1' is hidden. |
| Examples.RadioToggle | src/LayerService.test.js:66-72 | In the test forest, from any visibility, showing '1-1' makes it visible, and showing '1-2' afterwards hides it. |
| Examples.ExampleCascade | src/LayerService.test.js:74-80 | Showing '1-2' shows '1-2-1', '1-2-2' and '2'. |
| Examples.Cascades | src/LayerService.test.js:74-80 | In the test forest, from any visibility, showing '1-2' makes '1-2-1', '1-2-2' and '2' visible. |
| Examples.ShowLeaf | src/LayerService.test.js:82-88 | With every layer hidden, showing '2' turns on exactly '1', '1-2' and '2'. |
| Examples.LeafRanks | src/LayerService.test.js:82-88 | For setting '2', '2' is class 0, its ancestors '1' and '1-2' class 3, and the other layers class 1. |
| Examples.LeafOrder | src/LayerService.test.js:82-88 | From all hidden to '1', '1-2' and '2' shown, with those classes, the report is '2', '1', '1-2'. |
| Examples.LeafNotice | src/LayerService.test.js:82-88 | With every layer hidden, showing '2' reports '2' first, then its ancestors '1' and '1-2'. |
| Examples.ToggleRanks | src/LayerService.test.js:66-72 | For setting '1-2', it is class 0, '1' class 3, its subtree class 2, and 'root' and '1-1' class 1. |
| Examples.ToggleShownAt | src/LayerService.test.js:66-80 | With '1' and '1-1' shown, showing '1-2' hides '1-1', shows '1-2' and its subtree, and keeps 'root' hidden and '1' shown. |
| Examples.ToggleOrder | src/LayerService.test.js:66-80 | With those classes, that change is reported as '1-2', '1-1', '1-2-1', '1-2-2', '2'. |
| Examples.ToggleNotice | src/LayerService.test.js:66-80 | The radio toggle, notified: with '1' and '1-1' shown, showing '1-2' reports '1-2' itself, then the rival '1-1' switched off, then the descendants in pre-order. |
| Examples.ExampleCallbackCount | src/LayerService.test.js:82-88 | One change:visible callback is called three times. |
| Examples.ExampleOn | src/LayerService.test.js:91-96 | After on('foo', cb), the first callback of 'foo' is cb. |
| Examples.ExampleOnTwice | src/LayerService.test.js:98-106 | Registering the same callback twice leaves one entry. |
| Examples.ExampleUnMissing | src/LayerService.test.js:110-118 | un of a callback that was never registered succeeds and changes nothing. |
| Examples.ExampleOnUn | src/LayerService.test.js:120-127 | on followed by un leaves the 'foo' list empty. |
| CanvasSaveButtons.FileExt | src/components/CanvasSaveButton/CanvasSaveButton.js:124 | The extension is 'jpg' exactly for 'image/jpeg' and 'png' exactly for every other format. It is three characters without a space. |
| CanvasSaveButtons.Create | src/components/CanvasSaveButton/CanvasSaveButton.js:103-124 | The button's format is saveFormat, or 'image/png' when none is given. Its extension is FileExt of that format. |
| CanvasSaveButtons.ReplaceSpaces | src/components/CanvasSaveButton/CanvasSaveButton.js:129 | Every space becomes '_' and every other character stays. The length is kept and no space remains. |
| CanvasSaveButtons.ToLowerAscii | src/components/CanvasSaveButton/CanvasSaveButton.js:129 | Every character is lowercased and no uppercase ASCII letter remains. The length is kept. |
| CanvasSaveButtons.DownloadImageName | src/components/CanvasSaveButton/CanvasSaveButton.js:127-132 | The name contains no space. It is the title, with spaces turned into '_' and lowercased character by character, then '.' and the extension. |
| CanvasSaveButtons.DownloadSuffix | src/components/CanvasSaveButton/CanvasSaveButton.js:118-132 | The name is the title's length plus 4 long. It ends in '.jpg' exactly for JPEG and in '.png' otherwise, including when no format is given. |
| CanvasSaveButtons.ReplaceLowerCommute | src/components/CanvasSaveButton/CanvasSaveButton.js:129 | Replacing spaces and lowercasing commute. |
| CanvasSaveButtons.NameIdempotent | src/components/CanvasSaveButton/CanvasSaveButton.js:127-132 | Building a name from the title part of an already built name changes nothing. |
| CanvasSaveButtons.Dpi | src/components/CanvasSaveButton/CanvasSaveButton.js:136-138 | The dpi is extraData's dpi when extraData is given and that dpi is set and non-zero. Otherwise it is 96. It is never zero. |

## Left out

- `LayerService.js`, `Layer.js` and `ConfigReader.js` are not part of this model. The behaviour of layers follows the test scenarios. Where the scenarios leave something open, the model fixes one reading:
  - the ancestor rule of `setVisible`;
  - rivalry scoped to siblings;
  - notifications sent after the whole change, in notice order, with the ancestors switched on reported last.
- The downward cascade of `setVisible(true)` is not corrected for radio groups below the layer. When a layer's children share a group, all of them become visible. The tests do not say otherwise.
- Visibility.SetVisibleRadioExclusive: for showing, it requires that no layer strictly below the shown one has a radio rival, because the unconditional downward cascade switches rivals on together.
- Duplicate layer names: the constructor requires distinct names. `ExampleNames` shows that the test configuration meets this. `BuildIndex` keeps the last layer for a repeated name, but no query depends on that.
- Layer objects are represented by their arena position. `getParent(child).getName()` becomes `GetName(GetParent(id).value)`.
- Callbacks are opaque identities, and invoking one is recorded in a log instead of run. Return values, exceptions and re-entrant `on`/`un`/`setVisible` from inside a callback are not modelled.
- CanvasSaveButtons.ToLowerAscii: lowercases ASCII letters only. JavaScript's `toLowerCase` also maps non-ASCII letters.
- `window.document.title` is a parameter of `DownloadImageName`.
- CanvasSaveButtons.Dpi: JavaScript truthiness of `extraData.dpi` is modelled for an optional integer (absent or 0 means 96). Non-integer values (fractions, NaN) are not modelled.
- The canvas pipeline of `createCanvasImage` is not modelled, because it is browser drawing:
  - the `scaleFactor` at line 139;
  - the `precompose`/`postcompose` handlers;
  - the drawing onto a new canvas.
- `downloadCanvasImage` (lines 185-219) is not modelled: it is DOM and blob I/O.
- The React component, its `PropTypes` (lines 1-111) and `render` (lines 221-239) are not modelled: they are UI.
- The `jest` harness and `jest-canvas-mock` are not modelled. Its scenarios are restated as proved methods in `Examples`.
