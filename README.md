# local_session: file callback and settings-navigation contributor

This project models the two callbacks that the Moodle plugin `local_session`
registers with its host in `lib.php`, and proves what they do.

- `local_session_pluginfile` serves or refuses a stored file. Module
  `FileGate` models it as a pure decision over the request. The SHA-1 digest
  is a function parameter, the host's file store is a map from digest to
  stored file, and `Served` is the call to `send_stored_file`.
- `local_session_extend_settings_navigation` adds links to the course-admin
  node of the settings tree and then hides some of its children. Module
  `Navigation` models it as a method over the class
  `SettingsTree.CourseAdminNode`. That class holds the node's children (key
  and hidden flag, in the order the host lists them) and a log of the
  `add_node` calls, each with its `beforekey` anchor. As the host does,
  `add_node` inserts the new child just before the first child keyed by the
  anchor, or last when there is no anchor. The method is proved against the
  pure specification `Navigation.Contribute`. Module `NavigationRules` holds
  the rule table behind it:
  - the ten gated nodes, in the source's order;
  - the capability conditions of each node;
  - the link each node gets;
  - the list of keys to hide.
- `PhpStrings` states on `seq<char>` the PHP builtins the callbacks call:
  `implode` (lib.php:54), `strpos(...) !== false` (lib.php:254), and the
  interpolation of an integer into a string (lib.php:55). It also defines
  `Explode`, PHP's `explode` for a one-character delimiter. The plugin does
  not call it. It is the inverse of `implode` that the proofs use to show
  that a composed path keeps its fields apart.

Three behaviours of the code as written are modelled and proved rather than
corrected.

- **Unset `$contextid`.** `$contextid` is assigned only inside the
  `local/session:update` branch (lib.php:104), but the content-bank link reads
  it (lib.php:124). With the content-bank capability alone, the link carries
  no context id. The model writes this as `Option<int>`; see
  `NavigationRules.ContentBankContextId`.
- **`session_to_training` is never hidden.** PHP's `+` on two list arrays is
  a union by index. At lib.php:255 the left operand already has index 0
  (`gradebooksetup`), so the right operand's `session_to_training` is
  dropped. The hide list used away from the course-admin page therefore has
  twelve keys, and `session_to_training` is on no list at all.
- **The new `notes` link can be hidden.** The hide list used away from the
  course-admin page names `notes`, and the contributor may just have added a
  `notes` link. The new links go just before `editsettings` (or last, when
  the node has no `editsettings` child), and `get` returns the first child
  with a key.
  - When an original `notes` child stands before that place, it is the one
    hidden, and the new link stays visible.
  - Otherwise the new link is the one hidden. An original `notes` child past
    `editsettings` then stays as it was, because `get` meets the new link
    first.

  See `Navigation.AddedChildFlag` and `Navigation.OriginalChildFlag`.

Capabilities are a datatype; `NavigationRules.CapabilityName` gives each one
the name the host knows it by. Session statuses are the three that the
enrolment condition tests for, plus any other status.

## Model

| member | source | states |
|---|---|---|
| FileGate.Pluginfile | lib.php:46-66 | The file is served exactly when the context is a course context, the store has an entry under the SHA-1 of the composed path, and that entry is not a directory. What is served is that entry, together with the caller's download flag and options. |
| FileGate.NonCourseContextRefusedBeforeLookup | lib.php:49-51 | A context of any other level is refused, whatever the digest function and the store are: no lookup is made. |
| FileGate.DecisionDependsOnlyOnLookupEntry | lib.php:53-63 | Two stores that agree on the entry under the lookup digest give the same outcome. |
| FileGate.FullPath | lib.php:54-55 | Definition: `/`, the context id, `/local_session/`, the file area, `/`, then the arguments joined by `/`. `FullPathFields`, `ExplodeFullPath` and `FullPathDeterminesContext` state its properties. |
| FileGate.LookupKey | lib.php:54-57 | Definition: the SHA-1 of the composed path, the key under which the store is searched. `Pluginfile` and `DecisionDependsOnlyOnLookupEntry` state what the outcome takes from it. |
| FileGate.FullPathFields | lib.php:54-55 | The composed path is the `/`-join of an empty field, the context id, `local_session`, the file area and the arguments; with no arguments, an empty last field gives the trailing `/`. |
| FileGate.ExplodeFullPath | lib.php:54-55 | When neither the file area nor any argument holds a `/`, splitting the composed path at `/` gives back every field it was built from. With no arguments, the last field is a single empty one. |
| FileGate.FullPathDeterminesContext | lib.php:55 | Two equal composed paths have the same context id: files of different contexts never share a lookup path. Their lookup keys can still coincide through a digest collision, since the digest is a parameter. |
| PhpStrings.Implode | lib.php:54 | `implode` of no pieces is the empty string, and of one piece is that piece; otherwise it is the pieces with the glue between neighbours (definition). `ExplodeImplode` states that the pieces can be recovered. |
| PhpStrings.ExplodeImplode | lib.php:54 | Splitting an `implode` at its one-character glue gives the pieces back, when there is at least one piece and none holds the glue. |
| PhpStrings.Contains | lib.php:254 | Definition: the left-to-right search that `strpos(...) !== false` performs. `ContainsIffOccurs` states its meaning. |
| PhpStrings.ContainsIffOccurs | lib.php:254 | The left-to-right search succeeds exactly when some position of the haystack holds the needle. |
| PhpStrings.Decimal | lib.php:55 | The interpolation of a non-negative integer has at least one character, and every character is a decimal digit. `ParseDecimalOfDecimal` and `DecimalInjective` state that the digits determine the number. |
| PhpStrings.ParseDecimalOfDecimal | lib.php:55 | The digits interpolated for a non-negative integer read back as that integer. |
| PhpStrings.DecimalInjective | lib.php:55 | Different context ids are interpolated as different strings. |
| SettingsTree.FirstIndex | lib.php:97 | `get` finds no child exactly when no child has the key. Otherwise it finds a child with the key, and no earlier child has it. |
| SettingsTree.HideKey | lib.php:272-273 | One `get(...)->hide()` keeps the number of children. By definition it hides the child `FirstIndex` finds and does nothing when there is none. `HideKeyKeepsKeys` states that keys are kept. |
| SettingsTree.HideAll | lib.php:271-275 | The hide loop keeps the number of children. By definition it applies `HideKey` for each listed key, in list order. `HideAllEffect`, `HideAllAt`, `ListedKeysHidden` and `UnlistedKeysUntouched` state its effect. |
| SettingsTree.HideKeyKeepsKeys | lib.php:272-273 | Hiding a child changes flags only: the key list is unchanged. |
| SettingsTree.HideAllEffect | lib.php:271-275 | After the hide loop, the children keep their keys in order. A child ends hidden exactly when it was hidden before or is the first child with a listed key. |
| SettingsTree.ListedKeysHidden | lib.php:271-275 | A listed key that some child carries ends hidden on the first child with that key. |
| SettingsTree.UnlistedKeysUntouched | lib.php:271-275 | A child whose key is not listed is left exactly as it was. |
| SettingsTree.CourseAdminNode.Get | lib.php:97 | Definition: `get(key)` on the node, the position `FirstIndex` gives for its children. `FirstIndex` states its meaning. |
| SettingsTree.CourseAdminNode.KeyList | tests/lib_test.php:221 | Definition: `get_children_key_list()`, the children's keys in order. `Navigation.ExtendSettingsNavigation` and `Navigation.ContributeKeys` state it after the contributor has run. |
| SettingsTree.Place | lib.php:116 | Where `add_node` puts a new child: at the first child keyed by the anchor, which no earlier child carries, or after the last child when there is no anchor or no child has its key. |
| SettingsTree.CourseAdminNode.AddNode | lib.php:116 | `add_node` inserts one visible child with the node's key at `Place`, keeps every other child in order, and logs the call with its anchor. |
| SettingsTree.HideAllAt | lib.php:271-275 | After the hide loop, the child at a given place keeps its key, and ends hidden exactly when it was hidden before or is the first child with a listed key. |
| SettingsTree.AddedBefore | lib.php:116-246 | Definition: the children after a series of `add_node` calls with one anchor. The new children stand in call order where `Place` puts the first of them. `AddedBeforeStep`, `AddedBeforeFront`, `AddedBeforeBack` and `AddedBeforeAdded` state its properties. |
| SettingsTree.AddedBeforeStep | lib.php:116-246 | One more call with the same anchor, which no earlier new child carries, puts its child after the earlier new ones and still before the anchor. |
| SettingsTree.AddedBeforeFront | lib.php:116-275 | An original child before the anchor keeps its place and key through the calls and the hide loop. It ends hidden exactly when it was hidden or is the first child with a listed key. |
| SettingsTree.AddedBeforeBack | lib.php:116-246 | An original child at or past the anchor moves past the new children with its key and flag. It is then the first with a listed key exactly when it was so before and no new child carries that key. |
| SettingsTree.AddedBeforeAdded | lib.php:116-275 | The `n`-th new child, whose key no earlier call used, stands `n` places past the anchor's place. It ends hidden exactly when its key is listed and no original child before the anchor has that key. |
| SettingsTree.CourseAdminNode.Hide | lib.php:273 | `hide` sets the flag of that one child and changes nothing else. |
| NavigationRules.EnrolmentOpen | lib.php:148-152 | Definition: the status is none of archived, completed and cancelled. `ClosedSessionHasNoEnrolLink` states its effect. |
| NavigationRules.Gate | lib.php:101-236 | Definition: the condition of each of the ten `if`s. That is one capability per node, both grade capabilities for `notes`, and `local/mentor_core:importusers` together with `EnrolmentOpen` for the enrolment link. `GatedIsWhens`, `AddedIffGated` and `Navigation.AddFirstFive` tie it to the `if`s. |
| NavigationRules.CreateNode | lib.php:108-245 | The node created for each `if` carries that node's key. Its route, parameters and node type are given by definition; `CreateNodeShape`, `RouteParameters` and `ContentBankContextId` state them. |
| NavigationRules.KeyName | lib.php:112-243 | Definition: the key literal of each of the ten `navigation_node::create` calls. `KeyNameInjective`, `NodeNamedKeyName` and `KeyNameNotHostKey` state its properties. |
| NavigationRules.CapabilityName | lib.php:101-236 | Definition: the capability string each `has_capability` call passes, for each capability of the model. |
| NavigationRules.KeyNameInjective | lib.php:112-242 | The ten nodes are created with ten different keys. |
| NavigationRules.NodeNamedKeyName | lib.php:112-242 | Each node is found again under its key. |
| NavigationRules.Anchor | lib.php:95-99 | The anchor is `editsettings` exactly when the node has a child with that key, and null otherwise. |
| NavigationRules.ContextIdAtContentBank | lib.php:101-104 | `$contextid` holds the session's context id exactly when the update capability is held, and is unset otherwise. |
| NavigationRules.CreateNodeShape | lib.php:108-245 | Only the enrolment and duplication links are user-type nodes. Only the `training` node links to the session sheet, and that link returns to the current page's URL. |
| NavigationRules.GatedIsWhens | lib.php:101-247 | Building one call per gated node equals running the source's `if`s one after another. |
| NavigationRules.NodeFor | lib.php:101-247 | The call for one node carries that node's key and the given anchor. Its node is `CreateNode`'s, with `$contextid` as the update branch leaves it. |
| NavigationRules.Planned | lib.php:101-247 | Definition: the sequence of `add_node` calls, one `NodeFor` per gated node, in `NodeOrder`. `GatedIsWhens`, `PlannedKeys`, `PlannedAnchor`, `AddedIffGated`, `PlannedKeysDistinct` and `PlannedEntry` state its properties. |
| NavigationRules.PlannedKeys | lib.php:101-247 | The `add_node` calls carry the keys of the gated nodes, in the source's order, one call per gate passed. |
| NavigationRules.PlannedAnchor | lib.php:116-246 | Every call is given the one anchor chosen before the first call. |
| NavigationRules.WhensAvoidAnchor | lib.php:112-242 | No call creates a node keyed `editsettings`. So while the calls run, the original `editsettings` child stays the first child with that key, though each insertion moves it one place on (`SettingsTree.PlaceAfterInserted`). |
| NavigationRules.KeyNameNotHostKey | lib.php:112-242 | No node the contributor creates has the key `editsettings` or `gradebooksetup`. |
| NavigationRules.SkippedWhen | lib.php:147-165 | An `if` whose condition fails adds no call. |
| NavigationRules.AddedIffGated | lib.php:101-247 | A node's key is among the calls exactly when its gate holds. |
| NavigationRules.PlannedKeysDistinct | lib.php:101-247 | No two calls use the same key. |
| NavigationRules.ClosedSessionHasNoEnrolLink | lib.php:147-165 | An archived, completed or cancelled session gets no `enroll_users` link, whatever the capabilities. |
| NavigationRules.NotesNeedsBothGradeCapabilities | lib.php:223-233 | The `notes` link is added exactly when both `gradereport/grader:view` and `moodle/grade:viewall` are held. |
| NavigationRules.EveryCapabilityAddsEveryNode | lib.php:101-247 | With every capability and a session still open for enrolment, all ten keys are added, in order. |
| NavigationRules.NoCapabilityAddsNothing | lib.php:101-247 | With no capability, no call is made. |
| NavigationRules.PlannedEntry | lib.php:101-247 | Every call made is the call for a node whose gate holds. |
| NavigationRules.ContentBankContextId | lib.php:119-131 | The content-bank link carries the session's context id when the update capability is held, and an unset value otherwise. |
| NavigationRules.RouteParameters | lib.php:93 | Every other host-page link carries the session's own id (for `session_to_training`) or the id of the session's course (for all the others). |
| NavigationRules.PhpArrayUnion | lib.php:255 | PHP's `+` on list arrays keeps every entry of the left operand and, from the right operand, only the entries at indexes past the left one's end. |
| NavigationRules.HideList | lib.php:249-269 | The hide list always starts with `gradebooksetup`. |
| NavigationRules.HideListOnAdminPage | lib.php:249-254 | On the course-admin page, only `gradebooksetup` is listed. |
| NavigationRules.HideListOutsideAdminPage | lib.php:253-269 | Elsewhere, the list has twelve keys: every key of the literal except `session_to_training`, which the union drops. |
| NavigationRules.SessionToTrainingNeverListed | lib.php:249-269 | `session_to_training` is listed for no URL. |
| NavigationRules.KeyNameListed | lib.php:223-269 | Of the keys the contributor creates, only `notes` is ever listed, and only away from the course-admin page. |
| NavigationRules.PlannedKeyListed | lib.php:223-269 | A call's key is listed exactly when it is `notes` and the page is not the course-admin page. |
| Navigation.Proceeds | lib.php:80-87 | Definition: the page has a course, that course is not the site course, and a session is linked to it. `ExtendSettingsNavigation` states that the node is unchanged otherwise. |
| Navigation.Extended | lib.php:95-247 | Definition: the children after the contributor's calls and before the hide loop: `AddedBefore` with the anchor `Anchor` and the calls `Planned`. `ContributeKeys` and `OriginalChildFlag` state its properties. |
| Navigation.Contribute | lib.php:76-277 | Definition: the reference end state. The children of the gated calls are inserted at the anchor, then the hide loop runs with the page's list. `ExtendSettingsNavigation` ties the method to it; `ContributeKeys`, `OriginalChildFlag` and `AddedChildFlag` state its properties. |
| Navigation.AnchorPlace | lib.php:95-99 | The new links go just before the first `editsettings` child when the node has one, and after the last child otherwise. |
| Navigation.ExtendSettingsNavigation | lib.php:76-277 | On an early return (no course, the site course, no linked session), the node is unchanged. Otherwise the calls logged are those of the rule table, the children end as `Contribute` gives them, and the key list is the original one with the gated nodes' keys, in the source's order, just before `editsettings` (or last, when the node has no such child). |
| Navigation.AddGranted | lib.php:101-247 | The ten `if`s together make exactly the rule table's calls, and insert exactly their children at the anchor, in call order. |
| Navigation.AddFirstFive | lib.php:101-179 | The first five `if`s, with the conditions as the source writes them (the enrolment link's capability test nested in its status test), make the calls of the first five gated nodes and insert their children at the anchor. |
| Navigation.AddLastFive | lib.php:181-247 | The last five `if`s carry on from the first five and end with the calls and children of all ten. |
| Navigation.AddWhen | lib.php:119-131 | One `if` makes its call, and inserts its child after the earlier new ones at the anchor, exactly when its gate holds. |
| Navigation.HideListed | lib.php:271-275 | The hide loop leaves the children as the reference `HideAll` gives them and does not touch the call log. |
| Navigation.ContributeKeys | lib.php:76-277 | The contributor removes and reorders no original child. The key list is the original keys before the anchor, then the gated node keys in the source's order, then the original keys from the anchor on. |
| Navigation.EveryCapabilityKeyList | tests/lib_test.php:236-244 | With every capability and an open session, all ten new keys, in the source's order, stand at the anchor's place amid the original keys. |
| Navigation.OriginalChildFlag | lib.php:249-275 | An original child keeps its key and stays in place before the anchor, or moves past the new links. It ends hidden exactly when it was hidden before, or it is the first child with a listed key and no new link with that key was inserted in front of it. |
| Navigation.AddedChildFlag | lib.php:223-275 | A new link keeps its call's key. It ends hidden exactly when it is the `notes` link, no original `notes` child stands before the anchor, and the page is not the course-admin page. |
| Navigation.AdminPageAddedLinksVisible | lib.php:249-275 | On the course-admin page, every added link stays visible. |
| Navigation.GradebookSetupHidden | lib.php:249-251 | The first `gradebooksetup` child, if any, always ends hidden, wherever it stands relative to the anchor. |
| Navigation.SessionToTrainingChildUntouched | lib.php:255-256 | An original `session_to_training` child is left exactly as it was, on every page. |

## Left out

- `require_login` (lib.php:47) is a host call that signals by exception; the model starts after it.
- `get_file_storage`, `sha1` and `send_stored_file` are host code. The digest is a function parameter and the store a map. The `Served` outcome stands for the send; the zero lifetime and filter arguments are not modelled.
- `has_capability`, `get_session_by_course_id` and `$settingsnav->find` are host calls. They become parameters: the capability set, `Option<Session>`, and a possibly null `CourseAdminNode`.
- `$PAGE` becomes the `Page` parameter: the course id, or none, and the URL as a string. `moodle_url::out()` escaping and the string conversion of `$PAGE->url` are not modelled.
- Labels (`get_string`, the literal `Carnet de notes`) and `pix_icon` icons are not modelled. They are host strings and affect no decision.
- The URL of the session sheet is reduced to the return address it is built from; building the sheet URL is host code.
- The host's `add_node` and `navigation_node_collection` are not part of this model. `CourseAdminNode.AddNode` states their placement rule: just before the child keyed `beforekey`, or last. How the host stores the children, and its other lookup structures, are not modelled.
- `get` searches the node's direct children only, as the host's `navigation_node::get` does.
- `$contextid` unset: the content-bank link reads `$contextid` even when the update branch did not assign it (lib.php:104, lib.php:124). The model gives the link no context id (`None`). The undefined-variable warning PHP emits then (a notice before PHP 8) is a side effect on the host's log and is not modelled.
- Context ids are natural numbers, so their interpolation has no minus sign.
- The site-course test compares with the constant 1 (`Navigation.SiteCourseId`), as the source does; the host's `SITEID` setting is not consulted.
- The unit tests' checks against the live host tree (tests/lib_test.php:133-156) depend on the host's default children and are not modelled.
