# Note-taking: a verified model of the node-tree engine

The application keeps a second brain as a forest of `KnowledgeNode`s —
folders, notes, to-dos and learning sessions. Each node owns the ordered
list of its children. Everything else is derived from this forest:

- the sidebar tree;
- full-text search with breadcrumbs;
- wiki links (`[[Title]]`) and their backlinks;
- Markdown export;
- the to-do views and the dashboard.

The forest is changed only by copy-on-write helpers (update, add, delete,
duplicate, move), called from the `setState` reducers of the top-level
component.

The model is organised as follows:

- `types.dfy` holds the records of `types.ts` as datatypes. A field marked `?` or `| null` becomes an `Option`.
- `fixture.dfy` holds the starting forest of `constants.ts`.
- `tree.dfy`, `edits.dfy`, `search.dfy`, `links.dfy` and `export.dfy` model `utils/fileHelpers.ts`.
- `todos.dfy` models `utils/todoHelpers.ts`.
- `app.dfy` models the reducers of `App.tsx`.
- `dashboard.dfy`, `tododetail.dfy`, `todosection.dfy`, `editor.dfy` and `timer.dfy` model the small pure cores of the components.
- `seqs.dfy`, `strs.dfy` and `wrappers.dfy` are generic helpers: filter, subsequence, lower-casing, `includes`, `<` on strings, `join` and number printing.

Both styles of the source are kept:

- The recursive helpers are functions over `seq<Node>`.
- The loops are methods with loop invariants, each proved equal to a specification function: the `forEach` flatteners, the `for...of` of `findNode` and the handler `handleOpenDailyJournal`.
- The dashboard's `Array.sort` calls on the task columns sort an `array` in place, with an insertion sort.
- `sortTodos` sorts a copy, so it is a function.

`Partial<KnowledgeNode>` is the datatype `Patch`. Each optional field of a patch is an `Option<Option<T>>`:

- the outer `None` is a missing key;
- `Some(None)` is a key set to `undefined`, which object spread copies over the old value.

`generateId`, `Date.now`, the ISO "today" and the locale strings are parameters. Fresh clone ids come from an id supply `gen: nat -> string`, read from an offset `k`.

Behaviours of the code worth noting; the model follows the code in each:

- `getTodoStats.total` counts completed to-dos too.
- `findChildByTitle` compares titles exactly, while `findNodeByTitle` lower-cases them.
- The move guard against dropping a node into its own subtree covers folders only. A note or to-do dropped there is lost.
- A move to a target that does not exist also loses the node.
- A node created with no parent while a folder is active goes into that folder, but keeps `parentId: null`.
- Quick add with no root `Inbox` folder falls back to the active folder, although the comment at components/TodoSection.tsx:38 says "(or root if Inbox missing)".
- `generateMarkdown` drops every empty line, including the blank separators and an empty content.
- The dashboard's `dueToday` column tests only `dueDate === today`.
- The completion rate rounds, so it shows 100 % while one to-do in more than 200 is open.
- Deleting an ancestor of the active node leaves `activeNodeId` pointing at a node that no longer exists.
- Cloned descendants keep their original `parentId`, which names the original parent, not the clone.

## Model

| member | source | states |
|---|---|---|
| Types.Merge | utils/fileHelpers.ts:20 | object spread: a patch without a title or children keeps the node's, and a patch id wins |
| Types.MergeEmpty | utils/fileHelpers.ts:20 | spreading the empty object `{}` leaves a node unchanged |
| Fixture.InitialFlatten | constants.ts:3-38 | the initial forest in pre-order is My Projects, Learn React Native, Inbox |
| Fixture.InitialIds | constants.ts:5 | the ids are exactly `root-1`, `p-1`, `root-2` in pre-order, and no id occurs twice |
| Fixture.InitialLinked | constants.ts:6 | roots have a null parent and `p-1` names `root-1`, the folder that holds it |
| Fixture.InitialInbox | constants.ts:27-32 | a top-level folder titled `Inbox` exists |
| Fixture.InitialNoTodos | constants.ts:7 | every initial node is a folder, so `getAllTodos` of the fixture is empty |
| Tree.Flatten | utils/fileHelpers.ts:157-166 | definition: each node, then its children's listing, then the later siblings' (pre-order); `FlattenNodes`, `FlattenCount` and `FlattenMembers` state its meaning |
| Tree.FlattenNodes | utils/fileHelpers.ts:157-166 | the `forEach` loop computes the pre-order listing `Flatten` |
| Tree.FlattenCount | utils/fileHelpers.ts:157-166 | the flattening has exactly one entry per node of the forest |
| Tree.FlattenMembers | utils/fileHelpers.ts:157-166 | a node is in the flattening if and only if it occurs in the forest at some depth |
| Tree.FlattenAppend | utils/fileHelpers.ts:159-164 | flattening distributes over concatenation of forests |
| Tree.Find | utils/fileHelpers.ts:60-69 | a found node is in the flattening and has the id; nothing is found if and only if no node has the id |
| Tree.FindCons | utils/fileHelpers.ts:61-67 | lookup tries the head, then its subtree, then the later siblings, in that order |
| Tree.FindAppend | utils/fileHelpers.ts:61-68 | lookup in a concatenation is the first success, left forest first |
| Tree.FindNode | utils/fileHelpers.ts:60-69 | the `for...of` loop with early return computes `Find`, the first pre-order node with the id |
| Tree.FindChildByTitle | utils/fileHelpers.ts:72-86 | exact title match; at the root only among nodes with a null parent, otherwise among the children of the found parent; nothing when the parent is missing; `None` exactly when no candidate has the title |
| Edits.Update | utils/fileHelpers.ts:13-30 | definition: every node with the id, at any depth, is merged with the patch and stamped; its properties are the `Update...` and `FindAfterUpdate` lemmas |
| Edits.UpdateUnknown | utils/fileHelpers.ts:13-30 | an id that is not in the forest leaves it unchanged |
| Edits.UpdateKeepsIds | utils/fileHelpers.ts:18-29 | a patch that leaves id and children alone keeps the pre-order id sequence |
| Edits.UpdateKeepsShape | utils/fileHelpers.ts:18-29 | such a patch keeps the forest's shape: the id tree `Outline`, every node's id with its nesting, is unchanged |
| Edits.FindAfterUpdate | utils/fileHelpers.ts:19-20 | the updated node is the old node spread with the patch and stamped with `updatedAt = now` |
| Edits.FindOtherAfterUpdate | utils/fileHelpers.ts:18-29 | any other node that holds no updated node is unchanged |
| Edits.AddChild | utils/fileHelpers.ts:33-57 | definition: a null parent appends to the roots, otherwise `AddUnder`; see `AddToRoot` and `AddChildLinked` |
| Edits.AddUnder | utils/fileHelpers.ts:33-57 | definition: a node with the parent id gets the new child last and is stamped, and is not entered; see `AddUnknown`, `FindAfterAdd`, `AddUnderIds` and `FindOtherAfterAdd` |
| Edits.AddToRoot | utils/fileHelpers.ts:38-40 | with a null parent the new subtree is appended after the whole forest |
| Edits.AddUnknown | utils/fileHelpers.ts:41-56 | an unknown parent id leaves the forest unchanged |
| Edits.FindAfterAdd | utils/fileHelpers.ts:42-47 | the parent gets the new node as its last child and a fresh `updatedAt` |
| Edits.AddUnderIds | utils/fileHelpers.ts:41-56 | with one parent of that id, the forest gains exactly the new subtree's ids |
| Edits.AddUnderLinked | utils/fileHelpers.ts:41-56 | adding a node whose `parentId` names its parent keeps every `parentId` pointing at its holder |
| Edits.AddChildLinked | utils/fileHelpers.ts:33-57 | the same for both branches of `addChildToNode` over a whole forest |
| Edits.AddUnderKeepsAbsent | utils/fileHelpers.ts:41-56 | an id absent from the forest and from the added node is absent after the add |
| Edits.FindOtherAfterAdd | utils/fileHelpers.ts:41-56 | a node whose subtree holds no parent of that id, and whose id the added subtree does not reuse, is found unchanged |
| Edits.Delete | utils/fileHelpers.ts:89-101 | definition: drop the nodes with the id at each level and recurse into the survivors with children; see the `Delete...` lemmas |
| Edits.DeleteUnknown | utils/fileHelpers.ts:89-101 | deleting an id that is not in the forest changes nothing and removes nothing |
| Edits.DeleteRemoves | utils/fileHelpers.ts:90-100 | no node with the deleted id is left at any depth |
| Edits.DeletePartition | utils/fileHelpers.ts:89-101 | the old ids are exactly the kept ids plus the ids of the dropped subtrees |
| Edits.DeleteKeepsOrder | utils/fileHelpers.ts:89-101 | the surviving ids keep their relative pre-order |
| Edits.RemovedSingle | utils/fileHelpers.ts:91 | with one node of that id, exactly its subtree is dropped |
| Edits.DeleteSubtree | utils/fileHelpers.ts:89-101 | with one node of that id, the delete removes exactly that node and its descendants |
| Edits.DeleteLinked | utils/fileHelpers.ts:89-101 | deleting keeps every `parentId` pointing at the node that holds it |
| Edits.DeleteKeepsAbsent | utils/fileHelpers.ts:89-101 | an id absent from the forest is absent after a delete |
| Edits.FindOtherAfterDelete | utils/fileHelpers.ts:89-101 | a node outside the dropped subtrees, with no node of the deleted id below it, is found unchanged |
| Edits.CloneAll | utils/fileHelpers.ts:104-114 | cloning a child list keeps its length |
| Edits.CloneAllCons | utils/fileHelpers.ts:105-112 | a clone takes the next fresh id, copies the fields, then clones the children and the later siblings from the following ids |
| Edits.CloneAllCopies | utils/fileHelpers.ts:104-114 | the clone has the original's shape at every depth; each node's title gets " (Copy)", both timestamps are `now`, and every other field is copied |
| Edits.CloneCount | utils/fileHelpers.ts:112 | the clone has as many nodes as the original |
| Edits.CloneAllIds | utils/fileHelpers.ts:105-112 | the clone's ids are the next `Count` ids of the supply, in pre-order |
| Edits.CloneChildrenKeepParent | utils/fileHelpers.ts:107 | cloned children keep the original's `parentId`, because the spread copies it |
| Edits.CloneLevel | utils/fileHelpers.ts:107 | each cloned sibling keeps its original `parentId` |
| Edits.Duplicate | utils/fileHelpers.ts:116-127 | definition: at each level a hit is followed by its deep clone and not entered, a miss is searched inside; see the `Duplicate...` lemmas |
| Edits.DuplicateHit | utils/fileHelpers.ts:118-121 | a matching node is followed by its clone in the same list |
| Edits.DuplicateMiss | utils/fileHelpers.ts:122-125 | a node that does not match is kept, with the duplicate applied to its children |
| Edits.DuplicateUnknown | utils/fileHelpers.ts:116-127 | an unknown id leaves the forest unchanged |
| Edits.DuplicateAtRoot | utils/fileHelpers.ts:116-127 | a root that is the only node with its id gets its clone inserted immediately after it |
| Edits.DuplicateIds | utils/fileHelpers.ts:116-127 | with one node of that id, the forest gains exactly the clone's fresh ids |
| Edits.IsWithin | utils/fileHelpers.ts:140-143 | definition: the id of the node or, recursively, of one of its children; `IsWithinIds` states its meaning |
| Edits.IsWithinIds | utils/fileHelpers.ts:140-143 | `isChildOfMovingNode` holds if and only if the target is the node or one of its descendants |
| Edits.WithinAny | utils/fileHelpers.ts:142 | `some` over the children holds if and only if the target is among their subtrees' ids |
| Edits.Move | utils/fileHelpers.ts:130-154 | definition: a missing node or a folder dropped into its own subtree under a truthy target is refused, otherwise delete and re-add with the new parent; see the `Move...` lemmas |
| Edits.MoveRefused | utils/fileHelpers.ts:135-148 | a missing node, or a folder dropped onto itself or a descendant, leaves the forest unchanged |
| Edits.MoveToRoot | utils/fileHelpers.ts:151-153 | moving to the root detaches the node and appends it with a null parent, keeping every id |
| Edits.MoveIntoTarget | utils/fileHelpers.ts:151-153 | moving under a target outside its subtree makes the node the target's last child, with that target as `parentId`, keeping every id |
| Edits.MoveIntoOwnSubtreeDrops | utils/fileHelpers.ts:145-153 | a non-folder moved into its own subtree is deleted and not re-added |
| Edits.MoveToMissingDrops | utils/fileHelpers.ts:151-153 | a move to a target id no node carries deletes the node and does not re-add it |
| Edits.MoveLeavesOthers | utils/fileHelpers.ts:151-153 | any node outside the moved subtree, holding neither the moved node nor the target, is found unchanged after the move |
| Edits.FindLinked | utils/fileHelpers.ts:60-69 | in a linked forest, the found node's children name it as parent |
| Edits.MoveLinked | utils/fileHelpers.ts:130-154 | every move keeps each `parentId` naming the node that holds it |
| Search.Crumbs | utils/fileHelpers.ts:174-188 | definition: each node with its parent's path, then its children with the path extended by its label; see `CrumbsAreTrail` and `CrumbsNodes` |
| Search.Label | utils/fileHelpers.ts:178 | the label of a node, `title` or else `Untitled`, is never empty |
| Search.FlattenWithBreadcrumbs | utils/fileHelpers.ts:174-188 | the `forEach` loop lists each node in pre-order with its parent's path |
| Search.CrumbsAreTrail | utils/fileHelpers.ts:178-184 | the path built as the loop goes is the ancestors' labels joined by " / " |
| Search.TopLevelPaths | utils/fileHelpers.ts:174 | from the default empty path, roots get '' and every node gets its ancestors' labels joined by " / " |
| Search.CrumbsNodes | utils/fileHelpers.ts:174-188 | the breadcrumb listing visits exactly the nodes of `flattenNodes`, in the same order |
| Search.Matches | utils/fileHelpers.ts:190-197 | definition: a truthy title or content containing the lower-cased query after lower-casing; see `SearchNodes` and `TitleMatch` |
| Search.SearchNodes | utils/fileHelpers.ts:190-198 | an empty query gives []; otherwise the result is the pre-order subsequence of entries whose title or content contains the lower-cased query, all of them |
| Search.SearchIgnoresCase | utils/fileHelpers.ts:192 | the case of the query does not matter |
| Search.SearchFindsEveryMatch | utils/fileHelpers.ts:190-198 | every matching node of the forest is found, with its ancestors' breadcrumb as path |
| Search.TitleMatch | utils/fileHelpers.ts:195 | a title containing the query in any case matches |
| Links.FindNodeByTitle | utils/fileHelpers.ts:201-204 | the result is a node of the forest whose title equals the asked one ignoring case; `undefined` exactly when there is none |
| Links.FindNodeByTitleIgnoresCase | utils/fileHelpers.ts:203 | the case of the asked title does not matter |
| Links.Escape | utils/fileHelpers.ts:209 | escaping never shortens the title |
| Links.EscapeAppend | utils/fileHelpers.ts:209 | the global replace acts on each character independently |
| Links.UnescapeEscape | utils/fileHelpers.ts:209 | the escaped title, read as a regular expression, stands for exactly the title |
| Links.BacklinkPatternLiteral | utils/fileHelpers.ts:209 | the backlink expression stands for the literal `[[title]]` |
| Links.FindBacklinks | utils/fileHelpers.ts:206-211 | an empty title gives []; the result is a pre-order subsequence of the forest |
| Links.BacklinksAreMentions | utils/fileHelpers.ts:206-211 | a node is listed if and only if its content contains `[[title]]`, ignoring case |
| Links.EmptyMentionsNothing | utils/fileHelpers.ts:210 | an empty content holds no link, so the `n.content &&` guard drops nothing more |
| Links.OtherBacklinks | components/NodeEditor.tsx:143 | the listed backlinks are those of the node's title minus the nodes with the same id, in order |
| Export.Document | utils/fileHelpers.ts:215-231 | the reference document: the seven header lines, the optional lines that are present, then the fence, the heading and a non-empty content |
| Export.MarkdownLines | utils/fileHelpers.ts:214-234 | `generateMarkdown` is the reference document's lines joined by newlines |
| Export.MarkdownStart | utils/fileHelpers.ts:216-218 | the export opens with the fence, the id line and the title line |
| Export.ExportFileName | utils/fileHelpers.ts:242 | the file name is as long as the title plus `.md`, and its stem holds only lower-case letters, digits and `_` |
| Export.SafeTitleKept | utils/fileHelpers.ts:242 | a title already made of those characters is used as it is |
| Export.FileNameCollision | utils/fileHelpers.ts:242 | titles differing only in letter case or in which punctuation they use get the same file name |
| Export.FileNameIdempotent | utils/fileHelpers.ts:242 | applying the rule to a file name's stem again changes nothing |
| Todos.GetAllTodos | utils/todoHelpers.ts:5-7 | the to-dos are a pre-order subsequence of `flattenNodes` |
| Todos.AllTodosMembers | utils/todoHelpers.ts:5-7 | a node is listed if and only if it is a to-do somewhere in the tree |
| Todos.Keeps | utils/todoHelpers.ts:12-31 | definition: the test of each filter; see `FilterTodos`, `OpenOrCompleted` and `OneDateFilter` |
| Todos.FilterTodos | utils/todoHelpers.ts:12-31 | every filter keeps exactly the to-dos its test accepts, as an order-preserving subsequence |
| Todos.OpenOrCompleted | utils/todoHelpers.ts:16-19 | 'all' and 'completed' split any to-do list between them |
| Todos.OneDateFilter | utils/todoHelpers.ts:20-27 | with a non-empty today, an open to-do passes exactly one of today, overdue, upcoming and no-date |
| Todos.DateFiltersPartition | utils/todoHelpers.ts:20-27 | the four date filters' sizes add up to the size of the 'all' list |
| Todos.Weight | utils/todoHelpers.ts:35-43 | the weight is 0 to 4, and 0 exactly when there is no priority |
| Todos.LocaleCompare | utils/todoHelpers.ts:50 | the comparison is negative exactly for a smaller string and zero exactly for equal strings |
| Todos.Compare | utils/todoHelpers.ts:45-61 | definition: the sort comparator (priority weight, then due date; date order; newest first); see `CompareFlip`, `CompareTrans` and `SortedOrder` |
| Todos.CompareFlip | utils/todoHelpers.ts:45-61 | the comparator is antisymmetric |
| Todos.CompareTrans | utils/todoHelpers.ts:45-61 | the comparator is transitive, as `sort` needs |
| Todos.Insert | utils/todoHelpers.ts:45 | one insertion step adds exactly the element |
| Todos.InsertSorted | utils/todoHelpers.ts:45 | one insertion step keeps the list in comparator order |
| Todos.SortTodos | utils/todoHelpers.ts:34-62 | the result is a permutation of the input in comparator order; the input is a value, so it is unchanged |
| Todos.SortedOrder | utils/todoHelpers.ts:46-59 | priority order is non-increasing weight, with ties by ascending due date or `9999`; date order is ascending with `9999-99-99`; created order is newest first |
| Todos.GetTodoStats | utils/todoHelpers.ts:64-72 | `total` is the list's length, completed ones included, and `completed` is at most `total` |
| Todos.StatsMatchFilters | utils/todoHelpers.ts:64-72 | the open count is the 'all' list's size, and overdue plus today never exceeds it |
| App.InitialStateShape | App.tsx:29-43 | the app starts on the dashboard with no active node, a stopped session at 0, and only existing folders expanded |
| App.Load | App.tsx:57-66 | a stored state replaces the current one with an empty query; no stored state keeps the current one |
| App.LoadSave | App.tsx:61-71 | saving then loading gives the state back with an empty search query |
| App.SaveLoad | App.tsx:61-71 | loading then saving writes back exactly what was stored |
| App.Toggle | App.tsx:90-92 | the id is present afterwards if and only if it was absent; other ids are unaffected; removal keeps the order |
| App.ToggleTwice | App.tsx:87-94 | toggling an absent id twice restores the list |
| App.ToggleExpand | App.tsx:87-94 | the expanded list becomes `Toggle` of it: only the membership of that id flips; every other field of the state is kept |
| App.Defaults | App.tsx:97-108 | sessions are titled `Learning Session`, others ''; to-dos start open with medium priority; others have neither |
| App.NewNode | App.tsx:96-110 | definition: the defaults spread with `initialData`; see `Defaults` and `NewNodeOverrides` |
| App.NewNodeOverrides | App.tsx:97-110 | every field `initialData` sets overrides the defaults; `{}` leaves them |
| App.CreateTarget | App.tsx:113 | definition: `parentId`, or the active node when it is a folder, or null; see `CreateTargetResolution` |
| App.CreateTargetResolution | App.tsx:113 | the target is a truthy `parentId`, else the active node when it is a folder in the tree, else none |
| App.CreateNode | App.tsx:112-124 | the new node becomes active; the view is kept because `{}` is truthy; the target is appended to the expanded ids; every other field of `...prev` is kept |
| App.CreatePlacement | App.tsx:114 | without a target the node is appended to the roots; with one it becomes the target's last child |
| App.CreateInActiveFolderKeepsNullParent | App.tsx:99-114 | a node created without a parent while a folder is active lands in that folder but keeps `parentId` null |
| App.DeleteNode | App.tsx:207-214 | the forest becomes `Delete` of it, so the id leaves the tree; active node and view reset only when the deleted node was active; every other field is kept |
| App.DeleteAncestorLeavesActive | App.tsx:207-214 | deleting an ancestor of the active node leaves `activeNodeId` set to a node no longer in the tree |
| App.ToggleSession | App.tsx:244-253 | the active flag flips; pause keeps the elapsed count; resume back-dates the start by `elapsed * 1000`; nothing but the session changes |
| App.PauseResume | App.tsx:244-253 | pausing then resuming keeps elapsed and link, with the start back-dated from the resume time |
| App.SessionNode | App.tsx:262-273 | the saved node is a childless session whose duration is the elapsed count |
| App.StopAndSaveSession | App.tsx:259-286 | the session node is added under a truthy link, else at the roots; the session is reset to inactive, null, 0, null and the new node becomes active in the browser; every other field is kept |
| App.StopFilesSession | App.tsx:264-276 | without a truthy link the session is appended to the roots; otherwise it becomes the linked node's last child with the link as parent |
| App.DailyJournal | App.tsx:128-191 | definition: the reducer, the journal half then the daily-note half; see `OpenDailyJournal` and `DailyJournalIdempotent` |
| App.FindOrCreateJournal | App.tsx:136-156 | definition: find the root `Journal` folder or append a new one, and expand it; see `JournalReady` and `JournalAgain` |
| App.FindOrCreateNote | App.tsx:158-180 | definition: find the journal's child titled with the date or add a new daily note under it; see `NoteAgain` |
| App.OpenDailyJournal | App.tsx:128-191 | the handler's reassignments and pushes compute the reducer `DailyJournal` |
| App.JournalReady | App.tsx:136-156 | after the first half the root `Journal` folder exists, is expanded and has the id used next |
| App.JournalAgain | App.tsx:136-156 | with the journal already at the root and expanded, the first half changes nothing |
| App.NoteAgain | App.tsx:158-180 | with the daily note already there, the second half reuses it and changes nothing |
| App.RootSearchAfterAdd | App.tsx:136-178 | adding under a parent does not change which root a root-title search finds |
| App.DailyJournalIdempotent | App.tsx:128-191 | opening the daily journal twice, whatever ids and time the second call gets, equals opening it once |
| App.JournalIds | App.tsx:136-156 | with unique ids and a fresh folder id, exactly one node carries the journal's id afterwards, and at most the folder's id is gained |
| App.NoteIds | App.tsx:158-180 | with one journal node, the second half loses no id and gains at most the note's |
| App.DailyJournalGrowth | App.tsx:128-191 | with unique ids and a fresh folder id, the handler creates at most one folder and one note: no id is lost, the only ids gained are the two new ones, and the forest grows by at most two nodes |
| Dashboard.DashboardStats | components/Dashboard.tsx:14-23 | all counts are over the flattened tree; total to-dos is `getAllTodos`'s size, at least the completed count; the duration total adds the sessions' durations |
| Dashboard.CompletedAreTodos | components/Dashboard.tsx:18-19 | the completed to-dos are the completed ones among the to-dos, so there are no more of them |
| Dashboard.TimedSessionsTotal | components/Dashboard.tsx:21-23 | dropping sessions with no or zero duration before the `reduce` does not change the total |
| Dashboard.SessionTimeBounds | components/Dashboard.tsx:21-23 | with non-negative durations, the total is at least each session's duration |
| Dashboard.SessionTimeNonNegative | components/Dashboard.tsx:21-23 | with non-negative durations, the total is non-negative |
| Dashboard.CompletionRate | components/Dashboard.tsx:25 | the rate is 0 when there are no to-dos |
| Dashboard.CompletionRateNearest | components/Dashboard.tsx:25 | the rate is the whole percentage nearest to `100 * completed / total`, with halves rounded up |
| Dashboard.CompletionRateBounds | components/Dashboard.tsx:25 | the rate is 0 to 100, 0 with nothing done and 100 with everything done |
| Dashboard.CompletionRateRoundsUp | components/Dashboard.tsx:25 | 200 done out of 201 already shows 100 |
| Dashboard.SortInPlace | components/Dashboard.tsx:52-55 | `Array.sort` on a column: the array ends as a permutation of its old contents in comparator order |
| Dashboard.SortedCopy | components/Dashboard.tsx:52-55 | sorting a filtered column gives a permutation in comparator order |
| Dashboard.ByWeightConsistent | components/Dashboard.tsx:49 | the priority comparator is a consistent order |
| Dashboard.ByDueConsistent | components/Dashboard.tsx:54 | the due-date comparator is a consistent order |
| Dashboard.OpenTodos | components/Dashboard.tsx:30 | the open to-dos are uncompleted to-dos, a pre-order subsequence of the tree |
| Dashboard.OpenTodosAreAll | components/Dashboard.tsx:30 | they are exactly the to-do view's 'all' list |
| Dashboard.Column | components/Dashboard.tsx:30-36 | definition: the open to-dos passing one filter; see `TaskGroups`, `ColumnsPartition` and `GroupsPartition` |
| Dashboard.TaskGroups | components/Dashboard.tsx:29-57 | each column holds exactly its filter's members; overdue, today and no-date have non-increasing weight; upcoming has non-decreasing due date |
| Dashboard.SortByPriority | components/Dashboard.tsx:49-55 | the sorted column is a permutation with non-increasing weight |
| Dashboard.SortByDue | components/Dashboard.tsx:54 | the sorted column is a permutation with non-decreasing due date |
| Dashboard.ColumnsPartition | components/Dashboard.tsx:33-36 | with a non-empty today, every open to-do is in exactly one of the four columns |
| Dashboard.GroupsPartition | components/Dashboard.tsx:30-36 | the four columns together are the open to-dos of the tree, each once |
| Dashboard.EmptyTodayOverlaps | components/Dashboard.tsx:34-36 | with an empty today, a to-do whose due date is '' falls in both today and no-date |
| TodoDetail.AddSubtask | components/TodoDetailModal.tsx:37-51 | a blank entry adds nothing; otherwise exactly one open subtask with the input as title is appended and the others are unchanged |
| TodoDetail.AddSubtaskStored | components/TodoDetailModal.tsx:47-49 | through `updateNodeInTree` the to-do ends with exactly that list |
| TodoDetail.ToggleSubtask | components/TodoDetailModal.tsx:53-58 | length, order, ids and titles are kept; `completed` flips exactly for the matching id |
| TodoDetail.ToggleSubtaskTwice | components/TodoDetailModal.tsx:53-58 | toggling twice restores the list |
| TodoDetail.DeleteSubtask | components/TodoDetailModal.tsx:60-63 | every subtask with the id goes, and the rest stay in order |
| TodoDetail.DeleteMissingSubtask | components/TodoDetailModal.tsx:60-63 | deleting an absent id keeps the list |
| TodoDetail.Progress | components/TodoDetailModal.tsx:185 | the completed count is at most the subtask count |
| TodoDetail.ToggleOpenCounts | components/TodoDetailModal.tsx:53-58 | toggling an id whose subtasks are all open completes exactly as many more as carry the id |
| TodoSection.VisibleTodos | components/TodoSection.tsx:29-32 | the list holds exactly the filter's to-dos, sorted newest first for 'all' and by priority otherwise |
| TodoSection.VisibleTodosMembers | components/TodoSection.tsx:29-32 | a node is listed if and only if it is a to-do of the tree that the filter keeps |
| TodoSection.FindInbox | components/TodoSection.tsx:41 | the inbox is a top-level folder titled exactly `Inbox`; none is found exactly when there is none |
| TodoSection.QuickAdd | components/TodoSection.tsx:34-49 | a blank title changes nothing |
| TodoSection.QuickAddedTodo | components/TodoSection.tsx:43-47 | the new to-do is open, medium, titled as typed, and due today exactly in the 'today' view |
| TodoSection.QuickAddTarget | components/TodoSection.tsx:41-43 | an inbox with a non-empty id is the target; with no inbox and no active node the to-do goes to the root |
| TodoSection.QuickAddedShowsInAll | components/TodoSection.tsx:108 | a to-do added where the bar is offered is open, so 'all' lists it, and 'today' lists one added there |
| Editor.Clamp | components/NodeEditor.tsx:68 | `substring` clamps an index into `0..length`, leaving an index in range alone |
| Editor.Substring | components/NodeEditor.tsx:68 | for indices in order and in range, `substring` is the slice |
| Editor.SubstringFrom | components/NodeEditor.tsx:68 | `substring(a)` for `a` in range is the suffix |
| Editor.ImageUpload | components/NodeEditor.tsx:51-80 | no file or a failed save gives no update; without a text area the reference is appended; with one it replaces the selection |
| Editor.SpliceSelection | components/NodeEditor.tsx:61-71 | for a selection in range the splice is `content[..start] + image + content[end..]`, with the matching length |
| Editor.SpliceAtCursor | components/NodeEditor.tsx:68 | a collapsed cursor loses no character |
| Editor.OtterPaste | components/NodeEditor.tsx:38-49 | blank text gives no update; otherwise the old content is a prefix and the text ends the new content |
| Editor.LinkTitle | components/NodeEditor.tsx:115-116 | a link part's title is the part without its first two and last two characters |
| Editor.LinkTitleRoundTrip | components/NodeEditor.tsx:115-116 | `[[title]]` gives back `title` |
| Editor.LinkTarget | components/NodeEditor.tsx:115-117 | definition: a `[[...]]` part resolves by `findNodeByTitle` on its inner title; see `LinkTargetMatches` |
| Editor.LinkTargetMatches | components/NodeEditor.tsx:117 | a link resolves to a node whose title equals it ignoring case |
| Editor.CompletionStored | components/NodeEditor.tsx:226-229 | after the checkbox patch, `completed` is the box's state and `completedAt` is set exactly when checked, and cleared otherwise |
| Timer.Ticking | components/SessionTimer.tsx:15 | definition: the interval runs while the session is active with a truthy start; see `ResumeContinues` |
| Timer.Elapsed | components/SessionTimer.tsx:18 | elapsed is the floor of milliseconds over 1000 |
| Timer.ResumeContinues | components/SessionTimer.tsx:15-20 | after a resume, the tick `d` ms later reads the paused count plus `d / 1000` |
| Timer.FormatTime | components/SessionTimer.tsx:25-30 | definition: `h:` when there are hours, then padded minutes and seconds; see `FormatTimeParts` and `FormatTimeReadsBack` |
| Timer.FormatTimeParts | components/SessionTimer.tsx:25-28 | `h * 3600 + m * 60 + s` is the count, with `m` and `s` below 60 |
| Timer.TwoDigits | components/SessionTimer.tsx:29 | a value below 100 pads to two digits that read back as the value |
| Timer.FormatTimeReadsBack | components/SessionTimer.tsx:29 | the text ends in `mm:ss` reading back as minutes and seconds, and `h:` leads exactly when there are hours, reading back as the hours |
| Timer.Visible | components/SessionTimer.tsx:32 | definition: the widget shows unless the session is inactive at 0; see `SaveButtonShown` |
| Timer.SaveVisible | components/SessionTimer.tsx:47 | definition: the save button shows when time was counted and the session is paused; see `SaveButtonShown` |
| Timer.SaveButtonShown | components/SessionTimer.tsx:32-47 | the save button only shows on a visible, paused widget, and stopping hides the widget |
| Strs.IncludesAt | utils/fileHelpers.ts:195 | `includes` holds if and only if the query occurs at some position |
| Strs.NatToStringDigits | components/SessionTimer.tsx:29 | `toString` of a natural number is digits reading back as the number |

## Left out

- `generateId` (utils/fileHelpers.ts:4-10) uses crypto and `Math.random`. It is an id supply `gen` with an offset, or an id parameter of the handler. That the ids are fresh is not modelled but left to the caller; `App.DailyJournalGrowth` takes it as a precondition on the folder id.
- `Date.now`, `toISOString().split('T')[0]`, `toLocaleDateString` and `toLocaleTimeString` are parameters: `now`, `today`, `iso`, `dateLabel` and `timestamp`. Time zones are not modelled.
- `window.innerWidth >= 768` is the parameter `wide`.
- Dashboard.CompletionRate: `Math.round` of a floating-point ratio is modelled on exact rationals, rounding halves up. Floating-point rounding error is not modelled.
- The `hoursLearned.toFixed(1)` figure and the progress-bar percentage (components/TodoDetailModal.tsx:194) are floating point and are left out.
- Dashboard `activityData` (components/Dashboard.tsx:60-85) is calendar arithmetic on `Date` and is left out.
- `utils/storage.ts` and `components/AsyncImage.tsx` are not part of this model; they are async I/O. Loading takes the stored state as an `Option`. The outcome of `saveImageToDB` is the flag `saved`.
- `components/NodeTree.tsx` and `components/Modals.tsx` are not part of this model; they are rendering and gesture capture. Their `onMove`, rename and delete calls end in the helpers modelled here.
- The DOM download in `downloadMarkdown` (utils/fileHelpers.ts:238-246) is left out. Only the file-name rule is modelled.
- The `regex.split` tokenizer of `renderContent` (components/NodeEditor.tsx:99-101) is left out. A link part is taken as given.
- React hooks, `setInterval` and re-rendering are left out. A tick is `Elapsed` at a given time, and the reducers are functions from the previous state.
- `toLowerCase` lower-cases ASCII letters only, and `localeCompare` is code-unit order. Strings are sequences of characters, with no UTF-16 surrogate pairs.
- Todos.SortTodos: the result is proved to be a sorted permutation, not to be the particular order a stable `Array.prototype.sort` returns for equal keys.
- Dashboard.SortInPlace: the same, for the in-place sorts of the task columns.
- Links.FindBacklinks: `regex.test` is modelled for patterns that stand for a literal string, and the escaped backlink expression is proved to be one. General regular expressions are not modelled.
- Editor.LinkTarget: the link title is resolved through `findNodeByTitle`. The rendering and navigation around it are left out.
- Edits.DuplicateAtRoot: clone placement is stated for a root node whose id is unique. A nested node follows from `DuplicateMiss` and `DuplicateHit`, but is not given its own lemma.
- `handleNodeClick`, `handleUpdateNode`, `handleMoveNode`, the duplicate action and `updateSessionElapsed` in App.tsx are single calls of the helpers modelled here, and have no reducers of their own.
