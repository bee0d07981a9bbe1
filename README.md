# Tasks: a verified model of the task tracker's core

The repository is a Django web application in which engineers of several
departments keep a shared list of tasks and of the objects (sites, rooms,
equipment) the tasks are about. This project models in Dafny the part of it
that decides what each user sees and what each action changes:

- **Visibility.** `permission_filter` decides which tasks a user may see:
  an administrator, a head of department, another engineer, or a user
  without an engineer. `get_objects_list` keeps the objects of the user's
  groups. The task listing (`get_filtered_tasks`, `get_tasks`) adds the
  counters, the done/active toggle, paging and the hours left until each
  deadline.
- **Filters.** The task filter set covers search, tags, the "eng_<n>" and
  "dep_<n>" engineer tokens, priority, objects, the due-date range, the sort
  order and "my tasks". The done/active toggle and its browser-side
  counterpart in `filters.js`, the applied-filter count, the filter URL, the
  object filter and the filter widgets' cached content are modelled too.
- **Actions.** Taking, deleting, reopening and commenting on a task append
  to its event log. `create_tags` creates the tags a form names. The first
  picture of a text is resized. The two task forms decode the engineer
  tokens and set the many-to-many relations. The object forms are modelled
  as well.
- **Caches.** Pages, filter content and trees are stored under versioned
  namespaces. Model saves and deletes bump those namespaces through
  signals. The tree caches, the statistics cache and the object-page caches
  are modelled.
- **Trees.** The tag, group, object and engineer trees feed the filter
  widgets.
- **Helpers.** The model also covers statistics per engineer and per
  department, paging, `default_date`, `transliterate`, the attachment
  clean-up, `Object.clean`, the upload path and `clear_file_name`,
  `Address.verbose`, and the two template filters.

Database tables are sequences of rows in table order. A queryset is an
order-preserving selection from them, and a count is a length. Django's
cache is a class whose methods change a map from (key, version) to value.
The clock, file storage, HTML parsing and URL decoding are parameters of
the operations that use them. Times are seconds in UTC, and the day a time
falls on is its Europe/Moscow date (UTC+3 all year, as the project's time
zone setting makes `__date` lookups and `now().date()` see it); the printed
task list alone writes the UTC date, since `dateformat.format` does not
convert the stored time.

Code that changes state is modelled as classes with `modifies` clauses:
- the cache;
- the version counters;
- the tag table;
- the task store;
- a task or object being saved by a form;
- an attachment owner.

Each method is proved against a function that describes its result. Loops
keep their loops, with invariants; the page annotation loop works in place
on an array. The properties the code promises are stated and proved
alongside as lemmas.

Modules follow the source files:

- TasksPrepare: tasks/services/tasks_prepare.py
- TasksActions: tasks/services/tasks_actions.py
- TasksLegacy: tasks/services/tasks.py
- Filters, ObjectFilters: tasks/filters.py
- FiltersJs: static/self/js/filters.js
- Forms: tasks/forms.py
- Models: tasks/models.py
- Objects: tasks/services/objects.py, tasks/services/many_objects.py
- Statistics: tasks/services/statistics.py
- Service: tasks/services/service.py
- FunctionsService: tasks/functions/service.py
- TreeBase, CachedTreeNodes: tasks/services/tree_nodes/base.py, cached_tree_nodes.py
- TreeNodes, ObjectForest, EngineersTree: tasks/services/tree_nodes/tree_nodes.py
- CacheVersions: tasks/services/cache_version.py
- Ext: tasks/templatetags/ext.py

The shared modules are Domain (the tables), TaskQuery (query conditions
and orderings), QueryParams (a query string as its list of pairs),
CacheStore, Calendar, Text, Seqs, Sorting and Wrappers.

## Model

| member | source | states |
|---|---|---|
| CacheVersions.CacheVersion.constructor | tasks/services/cache_version.py:5-6 | the helper remembers the key of its namespace counter |
| CacheVersions.CacheVersion.GetCacheVersion | tasks/services/cache_version.py:8-14 | returns the stored version, or stores and returns 1 when the counter is missing; afterwards the counter exists and equals the returned version; a present counter is left unchanged |
| CacheVersions.CacheVersion.IncrementCacheVersion | tasks/services/cache_version.py:16-20 | stores and returns the current version plus one (a missing counter counts as 1, so the first increment gives 2); no other counter changes |
| CacheVersions.IncrementAtLeastTwo | tasks/services/cache_version.py:8-20 | on counters only these methods wrote, every increment yields at least 2, and reads and increments keep every counter at 1 or more |
| CacheVersions.VersionsNeverDecrease | tasks/services/cache_version.py:8-20 | over any sequence of reads and increments a counter never goes down, and a counter no operation names keeps its value |
| CacheVersions.IncrementExceedsRead | tasks/services/cache_version.py:16-20 | after an increment the version read is strictly larger than the one read before it, so entries stored under the old version are no longer found |
| TreeBase.AfterIncrementGlobal | tasks/services/tree_nodes/base.py:67-72 | `increment_global_version` raises the class's global version by exactly one, also when no counter is stored yet (then 2), and touches no other key |
| TreeBase.BumpInvalidates | tasks/services/tree_nodes/base.py:42-48 | when every cached tree of a class was written at a version no newer than the current one, no tree is stored at the version after a bump, and that coherence is kept |
| TreeBase.CachedTree.constructor | tasks/services/tree_nodes/base.py:25-27 | a tree keeps its class name, its unique cache part and its timeout |
| TreeBase.CachedTree.CacheKey | tasks/services/tree_nodes/base.py:34-40 | the cache key is the class name, ":", then the unique part, and nothing else |
| TreeBase.CachedTree.GetGlobalVersion | tasks/services/tree_nodes/base.py:63-65 | the stored global version of the class, 1 when none is stored |
| TreeBase.CachedTree.IncrementGlobalVersion | tasks/services/tree_nodes/base.py:67-72 | the counters become the incremented state described by `AfterIncrementGlobal` |
| TreeBase.CachedTree.GetCache | tasks/services/tree_nodes/base.py:42-44 | the entry under the tree's key at the current global version, None on a miss |
| TreeBase.CachedTree.SetCache | tasks/services/tree_nodes/base.py:46-48 | stores the nodes under the key at the current version, so a read right after returns them; coherence of the cache is kept |
| TreeBase.CachedTree.ClearCache | tasks/services/tree_nodes/base.py:50-51 | deletes only the entry at the default version 1, because no version is passed; entries at other versions stay |
| TreeBase.CachedTree.GetCachedNodes | tasks/services/tree_nodes/base.py:53-61 | a stored value (even an empty list) is returned unchanged; on a miss the freshly built nodes are returned and stored at the current version; coherence is kept |
| CachedTreeNodes.UniqueCachePart | tasks/services/tree_nodes/cached_tree_nodes.py:7-9 | the unique part is "user:" followed by the user's name, or "none" when the context has no user |
| CachedTreeNodes.UserKeysDistinct | tasks/services/tree_nodes/cached_tree_nodes.py:7-9 | two users share a cached tree exactly when their usernames are equal |
| CachedTreeNodes.TreeKey | tasks/services/tree_nodes/cached_tree_nodes.py:5-9 | an objects tree is cached under "CachedObjectsTree:" plus the unique part |
| CachedTreeNodes.NewTree | tasks/services/tree_nodes/cached_tree_nodes.py:5-9 | a new tree has the class name, the per-user unique part and the default timeout, hence the per-user key |
| CachedTreeNodes.GetCachedNodes | tasks/services/tree_nodes/cached_tree_nodes.py:5-9 | a stored tree is returned whatever the context; on a miss the tree built for the user from the database is returned and cached at the current version, and without a user the build fails and nothing is stored |
| CachedTreeNodes.ObjectsSignalCallback | tasks/services/tree_nodes/cached_tree_nodes.py:12-15 | the signal handler raises the class's global version by exactly one |
| CachedTreeNodes.SignalForcesRebuild | tasks/services/tree_nodes/cached_tree_nodes.py:12-15 | after the handler has run no user's stored tree is found, so the next request rebuilds it |
| TreeNodes.TagNodes | tasks/services/tree_nodes/tree_nodes.py:24-28 | one node per tag, in query order, with the tag's id and name as label |
| TreeNodes.GroupNodes | tasks/services/tree_nodes/tree_nodes.py:75-78 | one node per group, in query order, with the group's id and name as label |
| TreeNodes.ObjectsTags | tasks/services/tree_nodes/tree_nodes.py:12-22 | no user: no tags; otherwise exactly the tags on some object, restricted for a non-superuser to objects in one of the user's groups |
| TreeNodes.NoGroupNoObjectTags | tasks/services/tree_nodes/tree_nodes.py:19-20 | a non-superuser who belongs to no group sees no object tag |
| TreeNodes.SuperuserSeesAllObjectTags | tasks/services/tree_nodes/tree_nodes.py:19-22 | a superuser sees every object tag any user sees |
| TreeNodes.TasksTags | tasks/services/tree_nodes/tree_nodes.py:33-53 | no user: none; a head of department: tags of tasks of the department or of its engineers; an engineer: tags of their tasks or their department's tasks; a superuser without engineer: every task tag; anyone else: none |
| TreeNodes.HeadSeesDepartmentTaskTags | tasks/services/tree_nodes/tree_nodes.py:42-46 | a head of department sees the tags of every task assigned to an engineer of the department |
| TreeNodes.EngineerSeesOwnTaskTags | tasks/services/tree_nodes/tree_nodes.py:47-48 | an ordinary engineer sees the tags of every task assigned to them |
| TreeNodes.Groups | tasks/services/tree_nodes/tree_nodes.py:63-73 | no user: none; otherwise exactly the groups that hold an object, restricted for a non-superuser to groups the user is in |
| TreeNodes.JoinGroups | tasks/services/tree_nodes/tree_nodes.py:87-89 | the join through `groups__users` yields a row for an object exactly when the object is in one of the user's groups |
| TreeNodes.VisibleRows | tasks/services/tree_nodes/tree_nodes.py:83-91 | a row occurs in the result exactly when it is the row of an object the user may see |
| TreeNodes.ObjectRows | tasks/services/tree_nodes/tree_nodes.py:83-91 | fails (the source's AttributeError on the default 0) exactly when the context has no user; otherwise a row occurs exactly when it belongs to a visible object |
| TreeNodes.ObjectsTreeNodes | tasks/services/tree_nodes/tree_nodes.py:93-128 | with a user, the forest built from the visible rows; without one, AttributeError |
| TreeNodes.ObjectsTreeShowsVisibleOnly | tasks/services/tree_nodes/tree_nodes.py:93-128 | a user's object tree holds no id twice, and every id in it is that of an object the user may see |
| TreeNodes.NoGroupEmptyObjectsTree | tasks/services/tree_nodes/tree_nodes.py:87-91 | a non-superuser in no group gets an empty object tree |
| ObjectForest.Index | tasks/services/tree_nodes/tree_nodes.py:101 | every row's id is a key, and each key maps to a row with that id (the last such row) |
| ObjectForest.ChildIds | tasks/services/tree_nodes/tree_nodes.py:104-112 | an id is collected for a parent exactly when it is a row whose parent is that parent and the parent is itself a row |
| ObjectForest.KidsStep | tasks/services/tree_nodes/tree_nodes.py:104-112 | one more row appends its id to its parent's children list when it is not there yet, and otherwise changes nothing |
| ObjectForest.ChildMapStep | tasks/services/tree_nodes/tree_nodes.py:104-112 | the children lists after one more row are what the loop body makes of the lists before it |
| ObjectForest.ChildMapShape | tasks/services/tree_nodes/tree_nodes.py:104-112 | after the loop every list belongs to a row, is non-empty, has no repeats, holds only that row's children, and holds every one of them |
| ObjectForest.ChainDistinct | tasks/services/tree_nodes/tree_nodes.py:115-124 | no id occurs twice on a chain from a root down, so the recursion of `transform` never revisits an object |
| ObjectForest.ChainBound | tasks/services/tree_nodes/tree_nodes.py:115-124 | a chain is never longer than the number of objects, which bounds the depth of the recursion |
| ObjectForest.ChainUnique | tasks/services/tree_nodes/tree_nodes.py:115-127 | two chains ending at the same object are equal: an object has exactly one place in the forest |
| ObjectForest.Transform | tasks/services/tree_nodes/tree_nodes.py:115-124 | the node of an object carries the object's id and name, and has a children list only when it is non-empty, each child being an object whose parent it is |
| ObjectForest.TransformList | tasks/services/tree_nodes/tree_nodes.py:123 | one node per listed child, in list order, each with that child's id and well shaped |
| ObjectForest.Roots | tasks/services/tree_nodes/tree_nodes.py:127 | the roots are exactly the objects without a parent, each once |
| ObjectForest.Forest | tasks/services/tree_nodes/tree_nodes.py:127-128 | one node per root, in order, each for an object without a parent and well shaped |
| ObjectForest.GetNodes | tasks/services/tree_nodes/tree_nodes.py:93-128 | the loop that fills the children lists, followed by the transform of the roots, yields exactly the forest |
| ObjectForest.TreeIdsSound | tasks/services/tree_nodes/tree_nodes.py:115-124 | every id a subtree emits is the end of a chain through the subtree's root |
| ObjectForest.TreeNoDup | tasks/services/tree_nodes/tree_nodes.py:115-124 | a subtree emits no id twice |
| ObjectForest.TreeCovers | tasks/services/tree_nodes/tree_nodes.py:115-124 | every chain through a subtree's root ends at an id the subtree emits |
| ObjectForest.ForestIdsExact | tasks/services/tree_nodes/tree_nodes.py:93-128 | the forest holds each id at most once, and holds exactly the objects whose ancestry reaches an object without a parent (objects under a missing parent or on a cycle are dropped) |
| EngineersTree.Rows | tasks/services/tree_nodes/tree_nodes.py:133-137 | one row per engineer, in table order, with the engineer's id and department |
| EngineersTree.InDepartmentMembers | tasks/services/tree_nodes/tree_nodes.py:158-171 | the rows gathered under a department are exactly the rows of engineers of that department |
| EngineersTree.WithoutDepartmentMembers | tasks/services/tree_nodes/tree_nodes.py:158-159 | the loners are exactly the rows without a department |
| EngineersTree.DepartmentOrder | tasks/services/tree_nodes/tree_nodes.py:162-167 | the departments in the order of their first engineer, none twice |
| EngineersTree.OrderMembers | tasks/services/tree_nodes/tree_nodes.py:162-167 | a department gets a node exactly when it has an engineer row |
| EngineersTree.Tree | tasks/services/tree_nodes/tree_nodes.py:173-178 | the department nodes in first-occurrence order, followed by the engineers without a department |
| EngineersTree.NoDepartmentStep | tasks/services/tree_nodes/tree_nodes.py:158-159 | a row without a department only appends its engineer, without children, to the loners |
| EngineersTree.DepartmentStep | tasks/services/tree_nodes/tree_nodes.py:160-171 | a row of a department adds the department to the order when it is new, and appends the engineer (with an empty children list) to that department's node |
| EngineersTree.NodesStep | tasks/services/tree_nodes/tree_nodes.py:160-171 | storing the grown node of the department keeps the map of department nodes equal to the specification |
| EngineersTree.GetNodes | tasks/services/tree_nodes/tree_nodes.py:139-178 | the loop over the rows yields exactly `Tree` of the rows |
| EngineersTree.EngineerPlaced | tasks/services/tree_nodes/tree_nodes.py:151-171 | every engineer appears: as a loner when without department, otherwise as a child of their department's node, which is in the tree |
| EngineersTree.DepartmentsExact | tasks/services/tree_nodes/tree_nodes.py:160-171 | a department is in the tree exactly when an engineer belongs to it, and its children are exactly its engineers |
| EngineersTree.DepartmentKeysDistinct | tasks/services/tree_nodes/tree_nodes.py:159-170 | two departments get the same node id "dep_…" exactly when they are the same department |
| Statistics.BumpMeaning | tasks/services/statistics.py:22-33 | meeting a key on a task appends it to the entry order the first time it is seen, and adds one to its open or its done count; other keys keep their counts |
| Statistics.BumpAllMeaning | tasks/services/statistics.py:21-46 | one task's keys extend the first-sight order by the new keys, and each key's count grows by the number of times it is listed |
| Statistics.TallyTasksMeaning | tasks/services/statistics.py:19-46 | after a run of tasks the entries are the keys in order of first sight, each once, and each key's counts are the numbers of open and of done tasks listing it |
| Statistics.AllKeysMembers | tasks/services/statistics.py:19-46 | a key is met exactly when some task of the run lists it |
| Statistics.CountInWhere | tasks/services/statistics.py:30-46 | when a key is listed once on each task a test picks, its count is the number of tasks in the given state the test picks |
| Statistics.Resolve | tasks/services/statistics.py:21 | `task.engineers.all()`: a row occurs exactly when some id of the task names it |
| Statistics.ResolveOnce | tasks/services/statistics.py:21 | a row named by one id occurs once when the id is listed and not at all otherwise |
| Statistics.LiveTasks | tasks/services/statistics.py:13 | exactly the tasks that are not deleted, in the model's default order |
| Statistics.DepartmentLabel | tasks/services/statistics.py:26 | the department's name, or the "no department" placeholder for an engineer without one |
| Statistics.EngineerRows | tasks/services/statistics.py:23-29 | one dict per engineer entry, in entry order, with the engineer's names, department label and counts |
| Statistics.DepartmentRows | tasks/services/statistics.py:38-42 | one dict per department entry, in entry order, with its name and counts |
| Statistics.CountTask | tasks/services/statistics.py:21-33 | the inner loop over one task's engineers (or departments) gives the bumped tally |
| Statistics.ComputeStat | tasks/services/statistics.py:13-55 | the walk over the live tasks and the conversion to lists give the specified statistics |
| Statistics.TallySnoc | tasks/services/statistics.py:19-46 | one more task of the walk bumps exactly that task's keys |
| Statistics.GetStat | tasks/services/statistics.py:6-59 | a cached result is returned unchanged; otherwise the computed statistics are returned and stored under "stat" |
| Statistics.TallyOfListed | tasks/services/statistics.py:19-46 | a key listed once on each task a test picks has an entry exactly when such a task is met, with the open and done counts of those tasks |
| Statistics.EngineerStatMeaning | tasks/services/statistics.py:19-33 | an engineer has a row exactly when a live task lists them, and the row counts the open and the done live tasks that list them |
| Statistics.DepartmentStatMeaning | tasks/services/statistics.py:35-46 | a department has a row exactly when a live task lists it, and the row counts the open and the done live tasks that list it |
| Statistics.StatRowsFromLiveTasks | tasks/services/statistics.py:19-50 | every engineer entry is an engineer of the database and every department entry a department of the database, and none gets two rows |
| Statistics.EngineerCountsAddUp | tasks/services/statistics.py:30-33 | an engineer's open and done counts add up to the number of live tasks that list them |
| Objects.ShortDescription | tasks/services/objects.py:48-52 | a description of at most 53 characters is kept whole (and only then); a longer one becomes its first 50 characters followed by "...", 53 in all |
| Objects.FirstBy | tasks/services/objects.py:25-29 | `.order_by("id")[:1]`: nothing exactly for no rows, otherwise a row with the smallest key |
| Objects.ObjectFiles | tasks/services/objects.py:114 | exactly the files attached to the object |
| Objects.ImgPreview | tasks/services/objects.py:25-29 | empty exactly when no attached file has a jpeg, jpg or png name (in any case); otherwise the name of such a file, the one with the smallest id |
| Objects.OpenTasksMeaning | tasks/services/objects.py:31-37 | the open tasks counted for an object are distinct and are exactly the tasks the user may see that are linked to it and not done |
| Objects.OpenTaskMember | tasks/services/objects.py:31-37 | a task is counted exactly when it passes the permission filter, is linked to the object and is not done |
| Objects.VisibleTask | tasks/services/objects.py:32 | a task passes `permission_filter` exactly when it is in the table and the user may see it |
| Objects.Item | tasks/services/objects.py:43-53 | the annotated row of an object: `tasks_count` is NULL when the user has no open task on it, and otherwise the number of such tasks |
| Objects.VisibleObjects | tasks/services/objects.py:40-42 | exactly the objects in one of the user's groups |
| Objects.Items | tasks/services/objects.py:43-53 | one annotated row per object, in order |
| Objects.SameIdSameObject | tasks/models.py:45-68 | two rows of the object table with the same id are the same row |
| Objects.ObjectsListShape | tasks/services/objects.py:23-59 | the list holds the annotated row of every object of the user's groups and of no other object, no object twice, ordered by parent id and then by id descending (`.distinct()` undoes the join's repeats); many_objects.py:9-52 builds the same list |
| Objects.SortedRows | tasks/services/objects.py:55-56 | ordering the distinct rows keeps exactly one row per visible object |
| Objects.ItemsShape | tasks/services/objects.py:43-55 | the rows of distinct objects are distinct, and there is one for each object |
| Objects.ObjectsTableNoDup | tasks/models.py:45-68 | the object table holds no row twice |
| Objects.BuildObjectsPage | tasks/services/objects.py:78-84 | the page's `objects_qs` is the paginator's page of the filtered list |
| Objects.FilteredObjectsShape | tasks/services/objects.py:78 | the filtered list keeps the list's order and exactly the rows of visible objects that pass the object filter, none twice |
| Objects.PageRowsVisible | tasks/services/objects.py:78-84 | every row of a built page belongs to an object of the user's groups that passes the filter |
| Objects.GetObjects | tasks/services/objects.py:62-90 | the namespace version is read first; without filter parameters a page stored at that version under the page's key is returned as it is, and a miss builds the page and stores it there; with filter parameters the page is always built and nothing is stored |
| Objects.GetObjectsKeepsCoherent | tasks/services/objects.py:62-90 | a call keeps every stored page at a version no newer than the namespace's |
| Objects.ObjectSignalHidesPages | tasks/models.py:291-300 | after an object is saved or deleted no page stored before is found by the next `get_objects` |
| Objects.TaskSignalKeepsPages | tasks/models.py:280-287 | a saved or deleted task does not change the objects page version, so stored pages stay in use |
| Objects.GetObj | tasks/services/objects.py:93-128 | Http404 exactly when no object with the slug is in one of the user's groups; otherwise such an object with the smallest id, and `object_id_list` is its id alone |
| Objects.GetObjParts | tasks/services/objects.py:98-118 | the object's files are split into images and other files with none lost or repeated; the done and open task counts add up to the tasks linked to it; parent name and slug are present exactly when the parent exists |
| Objects.SingleObjectRead | tasks/services/objects.py:131-145 | a stored detail is returned as it is to any user; on a miss `get_obj` answers, and its detail is stored unless it raised |
| Objects.GetSingleObject | tasks/services/objects.py:131-145 | the method returns and stores what `SingleObjectRead` describes |
| Objects.SingleObjectServedToOutsider | tasks/services/objects.py:135-139 | a concrete database in which a user outside the object's only group gets the detail from the cache after a member opened it, although `get_obj` answers 404 for that user |
| Objects.SingleObjectReadChecked | tasks/services/objects.py:131-145 | the corrected read answers 404 exactly when `get_obj` does; it stores a detail only when it answers one, and on a miss it answers what `get_obj` answers |
| Objects.CheckedReadKeepsAccess | tasks/services/objects.py:131-145 | the corrected read answers 404 exactly where `get_obj` does, and agrees with the read as written for every user who may see the object |
| Objects.ChildObjectsShape | tasks/services/objects.py:198 | the child list holds the annotated rows of exactly the visible objects whose parent is the given object, in list order |
| Objects.GetChildObjects | tasks/services/objects.py:187-203 | any stored list (even an empty one) is returned as it is; on a miss the list is computed and stored without a version |
| Objects.EditObjectCache | tasks/services/objects.py:162-175 | a valid form deletes the object's stored detail and its stored child list; an invalid form leaves both caches as they are |
| Objects.EditRefreshesReads | tasks/services/objects.py:174-175 | after the deletion the next detail read answers what `get_obj` answers, and the object's child list is not found |
| Objects.AddTasksCountToObjects | tasks/services/many_objects.py:58-63 | every row's attribute is set to the number of the user's open tasks linked to its object; no other attribute changes; the given rows are returned |
| Objects.SetCounts | tasks/services/many_objects.py:59-61 | the loop sets the attribute on every row to the given count and changes nothing else |
| Objects.OpenTasksCount | tasks/services/many_objects.py:60 | the count is the number of distinct tasks the user may see that are linked to the object and not done |
| Models.EndedStaysEnded | tasks/models.py:84-90 | once the walk up the parent links has reached an object without a parent it stays ended |
| Models.Clean | tasks/models.py:73-90 | `Object.clean` accepts exactly what `CleanVerdict` allows: no parent; otherwise neither the object itself ("Рекурсия") nor any object whose parent chain reaches the object (the descendant message); the walk ends because the stored links have no cycle |
| Models.ChainsAgree | tasks/models.py:84-90 | changing the object's own parent link leaves every chain that does not pass through the object unchanged |
| Models.ChainsCompose | tasks/models.py:84-90 | following j parent links and then k more is following j + k links |
| Models.FirstHit | tasks/models.py:84-88 | a chain that reaches the object has a first link at which it does |
| Models.CleanKeepsAcyclic | tasks/models.py:73-90 | on a table without cycles, storing a parent that `clean` accepts keeps the table without cycles |
| Models.StillEnds | tasks/models.py:73-90 | after storing an accepted parent every object's chain still ends |
| Models.CleanRejectsCycles | tasks/models.py:73-90 | every parent `clean` rejects would put the object on a cycle: its own chain would never end |
| Models.GoesOnForever | tasks/models.py:84-90 | a chain that returns to its start never ends |
| Models.LastIndex | tasks/models.py:184 | the last position of a character, or none when it does not occur |
| Models.Suffix | tasks/models.py:184 | `os.path.splitext(name)[1]`: a suffix of the name that is empty or a dot followed by no slash and no dot |
| Models.AttachedFile.constructor | tasks/models.py:167-170 | a file record holds the given name, extension and image flag |
| Models.AttachedFile.Save | tasks/models.py:181-190 | the name is kept; without a file nothing else changes; with one the extension becomes the lower-cased suffix of the name and the image flag is set exactly when it is ".jpeg", ".jpg" or ".png" |
| Models.SavedExtensionShape | tasks/models.py:184-185 | a saved extension is empty or a dot followed by no dot, no slash and no upper-case letter |
| Models.UploadDir | tasks/models.py:161-164 | the day directory is non-empty, ends with a slash and holds no line break |
| Models.UploadPathLayout | tasks/models.py:161-164 | in a stored path the slash before the UUID is the last slash, and the UUID, "_._" and the file name follow it |
| Models.LastMatch | tasks/models.py:179 | the greedy leading `.+`: the last position below the bound where the rest of the pattern matches, or none when it matches nowhere |
| Models.ClearFileName | tasks/models.py:178-179 | when the pattern matches, the result is the non-empty text after "/<uuid>_._" at a matching position; when it does not, no result (the source's AttributeError) |
| Models.ClearFileNameOfUploadPath | tasks/models.py:161-179 | the file name is read back unchanged from the path it was uploaded under |
| Models.ClearAfterUuid | tasks/models.py:179 | a path whose last component is a UUID, "_._" and a name gives back that name |
| Models.UuidMatches | tasks/models.py:179 | a slash followed by a UUID, "_._" and a non-empty name matches the pattern there |
| Models.LastMatchIs | tasks/models.py:179 | the search finds the highest matching position |
| Models.CreateUploaded | tasks/models.py:181-190 | creating a row for an upload (`AttachedFile.objects.create(file=file)` in tasks/services/tasks_actions.py) records the lower-cased suffix of the bare upload name as the extension and sets the image flag from it; the name then becomes the path `upload_directory_path` builds |
| Models.UploadedSuffix | tasks/models.py:161-164 | the suffix of an uploaded file's stored path, which a later save of the row would record: the file name's part from its last dot, or "._" followed by the whole name when it has no dot |
| Models.DotlessUploadExtension | tasks/models.py:181-185 | an upload named without a dot is created with an empty extension, while its stored path's suffix is "._" and the name |
| Models.SuffixAfterUuid | tasks/models.py:184 | the suffix of a stored path depends only on the file name after the UUID |
| Models.LastIndexIs | tasks/models.py:184 | the last occurrence of a character is found |
| Models.SuffixAt | tasks/models.py:184 | the suffix of a name whose last component does not start with a dot runs from its last dot |
| Models.StreetTypeAt | tasks/models.py:256-260 | the street type (tried in the pattern's order) that starts the text, if any |
| Models.FirstPrefix | tasks/models.py:256-260 | the first word of the list that starts the text, or none exactly when no word does |
| Models.LowerStreetTypes | tasks/models.py:256-260 | the substitution keeps the length of the street |
| Models.LowerStreetTypesOnlyCase | tasks/models.py:256-260 | the substitution changes only letter case |
| Models.Verbose | tasks/models.py:246-270 | the line is built step by step into exactly `AddressLine`: place, "д. " and the house, then block, floor and room |
| Models.AddressLineHouse | tasks/models.py:262-270 | the line always holds "д. <house>" right after the place part, and ends with " кв. <room>" when a non-zero room is set |
| Models.ZeroFloorOmitted | tasks/models.py:266-267 | a floor of 0 is written like no floor at all |
| Models.RegionWritten | tasks/models.py:248-252 | a region other than the exact upper-case "СЕВАСТОПОЛЬ" starts the line in lower case; otherwise the settlement does, unless it is that name too, in which case the line starts with the garden and street parts |
| Models.DefaultRegionWritten | tasks/models.py:194-198 | the field default "Севастополь" is not the upper-case name, so a default region is written |
| Models.Namespaces | tasks/models.py:279-346 | each model's receivers raise one or two namespaces, the same for save and delete |
| Models.Receive | tasks/models.py:279-346 | the receivers of a model increment its namespaces in turn |
| Models.BumpAllByOne | tasks/models.py:279-346 | incrementing distinct namespaces raises each of them by exactly one and leaves every other counter as it was |
| Models.SignalBumpsByOne | tasks/models.py:279-346 | a save or delete raises each namespace of its model by exactly one and changes no other counter |
| Models.TaskSignalLeavesFieldVersions | tasks/models.py:280-287 | a saved or deleted task does not raise the version of any page's filter components |
| Models.SignalHidesFields | tasks/models.py:291-346 | after a receiver raises a page's filter-component version, no user's stored components of that page are read again |
| Filters.NullBoolWords | tasks/filters.py:96 | the boolean filters read "true" as true, "false" as false, and a missing value as no value |
| Filters.PkOf | tasks/filters.py:100-108 | a submitted choice names the key whose decimal rendering it is |
| Filters.PkOfExact | tasks/filters.py:100-108 | a choice is accepted as key n exactly when it is the rendering of n |
| Filters.ChosenIds | tasks/filters.py:100-108 | the choices of a multiple-choice field are accepted, in order, exactly when each names an existing row; otherwise the field is invalid because some choice names none |
| Filters.TagIds | tasks/filters.py:100-108 | the existing tag keys |
| Filters.ObjectIds | tasks/filters.py:100-108 | the existing object keys |
| Filters.TokenClauses | tasks/filters.py:148-166 | at most one clause per token, in token order |
| Filters.TokenClausesMeaning | tasks/filters.py:148-168 | a task matches the disjunction of the decoded tokens exactly when one of the tokens selects it: "eng_<n>" engineer n on the task, "dep_<n>" an engineer of department n or department n itself |
| Filters.NoClauses | tasks/filters.py:148-166 | there is no clause at all exactly when no token decodes to an "eng_<n>" or "dep_<n>" clause |
| Filters.DepToEngineers | tasks/filters.py:142-168 | the loop that accumulates the `Q` object computes the specified selection of the raw "engineers" value |
| Filters.DepToEngineersMeaning | tasks/filters.py:142-168 | when every comma-separated part is empty or none decodes, every task is kept (an empty `Q()` matches all); otherwise exactly the tasks some token selects |
| Filters.SearchStep | tasks/filters.py:170-172 | with a non-empty value, exactly the tasks whose header or text contains it, ignoring case; otherwise all |
| Filters.TagsStep | tasks/filters.py:100-108 | with a valid non-empty tag choice, exactly the tasks carrying one of the chosen tags; otherwise all |
| Filters.EngineersStep | tasks/filters.py:88 | only tasks of the input, and all of them when the stripped value is empty (the method is not called) |
| Filters.PriorityStep | tasks/filters.py:100-108 | with one of the four priority choices, exactly the tasks of that priority; otherwise all |
| Filters.ObjectsStep | tasks/filters.py:100-108 | with a valid non-empty object choice, exactly the tasks linked to one of the chosen objects; otherwise all |
| Filters.DueStep | tasks/filters.py:89-94 | exactly the tasks whose Moscow due date is on or after the "after" date and on or before the "before" date, each bound only when it reads in one of the date field's formats ("%d.%m.%Y", "%d.%m.%y", "%Y-%m-%d") |
| Filters.DueBetween | tasks/filters.py:89-94 | the two date filters one after the other keep exactly the tasks whose Moscow due date lies within both given bounds |
| Filters.SortStep | tasks/filters.py:128-133 | reorders without adding or losing a task |
| Filters.MineStep | tasks/filters.py:135-140 | only tasks of the input; fails without a request when a value is given |
| Filters.TaskDefaultsValues | tasks/filters.py:110-126 | after `__init__` "show_my_tasks_only" is the given value or "false", "sort_order" the given value or "desc", and every other key is unchanged |
| Filters.TaskFilter.constructor | tasks/filters.py:110-126 | the filter's data is the request data with the two defaults filled in |
| Filters.TaskFilter.Qs | tasks/filters.py:86-168 | the filters in declaration order, then the ordering and "my tasks", give exactly `FilterTasks` |
| Filters.FilterTasksNarrows | tasks/filters.py:86-168 | the task filter only removes tasks, keeps them distinct, and fails exactly when there is no request and "my tasks" has a value |
| Filters.StepsNarrow | tasks/filters.py:86-133 | the field filters and the ordering keep tasks distinct and add none |
| Filters.FilterTasksOrder | tasks/filters.py:128-133 | "asc" sorts the result by due time then creation time ascending; any other non-empty value sorts it descending |
| Filters.FilterTasksMine | tasks/filters.py:135-140 | with "my tasks" true and a request, the filter succeeds and keeps only tasks of the user's engineer when there is one |
| Filters.MineOnly | tasks/filters.py:135-140 | the "my tasks" step alone keeps only tasks of the user's engineer when the value is true |
| Filters.DefaultFilterOnlySorts | tasks/filters.py:110-140 | with only the defaults a task filter keeps every task and orders them by due time, latest first |
| Filters.DefaultsPresent | tasks/filters.py:116-126 | the defaults ask for the descending order and not for "my tasks" |
| Filters.DefaultsAbsent | tasks/filters.py:110-126 | the defaults hold no other key |
| Filters.OnlySorts | tasks/filters.py:86-140 | without any filtering field, with "desc" and "my tasks" false, the result is every task sorted by due time descending |
| Filters.NoFieldsKeepsAll | tasks/filters.py:86-108 | without any filtering field, the field filters remove no task |
| Filters.DescSortThenNotMine | tasks/filters.py:128-140 | "desc" followed by "my tasks" false is the descending sort alone |
| Filters.ToggleMeaning | tasks/filters.py:237-252 | both flags "true": every task; only active: the tasks not done; only done: the done tasks; neither: none |
| Filters.ToggleIdempotent | tasks/filters.py:237-252 | applying the toggle twice is applying it once, so running it for both fields changes nothing |
| Filters.FilterByDoneIsToggle | tasks/filters.py:222-252 | once a field is readable, the filter set is exactly the toggle, whether it runs once or twice |
| Filters.DefaultToggleShowsActive | tasks/filters.py:226-252 | with no toggle in the request only the tasks that are not done are shown |
| Filters.DoneDefaultsValues | tasks/filters.py:226-235 | the defaults set "show_active_task" to "true" and "show_done_task" to "false" |
| Filters.ActiveOnly | tasks/filters.py:237-246 | active only, by both fields, shows exactly the tasks that are not done |
| Filters.FilterByDoneNarrows | tasks/filters.py:222-252 | the active/done filter only removes tasks and keeps them distinct |
| Filters.ToggleNarrows | tasks/filters.py:237-252 | the toggle only removes tasks and keeps them distinct |
| Filters.TaskFilterByDone.constructor | tasks/filters.py:226-235 | the filter's data is the request data with the two defaults filled in |
| Filters.TaskFilterByDone.Qs | tasks/filters.py:222-252 | `.qs` is the filter's result on its data; when either flag reads as a boolean it is a single toggle, whose members ToggleMeaning gives; only tasks of the queryset are kept |
| Filters.AppliedKeys | tasks/filters.py:183 | a key is counted exactly when it is present with a non-empty value and not excluded |
| Filters.AppliedCountTaksBounds | tasks/filters.py:174-192 | the count is never negative and at most the number of distinct parameters |
| Filters.DefaultsNotCounted | tasks/filters.py:174-192 | the defaults the task filter adds are never counted |
| Filters.AppliedCountSame | tasks/filters.py:174-192 | data that agree on every counted key count the same |
| Filters.DueKeysCounted | tasks/filters.py:180-190 | the two due-date bounds are counted parameters, so together they count once |
| Filters.AppliedFiltersCount | tasks/filters.py:195-204 | at most the number of parameters, and every non-empty parameter other than "page" and "per_page" counts |
| Filters.AppliedFiltersCountIgnoresEmpty | tasks/filters.py:195-204 | adding a parameter with an empty value does not change the count |
| Filters.FilterUrl | tasks/filters.py:207-219 | the parameters (last value of each) except "page"; with an object, "objects_set" is its id; every other key keeps its value |
| Filters.ItemsGet | tasks/filters.py:213 | `items()` gives each listed key its last value and no other key |
| Filters.WithoutKey | tasks/filters.py:213 | the key is gone and every other key keeps its value |
| Filters.SetItem | tasks/filters.py:217 | the key takes the new value in place (or goes last when new) and every other key keeps its value |
| Filters.GetCurrentFilterParams | tasks/filters.py:67-83 | ValueError exactly for a page other than "objects" and "tasks"; "objects" gives the tags and groups lists; "tasks" the tags, engineers and "objects_set" lists of the request |
| Filters.BuildFields | tasks/filters.py:44-60 | an error exactly for an unknown page or when the default date overflows; the tag tree is the caller's, the objects tree the user's; for tasks also the engineers tree and the default time "17:30" |
| Filters.GetFieldsForFilter | tasks/filters.py:27-64 | the page's version is read (and created) first; an entry stored under the user's key at that version is returned whatever the page; otherwise the components are built and, when that succeeds, stored |
| Filters.GetFieldsKeepsCoherent | tasks/filters.py:27-64 | reading the components keeps both pages' stored entries at versions no newer than their counters |
| Filters.BumpHidesFields | tasks/filters.py:32-39 | after the page's version is raised no user's stored components of that page are found |
| Filters.MoscowDayBoundKeeps | tasks/filters.py:89-94 | a task due at 22:30 UTC on 1 May 2024 is due on 2 May in Moscow and is kept by the bound "02.05.2024" as the date widget writes it |
| ObjectFilters.GroupIds | tasks/filters.py:19-21 | the existing group keys the `groups` field accepts |
| ObjectFilters.FilterObjects | tasks/filters.py:14-24 | keeps, in order, exactly the rows whose object passes every field that is set: name or description containing the search text ignoring case, one of the chosen tags, one of the chosen groups, the chosen priority |
| ObjectFilters.FilterObjectsKeepsOrder | tasks/filters.py:14-24 | the object filter keeps rows distinct and keeps the order a sort gave them |
| ObjectFilters.NoParamsKeepsAll | tasks/filters.py:14-24 | without any parameter every row is kept, in order |
| ObjectFilters.FilterObjectsIdempotent | tasks/filters.py:14-24 | filtering again with the same parameters changes nothing |
| ObjectFilters.TagsChosen | tasks/filters.py:19-21 | choosing existing tags keeps exactly the objects linked to one of them |
| ObjectFilters.TagValues | tasks/filters.py:19-21 | one submitted value per tag, its key in decimal |
| ObjectFilters.ChosenTags | tasks/filters.py:19-21 | values naming existing tags validate to exactly those tags' keys, in order |
| FiltersJs.SetParam | static/self/js/filters.js:23-38 | `URLSearchParams.set`: afterwards the name has exactly the one given value, and the pairs of every other name are unchanged, in order |
| FiltersJs.ReplaceFirst | static/self/js/filters.js:23-38 | when the name is present its first pair takes the value and the others go; the other names' pairs are unchanged |
| FiltersJs.SetParamOthers | static/self/js/filters.js:23-38 | `set` leaves every other name's values, and what `get` returns for it, as they were |
| FiltersJs.SetParamUntouched | static/self/js/filters.js:23-38 | setting a toggle parameter keeps every pair that is not a toggle parameter |
| FiltersJs.SearchParams.constructor | static/self/js/filters.js:18 | the parameters start as the page's query |
| FiltersJs.SearchParams.Set | static/self/js/filters.js:23-38 | the pairs become the result of `set`; `get` of the name gives the value; setting one toggle parameter keeps the other one and every other pair |
| FiltersJs.ToggleFilter | static/self/js/filters.js:16-43 | when the middle button finds one of its groups off, both parameters become "true"; otherwise the "active" button gives active "true" and done "false", the "done" button the reverse, and any other call keeps the query as it was; every other parameter is kept, in order |
| FiltersJs.UntouchedSameValues | static/self/js/filters.js:16-43 | queries that agree on the pairs the toggle does not own give the same values for every other parameter |
| FiltersJs.UntouchedValues | static/self/js/filters.js:16-43 | dropping the toggle's pairs does not change any other parameter's values |
| FiltersJs.ActiveButtonShowsActive | static/self/js/filters.js:21-25 | the page the "active" button loads lists exactly the tasks that are not done (by `TaskFilterByDone` in tasks/filters.py) |
| FiltersJs.DoneButtonShowsDone | static/self/js/filters.js:28-32 | the page the "done" button loads lists exactly the done tasks |
| FiltersJs.BothButtonShowsAll | static/self/js/filters.js:35-39 | the page the middle button loads lists every task |
| TasksPrepare.DepartmentUsers | tasks/services/tasks_prepare.py:27 | exactly the ids of the users whose engineer belongs to the department (for no department: users without an engineer or without a department) |
| TasksPrepare.PermissionFilter | tasks/services/tasks_prepare.py:15-59 | a task is listed if and only if it is in the table and satisfies the role's condition; the list is ordered by creation |
| TasksPrepare.PermissionFilterDistinct | tasks/services/tasks_prepare.py:15-59 | `.distinct()`: no visible task is listed twice |
| TasksPrepare.PermissionCondMeaning | tasks/services/tasks_prepare.py:15-59 | for every role, the query built selects a task exactly when the role's rule (as the comments of `permission_filter` state it) lets the user see it |
| TasksPrepare.OwnMeaning | tasks/services/tasks_prepare.py:15-59 | administrator: the union selects exactly the undeleted tasks; no engineer: exactly the undeleted tasks the user created |
| TasksPrepare.HeadCondMeaning | tasks/services/tasks_prepare.py:25-37 | for a head of department, the query agrees with the visibility rule on every task |
| TasksPrepare.HeadCondHolds | tasks/services/tasks_prepare.py:30-36 | the head's query holds exactly for undeleted tasks of the department, of its engineers or created by its users, or created by the head |
| TasksPrepare.MaySeeAsHead | tasks/services/tasks_prepare.py:28-29 | the visibility rule for a head of department, written out |
| TasksPrepare.EngineerCondMeaning | tasks/services/tasks_prepare.py:40-53 | for another engineer, the query agrees with the visibility rule on every task |
| TasksPrepare.EngineerCondHolds | tasks/services/tasks_prepare.py:41-53 | the engineer's query holds exactly for undeleted tasks assigned to them, or to their department when they have one, or created by them |
| TasksPrepare.MaySeeAsEngineer | tasks/services/tasks_prepare.py:39-53 | the visibility rule for an engineer who is not a head, written out |
| TasksPrepare.PermissionFilterOwnAndDeleted | tasks/services/tasks_prepare.py:15-59 | no role sees a deleted task, and every user sees the undeleted tasks they created |
| TasksPrepare.PermissionFilterSuperuser | tasks/services/tasks_prepare.py:19-22 | an administrator sees exactly the undeleted tasks |
| TasksPrepare.PermissionFilterHead | tasks/services/tasks_prepare.py:25-37 | a head of department sees exactly the undeleted tasks of the department, of its engineers, of its users, and their own |
| TasksPrepare.PermissionFilterEngineer | tasks/services/tasks_prepare.py:40-53 | another engineer sees exactly the undeleted tasks assigned to them, to their department if any, and their own |
| TasksPrepare.PermissionFilterNoEngineer | tasks/services/tasks_prepare.py:55-59 | a user without an engineer sees exactly the undeleted tasks they created |
| TasksPrepare.SuperuserSeesMost | tasks/services/tasks_prepare.py:18-22 | every task any user sees is seen by an administrator |
| TasksPrepare.GetTasksCount | tasks/services/tasks_prepare.py:88-115 | each of the done, open and own counts is at most the number of tasks; the available count is the size of the available set; "due today" compares the Moscow dates of the deadline and of now |
| TasksPrepare.CountsAddUp | tasks/services/tasks_prepare.py:88-115 | done plus open tasks is all tasks; the open tasks due today are at most the open tasks |
| TasksPrepare.GetFilteredTasks | tasks/services/tasks_prepare.py:118-168 | computes the listing, counters and display parameters of the request (as stated by FilteredTasksVisible and FilteredTasksCounters) |
| TasksPrepare.FilteredQuerysetVisible | tasks/services/tasks_prepare.py:122-146 | before the done/active toggle the tasks are visible ones, each once, and linked to the object when one is given |
| TasksPrepare.LinkedNarrows | tasks/services/tasks_prepare.py:143-144 | `filter(objects_set=obj)` keeps exactly the tasks linked to the object, each once |
| TasksPrepare.FilteredTasksVisible | tasks/services/tasks_prepare.py:118-168 | the listed tasks are distinct, visible to the user, never deleted, and linked to the object when one is given |
| TasksPrepare.FilteredTasksCounters | tasks/services/tasks_prepare.py:148-155 | the done and open counters cover the listed tasks (they are counted before the toggle); the available counter counts every visible task of the object |
| TasksPrepare.TimeLeft | tasks/services/tasks_prepare.py:197 | never negative; zero exactly when less than an hour remains; otherwise the whole number of hours left |
| TasksPrepare.AnnotatePage | tasks/services/tasks_prepare.py:194-199 | every task of the page, in place, gets its hours left and the current time; nothing else of it changes |
| TasksPrepare.BuildTasksPage | tasks/services/tasks_prepare.py:186-208 | the page lists the paginated tasks in order, each with its hours left and the current time |
| TasksPrepare.ListTasks | tasks/services/tasks_prepare.py:186-208 | filter, paginate and annotate give the page BuildTasksPage describes |
| TasksPrepare.AnnotatedPage | tasks/services/tasks_prepare.py:194-199 | the page after the loop is the page annotated task by task |
| TasksPrepare.TasksPageRead | tasks/services/tasks_prepare.py:176-214 | the page cache read-through: a stored page answers only when there are no filter parameters, and then the store is unchanged; with filter parameters the built page answers and nothing is stored; otherwise the built page answers and is stored at its key; no other key gains or loses an entry |
| TasksPrepare.GetTasks | tasks/services/tasks_prepare.py:171-214 | the returned page and the new cache contents are those of TasksPageRead at the key of the page number and the username (version 1) over the page BuildTasksPage describes: a cached page is returned as stored when there are no filter parameters, otherwise the built page is returned, and stored only when there are no filter parameters |
| TasksActions.StripLeft | tasks/services/tasks_actions.py:41 | `lstrip`: the result is a suffix of the text that does not start with a stripped character, and the text itself when it does not start with one |
| TasksActions.StripRight | tasks/services/tasks_actions.py:41 | `rstrip`: the result is a prefix of the text that does not end with a stripped character, and the text itself when it does not end with one |
| TasksActions.StripChars | tasks/services/tasks_actions.py:41 | `strip`: a non-empty result neither starts nor ends with a stripped character |
| TasksActions.NewStyles | tasks/services/tasks_actions.py:32-38 | the loop yields one "width:100%" for each declaration that starts with "width" once stripped, and nothing for any other (height included) |
| TasksActions.StripJoinedWidths | tasks/services/tasks_actions.py:41 | `.strip('; ')` removes nothing from the joined "width:100%" declarations |
| TasksActions.ResizeStyle | tasks/services/tasks_actions.py:32-41 | the new style is as many "width:100%" declarations, joined by "; ", as the old style had width declarations; it is empty exactly when there were none |
| TasksActions.WidthsCount | tasks/services/tasks_actions.py:32-41 | the rewritten style has exactly as many width declarations as it holds "width:100%" entries |
| TasksActions.ResizedStyleStable | tasks/services/tasks_actions.py:32-41 | rewriting a rewritten style changes nothing |
| TasksActions.Resized | tasks/services/tasks_actions.py:27-41 | only the first image's style changes: its other attributes, the other images and the rest of the document are kept; an image without a style is left as it is |
| TasksActions.AutoResizePic | tasks/services/tasks_actions.py:20-48 | "" for a missing or empty text; the text unchanged when it has no image; otherwise the document rendered after the first image's style is rewritten |
| TasksActions.SetList | tasks/services/tasks_actions.py:83-84 | `setlist`: the key's list becomes the given values; every other key's list is unchanged |
| TasksActions.TagNamed | tasks/services/tasks_actions.py:76 | `get(tag_name=...)`: a found tag is in the table with exactly that name; none is found only when no tag has it |
| TasksActions.CreateRunMeaning | tasks/services/tasks_actions.py:51-85 | the run fails exactly when a name unknown to the table (ignoring case) is given twice; when it succeeds, the table grows by the new names in order with consecutive keys, and the ids are those of the names as stored, a known name in another case contributing nothing |
| TasksActions.CreateRunFailureSticks | tasks/services/tasks_actions.py:51 | `@atomic`: once a creation fails, the whole run fails with the integrity error |
| TasksActions.TagTable.constructor | tasks/services/tasks_actions.py:62 | the table starts with the given tags and next key |
| TasksActions.TagTable.Create | tasks/services/tasks_actions.py:70 | a name already stored fails with an integrity error and changes nothing; otherwise a tag with the next key is appended and its key returned |
| TasksActions.TagTable.CreateTags | tasks/services/tasks_actions.py:51-85 | on success the POST data has the key's list replaced by the run's ids and the table is the run's table; on failure the table is restored and the integrity error returned |
| TasksActions.UserName | tasks/services/tasks_actions.py:89-93 | the engineer's "first second" name when the user has an engineer, else the user name |
| TasksActions.Stamp | tasks/services/tasks_actions.py:95 | the "%d.%m.%Y %H:%M" stamp holds no line break |
| TasksActions.StampRoundTrip | tasks/services/tasks_actions.py:95 | the stamp of a valid date-time is sixteen characters and reads back as its day, month, year, hour and minute |
| TasksActions.LogLine | tasks/services/tasks_actions.py:95 | the line is the text followed by " [name / stamp]" and a line break, and holds no other line break when its parts hold none |
| TasksActions.Logged | tasks/services/tasks_actions.py:88-97 | only the completion text changes, and it is the old text with the event line appended |
| TasksActions.EventAddsOneLine | tasks/services/tasks_actions.py:95-96 | an event adds exactly one line to the log, after the old log |
| TasksActions.RedirectTarget | tasks/services/tasks_actions.py:186-190 | the task list for a non-POST request; otherwise the stripped `from_url`, or the stripped task list address when it is missing |
| TasksActions.TaskIndex | tasks/services/tasks_actions.py:184 | `get_object_or_404`: the position of the row with that key, or none exactly when no row has it |
| TasksActions.AddId | tasks/services/tasks_actions.py:195 | a many-to-many add: the old ids in order followed by the new one unless it is there already; it never creates a duplicate |
| TasksActions.ValidTasksUpdate | tasks/services/tasks_actions.py:195-196 | saving a row with the same key and duplicate-free relations keeps the table valid |
| TasksActions.TaskStore.constructor | tasks/services/tasks_actions.py:184 | the store starts with the given tasks and comments |
| TasksActions.TaskStore.AddEventLog | tasks/services/tasks_actions.py:88-97 | only the task at the position changes, to its logged version; comments and validity are kept |
| TasksActions.TaskStore.TakeTask | tasks/services/tasks_actions.py:181-205 | 404 for an unknown task whatever the method; on POST a user with an engineer joins the task's engineers and the event is logged; otherwise nothing changes; validity is kept |
| TasksActions.TaskStore.DeleteTask | tasks/services/tasks_actions.py:208-232 | a non-POST request changes nothing; on POST an unknown task gives 404; staff or the creator mark the task deleted and log it; anyone else changes nothing |
| TasksActions.TaskStore.ReopenTask | tasks/services/tasks_actions.py:235-256 | a non-POST request changes nothing; on POST an unknown task gives 404, else the task is reopened and the event logged |
| TasksActions.TaskStore.CommentTask | tasks/services/tasks_actions.py:259-297 | a non-POST request changes nothing; on POST an unknown task gives 404; a non-blank answer becomes a comment (stripped, first picture resized); `is_done` closes the task and logs the closing, else the answer is logged |
| TasksActions.TaskStore.Answer | tasks/services/tasks_actions.py:273-295 | the comment is appended when the answer is non-blank; the task is closed and the closing logged, or the answer logged |
| TasksActions.Found | tasks/services/tasks_actions.py:353-354 | the related rows' values in the order of the ids; all of them when every id is found |
| TasksActions.PrintRowsMeaning | tasks/services/tasks_actions.py:338-369 | one row per task: every task is printed, every row is a task's row, and rows follow a (completion, creation) sorted permutation of the tasks |
| TasksActions.PrintTasks | tasks/services/tasks_actions.py:349-367 | the loop builds exactly the rows PrintRowsMeaning describes |
| TasksActions.PrintRowOf | tasks/services/tasks_actions.py:353-366 | the loop body builds the task's row: the UTC date of the completion time as "d.m.Y", header, responsible departments then engineers, done flag and priority |
| TasksActions.PrintedDayAgainstMoscowDay | tasks/services/tasks_actions.py:358 | the printed date is the date of the completion time's UTC day, and from 21:00 UTC on that is the day before the Moscow day the date filters compare |
| TasksActions.LateEveningTaskPrintsUtcDate | tasks/services/tasks_actions.py:358 | a task due at 22:30 UTC on 1 May 2024 is printed as "01.05.2024" although its Moscow day, the one the filters compare, is 2 May |
| TasksLegacy.MineNarrow | tasks/services/tasks.py:16-20 | with "my tasks" off the tasks are kept; with it on, exactly the filtered tasks assigned to the user's engineer, or none for a user without an engineer; rows stay distinct |
| TasksLegacy.Scope | tasks/services/tasks.py:23-24 | with an object, exactly the tasks linked to it; without one, all of them; rows stay distinct |
| TasksLegacy.AsWrittenRaises | tasks/services/tasks.py:14 | as written (no request passed to the filter) the function fails exactly when the "my tasks" value, defaulted to "false", is a boolean the filter reads: for an absent value, "true" and "false"; whenever it succeeds "my tasks" is off |
| TasksLegacy.AsWrittenDefaultRaises | tasks/services/tasks.py:14 | the page without a query string always fails |
| TasksLegacy.CorrectionAgrees | tasks/services/tasks.py:5-45 | passing the request gives the same result wherever the original succeeds |
| TasksLegacy.GetFilteredTasksShape | tasks/services/tasks.py:5-45 | the corrected result holds distinct tasks of the table, linked to the object when one is given, ordered by completion time as asked, and its done and open counts add up to its length |
| TasksLegacy.DoneCountsAddUp | tasks/services/tasks.py:35-36 | done and open tasks add up to all of them |
| TasksLegacy.GetFilteredTasksMine | tasks/services/tasks.py:16-20 | with "my tasks" on, only the engineer's tasks remain, and a user without an engineer gets none (counts zero) |
| Service.NumPages | tasks/services/service.py:43-47 | at least one page, and just enough pages for every row (the last page is not empty unless there are no rows) |
| Service.PageNumber | tasks/services/service.py:44 | `get_page`: the page is always in 1..num_pages; a value that is not a number gives page 1, a number in range that page, any other number the last page |
| Service.PageItems | tasks/services/service.py:44 | a page holds at most per_page rows, the rows from (number-1)*per_page on in order, and is non-empty when it starts inside the rows |
| Service.ItemOnItsPage | tasks/services/service.py:43-44 | every row is shown, at position i % per_page, on page i / per_page + 1, which exists |
| Service.Flags | tasks/services/service.py:50-54 | an ellipsis is shown only together with the link beside it; the last-page link shows exactly when at least three pages follow, the first-page link exactly from page 4 on |
| Service.PaginateQueryset | tasks/services/service.py:36-66 | the current page lies in 1..last page; the last page number is the paginator's page count; a non-empty list gives a non-empty page; the flags are those of the current page |
| Service.DefaultDate | tasks/services/service.py:74-90 | after 17:00 the next day, else today, as a date that reads back as "YYYY-MM-DD"; no value exactly where the next day overflows |
| Service.LatinOf | tasks/services/service.py:95-110 | the table maps exactly the Russian letters, and only to Latin letters (or to nothing) |
| Service.TransliterateChar | tasks/services/service.py:111 | a character outside the table is kept; the result never holds a Russian letter |
| Service.Transliterate | tasks/services/service.py:93-111 | a text without Russian letters is unchanged, and no result holds one |
| Service.TransliterateAppend | tasks/services/service.py:111 | transliteration distributes over concatenation |
| Service.TransliterateIdempotent | tasks/services/service.py:93-111 | transliterating twice is transliterating once |
| Service.FileOwner.constructor | tasks/services/service.py:25 | the owner starts with the given files |
| Service.FileStore.constructor | tasks/services/service.py:32-33 | the store starts with the given rows and stored files |
| Service.Listed | tasks/services/service.py:24-28 | exactly the owner's files whose URL is listed |
| Service.Unlisted | tasks/services/service.py:27 | exactly the owner's files whose URL is not listed |
| Service.ListedUnlistedPartition | tasks/services/service.py:25-28 | every file is either kept or detached, never both, counting repetitions |
| Service.ListedAll | tasks/services/service.py:27 | when every file is listed, nothing is detached |
| Service.ListedIdempotent | tasks/services/service.py:7-33 | a second clean-up with the same list detaches nothing more |
| Service.WithoutId | tasks/services/service.py:33 | `db_file.delete()`: exactly the rows with another key remain |
| Service.DeleteRows | tasks/services/service.py:31-33 | exactly the rows whose key is not that of a dropped file remain |
| Service.UrlSet | tasks/services/service.py:32 | exactly the URLs of the files |
| Service.RemoveUnusedAttachedFiles | tasks/services/service.py:7-33 | data that is not JSON or is null changes nothing; a value the comprehension raises on fails before anything changes; otherwise exactly the listed files are kept, in order (an empty string or empty object lists none, so every file is detached), and with `delete_orphan_files` the detached files' rows and stored files are deleted, otherwise kept |
| Service.DetachUnlisted | tasks/services/service.py:24-33 | the loop leaves the listed files, and with deletion on removes the unlisted files' rows and stored files |
| FunctionsService.PaginateQueryset | tasks/functions/service.py:59-88 | the current page lies in 1..last page; each of the four flags is exactly its inequality on the current and last page |
| FunctionsService.PaginationCopiesAgree | tasks/functions/service.py:59-88 | the older copy agrees with tasks/services/service.py on the page, the flags, the last page and per_page (it only lacks the paginator) |
| FunctionsService.RemoveUnusedTaskAttachedFiles | tasks/functions/service.py:30-56 | the same clean-up on a task's files: no change for non-JSON or null, failure before any change on a value the comprehension raises on, and otherwise exactly the listed files kept (none for an empty string or object), with the detached files deleted when asked |
| Service.MemberValue | tasks/services/service.py:24 | `f["file"]` on a decoded object: present exactly when a member has that name, and then the value of the last such member |
| Service.EntryUrls | tasks/services/service.py:24 | an entry lists a URL exactly when its "file" member is that string |
| Service.EntriesUrls | tasks/services/service.py:24 | the comprehension lists a URL exactly when some entry lists it |
| Service.UploaderDataOf | tasks/services/service.py:10-24 | decode errors and `null` detach nothing; an empty string or empty object lists no file; a list works exactly when every entry is an object with a "file" member and then lists their URLs; numbers, booleans, non-empty strings and non-empty objects raise |
| Service.EmptyUploaderDataDetachesAll | tasks/services/service.py:22-33 | for `""` and `{}` no file is listed: none of the owner's files is kept and all of them are detached |
| Service.ListedNothing | tasks/services/service.py:26-28 | with no URL listed, no file is kept and every file is unlisted |
| Service.EntriesListTheirFiles | tasks/services/service.py:24-28 | for a list of entries, a file is kept exactly when some entry's "file" member is its URL |
| Forms.Choices | tasks/forms.py:40-49 | one choice per engineer, in order, followed by one per department, in order |
| Forms.DecodeAllAt | tasks/forms.py:70-73 | every submitted value is decoded on its own, in order |
| Forms.PickTokens | tasks/forms.py:65-81 | the loop over the submitted values gives what PickContents describes |
| Forms.CollectStopsAtError | tasks/forms.py:70-73 | once a value fails to decode, the whole loop fails with that error |
| Forms.CollectContents | tasks/forms.py:70-81 | the loop succeeds exactly when every value decodes; then an id is among the engineers iff some value was an engineer token for it, among the departments iff some value was a department token for it, and other prefixes add nothing |
| Forms.PickContents | tasks/forms.py:65-81 | the same, on the submitted strings: "eng_<id>" picks the engineer, "dep_<id>" the department, any other prefix nothing; a value whose second part is not a number fails |
| Forms.SplitToken | tasks/forms.py:71 | splitting "<prefix>_<n>" at '_' gives the prefix and the digits back |
| Forms.EngineerTokenDecodes | tasks/forms.py:75-76 | "eng_<n>" decodes to engineer n |
| Forms.DepartmentTokenDecodes | tasks/forms.py:77-81 | "dep_<n>" decodes to department n |
| Forms.ChoiceDecodes | tasks/forms.py:44-49 | every offered choice decodes to the engineer or department it was made from |
| Forms.PickChoices | tasks/forms.py:44-81 | any selection of offered choices decodes without error and picks every chosen engineer and department |
| Forms.CompletionTime | tasks/forms.py:54-58 | the date and time combine exactly when the time has no microseconds (`str(time)` then has no fraction the format rejects), and then read back unchanged |
| Forms.TaskInstance.constructor | tasks/forms.py:52 | a new task is not deleted and has no relations |
| Forms.TaskInstance.WriteScalars | tasks/forms.py:52-60 | the model fields are written and the task is undeleted; the relations are untouched |
| Forms.TaskInstance.SaveAdd | tasks/forms.py:51-99 | fails, changing nothing, exactly when the completion time or a token fails; otherwise the fields are written, each relation is set only when something was chosen for it and kept otherwise, and the files are never written |
| Forms.TaskInstance.SaveEdit | tasks/forms.py:140-193 | as SaveAdd, with the text from "text_edit", and the engineers and departments cleared when none of that kind was chosen |
| Forms.Elements | tasks/forms.py:85 | `set(ids)`: exactly the given ids; empty exactly for no ids |
| Forms.ObjectInstance.constructor | tasks/forms.py:274 | a new object has no groups, tags or files |
| Forms.ObjectInstance.Save | tasks/forms.py:216-234 | the fields are written; the groups are replaced by a non-empty submitted set and cleared otherwise; the tags are replaced by the submitted set, empty or not, and cleared when the field is absent; the files are never written |
| Calendar.NextDay | tasks/services/service.py:84 | `+ timedelta(days=1)` on a date before 9999-12-31 gives a valid, later date |
| Calendar.IsoDateRoundTrip | tasks/services/service.py:90 | a date formatted with "%Y-%m-%d" reads back as the same date |
| Calendar.ParseDateInput | tasks/filters.py:89-94 | a date the due-date filters accept is a real calendar date, and a text is accepted exactly when one of the field's three input formats reads it after stripping |
| Calendar.ParseDateInputOfIsoDate | tasks/filters.py:89-94 | every date from year 1000 on, written as "%Y-%m-%d", is accepted back as that date |
| Calendar.DayNumberNextInMonth | tasks/filters.py:89-94 | `completion_time__date`: within a month, the next day has the next day number |
| Ext.Find | tasks/templatetags/ext.py:17 | the first index from k on that holds the character, or the end when none does |
| Ext.SrcAt | tasks/templatetags/ext.py:17 | `src="([^"]+)"` at a position matches exactly once, ending at the first quote after a non-empty value |
| Ext.LastSrc | tasks/templatetags/ext.py:17 | the backtracking of `[^>]*` takes the rightmost `src="` in the range that matches |
| Ext.MatchAt | tasks/templatetags/ext.py:17 | the match the pattern makes from a start is one of its matches there, with `src="` furthest right |
| Ext.Search | tasks/templatetags/ext.py:18 | `re.search`: the leftmost start with a match, and at that start the match with `src="` furthest right |
| Ext.GetFirstImageUrl | tasks/templatetags/ext.py:10-25 | "" for a missing text; otherwise "" exactly when the decoded text has no `<img ... src="...">` match; the url never holds a quote |
| Ext.GroupHasNoQuote | tasks/templatetags/ext.py:17 | the captured group holds no quote |
| Ext.FirstImageUrlIsLeftmost | tasks/templatetags/ext.py:18-20 | a url found is the group of the leftmost match, taken with `src="` furthest right |
| Ext.FirstImageOfSingleTag | tasks/templatetags/ext.py:10-25 | a text that decodes to a single `<img src="url">` tag yields url |
| Ext.TagEnd | tasks/templatetags/ext.py:35-37 | `<[^>]+>` at the head: its '>' comes after at least one other character; no match only when there is no such '>' |
| Ext.ClosingAt | tasks/templatetags/ext.py:35 | `</[^>]+>` at a position: its '>' comes after a non-empty name |
| Ext.LazyClose | tasks/templatetags/ext.py:35 | the lazy `.*?` stops at the first closing tag from the position on |
| Ext.ElementEnd | tasks/templatetags/ext.py:35 | `<[^>]+>.*?</[^>]+>` at the head ends inside the text |
| Ext.DropElements | tasks/templatetags/ext.py:35 | removing elements with their content never lengthens the text, and leaves a text without '<' unchanged |
| Ext.DropsPairedElement | tasks/templatetags/ext.py:35 | an element whose content holds no '<' goes away with its content |
| Ext.LazyCloseSkips | tasks/templatetags/ext.py:35 | the lazy scan passes over characters other than '<' |
| Ext.DropTags | tasks/templatetags/ext.py:37 | removing the remaining tags never lengthens the text, and leaves a text without '<' unchanged |
| Ext.DropOpenings | tasks/templatetags/ext.py:38 | the third substitution never lengthens the text, keeps its first character when that is not '<', and leaves no '<' that could open a tag |
| Ext.DropOpeningsKeeps | tasks/templatetags/ext.py:38 | a text with nothing left to open a tag passes unchanged |
| Ext.DropOpeningsIdempotent | tasks/templatetags/ext.py:38 | applying the third substitution twice is applying it once |
| Ext.StripHtmlAndContent | tasks/templatetags/ext.py:28-49 | "" for a missing text; the result has no surrounding whitespace, is never longer than the text, and is the stripped text when it holds no '<' |
| Ext.StripHtmlLeavesNoOpening | tasks/templatetags/ext.py:28-45 | no '<' that could open a tag survives the filter |
| Ext.StripIsSlice | tasks/templatetags/ext.py:43 | `strip()` keeps a contiguous part of its argument |
| Calendar.CenturyOf | tasks/filters.py:89-94 | a two-digit `%y` year becomes a year from 1969 to 2068 with the same last two digits |
| Calendar.ParseWithFormat | tasks/filters.py:89-94 | a format reads only real dates: day, month and year fields of the format's widths in the format's order |
| Calendar.ParseWithFormats | tasks/filters.py:89-94 | the formats are tried in order: the answer is that of the first format that reads the text, and there is one exactly when some format reads it |
| Calendar.ParseDateInputOfFields | tasks/filters.py:89-94 | a dash-separated date without '.' is refused by both dotted formats and read by the ISO one |
| Calendar.ParseDateInputOfDottedDate | tasks/filters.py:89-94 | every date from year 1000 on, written as "%d.%m.%Y" as the date widget writes it under "ru-ru", is accepted back as that date |
| Calendar.CenturyOfLastTwoDigits | tasks/filters.py:89-94 | every year from 1969 to 2068 is read back from its last two digits |
| Calendar.ParseDateInputOfShortDottedDate | tasks/filters.py:89-94 | every date from 1969 to 2068 written as "%d.%m.%y" is accepted back as that date by the second format |
| Calendar.SecondOfMayInput | tasks/filters.py:89-94 | the text "02.05.2024" is accepted as 2 May 2024 |
| TaskQuery.DayOfBounds | tasks/filters.py:89-94 | the day of a UTC time (DayOf) is the Moscow date: the day whose 24 hours contain the time plus three hours |
| TaskQuery.LateEveningIsNextMoscowDay | tasks/services/tasks_prepare.py:102-104 | a UTC time from 21:00 on falls on the next Moscow day |
| TaskQuery.DaytimeIsSameMoscowDay | tasks/services/tasks_prepare.py:102-104 | a UTC time before 21:00 falls on the same Moscow day |
| TaskQuery.MoscowDayOf | tasks/services/tasks_prepare.py:102-104 | a UTC day's instant falls on the same Moscow day before 21:00 and on the next one from then on |
| Calendar.DayNumberOfDate | tasks/services/tasks_actions.py:358 | the date built from a day number has that day number, so the date the printed list writes is the day's own date |
| Calendar.UtcDate | tasks/services/tasks_actions.py:358 | the date `dateformat.format` writes for a stored time is the date whose day number is the time's seconds divided by 86400 |
| Calendar.UtcDateOfDay | tasks/services/tasks_actions.py:358 | every instant of a UTC day has that day's date |
| Domain.EngineerOfUser | user/models.py:6-10 | `get_engineer_or_none`: the engineer whose user is this user, or none exactly when no engineer points at the user |
| QueryParams.GetList | tasks/filters.py:70 | `getlist`: a value is listed exactly when the query holds it under the key |
| QueryParams.Get | tasks/filters.py:116 | `get`: a value exactly when the key is present, and then one the query holds under the key |
| QueryParams.GetIsLastOfList | tasks/filters.py:116 | `get` agrees with `getlist`: it is the last value of the key's list |
| QueryParams.SetDefault | tasks/filters.py:113-126 | a missing key gets the default and a present one keeps its value; every other key is unchanged |
| CacheStore.Counters.Get | tasks/services/cache_version.py:10 | `cache.get`: the stored value, or none exactly for a missing key |
| CacheStore.Counters.Set | tasks/services/cache_version.py:13 | `cache.set`: the key holds the value, every other key is unchanged |
| CacheStore.Cache.Get | tasks/services/tasks_prepare.py:182 | `cache.get(key, version)`: the entry stored at the key and version, or none |
| CacheStore.Cache.Set | tasks/services/tasks_prepare.py:212 | `cache.set(key, value, version)`: that entry holds the value, every other entry is unchanged |
| CacheStore.Cache.Delete | tasks/services/objects.py:174-175 | `cache.delete(key, version)`: that entry is removed, every other entry is unchanged |
| CacheStore.Counters.Incr | tasks/services/tree_nodes/base.py:69-71 | `cache.incr`: a stored counter goes up by one and the new value is returned; a missing key raises ValueError and changes nothing |
| Filters.MineStepNarrows | tasks/filters.py:135-140 | the "my tasks" method fails exactly when there is no request and the flag reads as a boolean; when it succeeds it keeps distinct tasks from its input |

## Left out

- The Django ORM itself is not modelled: query compilation, `prefetch_related`, `distinct` and the row multiplicity of joins inside `Count` annotations. Querysets are order-preserving selections from tables whose rows are distinct.
- Paginator internals are not modelled beyond `num_pages`, `get_page` and the rows of a page.
- Cache backend details are not modelled: expiry (every timeout), eviction, and the non-atomic read-then-write of a version counter. The store is single and sequential, and concurrency is out of scope.
- The clock, `uuid4`, file storage, BeautifulSoup's parser and serializer, and `unquote` are parameters of the operations that use them.
- `time_left` is computed on whole seconds rather than on `total_seconds()` as a float.
- The `messages` framework and the rendered templates are not modelled. The redirect target of the "home" and "tasks" URLs is a parameter.
- `create_task`, `edit_task` and `export_to_excel` in tasks/services/tasks_actions.py are not modelled: view glue around the modelled forms, `create_tags`, the clean-up and the event log, plus an Excel writer.
- The Excel export class is not part of this model.
- `get_random_icon`, the context processors and the other template tags read the filesystem or randomness, and are not part of this model.
- The `AllTagsTree` class used by `get_fields_for_filter` is not part of this model. The tag tree it yields is a parameter of `Filters.BuildFields`.
- Where a list ordered by `parent_id` puts objects without a parent depends on the database (PostgreSQL puts them last, SQLite first), so it is a parameter.
- Lower-casing, title-casing and digit tests cover ASCII and Cyrillic letters only.
- The percent-encoding done by `URLSearchParams` in filters.js and by `urlencode` in `filter_url` is not modelled. Query strings are lists of decoded pairs.
- Service.RemoveUnusedAttachedFiles: `json.loads` itself is not modelled; the operation takes its result (or its JSONDecodeError). A missing (`None`) argument makes `json.loads` raise TypeError, and that case is not represented. Numbers are integers only, since their value plays no part.
- Service.PaginateQueryset: requires `per_page` to be a positive integer. `per_page` comes from the query string, and `Paginator` raises ValueError on a value that is not a number and ZeroDivisionError on 0, and `get_page` ends in EmptyPage on a negative one; these failures are not modelled.
- FunctionsService.PaginateQueryset: the same positive `per_page` requirement and the same unmodelled failures as Service.PaginateQueryset. TasksPrepare.BuildTasksPage, TasksPrepare.ListTasks and TasksPrepare.GetTasks pass it on.
- Calendar.ParseDateInput: `%d` and `%m` also accept a leading space before a single digit (" 2"); that form is not modelled.
- Filters.EngineersStep: its own contract states only that it narrows and that an empty value keeps every task. Which tasks it selects is stated by Filters.DepToEngineersMeaning.
- Filters.SortStep: its own contract states only that the tasks are kept. The order is stated by Filters.FilterTasksOrder.
- Service.Flags: states the two links exactly, and of each ellipsis only that it comes with its link. The four flags are stated exactly by FunctionsService.PaginateQueryset, which Service.PaginateQueryset agrees with by FunctionsService.PaginationCopiesAgree.
- TasksPrepare.GetTasksCount: its own contract states bounds only. How the counts add up is stated by TasksPrepare.CountsAddUp and TasksPrepare.FilteredTasksCounters.
- TasksActions.StripChars: states that the ends are not stripped characters, not that the stripped part is the longest such.
- These cache behaviours of the source are modelled as written and are not corrected:
  - `get_child_objects` stores its list under a key that ignores the user;
  - `edit_object` does not drop the child list of the edited object's parent;
  - a task save does not bump the objects page version;
  - the statistics cache is never dropped by a signal.
- In `create_tags`, a new name given twice in one request fails with IntegrityError. A known name spelt in another case is dropped. Both are modelled as written.

## Findings

| source | as written | input that shows it | evidently intended | confidence | as-written member | corrected member |
|---|---|---|---|---|---|---|
| tasks/services/tasks.py:14 | `TaskFilter(request.GET, queryset=...)` is built without `request=`, so the filter's "my tasks" method reads `self.request.user` of a missing request and raises AttributeError | a query string without `show_my_tasks_only`, which the filter defaults to "false", e.g. the plain task page | pass the request, as tasks/services/tasks_prepare.py:138 does; the result is then the task list narrowed, scoped and ordered as the function describes | not executed | TasksLegacy.AsWrittenDefaultRaises (with TasksLegacy.GetFilteredTasksAsWritten and TasksLegacy.AsWrittenRaises) | TasksLegacy.GetFilteredTasks, proved by TasksLegacy.GetFilteredTasksShape and TasksLegacy.CorrectionAgrees |
| tasks/services/objects.py:135-139 | the cache key `single_obj_<slug>` names the slug and not the user, so a stored detail is returned without the group check of `get_obj` | an object in group 1 whose only member opens its page; then a user in no group of the object opens it and receives the detail, where `get_obj` answers 404 | check the user's access before answering from the cache | not executed | Objects.SingleObjectServedToOutsider | Objects.SingleObjectReadChecked, proved by Objects.CheckedReadKeepsAccess |
