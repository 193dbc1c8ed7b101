# StarCraft II build orders, modelled in Dafny

The system helps players write and share StarCraft II build orders. The model
covers its core:

- **The unit catalog** (`sc_units.py`). Each `GameUnit` has a name and direct
  requirements. At construction it registers itself as a dependent of each
  requirement. `full_requirements` lists, without repeats, the transitive
  closure of the requirements. Each requirement's closure comes before the
  requirement itself. `available_choices` lists the dependents. The module
  defines 50 Zerg and Protoss units.
- **Build orders** (`sc_orders.py`). A `BuildOrder` keeps three lists:
  - the log of units added;
  - the units currently active (with repeats);
  - the unlocked tech (no repeats).

  `add_unit` first checks that every required and consumed unit is active.
  It then logs the unit, makes it active, unlocks its tech and removes the
  units it consumes, one `list.remove` at a time. `based_on` replays another
  order's active units.
- **The shared build trie** (`build_orders/models.py`). Builds share a tree of
  nodes. Each node has a parent, an index (its depth) and a unit name.
  - A build points at its tip node.
  - `add_unit` moves the tip to an existing child with the same name and next
    index, or creates that child.
  - `from_order` reuses or creates a root for the first logged unit, then adds
    the other logged units.
  - `elements` is the ancestry of the tip.
  - `next_index` is one past the largest index along the ancestry.
- **Helpers**:
  - `dict_create_path` walks a path of keys through nested dictionaries and
    creates missing levels (`func_utils.py`, and an identical copy in
    `build_orders/func_utils.py`).
  - `is_iterable` tests for a sequence that is not a string.
  - `map_sub` (`build_orders.py`) applies a function to every leaf of nested
    mappings and lists.

Code that changes things in place is modelled as classes with methods. Where
the source's operation has a pure counterpart, the method is proved against
the function that specifies it; otherwise its contract states the new fields
outright:

| class | specified by |
|---|---|
| `Units.Catalog` | `RegisterDependent` and `NewUnit` state the new fields directly; the class invariant ties the stored dependents to `Dependents`; `full_requirements` is the pure function `FullRequirements` over the stored requirements, with no method of its own |
| `Orders.BuildOrder` | `Step` and `Run` |
| `Trie.NodePool` and `Trie.Build` | `Extend`, `ExtendAll`, `Seed` and `FromNames` |
| `FuncUtils.DictHeap` | `Descend` and `CreatePathSpec` |

The lemmas then prove what the source promises about those functions.

How the model represents the source's objects:
- **Units in the catalog** are arena handles: positions in construction order.
  `GameUnit` requirements can only name units that already exist, so every
  requirement has a smaller handle.
- **Trie nodes** are positions in a node table. It stands for the database
  table.
- **Python dictionaries** that `dict_create_path` mutates, and that may be
  shared, are a heap of dictionaries addressed by id.
- **Exceptions** become outcomes:
  - `Outcome.NotMet` and `Outcome.RemoveFailed` for a build order;
  - `None` for `map_sub`, and for `dict_create_path` when a key remains to be
    applied to a value that is not a dictionary;
  - `null` for `from_order`.

Modules: `Wrappers` and `Seqs` (seqs.dfy), `Units`, `UnitCatalog`, `Orders`,
`Trie`, `FuncUtils` and `MapSub`.

The model follows the code as written in these points:
- `based_on` replays the base's active units, not its unit log.
- A consume that fails leaves the earlier updates of `add_unit` in place; the
  failure is not atomic.
- `unit_valid` checks membership, not multiplicity.
- There are no alternative consume groups and no `yields`.

## Model

| member | source | states |
|---|---|---|
| Seqs.AppendNew | sc_units.py:31-39 | The "append if not present" loop: the result holds exactly the old and the offered elements, and has no repeats if the old list had none |
| Seqs.AppendNewFresh | sc_units.py:31-39 | Distinct elements not yet present are all appended, in order |
| Seqs.AppendNewExtends | sc_orders.py:41-43 | The loop only appends: the old list is a prefix of the result |
| Seqs.AppendNewPresent | sc_orders.py:41-43 | Offering only elements already present leaves the list unchanged |
| Seqs.AppendNewConcat | sc_units.py:31-39 | One pass over `xs + ys` equals a pass over `xs` followed by a pass over `ys` |
| Seqs.AppendNewMiddle | sc_units.py:31-39 | Known, then new distinct, then known elements: exactly the new ones are appended |
| Units.AppendNewDependencyFirst | sc_units.py:31-39 | Appending units whose closures are already listed keeps the list in dependency-first order |
| Units.InClosureOfCons | sc_units.py:31-39 | Being in the closure of a non-empty list of requirements means being in the closure of the first one or of the rest |
| Units.CollectShape | sc_units.py:31-39 | The loop keeps the list free of repeats, lists only earlier units, keeps dependency-first order, and ends holding the accumulator plus every requirement and its closure |
| Units.FullRequirementsShape | sc_units.py:28-39 | `full_requirements` has no repeats, lists only earlier units and is dependency-first; `x` is listed iff `x` is a direct requirement or in a direct requirement's closure |
| Units.FullRequirementsEarlier | sc_units.py:28-39 | The closure has no repeats and only earlier units, so a unit never requires itself |
| Units.SingleRequirement | sc_units.py:31-39 | With one direct requirement `r`, the closure is `r`'s closure followed by `r` |
| Units.TwoRequirements | sc_units.py:31-39 | With direct requirements `a` and `b`: `a`'s closure, `a`, then the new members of `b`'s closure, then `b` unless already listed |
| Units.NoRequirementsNoClosure | sc_units.py:28-39 | A unit without requirements has an empty closure |
| Units.ChainInClosure | sc_units.py:28-39 | The end of every chain of direct requirements is in the closure of its start |
| Units.ClosureHasChain | sc_units.py:28-39 | Every member of the closure is reached by a chain of direct requirements |
| Units.FullRequirementsIsClosure | sc_units.py:28-39 | `x` is in `full_requirements` of `u` iff `u` depends on `x` through a chain: it is exactly the transitive closure |
| Units.DependentsMembers | sc_units.py:17-22 | Dependents are listed without repeats, in construction order, and are exactly the units that list `u` as a requirement |
| Units.DependentsPrefix | sc_units.py:17-22 | Units constructed later do not change the dependents recorded so far |
| Units.NoEarlierDependents | sc_units.py:11-22 | No unit constructed up to `u` depends on `u` |
| Units.Catalog.RegisterDependent | sc_units.py:20-22 | Appends `other` to `u`'s dependents unless it is already there; nothing else changes, and a list without repeats stays so |
| Units.Catalog.NewUnit | sc_units.py:12-18 | Stores the unit after all others, and appends it once to the dependents of each of its requirements; the dependent lists stay exact |
| Units.Catalog.ImmediateRequirements | sc_units.py:24-26 | The direct requirements, all constructed earlier |
| Units.Catalog.AvailableChoices | sc_units.py:41-43 | Without repeats, exactly the units that list `u` as a direct requirement |
| Units.Catalog.Load | sc_units.py:106-172 | Constructs units in order; the arena holds the given names and requirements and stays valid |
| UnitCatalog.Entry | sc_units.py:106-172 | Each unit's name and direct requirements; every requirement is defined earlier |
| UnitCatalog.LookupEntry | sc_units.py:49-100 | Looking up a unit's name gives the unit back |
| UnitCatalog.Requirements | sc_units.py:106-172 | 50 units, each with the requirements of its definition |
| UnitCatalog.CatalogAcyclic | sc_units.py:106-172 | Every requirement is defined before the unit that needs it, so the graph is acyclic |
| UnitCatalog.NamesDistinct | sc_units.py:49-100 | No two units share a name |
| UnitCatalog.RootUnits | sc_units.py:106-140 | Hatchery, Nexus and Pylon have no full requirements |
| UnitCatalog.LairPathRequirements | sc_units.py:107-127 | Spire needs [Spawning Pool, Lair]; Corrupter needs those and Spire; Hive needs [Spawning Pool, Lair, Infestation Pit] |
| UnitCatalog.GreaterSpireRequirements | sc_units.py:107-116 | Greater Spire needs [Spawning Pool, Lair, Infestation Pit, Hive, Spire] |
| UnitCatalog.GreaterSpireMerge | sc_units.py:116 | Adding Spire's closure and Spire to Hive's closure and Hive appends only Spire |
| UnitCatalog.BroodLordMerge | sc_units.py:132 | Adding Greater Spire's closure to Corrupter's closure and Corrupter appends only Infestation Pit and Hive, then Greater Spire |
| UnitCatalog.BroodLordRequirements | sc_units.py:107-132 | Brood Lord needs [Spawning Pool, Lair, Spire, Corrupter, Infestation Pit, Hive, Greater Spire], in that order |
| UnitCatalog.BroodLordClosure | sc_units.py:31-39 | From the closures of Corrupter and Greater Spire, Brood Lord's closure is exactly the seven units in order |
| UnitCatalog.LoadAll | sc_units.py:106-172 | Building the catalog gives a valid arena with each unit's name and requirements |
| Orders.RemoveFirst | sc_orders.py:45 | `list.remove` fails iff no unit has the name; otherwise the list is one shorter |
| Orders.RemoveFirstCounts | sc_orders.py:45 | A successful removal takes exactly one unit with the name; no other unit changes count |
| Orders.RemoveFirstAt | sc_orders.py:45 | It removes the first unit with the name and leaves the rest in order |
| Orders.ConsumeAll | sc_orders.py:44-45 | The consume loop; a reported failure names a consumed unit |
| Orders.ConsumeAllCounts | sc_orders.py:44-45 | The loop gets through iff every name is present at least as often as consumed; the names left are then the old ones less the consumed ones, and no unit is ever added |
| Orders.ConsumeAllSnoc | sc_orders.py:44-45 | Consuming one more name is one more `remove` after the others |
| Orders.ConsumeAllRest | sc_orders.py:44-45 | After the first failed `remove`, later names are not looked at |
| Orders.Step | sc_orders.py:37-48 | `add_unit` raises "not met" iff the unit is not admitted, and then changes nothing; otherwise the unit is appended to the log |
| Orders.StepTech | sc_orders.py:41-43 | An admitted unit's tech is appended once each, old entries are kept and the list stays free of repeats |
| Orders.StepDone | sc_orders.py:37-48 | `add_unit` returns normally iff the unit is admitted and every consume is available often enough, counting the unit itself; the active units then gain the unit and lose what it consumes; a failed removal names one of its consumes |
| Orders.StepInv | sc_orders.py:37-48 | Every outcome keeps the invariant: tech has no repeats and covers every logged unit's allows, and active units were logged |
| Orders.Run | sc_orders.py:9-14 | Replaying units that all succeed appends them all to the log |
| Orders.RunInv | sc_orders.py:9-14 | A replay keeps the invariant however it ends |
| Orders.RunConcat | sc_orders.py:9-14 | Replaying `xs + ys` replays `xs`, then `ys` only if `xs` ended normally |
| Orders.RunSnoc | sc_orders.py:13-14 | After a replay that ended normally, one more unit is one more `add_unit` |
| Orders.RunPrefixStep | sc_orders.py:13-14 | Each iteration of the constructor's loop extends the replayed prefix by one `add_unit` |
| Orders.RunPrefixStops | sc_orders.py:13-14 | Once a unit raises, the rest of the units do not change the outcome of the replay |
| Orders.RunOne | sc_orders.py:13-14 | Replaying one unit is one `add_unit` |
| Orders.RunWithoutConsumes | sc_orders.py:9-14 | When no unit consumes anything, a successful replay leaves every replayed unit active |
| Orders.BasedOnWithoutConsumes | sc_orders.py:16-18 | When nothing was consumed, `based_on` reproduces the base order exactly |
| Orders.DoubleConsumeIsPartial | sc_orders.py:28-45 | A unit consuming two Drones when one is active passes `unit_valid`; the second `remove` then fails after the log, the units and the tech were updated |
| Orders.DoubleConsumeRemoves | sc_orders.py:44-45 | Of two removals of Drone, the first succeeds and the second fails |
| Orders.BasedOnCanFail | sc_orders.py:16-18 | A valid order whose copy by `based_on` raises "not met": the replayed active units lack a consumed Drone |
| Orders.BaseReplay | sc_orders.py:9-14 | Hatchery, Drone, Extractor replays normally, leaving Hatchery and Extractor active |
| Orders.CopyReplay | sc_orders.py:16-18 | Replaying Hatchery, Extractor stops with Extractor not met |
| Orders.ZergBaseNotMet | sc_orders.py:50 | Six drones before a hatchery stop at the first drone with "requirements not met", logging nothing |
| Orders.ExtractorStep | sc_orders.py:37-45 | Adding Extractor consumes the Drone and keeps Hatchery and Extractor |
| Orders.ExtractorRemoves | sc_orders.py:44-45 | Removing Drone from [Hatchery, Drone, Extractor] leaves [Hatchery, Extractor] |
| Orders.BuildOrder.Empty | sc_orders.py:10-12 | A new order has three empty lists |
| Orders.BuildOrder.Create | sc_orders.py:9-14 | The lists and outcome are those of replaying the units from empty |
| Orders.BuildOrder.BasedOn | sc_orders.py:16-18 | The new order replays the base's active units from empty |
| Orders.BuildOrder.ActiveUnits | sc_orders.py:20-22 | Every active unit was logged, at least as many times as it is active |
| Orders.BuildOrder.AvailableTech | sc_orders.py:24-26 | No repeats, and everything any logged unit allows |
| Orders.BuildOrder.UnitValid | sc_orders.py:28-35 | True iff every consumed and every required unit is active |
| Orders.BuildOrder.Remove | sc_orders.py:45 | Removes the first active unit with the name, or reports that none exists and changes nothing |
| Orders.BuildOrder.UnlockTech | sc_orders.py:41-43 | The tech list becomes the old one with the new tech appended once each |
| Orders.BuildOrder.ConsumeUnits | sc_orders.py:44-45 | Removes the consumed units in turn; the state and failure are those of `ConsumeAll` |
| Orders.BuildOrder.AddUnit | sc_orders.py:37-48 | The new lists and outcome are those of `Step`; the invariant is kept |
| Trie.Ancestry | build_orders/models.py:23-29 | `full_ancestry` starts at a root, ends at the node and follows parent links |
| Trie.Max | build_orders/models.py:97-100 | `max` returns an element at least as large as every element |
| Trie.AncestryIndexes | build_orders/models.py:97-100 | Along an ancestry, the k-th node has index k, so its length is the node's index plus one |
| Trie.NextIndexIsDepth | build_orders/models.py:97-100 | `next_index` is the tip's index plus one, which is the number of elements |
| Trie.AncestryStable | build_orders/models.py:23-29 | Storing more nodes does not change an existing node's ancestry |
| Trie.PathNamesIdentifyNode | build_orders/models.py:46-56 | In a valid trie, two nodes with the same sequence of names along their ancestry are the same node |
| Trie.AncestryNames | build_orders/models.py:23-29 | A node's names are its parent's, then its own |
| Trie.FirstChild | build_orders/models.py:47-52 | Finds the first child of the tip with the name and index, or none exists |
| Trie.FirstRoot | build_orders/models.py:62-63 | Finds the first root with the name, or none exists |
| Trie.ChildUnique | build_orders/models.py:47-52 | At most one child of the tip matches, so the order of the search does not matter |
| Trie.RootUnique | build_orders/models.py:62-63 | At most one root has a given name, so the order of the root query does not matter |
| Trie.Extend | build_orders/models.py:46-56 | `add_unit` keeps the stored nodes and moves to a child of the tip with the name |
| Trie.ExtendSpec | build_orders/models.py:46-56 | `add_unit` keeps the trie valid and either stores nothing or stores exactly one new child of the tip at the next index; the elements grow by the new tip and the names by the name |
| Trie.ExtendCreates | build_orders/models.py:53-56 | A new child at the next index keeps the trie valid |
| Trie.ExtendPath | build_orders/models.py:46-56 | A step below the tip adds one element and one name |
| Trie.PathNamesStable | build_orders/models.py:23-29 | Storing more nodes does not change the names along a path |
| Trie.ExtendAll | build_orders/models.py:69-70 | The loop of `from_order` keeps the stored nodes |
| Trie.ExtendAllSpec | build_orders/models.py:69-70 | Adding several units keeps the trie valid and appends all their names to the build's names |
| Trie.Seed | build_orders/models.py:61-68 | Reuses the first root with the name, or stores a new root at `START_INDEX` |
| Trie.SeedSpec | build_orders/models.py:61-68 | The seed keeps the trie valid, and the build's names are just the first name |
| Trie.FromNamesSpec | build_orders/models.py:59-74 | `from_order` keeps the trie valid; the build's names are the order's log, or `[""]` for an empty log |
| Trie.ExtendAllStep | build_orders/models.py:69-70 | One more iteration of the `from_order` loop is one `add_unit` |
| Trie.SamplePoolValid | build_orders/models.py:5-17 | A sample trie holding two builds that share a prefix is valid |
| Trie.PoolValidPrefix | build_orders/models.py:46-56 | The nodes stored up to any point form a valid trie |
| Trie.ExtendNewPrefix | build_orders/models.py:53-56 | A tip without a child of that name gets the next stored node |
| Trie.ChainRest | build_orders/models.py:46-56 | A run of new nodes, each the child of the one before, minus its first node is again such a run |
| Trie.ChainFirst | build_orders/models.py:53-56 | The first name of a run of new nodes creates the first node of the run |
| Trie.ChainStep | build_orders/models.py:69-70 | Adding the names of such a run steps one node at a time |
| Trie.ExtendAllChain | build_orders/models.py:69-70 | Adding fresh names to a trie stores exactly one new chain of nodes |
| Trie.ExtendAllExisting | build_orders/models.py:47-52 | In a valid pool, any stored child of the tip named by the first name takes that name without storing a node |
| Trie.ExtendAllReuse | build_orders/models.py:47-52 | Names that are already a chain are walked without storing anything |
| Trie.ExtendAllOneNew | build_orders/models.py:53-56 | One new name stores one node |
| Trie.SampleChain | build_orders/models.py:53-56 | In the sample trie, the A, B and C nodes form a run of new nodes under the root |
| Trie.FirstBuild | build_orders/models.py:69-70 | The build R, A, B, C stores three nodes |
| Trie.SecondBuild | build_orders/models.py:46-56 | The build R, A, B, D shares A and B and stores only D |
| Trie.SecondBuildReuse | build_orders/models.py:47-52 | The second build reuses A and B |
| Trie.SharedPrefix | build_orders/models.py:46-56 | Two builds sharing a prefix store it once: five nodes in all |
| Trie.ExtendNew | build_orders/models.py:53-56 | A tip with no child of that name gets a new child at the next index |
| Trie.ExtendExisting | build_orders/models.py:47-52 | In a valid pool, any stored child of the tip with the name becomes the tip and nothing is stored |
| Trie.NodePool.constructor | build_orders/models.py:5-12 | The node table starts empty and valid |
| Trie.NodePool.FindChild | build_orders/models.py:47-49 | The search over the tip's children finds the first matching child |
| Trie.NodePool.FindRoot | build_orders/models.py:62-63 | The root query finds the first root with the name |
| Trie.NodePool.SeedRoot | build_orders/models.py:61-68 | The table and root are those of `Seed` |
| Trie.NodePool.Add | build_orders/models.py:53-55 | Stores the node after all others |
| Trie.Build.constructor | build_orders/models.py:42-44 | A build has a race and a tip |
| Trie.Build.Elements | build_orders/models.py:76-78 | From a root down to the tip, following parent links, one element per index |
| Trie.Build.NextIndex | build_orders/models.py:97-100 | One past the tip's index, which is the number of elements |
| Trie.Build.AddUnit | build_orders/models.py:46-56 | The table and tip are those of `Extend`; the trie stays valid |
| Trie.Build.FromOrder | build_orders/models.py:58-74 | No order gives no build; otherwise the table and tip are those of `FromNames` on the order's log, and the trie stays valid |
| FuncUtils.Descend | func_utils.py:9-11 | One step: the value under the key is returned, and the heap is unchanged, when the key exists (a dictionary or not); a missing key is bound to a new empty dictionary, which is returned |
| FuncUtils.CreatePathSpec | func_utils.py:6-12 | The walk keeps the heap valid and only adds entries; it returns a stored dictionary or a non-dictionary value, the latter only for a non-empty path |
| FuncUtils.Follow | func_utils.py:8-11 | Following existing keys ends on a stored dictionary or on the value under the last key |
| FuncUtils.FollowGrows | func_utils.py:6-12 | A followable path leads to the same value after the heap grows |
| FuncUtils.CreatePathReaches | func_utils.py:6-12 | After a walk that returns, the path leads from `into` to the returned value; an empty path returns `into` and changes nothing |
| FuncUtils.FollowPrefix | func_utils.py:8-11 | Every prefix of a followable path is followable |
| FuncUtils.CreatePathPrefixes | func_utils.py:6-12 | After a walk that returns, every prefix of the path is followable |
| FuncUtils.AddedOnPathCompose | func_utils.py:8-11 | Entries added over two stretches of the walk are still keys of the path bound to new dictionaries |
| FuncUtils.CreatePathAddsOnlyPath | func_utils.py:9-10 | Every added key is a key of the path bound to a new dictionary; a returned dictionary the walk created is empty |
| FuncUtils.CreatePathFrame | func_utils.py:8-11 | A dictionary that no proper prefix of the path reaches is left exactly as it was, so keys go only into dictionaries on the walk |
| FuncUtils.CreatePathFromEmptySection | func_utils.py:6-12 | From an empty dictionary, the walk ends on an empty dictionary it created, or on the start for an empty path |
| FuncUtils.CreatePathExisting | func_utils.py:8-11 | When every key exists, nothing changes and the walk returns what `Follow` reaches, a dictionary or not |
| FuncUtils.CreatePathIdempotent | func_utils.py:6-12 | After a walk that returns, a second call with the same path changes nothing and returns the same value |
| FuncUtils.CreatePathFails | func_utils.py:6-12 | The walk raises iff it meets a non-dictionary value with at least one key still to apply, before any missing key |
| FuncUtils.CreatePathLastLeaf | func_utils.py:8-12 | A non-dictionary value under the last key is returned with the heap unchanged; one more key after it makes the walk raise |
| FuncUtils.DictHeap.constructor | func_utils.py:6-7 | A heap with one empty dictionary |
| FuncUtils.DictHeap.CreatePath | func_utils.py:6-12 | The heap and the returned value (or the raise) are those of `CreatePathSpec` (the same code is in build_orders/func_utils.py) |
| FuncUtils.DictHeap.Step | func_utils.py:9-11 | The heap and the value under the key are those of `Descend` |
| FuncUtils.IsIterableLists | func_utils.py:3-4 | Exactly lists are iterable; strings are sequences but not iterable |
| MapSub.Map | build_orders.py:8-17 | Non-container values become `f(v)`; a list becomes a list of the same length; a mapping becomes a dictionary with the same keys, each mapped recursively |
| MapSub.MapFailsIff | build_orders.py:10-12 | `map_sub` fails iff an empty mapping occurs somewhere in the value |
| MapSub.MapMirrors | build_orders.py:8-17 | A result has the value's structure, with `f` applied at the leaves |
| MapSub.MirrorsUnique | build_orders.py:8-17 | At most one result has that structure |
| MapSub.MapSpec | build_orders.py:8-17 | `map_sub` returns `t` iff no mapping is empty and `t` mirrors the value |
| MapSub.MapIdentity | build_orders.py:8-17 | Mapping the identity over a value without empty mappings gives the value back |

## Left out

- Unit costs, `convert_to`, `__repr__` and `distinguishing_features`: they concern display and the costs of an order, not the core.
- `Build.units`, `Build.order` and `Node.unit`: they look units up in `all_gameunits`, which is not part of this model.
- The web layer, forms, decorators, users, votes and build details: they are outside the core.
- Persistence (`db.session.add`, `commit`): the node table is an in-memory sequence. Concurrent extension of the trie is not modelled.
- `BuildElement` and `zerg_base`: the first has no behaviour. The second passes catalog `GameUnit`s, which have no `consumes`, `allows` or `requirements` attribute, so it raises when sc_orders.py is imported. Even with those attributes it lists six drones before the hatchery they require; `Orders.ZergBaseNotMet` shows that order stops at the first drone.
- The `map_sub` copy in build_orders/func_utils.py:14-22 uses `functools` without importing it, so it raises `NameError` on every call. Only the working copy in build_orders.py is modelled.
- Orders.Unit: the class of the units that build orders take (with `requirements`, `consumes` and `allows`) is not part of this model. It is modelled as a record, and units are compared by name.
- Orders.BuildOrder.Create: the source's constructor raises instead of returning an outcome. The model returns the object together with the outcome.
- Orders.BuildOrder.AddUnit: returning `self` for chaining is not modelled.
- Trie.Build.FromOrder: `if order:` is modelled as a null test, since a build order object is always truthy. The model returns null where the source raises.
- Trie.Build.FromOrder: `str(unit)` is taken to be the unit's name, which is what `Node.unit` looks up.
- Trie.NodePool.FindChild, Trie.NodePool.FindRoot and Trie.FirstRoot: children and roots are searched in storage order, and the database's order is not modelled. `Trie.ChildUnique` and `Trie.RootUnique` show that the order does not change the result in a valid trie.
- FuncUtils.CreatePathSpec: keys are strings, and non-dictionary values are abstracted to one `Leaf` kind (strings, numbers, lists, `None`). The `TypeError` raised when a key is applied to such a value becomes a `None` result, with the entries added before it kept; a non-dictionary value under the last key is returned.
- FuncUtils.IsIterable: Python values are abstracted to strings, lists, string-keyed mappings and opaque atoms. Tuples count as lists, and other sequence types are not distinguished.
- MapSub.Map: the `ValueError` from unpacking an empty mapping becomes `None`. `map` returning a list (Python 2) is assumed.
