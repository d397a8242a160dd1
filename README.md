# Recipe dependency graph: a Dafny model

The recipe converter turns one recipe (ingredients, activities and chains of
"comes before" edges) into an HTML page. The page shows the recipe as a
diagram that reacts to clicks. This project models the two parts of that
converter that carry logic:

- **The Python side of `convert.py`.**
  - `normalize` turns a bare-string entry into an `{id, label}` record.
  - The two list comprehensions build the ingredient and activity node lists.
  - The chains become the sorted list of `(right, left)` pairs.
  - `itertools.groupby` and a dict comprehension turn that list into the
    dependency index. The index maps each node to the nodes that must be
    finished before it.
- **The script embedded in the page.** It keeps a set of finished node ids.
  A click on a node toggles that node in the set. After every change,
  `sync()` gives every node the `done` class, the `todo` class or neither.

Modules, one file each:

- `order.dfy` (`Order`): Python's `<=` on `str` and on `(str, str)` tuples,
  with proofs that it is a total order.
- `sorting.dfy` (`Sorting`): `sorted` on the pair list. Insertion sort stands
  in for it. A proof shows that the sorted permutation is unique, so the
  choice of algorithm does not matter.
- `recipe.dfy` (`Recipe`): node entries, `normalize`, and the node-list
  comprehensions.
- `dependencies.dfy` (`Dependencies`): chain decomposition, `groupby`, the
  dict comprehension, and the theorems about the dependency index.
- `client.dfy` (`Client`): the readiness rule as pure functions, plus the
  page as a class. The class holds the finished set and one class-list entry
  per node, and has `Sync` and `Click` methods.

Three behaviours of the code are easy to misread:

- **Order of an entry's sources.** The pair list is sorted on the whole
  `(target, source)` tuple. So each entry lists its sources in ascending
  order, not in the order the chains list them. For the chains A→B, B→C,
  A→C the entry for C is `[A, B]`, although the chain B→C comes before A→C
  (`Dependencies.IndexExample`).
- **Missing labels.** `normalize` only builds a label for a bare string. A
  record without `label` stays without one; nothing copies its `id` into it
  (`Recipe.NormalizeKeepsMissingLabel`).
- **Mapping-form sections.** When `ingredients` or `activities` is a
  mapping, `for ing in ...` visits only its keys. Each node then gets
  id == label == key, and the labels given in the mapping are dropped
  (`Recipe.NormalizeNodes`, `Section.Keyed`).

## Model

| member | source | states |
|---|---|---|
| `Recipe.Normalize` | convert.py:94-101 | Every result is a record. A bare string `s` becomes a record with `id` and `label` both equal to `s`. A record is returned unchanged. |
| `Recipe.NormalizeIdempotent` | convert.py:94-101 | Normalising twice gives the same result as normalising once. |
| `Recipe.NormalizeKeepsMissingLabel` | convert.py:100-101 | A record without a `label` field has none after normalisation either. |
| `Recipe.Visited` | convert.py:104-105 | Iterating a section visits as many entries as the list has items, or as the mapping has keys (a mapping's keys are distinct). |
| `Recipe.NormalizeNodes` | convert.py:104-105 | The node list has one record per visited entry. List items are normalised one by one. Mapping keys become records with id == label == key. |
| `Recipe.NormalizeNodesIdempotent` | convert.py:104-105 | Normalising an already normalised node list changes nothing. |
| `Order.StrLe` | convert.py:113 | Python's `<=` on `str`, code point by code point. A string ranks no higher than any string it is a prefix of. `StrLeAntisym`, `StrLeTrans` and `StrLeTotal` state that it is a total order. |
| `Order.StrLeAntisym` | convert.py:113 | Python's `<=` on `str` is antisymmetric. |
| `Order.StrLeTrans` | convert.py:113 | Python's `<=` on `str` is transitive. |
| `Order.StrLeTotal` | convert.py:113 | Any two strings are comparable. |
| `Order.PairLe` | convert.py:113 | Python's `<=` on `(target, source)` tuples: the targets decide unless they are equal, then the sources do. `PairLeTrans`, `PairLeAntisym` and `PairLeTotal` state its properties. |
| `Order.PairLeTrans` | convert.py:113 | The tuple order that `sorted` uses is transitive. |
| `Order.PairLeAntisym` | convert.py:113 | The tuple order is antisymmetric. |
| `Order.PairLeTotal` | convert.py:113 | The tuple order is total. |
| `Sorting.Insert` | convert.py:113 | Inserting a pair into a sorted list gives a sorted list that holds one more copy of that pair. |
| `Sorting.SortPairs` | convert.py:113 | `sorted` returns an ascending permutation of its input. |
| `Sorting.SortedUnique` | convert.py:113 | Two sorted lists that hold the same pairs (with multiplicity) are equal. |
| `Sorting.SortPairsIsTheSortedPermutation` | convert.py:113 | Any sorted permutation of the input equals the result of `sorted`. |
| `Dependencies.ChainPairs` | convert.py:115 | A chain of length n ≥ 1 gives n−1 pairs, and pair i is `(c[i+1], c[i])`. An empty chain gives none. |
| `Dependencies.AllPairs` | convert.py:113-115 | The generator over all chains yields every consecutive pair `(c[i], c[i+1])` of every chain, swapped to `(c[i+1], c[i])`. `AllPairsMembers` states the converse too. |
| `Dependencies.AllPairsMembers` | convert.py:113-115 | A pair is in the generated list exactly when some chain has its source immediately followed by its target. |
| `Dependencies.SortedPairs` | convert.py:113-115 | The pair list is sorted ascending and is a permutation of all swapped consecutive pairs. |
| `Dependencies.RunLength` | convert.py:117 | The leading run of one target: every pair before it has that target, and the pair right after it does not. |
| `Dependencies.GroupBy` | convert.py:117 | `groupby` yields non-empty groups that concatenate back to the input. All pairs in a group share the group's key, and adjacent groups have different keys. |
| `Dependencies.Seconds` | convert.py:117 | `[r for l, r in lst]` has one entry per pair of the group, and entry i is the source of pair i. |
| `Dependencies.DictOf` | convert.py:117 | The dict comprehension's keys are exactly the groups' keys. |
| `Dependencies.DictOfLastWins` | convert.py:117 | A key's value comes from the last group that carries that key. |
| `Dependencies.IndexOfSorted` | convert.py:117 | On a sorted list, the index has one key per target. Each key maps to that target's sources in list order. |
| `Dependencies.DependencyIndex` | convert.py:113-117 | The `dependencies` dict: sorted pairs, grouped by target, each target mapped to its group's sources. `IndexOfSorted`, `IndexKeys`, `IndexSourcesAscending`, `IndexSourcesCount`, `IndexSourcesMembers` and `IndexEntriesNonEmpty` state its properties. |
| `Dependencies.IndexKeys` | convert.py:113-117 | A node is a key of the index exactly when it is the right end of some consecutive pair in a chain. |
| `Dependencies.IndexSourcesAscending` | convert.py:113-117 | Each entry of the index lists its sources in ascending order. |
| `Dependencies.IndexSourcesCount` | convert.py:113-117 | Each source appears in an entry as many times as that edge occurs across the chains. |
| `Dependencies.IndexSourcesMembers` | convert.py:113-117 | `x` is listed for `k` exactly when some chain has `x` immediately before `k`. |
| `Dependencies.IndexEntriesNonEmpty` | convert.py:113-117 | Every entry of the index lists at least one source. |
| `Dependencies.IndexExample` | convert.py:113-117 | The chains A→B, B→C, A→C give the index `{B: [A], C: [A, B]}`. |
| `Client.DepsOf` | convert.py:72 | `dependencies[node.id] || []`: a node's entry in the index, or no dependencies when it has none. `ReadyMeansPredecessorsDone` states what this yields for the index built from the chains. |
| `Client.Ready` | convert.py:72 | `.every(d => done.has(d))`: every dependency of the node is finished. `ReadyMeansPredecessorsDone` states it as: every node right before it in some chain is finished. |
| `Client.Classify` | convert.py:65-75 | The branch `sync()` takes for one node: finished, else ready, else neither. `Restyle` states the classes each branch leaves. |
| `Client.Restyle` | convert.py:65-75 | After one node is restyled, it has `done` exactly when it is finished. It has `todo` exactly when it is not finished and all its dependencies are. Its other classes are untouched. |
| `Client.ToggleSet` | convert.py:52-57 | A click flips the clicked id's membership in the finished set and leaves every other id as it was. |
| `Client.ToggleTwice` | convert.py:52-57 | Two clicks on the same node restore the finished set. |
| `Client.RestyleOverrides` | convert.py:62-77 | A restyle depends only on the current finished set. An earlier restyle leaves no trace. |
| `Client.RestyleIdempotent` | convert.py:62-77 | A second `sync()` with no click in between changes nothing. |
| `Client.HistoryIrrelevant` | convert.py:51-79 | Syncing after every click gives the same classes as one sync of the initial classes against the final finished set. |
| `Client.ReadyMeansPredecessorsDone` | convert.py:72 | Against the index built from the chains, a node is ready exactly when every node right before it in some chain is finished. |
| `Client.ReadinessExample` | convert.py:62-77 | With the example chains and A finished, B is `todo` and C is neither. Once B is finished, C is `todo`. |
| `Client.Page.constructor` | convert.py:45-79 | At page load the finished set is empty, and every node's classes are the result of one sync. |
| `Client.Page.Sync` | convert.py:62-77 | Every node's class list is restyled against the current finished set. |
| `Client.Page.Click` | convert.py:51-59 | The clicked id is toggled, every node is restyled, and each node's classes are again those of one sync from the initial classes. |

## Left out

- Reading the recipe file and parsing YAML (convert.py:88-92) are file I/O and a foreign library. A recipe enters the model as values: `Section`, `Entry` and the chains as `seq<seq<string>>`.
- `Section.Keyed` does not itself rule out a repeated key, which a Python dict cannot hold. Its rows assume distinct keys, as a dict loaded from YAML has.
- YAML values other than strings and string-valued records are not modelled. This covers numbers and lists as entries, and non-string chain elements. `normalize` would also pass such values through unchanged.
- The Jinja templates for the DOT text and the HTML page (convert.py:8-85, 103-106, 120-123) are templating output. So is the JSON serialisation of the index.
- The `dot -Tsvg` subprocess (convert.py:108-111) is an external process. The SVG nodes enter the model as the `nodes` of `Client.Page`, in document order.
- Browser mechanics are not modelled: `querySelectorAll`, `addEventListener` and `classList`. A node's class list is a `set<string>`, and a click is a call to `Click` with the node's position.
- JavaScript property lookup is not modelled. `dependencies[id]` is taken as a plain map lookup, so an id that names an inherited property of `Object.prototype`, such as `constructor`, is not modelled.
- Python's `sorted` is modelled by insertion sort, not by its own algorithm. Its result is pinned down by `Sorting.SortedUnique`.
- dev.py, the developer command line (virtualenv, install, clean, help, shell), is not part of this model.
