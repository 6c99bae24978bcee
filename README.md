# comfy-commander core: the workflow node table

This project models `src/comfy_commander/core.py` of comfy-commander in Dafny. That file holds the
in-memory form of a ComfyUI workflow in its API (execution) format:

- `Workflow(data)` builds one `Node` per entry of an id-keyed dictionary of node specs. It keeps the
  dictionary's insertion order.
- `Node(id, data)` takes `inputs`, `class_type` and `_meta` from its spec. A missing key gets `{}`,
  `""` or `{}`.
- `Workflow.node(id=…, name=…)` finds a node by id, or else by `class_type`. It raises `KeyError` when
  nothing matches and `ValueError` when neither criterion is given.
- `Node.property(name)` returns a `PropertyAccessor`. The accessor reads and writes one named input of
  that very node, in place.

The model has three modules:

- `Wrappers` (wrappers.dfy): `Option` and `Result`.
- `Dicts` (dicts.dfy): Python's insertion-ordered `dict`. A key order plus a map; the subtype `Dict`
  keeps each key once, and lists exactly the stored keys.
- `Core` (core.dfy): the three classes of core.py.
  - `Node` and `Workflow` are Dafny classes. The only field the source updates after construction is a
    node's `inputs`, so that is the only `var`; the rest are `const`.
  - `PropertyAccessor` is a datatype holding a reference to its node. Its `Set` and `Call` methods
    modify that node.
  - `Workflow.Data()` and `Node.Data()` give the workflow's `data` as it reads after writes.
    - When a spec had an `inputs` object, the node shares it, and writes show in `data`.
    - When it had none, the node's `{}` is its own, and writes never reach `data`.

`node(name=…)` returns the FIRST node of that class in insertion order and never reports ambiguity
(`Workflow.NameLookupTakesFirst`). A write changes only the node's input dictionary.

## Model

| member | source | states |
|---|---|---|
| Dicts.DictRep.Put | src/comfy_commander/core.py:85-87 | `d[k] = v`: afterwards `k` maps to `v`, every other key reads as before, an existing key keeps its place and a new key goes last |
| Dicts.DictRep.Values | src/comfy_commander/core.py:104 | `d.values()` lists the stored values in key order, one per key |
| Dicts.Empty | src/comfy_commander/core.py:85 | `{}` has no keys and every lookup in it is absent |
| Core.FirstOfClass | src/comfy_commander/core.py:104-107 | the scan over `nodes.values()` stops at the first node of class `c`; absence means no node has that class |
| Core.PropertyAccessor.Value | src/comfy_commander/core.py:49-52 | `value` is the stored input when the name is present, and `None` when it is absent |
| Core.PropertyAccessor.Equals | src/comfy_commander/core.py:18-20 | `==` holds exactly when the accessor's current value equals the other operand |
| Core.PropertyAccessor.NotEquals | src/comfy_commander/core.py:22-24 | `!=` is exactly the negation of `==` |
| Core.PropertyAccessor.Set | src/comfy_commander/core.py:45-47 | `set(v)` stores `v` (even `None`) under the name in the node's own dictionary; a read then gives `v`, and no other input changes |
| Core.PropertyAccessor.Call | src/comfy_commander/core.py:38-43 | a non-`None` argument is written and returned; `None` leaves the inputs untouched and returns the current value |
| Core.Node.constructor | src/comfy_commander/core.py:65-69 | id and spec are kept; `inputs`, `class_type`, `_meta` come from the spec when present and are `{}`, `""`, `{}` otherwise |
| Core.Node.Data | src/comfy_commander/core.py:60-69 | the node's spec as it reads now: class and meta unchanged, the inputs object the live dictionary when the spec had one, still absent when it did not |
| Core.Node.Property | src/comfy_commander/core.py:71-73 | the accessor refers to this very node, not a copy, and to the name asked for |
| Core.Workflow.Data | src/comfy_commander/core.py:80-87 | `data` holds one spec per node id, in node order, each as the node reads now, and nothing else |
| Core.Workflow.constructor | src/comfy_commander/core.py:83-87 | one fresh node per entry, stored under its own id, in the data's key order, each built from that entry's spec, with that spec's `inputs` or `{}` when it has none; the table reads back as the data |
| Core.BuildNodes | src/comfy_commander/core.py:85-87 | the construction loop yields a fresh node per key, keyed by its id, in the data's order, each with its spec and with the spec's `inputs` or `{}`, reading back as the data |
| Core.BuiltTableData | src/comfy_commander/core.py:85-87 | a table whose every node was built from the entry under its own key, covering every key in order, reads back as the data |
| Core.Workflow.Resolve | src/comfy_commander/core.py:96-109 | by id: the stored node, or `KeyError("Node with ID '…' not found")`, and `name` is ignored; by name: a node of that class with none before it, or `KeyError("Node with class_type '…' not found")` exactly when no node has it; neither: `ValueError` |
| Core.Workflow.LookupNode | src/comfy_commander/core.py:96-109 | the early-return loop of `node()` returns or raises exactly what `Resolve` describes |
| Core.Workflow.NameLookupTakesFirst | src/comfy_commander/core.py:103-107 | with two nodes of one class, lookup by that class succeeds and never returns the later one: there is no ambiguity error |
| Core.Workflow.UniqueClassLookupsAgree | src/comfy_commander/core.py:96-107 | a node alone in its class is returned alike by its id (whatever `name` says) and by its class |
| Core.PrivateInputsStayOutOfData | src/comfy_commander/core.py:67 | a write to a node whose spec had no `inputs` leaves the workflow's `data` unchanged |
| Core.SetThenGet | tests/test_workflows.py:10-19 | `node(…).property(p).set(v)` then a fresh `node(…).property(p).value` gives `v`; only input `p` of the node found changes, and a shared inputs object shows it in `data`; a failed lookup changes nothing and reports the same error |

## Left out

- `Workflow.from_file` is not modelled. It reads a file and parses JSON; a workflow is built from already-parsed data instead.
- `PropertyAccessor.__repr__` is not modelled: it only formats a value as text.
- `PropertyAccessor.__setattr__` is not modelled. Its only effect beyond attrs' own field assignment is the same dictionary write as `set`.
- Input values other than `null` are opaque tokens (`InputValue.Json`). Python's cross-type equality (`1 == 1.0 == True`) is folded into token equality; nested structure and floating point are not modelled.
- Core.PropertyAccessor.Equals: comparison with something other than a JSON value (another accessor, an arbitrary object) is not modelled.
- Spec keys other than `inputs`, `class_type` and `_meta` are not modelled. Neither is a present key holding a value of another JSON type (for example `"inputs": null`, which `dict.get` would return as is).
- Dictionaries shared between specs, or kept by the caller, are modelled as separate copies. In Python, two specs holding one and the same `inputs` dict give two nodes one dictionary, so a `set` through one node shows in the other; in the model each node's `inputs` is its own value. JSON loading never builds such sharing; only hand-built `data` can.
- Node ids are strings; the integer ids a Python caller could put in a dict are not modelled.
- The attrs-generated `__eq__` of whole workflows, which the tests use for snapshot comparison, is not modelled.
- Core.SetThenGet: does not itself state that `data` is unchanged when the node's spec had no inputs object; `Core.PrivateInputsStayOutOfData` states that separately.
- run_e2e_tests.py and setup.py are not part of this model. The test-only APIs (`gui_json`, `from_image`, the server client, execution) are not part of core.py and are not modelled.
