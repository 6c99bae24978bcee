/**
 * The node table of a ComfyUI workflow in its API (execution) form: an
 * id-keyed dictionary of node specs, the `Node` records built from it, lookup by
 * id or by `class_type`, and a handle that reads and writes one named input of a
 * node in place.
 */
module Core {
  import opened Wrappers
  import opened Dicts

  /**
   * A JSON value stored under an input name. `null` is told apart because it is
   * what `dict.get` answers for an absent key and what `__call__` reads as "no
   * argument". Every other JSON value is an opaque token; two tokens are equal
   * exactly when Python's `==` holds between the values they stand for.
   */
  datatype InputValue = Null | Json(token: int)

  /** The JSON object stored under one node id; each key may be absent. */
  datatype NodeSpec = NodeSpec(
    inputs: Option<Dict<string, InputValue>>,
    classType: Option<string>,
    meta: Option<Dict<string, InputValue>>)

  /** The exceptions `Workflow.node` raises. */
  datatype Error = KeyError(message: string) | ValueError(message: string)

  function IdNotFound(id: string): string {
    "Node with ID '" + id + "' not found"
  }

  function ClassTypeNotFound(name: string): string {
    "Node with class_type '" + name + "' not found"
  }

  const NoCriterion: string := "Either 'id' or 'name' must be provided"

  /** Position of the first node in `ns` whose `class_type` is `c`, if any. */
  function FirstOfClass(ns: seq<Node>, c: string): (r: Option<nat>)
    ensures r.Some? ==> r.value < |ns| && ns[r.value].classType == c
    ensures r.Some? ==> forall j | 0 <= j < r.value :: ns[j].classType != c
    ensures r.None? ==> forall j | 0 <= j < |ns| :: ns[j].classType != c
    decreases |ns|
  {
    if ns == [] then None
    else if ns[0].classType == c then Some(0)
    else match FirstOfClass(ns[1..], c)
      case None => None
      case Some(i) => Some(i + 1)
  }

  /**
   * A handle on input `propertyName` of `node`. It holds the node itself, not a
   * copy of its inputs, so reads and writes go to the node's live dictionary.
   */
  datatype PropertyAccessor = PropertyAccessor(node: Node, propertyName: string) {

    /** `value`: the stored input, or `Null` when the input is absent. */
    function Value(): (v: InputValue)
      reads node
      ensures propertyName in node.inputs.entries ==> v == node.inputs.entries[propertyName]
      ensures propertyName !in node.inputs.entries ==> v == Null
    {
      node.inputs.Get(propertyName).GetOr(Null)
    }

    /** `__eq__`: compares the current value, not the handle. */
    function Equals(other: InputValue): (r: bool)
      reads node
      ensures r <==> Value() == other
    {
      node.inputs.Get(propertyName).GetOr(Null) == other
    }

    /** `__ne__`. */
    function NotEquals(other: InputValue): (r: bool)
      reads node
      ensures r <==> !Equals(other)
    {
      node.inputs.Get(propertyName).GetOr(Null) != other
    }

    /** `set(v)`: stores `v`, `Null` included, under the name; nothing else changes. */
    method Set(v: InputValue)
      modifies node
      ensures node.inputs == old(node.inputs).Put(propertyName, v)
      ensures Value() == v
    {
      node.inputs := node.inputs.Put(propertyName, v);
    }

    /**
     * `__call__(v)`: a non-null argument is written and returned; a null one
     * (or none) only reads, so `Null` can never be stored this way.
     */
    method Call(v: InputValue) returns (r: InputValue)
      modifies node
      ensures v != Null ==> node.inputs == old(node.inputs).Put(propertyName, v) && r == v
      ensures v == Null ==> node.inputs == old(node.inputs) && r == Value()
    {
      if v != Null {
        node.inputs := node.inputs.Put(propertyName, v);
        return v;
      }
      r := node.inputs.Get(propertyName).GetOr(Null);
    }
  }

  /** One node of the workflow. Only `inputs` is ever updated. */
  class Node {
    const id: string
    /** The spec this node was built from; its inputs object, when present, is `inputs` itself. */
    const spec: NodeSpec
    const classType: string
    const meta: Dict<string, InputValue>
    var inputs: Dict<string, InputValue>

    /** `class_type` and `meta` are the spec's, or their defaults. */
    ghost predicate Valid() {
      && classType == spec.classType.GetOr("")
      && meta == spec.meta.GetOr(Empty())
    }

    /** `Node(id, data)`: a missing key gets `{}`, `""` or `{}`. */
    constructor (id: string, data: NodeSpec)
      ensures Valid()
      ensures this.id == id && spec == data
      ensures data.inputs.Some? ==> inputs == data.inputs.value
      ensures data.inputs.None? ==> inputs == Empty()
      ensures data.classType.Some? ==> classType == data.classType.value
      ensures data.classType.None? ==> classType == ""
      ensures data.meta.Some? ==> meta == data.meta.value
      ensures data.meta.None? ==> meta == Empty()
      ensures Data() == data
    {
      this.id := id;
      spec := data;
      inputs := data.inputs.GetOr(Empty());
      classType := data.classType.GetOr("");
      meta := data.meta.GetOr(Empty());
    }

    /**
     * The node's spec as it reads now. A spec that carried an inputs object
     * shares it with the node and shows every write; the `{}` a node makes up
     * for a spec without one is its own, and writes to it never reach the spec.
     */
    function Data(): (d: NodeSpec)
      reads this
      ensures d.classType == spec.classType && d.meta == spec.meta
      ensures spec.inputs.Some? ==> d.inputs == Some(inputs)
      ensures spec.inputs.None? ==> d.inputs == None
    {
      if spec.inputs.Some? then spec.(inputs := Some(inputs)) else spec
    }

    /** `property(name)`: a handle on this very node. */
    function Property(name: string): (p: PropertyAccessor)
      ensures p.node == this && p.propertyName == name
    {
      PropertyAccessor(this, name)
    }
  }

  /** A workflow: the node table built from an id-keyed dictionary of specs. */
  class Workflow {
    /** `nodes`, in the insertion order of the data it was built from. */
    const nodes: Dict<string, Node>

    /** Every node is stored under its own id, and is consistent with its spec. */
    ghost predicate Valid() {
      NodeTable(nodes)
    }

    /** `data`: the specs, with each node's inputs as they read now. */
    function Data(): (d: Dict<string, NodeSpec>)
      reads nodes.entries.Values
      requires Valid()
      ensures d.order == nodes.order
      ensures forall k | k in nodes.entries :: d.Get(k) == Some(nodes.entries[k].Data())
      ensures forall k | k !in nodes.entries :: d.Get(k) == None
    {
      TableData(nodes)
    }

    /** `Workflow(data)`: one fresh node per entry, in the entries' order. */
    constructor (data: Dict<string, NodeSpec>)
      ensures Valid()
      ensures nodes.order == data.order
      ensures forall k | k in nodes.entries :: fresh(nodes.entries[k]) && nodes.entries[k].spec == data.entries[k]
      ensures forall k | k in nodes.entries :: nodes.entries[k].inputs == data.entries[k].inputs.GetOr(Empty())
      ensures Data() == data
    {
      var table := BuildNodes(data);
      nodes := table;
      new;
      assert TableData(nodes) == data;
      assert Data() == TableData(nodes);
    }

    /** What `node(id, name)` returns or raises. */
    function Resolve(id: Option<string>, name: Option<string>): (r: Result<Node, Error>)
      requires Valid()
      ensures id.Some? ==> (r.Ok? <==> id.value in nodes.entries)
      ensures id.Some? && r.Ok? ==> r.value == nodes.entries[id.value] && r.value.id == id.value
      ensures id.Some? && r.Err? ==> r.error == KeyError(IdNotFound(id.value))
      ensures id.None? && name.Some? ==>
        (r.Ok? <==> exists k | k in nodes.entries :: nodes.entries[k].classType == name.value)
      ensures id.None? && name.Some? && r.Ok? ==>
        exists i | 0 <= i < |nodes.order| ::
          && r.value == nodes.entries[nodes.order[i]]
          && r.value.classType == name.value
          && forall j | 0 <= j < i :: nodes.entries[nodes.order[j]].classType != name.value
      ensures id.None? && name.Some? && r.Err? ==> r.error == KeyError(ClassTypeNotFound(name.value))
      ensures id.None? && name.None? ==> r == Err(ValueError(NoCriterion))
    {
      if id.Some? then
        if id.value in nodes.entries then Ok(nodes.entries[id.value]) else Err(KeyError(IdNotFound(id.value)))
      else if name.Some? then
        match FirstOfClass(nodes.Values(), name.value)
        case Some(i) => Ok(nodes.Values()[i])
        case None =>
          assert forall k | k in nodes.entries :: nodes.entries[k].classType != name.value by {
            forall k | k in nodes.entries
              ensures nodes.entries[k].classType != name.value
            {
              var i :| 0 <= i < |nodes.order| && nodes.order[i] == k;
              assert nodes.Values()[i] == nodes.entries[k];
            }
          }
          Err(KeyError(ClassTypeNotFound(name.value)))
      else
        Err(ValueError(NoCriterion))
    }

    /** `node(id, name)`: by id when one is given, else the first node of class `name`. */
    method LookupNode(id: Option<string>, name: Option<string>) returns (r: Result<Node, Error>)
      requires Valid()
      ensures r == Resolve(id, name)
    {
      if id.Some? {
        if id.value in nodes.entries {
          return Ok(nodes.entries[id.value]);
        }
        return Err(KeyError(IdNotFound(id.value)));
      }
      if name.Some? {
        var i := 0;
        while i < |nodes.order|
          invariant 0 <= i <= |nodes.order|
          invariant forall j | 0 <= j < i :: nodes.entries[nodes.order[j]].classType != name.value
        {
          var n := nodes.entries[nodes.order[i]];
          if n.classType == name.value {
            return Ok(n);
          }
          i := i + 1;
        }
        return Err(KeyError(ClassTypeNotFound(name.value)));
      }
      return Err(ValueError(NoCriterion));
    }

    /** Two nodes of one class: lookup by that class returns neither the later one nor an error. */
    lemma NameLookupTakesFirst(i: nat, j: nat, c: string)
      requires Valid()
      requires i < j < |nodes.order|
      requires nodes.entries[nodes.order[i]].classType == c
      requires nodes.entries[nodes.order[j]].classType == c
      ensures Resolve(None, Some(c)).Ok?
      ensures Resolve(None, Some(c)).value != nodes.entries[nodes.order[j]]
    {
      var k := nodes.order[j];
      assert k in nodes.entries;
      var r := Resolve(None, Some(c));
      var first :| 0 <= first < |nodes.order| && r.value == nodes.entries[nodes.order[first]]
        && forall j' | 0 <= j' < first :: nodes.entries[nodes.order[j']].classType != c;
      assert first <= i;
      assert nodes.order[first] in nodes.entries;
      assert nodes.entries[nodes.order[first]].id == nodes.order[first];
    }

    /** A node alone in its class is found alike by its id and by its class. */
    lemma UniqueClassLookupsAgree(k: string, c: string, name: Option<string>)
      requires Valid()
      requires k in nodes.entries && nodes.entries[k].classType == c
      requires forall k' | k' in nodes.entries && nodes.entries[k'].classType == c :: k' == k
      ensures Resolve(None, Some(c)) == Resolve(Some(k), name) == Ok(nodes.entries[k])
    {
      var r := Resolve(None, Some(c));
      var i :| 0 <= i < |nodes.order| && r.value == nodes.entries[nodes.order[i]] && r.value.classType == c;
      assert nodes.order[i] in nodes.entries;
    }
  }

  /** Every node of `table` is stored under its own id and is consistent with its spec. */
  ghost predicate NodeTable(table: Dict<string, Node>) {
    forall k | k in table.entries :: table.entries[k].id == k && table.entries[k].Valid()
  }

  /** The id-keyed specs that `table`'s nodes read as now. */
  function TableData(table: Dict<string, Node>): Dict<string, NodeSpec>
    reads table.entries.Values
  {
    DictRep(table.order, map k | k in table.entries :: table.entries[k].Data())
  }

  /** Each node of `table` is the one `Node(k, data[k])` built: same spec, same inputs. */
  ghost predicate BuiltFrom(table: Dict<string, Node>, data: Dict<string, NodeSpec>)
    reads table.entries.Values
  {
    forall k | k in table.entries ::
      && k in data.entries
      && table.entries[k].spec == data.entries[k]
      && table.entries[k].inputs == data.entries[k].inputs.GetOr(Empty())
  }

  /** Storing a freshly built node under a new key keeps the table built from `data`. */
  lemma BuiltFromPut(table: Dict<string, Node>, data: Dict<string, NodeSpec>, k: string, n: Node)
    requires NodeTable(table) && BuiltFrom(table, data)
    requires k !in table.entries && k in data.entries
    requires n.id == k && n.Valid() && n.spec == data.entries[k]
    requires n.inputs == data.entries[k].inputs.GetOr(Empty())
    ensures NodeTable(table.Put(k, n)) && BuiltFrom(table.Put(k, n), data)
  {
  }

  /** A node built from spec `s`, whose inputs have not been written since, reads back as `s`. */
  lemma BuiltNodeData(n: Node, s: NodeSpec)
    requires n.spec == s && n.inputs == s.inputs.GetOr(Empty())
    ensures n.Data() == s
  {
  }

  /** A table built from every key of `data`, in its order, reads back as `data`. */
  lemma BuiltTableData(table: Dict<string, Node>, data: Dict<string, NodeSpec>)
    requires NodeTable(table) && BuiltFrom(table, data) && table.order == data.order
    ensures TableData(table) == data
  {
    forall k | k in data.entries
      ensures k in table.entries && table.entries[k].Data() == data.entries[k]
    {
      assert k in data.order;
      BuiltNodeData(table.entries[k], data.entries[k]);
    }
    assert TableData(table).entries == data.entries;
  }

  /** The loop of `Workflow.__attrs_post_init__`: a fresh node per entry, stored under its id. */
  method BuildNodes(data: Dict<string, NodeSpec>) returns (table: Dict<string, Node>)
    ensures NodeTable(table)
    ensures table.order == data.order
    ensures forall k | k in table.entries :: fresh(table.entries[k]) && table.entries[k].spec == data.entries[k]
    ensures forall k | k in table.entries :: table.entries[k].inputs == data.entries[k].inputs.GetOr(Empty())
    ensures TableData(table) == data
  {
    table := Empty();
    var i := 0;
    while i < |data.order|
      invariant 0 <= i <= |data.order|
      invariant table.order == data.order[..i]
      invariant NodeTable(table) && BuiltFrom(table, data)
      invariant forall k | k in table.entries :: fresh(table.entries[k])
    {
      var k := data.order[i];
      KeyAt(data, i);
      var n := new Node(k, data.entries[k]);
      BuiltFromPut(table, data, k, n);
      table := table.Put(k, n);
      i := i + 1;
    }
    assert data.order[..i] == data.order;
    BuiltTableData(table, data);
  }

  /**
   * A write to the inputs of a node whose spec had no inputs object goes to the
   * node's own `{}` and never shows in the workflow's data.
   */
  twostate lemma PrivateInputsStayOutOfData(w: Workflow, n: Node)
    requires w.Valid() && n.id in w.nodes.entries && w.nodes.entries[n.id] == n
    requires n.spec.inputs.None?
    requires unchanged(w.nodes.entries.Values - {n})
    ensures w.Data() == old(w.Data())
  {
    forall k | k in w.nodes.entries
      ensures w.nodes.entries[k].Data() == old(w.nodes.entries[k].Data())
    {
      if k != n.id {
        assert w.nodes.entries[k] in w.nodes.entries.Values - {n};
      }
    }
    assert w.Data().entries == old(w.Data()).entries;
  }

  /**
   * `workflow.node(...).property(p).set(v)` followed by a fresh
   * `workflow.node(...).property(p).value`: the read gives back `v`, and only
   * input `p` of the node looked up has changed.
   */
  method SetThenGet(w: Workflow, id: Option<string>, name: Option<string>, p: string, v: InputValue)
    returns (read: Result<InputValue, Error>)
    requires w.Valid()
    modifies w.nodes.entries.Values
    ensures w.Resolve(id, name).Err? ==> read == Err(w.Resolve(id, name).error)
    ensures w.Resolve(id, name).Err? ==> unchanged(w.nodes.entries.Values)
    ensures w.Resolve(id, name).Ok? ==> read == Ok(v)
    ensures w.Resolve(id, name).Ok? ==>
      var n := w.Resolve(id, name).value;
      && n.inputs == old(n.inputs).Put(p, v)
      && unchanged(w.nodes.entries.Values - {n})
      && (n.spec.inputs.Some? ==> w.Data().Get(n.id) == Some(n.spec.(inputs := Some(n.inputs))))
  {
    var found := w.LookupNode(id, name);
    if found.Err? {
      return Err(found.error);
    }
    var n := found.value;
    n.Property(p).Set(v);
    var again := w.LookupNode(id, name);
    read := Ok(again.value.Property(p).Value());
  }
}
