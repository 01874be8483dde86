/** The TFHE-rs bridge of a compiled module: per-function tables of TFHE-rs input and output
    types and shapes, the default function, and the checks that precede every call into the
    TFHE-rs exporter. */
module Bridges {
  import opened Results
  import opened Errors
  import opened Dtypes
  import opened Graphs
  import opened Description

  /** One entry per value of a function; `None` marks a value that is not a TFHE-rs integer. */
  type TypeColumn = seq<Option<TfhersIntegerType>>
  type ShapeColumn = seq<Option<Shape>>

  datatype Bridge = Bridge(
    fheModule: FheModule,
    defaultFunction: Option<string>,
    inputTypes: map<string, TypeColumn>,
    outputTypes: map<string, TypeColumn>,
    inputShapes: map<string, ShapeColumn>,
    outputShapes: map<string, ShapeColumn>)

  /** What `TfhersExporter.import_int` is handed: the buffer, the descriptor, the key id of
      the input and the input's shape. */
  datatype ImportCall = ImportCall(buffer: Bytes, desc: FheIntDescription, keyId: nat, shape: Shape)

  /** What `TfhersExporter.export_int` is handed: the value and the descriptor. */
  datatype ExportCall<V> = ExportCall(value: V, desc: FheIntDescription)

  lemma SingletonHasOneElement<T>(s: set<T>)
    requires |s| == 1
    ensures forall a, b :: a in s && b in s ==> a == b
  {
    var x :| x in s;
    assert |s - {x}| == 0;
  }

  /** The only key of a one-entry map. */
  function OnlyKey<V>(m: map<string, V>): (k: string)
    requires |m| == 1
    ensures m.Keys == {k}
  {
    SingletonHasOneElement(m.Keys);
    var k :| k in m.Keys;
    k
  }

  /** `Bridge.__init__`: the tables are stored as given, and the default function is the
      module's only function when it has exactly one, and absent otherwise. */
  function InitBridge(
    m: FheModule,
    inputTypes: map<string, TypeColumn>,
    outputTypes: map<string, TypeColumn>,
    inputShapes: map<string, ShapeColumn>,
    outputShapes: map<string, ShapeColumn>): (b: Bridge)
    ensures b.defaultFunction.Some? <==> |m.graphs| == 1
    ensures b.defaultFunction.Some? ==> m.graphs.Keys == {b.defaultFunction.value}
    ensures b.fheModule == m
    ensures b.inputTypes == inputTypes && b.outputTypes == outputTypes
    ensures b.inputShapes == inputShapes && b.outputShapes == outputShapes
  {
    var defaultFunction := if |m.graphs| == 1 then Some(OnlyKey(m.graphs)) else None;
    Bridge(m, defaultFunction, inputTypes, outputTypes, inputShapes, outputShapes)
  }

  /** `_get_default_func_or_raise_error`: the default function, or RuntimeError naming the
      operation that needed it. It never yields a name other than the default. */
  function DefaultFuncOrError(b: Bridge, callingFunc: string): (r: Result<string, BridgeError>)
    ensures r.Success? <==> b.defaultFunction.Some?
    ensures r.Success? ==> b.defaultFunction == Some(r.value)
    ensures r.Failure? ==> r.error == NoDefaultFunction(callingFunc)
  {
    match b.defaultFunction
    case Some(f) => Success(f)
    case None => Failure(NoDefaultFunction(callingFunc))
  }

  /** The function an operation acts on: the name given, else the default function. */
  function ResolveFunction(b: Bridge, funcName: Option<string>, callingFunc: string): (r: Result<string, BridgeError>)
    ensures r.Success? <==> funcName.Some? || b.defaultFunction.Some?
    ensures r.Success? ==> r.value == (if funcName.Some? then funcName.value else b.defaultFunction.value)
    ensures r.Failure? ==> r.error == NoDefaultFunction(callingFunc)
  {
    match funcName
    case Some(f) => Success(f)
    case None => DefaultFuncOrError(b, callingFunc)
  }

  /** The function an operation given `funcName` acts on: the name given, else the default
      function; `None` when there is neither. */
  function Target(b: Bridge, funcName: Option<string>): (r: Option<string>)
  {
    if funcName.Some? then funcName else b.defaultFunction
  }

  /** Python accepts list positions from `-n` up to `n - 1`. */
  predicate PyInRange(i: int, n: nat) {
    -(n as int) <= i < n
  }

  /** The zero-based position a Python list index denotes: negative ones count from the end. */
  function PyPosition(i: int, n: nat): (p: nat)
    requires PyInRange(i, n)
    ensures p < n
    ensures p % n == i % n
  {
    if i >= 0 then i else
      assert i == -1 * n + (n + i);
      assert i / n == -1 && i % n == n + i;
      n + i
  }

  /** Python's `s[i]` on a list: IndexError outside `-|s| .. |s| - 1`. */
  function PyIndex<T>(s: seq<T>, i: int): (r: Result<T, BridgeError>)
    ensures r.Success? <==> PyInRange(i, |s|)
    ensures r.Failure? ==> r.error == IndexOutOfRange(i, |s|)
    ensures r.Success? && i >= 0 ==> r.value == s[i]
    ensures r.Success? && i < 0 ==> r.value == s[|s| + i]
  {
    if PyInRange(i, |s|) then Success(s[PyPosition(i, |s|)]) else Failure(IndexOutOfRange(i, |s|))
  }

  /** `_input_type`, `_output_type`, `_input_shape` and `_output_shape`: `table[f][i]`,
      raising KeyError for an unknown function and IndexError for a bad position. */
  function LookupColumn<T>(table: map<string, seq<T>>, f: string, i: int): (r: Result<T, BridgeError>)
    ensures r.Success? <==> f in table && PyInRange(i, |table[f]|)
    ensures r.Success? ==> r.value == table[f][PyPosition(i, |table[f]|)]
    ensures f !in table ==> r == Failure(UnknownFunction(f))
    ensures f in table && !PyInRange(i, |table[f]|) ==> r == Failure(IndexOutOfRange(i, |table[f]|))
  {
    if f !in table then Failure(UnknownFunction(f)) else PyIndex(table[f], i)
  }

  /** The column built for a sequence of values: the type and shape of each TFHE-rs integer,
      and `None` in both columns for every other value. */
  ghost predicate Describes(nodes: seq<ValueNode>, types: TypeColumn, shapes: ShapeColumn) {
    && |types| == |nodes|
    && |shapes| == |nodes|
    && forall k :: 0 <= k < |nodes| ==>
         && (types[k].None? <==> shapes[k].None?)
         && (types[k].None? <==> !nodes[k].dtype.TfhersInt?)
         && (nodes[k].dtype.TfhersInt? ==>
               types[k] == Some(nodes[k].dtype.tfhers) && shapes[k] == Some(nodes[k].shape))
  }

  /** The loop body of `new_bridge` over `ordered_inputs()` or `ordered_outputs()`: append the
      value's type and shape, or `None` twice. */
  function Tabulate(nodes: seq<ValueNode>): (r: (TypeColumn, ShapeColumn))
    ensures Describes(nodes, r.0, r.1)
  {
    if |nodes| == 0 then
      ([], [])
    else
      var previous := Tabulate(nodes[..|nodes| - 1]);
      var last := nodes[|nodes| - 1];
      if last.dtype.TfhersInt? then
        (previous.0 + [Some(last.dtype.tfhers)], previous.1 + [Some(last.shape)])
      else
        (previous.0 + [None], previous.1 + [None])
  }

  /** The invariant relating a bridge's tables to its module: all four tables are keyed by
      exactly the module's functions, and each column describes its function's values. */
  ghost predicate TablesMatch(m: FheModule, b: Bridge) {
    && b.inputTypes.Keys == m.graphs.Keys
    && b.inputShapes.Keys == m.graphs.Keys
    && b.outputTypes.Keys == m.graphs.Keys
    && b.outputShapes.Keys == m.graphs.Keys
    && (forall f :: f in m.graphs ==>
          Describes(m.graphs[f].orderedInputs, b.inputTypes[f], b.inputShapes[f]))
    && (forall f :: f in m.graphs ==>
          Describes(m.graphs[f].orderedOutputs, b.outputTypes[f], b.outputShapes[f]))
  }

  /** `new_bridge` on a module: one input and one output column pair per function. */
  function NewBridge(m: FheModule): (b: Bridge)
    ensures b.fheModule == m
    ensures b.inputTypes.Keys == b.inputShapes.Keys == m.graphs.Keys
    ensures b.outputTypes.Keys == b.outputShapes.Keys == m.graphs.Keys
    ensures b.defaultFunction.Some? <==> |m.graphs| == 1
    ensures b.defaultFunction.Some? ==> m.graphs.Keys == {b.defaultFunction.value}
  {
    InitBridge(
      m,
      map f | f in m.graphs :: Tabulate(m.graphs[f].orderedInputs).0,
      map f | f in m.graphs :: Tabulate(m.graphs[f].orderedOutputs).0,
      map f | f in m.graphs :: Tabulate(m.graphs[f].orderedInputs).1,
      map f | f in m.graphs :: Tabulate(m.graphs[f].orderedOutputs).1)
  }

  /** The tables `new_bridge` builds satisfy the table invariant. */
  lemma NewBridgeTablesMatch(m: FheModule)
    ensures TablesMatch(m, NewBridge(m))
  {
  }

  /** A column pair is fixed by the values it describes. */
  lemma DescribesUnique(nodes: seq<ValueNode>, t1: TypeColumn, s1: ShapeColumn, t2: TypeColumn, s2: ShapeColumn)
    requires Describes(nodes, t1, s1) && Describes(nodes, t2, s2)
    ensures t1 == t2 && s1 == s2
  {
    forall k | 0 <= k < |nodes|
      ensures t1[k] == t2[k] && s1[k] == s2[k]
    {
      if !nodes[k].dtype.TfhersInt? {
        assert t1[k].None? && t2[k].None? && s1[k].None? && s2[k].None?;
      }
    }
  }

  lemma InputColumnsDetermined(m: FheModule, b: Bridge)
    requires TablesMatch(m, b)
    ensures forall f | f in m.graphs ::
      b.inputTypes[f] == NewBridge(m).inputTypes[f] && b.inputShapes[f] == NewBridge(m).inputShapes[f]
  {
    var n := NewBridge(m);
    forall f | f in m.graphs
      ensures b.inputTypes[f] == n.inputTypes[f] && b.inputShapes[f] == n.inputShapes[f]
    {
      var g := m.graphs[f];
      assert Describes(g.orderedInputs, n.inputTypes[f], n.inputShapes[f]) by { NewBridgeTablesMatch(m); }
      DescribesUnique(g.orderedInputs, b.inputTypes[f], b.inputShapes[f], n.inputTypes[f], n.inputShapes[f]);
    }
  }

  lemma OutputColumnsDetermined(m: FheModule, b: Bridge)
    requires TablesMatch(m, b)
    ensures forall f | f in m.graphs ::
      b.outputTypes[f] == NewBridge(m).outputTypes[f] && b.outputShapes[f] == NewBridge(m).outputShapes[f]
  {
    var n := NewBridge(m);
    forall f | f in m.graphs
      ensures b.outputTypes[f] == n.outputTypes[f] && b.outputShapes[f] == n.outputShapes[f]
    {
      var g := m.graphs[f];
      assert Describes(g.orderedOutputs, n.outputTypes[f], n.outputShapes[f]) by { NewBridgeTablesMatch(m); }
      DescribesUnique(g.orderedOutputs, b.outputTypes[f], b.outputShapes[f], n.outputTypes[f], n.outputShapes[f]);
    }
  }

  lemma InputTablesDetermined(m: FheModule, b: Bridge)
    requires TablesMatch(m, b)
    ensures b.inputTypes == NewBridge(m).inputTypes && b.inputShapes == NewBridge(m).inputShapes
  {
    InputColumnsDetermined(m, b);
  }

  lemma OutputTablesDetermined(m: FheModule, b: Bridge)
    requires TablesMatch(m, b)
    ensures b.outputTypes == NewBridge(m).outputTypes && b.outputShapes == NewBridge(m).outputShapes
  {
    OutputColumnsDetermined(m, b);
  }

  /** `TablesMatch` is a complete account of `new_bridge`: any bridge whose tables satisfy it
      has exactly the tables `new_bridge` builds. */
  lemma TablesMatchDeterminesTables(m: FheModule, b: Bridge)
    requires TablesMatch(m, b)
    ensures b.inputTypes == NewBridge(m).inputTypes && b.inputShapes == NewBridge(m).inputShapes
    ensures b.outputTypes == NewBridge(m).outputTypes && b.outputShapes == NewBridge(m).outputShapes
  {
    InputTablesDetermined(m, b);
    OutputTablesDetermined(m, b);
  }

  /** `import_value` up to the foreign call: resolve the function, look up the input's type and
      shape, reject a value that is not a TFHE-rs integer with ValueError, and hand the
      descriptor, the input's key id and the shape to the importer. */
  function ImportValue(b: Bridge, buffer: Bytes, inputIdx: int, funcName: Option<string>,
                       keyIdAt: (string, int) -> nat): (r: Result<ImportCall, BridgeError>)
    ensures Target(b, funcName).None? ==> r == Failure(NoDefaultFunction("import_value"))
    ensures Target(b, funcName).Some? ==>
      var f := Target(b, funcName).value;
      // KeyError or IndexError from `input_types_per_func[func_name][input_idx]`
      && (f !in b.inputTypes ==> r == Failure(UnknownFunction(f)))
      && (f in b.inputTypes && !PyInRange(inputIdx, |b.inputTypes[f]|) ==>
            r == Failure(IndexOutOfRange(inputIdx, |b.inputTypes[f]|)))
      // then from `input_shapes_per_func[func_name][input_idx]`
      && (f in b.inputTypes && PyInRange(inputIdx, |b.inputTypes[f]|) && f !in b.inputShapes ==>
            r == Failure(UnknownFunction(f)))
      && (f in b.inputTypes && PyInRange(inputIdx, |b.inputTypes[f]|) && f in b.inputShapes
          && !PyInRange(inputIdx, |b.inputShapes[f]|) ==>
            r == Failure(IndexOutOfRange(inputIdx, |b.inputShapes[f]|)))
      && (f in b.inputTypes && PyInRange(inputIdx, |b.inputTypes[f]|)
          && f in b.inputShapes && PyInRange(inputIdx, |b.inputShapes[f]|) ==>
            var inputType := b.inputTypes[f][PyPosition(inputIdx, |b.inputTypes[f]|)];
            var inputShape := b.inputShapes[f][PyPosition(inputIdx, |b.inputShapes[f]|)];
            // ValueError exactly when the input's type or shape is `None`
            && (inputType.None? || inputShape.None? ==> r == Failure(NotTfhersInput))
            && (inputType.Some? && inputShape.Some? && inputType.value.msgWidth == 0 ==>
                  r == Failure(ZeroMessageWidth))
            // otherwise the importer gets that input's descriptor, key id and shape
            && (inputType.Some? && inputShape.Some? && inputType.value.msgWidth > 0 ==>
                  && r.Success?
                  && DescriptionFromType(inputType.value) == Success(r.value.desc)
                  && r.value.shape == inputShape.value
                  && r.value.keyId == keyIdAt(f, inputIdx)
                  && r.value.buffer == buffer))
  {
    var f :- ResolveFunction(b, funcName, "import_value");
    var inputType :- LookupColumn(b.inputTypes, f, inputIdx);
    var inputShape :- LookupColumn(b.inputShapes, f, inputIdx);
    if inputType.None? || inputShape.None? then
      Failure(NotTfhersInput)
    else
      var desc :- DescriptionFromType(inputType.value);
      Success(ImportCall(buffer, desc, keyIdAt(f, inputIdx), inputShape.value))
  }

  /** `export_value` up to the foreign call: resolve the function, look up the output's type,
      reject a value that is not a TFHE-rs integer with ValueError, and hand the value and the
      descriptor to the exporter. */
  function ExportValue<V>(b: Bridge, value: V, outputIdx: int, funcName: Option<string>): (r: Result<ExportCall<V>, BridgeError>)
    ensures Target(b, funcName).None? ==> r == Failure(NoDefaultFunction("export_value"))
    ensures Target(b, funcName).Some? ==>
      var f := Target(b, funcName).value;
      // KeyError or IndexError from `output_types_per_func[func_name][output_idx]`
      && (f !in b.outputTypes ==> r == Failure(UnknownFunction(f)))
      && (f in b.outputTypes && !PyInRange(outputIdx, |b.outputTypes[f]|) ==>
            r == Failure(IndexOutOfRange(outputIdx, |b.outputTypes[f]|)))
      && (f in b.outputTypes && PyInRange(outputIdx, |b.outputTypes[f]|) ==>
            var outputType := b.outputTypes[f][PyPosition(outputIdx, |b.outputTypes[f]|)];
            // ValueError exactly when the output's type is `None`
            && (outputType.None? ==> r == Failure(NotTfhersOutput))
            && (outputType.Some? && outputType.value.msgWidth == 0 ==> r == Failure(ZeroMessageWidth))
            // otherwise the exporter gets the value and that output's descriptor
            && (outputType.Some? && outputType.value.msgWidth > 0 ==>
                  && r.Success?
                  && DescriptionFromType(outputType.value) == Success(r.value.desc)
                  && r.value.value == value))
  {
    var f :- ResolveFunction(b, funcName, "export_value");
    var outputType :- LookupColumn(b.outputTypes, f, outputIdx);
    if outputType.None? then
      Failure(NotTfhersOutput)
    else
      var desc :- DescriptionFromType(outputType.value);
      Success(ExportCall(value, desc))
  }

  /** `serialize_input_secret_key` up to the foreign call: the key id whose secret key is
      serialized. */
  function SerializeInputSecretKey(b: Bridge, inputIdx: int, funcName: Option<string>,
                                   keyIdAt: (string, int) -> nat): (r: Result<nat, BridgeError>)
    ensures r.Failure? <==> funcName.None? && b.defaultFunction.None?
    ensures r.Failure? ==> r.error == NoDefaultFunction("serialize_input_secret_key")
    ensures funcName.Some? ==> r == Success(keyIdAt(funcName.value, inputIdx))
    ensures funcName.None? && r.Success? ==> r.value == keyIdAt(b.defaultFunction.value, inputIdx)
  {
    var f :- ResolveFunction(b, funcName, "serialize_input_secret_key");
    Success(keyIdAt(f, inputIdx))
  }

  /** `f` is the function an operation given `funcName` acts on: the named one, or else the
      module's only function. */
  ghost predicate Selects(m: FheModule, funcName: Option<string>, f: string) {
    match funcName
    case Some(g) => g == f
    case None => m.graphs.Keys == {f}
  }

  /** A bridge built for module `m`: its tables match `m`, and its default function is the
      module's only function when there is exactly one. */
  ghost predicate BuiltFor(m: FheModule, b: Bridge) {
    && TablesMatch(m, b)
    && (b.defaultFunction.Some? <==> |m.graphs| == 1)
    && (b.defaultFunction.Some? ==> m.graphs.Keys == {b.defaultFunction.value})
  }

  lemma NewBridgeBuiltFor(m: FheModule)
    ensures BuiltFor(m, NewBridge(m))
  {
    NewBridgeTablesMatch(m);
  }

  /** What the lookups of a bridge's tables find for one input of a function of its module. */
  lemma InputLookups(m: FheModule, b: Bridge, f: string, i: int)
    requires TablesMatch(m, b)
    ensures f !in m.graphs ==> LookupColumn(b.inputTypes, f, i) == Failure(UnknownFunction(f))
    ensures f in m.graphs && !PyInRange(i, |m.graphs[f].orderedInputs|) ==>
      LookupColumn(b.inputTypes, f, i) == Failure(IndexOutOfRange(i, |m.graphs[f].orderedInputs|))
    ensures f in m.graphs && PyInRange(i, |m.graphs[f].orderedInputs|) ==>
      var node := m.graphs[f].orderedInputs[PyPosition(i, |m.graphs[f].orderedInputs|)];
      && LookupColumn(b.inputTypes, f, i)
           == Success(if node.dtype.TfhersInt? then Some(node.dtype.tfhers) else None)
      && LookupColumn(b.inputShapes, f, i)
           == Success(if node.dtype.TfhersInt? then Some(node.shape) else None)
  {
    if f in m.graphs {
      assert Describes(m.graphs[f].orderedInputs, b.inputTypes[f], b.inputShapes[f]);
    }
  }

  /** What the lookups of a bridge's tables find for one output of a function of its module. */
  lemma OutputLookups(m: FheModule, b: Bridge, f: string, i: int)
    requires TablesMatch(m, b)
    ensures f !in m.graphs ==> LookupColumn(b.outputTypes, f, i) == Failure(UnknownFunction(f))
    ensures f in m.graphs && !PyInRange(i, |m.graphs[f].orderedOutputs|) ==>
      LookupColumn(b.outputTypes, f, i) == Failure(IndexOutOfRange(i, |m.graphs[f].orderedOutputs|))
    ensures f in m.graphs && PyInRange(i, |m.graphs[f].orderedOutputs|) ==>
      var node := m.graphs[f].orderedOutputs[PyPosition(i, |m.graphs[f].orderedOutputs|)];
      LookupColumn(b.outputTypes, f, i)
        == Success(if node.dtype.TfhersInt? then Some(node.dtype.tfhers) else None)
  {
    if f in m.graphs {
      assert Describes(m.graphs[f].orderedOutputs, b.outputTypes[f], b.outputShapes[f]);
    }
  }

  /** The function a bridge built for `m` resolves a name to is the one `Selects` picks. */
  lemma ResolveOnModule(m: FheModule, b: Bridge, funcName: Option<string>, callingFunc: string, f: string)
    requires BuiltFor(m, b)
    ensures funcName.None? && |m.graphs| != 1 ==>
      ResolveFunction(b, funcName, callingFunc) == Failure(NoDefaultFunction(callingFunc))
    ensures Selects(m, funcName, f) ==> ResolveFunction(b, funcName, callingFunc) == Success(f)
  {
    if Selects(m, funcName, f) && funcName.None? {
      assert |m.graphs| == |m.graphs.Keys| == |{f}| == 1;
    }
  }

  /** `import_value` on a bridge built for a module, stated against the module itself: every
      way it fails, and what it forwards when it succeeds. */
  lemma ImportValueOnModule(m: FheModule, b: Bridge, buffer: Bytes, inputIdx: int, funcName: Option<string>,
                            f: string, keyIdAt: (string, int) -> nat)
    requires BuiltFor(m, b)
    ensures var r := ImportValue(b, buffer, inputIdx, funcName, keyIdAt);
      && (funcName.None? && |m.graphs| != 1 ==> r == Failure(NoDefaultFunction("import_value")))
      && (Selects(m, funcName, f) && f !in m.graphs ==> r == Failure(UnknownFunction(f)))
      && (Selects(m, funcName, f) && f in m.graphs ==>
            var inputs := m.graphs[f].orderedInputs;
            && (!PyInRange(inputIdx, |inputs|) ==> r == Failure(IndexOutOfRange(inputIdx, |inputs|)))
            && (PyInRange(inputIdx, |inputs|) ==>
                  var node := inputs[PyPosition(inputIdx, |inputs|)];
                  && (!node.dtype.TfhersInt? ==> r == Failure(NotTfhersInput))
                  && (node.dtype.TfhersInt? && node.dtype.tfhers.msgWidth == 0 ==> r == Failure(ZeroMessageWidth))
                  && (node.dtype.TfhersInt? && node.dtype.tfhers.msgWidth > 0 ==>
                        && r.Success?
                        && DescriptionFromType(node.dtype.tfhers) == Success(r.value.desc)
                        && r.value.shape == node.shape
                        && r.value.keyId == keyIdAt(f, inputIdx)
                        && r.value.buffer == buffer)))
  {
    ResolveOnModule(m, b, funcName, "import_value", f);
    InputLookups(m, b, f, inputIdx);
  }

  /** `export_value` on a bridge built for a module, stated against the module itself. */
  lemma ExportValueOnModule<V>(m: FheModule, b: Bridge, value: V, outputIdx: int, funcName: Option<string>, f: string)
    requires BuiltFor(m, b)
    ensures var r := ExportValue(b, value, outputIdx, funcName);
      && (funcName.None? && |m.graphs| != 1 ==> r == Failure(NoDefaultFunction("export_value")))
      && (Selects(m, funcName, f) && f !in m.graphs ==> r == Failure(UnknownFunction(f)))
      && (Selects(m, funcName, f) && f in m.graphs ==>
            var outputs := m.graphs[f].orderedOutputs;
            && (!PyInRange(outputIdx, |outputs|) ==> r == Failure(IndexOutOfRange(outputIdx, |outputs|)))
            && (PyInRange(outputIdx, |outputs|) ==>
                  var node := outputs[PyPosition(outputIdx, |outputs|)];
                  && (!node.dtype.TfhersInt? ==> r == Failure(NotTfhersOutput))
                  && (node.dtype.TfhersInt? && node.dtype.tfhers.msgWidth == 0 ==> r == Failure(ZeroMessageWidth))
                  && (node.dtype.TfhersInt? && node.dtype.tfhers.msgWidth > 0 ==>
                        && r.Success?
                        && DescriptionFromType(node.dtype.tfhers) == Success(r.value.desc)
                        && r.value.value == value)))
  {
    ResolveOnModule(m, b, funcName, "export_value", f);
    OutputLookups(m, b, f, outputIdx);
  }
}
