/** The slice of a compiled module that the bridge reads: one graph per function, each with
    its ordered input and output values. */
module Graphs {
  import opened Dtypes

  type Shape = seq<nat>

  /** The data type of a value: a TFHE-rs integer, or a native Concrete type. */
  datatype DType =
    | TfhersInt(tfhers: TfhersIntegerType)
    | NativeInteger(isSigned: bool, bitWidth: nat)
    | NativeFloat(bitWidth: nat)

  /** The output value of an input or output node of a graph. */
  datatype ValueNode = ValueNode(dtype: DType, shape: Shape)

  datatype Graph = Graph(orderedInputs: seq<ValueNode>, orderedOutputs: seq<ValueNode>)

  /** A compiled module: its functions' graphs keyed by function name. */
  datatype FheModule = FheModule(graphs: map<string, Graph>)
}
