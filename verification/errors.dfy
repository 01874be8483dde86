/** The exceptions the bridge raises, and the index forms a caller may use to name an input. */
module Errors {

  /** A key of the `input_idx_to_key_buffer` dictionary: a bare input position, which only
      makes sense for a single-function module, or a `(function name, position)` tuple. */
  datatype KeyIndex =
    | Position(pos: int)
    | FunctionInput(funcName: string, pos: int)

  datatype BridgeError =
      /** RuntimeError: no function name was given and the module has no default function. */
    | NoDefaultFunction(callingFunc: string)
      /** KeyError: the per-function tables have no entry for this function name. */
    | UnknownFunction(funcName: string)
      /** IndexError: the position is outside a Python list of the given length. */
    | IndexOutOfRange(index: int, length: nat)
      /** ValueError: the selected input is not a TFHE-rs integer. */
    | NotTfhersInput
      /** ValueError: the selected output is not a TFHE-rs integer. */
    | NotTfhersOutput
      /** ZeroDivisionError: a TFHE-rs type whose message width is zero has no block count. */
    | ZeroMessageWidth
      /** RuntimeError: a bare position was given for a module with several functions. */
    | FunctionNameRequired
      /** RuntimeError: the key buffer given for this index did not deserialize. */
    | DeserializationFailed(keyIndex: KeyIndex)
}
