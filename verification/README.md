# TFHE-rs bridge of a compiled Concrete module

This project models the TFHE-rs interoperability bridge of Concrete's Python frontend
(`concrete.fhe.tfhers.Bridge` and `new_bridge`). A bridge wraps a compiled module. For every
function of the module it keeps four tables: the TFHE-rs integer type and the shape of each
input and of each output, with `None` for values that are not TFHE-rs integers. It also knows
the module's default function, which exists only for a single-function module.

Before every call into the TFHE-rs exporter the bridge resolves the function, looks up the
input or output, rejects values that are not TFHE-rs integers, and turns the TFHE-rs type into
a ciphertext descriptor. `keygen_with_initial_keys` normalises the indices of the supplied
secret-key buffers and deserializes each key id's buffer once, keeping the first. It then
calls the module's keygen with the resulting map.

The model is functional. Python exceptions become `Failure` values of a `Result`. The foreign
calls become function parameters (`keyIdAt` for `input_keyid_at`, `deserialize` for
`LweSecretKey.deserialize`), or the model returns the record of arguments that would be handed
to the foreign call (`ImportCall`, `ExportCall`, `KeygenCall`).

Files:
- `results.dfy`: `Option` and `Result`.
- `errors.dfy`: the exceptions raised, and the two index forms for initial keys.
- `dtypes.dfy`: TFHE-rs integer types, and `Pow2`/`Log2Floor`.
- `graphs.dfy`: the module, its graphs and their ordered input and output values.
- `description.dfy`: `_description_from_type`.
- `bridges.dfy`: the bridge, its tables, default-function resolution, `import_value`,
  `export_value`, `serialize_input_secret_key` and `new_bridge`.
- `initial_keys.dfy`: `keygen_with_initial_keys`.

Where the code and its documentation could be read differently, the model follows the code.
- A zero message width makes `bit_width // msg_width` raise ZeroDivisionError. The model
  reports this as `ZeroMessageWidth`; it does not exclude such types by a precondition.
- Table lookups follow Python list indexing. Negative positions count from the end. Positions
  outside `-n .. n-1` raise IndexError. An unknown function name raises KeyError.

## Model

| member | source | states |
|---|---|---|
| Bridges.InitBridge | frontends/concrete-python/concrete/fhe/tfhers/bridge.py:36-52 | the default function is present iff the module has exactly one function, and it is then that function's name; the tables are kept as given |
| Bridges.DefaultFuncOrError | frontends/concrete-python/concrete/fhe/tfhers/bridge.py:54-61 | succeeds iff a default function exists and then returns exactly it; otherwise RuntimeError naming the calling operation |
| Bridges.ResolveFunction | frontends/concrete-python/concrete/fhe/tfhers/bridge.py:166-167 | succeeds iff a function name is given or a default function exists; it then returns the given name, else the default; otherwise RuntimeError naming the calling operation |
| Bridges.PyIndex | frontends/concrete-python/concrete/fhe/tfhers/bridge.py:73 | Python list indexing: succeeds iff `-n <= i < n`, negative positions count from the end, otherwise IndexError |
| Bridges.LookupColumn | frontends/concrete-python/concrete/fhe/tfhers/bridge.py:63-111 | `table[f][i]` succeeds iff `f` is a key and `-n <= i < n` for its list of length `n`, and then returns the entry at `i` counted from the end when negative; KeyError for an unknown function, IndexError for a bad position |
| Bridges.Tabulate | frontends/concrete-python/concrete/fhe/tfhers/bridge.py:313-321 | both columns have one entry per value; the type entry is `None` iff the shape entry is `None` iff the value is not a TFHE-rs integer; otherwise they hold its type and shape |
| Bridges.NewBridge | frontends/concrete-python/concrete/fhe/tfhers/bridge.py:307-345 | all four tables are keyed by exactly the module's functions, and the default function follows the single-function rule |
| Bridges.NewBridgeTablesMatch | frontends/concrete-python/concrete/fhe/tfhers/bridge.py:312-337 | every column `new_bridge` builds describes its function's ordered inputs or outputs, entry by entry |
| Bridges.TablesMatchDeterminesTables | frontends/concrete-python/concrete/fhe/tfhers/bridge.py:312-337 | any tables satisfying the table invariant are exactly the ones `new_bridge` builds, so the invariant is a complete account of it |
| Bridges.InputLookups | frontends/concrete-python/concrete/fhe/tfhers/bridge.py:315-324 | on tables matching a module, an input lookup gives KeyError for an unknown function, IndexError outside the input list, and otherwise the value's type and shape or `None` |
| Bridges.OutputLookups | frontends/concrete-python/concrete/fhe/tfhers/bridge.py:328-337 | the same for output type lookups |
| Bridges.ResolveOnModule | frontends/concrete-python/concrete/fhe/tfhers/bridge.py:44-61 | on a bridge built for a module, an omitted name fails iff the module does not have exactly one function, and otherwise selects that function |
| Bridges.ImportValue | frontends/concrete-python/concrete/fhe/tfhers/bridge.py:154-178 | on any bridge, for the named or default function: RuntimeError without either, KeyError or IndexError from the type lookup and then from the shape lookup, ValueError exactly when the input's type or shape is `None`, ZeroMessageWidth for a zero message width; otherwise it succeeds and the importer receives the type's descriptor, the input's key id, its shape and the buffer |
| Bridges.ImportValueOnModule | frontends/concrete-python/concrete/fhe/tfhers/bridge.py:166-178 | against the module itself: every failure (no default, unknown function, bad position, not a TFHE-rs input, zero message width) and, for a TFHE-rs input, success forwarding its descriptor, shape and key id |
| Bridges.ExportValue | frontends/concrete-python/concrete/fhe/tfhers/bridge.py:180-203 | on any bridge, for the named or default function: RuntimeError without either, KeyError or IndexError from the type lookup, ValueError exactly when the output's type is `None`, ZeroMessageWidth for a zero message width; otherwise it succeeds and the exporter receives the value and the type's descriptor |
| Bridges.ExportValueOnModule | frontends/concrete-python/concrete/fhe/tfhers/bridge.py:192-203 | against the module itself: every failure and, for a TFHE-rs output, success forwarding its descriptor and the value |
| Bridges.SerializeInputSecretKey | frontends/concrete-python/concrete/fhe/tfhers/bridge.py:205-219 | fails iff no name is given and there is no default; otherwise the key id is the one of the named or default function's input |
| Description.DescriptionFromType | frontends/concrete-python/concrete/fhe/tfhers/bridge.py:123-152 | fails iff the message width is 0; otherwise moduli are `2^msg_width` and `2^carry_width`, degree is one below the message modulus, `lwe_size = polynomial_size + 1`, `n_cts` is the number of whole message blocks in the bit width, noise level unknown, `ks_first` iff the key choice is BIG, width and signedness copied |
| Description.DescriptionDeterminesType | frontends/concrete-python/concrete/fhe/tfhers/bridge.py:129-138 | two types with the same descriptor agree on signedness, bit, message and carry widths, polynomial size and key choice |
| Dtypes.Log2OfPow2 | frontends/concrete-python/concrete/fhe/tfhers/bridge.py:132-133 | the base-2 logarithm of `2^n` is `n`, so a modulus determines its width |
| InitialKeys.ResolveKeyIndex | frontends/concrete-python/concrete/fhe/tfhers/bridge.py:256-267 | a tuple index is used as given; a bare position is accepted iff a default function exists and is then paired with it; otherwise RuntimeError |
| InitialKeys.FirstOccurrenceIff | frontends/concrete-python/concrete/fhe/tfhers/bridge.py:268-271 | an entry is the first for its key id exactly when that id is not among the key ids already collected, which is the source's skip test |
| InitialKeys.SkipSeenKey | frontends/concrete-python/concrete/fhe/tfhers/bridge.py:268-271 | skipping an entry whose key id is already present keeps the loop invariant |
| InitialKeys.AddNewKey | frontends/concrete-python/concrete/fhe/tfhers/bridge.py:273-276 | storing the deserialized key of a new key id keeps the loop invariant |
| InitialKeys.KeygenWithInitialKeys | frontends/concrete-python/concrete/fhe/tfhers/bridge.py:255-289 | keygen is called iff no entry is rejected; otherwise the first rejected entry's RuntimeError is raised; the key map's domain is exactly the entries' key ids, each mapped to the key from the first buffer naming it; no key id is deserialized twice; force and seeds are passed through |

## Left out

- The TFHE-rs serialisation and the compiled library: `TfhersExporter.import_int` and
  `export_int`, `LweSecretKey.deserialize`, `secret_key.serialize` and `module.keygen` are
  foreign calls. The model returns the arguments they receive, or takes them as parameters.
- `_input_variance` and `encryption_variance()` are floating-point noise data and are not
  passed to the importer here. Their `None` check cannot fail after the one in `import_value`.
- `input_keyid_at` is a parameter assumed total. The errors it may raise for an unknown
  function are not modelled.
- The secret-key parameters looked up by key id before deserialisation are folded into the
  `deserialize` parameter. An IndexError from that lookup is not modelled.
- `serialize_input_secret_key` is modelled only up to the key id; the `assert keys is not None`
  and the secret-key lookup are not modelled.
- `TfhersFheIntDescription.get_unknown_noise_level()` is represented by the tag `UnknownNoise`.
- The `Circuit`/`Module` `isinstance` dispatch at the start of `new_bridge` is a Python type
  check; the model takes the module directly.
- `module.function_count` is taken to be the number of graphs; the module class is not part
  of this model.
- The initial-key dictionary is modelled by its items in insertion order. Only tuple and
  integer indices exist in the model, so other key types are not modelled.
- Widths and sizes are non-negative integers; negative widths are not modelled.
- The gtest end-to-end test program (`end_to_end_test.cc`) and the pybind11/MLIR bindings
  (`FHEModule.cpp`) are not part of this model. They run circuits, touch the filesystem or
  wrap MLIR constructors whose behaviour is not visible.
