# Llama weight loader, modelled in Dafny

This project models the weight loader of a small Llama-style inference engine:
`LLamaParams::<f32>::from_safetensors`. The loader rebuilds the model's parameter set
from a container that maps flat names to tensors. A tensor in the container is a byte
buffer and a shape. The parameter set has an embedding table, nine per-layer weight
lists (attention norm, q/k/v/o projections, feed-forward norm, up/gate/down
projections), a final norm weight and an output head.

The loader works in three steps, and the model has one module for each:

- `Naming` (with `Decimal`): the name of each slot. Each per-layer slot has a template
  `model.layers.{i}.<suffix>`, and the layer index is written as unpadded decimal. The
  embedding table and the output head both use the fixed name `lm_head.weight`. The
  final norm uses `model.norm.weight`.
- `LittleEndian`: decoding. The buffer is cut into whole 4-byte chunks, and each chunk
  is read as a little-endian 32-bit pattern. An `f32` is modelled by its bit pattern
  (`bv32`), because `f32::from_le_bytes` only reinterprets bits.
- `Params`: lookup and assembly. `GetTensor` is the `get_tensor` closure. It is a
  method with the decoding loop, and it is proved equal to the function `TensorAt`.
  `LayerTensors` is `(0..layers).map(...).collect()`. `FromSafetensors` builds the whole
  set, one field after another in declaration order. The `unwrap` on a missing name
  becomes `Failure(NotFound(name))`, and no parameter set is returned.

The container is a `map<string, Entry>`. An `Entry` holds `data: seq<bv8>` and
`shape: seq<nat>`. The configuration enters as `layers: nat`, the value of
`num_hidden_layers`.

Two things the code does not check, and the model does not check either:

- A buffer whose length is not a multiple of 4 is not an error. `chunks_exact(4)` drops
  the last 1 to 3 bytes (`DecodeDropsRemainder`), and the load fails only when a name
  is missing (`LoadSucceedsIff`).
- Nothing compares the number of decoded values with the shape. The values and the
  shape are handed to `Tensor::new`, which is not modelled.

## Model

| member | source | states |
|---|---|---|
| `Params.GetTensor` | src/params.rs:29-38 | It fails exactly when the name is missing, and then with `NotFound(name)`. On success the shape is the entry's shape. There are `len / 4` values, and value `k` is the little-endian word read from bytes `4k..4k+3`. The result equals `TensorAt`, which the load uses. |
| `LittleEndian.DecodeWords` | src/params.rs:32-36 | Decoding a buffer of length `L` yields exactly `L / 4` words. |
| `LittleEndian.DecodeWordsAt` | src/params.rs:34-35 | Decoded word `k` is read from bytes `4k` to `4k+3` only, so the words keep buffer order. |
| `LittleEndian.DecodeWordsCharacterized` | src/params.rs:34-35 | A sequence is the decoding of a buffer if and only if it has one word per whole chunk and word `k` comes from chunk `k`. |
| `LittleEndian.DecodeWordsValue` | src/params.rs:34-35 | As an unsigned number, decoded word `k` is `b[4k] + 256 b[4k+1] + 65536 b[4k+2] + 16777216 b[4k+3]`. |
| `LittleEndian.WordOfBytesValue` | src/params.rs:35 | The word built from four bytes has the base-256 value of those bytes, least significant byte first. |
| `LittleEndian.WordBytesRoundTrip` | src/params.rs:35 | Splitting a word into its little-endian bytes and reading them back gives the same word. |
| `LittleEndian.WordOfBytes` | src/params.rs:35 | `f32::from_le_bytes` on one chunk, as a bit pattern: the word whose little-endian bytes are the four given bytes, in order. Its value is stated by `WordOfBytesValue`, and the other direction by `WordBytesRoundTrip`. |
| `LittleEndian.DecodeEncode` | src/params.rs:34-35 | Encoding words as little-endian bytes and decoding them gives back the words, bit for bit. |
| `LittleEndian.EncodeDecode` | src/params.rs:32-36 | Decoding and then re-encoding gives back the buffer without its trailing 1 to 3 bytes. |
| `LittleEndian.DecodeDropsRemainder` | src/params.rs:34 | Trailing bytes are dropped without any trace: a buffer decodes to the same words as its whole chunks alone. |
| `Decimal.Digits` | src/params.rs:66 | The index is written as a non-empty string of ASCII digits. Its first digit is `0` exactly when the index is 0, and it is one character long exactly when the index is below 10, so 0 is written `0` and there is no padding. |
| `Decimal.ParseDigitsOfDigits` | src/params.rs:66 | Reading the decimal notation back gives the index. |
| `Decimal.DigitsInjective` | src/params.rs:66 | Different indices have different decimal notations. |
| `Naming.LayerName` | src/params.rs:66-82 | The `format!` of a per-layer name: it starts with `model.layers.` followed by a digit. `LayerNameInjective` shows that slot and layer can be recovered from it, and `LayerNameExampleQ` and `LayerNameExampleDown` show exact instances. |
| `Naming.TemplateOf` | src/params.rs:66-82 | Each of the nine templates starts with `model.layers.`, and its suffix starts with a dot. |
| `Naming.LayerNameExampleQ` | src/params.rs:68 | For the query projection of layer 0, the name is exactly `model.layers.0.self_attn.q_proj.weight`. |
| `Naming.LayerNameExampleDown` | src/params.rs:82 | For the down projection of layer 12, the name is exactly `model.layers.12.mlp.down_proj.weight`. |
| `Naming.TemplateOfInjective` | src/params.rs:66-82 | No two per-layer slots share a template. |
| `Naming.LayerNameInjective` | src/params.rs:66-82 | A per-layer name determines both its slot and its layer. So no two entries of one field, and no two fields, read the same container key. |
| `Naming.FixedNamesAreNotLayerNames` | src/params.rs:64-86 | Neither `lm_head.weight` nor `model.norm.weight` is the name of any per-layer slot. |
| `Params.TensorAt` | src/params.rs:29-38 | The lookup and decode of one name, as the load uses it. It fails exactly when the name is missing, and then with `NotFound(name)`. On success it holds `len / 4` values and the entry's shape. `GetTensor`, the loop, is proved equal to it. |
| `Params.LayerTensors` | src/params.rs:66-82 | `(0..layers).map(get_tensor).collect()` for one slot: on success it holds exactly `layers` tensors, and a failure names a missing key. `LayerTensorsSucceedsIff`, `LayerTensorsAt` and `LayerTensorsFailure` give its full contract. |
| `Params.LayerTensorsSucceedsIff` | src/params.rs:66-82 | Collecting a slot over `0..layers` succeeds if and only if every one of its layer names is present. |
| `Params.LayerTensorsAt` | src/params.rs:66-82 | A successful collection has exactly `layers` tensors. Tensor `i` is the decoding of the entry named by the template with `i` filled in. |
| `Params.LayerTensorsFailure` | src/params.rs:66-82 | A failed collection reports the lowest layer whose name is missing, and every layer below it is present. |
| `Params.LayerFailureNamesMissing` | src/params.rs:66-82 | A failed collection reports a name that the model requires and the container lacks. |
| `Params.LoadFailureNamesMissing` | src/params.rs:63-87 | When the load fails, the reported name is required and missing from the container. |
| `Params.FromSafetensors` | src/params.rs:63-87 | The whole load. A failure names a missing key. On success the embedding table equals the output head, and every per-layer field has `layers` entries. `LoadSucceedsIff`, `LoadLayout`, `LoadFixedSlots` and `LoadFailureNamesMissing` give its full contract. |
| `Params.LoadParts` | src/params.rs:63-87 | The unfolding of the load's `:-` chain field by field: on success, each field is what reading that field's names gives. It is the step that `LoadLayout` and `LoadFixedSlots` use, not independent evidence. |
| `Params.LoadSucceedsIff` | src/params.rs:63-87 | The load succeeds if and only if every required name is in the container. Buffer lengths and shapes play no part. |
| `Params.LoadLayout` | src/params.rs:66-82 | On success, each of the nine per-layer fields has exactly `num_hidden_layers` entries. Entry `i` is the decoding of that field's template with `i` filled in. |
| `Params.LoadFixedSlots` | src/params.rs:64-86 | On success, the embedding table and the output head are equal in data and shape, and both are the decoding of `lm_head.weight`. The final norm weight is the decoding of `model.norm.weight`. |

## Left out

- Parsing the container file: `SafeTensors`, `tensor`, `data` and `shape` belong to an external library. The model replaces them with a map from name to bytes and shape.
- Floating-point meaning of `f32`: values are kept as 32-bit patterns. No IEEE-754 arithmetic is modelled.
- `Tensor::new` and `LlamaConfigJson`: src/tensor.rs and src/config.rs are not part of this model. The tensor is a plain record, and nothing checks the data length against the shape. The configuration enters only as `num_hidden_layers`.
- `try_into().unwrap()` on a chunk: it can never fail, because `chunks_exact(4)` yields only 4-byte chunks. The model reads the four bytes directly.
- The entry's element type (dtype): src/params.rs never reads it and reinterprets the bytes of any entry as `f32`. The model does the same, so an F16 or BF16 entry loads as wrong words without any error.
- The capacity hint of `Vec::with_capacity`: it is an allocation detail with no observable effect.
- The commented-out name listing and the commented-out `println!`: they have no behaviour.
- Panics: the panic of `unwrap` on a missing name is modelled as a `Failure` result. No unwinding is modelled.
- `FromSafetensors` uses the function `TensorAt`, not the method `GetTensor`, because a Dafny function cannot call a method. The ensures of `GetTensor` proves that the two are equal.
- Params.LoadFailureNamesMissing: states that the reported name is required and missing, but not that it is the first missing name in field order. That order is fixed by the body of `FromSafetensors`. `LayerTensorsFailure` states the lowest missing layer within one field.
