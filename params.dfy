/** The parameter set of a Llama-style model and its loader: each slot is
    resolved to a container name, the entry's bytes are decoded to 32-bit
    patterns and wrapped with the entry's shape. */
module Params {
  import opened Wrappers
  import opened LittleEndian
  import opened Naming

  /** A container entry: its raw bytes and its shape, as the container gives them. */
  datatype Entry = Entry(data: seq<bv8>, shape: seq<nat>)

  /** The weight container, reduced to the lookup the loader uses. */
  type Container = map<string, Entry>

  /** A flat buffer of values with the shape it stands for. The loader builds it
      from the decoded values and the entry's shape and checks nothing else. */
  datatype Tensor<T> = Tensor(data: seq<T>, shape: seq<nat>)

  /** A lookup of a name the container does not hold. */
  datatype LoadError = NotFound(name: string)

  /** The parameter set: embedding table, nine per-layer weights and the output part. */
  datatype LlamaParams<T> = LlamaParams(
    embeddingTable: Tensor<T>,
    rmsAttW: seq<Tensor<T>>,
    wq: seq<Tensor<T>>,
    wk: seq<Tensor<T>>,
    wv: seq<Tensor<T>>,
    wo: seq<Tensor<T>>,
    rmsFfnW: seq<Tensor<T>>,
    wUp: seq<Tensor<T>>,
    wGate: seq<Tensor<T>>,
    wDown: seq<Tensor<T>>,
    rmsOutW: Tensor<T>,
    lmHead: Tensor<T>)

  /** The per-layer field that holds slot `slot`. */
  function Field<T>(p: LlamaParams<T>, slot: Slot): seq<Tensor<T>>
  {
    match slot
    case RmsAtt => p.rmsAttW
    case Wq     => p.wq
    case Wk     => p.wk
    case Wv     => p.wv
    case Wo     => p.wo
    case RmsFfn => p.rmsFfnW
    case WUp    => p.wUp
    case WGate  => p.wGate
    case WDown  => p.wDown
  }

  /** The tensor an entry decodes to: one 32-bit pattern per whole 4-byte chunk, and the entry's shape. */
  function Decoded(e: Entry): Tensor<bv32>
  {
    Tensor(DecodeWords(e.data), e.shape)
  }

  /** The tensor read from `name`, or the failure the lookup ends in. */
  function TensorAt(c: Container, name: string): (r: Result<Tensor<bv32>, LoadError>)
    ensures r.Failure? <==> name !in c
    ensures r.Failure? ==> r.error == NotFound(name)
    ensures r.Success? ==> |r.value.data| == |c[name].data| / 4 && r.value.shape == c[name].shape
  {
    if name in c then Success(Decoded(c[name])) else Failure(NotFound(name))
  }

  /** Looks `name` up, decodes the entry's bytes four at a time in buffer
      order, and wraps the values with the entry's shape. */
  method GetTensor(c: Container, name: string) returns (r: Result<Tensor<bv32>, LoadError>)
    ensures r.Failure? <==> name !in c
    ensures r.Failure? ==> r.error == NotFound(name)
    ensures r.Success? ==>
              var b := c[name].data;
              && r.value.shape == c[name].shape
              && |r.value.data| == |b| / 4
              && forall k: nat :: k < |r.value.data| ==> 4 * k + 4 <= |b| && r.value.data[k] == WordAt(b, k)
    ensures r == TensorAt(c, name)
  {
    if name !in c {
      return Failure(NotFound(name));
    }
    var entry := c[name];
    var data := entry.data;
    var values: seq<bv32> := [];
    var k := 0;
    while k < |data| / 4
      invariant k <= |data| / 4
      invariant |values| == k
      invariant forall j: nat :: j < k ==> 4 * j + 4 <= |data| && values[j] == WordAt(data, j)
    {
      var chunk := data[4 * k .. 4 * k + 4];
      values := values + [WordOfBytes(chunk[0], chunk[1], chunk[2], chunk[3])];
      k := k + 1;
    }
    DecodeWordsCharacterized(data, values);
    return Success(Tensor(values, entry.shape));
  }

  /** The tensors of slot `slot` for layers `0 .. n`, read in ascending order;
      the first missing name ends the load. */
  function LayerTensors(c: Container, slot: Slot, n: nat): (r: Result<seq<Tensor<bv32>>, LoadError>)
    ensures r.Success? ==> |r.value| == n
    ensures r.Failure? ==> r.error.name !in c
    decreases n
  {
    if n == 0 then
      Success([])
    else
      var front :- LayerTensors(c, slot, n - 1);
      var last :- TensorAt(c, LayerName(slot, n - 1));
      Success(front + [last])
  }

  /** Reading a slot's layers succeeds exactly when every one of its names is present. */
  lemma {:induction false} LayerTensorsSucceedsIff(c: Container, slot: Slot, n: nat)
    ensures LayerTensors(c, slot, n).Success? <==> forall i :: 0 <= i < n ==> LayerName(slot, i) in c
    decreases n
  {
    if n > 0 {
      LayerTensorsSucceedsIff(c, slot, n - 1);
    }
  }

  /** A successful read has one tensor per layer, in layer order, each the
      decoding of its own layer's entry. */
  lemma {:induction false} LayerTensorsAt(c: Container, slot: Slot, n: nat)
    requires LayerTensors(c, slot, n).Success?
    ensures var ts := LayerTensors(c, slot, n).value;
            && |ts| == n
            && forall i :: 0 <= i < n ==> LayerName(slot, i) in c && ts[i] == Decoded(c[LayerName(slot, i)])
    decreases n
  {
    if n > 0 {
      LayerTensorsAt(c, slot, n - 1);
    }
  }

  /** A failed read reports the lowest layer whose name is missing. */
  lemma {:induction false} LayerTensorsFailure(c: Container, slot: Slot, n: nat)
    requires LayerTensors(c, slot, n).Failure?
    ensures exists i :: && 0 <= i < n
                        && LayerTensors(c, slot, n).error == NotFound(LayerName(slot, i))
                        && LayerName(slot, i) !in c
                        && forall j :: 0 <= j < i ==> LayerName(slot, j) in c
    decreases n
  {
    if LayerTensors(c, slot, n - 1).Failure? {
      LayerTensorsFailure(c, slot, n - 1);
    } else {
      LayerTensorsSucceedsIff(c, slot, n - 1);
    }
  }

  /** Builds the whole parameter set for a model of `layers` layers, field by
      field in declaration order; a missing name fails the whole load. */
  function FromSafetensors(c: Container, layers: nat): (r: Result<LlamaParams<bv32>, LoadError>)
    ensures r.Failure? ==> r.error.name !in c
    ensures r.Success? ==> r.value.embeddingTable == r.value.lmHead
    ensures r.Success? ==> forall slot :: |Field(r.value, slot)| == layers
  {
    var embeddingTable :- TensorAt(c, HeadName);
    var rmsAttW :- LayerTensors(c, RmsAtt, layers);
    var wq :- LayerTensors(c, Wq, layers);
    var wk :- LayerTensors(c, Wk, layers);
    var wv :- LayerTensors(c, Wv, layers);
    var wo :- LayerTensors(c, Wo, layers);
    var rmsFfnW :- LayerTensors(c, RmsFfn, layers);
    var wUp :- LayerTensors(c, WUp, layers);
    var wGate :- LayerTensors(c, WGate, layers);
    var wDown :- LayerTensors(c, WDown, layers);
    var rmsOutW :- TensorAt(c, NormName);
    // The embedding table was read from this same name, so this lookup succeeds.
    var lmHead := TensorAt(c, HeadName).value;
    Success(LlamaParams(embeddingTable, rmsAttW, wq, wk, wv, wo, rmsFfnW, wUp, wGate, wDown, rmsOutW, lmHead))
  }

  /** The names a model of `layers` layers needs. */
  predicate Required(layers: nat, name: string)
  {
    || name == HeadName
    || name == NormName
    || exists slot: Slot, i :: 0 <= i < layers && name == LayerName(slot, i)
  }

  /** A failing per-layer read names a required entry the container lacks. */
  lemma LayerFailureNamesMissing(c: Container, slot: Slot, layers: nat)
    requires LayerTensors(c, slot, layers).Failure?
    ensures var name := LayerTensors(c, slot, layers).error.name;
            Required(layers, name) && name !in c
  {
    LayerTensorsFailure(c, slot, layers);
  }

  /** When the load fails, it names a required entry the container lacks. */
  lemma LoadFailureNamesMissing(c: Container, layers: nat)
    requires FromSafetensors(c, layers).Failure?
    ensures var name := FromSafetensors(c, layers).error.name;
            Required(layers, name) && name !in c
  {
    if TensorAt(c, HeadName).Failure? {
    } else if LayerTensors(c, RmsAtt, layers).Failure? {
      LayerFailureNamesMissing(c, RmsAtt, layers);
    } else if LayerTensors(c, Wq, layers).Failure? {
      LayerFailureNamesMissing(c, Wq, layers);
    } else if LayerTensors(c, Wk, layers).Failure? {
      LayerFailureNamesMissing(c, Wk, layers);
    } else if LayerTensors(c, Wv, layers).Failure? {
      LayerFailureNamesMissing(c, Wv, layers);
    } else if LayerTensors(c, Wo, layers).Failure? {
      LayerFailureNamesMissing(c, Wo, layers);
    } else if LayerTensors(c, RmsFfn, layers).Failure? {
      LayerFailureNamesMissing(c, RmsFfn, layers);
    } else if LayerTensors(c, WUp, layers).Failure? {
      LayerFailureNamesMissing(c, WUp, layers);
    } else if LayerTensors(c, WGate, layers).Failure? {
      LayerFailureNamesMissing(c, WGate, layers);
    } else if LayerTensors(c, WDown, layers).Failure? {
      LayerFailureNamesMissing(c, WDown, layers);
    }
  }

  /** A successful load holds, in each field, what reading that field's names gives. */
  lemma LoadParts(c: Container, layers: nat)
    requires FromSafetensors(c, layers).Success?
    ensures var p := FromSafetensors(c, layers).value;
            && TensorAt(c, HeadName) == Success(p.embeddingTable)
            && TensorAt(c, HeadName) == Success(p.lmHead)
            && TensorAt(c, NormName) == Success(p.rmsOutW)
            && forall slot :: LayerTensors(c, slot, layers) == Success(Field(p, slot))
  {
    var p := FromSafetensors(c, layers).value;
    forall slot ensures LayerTensors(c, slot, layers) == Success(Field(p, slot)) {
      match slot
      case RmsAtt =>
      case Wq =>
      case Wk =>
      case Wv =>
      case Wo =>
      case RmsFfn =>
      case WUp =>
      case WGate =>
      case WDown =>
    }
  }

  /** The load succeeds exactly when every required name is in the container. */
  lemma LoadSucceedsIff(c: Container, layers: nat)
    ensures FromSafetensors(c, layers).Success? <==> forall name :: Required(layers, name) ==> name in c
  {
    if FromSafetensors(c, layers).Success? {
      LoadParts(c, layers);
      forall name | Required(layers, name) ensures name in c {
        if name != HeadName && name != NormName {
          var slot: Slot, i :| 0 <= i < layers && name == LayerName(slot, i);
          LayerTensorsSucceedsIff(c, slot, layers);
        }
      }
    } else {
      LoadFailureNamesMissing(c, layers);
    }
  }

  /** Every per-layer field of a loaded parameter set has one tensor per layer,
      and the tensor of layer `i` is the decoding of the entry named by the
      field's template with `i` written in decimal. */
  lemma LoadLayout(c: Container, layers: nat)
    requires FromSafetensors(c, layers).Success?
    ensures var p := FromSafetensors(c, layers).value;
            forall slot ::
              && |Field(p, slot)| == layers
              && forall i :: 0 <= i < layers ==>
                   LayerName(slot, i) in c && Field(p, slot)[i] == Decoded(c[LayerName(slot, i)])
  {
    LoadParts(c, layers);
    forall slot {
      LayerTensorsAt(c, slot, layers);
    }
  }

  /** The embedding table and the output head are both read from `lm_head.weight`
      and so are equal, data and shape; the final norm weight is read from
      `model.norm.weight`. */
  lemma LoadFixedSlots(c: Container, layers: nat)
    requires FromSafetensors(c, layers).Success?
    ensures var p := FromSafetensors(c, layers).value;
            && HeadName in c && NormName in c
            && p.embeddingTable == p.lmHead == Decoded(c[HeadName])
            && p.rmsOutW == Decoded(c[NormName])
  {
  }
}
