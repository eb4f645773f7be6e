/** The naming convention that ties each slot of the parameter set to a
    container entry: nine per-layer templates into which the layer index is
    written in decimal, and two fixed names. */
module Naming {
  import opened Decimal

  /** A name with one hole for the layer index: `prefix + {i} + suffix`. */
  datatype Template = Template(prefix: string, suffix: string)

  /** The per-layer slots of the parameter set, in the order the loader fills them. */
  datatype Slot = RmsAtt | Wq | Wk | Wv | Wo | RmsFfn | WUp | WGate | WDown

  const LayerPrefix: string := "model.layers."

  /** The name of the output head; the embedding table is read from it too. */
  const HeadName: string := "lm_head.weight"

  /** The name of the final normalisation weight. */
  const NormName: string := "model.norm.weight"

  /** The template of each per-layer slot, kept as data so that the convention
      is stated once. Every template begins with `model.layers.` and its
      suffix begins with a dot. */
  function TemplateOf(slot: Slot): (t: Template)
    ensures t.prefix == LayerPrefix && |t.suffix| > 0 && t.suffix[0] == '.'
  {
    match slot
    case RmsAtt => Template(LayerPrefix, ".input_layernorm.weight")
    case Wq     => Template(LayerPrefix, ".self_attn.q_proj.weight")
    case Wk     => Template(LayerPrefix, ".self_attn.k_proj.weight")
    case Wv     => Template(LayerPrefix, ".self_attn.v_proj.weight")
    case Wo     => Template(LayerPrefix, ".self_attn.o_proj.weight")
    case RmsFfn => Template(LayerPrefix, ".post_attention_layernorm.weight")
    case WUp    => Template(LayerPrefix, ".mlp.up_proj.weight")
    case WGate  => Template(LayerPrefix, ".mlp.gate_proj.weight")
    case WDown  => Template(LayerPrefix, ".mlp.down_proj.weight")
  }

  /** The template with the hole filled by the unpadded decimal notation of `i`. */
  function Instantiate(t: Template, i: nat): string
  {
    t.prefix + Digits(i) + t.suffix
  }

  /** The container name of slot `slot` of layer `i`: `model.layers.`, then the
      index's digits, then the slot's suffix, which starts with a dot. */
  function LayerName(slot: Slot, i: nat): (name: string)
    ensures |name| > |LayerPrefix| && name[..|LayerPrefix|] == LayerPrefix
    ensures IsDigit(name[|LayerPrefix|])
  {
    Instantiate(TemplateOf(slot), i)
  }

  /** A concrete instance, spelled out in full. */
  lemma LayerNameExampleQ()
    ensures LayerName(Wq, 0) == "model.layers.0.self_attn.q_proj.weight"
  {
    var t := TemplateOf(Wq);
    assert Digits(0) == "0";
    assert LayerName(Wq, 0) == LayerPrefix + "0" + t.suffix;
  }

  /** A concrete instance with a two-digit layer index, spelled out in full. */
  lemma LayerNameExampleDown()
    ensures LayerName(WDown, 12) == "model.layers.12.mlp.down_proj.weight"
  {
    var t := TemplateOf(WDown);
    assert Digits(12) == Digits(1) + "2" == "12";
    assert LayerName(WDown, 12) == LayerPrefix + "12" + t.suffix;
  }

  /** No two slots share a template. */
  lemma TemplateOfInjective(s: Slot, t: Slot)
    requires TemplateOf(s) == TemplateOf(t)
    ensures s == t
  {
  }

  /** After a string of digits, the first dot is the one that ends it. */
  lemma FirstDot(d: string, x: string)
    requires AllDigits(d) && |x| > 0 && x[0] == '.'
    ensures |d| < |d + x| && (d + x)[|d|] == '.'
    ensures forall k :: 0 <= k < |d| ==> (d + x)[k] != '.'
  {
  }

  /** A digit string followed by a dotted suffix splits at its first dot in one way only. */
  lemma SplitAtFirstDot(d1: string, x1: string, d2: string, x2: string)
    requires AllDigits(d1) && AllDigits(d2)
    requires |x1| > 0 && x1[0] == '.' && |x2| > 0 && x2[0] == '.'
    requires d1 + x1 == d2 + x2
    ensures d1 == d2 && x1 == x2
  {
    FirstDot(d1, x1);
    FirstDot(d2, x2);
    var s := d1 + x1;
    assert |d1| == |d2|;
    assert d1 == s[..|d1|] == d2;
    assert x1 == s[|d1|..] == x2;
  }

  /** What follows the prefix of an instance is the index and the suffix. */
  lemma InstanceTail(t: Template, i: nat)
    ensures Instantiate(t, i)[|t.prefix|..] == Digits(i) + t.suffix
  {
    assert Instantiate(t, i) == t.prefix + (Digits(i) + t.suffix);
  }

  /** Every per-layer name determines its slot and its layer: in particular no
      two entries of one per-layer field are read from the same name, and no
      two fields share a name. */
  lemma LayerNameInjective(s: Slot, i: nat, t: Slot, j: nat)
    requires LayerName(s, i) == LayerName(t, j)
    ensures s == t && i == j
  {
    var ts, tt := TemplateOf(s), TemplateOf(t);
    InstanceTail(ts, i);
    InstanceTail(tt, j);
    SplitAtFirstDot(Digits(i), ts.suffix, Digits(j), tt.suffix);
    DigitsInjective(i, j);
    TemplateOfInjective(s, t);
  }

  /** Neither fixed name is a per-layer name. */
  lemma FixedNamesAreNotLayerNames(s: Slot, i: nat)
    ensures LayerName(s, i) != HeadName && LayerName(s, i) != NormName
  {
    assert LayerName(s, i)[6] == 'l';
  }
}
