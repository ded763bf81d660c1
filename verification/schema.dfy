/** The schema objects the processor builds: a root object whose
    `properties` map field names to field descriptors, in insertion order. */
module Schema {
  import opened Wrappers
  import opened JsText

  /** An entry of an `examples` list: a trimmed text piece, or `true`/`false`. */
  datatype Example = Text(text: string) | Flag(flag: bool)

  /** The value stored under one field name.
      ArrayNode is `{type: 'array', items: {title, description, type}}`;
      FieldNode is `{title, description, type, examples?, maxLength?, maximum?}`,
      its keys in that order. */
  datatype Property =
    | ArrayNode(itemTitle: string, itemDescription: string, itemType: string)
    | FieldNode(title: string, description: string, fieldType: string,
                examples: Option<seq<Example>>, maxLength: Option<Num>, maximum: Option<string>)

  /** A `properties` object: its key/value pairs in the order the keys were
      first assigned. */
  type Props = seq<(string, Property)>

  function Keys(p: Props): seq<string>
    decreases |p|
  {
    if |p| == 0 then [] else [p[0].0] + Keys(p[1..])
  }

  /** No key appears twice, as in a JavaScript object. */
  predicate Distinct(p: Props) {
    DistinctNames(Keys(p))
  }

  predicate DistinctNames(ks: seq<string>) {
    forall i, j :: 0 <= i < j < |ks| ==> ks[i] != ks[j]
  }

  /** A name list is distinct exactly when its head is not in its distinct
      tail. */
  lemma DistinctCons(x: string, ks: seq<string>)
    ensures DistinctNames([x] + ks) <==> x !in ks && DistinctNames(ks)
  {
    var xs := [x] + ks;
    if DistinctNames(xs) {
      forall i, j | 0 <= i < j < |ks| ensures ks[i] != ks[j] {
        assert xs[i + 1] == ks[i] && xs[j + 1] == ks[j];
      }
      forall j | 0 <= j < |ks| ensures ks[j] != x {
        assert xs[0] == x && xs[j + 1] == ks[j];
      }
    }
    if x !in ks && DistinctNames(ks) {
      forall i, j | 0 <= i < j < |xs| ensures xs[i] != xs[j] {
        if i > 0 {
          assert xs[i] == ks[i - 1] && xs[j] == ks[j - 1];
        } else {
          assert xs[j] == ks[j - 1];
        }
      }
    }
  }

  /** `properties[k]`, or None for `undefined`. */
  function Get(p: Props, k: string): (r: Option<Property>)
    ensures r.Some? <==> k in Keys(p)
    decreases |p|
  {
    if |p| == 0 then None else if p[0].0 == k then Some(p[0].1) else Get(p[1..], k)
  }

  /** The assignment `properties[k] = v`: the value of `k` becomes `v`, every
      other key keeps its value, and the key order is unchanged when `k` was
      present and gains `k` at the end otherwise. */
  function Put(p: Props, k: string, v: Property): (r: Props)
    ensures Get(r, k) == Some(v)
    ensures forall k' :: k' != k ==> Get(r, k') == Get(p, k')
    ensures Keys(r) == if k in Keys(p) then Keys(p) else Keys(p) + [k]
    ensures Distinct(p) ==> Distinct(r)
    decreases |p|
  {
    if |p| == 0 then [(k, v)]
    else if p[0].0 == k then [(k, v)] + p[1..]
    else
      var rest := Put(p[1..], k, v);
      var r := [p[0]] + rest;
      assert r[1..] == rest;
      DistinctCons(p[0].0, Keys(p[1..]));
      DistinctCons(p[0].0, Keys(rest));
      r
  }

  /** A root schema object `{type: 'object', description: '', properties,
      required?}`; its type and description never change, and `required` is
      absent until a whole file has been processed. */
  datatype Spec = Spec(properties: Props, required: Option<seq<string>>)

  /** `DefaultSchemaObject`: no properties, no `required`. */
  const DefaultSpec: Spec := Spec([], None)

}
