/** What the store promises, on two maps. */
module TwoMaps {
  import opened Common

  /** W holds what was put since the last flush, D what a key had when it was first flushed. */
  datatype Spec = Spec(W: map<int32, Value>, D: map<int32, Value>)

  function SpecGet(sp: Spec, k: int32): Value {
    if k in sp.W && sp.W[k] != [] then sp.W[k] else if k in sp.D then sp.D[k] else []
  }

  function SpecFlush(sp: Spec): Spec {
    Spec(map[], sp.W + sp.D)
  }

  /** A flush changes the answer for a key exactly when an older flush already fixed another value for it. */
  lemma FlushKeepsRead(sp: Spec, k: int32)
    ensures SpecGet(SpecFlush(sp), k) == SpecGet(sp, k) <==>
            !(k in sp.D && k in sp.W && sp.W[k] != [] && sp.W[k] != sp.D[k])
  {
    var m := sp.W + sp.D;
    assert k in m <==> k in sp.W || k in sp.D;
  }

  /** DEL takes a key's value away exactly when no flush has stored one for it. */
  lemma DelErases(sp: Spec, k: int32)
    ensures SpecGet(sp.(W := sp.W - {k}), k) == [] <==> !(k in sp.D && sp.D[k] != [])
  {
    assert k !in sp.W - {k};
  }
}
