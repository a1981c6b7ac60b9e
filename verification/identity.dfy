/**
 * With no session rules, converting a value into a slot of its own type gives the value
 * back: scalars, strings, times and structs are copied by applyField's same-type branch,
 * and slices, arrays, maps and pointers are rebuilt part by part. The values covered are
 * the ones whose every pointer is allocated and points at a non-pointer, since a nil
 * source panics and apply dereferences the source only once.
 */
module Identity {
  import opened Reflect
  import opened Rules
  import opened Utils
  import opened Convertor
  import opened Folds
  import opened Laws

  /** Every pointer inside v is allocated and points at a value that is not a pointer. */
  predicate Plain(v: Value)
    decreases v
  {
    match v
    case VSlice(_, es) => forall i :: 0 <= i < |es| ==> Plain(es[i])
    case VArray(_, es) => forall i :: 0 <= i < |es| ==> Plain(es[i])
    case VMap(_, _, es) => forall i :: 0 <= i < |es| ==> Plain(es[i].0) && Plain(es[i].1)
    case VPtr(et, tgt) => tgt.Some? && !et.TPtr? && Plain(tgt.value)
    case _ => true
  }

  lemma {:induction false} ConvIdentity(e: Env, stack: seq<string>, x: Value, y: Value)
    requires e.rules == map[]
    requires WellFormed(x) && WellFormed(y) && Plain(x) && TypeOf(x) == TypeOf(y)
    ensures Conv(e, stack, x, y) == Done(x)
    decreases Size(x), 2
  {
    if x.VPtr? {
      var t := x.target.value;
      assert InnerSlot(y) == Zero(x.elemType);
      ZeroWellFormed(x.elemType);
      KindIdentity(e, stack, x, t, Zero(x.elemType));
      assert Refill(y, t) == x;
    } else {
      KindIdentity(e, stack, x, x, y);
    }
  }

  lemma {:induction false} KindIdentity(e: Env, stack: seq<string>, src: Value, sv: Value, d: Value)
    requires e.rules == map[]
    requires WellFormed(sv) && WellFormed(d) && Plain(sv) && TypeOf(sv) == TypeOf(d)
    ensures ConvKind(e, stack, src, sv, d) == Done(sv)
    decreases Size(sv), 1
  {
    if d.VSlice? {
      SliceIdentity(e, stack, sv, d.elemType);
      assert ConvKind(e, stack, src, sv, d) == ConvSlice(e, stack, sv, d.elemType);
    } else if d.VArray? {
      ArrayIdentity(e, stack, sv, d);
      assert ConvKind(e, stack, src, sv, d) == ConvArray(e, stack, sv, d.elemType, d.elems);
    } else if d.VMap? {
      MapIdentity(e, stack, sv, d.keyType, d.valType);
      assert ConvKind(e, stack, src, sv, d) == ConvMap(e, stack, sv, d.keyType, d.valType);
    } else {
      FieldIdentity(e, stack, src, sv, d);
      assert ConvKind(e, stack, src, sv, d) == ConvField(e, stack, src, sv, d);
    }
  }

  /** applyField on a source of the destination's type copies it when the session has no rules. */
  lemma FieldIdentity(e: Env, stack: seq<string>, src: Value, sv: Value, d: Value)
    requires e.rules == map[] && TypeOf(sv) == TypeOf(d)
    ensures ConvField(e, stack, src, sv, d) == Done(sv)
  {
    GetEmpty(sv, d);
  }

  lemma SliceIdentity(e: Env, stack: seq<string>, sv: Value, et: Type)
    requires e.rules == map[]
    requires sv.VSlice? && sv.elemType == et && WellFormed(sv) && Plain(sv)
    ensures ConvSlice(e, stack, sv, et) == Done(sv)
    decreases Size(sv), 0
  {
    ZeroWellFormed(et);
    forall j | 0 <= j < |sv.elems|
      ensures Conv(e, stack, sv.elems[j], Zero(et)) == Done(sv.elems[j])
    {
      ElemSmaller(sv, j);
      ConvIdentity(e, stack, sv.elems[j], Zero(et));
    }
    SliceLaw(e, stack, sv, et);
    assert ConvSlice(e, stack, sv, et).value.elems == sv.elems;
  }

  lemma ArrayIdentity(e: Env, stack: seq<string>, sv: Value, d: Value)
    requires e.rules == map[]
    requires sv.VArray? && d.VArray? && TypeOf(sv) == TypeOf(d)
    requires WellFormed(sv) && WellFormed(d) && Plain(sv)
    ensures ConvArray(e, stack, sv, d.elemType, d.elems) == Done(sv)
    decreases Size(sv), 0
  {
    assert Min(|d.elems|, Len(sv).value) == |sv.elems|;
    forall j | 0 <= j < |sv.elems|
      ensures Index(sv, j) == Done(sv.elems[j]) && Conv(e, stack, sv.elems[j], d.elems[j]) == Done(sv.elems[j])
    {
      ElemSmaller(sv, j);
      ConvIdentity(e, stack, sv.elems[j], d.elems[j]);
    }
    ArrayLaw(e, stack, sv, d.elemType, d.elems);
    assert ConvArray(e, stack, sv, d.elemType, d.elems).value.elems == sv.elems;
  }

  lemma MapIdentity(e: Env, stack: seq<string>, sv: Value, kt: Type, vt: Type)
    requires e.rules == map[]
    requires sv.VMap? && sv.keyType == kt && sv.valType == vt && WellFormed(sv) && Plain(sv)
    ensures ConvMap(e, stack, sv, kt, vt) == Done(sv)
    decreases Size(sv), 0
  {
    var es := sv.entries;
    var ks := KeyConvs(e, stack, sv, kt);
    var vs := ValConvs(e, stack, sv, vt);
    ZeroWellFormed(kt);
    ZeroWellFormed(vt);
    forall j | 0 <= j < |es|
      ensures ks[j] == Done(es[j].0) && vs[j] == Done(es[j].1)
    {
      EntrySmaller(sv, j);
      ConvIdentity(e, stack, es[j].0, Zero(kt));
      ConvIdentity(e, stack, es[j].1, Zero(vt));
    }
    MapFromIsStored(e, stack, sv, kt, vt, [], 0);
    assert es[..0] == [];
    StoredRebuilds(ks, vs, es, 0);
  }
}
