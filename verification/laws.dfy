/**
 * What the conversion walk promises, proved about the functions of module Convertor:
 * the shape of slice, array, map and struct results, the precedence of applyField,
 * what makeDstVal leaves in a pointer slot, and the identity law.
 */
module Laws {
  import opened Reflect
  import opened Rules
  import opened Utils
  import opened Convertor
  import opened Folds

  // ---------------------------------------------------------------------------
  // Slices

  /** The conversions of a slice or array source's elements into zero slots. */
  function ElemConvs(e: Env, stack: seq<string>, sv: Value, et: Type): (cs: seq<Outcome<Value>>)
    requires sv.VSlice? || sv.VArray?
    ensures |cs| == |sv.elems|
    ensures forall j :: 0 <= j < |cs| ==> cs[j] == Conv(e, stack, sv.elems[j], Zero(et))
  {
    seq(|sv.elems|, j requires 0 <= j < |sv.elems| => Conv(e, stack, sv.elems[j], Zero(et)))
  }

  lemma {:induction false} SliceFromIsAppended(e: Env, stack: seq<string>, sv: Value, et: Type, acc: seq<Value>, i: nat)
    requires (sv.VSlice? || sv.VArray?) && i <= |sv.elems|
    ensures SliceFrom(e, stack, sv, et, acc, i) == Appended(ElemConvs(e, stack, sv, et), acc, i)
    decreases |sv.elems| - i
  {
    if i < |sv.elems| {
      var c := Conv(e, stack, sv.elems[i], Zero(et));
      if c.Done? {
        SliceFromIsAppended(e, stack, sv, et, acc + [c.value], i + 1);
      }
    }
  }

  /**
   * A slice destination gets exactly the source's length, element j being source element
   * j converted into a zero slot; it panics exactly when the source is no slice or array
   * or one element's conversion panics.
   */
  lemma SliceLaw(e: Env, stack: seq<string>, sv: Value, et: Type)
    ensures ConvSlice(e, stack, sv, et).Done? <==>
              (sv.VSlice? || sv.VArray?) && forall j :: 0 <= j < |sv.elems| ==> Conv(e, stack, sv.elems[j], Zero(et)).Done?
    ensures ConvSlice(e, stack, sv, et).Done? ==>
              && ConvSlice(e, stack, sv, et).value.VSlice?
              && ConvSlice(e, stack, sv, et).value.elemType == et
              && |ConvSlice(e, stack, sv, et).value.elems| == |sv.elems|
    ensures ConvSlice(e, stack, sv, et).Done? ==>
              forall j :: 0 <= j < |sv.elems| ==> Conv(e, stack, sv.elems[j], Zero(et)) == Done(ConvSlice(e, stack, sv, et).value.elems[j])
  {
    if sv.VSlice? || sv.VArray? {
      var cs := ElemConvs(e, stack, sv, et);
      SliceFromIsAppended(e, stack, sv, et, [], 0);
      AppendedDone(cs, [], 0);
      if Appended(cs, [], 0).Done? {
        AppendedValue(cs, [], 0);
        var r := Appended(cs, [], 0).value;
        assert ConvSlice(e, stack, sv, et) == Done(VSlice(et, r));
        forall j | 0 <= j < |sv.elems|
          ensures Conv(e, stack, sv.elems[j], Zero(et)) == Done(r[j])
        {
          var none: seq<Value> := [];
          assert cs[j] == Done(r[|none| + j - 0]);
        }
      }
    }
  }

  // ---------------------------------------------------------------------------
  // Arrays

  /** Source element j (Index panics on a map) converted into the slot it replaces. */
  function ArrayElem(e: Env, stack: seq<string>, sv: Value, slot: Value, j: nat): Outcome<Value>
    requires Len(sv).Some? && j < Len(sv).value
  {
    match Index(sv, j)
    case Panic(f) => Panic(f)
    case Done(item) => Conv(e, stack, item, slot)
  }

  function ArrayConvs(e: Env, stack: seq<string>, sv: Value, es: seq<Value>, n: nat): (cs: seq<Outcome<Value>>)
    requires Len(sv).Some? && n <= |es| && n <= Len(sv).value
    ensures |cs| == n
    ensures forall j :: 0 <= j < n ==> cs[j] == ArrayElem(e, stack, sv, es[j], j)
  {
    seq(n, j requires 0 <= j < n => ArrayElem(e, stack, sv, es[j], j))
  }

  lemma {:induction false} ArrayFromIsReplaced(e: Env, stack: seq<string>, sv: Value, es: seq<Value>, acc: seq<Value>, i: nat, n: nat)
    requires Len(sv).Some? && i <= n <= |acc| && |acc| == |es| && n <= Len(sv).value
    requires forall j :: i <= j < n ==> acc[j] == es[j]
    ensures ArrayFrom(e, stack, sv, acc, i, n) == Replaced(ArrayConvs(e, stack, sv, es, n), acc, i)
    decreases n - i
  {
    if i < n {
      var c := ArrayElem(e, stack, sv, acc[i], i);
      if c.Done? {
        ArrayFromIsReplaced(e, stack, sv, es, acc[i := c.value], i + 1, n);
      }
    }
  }

  /**
   * An array destination keeps its length; the elements below min(len dst, len src) are
   * the conversions of the source's elements into the elements they replace, and the
   * others keep their prior contents. Len is asked of the source even when nothing is copied.
   */
  lemma ArrayLaw(e: Env, stack: seq<string>, sv: Value, et: Type, es: seq<Value>)
    ensures Len(sv).None? ==> ConvArray(e, stack, sv, et, es) == Panic(NotSequence)
    ensures ConvArray(e, stack, sv, et, es).Done? <==>
              Len(sv).Some? && forall j :: 0 <= j < Min(|es|, Len(sv).value) && j < Len(sv).value ==> ArrayElem(e, stack, sv, es[j], j).Done?
    ensures ConvArray(e, stack, sv, et, es).Done? ==>
              && ConvArray(e, stack, sv, et, es).value.VArray?
              && ConvArray(e, stack, sv, et, es).value.elemType == et
              && |ConvArray(e, stack, sv, et, es).value.elems| == |es|
    ensures ConvArray(e, stack, sv, et, es).Done? ==>
              forall j :: Min(|es|, Len(sv).value) <= j < |es| ==> ConvArray(e, stack, sv, et, es).value.elems[j] == es[j]
    ensures ConvArray(e, stack, sv, et, es).Done? ==>
              forall j :: 0 <= j < Min(|es|, Len(sv).value) ==>
                Index(sv, j).Done? && Conv(e, stack, Index(sv, j).value, es[j]) == Done(ConvArray(e, stack, sv, et, es).value.elems[j])
  {
    if Len(sv).Some? {
      var n := Min(|es|, Len(sv).value);
      var cs := ArrayConvs(e, stack, sv, es, n);
      ArrayFromIsReplaced(e, stack, sv, es, es, 0, n);
      ReplacedDone(cs, es, 0);
      if Replaced(cs, es, 0).Done? {
        ReplacedValue(cs, es, 0);
      }
    }
  }

  // ---------------------------------------------------------------------------
  // Maps

  /** The conversions of a map source's keys into zero key slots. */
  function KeyConvs(e: Env, stack: seq<string>, sv: Value, kt: Type): (ks: seq<Outcome<Value>>)
    requires sv.VMap?
    ensures |ks| == |sv.entries|
    ensures forall j :: 0 <= j < |ks| ==> ks[j] == Conv(e, stack, sv.entries[j].0, Zero(kt))
  {
    seq(|sv.entries|, j requires 0 <= j < |sv.entries| => Conv(e, stack, sv.entries[j].0, Zero(kt)))
  }

  /** The conversions of a map source's values into zero value slots. */
  function ValConvs(e: Env, stack: seq<string>, sv: Value, vt: Type): (vs: seq<Outcome<Value>>)
    requires sv.VMap?
    ensures |vs| == |sv.entries|
    ensures forall j :: 0 <= j < |vs| ==> vs[j] == Conv(e, stack, sv.entries[j].1, Zero(vt))
  {
    seq(|sv.entries|, j requires 0 <= j < |sv.entries| => Conv(e, stack, sv.entries[j].1, Zero(vt)))
  }

  lemma {:induction false} MapFromIsStored(e: Env, stack: seq<string>, sv: Value, kt: Type, vt: Type, acc: seq<(Value, Value)>, i: nat)
    requires sv.VMap? && i <= |sv.entries|
    ensures MapFrom(e, stack, sv, kt, vt, acc, i) == Stored(KeyConvs(e, stack, sv, kt), ValConvs(e, stack, sv, vt), acc, i)
    decreases |sv.entries| - i
  {
    if i < |sv.entries| {
      var k := Conv(e, stack, sv.entries[i].0, Zero(kt));
      var v := Conv(e, stack, sv.entries[i].1, Zero(vt));
      var ks := KeyConvs(e, stack, sv, kt);
      var vs := ValConvs(e, stack, sv, vt);
      assert ks[i] == k && vs[i] == v;
      if k.Done? && v.Done? {
        var acc' := SetMapIndex(acc, k.value, v.value);
        MapFromIsStored(e, stack, sv, kt, vt, acc', i + 1);
        assert MapFrom(e, stack, sv, kt, vt, acc, i) == MapFrom(e, stack, sv, kt, vt, acc', i + 1);
        assert Stored(ks, vs, acc, i) == Stored(ks, vs, acc', i + 1);
      }
    }
  }

  /**
   * A map destination is a fresh map: every entry is a converted source key with its
   * converted value, every source key's conversion is present, keys are distinct, it has
   * at most as many entries as the source, and exactly as many when key conversion keeps
   * the source's keys apart. It panics exactly when the source is no map or one key or
   * value conversion panics.
   */
  lemma MapLaw(e: Env, stack: seq<string>, sv: Value, kt: Type, vt: Type)
    ensures !sv.VMap? ==> ConvMap(e, stack, sv, kt, vt) == Panic(NotMap)
    ensures sv.VMap? ==>
              (ConvMap(e, stack, sv, kt, vt).Done? <==> DoneFrom(KeyConvs(e, stack, sv, kt), 0) && DoneFrom(ValConvs(e, stack, sv, vt), 0))
    ensures ConvMap(e, stack, sv, kt, vt).Done? ==>
              && ConvMap(e, stack, sv, kt, vt).value.VMap?
              && ConvMap(e, stack, sv, kt, vt).value.keyType == kt && ConvMap(e, stack, sv, kt, vt).value.valType == vt
    ensures ConvMap(e, stack, sv, kt, vt).Done? ==> DistinctKeys(ConvMap(e, stack, sv, kt, vt).value.entries)
    ensures ConvMap(e, stack, sv, kt, vt).Done? ==> |ConvMap(e, stack, sv, kt, vt).value.entries| <= |sv.entries|
    ensures ConvMap(e, stack, sv, kt, vt).Done? ==>
              forall p :: p in ConvMap(e, stack, sv, kt, vt).value.entries ==>
                EntryOf(KeyConvs(e, stack, sv, kt), ValConvs(e, stack, sv, vt), p, 0)
    ensures ConvMap(e, stack, sv, kt, vt).Done? ==>
              forall j :: 0 <= j < |sv.entries| ==>
                KeyConvs(e, stack, sv, kt)[j].Done? && KeyConvs(e, stack, sv, kt)[j].value in KeySet(ConvMap(e, stack, sv, kt, vt).value.entries)
    ensures ConvMap(e, stack, sv, kt, vt).Done? && KeysApart(KeyConvs(e, stack, sv, kt), [], 0) ==>
              |ConvMap(e, stack, sv, kt, vt).value.entries| == |sv.entries|
  {
    if sv.VMap? {
      var ks := KeyConvs(e, stack, sv, kt);
      var vs := ValConvs(e, stack, sv, vt);
      MapFromIsStored(e, stack, sv, kt, vt, [], 0);
      StoredDone(ks, vs, [], 0);
      if Stored(ks, vs, [], 0).Done? {
        StoredDistinct(ks, vs, [], 0);
        StoredSizeBound(ks, vs, [], 0);
        forall j | 0 <= j < |sv.entries|
          ensures ks[j].Done? && ks[j].value in KeySet(Stored(ks, vs, [], 0).value)
        {
          StoredHasKey(ks, vs, [], 0, j);
        }
        forall p | p in Stored(ks, vs, [], 0).value
          ensures EntryOf(ks, vs, p, 0)
        {
          StoredOrigin(ks, vs, [], 0, p);
        }
        if KeysApart(ks, [], 0) {
          StoredExactSize(ks, vs, [], 0);
        }
      }
    }
  }

  // ---------------------------------------------------------------------------
  // Structs

  /** The per-field steps of applyStruct over the destination's fields as they were. */
  function FieldSteps(e: Env, stack: seq<string>, src: Value, sv: Value, styp: Type, fs: seq<Value>): (cs: seq<Outcome<Value>>)
    ensures |cs| == |fs|
    ensures forall j :: 0 <= j < |fs| ==> cs[j] == FieldStep(e, stack, src, sv, FieldName(styp, j), fs[j])
  {
    seq(|fs|, j requires 0 <= j < |fs| => FieldStep(e, stack, src, sv, FieldName(styp, j), fs[j]))
  }

  lemma {:induction false} FieldsFromIsReplaced(e: Env, stack: seq<string>, src: Value, sv: Value, styp: Type,
                                                fs: seq<Value>, cur: seq<Value>, i: nat)
    requires i <= |cur| == |fs|
    requires forall j :: i <= j < |cur| ==> cur[j] == fs[j]
    ensures FieldsFrom(e, stack, src, sv, styp, cur, i) == Replaced(FieldSteps(e, stack, src, sv, styp, fs), cur, i)
    decreases |cur| - i
  {
    if i < |cur| {
      var cs := FieldSteps(e, stack, src, sv, styp, fs);
      var s := FieldStep(e, stack, src, sv, FieldName(styp, i), cur[i]);
      assert cs[i] == s;
      if s.Done? {
        FieldsFromIsReplaced(e, stack, src, sv, styp, fs, cur[i := s.value], i + 1);
        assert FieldsFrom(e, stack, src, sv, styp, cur, i) == FieldsFrom(e, stack, src, sv, styp, cur[i := s.value], i + 1);
        assert Replaced(cs, cur, i) == Replaced(cs, cur[i := s.value], i + 1);
      }
    }
  }

  /** A struct destination is filled exactly when every field's step succeeds; any other destination is left alone. */
  lemma StructDone(e: Env, stack: seq<string>, src: Value, sv: Value, d: Value)
    ensures !d.VStruct? ==> ConvStruct(e, stack, src, sv, d) == Done(d)
    ensures d.VStruct? ==>
              (ConvStruct(e, stack, src, sv, d).Done? <==>
                 forall j :: 0 <= j < |d.fields| ==> FieldStep(e, stack, src, sv, FieldName(d.styp, j), d.fields[j]).Done?)
  {
    if d.VStruct? {
      var cs := FieldSteps(e, stack, src, sv, d.styp, d.fields);
      FieldsFromIsReplaced(e, stack, src, sv, d.styp, d.fields, d.fields, 0);
      ReplacedDone(cs, d.fields, 0);
      StepsDone(e, stack, src, sv, d.styp, d.fields);
    }
  }

  /** The steps all succeed exactly when each field's step does. */
  lemma StepsDone(e: Env, stack: seq<string>, src: Value, sv: Value, styp: Type, fs: seq<Value>)
    ensures DoneFrom(FieldSteps(e, stack, src, sv, styp, fs), 0) <==>
              forall j :: 0 <= j < |fs| ==> FieldStep(e, stack, src, sv, FieldName(styp, j), fs[j]).Done?
  {
  }

  /**
   * A struct destination: unexported fields keep their contents; a field with an override
   * for its dotted path gets the override's result on the un-dereferenced source; any other
   * field first has its pointer layers replaced by fresh ones and then, when the source
   * has a field of that name, receives it converted under the extended path.
   */
  lemma StructLaw(e: Env, stack: seq<string>, src: Value, sv: Value, d: Value, j: nat)
    requires d.VStruct? && j < |d.fields|
    requires ConvStruct(e, stack, src, sv, d).Done?
    ensures ConvStruct(e, stack, src, sv, d).value.VStruct?
    ensures ConvStruct(e, stack, src, sv, d).value.styp == d.styp
    ensures |ConvStruct(e, stack, src, sv, d).value.fields| == |d.fields|
    ensures !Exported(FieldName(d.styp, j)) ==> ConvStruct(e, stack, src, sv, d).value.fields[j] == d.fields[j]
    ensures Exported(FieldName(d.styp, j)) && FieldPath(stack, FieldName(d.styp, j)) in e.overrides ==>
              CallOverride(e.host, e.overrides[FieldPath(stack, FieldName(d.styp, j))], src, d.fields[j])
                == Done(ConvStruct(e, stack, src, sv, d).value.fields[j])
    ensures Exported(FieldName(d.styp, j)) && FieldPath(stack, FieldName(d.styp, j)) !in e.overrides ==>
              UnruledStep(e, stack, sv, FieldName(d.styp, j), d.fields[j]) == Done(ConvStruct(e, stack, src, sv, d).value.fields[j])
  {
    var cs := FieldSteps(e, stack, src, sv, d.styp, d.fields);
    FieldsFromIsReplaced(e, stack, src, sv, d.styp, d.fields, d.fields, 0);
    ReplacedValue(cs, d.fields, 0);
    assert cs[j] == Done(ConvStruct(e, stack, src, sv, d).value.fields[j]);
  }

  /**
   * A field with neither an override nor an unexported name: the source must be a struct
   * (or time.Time), makeDstVal's fresh layers are kept when the source lacks the field, and
   * otherwise the source's field is converted into them under the extended path.
   */
  lemma UnruledFieldLaw(e: Env, stack: seq<string>, sv: Value, name: string, prior: Value)
    requires Exported(name)
    ensures UnruledStep(e, stack, sv, name, prior).Done? ==> sv.VStruct? || sv.VTime?
    ensures FieldByName(sv, name) == Done(None) ==>
              UnruledStep(e, stack, sv, name, prior) == Done(Refill(prior, InnerSlot(prior)))
    ensures FieldByName(sv, name).Done? && FieldByName(sv, name).value.Some? ==>
              (UnruledStep(e, stack, sv, name, prior).Done? <==>
                 Conv(e, stack + [name], FieldByName(sv, name).value.value, InnerSlot(prior)).Done?)
    ensures UnruledStep(e, stack, sv, name, prior).Done? && FieldByName(sv, name).value.Some? ==>
              UnruledStep(e, stack, sv, name, prior).value ==
                Refill(prior, Conv(e, stack + [name], FieldByName(sv, name).value.value, InnerSlot(prior)).value)
  {
  }

  // ---------------------------------------------------------------------------
  // applyField

  // The precedence of applyField: a session rule wins over everything, a copy between
  // identical types wins over the process-wide table, struct descent only happens when no
  // rule applies, and anything else leaves the destination as it was.

  /**
   * The whole ladder: a session rule found for the pair is run, whatever else applies;
   * without one, identical types are copied even when the process-wide table has a rule;
   * otherwise a process-wide rule is run; with no rule at all a struct destination is
   * filled field by field and any other destination is left as it was.
   */
  lemma FieldPrecedence(e: Env, stack: seq<string>, src: Value, sv: Value, d: Value)
    ensures Get(e.rules, sv, d).Some? ==>
              ConvField(e, stack, src, sv, d) == RunRule(e.host, e.timeFormat, Get(e.rules, sv, d).value, sv, d)
    ensures Get(e.rules, sv, d).None? && TypeOf(sv) == TypeOf(d) ==>
              ConvField(e, stack, src, sv, d) == Done(sv)
    ensures Get(e.rules, sv, d).None? && TypeOf(sv) != TypeOf(d) && Get(e.global, sv, d).Some? ==>
              ConvField(e, stack, src, sv, d) == RunRule(e.host, e.timeFormat, Get(e.global, sv, d).value, sv, d)
    ensures Get(e.rules, sv, d).None? && TypeOf(sv) != TypeOf(d) && Get(e.global, sv, d).None? ==>
              ConvField(e, stack, src, sv, d) ==
                if KindOf(TypeOf(d)) == KStruct then ConvStruct(e, stack, src, sv, d) else Done(d)
  {
    if Get(e.rules, sv, d).None? && TypeOf(sv) != TypeOf(d) {
      UnownedPrecedence(e, stack, src, sv, d);
    }
  }

  /** FieldPrecedence's proof step: ConvUnowned unfolded once, so the ladder is proved in two halves. */
  lemma UnownedPrecedence(e: Env, stack: seq<string>, src: Value, sv: Value, d: Value)
    ensures ConvUnowned(e, stack, src, sv, d) ==
              if Get(e.global, sv, d).Some? then RunRule(e.host, e.timeFormat, Get(e.global, sv, d).value, sv, d)
              else if KindOf(TypeOf(d)) == KStruct then ConvStruct(e, stack, src, sv, d)
              else Done(d)
  {
  }

  /**
   * A nil source pointer panics, whatever the destination: apply dereferences it to the
   * zero reflect.Value, and the first Len, MapKeys or Type call on that panics. The
   * destination is not left unmodified.
   */
  lemma NilSourcePanics(e: Env, stack: seq<string>, t: Type, d: Value)
    ensures Conv(e, stack, VPtr(t, None), d) == Panic(NilSource)
  {
  }

  // ---------------------------------------------------------------------------
  // makeDstVal

  lemma {:induction false} WrapShape(t: Type, x: Value)
    requires !x.VPtr? && TypeOf(x) == Innermost(t)
    ensures TypeOf(Wrap(t, x)) == t && Allocated(Wrap(t, x)) && Bottom(Wrap(t, x)) == x
    decreases t
  {
    if t.TPtr? {
      WrapShape(t.elem, x);
    }
  }

  /**
   * makeDstVal on a pointer slot: the slot keeps its type, every pointer layer is freshly
   * allocated whatever it held (two slots of the same type end up equal), and the value at
   * the bottom is what was converted into the innermost slot.
   */
  lemma FreshLayers(d1: Value, d2: Value, x: Value)
    requires d1.VPtr? && d2.VPtr? && d1.elemType == d2.elemType
    requires !x.VPtr? && TypeOf(x) == Innermost(d1.elemType)
    ensures InnerSlot(d1) == InnerSlot(d2) && Refill(d1, x) == Refill(d2, x)
    ensures TypeOf(Refill(d1, x)) == TypeOf(d1) && Allocated(Refill(d1, x)) && Bottom(Refill(d1, x)) == x
  {
    WrapShape(d1.elemType, x);
  }
}
