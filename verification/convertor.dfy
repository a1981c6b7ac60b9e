/**
 * The conversion session: its state and builder methods, and the recursive walk
 * (apply, applyField, applyStruct) that converts a source value into a destination
 * slot. The walk is first defined by functions over values; the methods of class
 * Convertor perform it step by step and are proved to compute those functions.
 */
module Convertor {
  import opened Reflect
  import opened Rules
  import opened Utils

  /** A field override registered by Field: its number (what Host.call runs) and its signature. */
  datatype Override = Override(id: nat, typ: Type)

  /**
   * What a conversion reads: the session's own rule table, the process-wide table
   * (BuiltinTable() for a real session), the overrides by dotted path, the time layout
   * and the library.
   */
  datatype Env = Env(rules: Table, global: Table, overrides: map<string, Override>, timeFormat: string, host: Host)

  // ---------------------------------------------------------------------------
  // makeDstVal

  /** The type left once every pointer layer is removed. */
  function Innermost(t: Type): (r: Type)
    ensures !r.TPtr?
  {
    if t.TPtr? then Innermost(t.elem) else t
  }

  /** Fresh pointers, one per pointer layer of t, down to inner. */
  function Wrap(t: Type, inner: Value): Value
  {
    if t.TPtr? then VPtr(t.elem, Some(Wrap(t.elem, inner))) else inner
  }

  /**
   * The slot makeDstVal returns: a non-pointer slot is returned as it is; a pointer slot
   * is given a fresh target at every layer, so the slot returned holds the zero value of
   * the innermost type whatever the pointers held before.
   */
  function InnerSlot(d: Value): (s: Value)
    ensures !s.VPtr?
    ensures d.VPtr? ==> s == Zero(Innermost(d.elemType))
    ensures !d.VPtr? ==> s == d
  {
    if d.VPtr? then Zero(Innermost(d.elemType)) else d
  }

  /** The content of the original slot once the innermost slot holds inner. */
  function Refill(d: Value, inner: Value): Value
  {
    if d.VPtr? then VPtr(d.elemType, Some(Wrap(d.elemType, inner))) else inner
  }

  /** Every pointer on the way down is allocated. */
  predicate Allocated(v: Value)
    decreases v
  {
    v.VPtr? ==> v.target.Some? && Allocated(v.target.value)
  }

  /** The value reached by following every pointer. */
  function Bottom(v: Value): Value
    requires Allocated(v)
    decreases v
  {
    if v.VPtr? then Bottom(v.target.value) else v
  }

  // ---------------------------------------------------------------------------
  // apply

  /**
   * apply(src, dst): the new content of a destination slot that held dst. The source is
   * dereferenced once; a nil source pointer makes every branch panic (Len, MapKeys or
   * Type of the invalid value it dereferences to).
   */
  function Conv(e: Env, stack: seq<string>, src: Value, dst: Value): (r: Outcome<Value>)
    ensures r.Done? ==> TypeOf(r.value) == TypeOf(dst)
    decreases Size(src), 5
  {
    match Indirect(src)
    case None => Panic(NilSource)
    case Some(sv) =>
      match ConvKind(e, stack, src, sv, InnerSlot(dst))
      case Panic(f) => Panic(f)
      case Done(v) => Done(Refill(dst, v))
  }

  /** The switch on the destination kind in apply, once makeDstVal has run. */
  function ConvKind(e: Env, stack: seq<string>, src: Value, sv: Value, d: Value): (r: Outcome<Value>)
    ensures r.Done? ==> TypeOf(r.value) == TypeOf(d)
    decreases Size(sv), 4
  {
    if d.VSlice? then ConvSlice(e, stack, sv, d.elemType)
    else if d.VArray? then ConvArray(e, stack, sv, d.elemType, d.elems)
    else if d.VMap? then ConvMap(e, stack, sv, d.keyType, d.valType)
    else ConvField(e, stack, src, sv, d)
  }

  /**
   * A slice destination: reflect.MakeSlice(type, srcVal.Len(), srcVal.Cap()), which only
   * slices and arrays allow, then the elements converted into it.
   */
  function ConvSlice(e: Env, stack: seq<string>, sv: Value, et: Type): (r: Outcome<Value>)
    ensures r.Done? ==> r.value.VSlice? && r.value.elemType == et
    decreases Size(sv), 3
  {
    if sv.VSlice? || sv.VArray? then
      match SliceFrom(e, stack, sv, et, [], 0)
      case Panic(f) => Panic(f)
      case Done(vs) => Done(VSlice(et, vs))
    else Panic(NotSequence)
  }

  /** An array destination: the first min(len dst, len src) elements converted in place. */
  function ConvArray(e: Env, stack: seq<string>, sv: Value, et: Type, es: seq<Value>): (r: Outcome<Value>)
    ensures r.Done? ==> r.value.VArray? && r.value.elemType == et && |r.value.elems| == |es|
    decreases Size(sv), 3
  {
    if Len(sv).Some? then
      match ArrayFrom(e, stack, sv, es, 0, Min(|es|, Len(sv).value))
      case Panic(f) => Panic(f)
      case Done(vs) => Done(VArray(et, vs))
    else Panic(NotSequence)
  }

  /** A map destination: a fresh map filled from the source's entries. */
  function ConvMap(e: Env, stack: seq<string>, sv: Value, kt: Type, vt: Type): (r: Outcome<Value>)
    ensures r.Done? ==> r.value.VMap? && r.value.keyType == kt && r.value.valType == vt
    decreases Size(sv), 3
  {
    if sv.VMap? then
      match MapFrom(e, stack, sv, kt, vt, [], 0)
      case Panic(f) => Panic(f)
      case Done(ents) => Done(VMap(kt, vt, ents))
    else Panic(NotMap)
  }

  /** The slice loop from index i on: element i of a fresh slice is the conversion of source element i into a zero slot. */
  function SliceFrom(e: Env, stack: seq<string>, sv: Value, et: Type, acc: seq<Value>, i: nat): (r: Outcome<seq<Value>>)
    requires (sv.VSlice? || sv.VArray?) && i <= |sv.elems|
    decreases Size(sv), 2, |sv.elems| - i
  {
    if i == |sv.elems| then Done(acc)
    else
      ElemSmaller(sv, i);
      match Conv(e, stack, sv.elems[i], Zero(et))
      case Panic(f) => Panic(f)
      case Done(v) => SliceFrom(e, stack, sv, et, acc + [v], i + 1)
  }

  /** The array loop from index i up to n: element i is converted in place. */
  function ArrayFrom(e: Env, stack: seq<string>, sv: Value, acc: seq<Value>, i: nat, n: nat): (r: Outcome<seq<Value>>)
    requires Len(sv).Some? && i <= n <= |acc| && n <= Len(sv).value
    ensures r.Done? ==> |r.value| == |acc|
    decreases Size(sv), 2, n - i
  {
    if i == n then Done(acc)
    else
      match Index(sv, i)
      case Panic(f) => Panic(f)
      case Done(item) =>
        match Conv(e, stack, item, acc[i])
        case Panic(f) => Panic(f)
        case Done(v) => ArrayFrom(e, stack, sv, acc[i := v], i + 1, n)
  }

  /** The map loop from entry i on: key and value are converted into zero slots and stored. */
  function MapFrom(e: Env, stack: seq<string>, sv: Value, kt: Type, vt: Type, acc: seq<(Value, Value)>, i: nat)
    : (r: Outcome<seq<(Value, Value)>>)
    requires sv.VMap? && i <= |sv.entries|
    decreases Size(sv), 2, |sv.entries| - i
  {
    if i == |sv.entries| then Done(acc)
    else
      EntrySmaller(sv, i);
      match Conv(e, stack, sv.entries[i].0, Zero(kt))
      case Panic(f) => Panic(f)
      case Done(k) =>
        match Conv(e, stack, sv.entries[i].1, Zero(vt))
        case Panic(f) => Panic(f)
        case Done(v) => MapFrom(e, stack, sv, kt, vt, SetMapIndex(acc, k, v), i + 1)
  }

  /**
   * applyField: the session's rule, else a copy of a source of the same type, else the
   * process-wide rule, else a field-by-field descent into a struct, else nothing.
   */
  function ConvField(e: Env, stack: seq<string>, src: Value, sv: Value, d: Value): (r: Outcome<Value>)
    ensures r.Done? ==> TypeOf(r.value) == TypeOf(d)
    decreases Size(sv), 2, 1
  {
    var own := Get(e.rules, sv, d);
    if own.Some? then RunRule(e.host, e.timeFormat, own.value, sv, d)
    else if TypeOf(sv) == TypeOf(d) then Done(sv)
    else ConvUnowned(e, stack, src, sv, d)
  }

  /** applyField once neither the session's table nor a plain copy applies. */
  function ConvUnowned(e: Env, stack: seq<string>, src: Value, sv: Value, d: Value): (r: Outcome<Value>)
    ensures r.Done? ==> TypeOf(r.value) == TypeOf(d)
    decreases Size(sv), 2, 0
  {
    var global := Get(e.global, sv, d);
    if global.Some? then RunRule(e.host, e.timeFormat, global.value, sv, d)
    else if KindOf(TypeOf(d)) == KStruct then ConvStruct(e, stack, src, sv, d)
    else Done(d)
  }

  /** applyStruct. Every field of time.Time is unexported, so such a destination is left as it is. */
  function ConvStruct(e: Env, stack: seq<string>, src: Value, sv: Value, d: Value): (r: Outcome<Value>)
    ensures r.Done? ==> TypeOf(r.value) == TypeOf(d)
    decreases Size(sv), 1
  {
    if d.VStruct? then
      match FieldsFrom(e, stack, src, sv, d.styp, d.fields, 0)
      case Panic(f) => Panic(f)
      case Done(fs) => Done(VStruct(d.styp, fs))
    else Done(d)
  }

  /** The declared name of field i (an ill-formed struct value with extra fields gives them no name). */
  function FieldName(styp: Type, i: nat): string
  {
    if styp.TStruct? && i < |styp.fields| then styp.fields[i].name else ""
  }

  /** The field loop of applyStruct from field i on. */
  function FieldsFrom(e: Env, stack: seq<string>, src: Value, sv: Value, styp: Type, cur: seq<Value>, i: nat)
    : (r: Outcome<seq<Value>>)
    requires i <= |cur|
    ensures r.Done? ==> |r.value| == |cur|
    decreases Size(sv), 0, |cur| - i + 1
  {
    if i == |cur| then Done(cur)
    else
      match FieldStep(e, stack, src, sv, FieldName(styp, i), cur[i])
      case Panic(f) => Panic(f)
      case Done(v) => FieldsFrom(e, stack, src, sv, styp, cur[i := v], i + 1)
  }

  /** The dotted path of a field: the names on the field stack, then the field's own. */
  function FieldPath(stack: seq<string>, name: string): string
  {
    JoinList(stack + [name], ".")
  }

  /**
   * One field of applyStruct: an unexported field is skipped; an override for the path
   * is called on the current level's un-dereferenced source; otherwise makeDstVal runs
   * on the field and, when the source has a field of that name, it is converted into
   * the field with the name pushed on the stack.
   */
  function FieldStep(e: Env, stack: seq<string>, src: Value, sv: Value, name: string, prior: Value): (r: Outcome<Value>)
    ensures r.Done? ==> TypeOf(r.value) == TypeOf(prior)
    decreases Size(sv), 0, 1
  {
    if !Exported(name) then Done(prior)
    else if FieldPath(stack, name) in e.overrides then CallOverride(e.host, e.overrides[FieldPath(stack, name)], src, prior)
    else UnruledStep(e, stack, sv, name, prior)
  }

  /** An exported field without an override: makeDstVal, then the source's field of that name, if any. */
  function UnruledStep(e: Env, stack: seq<string>, sv: Value, name: string, prior: Value): (r: Outcome<Value>)
    requires Exported(name)
    ensures r.Done? ==> TypeOf(r.value) == TypeOf(prior)
    decreases Size(sv), 0, 0
  {
    match FieldByName(sv, name)
    case Panic(f) => Panic(f)
    case Done(found) =>
      if found.None? then Done(Refill(prior, InnerSlot(prior)))
      else
        match Conv(e, stack + [name], found.value, InnerSlot(prior))
        case Panic(f) => Panic(f)
        case Done(v) => Done(Refill(prior, v))
  }

  /** Type.AssignableTo, for the cases the model has: the same type, or an interface the type implements. */
  predicate Assignable(h: Host, t: Type, target: Type)
  {
    t == target || (target.TInterface? && h.implements(t, target))
  }

  /**
   * fieldRule.Call([src]) followed by fieldVal.Set(r[0]). Call panics unless the override
   * takes one argument to which src is assignable and returns something; Set panics
   * unless the declared result is assignable to the field. A result stored into an
   * interface field becomes an opaque interface value.
   */
  function CallOverride(h: Host, o: Override, src: Value, prior: Value): (r: Outcome<Value>)
    ensures r.Done? ==> TypeOf(r.value) == TypeOf(prior)
  {
    if !(o.typ.TFunc? && |o.typ.ins| == 1 && |o.typ.outs| >= 1) then Panic(BadOverride)
    else if !Assignable(h, TypeOf(src), o.typ.ins[0]) then Panic(OverrideArgument)
    else
      var out := h.call(o.id, src);
      var ft := TypeOf(prior);
      if o.typ.outs[0] == ft && TypeOf(out) == ft then Done(out)
      else if ft.TInterface? && h.implements(o.typ.outs[0], ft) then Done(VOpaque(ft))
      else Panic(OverrideResult)
  }

  /**
   * Apply(dst) on a pointer: the new content of dst. A nil dst makes applyField ask the
   * type of an invalid value (after the source's, which panics first when it is nil too).
   */
  function ApplyTop(e: Env, stack: seq<string>, src: Value, dst: Value): (r: Outcome<Value>)
    requires dst.VPtr?
    ensures r.Done? ==> r.value.VPtr? && r.value.elemType == dst.elemType && r.value.target.Some?
    ensures dst.target.None? ==> r.Panic?
    ensures dst.target.Some? ==> (r.Done? <==> Conv(e, stack, src, dst.target.value).Done?)
    ensures dst.target.Some? && r.Done? ==> r.value.target == Some(Conv(e, stack, src, dst.target.value).value)
  {
    if dst.target.None? then
      if Indirect(src).None? then Panic(NilSource) else Panic(NilDestination)
    else
      match Conv(e, stack, src, dst.target.value)
      case Panic(f) => Panic(f)
      case Done(v) => Done(VPtr(dst.elemType, Some(v)))
  }

  // ---------------------------------------------------------------------------
  // The session

  /** makeDstVal as its loop: walk down the pointer layers to the innermost slot. */
  method MakeDstVal(d: Value) returns (slot: Value)
    ensures slot == InnerSlot(d)
    ensures !slot.VPtr?
  {
    if !d.VPtr? {
      return d;
    }
    var t := d.elemType;
    while t.TPtr?
      invariant Innermost(t) == Innermost(d.elemType)
      decreases t
    {
      t := t.elem;
    }
    slot := Zero(t);
  }

  /**
   * Convert(src, dst): a fresh session applied to dst. global is the process-wide table
   * (the one NewBuiltinMap builds).
   */
  method Convert(src: Value, dst: Value, host: Host, global: ConvertMap) returns (r: Outcome<Value>)
    requires dst.VPtr?
    ensures r == ApplyTop(Env(map[], global.cmap, map[], TIME_FORMAT, host), [], src, dst)
  {
    var c := new Convertor(src, host, global);
    r := c.Apply(dst);
  }

  class Convertor {
    var timeFormat: string
    const src: Value
    var fieldRules: map<string, Override>
    const convertMap: ConvertMap
    var fieldStack: seq<string>
    const host: Host
    /** The process-wide table ConvertMap that init fills. */
    const global: ConvertMap

    /** What a conversion by this session reads, the field stack apart. */
    function CurrentEnv(): Env
      reads this`timeFormat, this`fieldRules, convertMap`cmap, global`cmap
    {
      Env(convertMap.cmap, global.cmap, fieldRules, timeFormat, host)
    }

    /** NewConvertor(src), reading the process-wide table global. */
    constructor (src: Value, host: Host, global: ConvertMap)
      ensures this.src == src && this.host == host && this.global == global
      ensures timeFormat == TIME_FORMAT && fieldRules == map[] && fieldStack == []
      ensures fresh(convertMap) && convertMap.cmap == map[]
    {
      this.src := src;
      this.host := host;
      this.global := global;
      timeFormat := TIME_FORMAT;
      fieldRules := map[];
      convertMap := new ConvertMap();
      fieldStack := [];
    }

    /** Rule(inType, outType, rule): session rule number id for the one pair. */
    method Rule(inType: Descriptor, outType: Descriptor, id: nat)
      requires Nameable(inType) && Nameable(outType)
      modifies convertMap
      ensures convertMap.cmap == Register(old(convertMap.cmap), [inType], [outType], SessionRule(id))
    {
      convertMap.Set([inType], [outType], SessionRule(id));
    }

    /** Rules(inTypes, outTypes, rule): session rule number id for the whole cross product. */
    method Rules(inTypes: seq<Descriptor>, outTypes: seq<Descriptor>, id: nat)
      requires AllNameable(inTypes) && AllNameable(outTypes)
      modifies convertMap
      ensures convertMap.cmap == Register(old(convertMap.cmap), inTypes, outTypes, SessionRule(id))
    {
      convertMap.Set(inTypes, outTypes, SessionRule(id));
    }

    /**
     * Field(path, f): f must be a function of one argument and one result; it then
     * replaces any override stored under path. accepted is false where Field panics,
     * which leaves the overrides as they were.
     */
    method Field(fieldName: string, f: Override) returns (accepted: bool)
      modifies this`fieldRules
      ensures accepted <==> f.typ.TFunc? && |f.typ.ins| == 1 && |f.typ.outs| == 1
      ensures fieldRules == if accepted then old(fieldRules)[fieldName := f] else old(fieldRules)
    {
      accepted := IsFuncValid(f.typ, Some([Unconstrained]), Some([Unconstrained]), host.implements);
      OneInOneOut(f.typ, host.implements);
      if !accepted {
        return;
      }
      fieldRules := fieldRules[fieldName := f];
    }

    /** TimeFormat(format): the empty layout stands for TIME_FORMAT. */
    method TimeFormat(format: string)
      modifies this`timeFormat
      ensures timeFormat == if format == "" then TIME_FORMAT else format
    {
      var layout := format;
      if layout == "" {
        layout := TIME_FORMAT;
      }
      timeFormat := layout;
    }

    /** Apply(dst) on a pointer: the new content of dst. */
    method Apply(dst: Value) returns (r: Outcome<Value>)
      requires dst.VPtr?
      modifies this`fieldStack
      ensures r == ApplyTop(CurrentEnv(), old(fieldStack), src, dst)
      ensures r.Done? ==> fieldStack == old(fieldStack)
    {
      if dst.target.None? {
        if Indirect(src).None? {
          return Panic(NilSource);
        }
        return Panic(NilDestination);
      }
      var v := ApplySlot(src, dst.target.value);
      if v.Panic? {
        return Panic(v.fault);
      }
      r := Done(VPtr(dst.elemType, Some(v.value)));
    }

    /** apply(src, dstVal) */
    method ApplySlot(s: Value, d: Value) returns (r: Outcome<Value>)
      modifies this`fieldStack
      ensures r == Conv(CurrentEnv(), old(fieldStack), s, d)
      ensures r.Done? ==> fieldStack == old(fieldStack)
      decreases Size(s), 5
    {
      var sv := Indirect(s);
      if sv.None? {
        return Panic(NilSource);
      }
      var slot := MakeDstVal(d);
      var inner := ApplyKind(s, sv.value, slot);
      if inner.Panic? {
        return Panic(inner.fault);
      }
      r := Done(Refill(d, inner.value));
    }

    /** The switch of apply on the kind of the slot makeDstVal returned. */
    method ApplyKind(s: Value, sv: Value, d: Value) returns (r: Outcome<Value>)
      modifies this`fieldStack
      ensures r == ConvKind(CurrentEnv(), old(fieldStack), s, sv, d)
      ensures r.Done? ==> fieldStack == old(fieldStack)
      decreases Size(sv), 4
    {
      if d.VSlice? {
        r := ApplySlice(sv, d.elemType);
      } else if d.VArray? {
        r := ApplyArray(sv, d.elemType, d.elems);
      } else if d.VMap? {
        r := ApplyMap(sv, d.keyType, d.valType);
      } else {
        r := ApplyField(s, sv, d);
      }
    }

    /** The slice case of apply: a fresh slice of the source's length, filled element by element. */
    method ApplySlice(sv: Value, et: Type) returns (r: Outcome<Value>)
      modifies this`fieldStack
      ensures r == ConvSlice(CurrentEnv(), old(fieldStack), sv, et)
      ensures r.Done? ==> fieldStack == old(fieldStack)
      decreases Size(sv), 3
    {
      if !(sv.VSlice? || sv.VArray?) {
        return Panic(NotSequence);
      }
      ghost var e := CurrentEnv();
      var vals := [];
      var idx := 0;
      while idx < |sv.elems|
        invariant idx <= |sv.elems|
        invariant fieldStack == old(fieldStack) && e == CurrentEnv()
        invariant SliceFrom(e, fieldStack, sv, et, [], 0) == SliceFrom(e, fieldStack, sv, et, vals, idx)
      {
        ElemSmaller(sv, idx);
        var v := ApplySlot(sv.elems[idx], Zero(et));
        if v.Panic? {
          return Panic(v.fault);
        }
        vals := vals + [v.value];
        idx := idx + 1;
      }
      r := Done(VSlice(et, vals));
    }

    /** The array case of apply: the first min(len dst, len src) elements converted in place. */
    method ApplyArray(sv: Value, et: Type, es: seq<Value>) returns (r: Outcome<Value>)
      modifies this`fieldStack
      ensures r == ConvArray(CurrentEnv(), old(fieldStack), sv, et, es)
      ensures r.Done? ==> fieldStack == old(fieldStack)
      decreases Size(sv), 3
    {
      var srcLen := Len(sv);
      if srcLen.None? {
        return Panic(NotSequence);
      }
      var n := Min(|es|, srcLen.value);
      ghost var e := CurrentEnv();
      var vals := es;
      var idx := 0;
      while idx < n
        invariant idx <= n && |vals| == |es|
        invariant fieldStack == old(fieldStack) && e == CurrentEnv()
        invariant ArrayFrom(e, fieldStack, sv, es, 0, n) == ArrayFrom(e, fieldStack, sv, vals, idx, n)
      {
        var item := Index(sv, idx);
        if item.Panic? {
          return Panic(item.fault);
        }
        var v := ApplySlot(item.value, vals[idx]);
        if v.Panic? {
          return Panic(v.fault);
        }
        vals := vals[idx := v.value];
        idx := idx + 1;
      }
      r := Done(VArray(et, vals));
    }

    /** The map case of apply: a fresh map, one converted key and value per source entry. */
    method ApplyMap(sv: Value, kt: Type, vt: Type) returns (r: Outcome<Value>)
      modifies this`fieldStack
      ensures r == ConvMap(CurrentEnv(), old(fieldStack), sv, kt, vt)
      ensures r.Done? ==> fieldStack == old(fieldStack)
      decreases Size(sv), 3
    {
      if !sv.VMap? {
        return Panic(NotMap);
      }
      ghost var e := CurrentEnv();
      var ents := [];
      var idx := 0;
      while idx < |sv.entries|
        invariant idx <= |sv.entries|
        invariant fieldStack == old(fieldStack) && e == CurrentEnv()
        invariant MapFrom(e, fieldStack, sv, kt, vt, [], 0) == MapFrom(e, fieldStack, sv, kt, vt, ents, idx)
      {
        EntrySmaller(sv, idx);
        var k := ApplySlot(sv.entries[idx].0, Zero(kt));
        if k.Panic? {
          return Panic(k.fault);
        }
        var v := ApplySlot(sv.entries[idx].1, Zero(vt));
        if v.Panic? {
          return Panic(v.fault);
        }
        ents := SetMapIndex(ents, k.value, v.value);
        idx := idx + 1;
      }
      r := Done(VMap(kt, vt, ents));
    }

    /** applyField(src, srcVal, dstVal) */
    method ApplyField(s: Value, sv: Value, d: Value) returns (r: Outcome<Value>)
      modifies this`fieldStack
      ensures r == ConvField(CurrentEnv(), old(fieldStack), s, sv, d)
      ensures r.Done? ==> fieldStack == old(fieldStack)
      decreases Size(sv), 2, 1
    {
      ghost var e := CurrentEnv();
      var own := Get(convertMap.cmap, sv, d);
      if own.Some? {
        r := RunRule(host, timeFormat, own.value, sv, d);
      } else if TypeOf(sv) == TypeOf(d) {
        r := Done(sv);
      } else {
        r := ApplyUnowned(s, sv, d);
        assert e == CurrentEnv();
        assert ConvField(e, old(fieldStack), s, sv, d) == ConvUnowned(e, old(fieldStack), s, sv, d);
      }
    }

    /** applyField once neither the session's table nor a plain copy applies. */
    method ApplyUnowned(s: Value, sv: Value, d: Value) returns (r: Outcome<Value>)
      modifies this`fieldStack
      ensures r == ConvUnowned(CurrentEnv(), old(fieldStack), s, sv, d)
      ensures r.Done? ==> fieldStack == old(fieldStack)
      decreases Size(sv), 2, 0
    {
      ghost var e := CurrentEnv();
      var found := Get(global.cmap, sv, d);
      if found.Some? {
        r := RunRule(host, timeFormat, found.value, sv, d);
      } else if KindOf(TypeOf(d)) == KStruct {
        r := ApplyStruct(s, sv, d);
        assert e == CurrentEnv();
        assert ConvUnowned(e, old(fieldStack), s, sv, d) == ConvStruct(e, old(fieldStack), s, sv, d);
      } else {
        r := Done(d);
      }
    }

    /** applyStruct(src, srcVal, dstVal): the field loop. */
    method ApplyStruct(s: Value, sv: Value, d: Value) returns (r: Outcome<Value>)
      modifies this`fieldStack
      ensures r == ConvStruct(CurrentEnv(), old(fieldStack), s, sv, d)
      ensures r.Done? ==> fieldStack == old(fieldStack)
      decreases Size(sv), 1
    {
      if !d.VStruct? {
        return Done(d);
      }
      ghost var e := CurrentEnv();
      var fields := d.fields;
      var idx := 0;
      while idx < |fields|
        invariant idx <= |fields|
        invariant fieldStack == old(fieldStack) && e == CurrentEnv()
        invariant FieldsFrom(e, fieldStack, s, sv, d.styp, d.fields, 0) == FieldsFrom(e, fieldStack, s, sv, d.styp, fields, idx)
      {
        var v := ApplyStructField(s, sv, FieldName(d.styp, idx), fields[idx]);
        if v.Panic? {
          return Panic(v.fault);
        }
        fields := fields[idx := v.value];
        idx := idx + 1;
      }
      r := Done(VStruct(d.styp, fields));
    }

    /**
     * The body of applyStruct's loop for one field: skip an unexported field, call the
     * override for the path, or run makeDstVal and convert the source field of that name
     * with the name pushed on the field stack, popping it afterwards.
     */
    method ApplyStructField(s: Value, sv: Value, name: string, prior: Value) returns (r: Outcome<Value>)
      modifies this`fieldStack
      ensures r == FieldStep(CurrentEnv(), old(fieldStack), s, sv, name, prior)
      ensures r.Done? ==> fieldStack == old(fieldStack)
      decreases Size(sv), 0, 1
    {
      if !Exported(name) {
        r := Done(prior);
      } else if FieldPath(fieldStack, name) in fieldRules {
        r := CallOverride(host, fieldRules[FieldPath(fieldStack, name)], s, prior);
      } else {
        r := ApplyUnruledField(sv, name, prior);
      }
    }

    /** An exported field without an override: makeDstVal, then the source's field of that name, if any. */
    method ApplyUnruledField(sv: Value, name: string, prior: Value) returns (r: Outcome<Value>)
      requires Exported(name)
      modifies this`fieldStack
      ensures r == UnruledStep(CurrentEnv(), old(fieldStack), sv, name, prior)
      ensures r.Done? ==> fieldStack == old(fieldStack)
      decreases Size(sv), 0, 0
    {
      var slot := MakeDstVal(prior);
      var found := FieldByName(sv, name);
      if found.Panic? {
        r := Panic(found.fault);
      } else if found.value.None? {
        r := Done(Refill(prior, slot));
      } else {
        var v := ApplyFound(name, found.value.value, slot);
        r := if v.Panic? then Panic(v.fault) else Done(Refill(prior, v.value));
      }
    }

    /** A field found in the source: its name is pushed, the field applied, and the name popped again. */
    method ApplyFound(name: string, fv: Value, slot: Value) returns (r: Outcome<Value>)
      modifies this`fieldStack
      ensures r == Conv(CurrentEnv(), old(fieldStack) + [name], fv, slot)
      ensures r.Done? ==> fieldStack == old(fieldStack)
      decreases Size(fv), 6
    {
      fieldStack := fieldStack + [name];
      r := ApplySlot(fv, slot);
      if r.Done? {
        fieldStack := fieldStack[..|fieldStack| - 1];
      }
    }
  }
}
