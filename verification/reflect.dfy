/**
 * The closed universe of Go types and values that the conversion engine walks.
 * It stands in for the parts of package reflect the engine uses: a Type with its
 * Kind and its printed name, a Value that knows its Type, zero values, and the
 * reflect operations that panic on the wrong kind (Len, Index, FieldByName).
 */
module Reflect {

  datatype Option<T> = None | Some(value: T)

  /** Why a reflect operation (or a rule body) panicked. */
  datatype Fault =
    | NilSource          // an absent source (nil pointer) reaches Len/MapKeys/Type
    | NilDestination     // Apply on a nil pointer
    | NotSequence        // Len (or Cap) on a kind that has none
    | NotIndexable       // Index on a map
    | NotMap             // MapKeys on a non-map
    | NotStruct          // Type.FieldByName on a non-struct type
    | BadOverride        // Call of an override that does not take one argument or returns nothing
    | OverrideArgument   // the source is not assignable to the override's parameter
    | OverrideResult     // the override's result is not assignable to the field
    | RuleMismatch       // a rule body met a kind it cannot read or write

  /** A step that either produced a value or panicked. */
  datatype Outcome<T> = Done(value: T) | Panic(fault: Fault)

  /** reflect.Kind, restricted to the kinds of the model's types. */
  datatype Kind =
    | KInt | KInt8 | KInt16 | KInt32 | KInt64 | KUint8 | KFloat32 | KFloat64
    | KString | KStruct | KSlice | KArray | KMap | KPtr | KFunc | KInterface

  /** Signed integer widths; `int` is taken to be 64 bits wide. */
  datatype IntWidth = W | W8 | W16 | W32 | W64

  datatype FloatWidth = F32 | F64

  datatype Type =
    | TInt(width: IntWidth)
    | TUint8
    | TFloat(fwidth: FloatWidth)
    | TString
    | TTime                                   // time.Time, a struct with unexported fields
    | TStruct(name: string, fields: seq<FieldDecl>)
    | TSlice(elem: Type)
    | TArray(length: nat, elem: Type)
    | TMap(key: Type, elem: Type)
    | TPtr(elem: Type)
    | TFunc(ins: seq<Type>, outs: seq<Type>)
    | TInterface(name: string)

  datatype FieldDecl = FieldDecl(name: string, typ: Type)

  /** A time.Time as Unix seconds and nanoseconds (location and monotonic reading left out). */
  datatype Instant = Instant(sec: int, nsec: int)

  /** time.Time{}: January 1, year 1, 00:00:00 UTC. */
  const ZeroInstant := Instant(-62135596800, 0)

  /**
   * A Go value. A map is the list of its entries in the order `range` visits them;
   * a pointer owns its target (sharing between pointers is not modelled); a value of
   * function or interface type is VOpaque, its content not modelled.
   */
  datatype Value =
    | VInt(width: IntWidth, i: int)
    | VUint8(b: int)
    | VFloat(fwidth: FloatWidth, f: real)
    | VString(s: string)
    | VTime(t: Instant)
    | VStruct(styp: Type, fields: seq<Value>)
    | VSlice(elemType: Type, elems: seq<Value>)
    | VArray(elemType: Type, elems: seq<Value>)
    | VMap(keyType: Type, valType: Type, entries: seq<(Value, Value)>)
    | VPtr(elemType: Type, target: Option<Value>)
    | VOpaque(otyp: Type)

  function KindOf(t: Type): Kind
  {
    match t
    case TInt(w) => (match w case W => KInt case W8 => KInt8 case W16 => KInt16 case W32 => KInt32 case W64 => KInt64)
    case TUint8 => KUint8
    case TFloat(fw) => if fw == F32 then KFloat32 else KFloat64
    case TString => KString
    case TTime => KStruct
    case TStruct(_, _) => KStruct
    case TSlice(_) => KSlice
    case TArray(_, _) => KArray
    case TMap(_, _) => KMap
    case TPtr(_) => KPtr
    case TFunc(_, _) => KFunc
    case TInterface(_) => KInterface
  }

  function TypeOf(v: Value): Type
  {
    match v
    case VInt(w, _) => TInt(w)
    case VUint8(_) => TUint8
    case VFloat(fw, _) => TFloat(fw)
    case VString(_) => TString
    case VTime(_) => TTime
    case VStruct(t, _) => t
    case VSlice(et, _) => TSlice(et)
    case VArray(et, es) => TArray(|es|, et)
    case VMap(kt, vt, _) => TMap(kt, vt)
    case VPtr(et, _) => TPtr(et)
    case VOpaque(t) => t
  }

  /** reflect.Zero: nil for pointers, slices, maps, functions and interfaces. */
  function Zero(t: Type): Value
    decreases t
  {
    match t
    case TInt(w) => VInt(w, 0)
    case TUint8 => VUint8(0)
    case TFloat(fw) => VFloat(fw, 0.0)
    case TString => VString("")
    case TTime => VTime(ZeroInstant)
    case TStruct(_, fs) => VStruct(t, seq(|fs|, i requires 0 <= i < |fs| => Zero(fs[i].typ)))
    case TSlice(e) => VSlice(e, [])
    case TArray(n, e) => VArray(e, seq(n, _ => Zero(e)))
    case TMap(k, e) => VMap(k, e, [])
    case TPtr(e) => VPtr(e, None)
    case TFunc(_, _) => VOpaque(t)
    case TInterface(_) => VOpaque(t)
  }

  // ---------------------------------------------------------------------------
  // Integers

  /** Two to the power (bits of w) - 1: half the number of values of width w. */
  function Half(w: IntWidth): int
  {
    match w
    case W => 0x8000_0000_0000_0000 case W64 => 0x8000_0000_0000_0000
    case W8 => 0x80 case W16 => 0x8000 case W32 => 0x8000_0000
  }

  function MinInt(w: IntWidth): int { -Half(w) }

  function MaxInt(w: IntWidth): int { Half(w) - 1 }

  predicate InRange(w: IntWidth, n: int) { MinInt(w) <= n <= MaxInt(w) }

  /**
   * What reflect.Value.SetInt stores into an integer of width w: the two's-complement
   * truncation of n to Bits(w) bits.
   */
  function Narrow(w: IntWidth, n: int): (r: int)
    ensures InRange(w, r)
    ensures (r - n) % (2 * Half(w)) == 0
    ensures InRange(w, n) ==> r == n
  {
    var m := 2 * Half(w);
    (n + Half(w)) % m - Half(w)
  }

  // ---------------------------------------------------------------------------
  // Measures and well-formedness

  function SumNat(s: seq<nat>): nat
  {
    if |s| == 0 then 0 else s[0] + SumNat(s[1..])
  }

  lemma {:induction false} SumNatBound(s: seq<nat>, i: int)
    requires 0 <= i < |s|
    ensures s[i] <= SumNat(s)
  {
    if i > 0 {
      SumNatBound(s[1..], i - 1);
    }
  }

  /** The number of nodes of a value, counting a string as two so that its bytes are smaller. */
  function Size(v: Value): nat
  {
    match v
    case VString(_) => 2
    case VStruct(_, fs) => 1 + SumNat(seq(|fs|, i requires 0 <= i < |fs| => Size(fs[i])))
    case VSlice(_, es) => 1 + SumNat(seq(|es|, i requires 0 <= i < |es| => Size(es[i])))
    case VArray(_, es) => 1 + SumNat(seq(|es|, i requires 0 <= i < |es| => Size(es[i])))
    case VMap(_, _, es) => 1 + SumNat(seq(|es|, i requires 0 <= i < |es| => Size(es[i].0) + Size(es[i].1)))
    case VPtr(_, tgt) => if tgt.Some? then 1 + Size(tgt.value) else 1
    case _ => 1
  }

  lemma ElemSmaller(v: Value, i: int)
    requires v.VStruct? || v.VSlice? || v.VArray?
    requires v.VStruct? ==> 0 <= i < |v.fields|
    requires !v.VStruct? ==> 0 <= i < |v.elems|
    ensures v.VStruct? ==> Size(v.fields[i]) < Size(v)
    ensures !v.VStruct? ==> Size(v.elems[i]) < Size(v)
  {
    if v.VStruct? {
      var fs := v.fields;
      SumNatBound(seq(|fs|, j requires 0 <= j < |fs| => Size(fs[j])), i);
    } else {
      var es := v.elems;
      SumNatBound(seq(|es|, j requires 0 <= j < |es| => Size(es[j])), i);
    }
  }

  lemma EntrySmaller(v: Value, i: int)
    requires v.VMap? && 0 <= i < |v.entries|
    ensures Size(v.entries[i].0) < Size(v) && Size(v.entries[i].1) < Size(v)
  {
    var es := v.entries;
    SumNatBound(seq(|es|, j requires 0 <= j < |es| => Size(es[j].0) + Size(es[j].1)), i);
  }

  /** Every part of the value has the type its container declares, and integers fit their width. */
  predicate WellFormed(v: Value)
  {
    match v
    case VInt(w, n) => InRange(w, n)
    case VUint8(b) => 0 <= b < 256
    case VStruct(t, fs) =>
      && t.TStruct? && |fs| == |t.fields|
      && forall i :: 0 <= i < |fs| ==> WellFormed(fs[i]) && TypeOf(fs[i]) == t.fields[i].typ
    case VSlice(et, es) => forall i :: 0 <= i < |es| ==> WellFormed(es[i]) && TypeOf(es[i]) == et
    case VArray(et, es) => forall i :: 0 <= i < |es| ==> WellFormed(es[i]) && TypeOf(es[i]) == et
    case VMap(kt, vt, es) =>
      && (forall i :: 0 <= i < |es| ==>
            WellFormed(es[i].0) && TypeOf(es[i].0) == kt && WellFormed(es[i].1) && TypeOf(es[i].1) == vt)
      && DistinctKeys(es)
    case VPtr(et, tgt) => tgt.Some? ==> WellFormed(tgt.value) && TypeOf(tgt.value) == et
    case VOpaque(t) => t.TFunc? || t.TInterface?
    case _ => true
  }

  predicate DistinctKeys(es: seq<(Value, Value)>)
  {
    forall i, j :: 0 <= i < j < |es| ==> es[i].0 != es[j].0
  }

  lemma {:induction false} ZeroWellFormed(t: Type)
    ensures WellFormed(Zero(t)) && TypeOf(Zero(t)) == t
    decreases t
  {
    match t
    case TStruct(_, fs) =>
      forall i | 0 <= i < |fs| ensures WellFormed(Zero(fs[i].typ)) && TypeOf(Zero(fs[i].typ)) == fs[i].typ {
        ZeroWellFormed(fs[i].typ);
      }
    case TArray(n, e) => ZeroWellFormed(e);
    case _ =>
  }

  // ---------------------------------------------------------------------------
  // Names

  /** Go exports a name whose first letter is upper case (ASCII letters only here). */
  predicate Exported(name: string)
  {
    |name| > 0 && 'A' <= name[0] <= 'Z'
  }

  /** The field names of a struct-kind type, in declaration order (time.Time's are unexported). */
  function FieldNames(t: Type): seq<string>
    requires KindOf(t) == KStruct
  {
    if t.TTime? then ["wall", "ext", "loc"] else seq(|t.fields|, i requires 0 <= i < |t.fields| => t.fields[i].name)
  }

  function KindString(k: Kind): string
  {
    match k
    case KInt => "int" case KInt8 => "int8" case KInt16 => "int16" case KInt32 => "int32"
    case KInt64 => "int64" case KUint8 => "uint8" case KFloat32 => "float32" case KFloat64 => "float64"
    case KString => "string" case KStruct => "struct" case KSlice => "slice" case KArray => "array"
    case KMap => "map" case KPtr => "ptr" case KFunc => "func" case KInterface => "interface"
  }

  function DigitString(d: nat): string
    requires d < 10
  {
    ["0123456789"[d]]
  }

  function NatString(n: nat): string
  {
    if n < 10 then DigitString(n) else NatString(n / 10) + DigitString(n % 10)
  }

  function JoinList(parts: seq<string>, sep: string): string
  {
    if |parts| == 0 then "" else if |parts| == 1 then parts[0]
    else JoinList(parts[..|parts| - 1], sep) + sep + parts[|parts| - 1]
  }

  /** reflect.Type.String(). A named struct or interface prints as its qualified name. */
  function TypeString(t: Type): string
    decreases t
  {
    match t
    case TInt(w) => KindString(KindOf(t))
    case TUint8 => "uint8"
    case TFloat(_) => KindString(KindOf(t))
    case TString => "string"
    case TTime => "time.Time"
    case TStruct(name, _) => name
    case TSlice(e) => "[]" + TypeString(e)
    case TArray(n, e) => "[" + NatString(n) + "]" + TypeString(e)
    case TMap(k, e) => "map[" + TypeString(k) + "]" + TypeString(e)
    case TPtr(e) => "*" + TypeString(e)
    case TFunc(ins, outs) =>
      var inNames := seq(|ins|, i requires 0 <= i < |ins| => TypeString(ins[i]));
      var outNames := seq(|outs|, i requires 0 <= i < |outs| => TypeString(outs[i]));
      "func(" + JoinList(inNames, ", ") + ")"
      + (if |outs| == 0 then "" else if |outs| == 1 then " " + outNames[0] else " (" + JoinList(outNames, ", ") + ")")
    case TInterface(name) => name
  }

  // ---------------------------------------------------------------------------
  // reflect operations that panic on the wrong kind

  /** reflect.Indirect: the target of a pointer (None when it is nil), any other value itself. */
  function Indirect(v: Value): (r: Option<Value>)
    ensures r.None? <==> v.VPtr? && v.target.None?
    ensures r.Some? ==> Size(r.value) <= Size(v)
    ensures r.Some? && v.VPtr? ==> Size(r.value) < Size(v)
  {
    if v.VPtr? then v.target else Some(v)
  }

  /** reflect.Value.Len: defined for arrays, slices, strings and maps. */
  function Len(v: Value): Option<nat>
  {
    match v
    case VArray(_, es) => Some(|es|)
    case VSlice(_, es) => Some(|es|)
    case VString(s) => Some(|s|)
    case VMap(_, _, es) => Some(|es|)
    case _ => None
  }

  /** reflect.Value.Index: the i-th element of an array or slice, the i-th byte of a string. */
  function Index(v: Value, i: nat): (r: Outcome<Value>)
    requires Len(v).Some? && i < Len(v).value
    ensures r.Done? ==> Size(r.value) < Size(v)
    ensures r.Done? <==> !v.VMap?
  {
    match v
    case VArray(_, es) => ElemSmaller(v, i); Done(es[i])
    case VSlice(_, es) => ElemSmaller(v, i); Done(es[i])
    case VString(s) => Done(VUint8(s[i] as int))
    case VMap(_, _, _) => Panic(NotIndexable)
  }

  /**
   * reflect.Type.FieldByName followed by Value.FieldByName on the source: panics unless the
   * source has struct kind; finds the first field of that name. Only exported names are
   * ever looked up, and time.Time has none.
   */
  function FieldByName(v: Value, name: string): (r: Outcome<Option<Value>>)
    requires Exported(name)
    ensures r.Panic? <==> !(v.VStruct? || v.VTime?)
    ensures r.Done? && r.value.Some? ==> Size(r.value.value) < Size(v)
    ensures r.Done? && r.value.Some? ==>
              v.VStruct? &&
              exists j :: NamedAt(v, name, j) && r.value.value == v.fields[j] &&
                          forall l :: 0 <= l < j ==> !NamedAt(v, name, l)
    ensures v.VStruct? && (exists j :: NamedAt(v, name, j)) ==> r.Done? && r.value.Some?
  {
    match v
    case VStruct(t, fs) => Done(FindField(v, name, 0))
    case VTime(_) => Done(None)
    case _ => Panic(NotStruct)
  }

  /** Field j of struct value v exists, in both the value and its type, and is called name. */
  predicate NamedAt(v: Value, name: string, j: int)
    requires v.VStruct?
  {
    v.styp.TStruct? && 0 <= j < |v.fields| && j < |v.styp.fields| && v.styp.fields[j].name == name
  }

  /** The first field from position j on called name. */
  function FindField(v: Value, name: string, j: nat): (r: Option<Value>)
    requires v.VStruct?
    ensures r.Some? ==> Size(r.value) < Size(v)
    ensures r.Some? ==>
              exists k :: j <= k && NamedAt(v, name, k) && r.value == v.fields[k] &&
                          forall l :: j <= l < k ==> !NamedAt(v, name, l)
    ensures (exists k :: j <= k && NamedAt(v, name, k)) ==> r.Some?
    decreases |v.fields| - j
  {
    var t, fs := v.styp, v.fields;
    if j >= |fs| || !t.TStruct? || j >= |t.fields| then None
    else if t.fields[j].name == name then ElemSmaller(v, j); Some(fs[j])
    else FindField(v, name, j + 1)
  }

  // ---------------------------------------------------------------------------
  // Map entries

  /** The keys present in an entry list. */
  function KeySet(es: seq<(Value, Value)>): set<Value>
  {
    if |es| == 0 then {} else {es[0].0} + KeySet(es[1..])
  }

  lemma {:induction false} KeySetIndex(es: seq<(Value, Value)>, k: Value)
    ensures k in KeySet(es) <==> exists i :: 0 <= i < |es| && es[i].0 == k
  {
    if |es| > 0 {
      KeySetIndex(es[1..], k);
      if k in KeySet(es[1..]) {
        var i :| 0 <= i < |es[1..]| && es[1..][i].0 == k;
        assert es[i + 1].0 == k;
      }
      if exists i :: 0 <= i < |es| && es[i].0 == k {
        var i :| 0 <= i < |es| && es[i].0 == k;
        if i > 0 {
          assert es[1..][i - 1].0 == k;
        }
      }
    }
  }

  /** reflect.Value.MapIndex: the value stored under k, if any. */
  function MapIndex(es: seq<(Value, Value)>, k: Value): (r: Option<Value>)
    ensures r.Some? <==> k in KeySet(es)
  {
    if |es| == 0 then None else if es[0].0 == k then Some(es[0].1) else MapIndex(es[1..], k)
  }

  /** The value MapIndex finds is the one paired with the first entry holding k. */
  lemma {:induction false} MapIndexFirst(es: seq<(Value, Value)>, k: Value)
    requires MapIndex(es, k).Some?
    ensures exists j :: 0 <= j < |es| && es[j] == (k, MapIndex(es, k).value) && forall i :: 0 <= i < j ==> es[i].0 != k
  {
    if es[0].0 != k {
      MapIndexFirst(es[1..], k);
      var j :| 0 <= j < |es[1..]| && es[1..][j] == (k, MapIndex(es[1..], k).value) &&
               forall i :: 0 <= i < j ==> es[1..][i].0 != k;
      assert es[j + 1] == (k, MapIndex(es, k).value);
      forall i | 0 <= i < j + 1 ensures es[i].0 != k {
        if i > 0 {
          assert es[i] == es[1..][i - 1];
        }
      }
    } else {
      assert es[0] == (k, MapIndex(es, k).value);
    }
  }

  /**
   * reflect.Value.SetMapIndex: k now maps to v, every other key keeps its value, and
   * the entry list grows by one exactly when k was absent.
   */
  function SetMapIndex(es: seq<(Value, Value)>, k: Value, v: Value): (r: seq<(Value, Value)>)
    ensures MapIndex(r, k) == Some(v)
    ensures forall k' :: k' != k ==> MapIndex(r, k') == MapIndex(es, k')
    ensures KeySet(r) == KeySet(es) + {k}
    ensures |r| == if k in KeySet(es) then |es| else |es| + 1
    ensures forall i :: 0 <= i < |r| ==> r[i] in es || r[i] == (k, v)
    ensures DistinctKeys(es) ==> DistinctKeys(r)
  {
    if |es| == 0 then [(k, v)]
    else if es[0].0 == k then [(k, v)] + es[1..]
    else
      var rest := SetMapIndex(es[1..], k, v);
      assert DistinctKeys(es) ==> DistinctKeys([es[0]] + rest) by {
        if DistinctKeys(es) {
          KeySetIndex(es[1..], es[0].0);
          KeySetIndex(rest, es[0].0);
        }
      }
      [es[0]] + rest
  }

  /** Storing under a key the entries do not hold appends the pair. */
  lemma {:induction false} SetMapIndexFresh(es: seq<(Value, Value)>, k: Value, v: Value)
    requires k !in KeySet(es)
    ensures SetMapIndex(es, k, v) == es + [(k, v)]
  {
    if |es| > 0 {
      SetMapIndexFresh(es[1..], k, v);
      assert es == [es[0]] + es[1..];
    }
  }
}
