/**
 * Key naming and the built-in table: a kind's name never equals a type's, a key splits
 * back into its two names, the table holds for each key the rule of the last
 * registration whose cross product contains it, and the lookups the built-in rules
 * exist for find them.
 */
module Builtins {
  import opened Reflect
  import opened Rules
  import opened Convertor
  import opened Laws

  // ---------------------------------------------------------------------------
  // Names and keys

  /** typeName tags kinds and types differently, so a kind key never collides with a type key. */
  lemma TagsApart(a: Descriptor, b: Descriptor)
    requires Nameable(a) && Nameable(b) && a.DKind? && !b.DKind?
    ensures TypeName(a) != TypeName(b)
  {
    assert TypeName(a)[0] == 'K';
    assert TypeName(b)[0] == 'T';
  }

  /** A reflect.Value names as its type. */
  lemma ValueNamesAsType(v: Value)
    ensures TypeName(DValue(v)) == TypeName(DType(TypeOf(v)))
  {
  }

  /** An instance names as its type, except that a pointer such as new(time.Time) names as its pointee type. */
  lemma InstanceNames(v: Value)
    requires Nameable(DInstance(v))
    ensures v.VPtr? ==> TypeName(DInstance(v)) == TypeName(DType(v.elemType))
    ensures !v.VPtr? ==> TypeName(DInstance(v)) == TypeName(DType(TypeOf(v)))
  {
  }

  /** Where the shorter first part of two equal joins ends, the longer one holds a colon. */
  lemma ColonAt(x: string, y: string, x': string, y': string)
    requires x + ":" + y == x' + ":" + y'
    ensures |x| < |x'| ==> x'[|x|] == ':'
    ensures |x'| < |x| ==> x[|x'|] == ':'
  {
    var s := x + ":" + y;
    if |x| < |x'| {
      assert s[|x|] == ':';
      assert s[|x|] == x'[|x|];
    } else if |x'| < |x| {
      assert s[|x'|] == ':';
      assert s[|x'|] == x[|x'|];
    }
  }

  /** Two strings joined by a colon split back when the first part holds no colon. */
  lemma ColonSplit(x: string, y: string, x': string, y': string)
    requires ':' !in x && ':' !in x'
    requires x + ":" + y == x' + ":" + y'
    ensures x == x' && y == y'
  {
    var s := x + ":" + y;
    ColonAt(x, y, x', y');
    assert x == s[..|x|] == x';
    assert y == s[|x| + 1..] == y';
  }

  /** key is injective on pairs whose source names hold no colon. */
  lemma KeyInjective(a: Descriptor, b: Descriptor, c: Descriptor, d: Descriptor)
    requires Nameable(a) && Nameable(b) && Nameable(c) && Nameable(d)
    requires ':' !in TypeName(a) && ':' !in TypeName(c)
    ensures Key(a, b) == Key(c, d) <==> TypeName(a) == TypeName(c) && TypeName(b) == TypeName(d)
  {
    var na, nb, nc, nd := TypeName(a), TypeName(b), TypeName(c), TypeName(d);
    assert Key(a, b) == na + ":" + nb && Key(c, d) == nc + ":" + nd;
    if na + ":" + nb == nc + ":" + nd {
      ColonSplit(na, nb, nc, nd);
    }
  }

  // ---------------------------------------------------------------------------
  // The built-in table

  /** The pair (a, b) misses the cross product ins x outs on its source name or on its destination name. */
  predicate Avoids(a: Descriptor, b: Descriptor, ins: seq<Descriptor>, outs: seq<Descriptor>)
    requires Nameable(a) && Nameable(b) && AllNameable(ins) && AllNameable(outs)
  {
    || (forall i :: 0 <= i < |ins| ==> TypeName(ins[i]) != TypeName(a))
    || (forall o :: 0 <= o < |outs| ==> TypeName(outs[o]) != TypeName(b))
  }

  predicate ColonFree(ds: seq<Descriptor>)
    requires AllNameable(ds)
  {
    forall i :: 0 <= i < |ds| ==> ':' !in TypeName(ds[i])
  }

  lemma NotInCross(a: Descriptor, b: Descriptor, ins: seq<Descriptor>, outs: seq<Descriptor>)
    requires Nameable(a) && Nameable(b) && AllNameable(ins) && AllNameable(outs)
    requires ':' !in TypeName(a) && ColonFree(ins) && Avoids(a, b, ins, outs)
    ensures Key(a, b) !in CrossKeys(ins, outs)
  {
    if Key(a, b) in CrossKeys(ins, outs) {
      var i, o :| 0 <= i < |ins| && 0 <= o < |outs| && Key(a, b) == Key(ins[i], outs[o]);
      KeyInjective(a, b, ins[i], outs[o]);
      assert false;
    }
  }

  lemma InCross(ins: seq<Descriptor>, outs: seq<Descriptor>, i: nat, o: nat)
    requires AllNameable(ins) && AllNameable(outs) && i < |ins| && o < |outs|
    ensures Key(ins[i], outs[o]) in CrossKeys(ins, outs)
  {
  }

  /**
   * The reference reading of init: the rule of the last registration whose cross
   * product contains k, looking from the last registration back.
   */
  function LastRegistered(k: string): Option<RuleId>
  {
    if k in CrossKeys(TimeTypes, StringKinds) then Some(BuiltinRule(TimeToString))
    else if k in CrossKeys(StringKinds, TimeTypes) then Some(BuiltinRule(StringToTime))
    else if k in CrossKeys(TimeTypes, TimeIntKinds) then Some(BuiltinRule(TimeToInt))
    else if k in CrossKeys(TimeIntKinds, TimeTypes) then Some(BuiltinRule(IntToTime))
    else if k in CrossKeys(StringKinds, StringKinds) then Some(BuiltinRule(StringToString))
    else if k in CrossKeys(FloatKinds, FloatKinds) then Some(BuiltinRule(FloatToFloat))
    else if k in CrossKeys(IntKinds, IntKinds) then Some(BuiltinRule(IntToInt))
    else None
  }

  /** RegisterLaw at one key. */
  lemma RegisterAt(table: Table, ins: seq<Descriptor>, outs: seq<Descriptor>, f: RuleId, k: string)
    requires AllNameable(ins) && AllNameable(outs)
    ensures k in Register(table, ins, outs, f) <==> k in table || k in CrossKeys(ins, outs)
    ensures k in CrossKeys(ins, outs) ==> Register(table, ins, outs, f)[k] == f
    ensures k in table && k !in CrossKeys(ins, outs) ==> Register(table, ins, outs, f)[k] == table[k]
  {
    RegisterLaw(table, ins, outs, f);
  }

  /** The table init builds holds exactly the keys some registration names, each with the last one's rule. */
  lemma BuiltinTableLaw(k: string)
    ensures k in BuiltinTable() <==> LastRegistered(k).Some?
    ensures k in BuiltinTable() ==> BuiltinTable()[k] == LastRegistered(k).value
  {
    var t1 := Register(map[], IntKinds, IntKinds, BuiltinRule(IntToInt));
    var t2 := Register(t1, FloatKinds, FloatKinds, BuiltinRule(FloatToFloat));
    var t3 := Register(t2, StringKinds, StringKinds, BuiltinRule(StringToString));
    var t4 := Register(t3, TimeIntKinds, TimeTypes, BuiltinRule(IntToTime));
    var t5 := Register(t4, TimeTypes, TimeIntKinds, BuiltinRule(TimeToInt));
    var t6 := Register(t5, StringKinds, TimeTypes, BuiltinRule(StringToTime));
    var t7 := Register(t6, TimeTypes, StringKinds, BuiltinRule(TimeToString));
    assert BuiltinTable() == t7;
    RegisterAt(map[], IntKinds, IntKinds, BuiltinRule(IntToInt), k);
    RegisterAt(t1, FloatKinds, FloatKinds, BuiltinRule(FloatToFloat), k);
    RegisterAt(t2, StringKinds, StringKinds, BuiltinRule(StringToString), k);
    RegisterAt(t3, TimeIntKinds, TimeTypes, BuiltinRule(IntToTime), k);
    RegisterAt(t4, TimeTypes, TimeIntKinds, BuiltinRule(TimeToInt), k);
    RegisterAt(t5, StringKinds, TimeTypes, BuiltinRule(StringToTime), k);
    RegisterAt(t6, TimeTypes, StringKinds, BuiltinRule(TimeToString), k);
  }

  lemma KindNameColonFree(k: Kind)
    ensures ':' !in TypeName(DKind(k))
  {
  }

  /** The names of kind descriptors hold no colon and differ from every type name. */
  lemma KindsApart(a: Descriptor, b: Descriptor, ins: seq<Descriptor>, outs: seq<Descriptor>)
    requires Nameable(a) && Nameable(b) && !a.DKind? && AllNameable(outs)
    requires forall i :: 0 <= i < |ins| ==> ins[i].DKind?
    ensures AllNameable(ins) && ColonFree(ins) && Avoids(a, b, ins, outs)
    ensures forall i :: 0 <= i < |ins| ==> TypeName(ins[i]) != TypeName(a)
  {
    forall i | 0 <= i < |ins| ensures ':' !in TypeName(ins[i]) && TypeName(ins[i]) != TypeName(a) {
      KindNameColonFree(ins[i].k);
      TagsApart(ins[i], a);
    }
  }

  /** The name of time.Time as init registers it: new(time.Time) names as its pointee. */
  lemma TimeName()
    ensures AllNameable(TimeTypes) && |TimeTypes| == 1 && TypeName(TimeTypes[0]) == "TYPE-time.Time"
    ensures ColonFree(TimeTypes)
  {
  }

  /** The kind and time lists init registers name no colon. */
  lemma ListsColonFree()
    ensures AllNameable(IntKinds) && ColonFree(IntKinds) && AllNameable(FloatKinds) && ColonFree(FloatKinds)
    ensures AllNameable(StringKinds) && ColonFree(StringKinds) && AllNameable(TimeIntKinds) && ColonFree(TimeIntKinds)
    ensures AllNameable(TimeTypes) && ColonFree(TimeTypes)
  {
    KindsColonFree(IntKinds);
    KindsColonFree(FloatKinds);
    KindsColonFree(StringKinds);
    KindsColonFree(TimeIntKinds);
    TimeName();
  }

  /** A pair that misses each of the seven registrations on one side or the other is in none of them. */
  lemma NoCross(a: Descriptor, b: Descriptor)
    requires Nameable(a) && Nameable(b) && ':' !in TypeName(a)
    requires Avoids(a, b, IntKinds, IntKinds) && Avoids(a, b, FloatKinds, FloatKinds)
    requires Avoids(a, b, StringKinds, StringKinds) && Avoids(a, b, TimeIntKinds, TimeTypes)
    requires Avoids(a, b, StringKinds, TimeTypes) && Avoids(a, b, TimeTypes, TimeIntKinds)
    requires Avoids(a, b, TimeTypes, StringKinds)
    ensures LastRegistered(Key(a, b)).None?
  {
    ListsColonFree();
    NotInCross(a, b, IntKinds, IntKinds);
    NotInCross(a, b, FloatKinds, FloatKinds);
    NotInCross(a, b, StringKinds, StringKinds);
    NotInCross(a, b, TimeIntKinds, TimeTypes);
    NotInCross(a, b, StringKinds, TimeTypes);
    NotInCross(a, b, TimeTypes, TimeIntKinds);
    NotInCross(a, b, TimeTypes, StringKinds);
  }

  /** Such a pair has no rule in the built-in table. */
  lemma Unregistered(a: Descriptor, b: Descriptor)
    requires Nameable(a) && Nameable(b) && ':' !in TypeName(a)
    requires Avoids(a, b, IntKinds, IntKinds) && Avoids(a, b, FloatKinds, FloatKinds)
    requires Avoids(a, b, StringKinds, StringKinds) && Avoids(a, b, TimeIntKinds, TimeTypes)
    requires Avoids(a, b, StringKinds, TimeTypes) && Avoids(a, b, TimeTypes, TimeIntKinds)
    requires Avoids(a, b, TimeTypes, StringKinds)
    ensures Key(a, b) !in BuiltinTable()
  {
    NoCross(a, b);
    BuiltinTableLaw(Key(a, b));
  }

  /** A key whose source is a type other than time.Time is not in the built-in table. */
  lemma TypeSourceAbsent(t: Type, b: Descriptor)
    requires Nameable(b) && ':' !in TypeName(DType(t)) && TypeName(DType(t)) != "TYPE-time.Time"
    ensures Key(DType(t), b) !in BuiltinTable()
  {
    var a := DType(t);
    KindsApart(a, b, IntKinds, IntKinds);
    KindsApart(a, b, FloatKinds, FloatKinds);
    KindsApart(a, b, StringKinds, StringKinds);
    KindsApart(a, b, TimeIntKinds, TimeTypes);
    KindsApart(a, b, StringKinds, TimeTypes);
    TimeName();
    Unregistered(a, b);
  }

  /** Reads a kind back from its name. */
  function KindNamed(s: string): Option<Kind>
  {
    if s == "int" then Some(KInt) else if s == "int8" then Some(KInt8)
    else if s == "int16" then Some(KInt16) else if s == "int32" then Some(KInt32)
    else if s == "int64" then Some(KInt64) else if s == "uint8" then Some(KUint8)
    else if s == "float32" then Some(KFloat32) else if s == "float64" then Some(KFloat64)
    else if s == "string" then Some(KString) else if s == "struct" then Some(KStruct)
    else if s == "slice" then Some(KSlice) else if s == "array" then Some(KArray)
    else if s == "map" then Some(KMap) else if s == "ptr" then Some(KPtr)
    else if s == "func" then Some(KFunc) else if s == "interface" then Some(KInterface)
    else None
  }

  lemma KindNamedInverts(k: Kind)
    ensures KindNamed(KindString(k)) == Some(k)
  {
  }

  /** Distinct kinds have distinct names. */
  lemma KindNamesApart(k1: Kind, k2: Kind)
    requires k1 != k2
    ensures TypeName(DKind(k1)) != TypeName(DKind(k2))
  {
    KindNamedInverts(k1);
    KindNamedInverts(k2);
    assert TypeName(DKind(k1))[5..] == KindString(k1);
    assert TypeName(DKind(k2))[5..] == KindString(k2);
  }

  lemma KindStringColonFree(k: Kind)
    ensures ':' !in KindString(k)
  {
    KindNameColonFree(k);
    assert TypeName(DKind(k)) == "KIND-" + KindString(k);
  }

  /** Integer, float and string types print as their kind's name. */
  lemma ScalarTypeName(t: Type)
    requires t.TInt? || t.TFloat? || t.TString?
    ensures TypeName(DType(t)) == "TYPE-" + KindString(KindOf(t))
    ensures ':' !in TypeName(DType(t)) && TypeName(DType(t)) != "TYPE-time.Time"
  {
    KindStringColonFree(KindOf(t));
    KindNamedInverts(KindOf(t));
    assert TypeName(DType(t))[5..] == KindString(KindOf(t));
  }

  /** Kind descriptors none of which is the kind k. */
  predicate OtherKinds(ds: seq<Descriptor>, k: Kind)
  {
    forall i :: 0 <= i < |ds| ==> ds[i].DKind? && ds[i].k != k
  }

  lemma OtherKindsApart(ds: seq<Descriptor>, k: Kind)
    requires OtherKinds(ds, k)
    ensures AllNameable(ds) && ColonFree(ds)
    ensures forall i :: 0 <= i < |ds| ==> TypeName(ds[i]) != TypeName(DKind(k))
  {
    forall i | 0 <= i < |ds| ensures ':' !in TypeName(ds[i]) && TypeName(ds[i]) != TypeName(DKind(k)) {
      KindNameColonFree(ds[i].k);
      KindNamesApart(ds[i].k, k);
    }
  }

  lemma KindsColonFree(ds: seq<Descriptor>)
    requires forall i :: 0 <= i < |ds| ==> ds[i].DKind?
    ensures AllNameable(ds) && ColonFree(ds)
  {
    forall i | 0 <= i < |ds| ensures ':' !in TypeName(ds[i]) {
      KindNameColonFree(ds[i].k);
    }
  }

  /** A kind-to-type key is absent unless the type is time.Time. */
  lemma KindToTypeAbsent(k: Kind, t: Type)
    requires TypeName(DType(t)) != "TYPE-time.Time"
    ensures Key(DKind(k), DType(t)) !in BuiltinTable()
  {
    var a, b := DKind(k), DType(t);
    KindNameColonFree(k);
    TimeName();
    TagsApart(a, TimeTypes[0]);
    ListsColonFree();
    KindsApart(b, a, IntKinds, IntKinds);
    KindsApart(b, a, FloatKinds, FloatKinds);
    KindsApart(b, a, StringKinds, StringKinds);
    KindsApart(b, a, TimeIntKinds, TimeIntKinds);
    Unregistered(a, b);
  }

  predicate IsIntKind(k: Kind)
  {
    k == KInt || k == KInt8 || k == KInt16 || k == KInt32 || k == KInt64
  }

  /** The kinds time.Time converts to and from: int, int32 and int64. */
  predicate IsTimeIntKind(k: Kind)
  {
    k == KInt || k == KInt32 || k == KInt64
  }

  /** Where an integer kind stands in IntKinds. */
  function IntKindIndex(k: Kind): (i: nat)
    requires IsIntKind(k)
    ensures i < |IntKinds| && IntKinds[i] == DKind(k)
  {
    if k == KInt then 0 else if k == KInt8 then 1 else if k == KInt16 then 2 else if k == KInt32 then 3 else 4
  }

  /** Where a kind time.Time converts with stands in TimeIntKinds. */
  function TimeIntKindIndex(k: Kind): (i: nat)
    requires IsTimeIntKind(k)
    ensures i < |TimeIntKinds| && TimeIntKinds[i] == DKind(k)
  {
    if k == KInt then 0 else if k == KInt32 then 1 else 2
  }

  /** Every pair of integer kinds is registered with the integer rule, and no later registration replaces it. */
  lemma IntPairEntry(k1: Kind, k2: Kind)
    requires IsIntKind(k1) && IsIntKind(k2)
    ensures Key(DKind(k1), DKind(k2)) in BuiltinTable()
    ensures BuiltinTable()[Key(DKind(k1), DKind(k2))] == BuiltinRule(IntToInt)
  {
    KindsColonFree(IntKinds);
    InCross(IntKinds, IntKinds, IntKindIndex(k1), IntKindIndex(k2));
    IntPairNotLater(k1, k2);
    BuiltinTableLaw(Key(DKind(k1), DKind(k2)));
  }

  /** No registration after the integer one names a pair of integer kinds. */
  lemma IntPairNotLater(k1: Kind, k2: Kind)
    requires IsIntKind(k1)
    ensures Key(DKind(k1), DKind(k2)) !in CrossKeys(FloatKinds, FloatKinds)
    ensures Key(DKind(k1), DKind(k2)) !in CrossKeys(StringKinds, StringKinds)
    ensures Key(DKind(k1), DKind(k2)) !in CrossKeys(TimeIntKinds, TimeTypes)
    ensures Key(DKind(k1), DKind(k2)) !in CrossKeys(StringKinds, TimeTypes)
    ensures Key(DKind(k1), DKind(k2)) !in CrossKeys(TimeTypes, TimeIntKinds)
    ensures Key(DKind(k1), DKind(k2)) !in CrossKeys(TimeTypes, StringKinds)
  {
    var a, b := DKind(k1), DKind(k2);
    KindNameColonFree(k1);
    TimeName();
    TagsApart(a, TimeTypes[0]);
    TagsApart(b, TimeTypes[0]);
    OtherKindsApart(FloatKinds, k1);
    OtherKindsApart(StringKinds, k1);
    KindsColonFree(TimeIntKinds);
    NotInCross(a, b, FloatKinds, FloatKinds);
    NotInCross(a, b, StringKinds, StringKinds);
    NotInCross(a, b, TimeIntKinds, TimeTypes);
    NotInCross(a, b, StringKinds, TimeTypes);
    NotInCross(a, b, TimeTypes, TimeIntKinds);
    NotInCross(a, b, TimeTypes, StringKinds);
  }

  /** int, int32 and int64 are registered with the rule to time.Time, and no later registration replaces it. */
  lemma IntTimeEntry(k: Kind)
    requires IsTimeIntKind(k)
    ensures Key(DKind(k), DType(TTime)) in BuiltinTable()
    ensures BuiltinTable()[Key(DKind(k), DType(TTime))] == BuiltinRule(IntToTime)
  {
    var a, b := DKind(k), DType(TTime);
    KindNameColonFree(k);
    TimeName();
    assert Key(a, b) == Key(a, TimeTypes[0]);
    TagsApart(a, TimeTypes[0]);
    OtherKindsApart(StringKinds, k);
    InCross(TimeIntKinds, TimeTypes, TimeIntKindIndex(k), 0);
    NotInCross(a, b, StringKinds, TimeTypes);
    NotInCross(a, b, TimeTypes, TimeIntKinds);
    NotInCross(a, b, TimeTypes, StringKinds);
    BuiltinTableLaw(Key(a, b));
  }

  /** time.Time is registered with the rule to int, int32 and int64, and no later registration replaces it. */
  lemma TimeIntEntry(k: Kind)
    requires IsTimeIntKind(k)
    ensures Key(DType(TTime), DKind(k)) in BuiltinTable()
    ensures BuiltinTable()[Key(DType(TTime), DKind(k))] == BuiltinRule(TimeToInt)
  {
    var a, b := DType(TTime), DKind(k);
    TimeName();
    assert Key(a, b) == Key(TimeTypes[0], b);
    TagsApart(StringKinds[0], a);
    KindsColonFree(StringKinds);
    OtherKindsApart(StringKinds, k);
    InCross(TimeTypes, TimeIntKinds, 0, TimeIntKindIndex(k));
    NotInCross(a, b, StringKinds, TimeTypes);
    NotInCross(a, b, TimeTypes, StringKinds);
    BuiltinTableLaw(Key(a, b));
  }

  /** A time.Time-to-type key is absent: time.Time only converts to kinds. */
  lemma TimeToTypeAbsent(t: Type)
    ensures Key(DType(TTime), DType(t)) !in BuiltinTable()
  {
    var a, b := DType(TTime), DType(t);
    TimeName();
    assert TypeName(a) == TypeName(TimeTypes[0]);
    KindsApart(a, b, IntKinds, IntKinds);
    KindsApart(a, b, FloatKinds, FloatKinds);
    KindsApart(a, b, StringKinds, StringKinds);
    KindsApart(a, b, TimeIntKinds, TimeTypes);
    KindsApart(a, b, StringKinds, TimeTypes);
    KindsApart(b, a, TimeIntKinds, TimeIntKinds);
    KindsApart(b, a, StringKinds, StringKinds);
    Unregistered(a, b);
  }

  // ---------------------------------------------------------------------------
  // Lookups in the built-in table

  /** Between two integers Get finds the integer rule, at the (Kind,Kind) probe. */
  lemma IntRuleFound(w1: IntWidth, i: int, w2: IntWidth, j: int)
    ensures Get(BuiltinTable(), VInt(w1, i), VInt(w2, j)) == Some(BuiltinRule(IntToInt))
  {
    var st, dt := TInt(w1), TInt(w2);
    var k1, k2 := KindOf(st), KindOf(dt);
    var ks := ProbeKeys(st, dt);
    assert Probes(st, dt) == [(DType(st), DType(dt)), (DType(st), DKind(k2)), (DKind(k1), DType(dt)), (DKind(k1), DKind(k2))];
    ProbeKeysLaw(st, dt);
    ScalarTypeName(st);
    ScalarTypeName(dt);
    TypeSourceAbsent(st, DType(dt));
    TypeSourceAbsent(st, DKind(k2));
    KindToTypeAbsent(k1, dt);
    IntPairEntry(k1, k2);
    assert FirstPresent(BuiltinTable(), ks, 3) == Some(BuiltinRule(IntToInt));
    assert FirstPresent(BuiltinTable(), ks, 2) == Some(BuiltinRule(IntToInt));
    assert FirstPresent(BuiltinTable(), ks, 1) == Some(BuiltinRule(IntToInt));
  }

  /** From int, int32 or int64 to time.Time Get finds the rule to time, at the (Kind,Type) probe. */
  lemma IntTimeFound(w: IntWidth, i: int, t: Instant)
    requires IsTimeIntKind(KindOf(TInt(w)))
    ensures Get(BuiltinTable(), VInt(w, i), VTime(t)) == Some(BuiltinRule(IntToTime))
  {
    var st, k := TInt(w), KindOf(TInt(w));
    var ks := ProbeKeys(st, TTime);
    assert Probes(st, TTime) == [(DType(st), DType(TTime)), (DKind(k), DType(TTime))];
    ProbeKeysLaw(st, TTime);
    ScalarTypeName(st);
    TypeSourceAbsent(st, DType(TTime));
    IntTimeEntry(k);
    assert FirstPresent(BuiltinTable(), ks, 1) == Some(BuiltinRule(IntToTime));
  }

  /** From time.Time to int, int32 or int64 Get finds the rule to integers, at the (Type,Kind) probe. */
  lemma TimeIntFound(t: Instant, w: IntWidth, j: int)
    requires IsTimeIntKind(KindOf(TInt(w)))
    ensures Get(BuiltinTable(), VTime(t), VInt(w, j)) == Some(BuiltinRule(TimeToInt))
  {
    var dt, k := TInt(w), KindOf(TInt(w));
    var ks := ProbeKeys(TTime, dt);
    assert Probes(TTime, dt) == [(DType(TTime), DType(dt)), (DType(TTime), DKind(k))];
    ProbeKeysLaw(TTime, dt);
    TimeToTypeAbsent(dt);
    TimeIntEntry(k);
    assert FirstPresent(BuiltinTable(), ks, 1) == Some(BuiltinRule(TimeToInt));
  }

  // ---------------------------------------------------------------------------
  // The built-in rules at work, in a session without rules of its own

  /** An integer converts into any integer slot as its value narrowed to the slot's width. */
  lemma IntConversion(e: Env, stack: seq<string>, w1: IntWidth, i: int, w2: IntWidth, j: int)
    requires e.rules == map[] && e.global == BuiltinTable() && InRange(w1, i)
    ensures Conv(e, stack, VInt(w1, i), VInt(w2, j)) == Done(VInt(w2, Narrow(w2, i)))
  {
    var x, y := VInt(w1, i), VInt(w2, j);
    GetEmpty(x, y);
    assert Conv(e, stack, x, y) == ConvField(e, stack, x, x, y);
    if w1 != w2 {
      IntRuleFound(w1, i, w2, j);
      assert ConvField(e, stack, x, x, y) == ConvUnowned(e, stack, x, x, y);
    }
  }

  /** int, int32 and int64 convert into time.Time as that many Unix seconds. */
  lemma IntToTimeConversion(e: Env, stack: seq<string>, w: IntWidth, i: int, t: Instant)
    requires e.rules == map[] && e.global == BuiltinTable() && IsTimeIntKind(KindOf(TInt(w)))
    ensures Conv(e, stack, VInt(w, i), VTime(t)) == Done(VTime(Instant(i, 0)))
  {
    var x, y := VInt(w, i), VTime(t);
    GetEmpty(x, y);
    IntTimeFound(w, i, t);
    assert Conv(e, stack, x, y) == ConvField(e, stack, x, x, y);
    assert ConvField(e, stack, x, x, y) == ConvUnowned(e, stack, x, x, y);
  }

  /** time.Time converts into int, int32 and int64 as its Unix seconds, narrowed to the width. */
  lemma TimeToIntConversion(e: Env, stack: seq<string>, t: Instant, w: IntWidth, j: int)
    requires e.rules == map[] && e.global == BuiltinTable() && IsTimeIntKind(KindOf(TInt(w)))
    ensures Conv(e, stack, VTime(t), VInt(w, j)) == Done(VInt(w, Narrow(w, t.sec)))
  {
    var x, y := VTime(t), VInt(w, j);
    GetEmpty(x, y);
    TimeIntFound(t, w, j);
    assert Conv(e, stack, x, y) == ConvField(e, stack, x, x, y);
    assert ConvField(e, stack, x, x, y) == ConvUnowned(e, stack, x, x, y);
  }

  /** An int64 (or int, or int32) sent to time.Time and back comes back unchanged. */
  lemma UnixSecondsRoundTrip(e: Env, stack: seq<string>, w: IntWidth, i: int, t: Instant, j: int)
    requires e.rules == map[] && e.global == BuiltinTable() && IsTimeIntKind(KindOf(TInt(w))) && InRange(w, i)
    ensures Conv(e, stack, VInt(w, i), VTime(t)).Done?
    ensures Conv(e, stack, Conv(e, stack, VInt(w, i), VTime(t)).value, VInt(w, j)) == Done(VInt(w, i))
  {
    IntToTimeConversion(e, stack, w, i, t);
    TimeToIntConversion(e, stack, Instant(i, 0), w, j);
  }

  // ---------------------------------------------------------------------------
  // Pointers to pointers

  /** A kind no registration starts from has no kind-to-kind rule. */
  lemma UnregisteredKindAbsent(k1: Kind, k2: Kind)
    requires !IsIntKind(k1) && k1 != KFloat32 && k1 != KFloat64 && k1 != KString
    ensures Key(DKind(k1), DKind(k2)) !in BuiltinTable()
  {
    var a, b := DKind(k1), DKind(k2);
    KindNameColonFree(k1);
    TimeName();
    TagsApart(a, TimeTypes[0]);
    OtherKindsApart(IntKinds, k1);
    OtherKindsApart(FloatKinds, k1);
    OtherKindsApart(StringKinds, k1);
    OtherKindsApart(TimeIntKinds, k1);
    Unregistered(a, b);
  }

  lemma PointerTypeName(w: IntWidth)
    ensures TypeName(DType(TPtr(TInt(w)))) == "TYPE-*" + KindString(KindOf(TInt(w)))
    ensures ':' !in TypeName(DType(TPtr(TInt(w)))) && TypeName(DType(TPtr(TInt(w)))) != "TYPE-time.Time"
  {
    KindStringColonFree(KindOf(TInt(w)));
    assert TypeName(DType(TPtr(TInt(w))))[5] == '*';
  }

  /** None of the four candidate keys from a pointer to an integer to that integer is registered. */
  lemma PointerKeysAbsent(w: IntWidth)
    ensures Key(DType(TPtr(TInt(w))), DType(TInt(w))) !in BuiltinTable()
    ensures Key(DType(TPtr(TInt(w))), DKind(KindOf(TInt(w)))) !in BuiltinTable()
    ensures Key(DKind(KPtr), DType(TInt(w))) !in BuiltinTable()
    ensures Key(DKind(KPtr), DKind(KindOf(TInt(w)))) !in BuiltinTable()
  {
    PointerTypeName(w);
    ScalarTypeName(TInt(w));
    TypeSourceAbsent(TPtr(TInt(w)), DType(TInt(w)));
    TypeSourceAbsent(TPtr(TInt(w)), DKind(KindOf(TInt(w))));
    KindToTypeAbsent(KPtr, TInt(w));
    UnregisteredKindAbsent(KPtr, KindOf(TInt(w)));
  }

  /** The built-in table has no rule from a pointer to an integer to that integer. */
  lemma NoPointerRule(w: IntWidth, p: Option<Value>, j: int)
    ensures Get(BuiltinTable(), VPtr(TInt(w), p), VInt(w, j)).None?
  {
    PointerKeysAbsent(w);
    NoPointerRuleIn(BuiltinTable(), w, p, j);
  }

  /** Any table without the four candidate keys of *int into int finds no rule for that pair. */
  lemma NoPointerRuleIn(tb: Table, w: IntWidth, p: Option<Value>, j: int)
    requires Key(DType(TPtr(TInt(w))), DType(TInt(w))) !in tb
    requires Key(DType(TPtr(TInt(w))), DKind(KindOf(TInt(w)))) !in tb
    requires Key(DKind(KPtr), DType(TInt(w))) !in tb
    requires Key(DKind(KPtr), DKind(KindOf(TInt(w)))) !in tb
    ensures Get(tb, VPtr(TInt(w), p), VInt(w, j)).None?
  {
    var st, dt := TPtr(TInt(w)), TInt(w);
    var ks := ProbeKeys(st, dt);
    assert Probes(st, dt) == [(DType(st), DType(dt)), (DType(st), DKind(KindOf(dt))), (DKind(KPtr), DType(dt)), (DKind(KPtr), DKind(KindOf(dt)))];
    ProbeKeysLaw(st, dt);
    assert FirstPresent(tb, ks, 3).None?;
    assert FirstPresent(tb, ks, 2).None?;
    assert FirstPresent(tb, ks, 1).None?;
  }

  /**
   * apply dereferences the source once but allocates through every layer of the
   * destination, so a pointer to a pointer to an integer meets an integer slot with a
   * pointer to an integer; no rule and no copy applies, and the destination ends up
   * freshly allocated around a zero, whatever both held before.
   */
  lemma DoublePointerZeroed(e: Env, stack: seq<string>, w: IntWidth, i: int, q: Option<Value>)
    requires e.rules == map[] && e.global == BuiltinTable()
    ensures var t := TPtr(TInt(w));
            Conv(e, stack, VPtr(t, Some(VPtr(TInt(w), Some(VInt(w, i))))), VPtr(t, q))
            == Done(VPtr(t, Some(VPtr(TInt(w), Some(VInt(w, 0))))))
  {
    var t := TPtr(TInt(w));
    var x, y := VPtr(t, Some(VPtr(TInt(w), Some(VInt(w, i))))), VPtr(t, q);
    var sv, d := VPtr(TInt(w), Some(VInt(w, i))), VInt(w, 0);
    assert InnerSlot(y) == d;
    GetEmpty(sv, d);
    NoPointerRule(w, Some(VInt(w, i)), 0);
    assert Conv(e, stack, x, y) == match ConvKind(e, stack, x, sv, d) case Panic(f) => Panic(f) case Done(v) => Done(Refill(y, v));
    assert ConvKind(e, stack, x, sv, d) == ConvField(e, stack, x, sv, d);
    assert ConvField(e, stack, x, sv, d) == ConvUnowned(e, stack, x, sv, d);
    assert ConvUnowned(e, stack, x, sv, d) == Done(d);
  }

  /** The name of a pointer to a struct: colon-free when the struct's name is, and never time.Time's. */
  lemma StructPointerTypeName(name: string, fs: seq<FieldDecl>)
    requires ':' !in name
    ensures TypeName(DType(TPtr(TStruct(name, fs)))) == "TYPE-*" + name
    ensures ':' !in TypeName(DType(TPtr(TStruct(name, fs)))) && TypeName(DType(TPtr(TStruct(name, fs)))) != "TYPE-time.Time"
  {
    var n := TypeName(DType(TPtr(TStruct(name, fs))));
    assert TypeString(TStruct(name, fs)) == name;
    assert TypeString(TPtr(TStruct(name, fs))) == "*" + name;
    assert n == "TYPE-" + ("*" + name);
    assert n[5] == '*';
  }

  /** The two keys Get probes for a pointer to a struct into that struct are not in the built-in table. */
  lemma StructPointerKeysAbsent(name: string, fs: seq<FieldDecl>)
    requires ':' !in name && name != "time.Time"
    ensures Key(DType(TPtr(TStruct(name, fs))), DType(TStruct(name, fs))) !in BuiltinTable()
    ensures Key(DKind(KPtr), DType(TStruct(name, fs))) !in BuiltinTable()
  {
    var st := TStruct(name, fs);
    StructPointerTypeName(name, fs);
    TypeSourceAbsent(TPtr(st), DType(st));
    assert TypeName(DType(st)) != "TYPE-time.Time" by {
      assert TypeName(DType(st))[5..] == name;
    }
    KindToTypeAbsent(KPtr, st);
  }

  /** Any table without those two keys finds no rule from a pointer to a struct into the struct. */
  lemma NoStructPointerRuleIn(tb: Table, name: string, fs: seq<FieldDecl>, p: Option<Value>, d: Value)
    requires TypeOf(d) == TStruct(name, fs)
    requires Key(DType(TPtr(TStruct(name, fs))), DType(TStruct(name, fs))) !in tb
    requires Key(DKind(KPtr), DType(TStruct(name, fs))) !in tb
    ensures Get(tb, VPtr(TStruct(name, fs), p), d).None?
  {
    var st, pt := TStruct(name, fs), TPtr(TStruct(name, fs));
    var ks := ProbeKeys(pt, st);
    assert Probes(pt, st) == [(DType(pt), DType(st)), (DKind(KPtr), DType(st))];
    ProbeKeysLaw(pt, st);
    assert FirstPresent(tb, ks, 1).None?;
  }

  /**
   * applyStruct on a source that is still a pointer: the first exported field without an
   * override asks FieldByName of a pointer type, which panics.
   */
  lemma StructFromPointerPanics(e: Env, stack: seq<string>, src: Value, sv: Value, d: Value)
    requires sv.VPtr? && d.VStruct? && |d.fields| > 0
    requires Exported(FieldName(d.styp, 0)) && FieldPath(stack, FieldName(d.styp, 0)) !in e.overrides
    ensures ConvStruct(e, stack, src, sv, d) == Panic(NotStruct)
  {
    assert FieldStep(e, stack, src, sv, FieldName(d.styp, 0), d.fields[0]) == Panic(NotStruct);
  }

  /** The built-in table has no rule from a pointer to a struct to that struct. */
  lemma NoStructPointerRule(name: string, fs: seq<FieldDecl>, p: Option<Value>, d: Value)
    requires ':' !in name && name != "time.Time" && TypeOf(d) == TStruct(name, fs)
    ensures Get(BuiltinTable(), VPtr(TStruct(name, fs), p), d).None?
  {
    StructPointerKeysAbsent(name, fs);
    NoStructPointerRuleIn(BuiltinTable(), name, fs, p, d);
  }

  /** applyField from a pointer to a struct into a zero of that struct, when no rule applies. */
  lemma StructSlotFromPointerPanics(e: Env, stack: seq<string>, x: Value, name: string, fs: seq<FieldDecl>, p: Option<Value>)
    requires e.rules == map[] && Get(e.global, VPtr(TStruct(name, fs), p), Zero(TStruct(name, fs))).None?
    requires |fs| > 0 && Exported(fs[0].name) && FieldPath(stack, fs[0].name) !in e.overrides
    ensures ConvField(e, stack, x, VPtr(TStruct(name, fs), p), Zero(TStruct(name, fs))) == Panic(NotStruct)
  {
    var st := TStruct(name, fs);
    var sv, d := VPtr(st, p), Zero(st);
    ZeroWellFormed(st);
    assert d.VStruct? && d.styp == st && |d.fields| == |fs|;
    GetEmpty(sv, d);
    StructFromPointerPanics(e, stack, x, sv, d);
    FieldPrecedence(e, stack, x, sv, d);
  }

  /**
   * The same single dereference with a struct in place of the integer: the struct slot is
   * filled field by field, and looking up its first exported field on the source, still a
   * pointer, panics, whatever the pointers held.
   */
  lemma DoublePointerStructPanics(e: Env, stack: seq<string>, name: string, fs: seq<FieldDecl>, p: Option<Value>, q: Option<Value>)
    requires e.rules == map[] && e.global == BuiltinTable()
    requires ':' !in name && name != "time.Time"
    requires |fs| > 0 && Exported(fs[0].name) && FieldPath(stack, fs[0].name) !in e.overrides
    ensures var st := TStruct(name, fs);
            Conv(e, stack, VPtr(TPtr(st), Some(VPtr(st, p))), VPtr(TPtr(st), q)) == Panic(NotStruct)
  {
    var st := TStruct(name, fs);
    var x, y := VPtr(TPtr(st), Some(VPtr(st, p))), VPtr(TPtr(st), q);
    var sv, d := VPtr(st, p), Zero(st);
    assert Innermost(TPtr(st)) == Innermost(st) == st;
    assert InnerSlot(y) == d;
    ZeroWellFormed(st);
    NoStructPointerRule(name, fs, p, d);
    StructSlotFromPointerPanics(e, stack, x, name, fs, p);
    assert ConvKind(e, stack, x, sv, d) == ConvField(e, stack, x, sv, d);
  }
}
