/**
 * The rule table of the engine: keys built from tagged type names, registration of a
 * rule for a cross product of descriptors, the four-probe lookup, the built-in table
 * filled at start-up, and the bodies of the built-in rules.
 */
module Rules {
  import opened Reflect

  /**
   * What Set accepts as a type: a reflect.Kind, a reflect.Type, a reflect.Value, or any
   * other Go value, which names the type it points to (or its own type if not a pointer).
   */
  datatype Descriptor = DKind(k: Kind) | DType(t: Type) | DValue(v: Value) | DInstance(v: Value)

  /** reflect.Indirect of a nil pointer has no type: naming it panics. */
  predicate Nameable(d: Descriptor)
  {
    !(d.DInstance? && d.v.VPtr? && d.v.target.None?)
  }

  /** typeName: "KIND-" before a kind, "TYPE-" before a type. */
  function TypeName(d: Descriptor): string
    requires Nameable(d)
  {
    match d
    case DKind(k) => "KIND-" + KindString(k)
    case DType(t) => "TYPE-" + TypeString(t)
    case DValue(v) => "TYPE-" + TypeString(TypeOf(v))
    case DInstance(v) => "TYPE-" + TypeString(if v.VPtr? then v.elemType else TypeOf(v))
  }

  /** key: the two names joined by a colon. */
  function Key(a: Descriptor, b: Descriptor): string
    requires Nameable(a) && Nameable(b)
  {
    TypeName(a) + ":" + TypeName(b)
  }

  /** The rules the table can hold: the seven built-in bodies and the session's own rules by number. */
  datatype Builtin = IntToInt | FloatToFloat | StringToString | IntToTime | TimeToInt | StringToTime | TimeToString

  datatype RuleId = BuiltinRule(b: Builtin) | SessionRule(id: nat)

  type Table = map<string, RuleId>

  predicate AllNameable(ds: seq<Descriptor>)
  {
    forall i :: 0 <= i < |ds| ==> Nameable(ds[i])
  }

  /** The keys of the pairs (a, o) for o in outs. */
  function RowKeys(a: Descriptor, outs: seq<Descriptor>): set<string>
    requires Nameable(a) && AllNameable(outs)
  {
    set o | 0 <= o < |outs| :: Key(a, outs[o])
  }

  /** The keys of the cross product ins x outs. */
  function CrossKeys(ins: seq<Descriptor>, outs: seq<Descriptor>): set<string>
    requires AllNameable(ins) && AllNameable(outs)
  {
    set i, o | 0 <= i < |ins| && 0 <= o < |outs| :: Key(ins[i], outs[o])
  }

  /** The inner loop of Set: one source descriptor against every destination descriptor. */
  function RegisterRow(table: Table, a: Descriptor, outs: seq<Descriptor>, f: RuleId): Table
    requires Nameable(a) && AllNameable(outs)
  {
    if |outs| == 0 then table
    else RegisterRow(table, a, outs[..|outs| - 1], f)[Key(a, outs[|outs| - 1]) := f]
  }

  /** What Set does to the table: each row of ins against outs in turn. */
  function Register(table: Table, ins: seq<Descriptor>, outs: seq<Descriptor>, f: RuleId): Table
    requires AllNameable(ins) && AllNameable(outs)
  {
    if |ins| == 0 then table
    else RegisterRow(Register(table, ins[..|ins| - 1], outs, f), ins[|ins| - 1], outs, f)
  }

  lemma RowKeysSplit(a: Descriptor, outs: seq<Descriptor>)
    requires Nameable(a) && AllNameable(outs) && |outs| > 0
    ensures AllNameable(outs[..|outs| - 1])
    ensures RowKeys(a, outs) == RowKeys(a, outs[..|outs| - 1]) + {Key(a, outs[|outs| - 1])}
  {
    RowKeysLast(a, outs);
    RowKeysPrefix(a, outs);
  }

  lemma RowKeysLast(a: Descriptor, outs: seq<Descriptor>)
    requires Nameable(a) && AllNameable(outs) && |outs| > 0
    ensures AllNameable(outs[..|outs| - 1])
    ensures RowKeys(a, outs) <= RowKeys(a, outs[..|outs| - 1]) + {Key(a, outs[|outs| - 1])}
  {
    var prefix := outs[..|outs| - 1];
    forall k | k in RowKeys(a, outs) ensures k in RowKeys(a, prefix) + {Key(a, outs[|outs| - 1])} {
      var o :| 0 <= o < |outs| && k == Key(a, outs[o]);
      if o < |outs| - 1 {
        assert k == Key(a, prefix[o]);
      }
    }
  }

  lemma RowKeysPrefix(a: Descriptor, outs: seq<Descriptor>)
    requires Nameable(a) && AllNameable(outs) && |outs| > 0
    ensures AllNameable(outs[..|outs| - 1])
    ensures RowKeys(a, outs[..|outs| - 1]) + {Key(a, outs[|outs| - 1])} <= RowKeys(a, outs)
  {
    var prefix := outs[..|outs| - 1];
    forall k | k in RowKeys(a, prefix) ensures k in RowKeys(a, outs) {
      var o :| 0 <= o < |prefix| && k == Key(a, prefix[o]);
      assert k == Key(a, outs[o]);
    }
  }

  lemma CrossKeysSplit(ins: seq<Descriptor>, outs: seq<Descriptor>)
    requires AllNameable(ins) && AllNameable(outs) && |ins| > 0
    ensures AllNameable(ins[..|ins| - 1])
    ensures CrossKeys(ins, outs) == CrossKeys(ins[..|ins| - 1], outs) + RowKeys(ins[|ins| - 1], outs)
  {
    var prefix := ins[..|ins| - 1];
    var a := ins[|ins| - 1];
    forall k | k in CrossKeys(ins, outs) ensures k in CrossKeys(prefix, outs) + RowKeys(a, outs) {
      var i, o :| 0 <= i < |ins| && 0 <= o < |outs| && k == Key(ins[i], outs[o]);
      if i < |ins| - 1 {
        assert k == Key(prefix[i], outs[o]);
      } else {
        assert k == Key(a, outs[o]);
      }
    }
    forall k | k in CrossKeys(prefix, outs) ensures k in CrossKeys(ins, outs) {
      var i, o :| 0 <= i < |prefix| && 0 <= o < |outs| && k == Key(prefix[i], outs[o]);
      assert k == Key(ins[i], outs[o]);
    }
    forall k | k in RowKeys(a, outs) ensures k in CrossKeys(ins, outs) {
      var o :| 0 <= o < |outs| && k == Key(a, outs[o]);
      assert k == Key(ins[|ins| - 1], outs[o]);
    }
  }

  /** One row: every key (a, o) maps to f, every other key keeps its entry. */
  lemma {:induction false} RowLaw(table: Table, a: Descriptor, outs: seq<Descriptor>, f: RuleId)
    requires Nameable(a) && AllNameable(outs)
    ensures RegisterRow(table, a, outs, f).Keys == table.Keys + RowKeys(a, outs)
    ensures forall k :: k in RowKeys(a, outs) ==> RegisterRow(table, a, outs, f)[k] == f
    ensures forall k :: k in table && k !in RowKeys(a, outs) ==> RegisterRow(table, a, outs, f)[k] == table[k]
  {
    if |outs| > 0 {
      RowKeysSplit(a, outs);
      RowLaw(table, a, outs[..|outs| - 1], f);
    }
  }

  /**
   * Set's effect on the table: every key of ins x outs maps to f, every other key keeps
   * its entry (the last registration for a key wins), and no other key appears.
   */
  lemma {:induction false} RegisterLaw(table: Table, ins: seq<Descriptor>, outs: seq<Descriptor>, f: RuleId)
    requires AllNameable(ins) && AllNameable(outs)
    ensures Register(table, ins, outs, f).Keys == table.Keys + CrossKeys(ins, outs)
    ensures forall k :: k in CrossKeys(ins, outs) ==> Register(table, ins, outs, f)[k] == f
    ensures forall k :: k in table && k !in CrossKeys(ins, outs) ==> Register(table, ins, outs, f)[k] == table[k]
  {
    if |ins| > 0 {
      var prefix := ins[..|ins| - 1];
      CrossKeysSplit(ins, outs);
      RegisterLaw(table, prefix, outs, f);
      RowLaw(Register(table, prefix, outs, f), ins[|ins| - 1], outs, f);
    }
  }

  lemma RegisterPrefix(table: Table, ins: seq<Descriptor>, i: nat, outs: seq<Descriptor>, f: RuleId)
    requires i < |ins| && AllNameable(ins) && AllNameable(outs)
    ensures AllNameable(ins[..i]) && AllNameable(ins[..i + 1])
    ensures Register(table, ins[..i + 1], outs, f) == RegisterRow(Register(table, ins[..i], outs, f), ins[i], outs, f)
  {
    assert ins[..i + 1][..i] == ins[..i];
  }

  lemma RowPrefix(table: Table, a: Descriptor, outs: seq<Descriptor>, j: nat, f: RuleId)
    requires j < |outs| && Nameable(a) && AllNameable(outs)
    ensures AllNameable(outs[..j]) && AllNameable(outs[..j + 1])
    ensures RegisterRow(table, a, outs[..j + 1], f) == RegisterRow(table, a, outs[..j], f)[Key(a, outs[j]) := f]
  {
    assert outs[..j + 1][..j] == outs[..j];
  }

  /** convertMapT: a table that only grows by registration. */
  class ConvertMap {
    var cmap: Table

    /** newConvertMap */
    constructor ()
      ensures cmap == map[]
    {
      cmap := map[];
    }

    /** Set: registers f for every pair of ins x outs, in that loop order. */
    method Set(ins: seq<Descriptor>, outs: seq<Descriptor>, f: RuleId)
      requires AllNameable(ins) && AllNameable(outs)
      modifies this
      ensures cmap == Register(old(cmap), ins, outs, f)
    {
      var i := 0;
      while i < |ins|
        invariant 0 <= i <= |ins|
        invariant cmap == Register(old(cmap), ins[..i], outs, f)
      {
        SetRow(ins[i], outs, f);
        RegisterPrefix(old(cmap), ins, i, outs, f);
        i := i + 1;
      }
      assert ins[..i] == ins;
    }

    /** One pass of Set's inner loop. */
    method SetRow(a: Descriptor, outs: seq<Descriptor>, f: RuleId)
      requires Nameable(a) && AllNameable(outs)
      modifies this
      ensures cmap == RegisterRow(old(cmap), a, outs, f)
    {
      var j := 0;
      while j < |outs|
        invariant 0 <= j <= |outs|
        invariant cmap == RegisterRow(old(cmap), a, outs[..j], f)
      {
        RowPrefix(old(cmap), a, outs, j, f);
        cmap := cmap[Key(a, outs[j]) := f];
        j := j + 1;
      }
      assert outs[..j] == outs;
    }
  }

  // ---------------------------------------------------------------------------
  // Lookup

  /** A probe is skipped when one of its components is the Struct kind. */
  predicate Probed(p: (Descriptor, Descriptor))
  {
    p.0 != DKind(KStruct) && p.1 != DKind(KStruct)
  }

  /** The four candidate keys in priority order: (Type,Type), (Type,Kind), (Kind,Type), (Kind,Kind). */
  function Candidates(st: Type, dt: Type): seq<(Descriptor, Descriptor)>
  {
    [(DType(st), DType(dt)), (DType(st), DKind(KindOf(dt))),
     (DKind(KindOf(st)), DType(dt)), (DKind(KindOf(st)), DKind(KindOf(dt)))]
  }

  function KeepProbed(cs: seq<(Descriptor, Descriptor)>): seq<(Descriptor, Descriptor)>
  {
    if |cs| == 0 then [] else (if Probed(cs[0]) then [cs[0]] else []) + KeepProbed(cs[1..])
  }

  /**
   * The keys Get probes, as its two nested loops produce them: the candidates in
   * priority order without those having a Struct kind component.
   */
  function Probes(st: Type, dt: Type): (ps: seq<(Descriptor, Descriptor)>)
    ensures forall i :: 0 <= i < |ps| ==> !ps[i].0.DInstance? && !ps[i].1.DInstance?
  {
    var ks, kd := KindOf(st), KindOf(dt);
    var first := [(DType(st), DType(dt))] + (if kd == KStruct then [] else [(DType(st), DKind(kd))]);
    var second := if ks == KStruct then [] else [(DKind(ks), DType(dt))] + (if kd == KStruct then [] else [(DKind(ks), DKind(kd))]);
    first + second
  }

  lemma KeepProbedCons(p: (Descriptor, Descriptor), rest: seq<(Descriptor, Descriptor)>)
    ensures KeepProbed([p] + rest) == (if Probed(p) then [p] else []) + KeepProbed(rest)
  {
    assert ([p] + rest)[1..] == rest;
  }

  function Kept(p: (Descriptor, Descriptor)): seq<(Descriptor, Descriptor)>
  {
    if Probed(p) then [p] else []
  }

  lemma KeepProbedFour(c0: (Descriptor, Descriptor), c1: (Descriptor, Descriptor), c2: (Descriptor, Descriptor), c3: (Descriptor, Descriptor))
    ensures KeepProbed([c0, c1, c2, c3]) == Kept(c0) + Kept(c1) + Kept(c2) + Kept(c3)
  {
    var none: seq<(Descriptor, Descriptor)> := [];
    assert [c0, c1, c2, c3] == [c0] + [c1, c2, c3];
    assert [c1, c2, c3] == [c1] + [c2, c3];
    assert [c2, c3] == [c2] + [c3];
    assert [c3] == [c3] + none;
    KeepProbedCons(c3, none);
    KeepProbedCons(c2, [c3]);
    KeepProbedCons(c1, [c2, c3]);
    KeepProbedCons(c0, [c1, c2, c3]);
  }

  /** Probes are exactly the candidates that are not skipped, in priority order. */
  lemma ProbesAreKept(st: Type, dt: Type)
    ensures Probes(st, dt) == KeepProbed(Candidates(st, dt))
  {
    var ks, kd := KindOf(st), KindOf(dt);
    var c0, c1, c2, c3 := (DType(st), DType(dt)), (DType(st), DKind(kd)), (DKind(ks), DType(dt)), (DKind(ks), DKind(kd));
    KeepProbedFour(c0, c1, c2, c3);
    assert Kept(c0) == [c0];
    assert Kept(c1) == if kd == KStruct then [] else [c1];
    assert Kept(c2) == if ks == KStruct then [] else [c2];
    assert Kept(c3) == if ks == KStruct || kd == KStruct then [] else [c3];
  }

  /** The exact pair of types is always probed first, even for struct types. */
  lemma ProbesExactFirst(st: Type, dt: Type)
    ensures |Probes(st, dt)| > 0 && Probes(st, dt)[0] == (DType(st), DType(dt))
  {
  }

  /** No probe has a Struct kind component. */
  lemma ProbesSkipStruct(st: Type, dt: Type)
    ensures forall i :: 0 <= i < |Probes(st, dt)| ==> Probed(Probes(st, dt)[i])
  {
  }

  /** The keys of the probes, in probe order. */
  function ProbeKeys(st: Type, dt: Type): seq<string>
  {
    var ps := Probes(st, dt);
    seq(|ps|, j requires 0 <= j < |ps| => Key(ps[j].0, ps[j].1))
  }

  /** The entry of the first key present in cmap, looking from position i on. */
  function FirstPresent(cmap: Table, ks: seq<string>, i: nat): Option<RuleId>
    requires i <= |ks|
    decreases |ks| - i
  {
    if i == |ks| then None
    else if ks[i] in cmap then Some(cmap[ks[i]])
    else FirstPresent(cmap, ks, i + 1)
  }

  lemma {:induction false} FirstPresentLaw(cmap: Table, ks: seq<string>, i: nat)
    requires i <= |ks|
    ensures FirstPresent(cmap, ks, i).None? <==> forall j :: i <= j < |ks| ==> ks[j] !in cmap
    ensures FirstPresent(cmap, ks, i).Some? ==>
              exists j :: i <= j < |ks| && ks[j] in cmap && FirstPresent(cmap, ks, i).value == cmap[ks[j]]
                          && forall l :: i <= l < j ==> ks[l] !in cmap
    decreases |ks| - i
  {
    if i < |ks| && ks[i] !in cmap {
      FirstPresentLaw(cmap, ks, i + 1);
    }
  }

  /** Get: the entry of the first present key among the probes of the two values' types (has = false when None). */
  function Get(cmap: Table, inVal: Value, outVal: Value): Option<RuleId>
  {
    FirstPresent(cmap, ProbeKeys(TypeOf(inVal), TypeOf(outVal)), 0)
  }

  lemma ProbeKeysLaw(st: Type, dt: Type)
    ensures |ProbeKeys(st, dt)| == |Probes(st, dt)|
    ensures forall j :: 0 <= j < |Probes(st, dt)| ==> ProbeKeys(st, dt)[j] == Key(Probes(st, dt)[j].0, Probes(st, dt)[j].1)
  {
  }

  /** Get finds nothing exactly when no probed key is present. */
  lemma GetMissing(cmap: Table, inVal: Value, outVal: Value)
    ensures var ps := Probes(TypeOf(inVal), TypeOf(outVal));
            Get(cmap, inVal, outVal).None? ==> forall j :: 0 <= j < |ps| ==> Key(ps[j].0, ps[j].1) !in cmap
    ensures var ps := Probes(TypeOf(inVal), TypeOf(outVal));
            (forall j :: 0 <= j < |ps| ==> Key(ps[j].0, ps[j].1) !in cmap) ==> Get(cmap, inVal, outVal).None?
  {
    var ks := ProbeKeys(TypeOf(inVal), TypeOf(outVal));
    ProbeKeysLaw(TypeOf(inVal), TypeOf(outVal));
    FirstPresentLaw(cmap, ks, 0);
  }

  /** Otherwise it gives the entry of a present probed key before which no probed key is present. */
  lemma GetFirst(cmap: Table, inVal: Value, outVal: Value)
    requires Get(cmap, inVal, outVal).Some?
    ensures var ps := Probes(TypeOf(inVal), TypeOf(outVal));
            exists j :: 0 <= j < |ps| && Key(ps[j].0, ps[j].1) in cmap &&
              Get(cmap, inVal, outVal).value == cmap[Key(ps[j].0, ps[j].1)] &&
              forall l :: 0 <= l < j ==> Key(ps[l].0, ps[l].1) !in cmap
  {
    var ks := ProbeKeys(TypeOf(inVal), TypeOf(outVal));
    ProbeKeysLaw(TypeOf(inVal), TypeOf(outVal));
    FirstPresentLaw(cmap, ks, 0);
    var ps := Probes(TypeOf(inVal), TypeOf(outVal));
    var j :| 0 <= j < |ks| && ks[j] in cmap && Get(cmap, inVal, outVal).value == cmap[ks[j]]
             && forall l :: 0 <= l < j ==> ks[l] !in cmap;
    assert ks[j] == Key(ps[j].0, ps[j].1);
  }

  /** A fresh table has a rule for no pair of values. */
  lemma GetEmpty(inVal: Value, outVal: Value)
    ensures Get(map[], inVal, outVal).None?
  {
    FirstPresentLaw(map[], ProbeKeys(TypeOf(inVal), TypeOf(outVal)), 0);
  }

  // ---------------------------------------------------------------------------
  // The built-in table

  /** The layouts the package exports; TIME_FORMAT is the session default. */
  const DATE_FORMAT: string := "2006-01-02"
  const TIME_FORMAT: string := "2006-01-02 15:04:05"

  const IntKinds := [DKind(KInt), DKind(KInt8), DKind(KInt16), DKind(KInt32), DKind(KInt64)]
  const FloatKinds := [DKind(KFloat32), DKind(KFloat64)]
  const StringKinds := [DKind(KString)]
  const TimeIntKinds := [DKind(KInt), DKind(KInt32), DKind(KInt64)]
  /** new(time.Time): a pointer, so it names its pointee type time.Time. */
  const TimeTypes := [DInstance(VPtr(TTime, Some(VTime(ZeroInstant))))]

  /** The table init registers, in its order. */
  function BuiltinTable(): Table
  {
    var t1 := Register(map[], IntKinds, IntKinds, BuiltinRule(IntToInt));
    var t2 := Register(t1, FloatKinds, FloatKinds, BuiltinRule(FloatToFloat));
    var t3 := Register(t2, StringKinds, StringKinds, BuiltinRule(StringToString));
    var t4 := Register(t3, TimeIntKinds, TimeTypes, BuiltinRule(IntToTime));
    var t5 := Register(t4, TimeTypes, TimeIntKinds, BuiltinRule(TimeToInt));
    var t6 := Register(t5, StringKinds, TimeTypes, BuiltinRule(StringToTime));
    Register(t6, TimeTypes, StringKinds, BuiltinRule(TimeToString))
  }

  /** init: a fresh table filled with the built-in rules. */
  method NewBuiltinMap() returns (cm: ConvertMap)
    ensures fresh(cm) && cm.cmap == BuiltinTable()
  {
    cm := new ConvertMap();
    cm.Set(IntKinds, IntKinds, BuiltinRule(IntToInt));
    cm.Set(FloatKinds, FloatKinds, BuiltinRule(FloatToFloat));
    cm.Set(StringKinds, StringKinds, BuiltinRule(StringToString));
    cm.Set(TimeIntKinds, TimeTypes, BuiltinRule(IntToTime));
    cm.Set(TimeTypes, TimeIntKinds, BuiltinRule(TimeToInt));
    cm.Set(StringKinds, TimeTypes, BuiltinRule(StringToTime));
    cm.Set(TimeTypes, StringKinds, BuiltinRule(TimeToString));
  }

  // ---------------------------------------------------------------------------
  // Rule bodies

  /**
   * The library code rules call and the bodies of the session's own rules:
   * time.Parse (None for a parse error), Time.Format, the rounding of a float64
   * stored into a float32, what session rule number n writes into dst, what field
   * override number n returns for an argument, and Type.Implements.
   */
  datatype Host = Host(
    parse: (string, string) -> Option<Instant>,
    format: (Instant, string) -> string,
    round32: real -> real,
    custom: (nat, Value, Value) -> Value,
    call: (nat, Value) -> Value,
    implements: (Type, Type) -> bool)

  /**
   * Runs one rule: the new content of dst. A body that reads or writes the wrong kind
   * panics, as reflect's Int, SetInt, SetFloat, SetString, Set and the time.Time
   * assertion do.
   */
  function RunRule(h: Host, timeFormat: string, r: RuleId, src: Value, dst: Value): (out: Outcome<Value>)
    ensures out.Done? ==> TypeOf(out.value) == TypeOf(dst)
  {
    match r
    case SessionRule(n) =>
      var out := h.custom(n, src, dst);
      if TypeOf(out) == TypeOf(dst) then Done(out) else Panic(RuleMismatch)
    case BuiltinRule(b) =>
      match b
      case IntToInt =>
        if src.VInt? && dst.VInt? then Done(VInt(dst.width, Narrow(dst.width, src.i))) else Panic(RuleMismatch)
      case FloatToFloat =>
        if src.VFloat? && dst.VFloat? then Done(VFloat(dst.fwidth, if dst.fwidth == F32 then h.round32(src.f) else src.f))
        else Panic(RuleMismatch)
      case StringToString =>
        if src.VString? && dst.VString? then Done(VString(src.s)) else Panic(RuleMismatch)
      case IntToTime =>
        if src.VInt? && dst.VTime? then Done(VTime(Instant(src.i, 0))) else Panic(RuleMismatch)
      case TimeToInt =>
        if src.VTime? && dst.VInt? then Done(VInt(dst.width, Narrow(dst.width, src.t.sec))) else Panic(RuleMismatch)
      case StringToTime =>
        if src.VString? && dst.VTime? then
          var t := h.parse(timeFormat, src.s);
          Done(VTime(if t.Some? then t.value else ZeroInstant))
        else Panic(RuleMismatch)
      case TimeToString =>
        if src.VTime? && dst.VString? then Done(VString(h.format(src.t, timeFormat))) else Panic(RuleMismatch)
  }
}
