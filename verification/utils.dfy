/**
 * Helpers of the engine: the signature check applied to field overrides, and min.
 */
module Utils {
  import opened Reflect

  /**
   * One slot requirement of isFuncValid: nil (anything goes), a reflect.Type, a
   * reflect.Kind, or any other value, which also accepts every type.
   */
  datatype Requirement = Unconstrained | NeedType(t: Type) | NeedKind(k: Kind) | Unrecognised

  /**
   * The isValid closure: whether type t meets one requirement. An interface-typed
   * requirement asks whether t implements it (Type.Implements, a parameter here).
   */
  predicate Satisfies(t: Type, req: Requirement, implements: (Type, Type) -> bool)
  {
    match req
    case Unconstrained => true
    case NeedType(r) => if KindOf(r) == KInterface then implements(t, r) else r == t
    case NeedKind(k) => k == KindOf(t)
    case Unrecognised => true
  }

  /** A nil requirement list (None) leaves that side unchecked; otherwise arity and every slot must match. */
  predicate SideMatches(ts: seq<Type>, reqs: Option<seq<Requirement>>, implements: (Type, Type) -> bool)
  {
    reqs.Some? ==>
      |ts| == |reqs.value| && forall i :: 0 <= i < |ts| ==> Satisfies(ts[i], reqs.value[i], implements)
  }

  /**
   * isFuncValid: fType is a function type whose parameters meet inTypes and whose
   * results meet outTypes.
   */
  method IsFuncValid(fType: Type, inTypes: Option<seq<Requirement>>, outTypes: Option<seq<Requirement>>,
                     implements: (Type, Type) -> bool)
    returns (valid: bool)
    ensures valid <==> fType.TFunc? && SideMatches(fType.ins, inTypes, implements)
                                    && SideMatches(fType.outs, outTypes, implements)
  {
    if !fType.TFunc? {
      return false;
    }
    if inTypes.Some? {
      if |fType.ins| != |inTypes.value| {
        return false;
      }
      var i := 0;
      while i < |inTypes.value|
        invariant 0 <= i <= |inTypes.value|
        invariant forall j :: 0 <= j < i ==> Satisfies(fType.ins[j], inTypes.value[j], implements)
      {
        if !Satisfies(fType.ins[i], inTypes.value[i], implements) {
          return false;
        }
        i := i + 1;
      }
    }
    if outTypes.Some? {
      if |fType.outs| != |outTypes.value| {
        return false;
      }
      var i := 0;
      while i < |outTypes.value|
        invariant 0 <= i <= |outTypes.value|
        invariant forall j :: 0 <= j < i ==> Satisfies(fType.outs[j], outTypes.value[j], implements)
      {
        if !Satisfies(fType.outs[i], outTypes.value[i], implements) {
          return false;
        }
        i := i + 1;
      }
    }
    return true;
  }

  /**
   * What each kind of requirement accepts: a Kind requirement exactly the types of that
   * kind, a non-interface Type requirement exactly that type, an interface Type requirement
   * the types that implement it, a nil slot anything.
   */
  lemma Requirements(t: Type, k: Kind, r: Type, implements: (Type, Type) -> bool)
    ensures Satisfies(t, NeedKind(k), implements) <==> KindOf(t) == k
    ensures KindOf(r) != KInterface ==> (Satisfies(t, NeedType(r), implements) <==> t == r)
    ensures KindOf(r) == KInterface ==> (Satisfies(t, NeedType(r), implements) <==> implements(t, r))
    ensures Satisfies(t, Unconstrained, implements)
  {
  }

  /** The requirement list Field uses, one nil slot on each side, accepts exactly the one-in, one-out functions. */
  lemma OneInOneOut(fType: Type, implements: (Type, Type) -> bool)
    ensures (fType.TFunc? && SideMatches(fType.ins, Some([Unconstrained]), implements)
                          && SideMatches(fType.outs, Some([Unconstrained]), implements))
            <==> fType.TFunc? && |fType.ins| == 1 && |fType.outs| == 1
  {
  }

  /** min(a, b). */
  function Min(a: int, b: int): (m: int)
    ensures m <= a && m <= b
    ensures m == a || m == b
  {
    if a < b then a else b
  }
}
