/**
 * The three loop shapes of the conversion walk, over outcomes computed beforehand: append
 * each element to a fresh slice, replace elements in place, and store key/value pairs
 * into a map. Each loop stops at the first panic. Module Laws shows that the loops of
 * module Convertor are these folds over the conversions of the source's parts.
 */
module Folds {
  import opened Reflect

  /** Outcomes i.. all succeeded. */
  predicate DoneFrom<T>(cs: seq<Outcome<T>>, i: nat)
  {
    forall j :: i <= j < |cs| ==> cs[j].Done?
  }

  // ---------------------------------------------------------------------------
  // Appending to a fresh slice

  function Appended<T>(cs: seq<Outcome<T>>, acc: seq<T>, i: nat): Outcome<seq<T>>
    requires i <= |cs|
    decreases |cs| - i
  {
    if i == |cs| then Done(acc)
    else
      match cs[i]
      case Panic(f) => Panic(f)
      case Done(v) => Appended(cs, acc + [v], i + 1)
  }

  lemma {:induction false} AppendedDone<T>(cs: seq<Outcome<T>>, acc: seq<T>, i: nat)
    requires i <= |cs|
    ensures Appended(cs, acc, i).Done? <==> DoneFrom(cs, i)
    decreases |cs| - i
  {
    if i < |cs| && cs[i].Done? {
      AppendedDone(cs, acc + [cs[i].value], i + 1);
    }
  }

  /** Appending keeps what was there and adds every remaining value, in order. */
  lemma {:induction false} AppendedValue<T>(cs: seq<Outcome<T>>, acc: seq<T>, i: nat)
    requires i <= |cs| && Appended(cs, acc, i).Done?
    ensures |Appended(cs, acc, i).value| == |acc| + |cs| - i
    ensures Appended(cs, acc, i).value[..|acc|] == acc
    ensures forall j :: i <= j < |cs| ==> cs[j] == Done(Appended(cs, acc, i).value[|acc| + j - i])
    decreases |cs| - i
  {
    if i < |cs| {
      var acc' := acc + [cs[i].value];
      AppendedValue(cs, acc', i + 1);
      assert Appended(cs, acc, i).value[..|acc'|][..|acc|] == Appended(cs, acc, i).value[..|acc|];
    }
  }

  // ---------------------------------------------------------------------------
  // Replacing in place

  function Replaced<T>(cs: seq<Outcome<T>>, acc: seq<T>, i: nat): Outcome<seq<T>>
    requires i <= |cs| <= |acc|
    decreases |cs| - i
  {
    if i == |cs| then Done(acc)
    else
      match cs[i]
      case Panic(f) => Panic(f)
      case Done(v) => Replaced(cs, acc[i := v], i + 1)
  }

  lemma {:induction false} ReplacedDone<T>(cs: seq<Outcome<T>>, acc: seq<T>, i: nat)
    requires i <= |cs| <= |acc|
    ensures Replaced(cs, acc, i).Done? <==> DoneFrom(cs, i)
    decreases |cs| - i
  {
    if i < |cs| && cs[i].Done? {
      ReplacedDone(cs, acc[i := cs[i].value], i + 1);
    }
  }

  /** Replacing keeps the length; positions i..|cs| get the outcomes' values, the others keep theirs. */
  lemma {:induction false} ReplacedValue<T>(cs: seq<Outcome<T>>, acc: seq<T>, i: nat)
    requires i <= |cs| <= |acc| && Replaced(cs, acc, i).Done?
    ensures |Replaced(cs, acc, i).value| == |acc|
    ensures forall j :: 0 <= j < |acc| && !(i <= j < |cs|) ==> Replaced(cs, acc, i).value[j] == acc[j]
    ensures forall j :: i <= j < |cs| ==> cs[j] == Done(Replaced(cs, acc, i).value[j])
    decreases |cs| - i
  {
    if i < |cs| {
      ReplacedValue(cs, acc[i := cs[i].value], i + 1);
    }
  }

  // ---------------------------------------------------------------------------
  // Storing into a map

  /** The map loop: key i, then value i, then SetMapIndex. */
  function Stored(ks: seq<Outcome<Value>>, vs: seq<Outcome<Value>>, acc: seq<(Value, Value)>, i: nat)
    : Outcome<seq<(Value, Value)>>
    requires |ks| == |vs| && i <= |ks|
    decreases |ks| - i
  {
    if i == |ks| then Done(acc)
    else
      match ks[i]
      case Panic(f) => Panic(f)
      case Done(k) =>
        match vs[i]
        case Panic(f) => Panic(f)
        case Done(v) => Stored(ks, vs, SetMapIndex(acc, k, v), i + 1)
  }

  /** p is the pair of some key and value outcome from i on. */
  predicate EntryOf(ks: seq<Outcome<Value>>, vs: seq<Outcome<Value>>, p: (Value, Value), i: nat)
    requires |ks| == |vs|
  {
    exists j :: i <= j < |ks| && ks[j] == Done(p.0) && vs[j] == Done(p.1)
  }

  /** The keys from i on are pairwise distinct and none of them is already in acc. */
  predicate KeysApart(ks: seq<Outcome<Value>>, acc: seq<(Value, Value)>, i: nat)
  {
    && (forall j1, j2 :: i <= j1 < j2 < |ks| && ks[j1].Done? && ks[j2].Done? ==> ks[j1].value != ks[j2].value)
    && (forall j :: i <= j < |ks| && ks[j].Done? ==> ks[j].value !in KeySet(acc))
  }

  lemma {:induction false} StoredDone(ks: seq<Outcome<Value>>, vs: seq<Outcome<Value>>, acc: seq<(Value, Value)>, i: nat)
    requires |ks| == |vs| && i <= |ks|
    ensures Stored(ks, vs, acc, i).Done? <==> DoneFrom(ks, i) && DoneFrom(vs, i)
    decreases |ks| - i
  {
    if i < |ks| && ks[i].Done? && vs[i].Done? {
      StoredDone(ks, vs, SetMapIndex(acc, ks[i].value, vs[i].value), i + 1);
    }
  }

  lemma {:induction false} StoredDistinct(ks: seq<Outcome<Value>>, vs: seq<Outcome<Value>>, acc: seq<(Value, Value)>, i: nat)
    requires |ks| == |vs| && i <= |ks| && Stored(ks, vs, acc, i).Done? && DistinctKeys(acc)
    ensures DistinctKeys(Stored(ks, vs, acc, i).value)
    decreases |ks| - i
  {
    if i < |ks| {
      StoredDistinct(ks, vs, SetMapIndex(acc, ks[i].value, vs[i].value), i + 1);
    }
  }

  lemma {:induction false} StoredSizeBound(ks: seq<Outcome<Value>>, vs: seq<Outcome<Value>>, acc: seq<(Value, Value)>, i: nat)
    requires |ks| == |vs| && i <= |ks| && Stored(ks, vs, acc, i).Done?
    ensures |Stored(ks, vs, acc, i).value| <= |acc| + |ks| - i
    decreases |ks| - i
  {
    if i < |ks| {
      StoredSizeBound(ks, vs, SetMapIndex(acc, ks[i].value, vs[i].value), i + 1);
    }
  }

  lemma {:induction false} StoredKeepsKeys(ks: seq<Outcome<Value>>, vs: seq<Outcome<Value>>, acc: seq<(Value, Value)>, i: nat)
    requires |ks| == |vs| && i <= |ks| && Stored(ks, vs, acc, i).Done?
    ensures KeySet(acc) <= KeySet(Stored(ks, vs, acc, i).value)
    decreases |ks| - i
  {
    if i < |ks| {
      StoredKeepsKeys(ks, vs, SetMapIndex(acc, ks[i].value, vs[i].value), i + 1);
    }
  }

  lemma {:induction false} StoredHasKey(ks: seq<Outcome<Value>>, vs: seq<Outcome<Value>>, acc: seq<(Value, Value)>, i: nat, j: nat)
    requires |ks| == |vs| && i <= j < |ks| && Stored(ks, vs, acc, i).Done?
    ensures ks[j].Done? && ks[j].value in KeySet(Stored(ks, vs, acc, i).value)
    decreases |ks| - i
  {
    var acc' := SetMapIndex(acc, ks[i].value, vs[i].value);
    if j == i {
      StoredKeepsKeys(ks, vs, acc', i + 1);
    } else {
      StoredHasKey(ks, vs, acc', i + 1, j);
    }
  }

  /** Every stored pair was already there or is the pair of some key and value outcome. */
  lemma {:induction false} StoredOrigin(ks: seq<Outcome<Value>>, vs: seq<Outcome<Value>>, acc: seq<(Value, Value)>, i: nat,
                                        p: (Value, Value))
    requires |ks| == |vs| && i <= |ks| && Stored(ks, vs, acc, i).Done? && p in Stored(ks, vs, acc, i).value
    ensures p in acc || EntryOf(ks, vs, p, i)
    decreases |ks| - i
  {
    if i < |ks| {
      var acc' := SetMapIndex(acc, ks[i].value, vs[i].value);
      StoredOrigin(ks, vs, acc', i + 1, p);
      if p !in acc && p in acc' {
        assert p == (ks[i].value, vs[i].value);
      }
    }
  }

  /** When no key collides, every pair is appended. */
  lemma {:induction false} StoredExactSize(ks: seq<Outcome<Value>>, vs: seq<Outcome<Value>>, acc: seq<(Value, Value)>, i: nat)
    requires |ks| == |vs| && i <= |ks| && Stored(ks, vs, acc, i).Done? && KeysApart(ks, acc, i)
    ensures |Stored(ks, vs, acc, i).value| == |acc| + |ks| - i
    decreases |ks| - i
  {
    if i < |ks| {
      var acc' := SetMapIndex(acc, ks[i].value, vs[i].value);
      assert KeysApart(ks, acc', i + 1);
      StoredExactSize(ks, vs, acc', i + 1);
    }
  }

  /** Outcomes that give back the pairs of an entry list with distinct keys rebuild it, in order. */
  lemma {:induction false} StoredRebuilds(ks: seq<Outcome<Value>>, vs: seq<Outcome<Value>>, es: seq<(Value, Value)>, i: nat)
    requires |ks| == |vs| == |es| && i <= |es| && DistinctKeys(es)
    requires forall j :: i <= j < |es| ==> ks[j] == Done(es[j].0) && vs[j] == Done(es[j].1)
    ensures Stored(ks, vs, es[..i], i) == Done(es)
    decreases |es| - i
  {
    if i == |es| {
      assert es[..i] == es;
    } else {
      KeySetIndex(es[..i], es[i].0);
      SetMapIndexFresh(es[..i], es[i].0, es[i].1);
      assert es[..i] + [(es[i].0, es[i].1)] == es[..i + 1];
      StoredRebuilds(ks, vs, es, i + 1);
    }
  }
}
