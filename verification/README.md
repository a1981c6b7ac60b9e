# xconv in Dafny

xconv copies the content of one Go value into another of a possibly different type,
using reflection. A `Convertor` is built over a source value. `Apply(dst)` then
writes the converted source through the destination pointer. The conversion
recurses through the value:

- slices are rebuilt element by element;
- arrays are overwritten in place up to the shorter length;
- maps are rebuilt entry by entry;
- structs are filled field by field, by name.

Every other pair of values is handed to `applyField`. It looks for a rule in two
tables, in this order:

- the session's own table, filled by `Rule`/`Rules`;
- the process-wide table `ConvertMap`, which `init` fills with integer, float,
  string and `time.Time` rules.

The tables are keyed by the type or kind names of the two sides. `Get` probes four
keys: type:type, type:kind, kind:type, then kind:kind. It skips every probe whose
kind side would be `struct`. Single struct fields can be overridden by their dotted
path with `Field`.

The model has eight modules, one file each:

- `Reflect` (`reflect.dfy`) — the slice of Go's type system and `reflect` API the
  engine touches:
  - types, kinds and values;
  - zero values and integer narrowing;
  - `Indirect`, `Len`, `Index`, `FieldByName`;
  - maps as entry sequences with `MapIndex`/`SetMapIndex`.
- `Utils` (`utils.dfy`) — `isFuncValid`, as a method with its two loops, and `min`.
- `Rules` (`rules.dfy`) — `typeName`, `key`, the `convertMapT` class with `Set`, and
  `Get`'s probe order. It also holds the built-in table as `init` fills it and the
  bodies of the built-in rules.
- `Convertor` (`convertor.dfy`):
  - the `Convertor` class with its fields, `NewConvertor`, `Rule`, `Rules`, `Field`,
    `TimeFormat` and `Apply`;
  - `makeDstVal`;
  - `apply`, `applyField` and `applyStruct` as methods with their loops. Each
    method is proved equal to a recursive specification function (`Conv`,
    `ConvField`, `ConvStruct`, …).
- `Folds` (`folds.dfy`) — facts about the three loop shapes: append, replace in
  place, store into a map.
- `Laws` (`laws.dfy`) — what each case of `apply` produces, element by element and
  field by field, and `applyField`'s order of precedence.
- `Identity` (`identity.dfy`) — with no session rules, converting a value into a
  slot of its own type returns the value.
- `Builtins` (`builtin.dfy`) — the keys of distinct name pairs differ. The built-in
  table has exactly the entries `init` registers; its lookups find the integer and
  Unix-seconds rules and nothing for pointers. The value-level consequences follow
  from that.

The model follows the code where the package's own description says something
else:

- **A nil source.** A nil source pointer makes `apply` panic; the destination is not
  left unmodified. `apply` dereferences it to the zero `reflect.Value`, and the
  first call on that panics: `Len` for a slice or array destination, `MapKeys`
  for a map, `Type()` (through `Get`) for any other. The model returns
  `Panic(NilSource)` (`Laws.NilSourcePanics`).
- **`**T` into `**T`.** `apply` dereferences the source only once, so `applyField`
  meets a `*T` source and a freshly allocated `T` slot. What happens next depends
  on the kind of `T`:
  - `T` not a slice, array, map or struct: no rule matches a pointer source and
    the types differ, so the destination ends up pointing at a zero `T`
    (`Builtins.DoublePointerZeroed`, for the integer kinds).
  - `T` a struct with no exported field, `time.Time` included: the same, a zero `T`.
  - `T` a struct whose first field is exported: `applyStruct` asks
    `FieldByName` of the pointer type, which panics
    (`Builtins.DoublePointerStructPanics`).
  - `T` a slice, array or map: `Len` or `MapKeys` of the pointer panics.

## Model

| member | source | states |
|---|---|---|
| Reflect.Narrow | rules.go:21-23 | `SetInt` into a narrower integer: the stored value is in the destination width's range, congruent to the source modulo 2^bits (two's-complement wrap-around), and equal to the source when it already fits |
| Reflect.ZeroWellFormed | convertor.go:96-99 | `reflect.New(t).Elem()` yields a well-formed value of type `t` |
| Reflect.Indirect | convertor.go:77-80 | `reflect.Indirect` gives nothing exactly for a nil pointer; otherwise the pointee of a pointer (strictly smaller) or the value itself |
| Reflect.Index | convertor.go:88-90 | `Index` succeeds exactly on non-map values, and the element it returns is a strict part of the value |
| Reflect.FieldByName | convertor.go:127-129 | `FieldByName` panics exactly when the source is neither a struct nor a `time.Time`; on a struct it finds a field exactly when one carries the requested name, and what it returns is the first such field, a strict part of the source |
| Reflect.FindField | convertor.go:127-129 | the search from position `j` finds a field exactly when one at or after `j` has the name, and returns the first of them |
| Reflect.MapIndex | convertor.go:92-103 | a key is found exactly when it is among the entries' keys |
| Reflect.MapIndexFirst | convertor.go:92-103 | the value found is the one paired with the first entry holding the key |
| Reflect.SetMapIndex | convertor.go:101 | after `SetMapIndex(k, v)`, `k` maps to `v` and every other key keeps its value; the key set gains `k`; the length grows exactly when `k` was new; distinct keys stay distinct |
| Reflect.SetMapIndexFresh | convertor.go:101 | storing a key the map does not hold appends the pair |
| Utils.IsFuncValid | utils.go:40-81 | valid exactly when the value is a function and each side either is unconstrained (nil) or has the listed arity with every parameter meeting its requirement |
| Utils.Requirements | utils.go:41-56 | what each requirement accepts: a `reflect.Kind` exactly the types of that kind, a non-interface `reflect.Type` exactly that type, an interface type the types that implement it, a nil slot any type |
| Utils.OneInOneOut | convertor.go:43-44 | the check `Field` runs accepts exactly functions with one parameter and one result |
| Utils.Min | utils.go:83-88 | the result is at most both arguments and is one of them |
| Rules.RowLaw | rules.go:60-63 | one row of `Set` adds exactly the keys (a, o) for every `o`, maps them to the rule, and leaves every other key's rule alone |
| Rules.RegisterLaw | rules.go:58-65 | `Set(ins, outs, f)` adds exactly the cross product of the key names, maps each to `f` (so the last registration wins), and leaves other keys unchanged |
| Rules.ConvertMap.constructor | rules.go:54-56 | `newConvertMap` starts with an empty table |
| Rules.ConvertMap.Set | rules.go:58-65 | the table after `Set` is the old table with the cross product registered |
| Rules.ConvertMap.SetRow | rules.go:60-63 | the inner loop of `Set` registers one input against every output |
| Rules.ProbesAreKept | rules.go:67-80 | `Get`'s probe list is the four candidates, type:type, type:kind, kind:type, kind:kind, with each struct-kind probe dropped |
| Rules.ProbesExactFirst | rules.go:69 | the exact type:type pair is always probed, and probed first |
| Rules.ProbesSkipStruct | rules.go:70-79 | no probe has `struct` on a kind side |
| Rules.FirstPresentLaw | rules.go:81-88 | the lookup returns nothing exactly when no probe from position `i` on is in the table; otherwise it returns the rule of the first such probe |
| Rules.GetMissing | rules.go:67-89 | `Get` returns nothing exactly when none of its probe keys is registered |
| Rules.GetFirst | rules.go:67-89 | when `Get` returns a rule, it is the rule of the first registered probe key, and every earlier probe is absent |
| Rules.GetEmpty | rules.go:54-56 | a fresh table has a rule for no pair of values |
| Rules.NewBuiltinMap | rules.go:18-48 | `init` leaves `ConvertMap` holding the seven registrations in order (the table `Builtins.BuiltinTableLaw` characterises) |
| Rules.RunRule | rules.go:21-47 | a rule that succeeds writes a value of the destination's type |
| Builtins.TagsApart | rules.go:91-97 | a `KIND-` name never equals a `TYPE-` name |
| Builtins.ValueNamesAsType | rules.go:98-100 | a `reflect.Value` descriptor is named by its type |
| Builtins.InstanceNames | rules.go:101-102 | any other descriptor is named by the type of its `reflect.Indirect`: a pointer by its pointee type, anything else by its own type |
| Builtins.ColonSplit | rules.go:105-107 | joining with `:` is injective when the left halves have no colon |
| Builtins.KeyInjective | rules.go:105-107 | two keys are equal exactly when both their input names and their output names are equal |
| Builtins.KindNamedInverts | rules.go:92-94 | the kind a `KIND-` name spells can be read back from the name |
| Builtins.KindNamesApart | rules.go:92-94 | distinct kinds have distinct names |
| Builtins.TimeName | rules.go:34 | `new(time.Time)` registers under `TYPE-time.Time` |
| Builtins.BuiltinTableLaw | rules.go:18-48 | a key is in the built-in table exactly when some registration covers it, and its rule is the one of the last such registration |
| Builtins.IntPairEntry | rules.go:20-23 | every pair of signed integer kinds maps to the integer rule |
| Builtins.IntTimeEntry | rules.go:33-36 | `int`, `int32` and `int64` kinds map to the Unix-seconds rule into `time.Time` |
| Builtins.TimeIntEntry | rules.go:37-38 | `time.Time` into the `int`, `int32` and `int64` kinds maps to the rule taking its Unix seconds |
| Builtins.Unregistered | rules.go:18-48 | a pair of names that misses every one of the seven registrations on its input side or its output side has no built-in rule |
| Builtins.TypeSourceAbsent | rules.go:18-48 | no built-in key has a non-time type name as its input |
| Builtins.KindToTypeAbsent | rules.go:18-48 | no built-in key pairs a kind input with a non-time type output |
| Builtins.TimeToTypeAbsent | rules.go:37-47 | no built-in key pairs `time.Time` with another type name |
| Builtins.UnregisteredKindAbsent | rules.go:18-48 | a kind pair outside the registered groups (unsigned, bool, pointer, …) has no built-in rule |
| Builtins.IntRuleFound | rules.go:67-89 | `Get` on two signed integers finds the integer rule through the kind:kind probe |
| Builtins.IntTimeFound | rules.go:33-36 | `Get` from an `int`/`int32`/`int64` into a `time.Time` finds the Unix-seconds rule |
| Builtins.TimeIntFound | rules.go:37-38 | `Get` from a `time.Time` into an `int`/`int32`/`int64` finds the rule that takes its Unix seconds |
| Builtins.NoPointerRule | rules.go:67-89 | with a pointer to an integer as the source and an integer as the destination, every probe of the built-in table misses |
| Builtins.IntConversion | rules.go:21-23 | converting a signed integer into another stores it narrowed to the destination width |
| Builtins.IntToTimeConversion | rules.go:35-36 | an `int`/`int32`/`int64` converts to the time `time.Unix(i, 0)` |
| Builtins.TimeToIntConversion | rules.go:37-38 | a `time.Time` converts to its Unix seconds, narrowed to the destination width |
| Builtins.UnixSecondsRoundTrip | rules.go:33-38 | integer to time and back gives the original integer |
| Builtins.DoublePointerZeroed | convertor.go:76-81 | converting `**int` into `**int` leaves the destination pointing at a zero `int` |
| Builtins.StructFromPointerPanics | convertor.go:109-129 | `applyStruct` with a source that is still a pointer panics at the first exported field without an override |
| Builtins.NoStructPointerRule | rules.go:67-88 | the built-in table has no rule from a pointer to a struct into that struct |
| Builtins.StructSlotFromPointerPanics | convertor.go:137-155 | `applyField` from a pointer to a struct into a zero of that struct, with no rule, descends and panics |
| Builtins.DoublePointerStructPanics | convertor.go:76-81 | converting `**S` into `**S`, for a struct `S` with an exported first field, panics whatever both held |
| Convertor.InnerSlot | convertor.go:59-66 | `makeDstVal` goes through every pointer layer to a non-pointer slot, and that slot is the zero value of the innermost type |
| Convertor.Conv | convertor.go:76-107 | `apply` writes into a slot only values of the slot's type |
| Convertor.ConvKind | convertor.go:82-106 | the dispatch on the destination's kind keeps the destination's type |
| Convertor.ConvSlice | convertor.go:84-90 | the slice case yields a slice of the destination's element type |
| Convertor.ConvArray | convertor.go:84-91 | the array case yields an array of the destination's element type and length |
| Convertor.ConvMap | convertor.go:92-103 | the map case yields a map of the destination's key and value types |
| Convertor.ConvField | convertor.go:137-155 | `applyField` keeps the destination's type |
| Convertor.ConvUnowned | convertor.go:146-154 | the global-rule, struct and fall-through branches keep the destination's type |
| Convertor.ConvStruct | convertor.go:109-135 | `applyStruct` keeps the destination struct's type |
| Convertor.FieldStep | convertor.go:115-133 | one field of the struct loop keeps the field's type |
| Convertor.UnruledStep | convertor.go:126-133 | a field without an override keeps its type |
| Convertor.CallOverride | convertor.go:121-124 | what a field override yields always has the field's type |
| Convertor.ApplyTop | convertor.go:68-74 | `Apply` on a nil destination pointer panics; otherwise it succeeds exactly when `apply` of the source into the pointee does, and the pointer then holds that conversion, keeping its type |
| Convertor.MakeDstVal | convertor.go:59-66 | returns the innermost non-pointer slot, the zero value of the innermost type |
| Convertor.Convert | convertor.go:17-19 | `Convert` is `Apply` of a fresh session over the process-wide table |
| Convertor.Convertor.constructor | convertor.go:21-30 | `NewConvertor` starts with the default time layout, no field overrides, an empty field stack and a fresh empty rule table |
| Convertor.Convertor.Rule | convertor.go:32-35 | `Rule` registers the one pair in the session's table |
| Convertor.Convertor.Rules | convertor.go:37-40 | `Rules` registers the cross product in the session's table |
| Convertor.Convertor.Field | convertor.go:42-49 | an override is stored under its path exactly when it is a one-in, one-out function; otherwise nothing changes |
| Convertor.Convertor.TimeFormat | convertor.go:51-57 | the empty layout restores the default; any other layout replaces it |
| Convertor.Convertor.Apply | convertor.go:68-74 | the method computes `ApplyTop` and leaves the field stack as it found it |
| Convertor.Convertor.ApplySlot | convertor.go:76-81 | the method computes `Conv` (dereference, `makeDstVal`, convert, write back) |
| Convertor.Convertor.ApplyKind | convertor.go:82-106 | the method computes `ConvKind` |
| Convertor.Convertor.ApplySlice | convertor.go:84-90 | the loop computes `ConvSlice` |
| Convertor.Convertor.ApplyArray | convertor.go:84-91 | the loop computes `ConvArray` |
| Convertor.Convertor.ApplyMap | convertor.go:92-103 | the loop computes `ConvMap` |
| Convertor.Convertor.ApplyField | convertor.go:137-145 | the method computes `ConvField` |
| Convertor.Convertor.ApplyUnowned | convertor.go:146-154 | the method computes `ConvUnowned` |
| Convertor.Convertor.ApplyStruct | convertor.go:109-135 | the loop computes `ConvStruct` |
| Convertor.Convertor.ApplyStructField | convertor.go:115-125 | the loop body computes `FieldStep` |
| Convertor.Convertor.ApplyUnruledField | convertor.go:126-133 | the method computes `UnruledStep` |
| Convertor.Convertor.ApplyFound | convertor.go:127-132 | the field name is pushed for the recursive call and popped afterwards |
| Laws.SliceFromIsAppended | convertor.go:85-90 | the slice loop appends the converted elements in order |
| Laws.SliceLaw | convertor.go:84-90 | the slice case succeeds exactly when every element converts; the result then has the source's length, and element `j` is element `j` of the source converted into a zero slot |
| Laws.ArrayFromIsReplaced | convertor.go:85-90 | the array loop replaces the elements in place, in order |
| Laws.ArrayLaw | convertor.go:84-91 | the array case panics on a source with no length; it succeeds exactly when the first `min(len dst, len src)` elements convert; those are replaced by their conversions and the rest are kept |
| Laws.MapFromIsStored | convertor.go:95-102 | the map loop stores every converted entry in order |
| Laws.MapLaw | convertor.go:92-103 | a non-map source panics; on success the keys are distinct, every converted key is present, and every entry comes from a source entry; there are at most as many entries as in the source, and exactly as many when the converted keys stay apart |
| Laws.FieldsFromIsReplaced | convertor.go:112-134 | the struct loop replaces the fields in place, in order |
| Laws.StructDone | convertor.go:109-135 | a non-struct destination is returned unchanged; a struct destination is filled exactly when every field step succeeds |
| Laws.StructLaw | convertor.go:112-134 | on success the fields are as follows: an unexported field is kept; an overridden field gets the override's result; any other field gets the result of the field step |
| Laws.UnruledFieldLaw | convertor.go:126-133 | a field step needs a struct source; a missing source field leaves the freshly allocated slot; a present one is converted with its name pushed on the stack |
| Laws.FieldPrecedence | convertor.go:137-155 | the whole order of `applyField`: a matching session rule decides; otherwise a source of the destination's type is copied; otherwise a matching process-wide rule decides; otherwise a struct destination is filled field by field and any other destination is left as it was |
| Laws.NilSourcePanics | convertor.go:76-80 | a nil source pointer makes `apply` panic, whatever the destination |
| Laws.WrapShape | convertor.go:60-64 | the pointer chain built over a slot has the requested type, is allocated at every layer, and ends in that slot |
| Laws.FreshLayers | convertor.go:59-66 | what `makeDstVal` allocates depends only on the destination's type: the old pointees are never read, and the rebuilt value has the original type and is allocated throughout |
| Identity.ConvIdentity | convertor.go:76-107 | with no session rules, converting a value whose pointers are all allocated (and point at non-pointers) into a slot of its own type returns the value |
| Identity.KindIdentity | convertor.go:82-106 | the kind dispatch returns the source unchanged under those conditions |
| Identity.FieldIdentity | convertor.go:142-145 | `applyField` copies a source of the destination's type when the session has no rules |
| Identity.SliceIdentity | convertor.go:84-90 | a slice converted into its own type is rebuilt equal |
| Identity.ArrayIdentity | convertor.go:84-91 | an array converted into its own type is rebuilt equal |
| Identity.MapIdentity | convertor.go:92-103 | a map converted into its own type is rebuilt equal, entry for entry |

## Left out

- Logging: the three warnings are not modelled, only their outcome. `applyField` warns of an unconvertible pair and leaves the destination unchanged (convertor.go:154). `applyStruct` warns of a field it cannot set and skips it (convertor.go:117), and of a field the source lacks and leaves the fresh slot (convertor.go:132).
- Go's `int` (`IntWidth.W`) is taken to be 64 bits wide, which decides `Reflect.Narrow` and `Reflect.InRange` for it; 32-bit platforms are not modelled.
- Library code rules call is a parameter of the model (the `Host` record): `time.Parse`, `Time.Format`, the rounding of a float64 stored into a float32, `Type.Implements`, the bodies of session rules and field overrides.
- Reflect.Len, Reflect.Index, Reflect.Exported: strings are sequences of characters, but Go strings are bytes. `Len` counts characters, not bytes. `Index` returns the character code as a `uint8`, which is a byte only when the code is below 256. For strings whose characters are all below 256 both agree with Go. `Exported` accepts only an ASCII capital as the first letter, where Go asks `unicode.IsUpper` of the first rune; a field named with a non-ASCII capital counts as unexported.
- Floating point: float rules carry `real`s; IEEE semantics are not modelled.
- Rules.RunRule: `time.Unix` and `Time.Unix` are modelled as seconds only, with no nanoseconds or location.
- A nil interface as the source, and sources that are not addressable, are not modelled.
- Convertor.ApplyTop: the destination of `Apply` must be a pointer (a precondition). `Apply` (convertor.go:68-74) dereferences only a pointer, so a non-pointer destination reaches `apply` unaddressable. Go then panics at the first `Set`, `SetInt` or `SetMapIndex` on it. A struct destination is a silent no-op instead: no field can be set, so `applyStruct` skips them all. Neither outcome is modelled.
- Rules.ConvertMap.Set: descriptors must be nameable (a precondition). Go panics at `Type()` of the zero `reflect.Value` (rules.go:101) in two cases. One is an untyped nil, which no `Descriptor` represents. The other is a nil pointer of any type, a `DInstance` of a nil `VPtr`.
- Convertor.Convertor.Field: the panic on an invalid function is modelled as `accepted == false`, with the overrides unchanged.
- Partial writes before a panic: after a `Panic` outcome the model does not say what the destination holds.
- Aliasing: values are immutable trees, so shared pointers, cycles and slice capacity are not modelled. A nil slice or map and an empty one are the same value.
- Map iteration order is Go's random order; the model fixes it as the order of the entries.
- Embedded fields, anonymous structs, and assignability beyond identical types are not modelled.
- Session rules and field overrides are identified by numbers; their bodies are `Host` functions.
- The process-wide `ConvertMap` is passed to each session as an object rather than read from a package variable.
- Concurrency: the package does no locking; the model is sequential.
