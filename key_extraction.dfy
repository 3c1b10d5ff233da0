/**
 * Key extraction for an in-memory index (alice/alice.cpp).
 *
 * The C++ code works on types: `TypeExtractor`, `model_type` and
 * `return_type` are partial specialisations that the compiler evaluates.
 * Here those rules become ordinary functions over type descriptors, and a
 * result of `None` stands for a program the compiler rejects.  The one
 * run-time operation, `Index<...>::extractKey`, is modelled on values, and
 * a lemma ties the two levels together: the key it builds has the key type
 * that `return_type` derives.
 */
module KeyExtraction {
  import opened Wrappers

  // ---------------------------------------------------------------------
  // Type level
  // ---------------------------------------------------------------------

  /** The C++ types that occur as record (Model) and key types. */
  datatype Ty =
    | IntT
    | StringT
    | VoidT
    | ClassT(name: string)
    | TupleT(elems: seq<Ty>)

  /** How a function parameter is declared: `T`, `T&` or `T const&`. */
  datatype PassMode = ByValue | ByRef | ByConstRef

  datatype Param = Param(ty: Ty, mode: PassMode)

  /**
   * The type of one accessor constant, that is `decltype(V)` for one
   * template argument `V` of `Index`:
   *   DataMemberPtr  `Key Model::*` with `Key` an object type (`&Person::age`)
   *   MemberFnPtr    `Key Model::*` with `Key` a function type (`&Person::fullName`);
   *                  `isConst` records a `const` qualifier on the member function
   *   FnPtr          `Key (*)(Params...)`, a pointer to a free function
   */
  datatype AccessorType =
    | DataMemberPtr(owner: string, member: Ty)
    | MemberFnPtr(owner: string, ret: Ty, params: seq<Param>, isConst: bool)
    | FnPtr(ret: Ty, params: seq<Param>)

  /**
   * The descriptor names a C++ type that exists: `void` is neither a
   * member type (`void M::*` is ill-formed) nor a parameter type
   * (`K (*)(void const&)` is ill-formed).
   */
  predicate WellFormed(t: AccessorType)
  {
    match t
    case DataMemberPtr(_, member) => member != VoidT
    case MemberFnPtr(_, _, params, _) => forall p :: p in params ==> p.ty != VoidT
    case FnPtr(_, params) => forall p :: p in params ==> p.ty != VoidT
  }

  /** `Model_t` and `Key_t` of a `TypeExtractor` specialisation. */
  datatype Extracted = Extracted(model: Ty, key: Ty)

  /**
   * `TypeExtractor<T>`.  Pointers to members match the `Key Model::*`
   * specialisation, whose `Key_t` is the decayed result of invoking the
   * pointer on a `Model`: the member's type for a data member, the return
   * type for a member function taking no arguments, and ill-formed for a
   * member function that needs arguments.  `Key_t` invokes the pointer on
   * a non-const `Model`, so a `const` qualifier makes no difference here.
   * Pointers to functions match
   * `Key (*)(Model const&)` only when they take exactly one `Model const&`.
   * Anything else reaches the primary template, which is only declared.
   */
  function TypeExtractor(t: AccessorType): (r: Option<Extracted>)
    ensures r.Some? <==>
      || t.DataMemberPtr?
      || (t.MemberFnPtr? && t.params == [])
      || (t.FnPtr? && |t.params| == 1 && t.params[0].mode == ByConstRef)
    ensures r.Some? && !t.FnPtr? ==> r.value.model == ClassT(t.owner)
  {
    match t
    case DataMemberPtr(owner, member) => Some(Extracted(ClassT(owner), member))
    case MemberFnPtr(owner, ret, params, _) =>
      if params == [] then Some(Extracted(ClassT(owner), ret)) else None
    case FnPtr(ret, params) =>
      if |params| == 1 && params[0].mode == ByConstRef
      then Some(Extracted(params[0].ty, ret))
      else None
  }

  /**
   * Which accessor types yield a given `Model_t` and `Key_t`: exactly a
   * data member of type `key` in class `model`, a member function of
   * `model` taking no arguments and returning `key` (const or not), or a
   * function `key (*)(model const&)`.  Every other accessor type matches
   * no specialisation or makes `invoke_result_t` ill-formed.
   */
  lemma TypeExtractorMatches(t: AccessorType, model: Ty, key: Ty)
    requires WellFormed(t)
    ensures TypeExtractor(t) == Some(Extracted(model, key)) <==>
      || (model.ClassT? && t == DataMemberPtr(model.name, key))
      || (model.ClassT? && t.MemberFnPtr? && t.owner == model.name && t.ret == key && t.params == [])
      || t == FnPtr(key, [Param(model, ByConstRef)])
  {
  }

  /**
   * `&Person::setAge`, a `void (Person::*)(int)`: it needs an argument, so
   * `invoke_result_t` on a bare `Person` is ill-formed and neither
   * `TypeExtractor` nor `Index<&Person::setAge>` exists.
   */
  lemma PersonSetAgeRejected()
    ensures TypeExtractor(MemberFnPtr("Person", VoidT, [Param(IntT, ByValue)], false)) == None
    ensures Instantiate([MemberFnPtr("Person", VoidT, [Param(IntT, ByValue)], false)]) == None
  {
  }

  /** A function `Key f(Model const&)` has `Model_t == Model` and `Key_t == Key`. */
  lemma FunctionAccessorTypes(model: Ty, key: Ty)
    ensures TypeExtractor(FnPtr(key, [Param(model, ByConstRef)])) == Some(Extracted(model, key))
    ensures TypeExtractor(FnPtr(key, [Param(model, ByValue)])) == None
    ensures TypeExtractor(FnPtr(key, [Param(model, ByRef)])) == None
  {
  }

  /**
   * The `TypeExtractor` results of a whole pack, in pack order, or `None`
   * when any one of them is ill-formed (a pack expansion instantiates
   * every element).
   */
  function ExtractAll(ts: seq<AccessorType>): (r: Option<seq<Extracted>>)
    ensures r.Some? <==> forall i :: 0 <= i < |ts| ==> TypeExtractor(ts[i]).Some?
    ensures r.Some? ==> |r.value| == |ts|
    ensures r.Some? ==> forall i :: 0 <= i < |ts| ==> r.value[i] == TypeExtractor(ts[i]).value
  {
    if ts == [] then Some([])
    else
      match (TypeExtractor(ts[0]), ExtractAll(ts[1..]))
      case (Some(e), Some(es)) => Some([e] + es)
      case _ => None
  }

  /**
   * `model_type<Vs...>::type`, the `Model_t` alias: taken from the first
   * accessor alone, in both specialisations.
   */
  function ModelType(ts: seq<AccessorType>): (r: Option<Ty>)
    ensures r.Some? <==> |ts| > 0 && TypeExtractor(ts[0]).Some?
    ensures r.Some? ==> r.value == TypeExtractor(ts[0]).value.model
  {
    if ts == [] then None
    else
      match TypeExtractor(ts[0])
      case Some(e) => Some(e.model)
      case None => None
  }

  /** The Model type is the first accessor's Model whatever the others are. */
  lemma ModelTypeIsFirst(first: AccessorType, rest: seq<AccessorType>)
    ensures TypeExtractor(first).Some? ==>
      ModelType([first] + rest) == Some(TypeExtractor(first).value.model)
    ensures TypeExtractor(first).None? ==> ModelType([first] + rest) == None
    ensures ModelType([first] + rest) == ModelType([first])
  {
  }

  /** Every element's Model equals `model`: the fold `(is_same_v<M1, Mn> && ...)`. */
  function AllModelsAre(model: Ty, es: seq<Extracted>): bool
  {
    if es == [] then true else es[0].model == model && AllModelsAre(model, es[1..])
  }

  /**
   * `model_type<Vs...>::value`.  One accessor: the constant `true` (the
   * specialisation still needs that accessor's `Model_t`).  Several: true
   * iff every later accessor's Model is the first one's.  An empty pack
   * or an ill-formed `TypeExtractor` leaves it undefined.
   */
  function ModelCheck(ts: seq<AccessorType>): (r: Option<bool>)
    ensures r.Some? <==> |ts| > 0 && forall i :: 0 <= i < |ts| ==> TypeExtractor(ts[i]).Some?
    ensures r.Some? ==>
      (r.value <==> forall i :: 0 <= i < |ts| ==>
         TypeExtractor(ts[i]).value.model == TypeExtractor(ts[0]).value.model)
  {
    if ts == [] then None
    else if |ts| == 1 then
      (if TypeExtractor(ts[0]).Some? then Some(true) else None)
    else
      match ExtractAll(ts)
      case Some(es) =>
        AllModelsAreSpec(es[0].model, es[1..]);
        Some(AllModelsAre(es[0].model, es[1..]))
      case None => None
  }

  /** The fold is true iff every element's Model is `model`. */
  lemma {:induction false} AllModelsAreSpec(model: Ty, es: seq<Extracted>)
    ensures AllModelsAre(model, es) <==> forall i :: 0 <= i < |es| ==> es[i].model == model
  {
    if es != [] {
      AllModelsAreSpec(model, es[1..]);
      assert forall i :: 1 <= i < |es| ==> es[i].model == es[1..][i - 1].model;
    }
  }

  /** The single-accessor constant agrees with what the fold would give. */
  lemma ModelCheckSingle(t: AccessorType)
    requires TypeExtractor(t).Some?
    ensures ModelCheck([t]) == Some(true)
  {
  }

  /** The `Key_t` of every element, in order. */
  function Keys(es: seq<Extracted>): (ks: seq<Ty>)
    ensures |ks| == |es|
    ensures forall i :: 0 <= i < |es| ==> ks[i] == es[i].key
  {
    if es == [] then [] else [es[0].key] + Keys(es[1..])
  }

  /**
   * `return_type<Vs...>::type`, the `Key_t` alias: one accessor gives its
   * own `Key_t`; several give a `std::tuple` of their `Key_t`s in pack
   * order.
   */
  function ReturnType(ts: seq<AccessorType>): (r: Option<Ty>)
    ensures r.Some? <==> |ts| > 0 && forall i :: 0 <= i < |ts| ==> TypeExtractor(ts[i]).Some?
    ensures r.Some? && |ts| == 1 ==> r.value == TypeExtractor(ts[0]).value.key
    ensures r.Some? && |ts| > 1 ==>
      r.value.TupleT? && |r.value.elems| == |ts| &&
      forall i :: 0 <= i < |ts| ==> r.value.elems[i] == TypeExtractor(ts[i]).value.key
  {
    if ts == [] then None
    else if |ts| == 1 then
      match TypeExtractor(ts[0])
      case Some(e) => Some(e.key)
      case None => None
    else
      match ExtractAll(ts)
      case Some(es) => Some(TupleT(Keys(es)))
      case None => None
  }

  // ---------------------------------------------------------------------
  // Value level
  // ---------------------------------------------------------------------

  /** Run-time values: integers, strings and objects of a named class. */
  datatype Value =
    | IntV(i: int)
    | StrV(s: string)
    | ObjV(cls: string, fields: map<string, Value>)

  /** `v` is a value of type `t`. */
  predicate HasType(v: Value, t: Ty)
  {
    match v
    case IntV(_) => t == IntT
    case StrV(_) => t == StringT
    case ObjV(c, _) => t == ClassT(c)
  }

  /**
   * An accessor, with its type and its behaviour: a data member is read by
   * name; a function's behaviour on its one record argument is `call`.
   */
  datatype Accessor =
    | DataMember(owner: string, name: string, member: Ty)
    | MemberFunction(owner: string, ret: Ty, params: seq<Param>, isConst: bool, call: Value -> Value)
    | FreeFunction(ret: Ty, params: seq<Param>, call: Value -> Value)

  /** `decltype` of an accessor constant. */
  function TypeOf(a: Accessor): AccessorType
  {
    match a
    case DataMember(owner, _, member) => DataMemberPtr(owner, member)
    case MemberFunction(owner, ret, params, isConst, _) => MemberFnPtr(owner, ret, params, isConst)
    case FreeFunction(ret, params, _) => FnPtr(ret, params)
  }

  function TypesOf(accs: seq<Accessor>): (ts: seq<AccessorType>)
    ensures |ts| == |accs|
    ensures forall i :: 0 <= i < |accs| ==> ts[i] == TypeOf(accs[i])
  {
    if accs == [] then [] else [TypeOf(accs[0])] + TypesOf(accs[1..])
  }

  /**
   * `std::invoke(a, m)` with `m` a `Model const&`, as in `extractKey`,
   * type-checks: `a` has a `TypeExtractor`, `m` is of its Model type, a
   * data member is present in `m` with its declared type, a member
   * function is `const`, and a function does not return `void` (its
   * result is an argument of `std::make_tuple`, and a sole `void`
   * accessor gives no `Index` at all).
   */
  predicate Invocable(a: Accessor, m: Value)
  {
    && TypeExtractor(TypeOf(a)).Some?
    && HasType(m, TypeExtractor(TypeOf(a)).value.model)
    && (a.DataMember? ==> a.name in m.fields && HasType(m.fields[a.name], a.member))
    && (a.MemberFunction? ==> a.isConst)
    && (!a.DataMember? ==> a.ret != VoidT)
  }

  /**
   * A non-const member function taking no arguments passes
   * `TypeExtractor`, so `Index` instantiates with it unless it returns
   * `void`, but `extractKey` cannot invoke it on its `Model const&` for
   * any record.
   */
  lemma NonConstMemberFunctionNotInvocable(a: Accessor)
    requires a.MemberFunction? && a.params == [] && !a.isConst
    ensures TypeExtractor(TypeOf(a)).Some?
    ensures Instantiate([TypeOf(a)]).Some? <==> a.ret != VoidT
    ensures forall m :: !Invocable(a, m)
  {
  }

  /** A function accessor returns values of its declared return type. */
  ghost predicate ReturnsDeclared(a: Accessor)
  {
    !a.DataMember? ==> forall v :: Invocable(a, v) ==> HasType(a.call(v), a.ret)
  }

  /** `std::invoke(a, m)`: read the member, or call the function on `m`. */
  function Invoke(a: Accessor, m: Value): (v: Value)
    requires Invocable(a, m)
    ensures ReturnsDeclared(a) ==> HasType(v, TypeExtractor(TypeOf(a)).value.key)
  {
    match a
    case DataMember(_, name, _) => m.fields[name]
    case MemberFunction(_, _, _, _, call) => call(m)
    case FreeFunction(_, _, call) => call(m)
  }

  /** A key: one accessor's value, or a tuple of several in accessor order. */
  datatype Key = Single(v: Value) | Tuple(elems: seq<Value>)

  /** `k` is a value of the key type `t`. */
  predicate KeyHasType(k: Key, t: Ty)
  {
    match k
    case Single(v) => HasType(v, t)
    case Tuple(vs) =>
      t.TupleT? && |vs| == |t.elems| && forall i :: 0 <= i < |vs| ==> HasType(vs[i], t.elems[i])
  }

  /** Every accessor's value on `m`, in order. */
  function InvokeAll(accs: seq<Accessor>, m: Value): (vs: seq<Value>)
    requires forall i :: 0 <= i < |accs| ==> Invocable(accs[i], m)
    ensures |vs| == |accs|
    ensures forall i :: 0 <= i < |accs| ==> vs[i] == Invoke(accs[i], m)
  {
    if accs == [] then [] else [Invoke(accs[0], m)] + InvokeAll(accs[1..], m)
  }

  /**
   * `Index<accs...>::extractKey(m)`: with one accessor, that accessor's
   * value on `m`; with several, the tuple of their values in declaration
   * order.  It is a function of `m` alone and returns a new value.
   */
  function ExtractKey(accs: seq<Accessor>, m: Value): (k: Key)
    requires |accs| > 0
    requires forall i :: 0 <= i < |accs| ==> Invocable(accs[i], m)
    ensures |accs| == 1 ==> k == Single(Invoke(accs[0], m))
    ensures |accs| > 1 ==>
      k.Tuple? && |k.elems| == |accs| &&
      forall i :: 0 <= i < |accs| ==> k.elems[i] == Invoke(accs[i], m)
  {
    if |accs| == 1 then Single(Invoke(accs[0], m)) else Tuple(InvokeAll(accs, m))
  }

  /**
   * The key `extractKey` builds is a value of the type `return_type`
   * derives for the same accessors.
   */
  lemma ExtractKeyHasKeyType(accs: seq<Accessor>, m: Value)
    requires |accs| > 0
    requires forall i :: 0 <= i < |accs| ==> Invocable(accs[i], m)
    requires forall i :: 0 <= i < |accs| ==> ReturnsDeclared(accs[i])
    ensures ReturnType(TypesOf(accs)).Some?
    ensures KeyHasType(ExtractKey(accs, m), ReturnType(TypesOf(accs)).value)
  {
    var ts := TypesOf(accs);
    var kt := ReturnType(ts);
    var k := ExtractKey(accs, m);
    if |accs| == 1 {
      assert HasType(Invoke(accs[0], m), TypeExtractor(ts[0]).value.key);
    } else {
      forall i | 0 <= i < |accs|
        ensures HasType(k.elems[i], kt.value.elems[i])
      {
        assert k.elems[i] == Invoke(accs[i], m);
        assert kt.value.elems[i] == TypeExtractor(ts[i]).value.key;
      }
    }
  }

  /**
   * The record `extractKey` accepts is of the index's Model type, and in
   * this model (no inheritance, no conversions) every accessor then shares
   * that Model, so the `model_type` flag is true.
   */
  lemma ExtractKeyTakesModel(accs: seq<Accessor>, m: Value)
    requires |accs| > 0
    requires forall i :: 0 <= i < |accs| ==> Invocable(accs[i], m)
    ensures ModelType(TypesOf(accs)).Some?
    ensures HasType(m, ModelType(TypesOf(accs)).value)
    ensures ModelCheck(TypesOf(accs)) == Some(true)
  {
    var ts := TypesOf(accs);
    assert ts[0] == TypeOf(accs[0]);
    forall i | 0 <= i < |ts|
      ensures TypeExtractor(ts[i]).Some?
      ensures TypeExtractor(ts[i]).value.model == TypeExtractor(ts[0]).value.model
    {
      assert ts[i] == TypeOf(accs[i]);
      assert Invocable(accs[i], m);
      HasTypeUnique(m, TypeExtractor(ts[i]).value.model, TypeExtractor(ts[0]).value.model);
    }
  }

  /** The accessors of a record `extractKey` accepts always give an `Index`. */
  lemma ExtractKeyInstantiates(accs: seq<Accessor>, m: Value)
    requires |accs| > 0
    requires forall i :: 0 <= i < |accs| ==> Invocable(accs[i], m)
    ensures Instantiate(TypesOf(accs)).Some?
  {
    ExtractKeyTakesModel(accs, m);
    InvocableKeyNotVoid(accs[0], m);
  }

  /** An accessor `extractKey` can invoke has a `Key_t` other than `void`. */
  lemma InvocableKeyNotVoid(a: Accessor, m: Value)
    requires Invocable(a, m)
    ensures TypeExtractor(TypeOf(a)).value.key != VoidT
  {
  }

  /** A value has at most one type. */
  lemma HasTypeUnique(v: Value, t1: Ty, t2: Ty)
    requires HasType(v, t1) && HasType(v, t2)
    ensures t1 == t2
  {
  }

  /**
   * Two records give equal keys iff every accessor gives equal values on
   * them, position by position.
   */
  lemma ExtractKeyEqualIff(accs: seq<Accessor>, m1: Value, m2: Value)
    requires |accs| > 0
    requires forall i :: 0 <= i < |accs| ==> Invocable(accs[i], m1)
    requires forall i :: 0 <= i < |accs| ==> Invocable(accs[i], m2)
    ensures ExtractKey(accs, m1) == ExtractKey(accs, m2) <==>
      forall i :: 0 <= i < |accs| ==> Invoke(accs[i], m1) == Invoke(accs[i], m2)
  {
  }

  // ---------------------------------------------------------------------
  // The Index class template
  // ---------------------------------------------------------------------

  /**
   * An instantiated `Index<accs...>`: its `Key` and `Model` member types
   * and its `data` map, which no member of `Index` ever updates.
   */
  datatype Index = Index(key: Ty, model: Ty, data: map<Key, int>)

  /**
   * Instantiating `Index<accs...>` needs its `Key` and `Model` aliases
   * and the member `std::map<Key, int> data`, which is ill-formed when
   * `Key` is `void` (a sole accessor returning `void`); it does not look
   * at `model_type<...>::value`.
   */
  function Instantiate(ts: seq<AccessorType>): (r: Option<Index>)
    ensures r.Some? <==>
      && |ts| > 0
      && (forall i :: 0 <= i < |ts| ==> TypeExtractor(ts[i]).Some?)
      && !(|ts| == 1 && TypeExtractor(ts[0]).value.key == VoidT)
    ensures r.Some? ==> r.value.data == map[]
    ensures r.Some? ==> r.value.model == TypeExtractor(ts[0]).value.model
    ensures r.Some? ==> Some(r.value.key) == ReturnType(ts)
  {
    match (ReturnType(ts), ModelType(ts))
    case (Some(k), Some(m)) => if k == VoidT then None else Some(Index(k, m, map[]))
    case _ => None
  }

  /**
   * `Index` does not enforce the same-Model check: whenever the flag is
   * defined, true or false, and `Key` is not `void`, the index
   * instantiates; a Person/Car pack shows that the false case occurs.
   */
  lemma InstantiateIgnoresModelCheck(ts: seq<AccessorType>)
    ensures ModelCheck(ts).Some? && ReturnType(ts) != Some(VoidT) ==> Instantiate(ts).Some?
    ensures var mixed := [DataMemberPtr("Person", IntT), DataMemberPtr("Car", IntT)];
      ModelCheck(mixed) == Some(false) && Instantiate(mixed).Some?
  {
  }

  /**
   * A sole accessor whose `Key_t` is `void` has a `TypeExtractor` and a
   * same-Model flag of `true`, yet `Index` does not instantiate:
   * `std::map<void, int>` is ill-formed.
   */
  lemma VoidKeyRejected(t: AccessorType)
    requires TypeExtractor(t).Some? && TypeExtractor(t).value.key == VoidT
    ensures ModelCheck([t]) == Some(true)
    ensures ReturnType([t]) == Some(VoidT)
    ensures Instantiate([t]) == None
  {
  }

  // ---------------------------------------------------------------------
  // The Person record and PersonIndexByAge
  // ---------------------------------------------------------------------

  /** `&Person::age`, `&Person::firstName`, `&Person::lastName`. */
  const PersonAge := DataMember("Person", "age", IntT)
  const PersonFirstName := DataMember("Person", "firstName", StringT)
  const PersonLastName := DataMember("Person", "lastName", StringT)

  /** A `Person` object with its three data members. */
  function PersonValue(firstName: string, lastName: string, age: int): (p: Value)
    ensures HasType(p, ClassT("Person"))
    ensures p.fields.Keys == {"firstName", "lastName", "age"}
  {
    ObjV("Person", map["firstName" := StrV(firstName), "lastName" := StrV(lastName), "age" := IntV(age)])
  }

  /** `Index<&Person::age>` has `Model == Person` and `Key == int`. */
  lemma PersonIndexByAgeTypes()
    ensures Instantiate([TypeOf(PersonAge)]) == Some(Index(IntT, ClassT("Person"), map[]))
  {
  }

  /** The age index's key of a Person is that Person's age. */
  lemma PersonIndexByAgeKey(firstName: string, lastName: string, age: int)
    ensures Invocable(PersonAge, PersonValue(firstName, lastName, age))
    ensures ExtractKey([PersonAge], PersonValue(firstName, lastName, age)) == Single(IntV(age))
  {
  }

  /** A two-accessor index on the names keys by the pair (firstName, lastName). */
  lemma PersonIndexByNameKey(firstName: string, lastName: string, age: int)
    ensures ReturnType([TypeOf(PersonFirstName), TypeOf(PersonLastName)]) == Some(TupleT([StringT, StringT]))
    ensures var p := PersonValue(firstName, lastName, age);
      Invocable(PersonFirstName, p) && Invocable(PersonLastName, p) &&
      ExtractKey([PersonFirstName, PersonLastName], p) == Tuple([StrV(firstName), StrV(lastName)])
  {
    var p := PersonValue(firstName, lastName, age);
    var k := ExtractKey([PersonFirstName, PersonLastName], p);
    assert k.elems == [StrV(firstName), StrV(lastName)];
    var kt := ReturnType([TypeOf(PersonFirstName), TypeOf(PersonLastName)]);
    assert kt.value.elems == [StringT, StringT];
  }
}
