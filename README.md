# Key extraction and version downgrade, modelled in Dafny

This project models two small C++ metaprograms.

**Key extraction for an index** (`alice/alice.cpp`, module `KeyExtraction`).
`Index<accessors...>` is a class template. It takes pointers to data members,
pointers to member functions, or pointers to functions `Key f(Model const&)`.
From them the compiler derives:

- `Model`: the record type, taken from the first accessor;
- `Key`: one accessor's key type, or a `std::tuple` of every accessor's key type, in order;
- `model_type<...>::value`: a flag saying whether every accessor has the same `Model`.

These are all type-level rules. Here they become functions over type
descriptors (`Ty`, `AccessorType`). A result of `None` stands for a program
the compiler rejects: the primary `TypeExtractor` template is only declared,
`invoke_result_t` is ill-formed, or the pack is empty.

The one run-time operation is the static `extractKey`. It is modelled on
values (`Value`, `Key = Single | Tuple`). `ExtractKeyHasKeyType` links the two
levels: the key that `extractKey` builds has the type that `return_type`
derives. `Index::data` is modelled as a field that starts empty. The source
defines no operation on it.

**Version downgrade chain** (`Shenanigans/debugSample.cpp`, module `Downgrade`).
There are three record versions, `Person<0>`, `Person<1>` and `Person<2>`.
Each version above 0 has a `downgrade()` member that copies the shared fields
into the version below. The free `downgrade` template applies these members
until it reaches `Person<0>`. The model uses one datatype per version and a
sum type `AnyPerson` over them. `Downgrade` recurses with
`decreases Version()`. A by-name view of each record's fields (`Fields`) is
the independent reference against which every step is checked.

## Model

| member | source | states |
|---|---|---|
| `KeyExtraction.TypeExtractor` | alice/alice.cpp:14-33 | `TypeExtractor<T>` exists iff `T` is a data-member pointer, a pointer to a member function taking no arguments, or a pointer to a function taking one `Model const&`; for both pointer-to-member kinds Model_t is the owning class (the full rule, with Key_t, is `TypeExtractorMatches`) |
| `KeyExtraction.TypeExtractorMatches` | alice/alice.cpp:17-33 | for an accessor type that exists in C++ (no `void` member or parameter type), it yields Model_t = M and Key_t = K exactly when it is a data member `K M::*`, a member function of class M taking no arguments and returning K (const or not), or a function `K (*)(M const&)`; every other accessor type yields nothing |
| `KeyExtraction.PersonSetAgeRejected` | alice/alice.cpp:11 | `&Person::setAge`, a `void (Person::*)(int)`, has no `TypeExtractor`, so `Index<&Person::setAge>` does not compile |
| `KeyExtraction.FunctionAccessorTypes` | alice/alice.cpp:29-33 | `Key (*)(Model const&)` has Model_t = Model and Key_t = Key; the same function taking `Model` by value or by non-const reference matches no specialisation |
| `KeyExtraction.ExtractAll` | alice/alice.cpp:61-62 | a pack expansion over `TypeExtractor` is defined iff every element's extractor is defined, and gives them in pack order |
| `KeyExtraction.ModelType` | alice/alice.cpp:38-49 | `model_type<...>::type`, used by the `Model_t` alias (alice.cpp:68-69), exists iff the pack is non-empty and the first accessor has a `TypeExtractor`, and is then that accessor's Model_t (independence from the later accessors is `ModelTypeIsFirst`) |
| `KeyExtraction.ModelTypeIsFirst` | alice/alice.cpp:38-49 | `Model_t` is the first accessor's Model whatever accessors follow it, and is undefined when the first accessor has no extractor |
| `KeyExtraction.ModelCheck` | alice/alice.cpp:38-47 | `model_type<...>::value` is defined iff the pack is non-empty and every extractor is defined; it is true iff every accessor's Model equals the first accessor's Model |
| `KeyExtraction.AllModelsAreSpec` | alice/alice.cpp:46-47 | the fold `(is_same_v<M1, Mn> && ...)` is true iff every later Model equals the first |
| `KeyExtraction.ModelCheckSingle` | alice/alice.cpp:38-42 | with a single accessor the flag is `true` |
| `KeyExtraction.ReturnType` | alice/alice.cpp:54-66 | `Key_t` is defined iff the pack is non-empty and every extractor is defined; one accessor gives its own Key_t; several give a tuple with one element per accessor, the i-th being the i-th accessor's Key_t |
| `KeyExtraction.Invoke` | alice/alice.cpp:79-81 | `std::invoke` of a well-typed accessor on a record of its Model returns a value of that accessor's Key_t |
| `KeyExtraction.InvokeAll` | alice/alice.cpp:81 | `std::invoke(pMembers, model)...` yields one value per accessor, the i-th from the i-th accessor |
| `KeyExtraction.ExtractKey` | alice/alice.cpp:77-82 | with one accessor the key is that accessor applied to the record; with several it is a tuple of the same length whose i-th component is the i-th accessor applied to the record; it accepts only accessors that return a value, not `void`; given pure accessors (see Left out) it depends on the record alone |
| `KeyExtraction.ExtractKeyHasKeyType` | alice/alice.cpp:73-82 | the key `extractKey` returns is a value of the index's `Key` type |
| `KeyExtraction.ExtractKeyTakesModel` | alice/alice.cpp:74-77 | a record `extractKey` accepts is of the index's `Model` type, and then every accessor shares that Model, so the `model_type` flag is true |
| `KeyExtraction.ExtractKeyEqualIff` | alice/alice.cpp:77-82 | two records give equal keys iff every accessor gives equal values on them, position by position |
| `KeyExtraction.Instantiate` | alice/alice.cpp:71-75 | `Index<...>` instantiates iff the pack is non-empty, every extractor is defined, and it is not a sole accessor whose Key_t is `void` (`std::map<void, int>` is ill-formed); its Model is the first accessor's, its Key is `Key_t`, and its `data` map starts empty |
| `KeyExtraction.InstantiateIgnoresModelCheck` | alice/alice.cpp:71-83 | for every pack whose same-Model flag is defined, false as well as true, and whose `Key` is not `void`, `Index` instantiates; a pack with a Person member and a Car member has the flag false |
| `KeyExtraction.NonConstMemberFunctionNotInvocable` | alice/alice.cpp:20-22 | a non-const member function taking no arguments passes `TypeExtractor` (it is invoked on a non-const `Model`), so `Index` instantiates exactly when it does not return `void`, but `extractKey` cannot invoke it on its `Model const&` argument |
| `KeyExtraction.VoidKeyRejected` | alice/alice.cpp:73-75 | a sole accessor whose Key_t is `void` has the flag `true` and `Key` = `void`, yet `Index` does not instantiate, because its `std::map<Key, int> data` member is ill-formed |
| `KeyExtraction.ExtractKeyInstantiates` | alice/alice.cpp:71-82 | the accessors of any record `extractKey` accepts form an `Index` that instantiates |
| `KeyExtraction.InvocableKeyNotVoid` | alice/alice.cpp:79-81 | an accessor `extractKey` can invoke has a Key_t other than `void` |
| `KeyExtraction.PersonValue` | alice/alice.cpp:5-8 | a `Person` object is of class `Person` and has exactly the data members `firstName`, `lastName` and `age` |
| `KeyExtraction.PersonIndexByAgeTypes` | alice/alice.cpp:85-87 | `Index<&Person::age>` has Model = `Person` and Key = `int` |
| `KeyExtraction.PersonIndexByAgeKey` | alice/alice.cpp:77-79 | the age index's key of a Person is that Person's age |
| `KeyExtraction.PersonIndexByNameKey` | alice/alice.cpp:80-81 | an index on `firstName` and `lastName` has key type `tuple<string, string>` and keys a Person by the pair of their names, in that order |
| `Downgrade.Person1.Downgrade` | Shenanigans/debugSample.cpp:16-18 | `Person<1>::downgrade()` keeps `firstName` and `lastName` with their values and drops exactly `yob` |
| `Downgrade.Person2.Downgrade` | Shenanigans/debugSample.cpp:27-29 | `Person<2>::downgrade()` keeps `firstName`, `lastName` and `yob` with their values and drops exactly `idNumber` |
| `Downgrade.AnyPerson.DowngradeMember` | Shenanigans/debugSample.cpp:37-38 | the `downgrade()` member gives a record exactly one version lower that has every field of the original except the field that version added |
| `Downgrade.Downgrade` | Shenanigans/debugSample.cpp:35-44 | the free `downgrade` always ends at a `Person<0>` with the same `firstName` and `lastName` as its argument, and returns a `Person<0>` argument unchanged |
| `Downgrade.DowngradeKeepsSharedFields` | Shenanigans/debugSample.cpp:35-44 | end to end, the result has exactly the fields `Person<0>` shares with the argument, with the argument's values |
| `Downgrade.Iterate` | Shenanigans/debugSample.cpp:37-38 | each application of the `downgrade()` member lowers the version by one, so n applications lower it by n |
| `Downgrade.DowngradeIsIterate` | Shenanigans/debugSample.cpp:35-44 | the free `downgrade` is exactly `Version` applications of the `downgrade()` member, which end at a `Person<0>` |
| `Downgrade.MainExample` | Shenanigans/debugSample.cpp:47-49 | `downgrade(Person<2>{"Jonathan", "O'Connor", 1963, "12341234ABCD"})` is `Person<0>{"Jonathan", "O'Connor"}` |

## Left out

- ExtractKey, Invoke, InvokeAll: a function accessor is modelled as a pure, total function of the record (`call`). A C++ accessor may throw, read global state or have side effects, and the order of the `std::invoke` calls inside `std::make_tuple` (alice/alice.cpp:81) is unspecified; none of this is modelled.

- Console output in `main` (Shenanigans/debugSample.cpp:46-50): I/O. Only the value `downgrade(p2)` is modelled (`MainExample`).
- The `static_assert` branch of the free `downgrade` (Shenanigans/debugSample.cpp:41-42): every defined version is 0 or has a `downgrade()` member. Other versions of `Person<Version>` are only declared, so no record of them exists. The branch is an `assert false` that the verifier proves unreachable.
- `Person::birthYear`, `fullName` and `setAge` (alice/alice.cpp:9-11): declared but never defined, so they have no behaviour. Their pointers can be written as `MemberFnPtr` descriptors. Only `TypeExtractor`'s rule for member-function pointers is modelled, with the function's behaviour as a parameter (`call`). `PersonSetAgeRejected` shows that `setAge` is refused as an accessor.
- The commented-out alternative `Key_t` (alice/alice.cpp:23-26): dead code.
- Insert and lookup on `Index::data`: the source declares the `std::map<Key, int>` field but defines no operation on it. The model has only the empty map that instantiation creates. The same-Model flag is only computed, never checked; the model follows the code (`InstantiateIgnoresModelCheck`).
- The ordering of tuple keys inside `std::map`: a library property, not stated by this code.
- Type qualifiers, references and `std::decay_t`: `Ty` has no `const`, references, arrays or pointers. So decaying a member type is the identity, and a function's declared return type is its `Key_t` unchanged. Tuple-typed, floating-point and pointer values are not modelled.
- Inheritance and implicit conversions: a record is invocable with an accessor only if its class is exactly the accessor's class. `ExtractKeyTakesModel` holds only under this restriction.
- Ref-qualified and variadic member functions and other pointer kinds: not modelled in `TypeExtractor`. In particular a `noexcept` free function `Key (*)(Model const&) noexcept` matches neither specialisation since C++17, but `FnPtr` has no `noexcept` flag, so the model accepts its descriptor like the plain function pointer.
- Instantiate: a pack of several accessors one of which returns `void` is accepted, with a tuple `Key` that has a `void` component. Whether a standard library accepts the declaration `std::map<std::tuple<..., void, ...>, int>` depends on how much of the tuple it instantiates, which the model does not describe. `extractKey` rejects such a pack in every case (`Invocable` requires a non-`void` result), since `std::make_tuple` cannot take a `void` argument.
- `AccessorType` can describe types that do not exist in C++ (`void M::*`, `K (*)(void const&)`); `TypeExtractor` gives them a result, and `TypeExtractorMatches` is stated only for descriptors that are `WellFormed`.
- `model_type<V1, Vn...>` spells `TypeExtractor<decltype(V1)>::Model_t` as a template argument without `typename` (alice/alice.cpp:47). A conforming compiler is likely to reject that spelling. The model gives the line its evident meaning.
