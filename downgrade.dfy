/**
 * The version downgrade chain (Shenanigans/debugSample.cpp).
 *
 * Three versions of a person record, `Person<0>` to `Person<2>`, each
 * later one adding one field.  Every version above 0 has a `downgrade()`
 * member that copies the shared fields into the version below, and the
 * free `downgrade` template applies those members until it reaches
 * `Person<0>`.
 */
module Downgrade {

  /** `Person<0>`. */
  datatype Person0 = Person0(firstName: string, lastName: string)

  /** `Person<1>`: adds the year of birth. */
  datatype Person1 = Person1(firstName: string, lastName: string, yob: int)
  {
    /** `Person<1>::downgrade()`: keeps the names, drops `yob`. */
    function Downgrade(): (r: Person0)
      ensures Fields(V0(r)) == Fields(V1(this)) - {"yob"}
    {
      Person0(firstName, lastName)
    }
  }

  /** `Person<2>`: adds an identity number. */
  datatype Person2 = Person2(firstName: string, lastName: string, yob: int, idNumber: string)
  {
    /** `Person<2>::downgrade()`: keeps names and `yob`, drops `idNumber`. */
    function Downgrade(): (r: Person1)
      ensures Fields(V1(r)) == Fields(V2(this)) - {"idNumber"}
    {
      Person1(firstName, lastName, yob)
    }
  }

  /** `Person<Version>` for one of the versions the program defines. */
  datatype AnyPerson = V0(p0: Person0) | V1(p1: Person1) | V2(p2: Person2)
  {
    function Version(): nat
    {
      match this
      case V0(_) => 0
      case V1(_) => 1
      case V2(_) => 2
    }

    /** Whether `current.downgrade()` is well-formed for this version. */
    predicate HasDowngradeMember()
    {
      V1? || V2?
    }

    /** The `downgrade()` member of this version, as a record one version lower. */
    function DowngradeMember(): (r: AnyPerson)
      requires HasDowngradeMember()
      ensures r.Version() == Version() - 1
      ensures Fields(r) == Fields(this) - {NewestField(Version())}
    {
      match this
      case V1(p) => V0(p.Downgrade())
      case V2(p) => V1(p.Downgrade())
    }

    function FirstName(): string
    {
      match this
      case V0(p) => p.firstName
      case V1(p) => p.firstName
      case V2(p) => p.firstName
    }

    function LastName(): string
    {
      match this
      case V0(p) => p.lastName
      case V1(p) => p.lastName
      case V2(p) => p.lastName
    }
  }

  /** The value of one field, for comparing records of different versions. */
  datatype FieldValue = Text(s: string) | Number(n: int)

  /** A record's fields by name: an independent view of what each version holds. */
  function Fields(p: AnyPerson): map<string, FieldValue>
  {
    match p
    case V0(q) => map["firstName" := Text(q.firstName), "lastName" := Text(q.lastName)]
    case V1(q) => map["firstName" := Text(q.firstName), "lastName" := Text(q.lastName),
                      "yob" := Number(q.yob)]
    case V2(q) => map["firstName" := Text(q.firstName), "lastName" := Text(q.lastName),
                      "yob" := Number(q.yob), "idNumber" := Text(q.idNumber)]
  }

  /** The field a version adds to the one below it. */
  function NewestField(version: nat): string
    requires 1 <= version <= 2
  {
    if version == 2 then "idNumber" else "yob"
  }

  /**
   * The free `downgrade` template: while the record has a `downgrade()`
   * member, apply it and recurse; at version 0 return the record itself.
   * The third branch, a version that is neither 0 nor has a `downgrade()`
   * member, is a build error in the source and cannot arise here.
   */
  function Downgrade(p: AnyPerson): (r: Person0)
    ensures r.firstName == p.FirstName() && r.lastName == p.LastName()
    ensures p.V0? ==> r == p.p0
    decreases p.Version()
  {
    if p.HasDowngradeMember() then
      Downgrade(p.DowngradeMember())
    else if p.Version() == 0 then
      p.p0
    else
      assert false; Person0("", "")
  }

  /**
   * End to end, `downgrade` keeps exactly the fields `Person<0>` has, with
   * their values, and drops every field added above version 0.
   */
  lemma DowngradeKeepsSharedFields(p: AnyPerson)
    ensures Fields(V0(Downgrade(p))) == Fields(p) - {"yob", "idNumber"}
  {
  }

  /** `n` applications of the `downgrade()` member, each one version lower. */
  function Iterate(p: AnyPerson, n: nat): (r: AnyPerson)
    requires n <= p.Version()
    ensures r.Version() == p.Version() - n
    decreases n
  {
    if n == 0 then p else Iterate(p.DowngradeMember(), n - 1)
  }

  /**
   * The free `downgrade` is exactly `Version()` applications of the
   * `downgrade()` member, which end at version 0.
   */
  lemma {:induction false} DowngradeIsIterate(p: AnyPerson)
    ensures Iterate(p, p.Version()).V0?
    ensures Downgrade(p) == Iterate(p, p.Version()).p0
    decreases p.Version()
  {
    if p.HasDowngradeMember() {
      DowngradeIsIterate(p.DowngradeMember());
    }
  }

  /** `main`'s record downgrades to "Jonathan" "O'Connor". */
  lemma MainExample()
    ensures Downgrade(V2(Person2("Jonathan", "O'Connor", 1963, "12341234ABCD")))
      == Person0("Jonathan", "O'Connor")
  {
  }
}
