/**
 * The employee record as stored, its phone entries, the request shapes of
 * create and update, and the public view (EmployeeDto) that get, list,
 * create and update of the employee service return.
 */
module Entities {
  import opened Wrappers
  import opened Dates

  /** One phone entry of an employee; its own key and back-reference are not modelled. */
  datatype EmployeePhone = EmployeePhone(phoneNumber: string)

  /** A stored employee record; `id` is assigned by the store. */
  datatype Employee = Employee(
    id: int,
    firstName: string,
    lastName: string,
    email: string,
    documentNumber: string,
    phoneNumbers: seq<EmployeePhone>,
    managerId: Option<int>,
    passwordHash: string,
    dateOfBirth: Date,
    role: int)

  /** The public view of an employee. It has no field for the password hash. */
  datatype EmployeeDto = EmployeeDto(
    id: int,
    firstName: string,
    lastName: string,
    email: string,
    documentNumber: string,
    phoneNumbers: seq<string>,
    managerId: Option<int>,
    managerName: Option<string>,
    dateOfBirth: Date,
    role: int)

  /** The create request; `role` is the raw integer the caller sent. */
  datatype CreateEmployeeDto = CreateEmployeeDto(
    firstName: string,
    lastName: string,
    email: string,
    documentNumber: string,
    phoneNumbers: seq<string>,
    managerId: Option<int>,
    password: string,
    dateOfBirth: Date,
    role: int)

  /** The update request; None stands for a null password. */
  datatype UpdateEmployeeDto = UpdateEmployeeDto(
    firstName: string,
    lastName: string,
    email: string,
    phoneNumbers: seq<string>,
    managerId: Option<int>,
    password: Option<string>,
    dateOfBirth: Date)

  /** `phones.Select(p => p.PhoneNumber)` */
  function PhoneStrings(phones: seq<EmployeePhone>): seq<string>
  {
    seq(|phones|, i requires 0 <= i < |phones| => phones[i].phoneNumber)
  }

  /** `numbers.Select(p => new EmployeePhone { PhoneNumber = p })` */
  function ToPhones(numbers: seq<string>): seq<EmployeePhone>
  {
    seq(|numbers|, i requires 0 <= i < |numbers| => EmployeePhone(numbers[i]))
  }

  /** The projection written out in the list, get, create and update operations. */
  function ToDto(e: Employee): (r: EmployeeDto)
    ensures r.id == e.id && r.role == e.role && r.managerId == e.managerId && r.managerName.None?
    ensures |r.phoneNumbers| == |e.phoneNumbers|
    ensures forall i :: 0 <= i < |e.phoneNumbers| ==> r.phoneNumbers[i] == e.phoneNumbers[i].phoneNumber
  {
    EmployeeDto(e.id, e.firstName, e.lastName, e.email, e.documentNumber,
                PhoneStrings(e.phoneNumbers), e.managerId, None, e.dateOfBirth, e.role)
  }

  /** Phone entries built from strings give back the same strings, in order. */
  lemma PhonesRoundTrip(numbers: seq<string>)
    ensures PhoneStrings(ToPhones(numbers)) == numbers
  {
  }

  /** Phone entries are determined by their strings. */
  lemma {:induction false} PhoneStringsInjective(a: seq<EmployeePhone>, b: seq<EmployeePhone>)
    ensures PhoneStrings(a) == PhoneStrings(b) ==> a == b
  {
    if PhoneStrings(a) == PhoneStrings(b) {
      assert |a| == |PhoneStrings(a)| == |b|;
      forall i | 0 <= i < |a| ensures a[i] == b[i] {
        assert PhoneStrings(a)[i] == PhoneStrings(b)[i];
      }
    }
  }

  /**
   * The projection forgets exactly the password hash: two records have the
   * same public view if and only if they agree on every field but the hash.
   */
  lemma ProjectionForgetsOnlyHash(a: Employee, b: Employee)
    ensures ToDto(a) == ToDto(b) <==> a.(passwordHash := b.passwordHash) == b
  {
    PhoneStringsInjective(a.phoneNumbers, b.phoneNumbers);
  }
}
