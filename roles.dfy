/**
 * The UserRole enumeration. The source compares roles as the integers
 * underlying the enum, and the requested role of a new employee arrives as
 * a raw int cast to UserRole without a range check, so a role is an `int`
 * here. The named members are ordered Employee < Leader < Director; their
 * values 0, 1 and 2 are those of an enum declared in that order without
 * explicit values.
 */
module Roles {
  import opened Wrappers
  import opened Decimal

  const Employee: int := 0
  const Leader: int := 1
  const Director: int := 2

  /**
   * Enum.ToString: the member's name for a named value, the decimal
   * numeral for any other value.
   */
  function RoleName(r: int): (name: string)
    ensures name == "Employee" <==> r == Employee
    ensures name == "Leader" <==> r == Leader
    ensures name == "Director" <==> r == Director
  {
    if r == Employee then "Employee"
    else if r == Leader then "Leader"
    else if r == Director then "Director"
    else
      var s := IntToString(r);
      assert s[0] == '-' || IsDigit(s[0]);
      s
  }

  /** Reads a role name, or the numeral of an unnamed value, back. */
  function RoleFromName(s: string): Option<int>
  {
    if s == "Employee" then Some(Employee)
    else if s == "Leader" then Some(Leader)
    else if s == "Director" then Some(Director)
    else ParseInt(s)
  }

  /** The role gate of create, update and delete: `target` outranks `caller`. */
  predicate Outranks(target: int, caller: int)
  {
    target > caller
  }

  /** The role claim written for any role value reads back as that value. */
  lemma RoleNameRoundTrip(r: int)
    ensures RoleFromName(RoleName(r)) == Some(r)
  {
    if r != Employee && r != Leader && r != Director {
      IntToStringRoundTrip(r);
    }
  }

  /** Distinct role values have distinct names. */
  lemma RoleNameInjective(a: int, b: int)
    ensures RoleName(a) == RoleName(b) ==> a == b
  {
    RoleNameRoundTrip(a);
    RoleNameRoundTrip(b);
  }
}
