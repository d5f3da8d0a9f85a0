/**
 * The employee lifecycle service: list and get return the public view of
 * stored records; create applies the age gate and then the role gate on the
 * requested role; update and delete look the target up and then apply the
 * role gate on the target's stored role.
 */
module EmployeeServices {
  import opened Wrappers
  import opened Dates
  import opened Decimal
  import opened Roles
  import opened Entities
  import opened Repository

  /** KeyNotFoundException and InvalidOperationException, with their messages. */
  datatype ServiceError = KeyNotFound(message: string) | InvalidOperation(message: string)

  const UnderageMessage: string := "Employee must be at least 18 years old"
  const CreateDeniedMessage: string := "Cannot create an employee with higher permissions than your own"
  const UpdateDeniedMessage: string := "Cannot update an employee with higher permissions than your own"
  const DeleteDeniedMessage: string := "Cannot delete an employee with higher permissions than your own"

  /** The KeyNotFound message: the id can be read back out of it. */
  function NotFoundMessage(id: int): (m: string)
    ensures |m| > 28 && ParseInt(m[17..|m| - 11]) == Some(id)
  {
    var m := "Employee with ID " + IntToString(id) + " not found.";
    assert m[17..|m| - 11] == IntToString(id);
    IntToStringRoundTrip(id);
    m
  }

  /** The random salt a password hashing call draws. */
  type Salt = nat

  /** The record a successful create builds, stored under `id`, with `hash` as its credential. */
  function NewEmployee(dto: CreateEmployeeDto, id: int, hash: string): (r: Employee)
    ensures r.id == id && r.passwordHash == hash && r.role == dto.role
    ensures PhoneStrings(r.phoneNumbers) == dto.phoneNumbers
  {
    Employee(id, dto.firstName, dto.lastName, dto.email, dto.documentNumber,
             ToPhones(dto.phoneNumbers), dto.managerId, hash, dto.dateOfBirth, dto.role)
  }

  /** `!string.IsNullOrEmpty(dto.Password)` */
  predicate PasswordSupplied(dto: UpdateEmployeeDto)
  {
    dto.password.Some? && dto.password.value != ""
  }

  /** The supplied password, or the empty string for none. */
  function SuppliedPassword(dto: UpdateEmployeeDto): string
  {
    if dto.password.Some? then dto.password.value else ""
  }

  /**
   * The record after a successful update: names and email from the request,
   * the phone list replaced by the request's, and the credential replaced by
   * `newHash` only when a password was supplied.
   */
  function ApplyUpdate(e: Employee, dto: UpdateEmployeeDto, newHash: string): (r: Employee)
    ensures r.firstName == dto.firstName && r.lastName == dto.lastName && r.email == dto.email
    ensures PhoneStrings(r.phoneNumbers) == dto.phoneNumbers
    ensures r.passwordHash == if PasswordSupplied(dto) then newHash else e.passwordHash
  {
    e.(firstName := dto.firstName, lastName := dto.lastName, email := dto.email,
       passwordHash := if PasswordSupplied(dto) then newHash else e.passwordHash,
       phoneNumbers := ToPhones(dto.phoneNumbers))
  }

  /**
   * The view returned by a successful create carries the new id and the
   * request's fields, phone strings in request order, and no credential.
   */
  lemma CreatedProjection(dto: CreateEmployeeDto, id: int, hash: string)
    ensures ToDto(NewEmployee(dto, id, hash))
         == EmployeeDto(id, dto.firstName, dto.lastName, dto.email, dto.documentNumber,
                        dto.phoneNumbers, dto.managerId, None, dto.dateOfBirth, dto.role)
  {
  }

  /**
   * Update leaves id, document number, date of birth, role and manager as
   * they were, and keeps the credential unless a password was supplied.
   */
  lemma UpdateKeepsFixedFields(e: Employee, dto: UpdateEmployeeDto, newHash: string)
    ensures var u := ApplyUpdate(e, dto, newHash);
      && u.id == e.id && u.documentNumber == e.documentNumber && u.dateOfBirth == e.dateOfBirth
      && u.role == e.role && u.managerId == e.managerId
      && (PasswordSupplied(dto) ==> u.passwordHash == newHash)
      && (!PasswordSupplied(dto) ==> u.passwordHash == e.passwordHash)
  {
  }

  /**
   * The manager id and date of birth carried by the update request have no
   * effect on the stored record.
   */
  lemma UpdateIgnoresManagerAndBirthDate(e: Employee, dto: UpdateEmployeeDto, newHash: string,
                                         managerId: Option<int>, dateOfBirth: Date)
    ensures ApplyUpdate(e, dto.(managerId := managerId, dateOfBirth := dateOfBirth), newHash)
         == ApplyUpdate(e, dto, newHash)
  {
  }

  /**
   * The view returned by a successful update carries the request's names,
   * email and phone strings in order, the record's unchanged fields, and does
   * not depend on the password or its hash.
   */
  lemma UpdatedProjection(e: Employee, dto: UpdateEmployeeDto, newHash: string)
    ensures ToDto(ApplyUpdate(e, dto, newHash))
         == EmployeeDto(e.id, dto.firstName, dto.lastName, dto.email, e.documentNumber,
                        dto.phoneNumbers, e.managerId, None, e.dateOfBirth, e.role)
  {
  }

  /**
   * Repeating an update gives the record of the last application alone,
   * whatever hash each application computed: a retry re-hashes under a new
   * salt, and only that last hash is kept.
   */
  lemma UpdateIdempotent(e: Employee, dto: UpdateEmployeeDto, firstHash: string, secondHash: string)
    ensures ApplyUpdate(ApplyUpdate(e, dto, firstHash), dto, secondHash) == ApplyUpdate(e, dto, secondHash)
  {
  }

  class EmployeeService {
    const repository: EmployeeRepository
    /** BCrypt.HashPassword: the hash of a password under a salt. */
    const hashPassword: (string, Salt) -> string

    constructor (repository: EmployeeRepository, hashPassword: (string, Salt) -> string)
      ensures this.repository == repository && this.hashPassword == hashPassword
    {
      this.repository := repository;
      this.hashPassword := hashPassword;
    }

    ghost predicate Valid()
      reads repository
    {
      repository.Valid()
    }

    /** GetAllEmployeesAsync: one view per stored record, in id order. */
    method GetAllEmployees() returns (dtos: seq<EmployeeDto>)
      requires Valid()
      ensures |dtos| == |repository.records|
      ensures forall i :: 0 <= i < |dtos| ==> dtos[i].id in repository.records && dtos[i] == ToDto(repository.records[dtos[i].id])
      ensures forall i, j :: 0 <= i < j < |dtos| ==> dtos[i].id < dtos[j].id
      ensures forall id :: id in repository.records ==> ToDto(repository.records[id]) in dtos
    {
      var employees := repository.GetAll();
      dtos := seq(|employees|, i requires 0 <= i < |employees| => ToDto(employees[i]));
      ghost var records, bound := repository.records, repository.nextId;
      ListingSound(records, bound);
      ListingComplete(records, bound);
      ListingSorted(records, bound);
      ListingSize(records, bound);
      assert IdsBelow(records, bound) == records.Keys;
      forall id | id in records ensures ToDto(records[id]) in dtos {
        var i :| 0 <= i < |employees| && employees[i] == records[id];
        assert dtos[i] == ToDto(records[id]);
      }
    }

    /** GetEmployeeAsync: the view of the record with that id, or None. */
    method GetEmployee(id: int) returns (dto: Option<EmployeeDto>)
      requires Valid()
      ensures dto.None? <==> id !in repository.records
      ensures dto.Some? ==> dto.value == ToDto(repository.records[id]) && dto.value.id == id
    {
      var employee := repository.GetById(id);
      if employee.None? {
        return None;
      }
      dto := Some(ToDto(employee.value));
    }

    /**
     * CreateEmployeeAsync. The age gate comes first, then the role gate on
     * the requested role; only a request that passes both stores a record.
     */
    method CreateEmployee(dto: CreateEmployeeDto, creatorRole: int, today: Date, salt: Salt)
      returns (r: Result<EmployeeDto, ServiceError>)
      requires Valid()
      modifies repository
      ensures Valid()
      ensures CompletedYears(dto.dateOfBirth, today) < MinimumAge
          ==> r == Failure(InvalidOperation(UnderageMessage))
      ensures CompletedYears(dto.dateOfBirth, today) >= MinimumAge && Outranks(dto.role, creatorRole)
          ==> r == Failure(InvalidOperation(CreateDeniedMessage))
      ensures r.Success? <==> CompletedYears(dto.dateOfBirth, today) >= MinimumAge && !Outranks(dto.role, creatorRole)
      ensures r.Failure? ==> repository.records == old(repository.records)
      ensures r.Success? ==>
        && r.value.id !in old(repository.records)
        && repository.records == old(repository.records)[r.value.id := NewEmployee(dto, r.value.id, hashPassword(dto.password, salt))]
        && r.value == ToDto(repository.records[r.value.id])
    {
      var age := today.year - dto.dateOfBirth.year;
      if Later(dto.dateOfBirth, AddYears(today, -age)) {
        age := age - 1;
      }
      if age < MinimumAge {
        return Failure(InvalidOperation(UnderageMessage));
      }
      if dto.role > creatorRole {
        return Failure(InvalidOperation(CreateDeniedMessage));
      }
      var employee := NewEmployee(dto, 0, hashPassword(dto.password, salt));
      var stored := repository.Add(employee);
      r := Success(ToDto(stored));
    }

    /**
     * UpdateEmployeeAsync. An absent id fails first, then the role gate on
     * the stored target's role; a request that passes both rewrites the
     * record in place.
     */
    method UpdateEmployee(id: int, dto: UpdateEmployeeDto, updaterRole: int, salt: Salt)
      returns (r: Result<EmployeeDto, ServiceError>)
      requires Valid()
      modifies repository
      ensures Valid()
      ensures id !in old(repository.records) ==> r == Failure(KeyNotFound(NotFoundMessage(id)))
      ensures id in old(repository.records) && Outranks(old(repository.records)[id].role, updaterRole)
          ==> r == Failure(InvalidOperation(UpdateDeniedMessage))
      ensures r.Success? <==> id in old(repository.records) && !Outranks(old(repository.records)[id].role, updaterRole)
      ensures r.Failure? ==> repository.records == old(repository.records)
      ensures r.Success? ==>
        && repository.records == old(repository.records)[id := ApplyUpdate(old(repository.records)[id], dto, hashPassword(SuppliedPassword(dto), salt))]
        && r.value == ToDto(repository.records[id])
    {
      var found := repository.GetById(id);
      if found.None? {
        return Failure(KeyNotFound(NotFoundMessage(id)));
      }
      var employee := found.value;
      if employee.role > updaterRole {
        return Failure(InvalidOperation(UpdateDeniedMessage));
      }
      employee := employee.(firstName := dto.firstName);
      employee := employee.(lastName := dto.lastName);
      employee := employee.(email := dto.email);
      if PasswordSupplied(dto) {
        employee := employee.(passwordHash := hashPassword(dto.password.value, salt));
      }
      employee := employee.(phoneNumbers := ToPhones(dto.phoneNumbers));
      repository.Update(employee);
      r := Success(ToDto(employee));
    }

    /**
     * DeleteEmployeeAsync. An absent id fails first, then the role gate on
     * the stored target's role; a request that passes both removes exactly
     * that record.
     */
    method DeleteEmployee(id: int, deleterRole: int) returns (r: Result<(), ServiceError>)
      requires Valid()
      modifies repository
      ensures Valid()
      ensures id !in old(repository.records) ==> r == Failure(KeyNotFound(NotFoundMessage(id)))
      ensures id in old(repository.records) && Outranks(old(repository.records)[id].role, deleterRole)
          ==> r == Failure(InvalidOperation(DeleteDeniedMessage))
      ensures r.Success? <==> id in old(repository.records) && !Outranks(old(repository.records)[id].role, deleterRole)
      ensures r.Failure? ==> repository.records == old(repository.records)
      ensures r.Success? ==> repository.records == old(repository.records) - {id}
    {
      var found := repository.GetById(id);
      if found.None? {
        return Failure(KeyNotFound(NotFoundMessage(id)));
      }
      if found.value.role > deleterRole {
        return Failure(InvalidOperation(DeleteDeniedMessage));
      }
      repository.Delete(id);
      r := Success(());
    }
  }

  /**
   * A sequence of calls on the service, from an empty store: the rank rules of create,
   * read-after-write, and the gates of update and delete.
   */
  method Scenario(hashPassword: (string, Salt) -> string)
  {
    var repository := new EmployeeRepository();
    var service := new EmployeeService(repository, hashPassword);
    var today: Date := DateParts(2024, 6, 1);
    var request := CreateEmployeeDto("John", "Doe", "john@example.com", "12345678", ["1234567890"],
                                     None, "Password123!", DateParts(1985, 5, 15), Leader);

    var denied := service.CreateEmployee(request, Roles.Employee, today, 1);
    assert denied == Failure(InvalidOperation(CreateDeniedMessage));
    assert repository.records == map[];

    var minor := service.CreateEmployee(request.(dateOfBirth := DateParts(2010, 1, 1)), Director, today, 1);
    assert minor == Failure(InvalidOperation(UnderageMessage));

    var created := service.CreateEmployee(request, Director, today, 2);
    assert created.Success? && created.value.role == Leader;
    var id := created.value.id;
    var unnamed := service.CreateEmployee(request.(email := "x@example.com", role := -1), Roles.Employee, today, 5);
    assert unnamed.Success? && unnamed.value.role == -1;
    var read := service.GetEmployee(id);
    assert read == Some(created.value);

    var boss := service.CreateEmployee(request.(email := "ann@example.com", role := Director), Director, today, 3);
    assert boss.Success?;
    var blocked := service.DeleteEmployee(boss.value.id, Leader);
    assert blocked == Failure(InvalidOperation(DeleteDeniedMessage));

    var update := UpdateEmployeeDto("Jane", "Smith", "jane@example.com", ["9876543210"], None, None, DateParts(1985, 5, 15));
    var updated := service.UpdateEmployee(id, update, Leader, 4);
    assert updated.Success? && updated.value.firstName == "Jane" && updated.value.role == Leader;
    assert repository.records[id].passwordHash == hashPassword("Password123!", 2);

    var deleted := service.DeleteEmployee(id, Leader);
    assert deleted.Success?;
    var again := service.DeleteEmployee(id, Leader);
    assert again == Failure(KeyNotFound(NotFoundMessage(id)));
    var missing := service.GetEmployee(id);
    assert missing.None?;
  }
}
