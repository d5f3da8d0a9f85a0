# Employee lifecycle and authentication, modelled in Dafny

This project models the decision logic of an employee-directory service
written in C#: the employee service (list, get, create, update and delete of
employee records behind a repository port) and the authentication service
(email lookup, password check, token issuance).

- **Employee service.** Create rejects anyone whose age, computed from the
  date of birth and today's date, is under 18; it then rejects a requested
  role that outranks the creator's role (roles are compared as the integers
  under the `UserRole` enum, so equal rank is allowed). Update and delete
  first report a missing id (`KeyNotFound`, "Employee with ID {id} not
  found."), then reject a stored target whose role outranks the caller's.
  A successful update rewrites first name, last name and email, replaces the
  phone list wholesale, and re-hashes the password only when a non-empty one
  is supplied. Get, list, create and update return the public view `EmployeeDto`,
  which has no password field; its manager name is never filled in by the
  service and is `None` in the model.
- **Authentication service.** An unknown email and a wrong password both
  give the null result; only after a successful lookup and verification is a
  missing signing key reported ("JWT Key not configured"). The token carries
  the employee id (decimal), email and role name, expires seven days after
  issuance, and takes issuer and audience from configuration.

The requested role of a new employee is a raw `int` cast to `UserRole` with
no range check, so the model treats roles as integers: a value naming no
enum member is accepted whenever it does not exceed the creator's role, and
its name in a token is its decimal numeral (`Enum.ToString`).

Files: `wrappers.dfy` (Option, Result), `dates.dfy` (calendar dates,
`AddYears`, the age rule), `decimal.dfy` (`Int32.ToString` and its inverse),
`roles.dfy` (role values and names), `entities.dfy` (records, requests and
the public view), `repository.dfy` (the store, a class over a map from id to
record), `employee_service.dfy` (the service class and the lemmas about
create and update), `auth_service.dfy` (the authentication decision).

## Model

| member | source | states |
|---|---|---|
| Dates.AddYears | EmployeeManagement.Application/Services/EmployeeService.cs:58 | moving a date by n years keeps month and day, except that 29 February becomes 28 February in a non-leap target year |
| Dates.ShiftedTodayComparison | EmployeeManagement.Application/Services/EmployeeService.cs:57-59 | the source's test "date of birth later than today moved back (today.Year - dob.Year) years" holds exactly when the birthday's month and day are still to come this year; the 29 February clamp never changes the answer |
| Dates.AdultIffBornByCutoff | EmployeeManagement.Application/Services/EmployeeService.cs:57-65 | the age is at least 18 if and only if the date of birth is not later than today moved back 18 years |
| Dates.BirthdayBoundary | EmployeeManagement.Application/Services/EmployeeService.cs:57-65 | someone born exactly 18 years before today is 18, one year later 17 |
| Decimal.IntToString | EmployeeManagement.Application/Services/AuthService.cs:32 | the decimal form of an id is non-empty, starts with '-' exactly for negative values and is all digits otherwise |
| Decimal.NatToStringRoundTrip | EmployeeManagement.Application/Services/AuthService.cs:32 | the digits written for a natural number read back as that number |
| Decimal.IntToStringRoundTrip | EmployeeManagement.Application/Services/AuthService.cs:32 | parsing the decimal form of any integer gives that integer back |
| Decimal.IntToStringInjective | EmployeeManagement.Application/Services/AuthService.cs:32 | distinct ids have distinct name claims |
| Roles.RoleName | EmployeeManagement.Application/Services/AuthService.cs:34 | the role claim reads "Employee", "Leader" or "Director" exactly for the value of that member; no other value is written as a member name |
| Roles.RoleNameRoundTrip | EmployeeManagement.Application/Services/AuthService.cs:34 | the role name written for any role value, named or not, reads back as that value |
| Roles.RoleNameInjective | EmployeeManagement.Application/Services/AuthService.cs:34 | distinct role values have distinct role claims |
| Entities.ToDto | EmployeeManagement.Application/Services/EmployeeService.cs:37-48 | the public view keeps the record's id, role and manager id, lists its phone numbers in order, and leaves the manager name unset |
| Entities.PhonesRoundTrip | EmployeeManagement.Application/Services/EmployeeService.cs:85 | phone entries built from request strings project back to the same strings in the same order |
| Entities.PhoneStringsInjective | EmployeeManagement.Application/Services/EmployeeService.cs:47 | phone entry lists are determined by their projected strings |
| Entities.ProjectionForgetsOnlyHash | EmployeeManagement.Application/Services/EmployeeService.cs:37-48 | two records have the same public view if and only if they agree on every field except the password hash |
| Repository.FirstWithEmail | EmployeeManagement.Infrastructure/Repositories/EmployeeRepository.cs:24-29 | the email lookup finds a stored record with that email, and finds nothing only when no stored record in the id range has it |
| Repository.ListingSound | EmployeeManagement.Infrastructure/Repositories/EmployeeRepository.cs:31-36 | a listing holds only stored records, each stored under its own id |
| Repository.ListingComplete | EmployeeManagement.Infrastructure/Repositories/EmployeeRepository.cs:31-36 | a listing holds every stored record with an id below the bound |
| Repository.ListingSorted | EmployeeManagement.Infrastructure/Repositories/EmployeeRepository.cs:31-36 | a listing is in strictly increasing id order, so no record appears twice |
| Repository.ListingSize | EmployeeManagement.Infrastructure/Repositories/EmployeeRepository.cs:31-36 | a listing has exactly one entry per stored id below the bound |
| Repository.EmployeeRepository.GetById | EmployeeManagement.Infrastructure/Repositories/EmployeeRepository.cs:17-22 | returns the record stored under the id, None exactly when there is none |
| Repository.EmployeeRepository.GetByEmail | EmployeeManagement.Infrastructure/Repositories/EmployeeRepository.cs:24-29 | returns the result of the lookup `FirstWithEmail`: a stored record with that email, the one with the lowest id; None exactly when no record has it |
| Repository.EmployeeRepository.GetAll | EmployeeManagement.Infrastructure/Repositories/EmployeeRepository.cs:31-36 | returns the listing of all stored records in id order |
| Repository.EmployeeRepository.Add | EmployeeManagement.Infrastructure/Repositories/EmployeeRepository.cs:38-41 | stores the record under a fresh id and changes nothing else |
| Repository.EmployeeRepository.Update | EmployeeManagement.Infrastructure/Repositories/EmployeeRepository.cs:43-47 | writes the record back under its id and changes nothing else |
| Repository.EmployeeRepository.Delete | EmployeeManagement.Infrastructure/Repositories/EmployeeRepository.cs:49-56 | removes the record with that id if there is one and nothing else |
| EmployeeServices.NotFoundMessage | EmployeeManagement.Application/Services/EmployeeService.cs:112 | the KeyNotFound message embeds the id in decimal, and the id reads back out of it |
| EmployeeServices.NewEmployee | EmployeeManagement.Application/Services/EmployeeService.cs:75-86 | the new record carries the given id and hash, the requested role, and the request's phone numbers in order |
| EmployeeServices.ApplyUpdate | EmployeeManagement.Application/Services/EmployeeService.cs:122-133 | the updated record has the request's names, email and phone numbers in order, and the new hash exactly when a non-empty password is supplied |
| EmployeeServices.CreatedProjection | EmployeeManagement.Application/Services/EmployeeService.cs:75-102 | the view a successful create returns carries the new id and the request's names, email, document number, phones in order, manager id, date of birth and role |
| EmployeeServices.UpdateKeepsFixedFields | EmployeeManagement.Application/Services/EmployeeService.cs:122-133 | update keeps id, document number, date of birth, role and manager id, and replaces the hash exactly when a non-empty password is supplied |
| EmployeeServices.UpdateIgnoresManagerAndBirthDate | EmployeeManagement.Application/Services/EmployeeService.cs:122-133 | the manager id and date of birth in the update request have no effect on the stored record |
| EmployeeServices.UpdatedProjection | EmployeeManagement.Application/Services/EmployeeService.cs:122-149 | the view a successful update returns carries the new names, email and phones in order with the record's unchanged fields, whatever the password |
| EmployeeServices.UpdateIdempotent | EmployeeManagement.Application/Services/EmployeeService.cs:122-133 | a repeated update keeps only the last application: applying the same request twice, whatever hash each application computed, stores the same record as applying it once with the second hash |
| EmployeeServices.EmployeeService.constructor | EmployeeManagement.Application/Services/EmployeeService.cs:10-13 | the service works on the given repository and hasher |
| EmployeeServices.EmployeeService.GetAllEmployees | EmployeeManagement.Application/Services/EmployeeService.cs:15-30 | one view per stored record, each equal to that record's projection, every record present, in id order |
| EmployeeServices.EmployeeService.GetEmployee | EmployeeManagement.Application/Services/EmployeeService.cs:32-49 | None exactly when no record has the id, otherwise the projection of that record |
| EmployeeServices.EmployeeService.CreateEmployee | EmployeeManagement.Application/Services/EmployeeService.cs:51-103 | fails with the age message iff the age is under 18 (whatever the role), else with the permission message iff the requested role outranks the creator's; a failure leaves the store unchanged; a success adds exactly one record under a fresh id holding the request's fields and the hash of the password, and returns its projection |
| EmployeeServices.EmployeeService.UpdateEmployee | EmployeeManagement.Application/Services/EmployeeService.cs:105-150 | fails with KeyNotFound iff the id is absent, else with the permission message iff the stored role outranks the updater's; a failure leaves the store unchanged; a success replaces only that record by the updated one and returns its projection |
| EmployeeServices.EmployeeService.DeleteEmployee | EmployeeManagement.Application/Services/EmployeeService.cs:152-171 | fails with KeyNotFound iff the id is absent, else with the permission message iff the stored role outranks the deleter's; a failure leaves the store unchanged; a success removes exactly that record |
| AuthService.Descriptor | EmployeeManagement.Application/Services/AuthService.cs:27-35 | the token's name, email and role claims hold the employee's id in decimal, its email and its role name |
| AuthService.Authenticate | EmployeeManagement.Application/Services/AuthService.cs:16-44 | null result iff the lookup found nothing or the password does not verify against the found hash; the key error iff it verifies and no key is configured; otherwise the signed descriptor of the found employee |
| AuthService.DescriptorIdentifiesEmployee | EmployeeManagement.Application/Services/AuthService.cs:30-35 | reading the token's name, email and role claims back gives the employee's id, email and role |
| AuthService.DescriptorLifetime | EmployeeManagement.Application/Services/AuthService.cs:36-39 | the token expires exactly seven days after issuance and carries the configured issuer, audience and key |
| AuthService.KeyCheckedOnlyAfterVerification | EmployeeManagement.Application/Services/AuthService.cs:18-27 | a failed login gives the null result whether or not a key is configured |
| AuthService.OutcomeDependsOnlyOnLookup | EmployeeManagement.Application/Services/AuthService.cs:18-35 | the outcome depends on the looked-up employee only through its hash, id, email and role |
| AuthService.UpdateWithoutPasswordKeepsLogin | EmployeeManagement.Application/Services/EmployeeService.cs:126-129 | after an update without a password the old password still logs in, and the token names the new email with the same id and role |
| AuthService.AuthenticateAsync | EmployeeManagement.Application/Services/AuthService.cs:16-44 | the outcome is the authentication decision applied to the email lookup `FirstWithEmail` over the store; so an email no record has gives the null result, and an issued token is the signed descriptor of a stored record with that email whose hash the password verifies against |

## Left out

- HTTP controllers, routing, `Enum.TryParse` of the role claim, the `[Authorize(Roles = ...)]` attribute and the mapping of exceptions to status codes: framework behaviour outside the services. The service methods accept any caller role.
- Logging and the `async`/`Task` plumbing: operations are sequential calls.
- Entity Framework change tracking and `SaveChangesAsync`: add, update and delete take effect at once; the identity column is a counter starting at 1.
- Employee is a value: update builds the changed record and writes it back, so the aliasing of the tracked entity object is not modelled.
- Database constraints the services never check: unique email, unique document number, the manager foreign key (restrict on delete) and the cascade delete of phone rows. Phone rows' own ids and back-references are not modelled.
- Repository.EmployeeRepository.GetByEmail: returns the lowest id with that email; the database query has no ordering, and with the unique email index at most one record matches. Emails are compared exactly, character by character, while a case-insensitive database collation (the default of SQL Server and MySQL) would also match an email that differs only in case; so "no record has the email" here means no exact match.
- AuthService.AuthenticateAsync: an unknown email gives the null result only under exact comparison; under a case-insensitive collation an email differing only in case finds the record (see the GetByEmail line).
- Repository.EmployeeRepository.GetAll: lists in id order; the database query has no ordering clause.
- The order of an employee's phone numbers when the record is read back: phone rows have no position column and the query that loads them has no ordering clause. The model keeps the list as written, so get and list return it in request order; the views that create and update return are built from the list in memory and keep that order in the source too.
- `ExistsAsync` and `EmailExistsAsync` of the repository: no service calls them.
- Database seeding and migrations.
- Exceptions thrown inside the foreign calls: `BCrypt.Verify` throwing on a malformed or empty stored hash; the `SymmetricSecurityKey` constructor rejecting an empty signing key while the token descriptor is built; and `CreateToken` rejecting a key shorter than HMAC-SHA256 accepts. `verify` and `sign` are total functions in the model, so an empty or too short configured key still gives a token.
- BCrypt hashing and verification, JWT creation and signing: function parameters (`hashPassword` with an explicit salt, `verify`, `sign`). The ASCII encoding of the key is part of what the signer receives.
- The JWT handler's renaming of claim types (name, email, role) in the written token.
- Declarative validation (`[Required]`, `[StringLength]`, `[EmailAddress]`, `[MinLength(1)]`, `[Phone]`): the services do not check it.
- The clock: today's date and the current time in ticks are parameters. Dates of birth carry no time of day; the comparison in the age rule uses only the date.
- `DateTime.UtcNow.AddDays(7)` failing past `DateTime.MaxValue`, and 32-bit overflow of ids or role values: integers are unbounded.
- The numeric values of the `UserRole` members: the enum file is not part of this model; Employee, Leader and Director are 0, 1 and 2. The gates depend only on the integer order.
