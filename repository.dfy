/**
 * The persistence port the services use: a store of employee records keyed
 * by id. The database's identity column is a counter, and add, update and
 * delete take effect at once (the separate save step is folded into them).
 */
module Repository {
  import opened Wrappers
  import opened Entities

  /** The records with ids from 1 up to below `bound`, in increasing id order. */
  function Listing(records: map<int, Employee>, bound: int): seq<Employee>
    decreases bound
  {
    if bound <= 1 then []
    else Listing(records, bound - 1) + (if bound - 1 in records then [records[bound - 1]] else [])
  }

  /**
   * The first record, scanning ids upward from `from` to below `bound`,
   * whose email is `email`; None when there is none.
   */
  function FirstWithEmail(records: map<int, Employee>, email: string, from: int, bound: int): (r: Option<Employee>)
    ensures r.Some? ==> r.value.email == email && r.value in records.Values
    ensures r.None? ==> forall id :: id in records && from <= id < bound ==> records[id].email != email
    decreases bound - from
  {
    if from >= bound then None
    else if from in records && records[from].email == email then Some(records[from])
    else FirstWithEmail(records, email, from + 1, bound)
  }

  /** The ids of `records` from 1 up to below `bound`. */
  ghost function IdsBelow(records: map<int, Employee>, bound: int): set<int>
  {
    set id | id in records && 1 <= id < bound
  }

  /** A listing holds only stored records, each with an id below the bound. */
  lemma {:induction false} ListingSound(records: map<int, Employee>, bound: int)
    requires forall id :: id in records ==> records[id].id == id
    ensures forall e :: e in Listing(records, bound) ==> e.id in records && records[e.id] == e && 1 <= e.id < bound
    decreases bound
  {
    if bound > 1 {
      ListingSound(records, bound - 1);
    }
  }

  /** A listing holds every stored record whose id is below the bound. */
  lemma {:induction false} ListingComplete(records: map<int, Employee>, bound: int)
    ensures forall id :: id in records && 1 <= id < bound ==> records[id] in Listing(records, bound)
    decreases bound
  {
    if bound > 1 {
      ListingComplete(records, bound - 1);
    }
  }

  /** A listing is in strictly increasing id order, so no record appears twice. */
  lemma {:induction false} ListingSorted(records: map<int, Employee>, bound: int)
    requires forall id :: id in records ==> records[id].id == id
    ensures forall i, j :: 0 <= i < j < |Listing(records, bound)| ==> Listing(records, bound)[i].id < Listing(records, bound)[j].id
    decreases bound
  {
    if bound > 1 {
      ListingSorted(records, bound - 1);
      ListingSound(records, bound - 1);
      var prefix := Listing(records, bound - 1);
      var all := Listing(records, bound);
      forall i, j | 0 <= i < j < |all| ensures all[i].id < all[j].id {
        if j >= |prefix| {
          assert all[i] in prefix;
        }
      }
    }
  }

  /** A listing has one entry per stored id below the bound. */
  lemma {:induction false} ListingSize(records: map<int, Employee>, bound: int)
    ensures |Listing(records, bound)| == |IdsBelow(records, bound)|
    decreases bound
  {
    if bound > 1 {
      ListingSize(records, bound - 1);
      if bound - 1 in records {
        assert IdsBelow(records, bound) == IdsBelow(records, bound - 1) + {bound - 1};
      } else {
        assert IdsBelow(records, bound) == IdsBelow(records, bound - 1);
      }
    } else {
      assert IdsBelow(records, bound) == {};
    }
  }

  class EmployeeRepository {
    var records: map<int, Employee>
    var nextId: int

    /** Every record is stored under its own id; ids run from 1 up to below the counter. */
    ghost predicate Valid()
      reads this
    {
      && nextId >= 1
      && forall id :: id in records ==> records[id].id == id && 1 <= id < nextId
    }

    constructor ()
      ensures Valid() && records == map[]
    {
      records := map[];
      nextId := 1;
    }

    /** GetByIdAsync */
    method GetById(id: int) returns (found: Option<Employee>)
      requires Valid()
      ensures found.None? <==> id !in records
      ensures found.Some? ==> found.value == records[id] && found.value.id == id
    {
      if id in records {
        found := Some(records[id]);
      } else {
        found := None;
      }
    }

    /** GetByEmailAsync: the first record, in id order, with the given email. */
    method GetByEmail(email: string) returns (found: Option<Employee>)
      requires Valid()
      ensures found.None? <==> forall id :: id in records ==> records[id].email != email
      ensures found.Some? ==> found.value.id in records && records[found.value.id] == found.value
      ensures found.Some? ==> found.value.email == email
      ensures found.Some? ==> forall id :: id in records && id < found.value.id ==> records[id].email != email
      ensures found == FirstWithEmail(records, email, 1, nextId)
    {
      for k := 1 to nextId
        invariant forall id :: id in records && id < k ==> records[id].email != email
        invariant FirstWithEmail(records, email, k, nextId) == FirstWithEmail(records, email, 1, nextId)
      {
        if k in records && records[k].email == email {
          return Some(records[k]);
        }
      }
      return None;
    }

    /** GetAllAsync: the records in increasing id order. */
    method GetAll() returns (all: seq<Employee>)
      requires Valid()
      ensures all == Listing(records, nextId)
    {
      all := [];
      for k := 1 to nextId
        invariant all == Listing(records, k)
      {
        if k in records {
          all := all + [records[k]];
        }
      }
    }

    /** AddAsync followed by saving: the record is stored under a fresh id. */
    method Add(e: Employee) returns (stored: Employee)
      requires Valid()
      modifies this
      ensures Valid()
      ensures stored == e.(id := stored.id) && stored.id !in old(records)
      ensures records == old(records)[stored.id := stored]
    {
      stored := e.(id := nextId);
      records := records[nextId := stored];
      nextId := nextId + 1;
    }

    /** UpdateAsync followed by saving: the tracked record is written back. */
    method Update(e: Employee)
      requires Valid() && e.id in records
      modifies this
      ensures Valid()
      ensures records == old(records)[e.id := e]
    {
      records := records[e.id := e];
    }

    /** DeleteAsync followed by saving: removes the record if there is one. */
    method Delete(id: int)
      requires Valid()
      modifies this
      ensures Valid()
      ensures records == old(records) - {id}
    {
      records := records - {id};
    }
  }
}
