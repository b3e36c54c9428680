/** The table behind the farm and pond repositories. The repositories forward
    to generic Create/Find/First/Save/DeleteByModel helpers over the ORM; this
    module gives their observable contract: rows keyed by an auto-incremented
    id, listed in ascending id order, and a failure that the caller injects to
    stand for the database reporting an error. */
module Store {
  import opened Wrappers
  import opened Helpers

  /** `gorm.ErrRecordNotFound`, or any other database error with its text. */
  datatype DbError = ErrRecordNotFound | ErrDatabase(text: string)

  /** Whether a database call fails: `Some(text)` makes it fail with that text. */
  type Fault = Option<string>

  /** A stored row: its primary key and the entity's own fields. */
  datatype Entity<T> = Entity(id: nat, fields: T)

  ghost predicate Ascending<T>(rows: seq<Entity<T>>) {
    forall i, j :: 0 <= i < j < |rows| ==> rows[i].id < rows[j].id
  }

  /** The position of the row with this id, if any. */
  function Find<T>(rows: seq<Entity<T>>, id: nat): (r: Option<nat>)
    ensures r.Some? ==> r.value < |rows| && rows[r.value].id == id
    ensures r.None? ==> forall i :: 0 <= i < |rows| ==> rows[i].id != id
  {
    if rows == [] then None
    else if rows[0].id == id then Some(0)
    else match Find(rows[1..], id)
      case None => None
      case Some(k) => Some(k + 1)
  }

  /** The row `First(&where)` answers when `where` holds only an id: the row
      with that id, and for a zero id, which is no condition at all, the first
      row in id order. */
  function FirstWithId<T>(rows: seq<Entity<T>>, id: nat): (r: Option<nat>)
    ensures r.Some? ==> r.value < |rows|
    ensures id != 0 ==> r == Find(rows, id)
    ensures id != 0 && r.Some? ==> rows[r.value].id == id
    ensures id != 0 && r.None? ==> forall i :: 0 <= i < |rows| ==> rows[i].id != id
    ensures id == 0 ==> (r.Some? <==> |rows| > 0) && (r.Some? ==> r.value == 0)
  {
    if id != 0 then Find(rows, id)
    else if rows == [] then None
    else Some(0)
  }

  /** The rows without the one with this id (a delete by primary key). */
  function Without<T(!new)>(rows: seq<Entity<T>>, id: nat): (r: seq<Entity<T>>)
    ensures forall e :: e in r <==> e in rows && e.id != id
    ensures Ascending(rows) ==> Ascending(r)
    ensures |r| <= |rows|
  {
    if rows == [] then []
    else if rows[0].id == id then Without(rows[1..], id)
    else [rows[0]] + Without(rows[1..], id)
  }

  /** Save by primary key: the row with `e`'s id becomes `e`, or `e` is
      inserted at its place in id order. */
  function Upsert<T(!new)>(rows: seq<Entity<T>>, e: Entity<T>): (r: seq<Entity<T>>)
    requires Ascending(rows)
    ensures Ascending(r)
    ensures forall x :: x in r <==> x == e || (x in rows && x.id != e.id)
  {
    if rows == [] then [e]
    else if rows[0].id == e.id then [e] + rows[1..]
    else if e.id < rows[0].id then [e] + rows
    else [rows[0]] + Upsert(rows[1..], e)
  }

  /** Saving over an existing row overwrites it in place and moves nothing. */
  lemma {:induction false} UpsertExisting<T(!new)>(rows: seq<Entity<T>>, e: Entity<T>, i: nat)
    requires Ascending(rows)
    requires i < |rows| && rows[i].id == e.id
    ensures Upsert(rows, e) == rows[i := e]
  {
    if rows[0].id != e.id {
      assert rows[0].id < e.id by { assert i != 0; }
      UpsertExisting(rows[1..], e, i - 1);
      assert rows[i := e] == [rows[0]] + rows[1..][i - 1 := e];
    }
  }

  /** Deleting an id that is not stored changes nothing. */
  lemma {:induction false} WithoutAbsent<T(!new)>(rows: seq<Entity<T>>, id: nat)
    requires forall i :: 0 <= i < |rows| ==> rows[i].id != id
    ensures Without(rows, id) == rows
  {
    if rows != [] {
      WithoutAbsent(rows[1..], id);
      assert rows == [rows[0]] + rows[1..];
    }
  }

  /** Deleting the id of the first row of an ascending table drops exactly
      that row. */
  lemma WithoutLowest<T(!new)>(rows: seq<Entity<T>>)
    requires Ascending(rows) && |rows| > 0
    ensures Without(rows, rows[0].id) == rows[1..]
  {
    WithoutAbsent(rows[1..], rows[0].id);
  }

  /** A deleted id is no longer found. */
  lemma WithoutRemoves<T(!new)>(rows: seq<Entity<T>>, id: nat)
    ensures Find(Without(rows, id), id).None?
  {
  }

  /** Deleting one id leaves every other stored id in place. */
  lemma WithoutKeeps<T(!new)>(rows: seq<Entity<T>>, id: nat, other: nat)
    requires other != id && Find(rows, other).Some?
    ensures Find(Without(rows, id), other).Some?
  {
    assert rows[Find(rows, other).value] in Without(rows, id);
  }

  /** The row store of one entity kind. */
  class Table<T(!new)> {
    var rows: seq<Entity<T>>
    var nextId: nat

    ghost predicate Valid()
      reads this
    {
      && Ascending(rows)
      && (forall i :: 0 <= i < |rows| ==> 0 < rows[i].id < nextId)
      && nextId >= 1
    }

    /** Neither the rows nor the id counter moved. */
    twostate predicate Untouched()
      reads this
    {
      rows == old(rows) && nextId == old(nextId)
    }

    constructor ()
      ensures Valid() && rows == [] && nextId == 1
    {
      rows := [];
      nextId := 1;
    }

    /** Inserts a new row under a fresh id, larger than every id ever used. */
    method Create(fields: T, fault: Fault) returns (r: Result<Entity<T>, DbError>)
      requires Valid()
      modifies this
      ensures Valid()
      ensures fault.Some? ==> r == Failure(ErrDatabase(fault.value)) && rows == old(rows) && nextId == old(nextId)
      ensures fault.None? ==> r == Success(Entity(old(nextId), fields))
      ensures fault.None? ==> rows == old(rows) + [r.value] && nextId == old(nextId) + 1
      ensures fault.None? ==> forall i :: 0 <= i < |old(rows)| ==> old(rows)[i].id < r.value.id
    {
      if fault.Some? {
        return Failure(ErrDatabase(fault.value));
      }
      var e := Entity(nextId, fields);
      rows := rows + [e];
      nextId := nextId + 1;
      r := Success(e);
    }

    /** All rows, by ascending id; an empty table is not an error here. */
    method GetAll(fault: Fault) returns (r: Result<seq<Entity<T>>, DbError>)
      requires Valid()
      ensures fault.Some? ==> r == Failure(ErrDatabase(fault.value))
      ensures fault.None? ==> r.Success? && r.value == rows && Ascending(r.value)
    {
      if fault.Some? {
        return Failure(ErrDatabase(fault.value));
      }
      r := Success(rows);
    }

    /** The repository's GetById: the path text is parsed with `ParseUint`,
        its error ignored, and the result used as the only field of a struct
        condition. A text that does not parse reads as 0, and 0 is no
        condition: the first row by id answers. */
    method GetById(idText: string, fault: Fault) returns (r: Result<Entity<T>, DbError>)
      requires Valid()
      ensures fault.Some? ==> r == Failure(ErrDatabase(fault.value))
      ensures fault.None? && FirstWithId(rows, ParseUint(idText).value).None? ==> r == Failure(ErrRecordNotFound)
      ensures fault.None? && FirstWithId(rows, ParseUint(idText).value).Some? ==>
                r == Success(rows[FirstWithId(rows, ParseUint(idText).value).value])
      ensures fault.None? && ParseUint(idText).value != 0 ==>
                (r.Success? <==> exists e :: e in rows && e.id == ParseUint(idText).value)
      ensures fault.None? && ParseUint(idText).value == 0 ==>
                (r.Success? <==> |rows| > 0) && (r.Success? ==> r.value == rows[0])
    {
      if fault.Some? {
        return Failure(ErrDatabase(fault.value));
      }
      var id := ParseUint(idText).value;
      match FirstWithId(rows, id)
      case None =>
        r := Failure(ErrRecordNotFound);
      case Some(i) =>
        r := Success(rows[i]);
    }

    /** Save: upserts a row by primary key; a zero key inserts under a fresh
        id. `None` is the nil entity of a failed lookup, which stores
        nothing. */
    method Update(e: Option<Entity<T>>, fault: Fault) returns (err: Option<DbError>)
      requires Valid()
      modifies this
      ensures Valid()
      ensures fault.Some? ==> err == Some(ErrDatabase(fault.value)) && rows == old(rows) && nextId == old(nextId)
      ensures fault.None? ==> err.None?
      ensures fault.None? && e.None? ==> rows == old(rows) && nextId == old(nextId)
      ensures fault.None? && e.Some? && e.value.id == 0 ==>
                rows == old(rows) + [Entity(old(nextId), e.value.fields)] && nextId == old(nextId) + 1
      ensures fault.None? && e.Some? && e.value.id != 0 ==> rows == Upsert(old(rows), e.value)
      ensures fault.None? && e.Some? && e.value.id != 0 ==>
                nextId == if e.value.id < old(nextId) then old(nextId) else e.value.id + 1
    {
      if fault.Some? {
        return Some(ErrDatabase(fault.value));
      }
      err := None;
      if e.Some? {
        if e.value.id == 0 {
          rows := rows + [Entity(nextId, e.value.fields)];
          nextId := nextId + 1;
        } else {
          rows := Upsert(rows, e.value);
          if nextId <= e.value.id {
            nextId := e.value.id + 1;
          }
        }
      }
    }

    /** Deletes the row with the entity's primary key, if any. `None` is the
        nil entity of a failed lookup, which deletes nothing. */
    method Delete(e: Option<Entity<T>>, fault: Fault) returns (err: Option<DbError>)
      requires Valid()
      modifies this
      ensures Valid() && nextId == old(nextId)
      ensures fault.Some? ==> err == Some(ErrDatabase(fault.value)) && rows == old(rows)
      ensures fault.None? ==> err.None?
      ensures fault.None? && e.None? ==> rows == old(rows)
      ensures fault.None? && e.Some? ==> rows == Without(old(rows), e.value.id)
    {
      if fault.Some? {
        return Some(ErrDatabase(fault.value));
      }
      err := None;
      if e.Some? {
        rows := Without(rows, e.value.id);
      }
    }
  }
}
