/** The access-counter table and its repository (`RecordApiRepository`). A row
    is identified by its natural key (request path, client identifier, status,
    referer) and holds a visit count; the table is a map from key to count. */
module RecordRepository {
  import opened Wrappers
  import opened Store

  datatype Key = Key(requestPath: string, userAgent: string, status: int, referer: string)

  /** `models.RecordApi` without its id and timestamps. As in the model, the
      client identifier lives in the field named `userAgent`. */
  datatype RecordApi = Record(requestPath: string, userAgent: string, status: int, referer: string, count: nat)

  function KeyOf(r: RecordApi): Key {
    Key(r.requestPath, r.userAgent, r.status, r.referer)
  }

  function RecordOf(k: Key, count: nat): (r: RecordApi)
    ensures KeyOf(r) == k && r.count == count
  {
    Record(k.requestPath, k.userAgent, k.status, k.referer, count)
  }

  // ---------------------------------------------------------------------------
  // Listing order: "request_path asc"
  // ---------------------------------------------------------------------------

  /** Lexicographic order of paths, character by character. */
  predicate PathLe(a: string, b: string)
    decreases |a|
  {
    if a == [] then true
    else if b == [] then false
    else if a[0] != b[0] then a[0] < b[0]
    else PathLe(a[1..], b[1..])
  }

  lemma {:induction false} PathLeTotal(a: string, b: string)
    ensures PathLe(a, b) || PathLe(b, a)
    decreases |a|
  {
    if a != [] && b != [] && a[0] == b[0] {
      PathLeTotal(a[1..], b[1..]);
    }
  }

  lemma {:induction false} PathLeTransitive(a: string, b: string, c: string)
    requires PathLe(a, b) && PathLe(b, c)
    ensures PathLe(a, c)
    decreases |a|
  {
    if a != [] && b != [] && c != [] && a[0] == b[0] == c[0] {
      PathLeTransitive(a[1..], b[1..], c[1..]);
    }
  }

  ghost predicate SortedByPath(s: seq<RecordApi>) {
    forall i :: 0 < i < |s| ==> PathLe(s[i - 1].requestPath, s[i].requestPath)
  }

  function KeysOf(s: seq<RecordApi>): set<Key> {
    set r | r in s :: KeyOf(r)
  }

  /** Inserts a record into a path-sorted list, after the records whose path
      does not come after its own. */
  function InsertByPath(x: RecordApi, s: seq<RecordApi>): (r: seq<RecordApi>)
    requires SortedByPath(s)
    ensures SortedByPath(r)
    ensures multiset(r) == multiset(s) + multiset{x}
    ensures |r| == |s| + 1
    ensures forall y :: y in r <==> y == x || y in s
    ensures |s| > 0 ==> r[0] == x || r[0] == s[0]
  {
    if s == [] || PathLe(x.requestPath, s[0].requestPath) then [x] + s
    else
      PathLeTotal(x.requestPath, s[0].requestPath);
      var rest := InsertByPath(x, s[1..]);
      assert s == [s[0]] + s[1..];
      [s[0]] + rest
  }

  /** Inserting a record adds its key to the listed keys. */
  lemma KeysOfInsert(x: RecordApi, s: seq<RecordApi>)
    requires SortedByPath(s)
    ensures KeysOf(InsertByPath(x, s)) == KeysOf(s) + {KeyOf(x)}
  {
    var r := InsertByPath(x, s);
    forall k | k in KeysOf(s) + {KeyOf(x)} ensures k in KeysOf(r) {
      if k == KeyOf(x) {
        assert x in r;
      } else {
        var y :| y in s && KeyOf(y) == k;
        assert y in r;
      }
    }
  }

  /** The outcome of `UpdateCount`: the nil record is dereferenced, or the
      record has been incremented in place and the save's error returned. */
  datatype CountUpdate = NilDereference | Incremented(record: RecordApi, saveError: Option<DbError>)

  class RecordApiRepository {
    var table: map<Key, nat>

    constructor ()
      ensures table == map[]
    {
      table := map[];
    }

    /** Inserts a row. Nothing is returned, so a failed insert goes unnoticed. */
    method Create(record: RecordApi, fault: Fault)
      modifies this
      ensures table == if fault.Some? then old(table) else old(table)[KeyOf(record) := record.count]
    {
      if fault.None? {
        table := table[KeyOf(record) := record.count];
      }
    }

    /** Every row, in ascending path order. */
    method GetAll(fault: Fault) returns (r: Result<seq<RecordApi>, DbError>)
      ensures fault.Some? ==> r == Failure(ErrDatabase(fault.value))
      ensures fault.None? ==> r.Success? && SortedByPath(r.value)
      ensures fault.None? ==> |r.value| == |table| && KeysOf(r.value) == table.Keys
      ensures fault.None? ==> forall x :: x in r.value ==> KeyOf(x) in table && table[KeyOf(x)] == x.count
    {
      if fault.Some? {
        return Failure(ErrDatabase(fault.value));
      }
      var pending := table.Keys;
      var listed: seq<RecordApi> := [];
      while pending != {}
        invariant pending <= table.Keys
        invariant SortedByPath(listed)
        invariant KeysOf(listed) == table.Keys - pending
        invariant |listed| == |table.Keys - pending|
        invariant forall x :: x in listed ==> KeyOf(x) in table && table[KeyOf(x)] == x.count
        decreases pending
      {
        var k :| k in pending;
        var x := RecordOf(k, table[k]);
        var next := InsertByPath(x, listed);
        KeysOfInsert(x, listed);
        assert table.Keys - (pending - {k}) == (table.Keys - pending) + {k};
        listed := next;
        pending := pending - {k};
      }
      assert table.Keys - pending == table.Keys;
      r := Success(listed);
    }

    /** The row with the key of `where`, or NotFound. */
    method GetByModel(where: RecordApi, fault: Fault) returns (r: Result<RecordApi, DbError>)
      ensures fault.Some? ==> r == Failure(ErrDatabase(fault.value))
      ensures fault.None? ==> (r.Success? <==> KeyOf(where) in table)
      ensures fault.None? && r.Failure? ==> r.error == ErrRecordNotFound
      ensures r.Success? ==> KeyOf(r.value) == KeyOf(where) && r.value.count == table[KeyOf(where)]
    {
      if fault.Some? {
        return Failure(ErrDatabase(fault.value));
      }
      var k := KeyOf(where);
      if k in table {
        r := Success(RecordOf(k, table[k]));
      } else {
        r := Failure(ErrRecordNotFound);
      }
    }

    /** `record.Count++` on the caller's record, then a save of that record;
        the increment stands even when the save fails. */
    method UpdateCount(record: Option<RecordApi>, fault: Fault) returns (outcome: CountUpdate)
      modifies this
      ensures record.None? ==> outcome == NilDereference && table == old(table)
      ensures record.Some? ==>
                outcome == Incremented(record.value.(count := record.value.count + 1),
                                       if fault.Some? then Some(ErrDatabase(fault.value)) else None)
      ensures record.Some? && fault.Some? ==> table == old(table)
      ensures record.Some? && fault.None? ==> table == old(table)[KeyOf(record.value) := record.value.count + 1]
    {
      if record.None? {
        return NilDereference;
      }
      var incremented := record.value.(count := record.value.count + 1);
      if fault.Some? {
        return Incremented(incremented, Some(ErrDatabase(fault.value)));
      }
      table := table[KeyOf(incremented) := incremented.count];
      outcome := Incremented(incremented, None);
    }
  }

  // ---------------------------------------------------------------------------
  // The lookup as the ORM performs it
  // ---------------------------------------------------------------------------

  /** A struct condition: every non-zero field of `where` must match, and a
      zero-valued field (empty string, status 0, count 0) constrains
      nothing. */
  predicate MatchesStructCondition(row: RecordApi, where: RecordApi) {
    && (where.requestPath == "" || row.requestPath == where.requestPath)
    && (where.userAgent == "" || row.userAgent == where.userAgent)
    && (where.status == 0 || row.status == where.status)
    && (where.referer == "" || row.referer == where.referer)
    && (where.count == 0 || row.count == where.count)
  }

  /** `First(&where, ...)` over rows listed in primary-key order. */
  function FirstByStructCondition(rows: seq<RecordApi>, where: RecordApi): (r: Option<nat>)
    ensures r.Some? ==> r.value < |rows| && MatchesStructCondition(rows[r.value], where)
    ensures r.Some? ==> forall i :: 0 <= i < r.value ==> !MatchesStructCondition(rows[i], where)
    ensures r.None? ==> forall i :: 0 <= i < |rows| ==> !MatchesStructCondition(rows[i], where)
  {
    if rows == [] then None
    else if MatchesStructCondition(rows[0], where) then Some(0)
    else match FirstByStructCondition(rows[1..], where)
      case None => None
      case Some(i) => Some(i + 1)
  }

  /** With every key field set and no count, the struct condition is the
      exact key, which is what the map lookup uses. */
  lemma StructConditionOnFullKey(row: RecordApi, where: RecordApi)
    requires where.requestPath != "" && where.userAgent != "" && where.status != 0 && where.referer != ""
    requires where.count == 0
    ensures MatchesStructCondition(row, where) <==> KeyOf(row) == KeyOf(where)
  {
  }
}
