/** The `RecordApi` middleware: after the rest of the handler chain has run,
    the request's key is looked up in the access-counter table, and its row is
    created with count 1 or bumped by one. */
module Middleware {
  import opened Wrappers
  import opened Helpers
  import opened Store
  import opened RecordRepository

  /** What the middleware reads from the request. */
  datatype Request = Request(requestURI: string, forwardedFor: string, realIP: string, remoteAddr: string, referer: string)

  /** `whereRecord`: the key of the request with no count set. `status` is the
      status the handler chain wrote, since the chain runs first. */
  function WhereRecord(req: Request, status: int): RecordApi {
    Record(req.requestURI, GetClientIP(req.forwardedFor, req.realIP, req.remoteAddr), status, req.referer, 0)
  }

  function KeyFor(req: Request, status: int): Key {
    KeyOf(WhereRecord(req, status))
  }

  /** The counter table after one request with key `k`: its count is created
      at 1 or bumped by exactly 1, and no other key is touched. */
  function Recorded(table: map<Key, nat>, k: Key): (t: map<Key, nat>)
    ensures t.Keys == table.Keys + {k}
    ensures t[k] >= 1
    ensures k in table ==> t[k] == table[k] + 1
    ensures k !in table ==> t[k] == 1
    ensures forall j :: j in table && j != k ==> t[j] == table[j]
  {
    table[k := if k in table then table[k] + 1 else 1]
  }

  /** Counts only grow, and no key ever disappears. */
  lemma CountsGrow(table: map<Key, nat>, k: Key)
    ensures forall j :: j in table ==> j in Recorded(table, k) && Recorded(table, k)[j] >= table[j]
  {
  }

  /** Every stored count is at least 1, if it was so before. */
  lemma CountsStayPositive(table: map<Key, nat>, k: Key)
    requires forall j :: j in table ==> table[j] >= 1
    ensures forall j :: j in Recorded(table, k) ==> Recorded(table, k)[j] >= 1
  {
  }

  /** Two requests leave the same table in either order. */
  lemma RecordedCommutes(table: map<Key, nat>, a: Key, b: Key)
    ensures Recorded(Recorded(table, a), b) == Recorded(Recorded(table, b), a)
  {
  }

  /** The sum of all counts: the number of requests recorded. */
  ghost function Total(t: map<Key, nat>): nat
    decreases t.Keys
  {
    if t.Keys == {} then 0
    else
      var k :| k in t.Keys;
      t[k] + Total(t - {k})
  }

  /** `Total` does not depend on which key it takes first. */
  lemma {:induction false} TotalRemove(t: map<Key, nat>, k: Key)
    requires k in t
    ensures Total(t) == t[k] + Total(t - {k})
    decreases t.Keys
  {
    var j :| j in t.Keys && Total(t) == t[j] + Total(t - {j});
    if j != k {
      TotalRemove(t - {j}, k);
      TotalRemove(t - {k}, j);
      assert t - {j} - {k} == t - {k} - {j};
    }
  }

  /** Each recorded request adds exactly one to the sum of counts. */
  lemma {:induction false} RecordedTotal(table: map<Key, nat>, k: Key)
    ensures Total(Recorded(table, k)) == Total(table) + 1
  {
    var t := Recorded(table, k);
    TotalRemove(t, k);
    if k in table {
      TotalRemove(table, k);
      assert t - {k} == table - {k};
    } else {
      assert t - {k} == table;
    }
  }

  /** Behind a proxy that sets `X-Forwarded-For`, the key does not depend on
      `X-Real-IP` or on the socket address. */
  lemma SameClientBehindProxy(req1: Request, req2: Request, status: int)
    requires req1.requestURI == req2.requestURI && req1.referer == req2.referer
    requires req1.forwardedFor == req2.forwardedFor && |req1.forwardedFor| != 0
    ensures KeyFor(req1, status) == KeyFor(req2, status)
  {
  }

  /** The middleware, run after the handler chain wrote `status`. `lookup` and
      `write` are the outcomes of the lookup and of the insert or save. The
      errors of the insert and the save are dropped. A lookup error other than
      NotFound leads to `UpdateCount` on the nil record, which panics. */
  method RecordApi(repo: RecordApiRepository, req: Request, status: int, lookup: Fault, write: Fault)
    returns (panicked: bool)
    modifies repo
    ensures panicked <==> lookup.Some?
    ensures lookup.None? && write.None? ==> repo.table == Recorded(old(repo.table), KeyFor(req, status))
    ensures lookup.Some? || write.Some? ==> repo.table == old(repo.table)
  {
    var whereRecord := WhereRecord(req, status);
    var existed := repo.GetByModel(whereRecord, lookup);
    if existed.Failure? && existed.error == ErrRecordNotFound {
      whereRecord := whereRecord.(count := 1);
      repo.Create(whereRecord, write);
      return false;
    }
    var record: Option<RecordApi> := if existed.Success? then Some(existed.value) else None;
    var outcome := repo.UpdateCount(record, write);
    panicked := outcome.NilDereference?;
  }

  // ---------------------------------------------------------------------------
  // The step as written, over the rows in primary-key order
  // ---------------------------------------------------------------------------

  /** One request as the code performs it: the lookup is a struct condition,
      so the first row matching the non-zero fields of `whereRecord` is
      bumped, whatever its values in the zero fields. */
  function StepAsWritten(rows: seq<RecordApi>, req: Request, status: int): (r: seq<RecordApi>)
    ensures FirstByStructCondition(rows, WhereRecord(req, status)).None? ==>
              r == rows + [WhereRecord(req, status).(count := 1)]
    ensures FirstByStructCondition(rows, WhereRecord(req, status)).Some? ==>
              var i := FirstByStructCondition(rows, WhereRecord(req, status)).value;
              |r| == |rows| && r[i] == rows[i].(count := rows[i].count + 1)
              && forall j :: 0 <= j < |rows| && j != i ==> r[j] == rows[j]
  {
    var whereRecord := WhereRecord(req, status);
    match FirstByStructCondition(rows, whereRecord)
    case None => rows + [whereRecord.(count := 1)]
    case Some(i) => rows[i := rows[i].(count := rows[i].count + 1)]
  }

  /** A request without a `Referer` header is counted on the row of a request
      that had one, and no row for its own key is created; the keyed table
      creates that row instead. */
  lemma EmptyRefererBumpsAnotherRow()
    ensures var req := Request("/farm", "", "", "10.0.0.7", "");
            var rows := [Record("/farm", "10.0.0.7", 200, "https://a/", 3)];
            && StepAsWritten(rows, req, 200) == [Record("/farm", "10.0.0.7", 200, "https://a/", 4)]
            && KeyFor(req, 200) != KeyOf(rows[0])
            && Recorded(map[KeyOf(rows[0]) := 3], KeyFor(req, 200))
               == map[KeyOf(rows[0]) := 3, KeyFor(req, 200) := 1]
  {
    var ip := "10.0.0.7";
    var req := Request("/farm", "", "", ip, "");
    var rows := [Record("/farm", ip, 200, "https://a/", 3)];
    assert ',' !in ip by {
      forall i | 0 <= i < |ip| ensures ip[i] != ',' { }
    }
    assert GetClientIP("", "", ip) == ip;
    var w := WhereRecord(req, 200);
    assert w == Record("/farm", ip, 200, "", 0);
    assert MatchesStructCondition(rows[0], w);
    assert FirstByStructCondition(rows, w) == Some(0);
    assert KeyFor(req, 200).referer == "";
  }
}
