/** The handler listing the access counter. */
module RecordApiHandler {
  import opened Store
  import opened RecordRepository
  import opened Envelope

  const FetchFailed := "failed to fetch data due to internal server error"
  const NoRows := "failed to fetch data due to no data row found"
  const NoRecordNote := "no record found"
  const Fetched := "success to fetch data"

  /** GET of the counter table: an error takes precedence over an empty list,
      which is 404; otherwise every row, by ascending path. */
  method GetAllRecord(repo: RecordApiRepository, fault: Fault) returns (resp: Response<seq<RecordApi>>)
    ensures fault.Some? ==> resp == Failed(StatusInternalServerError, FetchFailed, DbCause(ErrDatabase(fault.value)))
    ensures fault.None? && repo.table == map[] ==> resp == Failed(StatusNotFound, NoRows, Note(NoRecordNote))
    ensures fault.None? && repo.table != map[] ==> resp.Succeeded? && resp.message == Fetched
    ensures resp.Succeeded? ==> |resp.data| == |repo.table| >= 1 && KeysOf(resp.data) == repo.table.Keys
    ensures resp.Succeeded? ==> SortedByPath(resp.data)
    ensures resp.Succeeded? ==>
              forall x :: x in resp.data ==> KeyOf(x) in repo.table && repo.table[KeyOf(x)] == x.count
  {
    var records := repo.GetAll(fault);
    if records.Failure? {
      return Failed(StatusInternalServerError, FetchFailed, DbCause(records.error));
    }
    if |records.value| == 0 {
      return Failed(StatusNotFound, NoRows, Note(NoRecordNote));
    }
    resp := Succeeded(Fetched, records.value);
  }
}
