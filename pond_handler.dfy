/** The pond handlers, shaped like the farm handlers; a pond also carries the
    id of its farm, which creation requires to be non-zero. Several messages
    still say "farm", as they do in the handlers. */
module PondHandler {
  import opened Wrappers
  import opened Helpers
  import opened Validator
  import opened Store
  import opened Models
  import opened Envelope

  const CreateBadRequest := "failed to add new pond due to bad request"
  const CreateFailed := "failed to add new farm due to internal server error"
  const Created := "success add new farm instance to database"
  const FetchFailed := "failed to fetch data due to internal server error"
  const NoRows := "failed to fetch data due to no data row found"
  const NoRecordNote := "no record found"
  const Fetched := "success to fetch data"
  const NotFoundById := "failed to fetch data due to no record found"
  const FetchByIdFailed := "failed to fetch data"
  const UpdateBadRequest := "failed to update new farm due to bad request"
  const NotFoundForUpdate := "failed to fetch data due to no record found with specified id"
  const UpdateFailed := "failed to update a farm"
  const DeleteFailed := "failed to delete a pond"

  /** POST /pond */
  method CreatePond(repo: Table<PondFields>, body: Body<CreatePondRequest>, fault: Fault)
    returns (resp: Response<Pond>)
    requires repo.Valid()
    modifies repo
    ensures repo.Valid()
    ensures BindCreatePond(body).Failure? ==>
              resp == Failed(StatusBadRequest, CreateBadRequest, BindCause(BindCreatePond(body).error))
              && repo.Untouched()
    ensures BindCreatePond(body).Success? && fault.Some? ==>
              resp == Failed(StatusInternalServerError, CreateFailed, DbCause(ErrDatabase(fault.value)))
              && repo.Untouched()
    ensures BindCreatePond(body).Success? && fault.None? ==>
              resp == Succeeded(Created, Entity(old(repo.nextId), PondFields(body.req.name, body.req.farmId)))
              && repo.rows == old(repo.rows) + [resp.data] && repo.nextId == old(repo.nextId) + 1
  {
    var bound := BindCreatePond(body);
    if bound.Failure? {
      return Failed(StatusBadRequest, CreateBadRequest, BindCause(bound.error));
    }
    var created := repo.Create(PondFields(bound.value.name, bound.value.farmId), fault);
    match created
    case Failure(e) =>
      resp := Failed(StatusInternalServerError, CreateFailed, DbCause(e));
    case Success(pond) =>
      resp := Succeeded(Created, pond);
  }

  /** GET /pond: an error takes precedence over an empty list, which is 404. */
  method GetAllPond(repo: Table<PondFields>, fault: Fault) returns (resp: Response<seq<Pond>>)
    requires repo.Valid()
    ensures fault.Some? ==> resp == Failed(StatusInternalServerError, FetchFailed, DbCause(ErrDatabase(fault.value)))
    ensures fault.None? && repo.rows == [] ==> resp == Failed(StatusNotFound, NoRows, Note(NoRecordNote))
    ensures fault.None? && repo.rows != [] ==> resp == Succeeded(Fetched, repo.rows)
    ensures resp.Succeeded? ==> |resp.data| >= 1 && Ascending(resp.data)
  {
    var ponds := repo.GetAll(fault);
    if ponds.Failure? {
      return Failed(StatusInternalServerError, FetchFailed, DbCause(ponds.error));
    }
    if |ponds.value| == 0 {
      return Failed(StatusNotFound, NoRows, Note(NoRecordNote));
    }
    resp := Succeeded(Fetched, ponds.value);
  }

  /** GET /pond/:pondId. The path text is parsed by the repository; a text
      that does not parse reads as 0, and id 0 answers the first pond by id. */
  method GetById(repo: Table<PondFields>, pondId: string, fault: Fault) returns (resp: Response<Pond>)
    requires repo.Valid()
    ensures fault.Some? ==> resp == Failed(StatusInternalServerError, FetchByIdFailed, DbCause(ErrDatabase(fault.value)))
    ensures fault.None? ==> (resp.Succeeded? <==> FirstWithId(repo.rows, ParseUint(pondId).value).Some?)
    ensures fault.None? && !resp.Succeeded? ==> resp == Failed(StatusNotFound, NotFoundById, DbCause(ErrRecordNotFound))
    ensures resp.Succeeded? ==>
              resp.message == Fetched && resp.data == repo.rows[FirstWithId(repo.rows, ParseUint(pondId).value).value]
    ensures fault.None? && ParseUint(pondId).value != 0 ==>
              (resp.Succeeded? <==> exists e :: e in repo.rows && e.id == ParseUint(pondId).value)
    ensures resp.Succeeded? && ParseUint(pondId).value != 0 ==> resp.data.id == ParseUint(pondId).value
    ensures fault.None? && ParseUint(pondId).value == 0 && |repo.rows| > 0 ==> resp == Succeeded(Fetched, repo.rows[0])
  {
    var pond := repo.GetById(pondId, fault);
    match pond
    case Failure(e) =>
      if e == ErrRecordNotFound {
        resp := Failed(StatusNotFound, NotFoundById, DbCause(e));
      } else {
        resp := Failed(StatusInternalServerError, FetchByIdFailed, DbCause(e));
      }
    case Success(f) =>
      resp := Succeeded(Fetched, f);
  }

  /** PUT /pond: a body id of 0 creates a pond; any other id overwrites the
      name and farm id of that pond. A lookup error other than NotFound does not stop the
      handler: it goes on to save the nil pond. */
  method Update(repo: Table<PondFields>, body: Body<UpdatePondRequest>, faults: Faults)
    returns (resp: Response<Pond>)
    requires repo.Valid()
    modifies repo
    ensures repo.Valid()
    ensures body.Undecodable? ==>
              resp == Failed(StatusBadRequest, UpdateBadRequest, BindCause(Malformed(body.reason)))
              && repo.Untouched()
    // no id: the create path, never 204
    ensures body.Decoded? && body.req.id == 0 && faults.write.Some? ==>
              resp == Failed(StatusInternalServerError, CreateFailed, DbCause(ErrDatabase(faults.write.value)))
              && repo.Untouched()
    ensures body.Decoded? && body.req.id == 0 && faults.write.None? ==>
              resp == Succeeded(Created, Entity(old(repo.nextId), PondFields(body.req.name, body.req.farmId)))
              && repo.rows == old(repo.rows) + [resp.data] && repo.nextId == old(repo.nextId) + 1
    // an id that is not stored: 404 and nothing saved
    ensures body.Decoded? && body.req.id != 0 && faults.lookup.None? && Find(old(repo.rows), body.req.id).None? ==>
              resp == Failed(StatusNotFound, NotFoundForUpdate, DbCause(ErrRecordNotFound))
              && repo.Untouched()
    // a stored id: its name and farm id are overwritten in place
    ensures body.Decoded? && body.req.id != 0 && faults.lookup.None? && Find(old(repo.rows), body.req.id).Some? ==>
              if faults.write.Some? then
                resp == Failed(StatusInternalServerError, UpdateFailed, DbCause(ErrDatabase(faults.write.value)))
                && repo.Untouched()
              else
                resp == NoContent && repo.nextId == old(repo.nextId)
                && repo.rows == old(repo.rows)[Find(old(repo.rows), body.req.id).value :=
                                                Entity(body.req.id, PondFields(body.req.name, body.req.farmId))]
    // a failed lookup: the nil pond is saved, which stores nothing
    ensures body.Decoded? && body.req.id != 0 && faults.lookup.Some? ==>
              repo.Untouched()
              && resp == if faults.write.Some? then
                           Failed(StatusInternalServerError, UpdateFailed, DbCause(ErrDatabase(faults.write.value)))
                         else NoContent
  {
    var bound := BindUpdatePond(body);
    if bound.Failure? {
      return Failed(StatusBadRequest, UpdateBadRequest, BindCause(bound.error));
    }
    var req := bound.value;
    if req.id == 0 {
      var created := repo.Create(PondFields(req.name, req.farmId), faults.write);
      match created
      case Failure(e) =>
        resp := Failed(StatusInternalServerError, CreateFailed, DbCause(e));
      case Success(pond) =>
        resp := Succeeded(Created, pond);
    } else {
      // the id travels as fmt.Sprint(id) and is parsed back by the repository
      ParseDecimal(req.id);
      var existed := repo.GetById(Decimal(req.id), faults.lookup);
      if existed.Failure? && existed.error == ErrRecordNotFound {
        return Failed(StatusNotFound, NotFoundForUpdate, DbCause(existed.error));
      }
      var overlaid: Option<Pond> := None;
      if existed.Success? {
        overlaid := Some(existed.value.(fields := PondFields(req.name, req.farmId)));
        UpsertExisting(repo.rows, overlaid.value, Find(repo.rows, req.id).value);
      }
      var err := repo.Update(overlaid, faults.write);
      if err.Some? {
        return Failed(StatusInternalServerError, UpdateFailed, DbCause(err.value));
      }
      resp := NoContent;
    }
  }

  /** DELETE /pond/:pondId. The lookup is the one of GetById, so a path
      that reads as 0 deletes the first pond by id. A lookup error other than
      NotFound falls through to deleting the nil pond, which deletes
      nothing. */
  method Delete(repo: Table<PondFields>, pondId: string, faults: Faults) returns (resp: Response<Pond>)
    requires repo.Valid()
    modifies repo
    ensures repo.Valid() && repo.nextId == old(repo.nextId)
    ensures faults.lookup.None? && FirstWithId(old(repo.rows), ParseUint(pondId).value).None? ==>
              resp == Failed(StatusNotFound, NotFoundById, DbCause(ErrRecordNotFound)) && repo.Untouched()
    ensures (faults.lookup.Some? || FirstWithId(old(repo.rows), ParseUint(pondId).value).Some?) && faults.write.Some? ==>
              resp == Failed(StatusInternalServerError, DeleteFailed, DbCause(ErrDatabase(faults.write.value)))
              && repo.Untouched()
    ensures faults.lookup.None? && FirstWithId(old(repo.rows), ParseUint(pondId).value).Some? && faults.write.None? ==>
              var target := old(repo.rows)[FirstWithId(old(repo.rows), ParseUint(pondId).value).value];
              resp == NoContent && repo.rows == Without(old(repo.rows), target.id)
              && Find(repo.rows, target.id).None?
    ensures faults.lookup.None? && ParseUint(pondId).value == 0 && |old(repo.rows)| > 0 && faults.write.None? ==>
              resp == NoContent && repo.rows == old(repo.rows)[1..]
    ensures faults.lookup.Some? && faults.write.None? ==> resp == NoContent && repo.Untouched()
  {
    var existed := repo.GetById(pondId, faults.lookup);
    if existed.Failure? && existed.error == ErrRecordNotFound {
      return Failed(StatusNotFound, NotFoundById, DbCause(existed.error));
    }
    var target: Option<Pond> := if existed.Success? then Some(existed.value) else None;
    var err := repo.Delete(target, faults.write);
    if err.Some? {
      return Failed(StatusInternalServerError, DeleteFailed, DbCause(err.value));
    }
    if target.Some? {
      WithoutRemoves(old(repo.rows), target.value.id);
      if ParseUint(pondId).value == 0 {
        WithoutLowest(old(repo.rows));
      }
    }
    resp := NoContent;
  }

  /** POST then GET then DELETE then GET of one pond: 200 with a new non-zero
      id, 200 with the same pond, 204, and 404. */
  method CreateFetchDeleteFetch(repo: Table<PondFields>, name: string, farmId: Uint)
    returns (created: Response<Pond>, fetched: Response<Pond>, deleted: Response<Pond>, refetched: Response<Pond>)
    requires repo.Valid() && repo.nextId < UintLimit && |name| >= 1 && farmId != 0
    modifies repo
    ensures created.Succeeded? && created.data.id != 0 && created.data.fields == PondFields(name, farmId)
    ensures forall i :: 0 <= i < |old(repo.rows)| ==> old(repo.rows)[i].id != created.data.id
    ensures fetched == Succeeded(Fetched, created.data)
    ensures deleted == NoContent
    ensures refetched == Failed(StatusNotFound, NotFoundById, DbCause(ErrRecordNotFound))
  {
    created := CreatePond(repo, Decoded(CreatePondRequest(name, farmId)), None);
    var id := created.data.id;
    ParseDecimal(id);
    fetched := GetById(repo, Decimal(id), None);
    assert repo.rows[|repo.rows| - 1] == created.data;
    assert fetched.data == created.data by {
      var e := fetched.data;
      assert e in repo.rows && e.id == id;
      assert forall i :: 0 <= i < |repo.rows| - 1 ==> repo.rows[i].id < id;
    }
    deleted := Delete(repo, Decimal(id), Faults(None, None));
    refetched := GetById(repo, Decimal(id), None);
  }

  /** PUT without an id stores a pond with no name and no farm, which POST
      refuses. */
  method PutCreatesWhatPostRefuses(repo: Table<PondFields>)
    returns (post: Response<Pond>, put: Response<Pond>)
    requires repo.Valid()
    modifies repo
    ensures post.Code() == StatusBadRequest
    ensures put.Code() == StatusOK && put.Succeeded? && put.data.fields == PondFields("", 0) && put.data in repo.rows
  {
    post := CreatePond(repo, Decoded(CreatePondRequest("", 0)), None);
    put := Update(repo, Decoded(UpdatePondRequest(0, "", 0)), Faults(None, None));
  }
}
