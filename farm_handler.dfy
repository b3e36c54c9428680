/** The farm handlers: each binds its input, calls the farm repository and maps
    the outcome to a status code and an envelope. */
module FarmHandler {
  import opened Wrappers
  import opened Helpers
  import opened Validator
  import opened Store
  import opened Models
  import opened Envelope

  const CreateBadRequest := "failed to add new farm due to bad request"
  const CreateFailed := "failed to add new farm due to internal server error"
  const Created := "success add new farm instance to database"
  const FetchFailed := "failed to fetch data due to internal server error"
  const NoRows := "failed to fetch data due to no data row found"
  const NoRecordNote := "no record found"
  const Fetched := "success to fetch data"
  const NotFoundById := "failed to fetch data due to no record found"
  const FetchByIdFailed := "failed to fetch data"
  const UpdateBadRequest := "failed to update new farm due to bad request"
  const NotFoundForUpdate := "failed to fetch data due to no record found with specified id"
  const UpdateFailed := "failed to update a farm"
  const DeleteFailed := "failed to delete a farm"

  /** POST /farm */
  method CreateFarm(repo: Table<FarmFields>, body: Body<CreateFarmRequest>, fault: Fault)
    returns (resp: Response<Farm>)
    requires repo.Valid()
    modifies repo
    ensures repo.Valid()
    ensures BindCreateFarm(body).Failure? ==>
              resp == Failed(StatusBadRequest, CreateBadRequest, BindCause(BindCreateFarm(body).error))
              && repo.Untouched()
    ensures BindCreateFarm(body).Success? && fault.Some? ==>
              resp == Failed(StatusInternalServerError, CreateFailed, DbCause(ErrDatabase(fault.value)))
              && repo.Untouched()
    ensures BindCreateFarm(body).Success? && fault.None? ==>
              resp == Succeeded(Created, Entity(old(repo.nextId), FarmFields(body.req.name)))
              && repo.rows == old(repo.rows) + [resp.data] && repo.nextId == old(repo.nextId) + 1
  {
    var bound := BindCreateFarm(body);
    if bound.Failure? {
      return Failed(StatusBadRequest, CreateBadRequest, BindCause(bound.error));
    }
    var created := repo.Create(FarmFields(bound.value.name), fault);
    match created
    case Failure(e) =>
      resp := Failed(StatusInternalServerError, CreateFailed, DbCause(e));
    case Success(farm) =>
      resp := Succeeded(Created, farm);
  }

  /** GET /farm: an error takes precedence over an empty list, which is 404. */
  method GetAllFarm(repo: Table<FarmFields>, fault: Fault) returns (resp: Response<seq<Farm>>)
    requires repo.Valid()
    ensures fault.Some? ==> resp == Failed(StatusInternalServerError, FetchFailed, DbCause(ErrDatabase(fault.value)))
    ensures fault.None? && repo.rows == [] ==> resp == Failed(StatusNotFound, NoRows, Note(NoRecordNote))
    ensures fault.None? && repo.rows != [] ==> resp == Succeeded(Fetched, repo.rows)
    ensures resp.Succeeded? ==> |resp.data| >= 1 && Ascending(resp.data)
  {
    var farms := repo.GetAll(fault);
    if farms.Failure? {
      return Failed(StatusInternalServerError, FetchFailed, DbCause(farms.error));
    }
    if |farms.value| == 0 {
      return Failed(StatusNotFound, NoRows, Note(NoRecordNote));
    }
    resp := Succeeded(Fetched, farms.value);
  }

  /** GET /farm/:farmId. The path text is parsed by the repository; a text
      that does not parse reads as 0, and id 0 answers the first farm by id. */
  method GetById(repo: Table<FarmFields>, farmId: string, fault: Fault) returns (resp: Response<Farm>)
    requires repo.Valid()
    ensures fault.Some? ==> resp == Failed(StatusInternalServerError, FetchByIdFailed, DbCause(ErrDatabase(fault.value)))
    ensures fault.None? ==> (resp.Succeeded? <==> FirstWithId(repo.rows, ParseUint(farmId).value).Some?)
    ensures fault.None? && !resp.Succeeded? ==> resp == Failed(StatusNotFound, NotFoundById, DbCause(ErrRecordNotFound))
    ensures resp.Succeeded? ==>
              resp.message == Fetched && resp.data == repo.rows[FirstWithId(repo.rows, ParseUint(farmId).value).value]
    ensures fault.None? && ParseUint(farmId).value != 0 ==>
              (resp.Succeeded? <==> exists e :: e in repo.rows && e.id == ParseUint(farmId).value)
    ensures resp.Succeeded? && ParseUint(farmId).value != 0 ==> resp.data.id == ParseUint(farmId).value
    ensures fault.None? && ParseUint(farmId).value == 0 && |repo.rows| > 0 ==> resp == Succeeded(Fetched, repo.rows[0])
  {
    var farm := repo.GetById(farmId, fault);
    match farm
    case Failure(e) =>
      if e == ErrRecordNotFound {
        resp := Failed(StatusNotFound, NotFoundById, DbCause(e));
      } else {
        resp := Failed(StatusInternalServerError, FetchByIdFailed, DbCause(e));
      }
    case Success(f) =>
      resp := Succeeded(Fetched, f);
  }

  /** PUT /farm: a body id of 0 creates a farm; any other id overwrites the
      name of that farm. A lookup error other than NotFound does not stop the
      handler: it goes on to save the nil farm. */
  method Update(repo: Table<FarmFields>, body: Body<UpdateFarmRequest>, faults: Faults)
    returns (resp: Response<Farm>)
    requires repo.Valid()
    modifies repo
    ensures repo.Valid()
    ensures body.Undecodable? ==>
              resp == Failed(StatusBadRequest, UpdateBadRequest, BindCause(Malformed(body.reason)))
              && repo.Untouched()
    // no id: the create path, never 204
    ensures body.Decoded? && body.req.id == 0 && faults.write.Some? ==>
              resp == Failed(StatusInternalServerError, CreateFailed, DbCause(ErrDatabase(faults.write.value)))
              && repo.Untouched()
    ensures body.Decoded? && body.req.id == 0 && faults.write.None? ==>
              resp == Succeeded(Created, Entity(old(repo.nextId), FarmFields(body.req.name)))
              && repo.rows == old(repo.rows) + [resp.data] && repo.nextId == old(repo.nextId) + 1
    // an id that is not stored: 404 and nothing saved
    ensures body.Decoded? && body.req.id != 0 && faults.lookup.None? && Find(old(repo.rows), body.req.id).None? ==>
              resp == Failed(StatusNotFound, NotFoundForUpdate, DbCause(ErrRecordNotFound))
              && repo.Untouched()
    // a stored id: its name is overwritten in place
    ensures body.Decoded? && body.req.id != 0 && faults.lookup.None? && Find(old(repo.rows), body.req.id).Some? ==>
              if faults.write.Some? then
                resp == Failed(StatusInternalServerError, UpdateFailed, DbCause(ErrDatabase(faults.write.value)))
                && repo.Untouched()
              else
                resp == NoContent && repo.nextId == old(repo.nextId)
                && repo.rows == old(repo.rows)[Find(old(repo.rows), body.req.id).value :=
                                                Entity(body.req.id, FarmFields(body.req.name))]
    // a failed lookup: the nil farm is saved, which stores nothing
    ensures body.Decoded? && body.req.id != 0 && faults.lookup.Some? ==>
              repo.Untouched()
              && resp == if faults.write.Some? then
                           Failed(StatusInternalServerError, UpdateFailed, DbCause(ErrDatabase(faults.write.value)))
                         else NoContent
  {
    var bound := BindUpdateFarm(body);
    if bound.Failure? {
      return Failed(StatusBadRequest, UpdateBadRequest, BindCause(bound.error));
    }
    var req := bound.value;
    if req.id == 0 {
      var created := repo.Create(FarmFields(req.name), faults.write);
      match created
      case Failure(e) =>
        resp := Failed(StatusInternalServerError, CreateFailed, DbCause(e));
      case Success(farm) =>
        resp := Succeeded(Created, farm);
    } else {
      // the id travels as fmt.Sprint(id) and is parsed back by the repository
      ParseDecimal(req.id);
      var existed := repo.GetById(Decimal(req.id), faults.lookup);
      if existed.Failure? && existed.error == ErrRecordNotFound {
        return Failed(StatusNotFound, NotFoundForUpdate, DbCause(existed.error));
      }
      var overlaid: Option<Farm> := None;
      if existed.Success? {
        overlaid := Some(existed.value.(fields := FarmFields(req.name)));
        UpsertExisting(repo.rows, overlaid.value, Find(repo.rows, req.id).value);
      }
      var err := repo.Update(overlaid, faults.write);
      if err.Some? {
        return Failed(StatusInternalServerError, UpdateFailed, DbCause(err.value));
      }
      resp := NoContent;
    }
  }

  /** DELETE /farm/:farmId. The lookup is the one of GetById, so a path
      that reads as 0 deletes the first farm by id. A lookup error other than
      NotFound falls through to deleting the nil farm, which deletes
      nothing. */
  method Delete(repo: Table<FarmFields>, farmId: string, faults: Faults) returns (resp: Response<Farm>)
    requires repo.Valid()
    modifies repo
    ensures repo.Valid() && repo.nextId == old(repo.nextId)
    ensures faults.lookup.None? && FirstWithId(old(repo.rows), ParseUint(farmId).value).None? ==>
              resp == Failed(StatusNotFound, NotFoundById, DbCause(ErrRecordNotFound)) && repo.Untouched()
    ensures (faults.lookup.Some? || FirstWithId(old(repo.rows), ParseUint(farmId).value).Some?) && faults.write.Some? ==>
              resp == Failed(StatusInternalServerError, DeleteFailed, DbCause(ErrDatabase(faults.write.value)))
              && repo.Untouched()
    ensures faults.lookup.None? && FirstWithId(old(repo.rows), ParseUint(farmId).value).Some? && faults.write.None? ==>
              var target := old(repo.rows)[FirstWithId(old(repo.rows), ParseUint(farmId).value).value];
              resp == NoContent && repo.rows == Without(old(repo.rows), target.id)
              && Find(repo.rows, target.id).None?
    ensures faults.lookup.None? && ParseUint(farmId).value == 0 && |old(repo.rows)| > 0 && faults.write.None? ==>
              resp == NoContent && repo.rows == old(repo.rows)[1..]
    ensures faults.lookup.Some? && faults.write.None? ==> resp == NoContent && repo.Untouched()
  {
    var existed := repo.GetById(farmId, faults.lookup);
    if existed.Failure? && existed.error == ErrRecordNotFound {
      return Failed(StatusNotFound, NotFoundById, DbCause(existed.error));
    }
    var target: Option<Farm> := if existed.Success? then Some(existed.value) else None;
    var err := repo.Delete(target, faults.write);
    if err.Some? {
      return Failed(StatusInternalServerError, DeleteFailed, DbCause(err.value));
    }
    if target.Some? {
      WithoutRemoves(old(repo.rows), target.value.id);
      if ParseUint(farmId).value == 0 {
        WithoutLowest(old(repo.rows));
      }
    }
    resp := NoContent;
  }

  /** POST then GET then DELETE then GET of one farm: 200 with a new non-zero
      id, 200 with the same farm, 204, and 404. */
  method CreateFetchDeleteFetch(repo: Table<FarmFields>, name: string)
    returns (created: Response<Farm>, fetched: Response<Farm>, deleted: Response<Farm>, refetched: Response<Farm>)
    requires repo.Valid() && repo.nextId < UintLimit && |name| >= 1
    modifies repo
    ensures created.Succeeded? && created.data.id != 0 && created.data.fields.name == name
    ensures forall i :: 0 <= i < |old(repo.rows)| ==> old(repo.rows)[i].id != created.data.id
    ensures fetched == Succeeded(Fetched, created.data)
    ensures deleted == NoContent
    ensures refetched == Failed(StatusNotFound, NotFoundById, DbCause(ErrRecordNotFound))
  {
    created := CreateFarm(repo, Decoded(CreateFarmRequest(name)), None);
    var id := created.data.id;
    ParseDecimal(id);
    fetched := GetById(repo, Decimal(id), None);
    assert repo.rows[|repo.rows| - 1] == created.data;
    assert fetched.data == created.data by {
      var e := fetched.data;
      assert e in repo.rows && e.id == id;
      assert forall i :: 0 <= i < |repo.rows| - 1 ==> repo.rows[i].id < id;
    }
    deleted := Delete(repo, Decimal(id), Faults(None, None));
    refetched := GetById(repo, Decimal(id), None);
  }

  /** PUT without an id stores a farm with an empty name, which POST refuses. */
  method PutCreatesWhatPostRefuses(repo: Table<FarmFields>)
    returns (post: Response<Farm>, put: Response<Farm>)
    requires repo.Valid()
    modifies repo
    ensures post.Code() == StatusBadRequest
    ensures put.Code() == StatusOK && put.Succeeded? && put.data.fields.name == "" && put.data in repo.rows
  {
    post := CreateFarm(repo, Decoded(CreateFarmRequest("")), None);
    put := Update(repo, Decoded(UpdateFarmRequest(0, "")), Faults(None, None));
  }
}
