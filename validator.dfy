/** The request shapes of package `validator` and gin's `ShouldBind`: decode
    the body into the request struct, then check its `binding` tags. */
module Validator {
  import opened Wrappers
  import opened Helpers

  /** `name` carries `binding:"required,min=1"`. */
  datatype CreateFarmRequest = CreateFarmRequest(name: string)

  /** No binding tags: `id` defaults to 0 and `name` to "". */
  datatype UpdateFarmRequest = UpdateFarmRequest(id: Uint, name: string)

  /** `name` carries `binding:"required,min=1"`, `farm_id` carries `binding:"required"`. */
  datatype CreatePondRequest = CreatePondRequest(name: string, farmId: Uint)

  /** No binding tags on `id`, `name` or `farm_id`. */
  datatype UpdatePondRequest = UpdatePondRequest(id: Uint, name: string, farmId: Uint)

  /** A request body as the JSON/form decoder leaves it: decoded into the
      request struct, absent fields holding their zero value, or refused
      (malformed JSON, a negative or non-numeric id, ...) with the decoder's
      reason. */
  datatype Body<R> = Decoded(req: R) | Undecodable(reason: string)

  /** Why binding failed: the decoder refused the body, or these fields (by
      struct field name, in declaration order) failed a binding tag. */
  datatype BindError = Malformed(reason: string) | Invalid(fields: seq<string>)

  /** `required` on a string fails for "", and `min=1` then fails for nothing
      more, so the name tag holds exactly for a non-empty name. */
  function NameViolation(name: string): (fields: seq<string>)
    ensures fields == [] <==> |name| >= 1
  {
    if |name| >= 1 then [] else ["Name"]
  }

  /** `required` on a `uint` fails for the zero value. */
  function FarmIdViolation(farmId: Uint): (fields: seq<string>)
    ensures fields == [] <==> farmId != 0
  {
    if farmId != 0 then [] else ["FarmId"]
  }

  function CreateFarmViolations(req: CreateFarmRequest): (fields: seq<string>)
    ensures fields == [] <==> |req.name| >= 1
  {
    NameViolation(req.name)
  }

  function CreatePondViolations(req: CreatePondRequest): (fields: seq<string>)
    ensures fields == [] <==> |req.name| >= 1 && req.farmId != 0
    ensures |fields| <= 2
  {
    NameViolation(req.name) + FarmIdViolation(req.farmId)
  }

  /** The update requests have no tags, so nothing can violate them. */
  function UpdateFarmViolations(req: UpdateFarmRequest): (fields: seq<string>)
    ensures fields == []
  {
    []
  }

  function UpdatePondViolations(req: UpdatePondRequest): (fields: seq<string>)
    ensures fields == []
  {
    []
  }

  /** `c.ShouldBind`: fails on an undecodable body, or when a tag fails;
      otherwise yields the decoded request unchanged. */
  function ShouldBind<R>(body: Body<R>, violations: R -> seq<string>): (r: Result<R, BindError>)
    ensures r.Success? <==> body.Decoded? && violations(body.req) == []
    ensures r.Success? ==> r.value == body.req
    ensures body.Undecodable? ==> r == Failure(Malformed(body.reason))
    ensures body.Decoded? && violations(body.req) != [] ==> r == Failure(Invalid(violations(body.req)))
  {
    match body
    case Undecodable(reason) => Failure(Malformed(reason))
    case Decoded(req) =>
      var fields := violations(req);
      if fields == [] then Success(req) else Failure(Invalid(fields))
  }

  function BindCreateFarm(body: Body<CreateFarmRequest>): (r: Result<CreateFarmRequest, BindError>)
    ensures r.Success? <==> body.Decoded? && |body.req.name| >= 1
    ensures r.Success? ==> r.value == body.req
  {
    ShouldBind(body, CreateFarmViolations)
  }

  function BindUpdateFarm(body: Body<UpdateFarmRequest>): (r: Result<UpdateFarmRequest, BindError>)
    ensures r.Success? <==> body.Decoded?
    ensures r.Success? ==> r.value == body.req
  {
    ShouldBind(body, UpdateFarmViolations)
  }

  function BindCreatePond(body: Body<CreatePondRequest>): (r: Result<CreatePondRequest, BindError>)
    ensures r.Success? <==> body.Decoded? && |body.req.name| >= 1 && body.req.farmId != 0
    ensures r.Success? ==> r.value == body.req
  {
    ShouldBind(body, CreatePondViolations)
  }

  function BindUpdatePond(body: Body<UpdatePondRequest>): (r: Result<UpdatePondRequest, BindError>)
    ensures r.Success? <==> body.Decoded?
    ensures r.Success? ==> r.value == body.req
  {
    ShouldBind(body, UpdatePondViolations)
  }

  /** A name that POST refuses is accepted by PUT, with or without an id. */
  lemma PutAcceptsWhatPostRefuses(id: Uint)
    ensures BindCreateFarm(Decoded(CreateFarmRequest(""))) == Failure(Invalid(["Name"]))
    ensures BindUpdateFarm(Decoded(UpdateFarmRequest(id, ""))) == Success(UpdateFarmRequest(id, ""))
    ensures BindCreatePond(Decoded(CreatePondRequest("", 0))) == Failure(Invalid(["Name", "FarmId"]))
    ensures BindUpdatePond(Decoded(UpdatePondRequest(id, "", 0))) == Success(UpdatePondRequest(id, "", 0))
  {
    var body := Decoded(CreatePondRequest("", 0));
    assert CreatePondViolations(body.req) == ["Name", "FarmId"] by {
      assert NameViolation("") == ["Name"];
      assert FarmIdViolation(0) == ["FarmId"];
    }
    assert ShouldBind(body, CreatePondViolations) == Failure(Invalid(["Name", "FarmId"]));
  }
}
