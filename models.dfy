/** The entities of package `models` that the handlers store. The ORM's
    timestamps, soft-delete marker and the Farm/Pond association are not part
    of this model; the primary key is the `id` of `Store.Entity`. */
module Models {
  import opened Store

  /** `models.Farm`: a name. */
  datatype FarmFields = FarmFields(name: string)

  /** `models.Pond`: a name and the id of the farm it belongs to. */
  datatype PondFields = PondFields(name: string, farmId: nat)

  type Farm = Entity<FarmFields>
  type Pond = Entity<PondFields>
}
