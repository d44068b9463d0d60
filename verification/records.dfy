/** The records that flow between the back end and the dashboard. A missing
    field, JSON `null`, JavaScript `undefined` and a pandas NaN are all `None`. */
module Records {
  import opened Wrappers

  /** A row of the admin decision dataset, as served by `/districts`. */
  datatype DistrictRow = DistrictRow(
    state: Option<string>,
    district: Option<string>,
    /** `Next_Month_Demand`: "High Demand", "Medium Demand" or "Low Demand". */
    demand: Option<string>,
    /** `Lifecycle_Friction`: "High", "Medium" or "Low". */
    friction: Option<string>,
    /** `udr_level`: "High Dependency", "Medium Dependency" or "Low Dependency". */
    udrLevel: Option<string>,
    /** Every other column, by name. */
    others: map<string, string>)

  /** A row of `/friction-age-analysis`. */
  datatype FrictionRow = FrictionRow(
    state: Option<string>,
    ageGroup: string,
    numUpdates: int,
    frictionLevel: string)
}
