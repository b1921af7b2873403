/** The asset types a report can be run for, and their market profiles
    (assetTypeProfiles in app.js). */
module Assets {

  datatype AssetType = Industrial | Office | Retail | Multifamily

  /** The asset type as the form submits it, and as it is spelled in the
      strings the generator hashes. */
  function Name(t: AssetType): (s: string)
    ensures s != []
  {
    match t
    case Industrial => "Industrial"
    case Office => "Office"
    case Retail => "Retail"
    case Multifamily => "Multifamily"
  }

  datatype Profile = Profile(vacancyBase: real, rentBase: real, absorptionFactor: real)

  /** The fixed profile table: every rate and rent is positive and every
      baseline vacancy is below 20%. */
  function ProfileOf(t: AssetType): (p: Profile)
    ensures 0.0 < p.vacancyBase < 0.2 && p.rentBase > 0.0 && p.absorptionFactor > 0.0
  {
    match t
    case Industrial => Profile(0.051, 13.2, 1.18)
    case Office => Profile(0.173, 34.5, 0.85)
    case Retail => Profile(0.091, 27.9, 0.92)
    case Multifamily => Profile(0.064, 2.45, 1.08)
  }
}
