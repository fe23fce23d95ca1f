/** The plans an account can be on, and the storage each one has (app/accounts/plans.py). */
module AccountPlans {
  import opened Options

  datatype Plan = Free | SelfHosted | Solo | Studio

  /** limits_for(plan).storage_bytes; None is unlimited. */
  function StorageLimit(plan: Plan, freeMb: nat): Option<nat> {
    match plan
    case Free => Some(freeMb * 1024 * 1024)
    case Solo => Some(5 * 1024 * 1024 * 1024)
    case Studio => Some(25 * 1024 * 1024 * 1024)
    case SelfHosted => None
  }

  /** In bytes: 5 and 25 GiB on the paid plans, whole mebibytes on Free, no limit self-hosted. */
  lemma StorageInBytes(freeMb: nat)
    ensures StorageLimit(Solo, freeMb) == Some(5_368_709_120) && StorageLimit(Studio, freeMb) == Some(26_843_545_600)
    ensures StorageLimit(Free, freeMb) == Some(freeMb * 1_048_576) && StorageLimit(SelfHosted, freeMb) == None
  {
    assert freeMb * 1024 * 1024 == freeMb * 1_048_576;
  }
}
