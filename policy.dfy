/**
 * The container policies (`policy.Policy`). The three named policies are distinct
 * values; every other policy string is `Unrecognized`. The constants' spellings live
 * in internal/policy/policy.go, which is not part of this model.
 */
module Policies {

  datatype Policy = PolicyContainer | PolicyRoot | PolicyScratch | Unrecognized(name: string)

  /** The text `%s` prints for an unrecognised policy. */
  function PolicyText(p: Policy): string
    requires p.Unrecognized?
  {
    p.name
  }
}
