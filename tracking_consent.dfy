/**
 * The decision whether Prezly's own analytics may track the visitor.
 * `boolean | null` is `Option<bool>`: `Some(true)` means the user allowed
 * tracking, `Some(false)` that the user or the browser's "Do Not Track"
 * refused it, `None` that consent still has to be asked for.  The tracking
 * policy and the browser's preference are read by helpers that are not
 * part of this model, so they are parameters here.
 */
module TrackingConsent {
  import opened Wrappers

  /** The newsroom's tracking policy; only DISABLED changes the decision,
      so the other values of the enumeration are carried by name. */
  datatype TrackingPolicy = Disabled | OtherPolicy(name: string)

  /** `isPrezlyTrackingAllowed(consent)` with the policy and the navigator's
      preference (true, false, or no preference) as inputs. */
  function IsPrezlyTrackingAllowed(policy: TrackingPolicy, consent: Option<bool>, navigatorAllows: Option<bool>)
    : (r: Option<bool>)
    ensures policy == Disabled ==> r == Some(false)
    ensures policy != Disabled && consent.Some? ==> r == consent
    ensures r == Some(true) <==> policy != Disabled && consent == Some(true)
    ensures r == Some(false) <==>
              policy == Disabled || consent == Some(false) || (consent == None && navigatorAllows == Some(false))
    ensures r == None <==> policy != Disabled && consent == None && navigatorAllows != Some(false)
  {
    if policy == Disabled then Some(false)
    else if consent.Some? then consent
    else if navigatorAllows == Some(false) then Some(false)
    else None
  }
}
