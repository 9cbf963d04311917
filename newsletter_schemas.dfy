/** The schemas of `src/lib/validations/newsletter.ts`. */
module NewsletterSchemas {
  import opened Common
  import opened Zod

  /** `newsletterSubscriptionSchema`: a non-empty address of at most 255
      code units that passes the email check. */
  predicate SubscriptionAccepted(f: Formats, email: string) {
    LengthIn(email, 1, 255) && f.isEmail(email)
  }

  /** `newsletterUnsubscribeSchema`: the email check alone. */
  predicate UnsubscribeAccepted(f: Formats, email: string) {
    f.isEmail(email)
  }

  /** Whatever may subscribe may unsubscribe; an address over 255 code units that
      passes the email check may unsubscribe but not subscribe, and the empty
      address may never subscribe. */
  lemma SubscriptionNarrowsUnsubscribe(f: Formats, email: string)
    ensures SubscriptionAccepted(f, email) ==> UnsubscribeAccepted(f, email)
    ensures Utf16Length(email) > 255 && f.isEmail(email) ==> UnsubscribeAccepted(f, email) && !SubscriptionAccepted(f, email)
    ensures !SubscriptionAccepted(f, "")
  {
  }

  /** `newsletterBulkActionSchema.action`. */
  datatype BulkAction = Activate | Deactivate | Delete

  const BulkActionNames: seq<string> := ["activate", "deactivate", "delete"]

  function BulkActionName(a: BulkAction): string {
    match a
    case Activate => "activate"
    case Deactivate => "deactivate"
    case Delete => "delete"
  }

  /** The enum's parse: one of the three names, or a rejection. */
  function ParseBulkAction(s: string): (r: Option<BulkAction>)
    ensures r.Some? <==> s in BulkActionNames
    ensures r.Some? ==> BulkActionName(r.value) == s
  {
    if s == "activate" then Some(Activate)
    else if s == "deactivate" then Some(Deactivate)
    else if s == "delete" then Some(Delete)
    else None
  }

  /** Every action's name parses back to the action. */
  lemma BulkActionRoundTrip(a: BulkAction)
    ensures ParseBulkAction(BulkActionName(a)) == Some(a)
    ensures BulkActionName(a) in BulkActionNames
  {
  }

  /** `newsletterBulkActionSchema`: a known action and at least one id, every id a
      UUID. */
  predicate BulkActionAccepted(action: string, subscriberIds: seq<string>) {
    ParseBulkAction(action).Some? && |subscriberIds| >= 1 &&
    forall i :: 0 <= i < |subscriberIds| ==> IsUuid(subscriberIds[i])
  }

  /** An accepted bulk action names one of the three actions and at least one
      36-character subscriber id; an empty selection is refused. */
  lemma BulkActionBounds(action: string, subscriberIds: seq<string>)
    ensures BulkActionAccepted(action, subscriberIds) ==>
              action in BulkActionNames && |subscriberIds| >= 1 &&
              forall i :: 0 <= i < |subscriberIds| ==> |subscriberIds[i]| == 36
    ensures !BulkActionAccepted(action, [])
  {
  }
}
