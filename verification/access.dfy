/** The allow-list gate in front of every handler. */
module Access {
  import opened Wrappers
  import opened Telegram

  /** The only user the bot serves. */
  const OwnerId: int := 1815433655

  const AllowedUsers: set<int> := {OwnerId}

  /** A message passes iff it has a sender whose id is on the allow-list. */
  predicate IsAllowed(m: Message) {
    m.sender.Some? && m.sender.value.id in AllowedUsers
  }

  /** The allow-list holds exactly one id, so the gate is a single comparison. */
  lemma IsAllowedOnlyOwner(m: Message)
    ensures IsAllowed(m) <==> m.sender == Some(User(OwnerId))
  {
  }
}
