/** One pairing slot of the matchmaker. */
module Exchanges {
  import opened Wrappers
  import opened Signaling

  /**
   * `a` is the user who queued first (the offerer), `b` the one who joined
   * (the answerer), `doneCount` how many PAIRING_DONE events it has received.
   */
  datatype Exchange = Exchange(a: Option<User>, b: Option<User>, doneCount: int)

  /** `it.a == user || it.b == user`. */
  predicate Has(e: Exchange, u: User)
  {
    e.a == Some(u) || e.b == Some(u)
  }

  /** The users present in an exchange. */
  function Users(e: Exchange): (r: set<User>)
    ensures forall u :: u in r <==> Has(e, u)
  {
    (if e.a.Some? then {e.a.value} else {}) + (if e.b.Some? then {e.b.value} else {})
  }

  /** Both slots are filled: the only state in which SDP messages are relayed. */
  predicate Complete(e: Exchange)
  {
    e.a.Some? && e.b.Some?
  }

  /**
   * `otherUser`: the second slot when `user` is in the first, the first slot
   * otherwise (also when `user` is in neither).
   */
  function OtherUser(e: Exchange, user: User): (r: Option<User>)
    ensures Has(e, user) && Complete(e) && e.a != e.b ==>
              r.Some? && r.value != user && Users(e) == {user, r.value}
    ensures !Has(e, user) ==> r == e.a
    ensures e.a == Some(user) && e.b.None? ==> r.None?
  {
    if e.a == Some(user) then e.b else e.a
  }

  /** In a complete pair of two distinct users, `otherUser` swaps the two. */
  lemma OtherUserSwaps(e: Exchange, u: User)
    requires Has(e, u) && Complete(e) && e.a != e.b
    ensures OtherUser(e, OtherUser(e, u).value) == Some(u)
  {
  }
}
