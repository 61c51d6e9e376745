/**
 * The matchmaking broker (`object Matchmaker`): a queue of exchanges and the
 * events PAIRING_START, PAIRING_ABORT (also on close), PAIRING_DONE and the
 * relay of SDP_OFFER, SDP_ANSWER and SDP_ICE_CANDIDATE.
 *
 * Each event is one atomic step. The step functions below say what an event
 * does to the queue and what it sends; the class `Matchmaker` performs the
 * same steps on its fields and is proved against them.
 */
module Matchmaking {
  import opened Wrappers
  import opened Signaling
  import opened Exchanges
  import opened Collections

  /** The queue after an event, and the messages the event sent, in order. */
  datatype Outcome = Outcome(queue: seq<Exchange>, sent: seq<Send>)

  /** `{ it.a == user || it.b == user }` */
  function MemberOf(u: User): Exchange -> bool
  {
    e => Has(e, u)
  }

  /** `{ it.b == null }` */
  const Waiting: Exchange -> bool := (e: Exchange) => e.b.None?

  /** `{ it.doneCount == 2 }` */
  const Finished: Exchange -> bool := (e: Exchange) => e.doneCount == 2

  /** `to?.send(message)`: nothing is sent through a null slot. */
  function SendTo(to: Option<User>, message: Message): seq<Send>
  {
    if to.Some? then [Send(to.value, message)] else []
  }

  /** `removeAll { it.a == user || it.b == user }`: the guard against double queueing. */
  function Unqueue(q: seq<Exchange>, u: User): (r: seq<Exchange>)
    ensures forall i :: 0 <= i < |r| ==> !Has(r[i], u) && r[i] in q
    ensures forall j :: 0 <= j < |q| && !Has(q[j], u) ==> q[j] in r
  {
    RemoveAllMembers(q, MemberOf(u));
    assert forall j :: 0 <= j < |q| && !Has(q[j], u) ==> q[j] in RemoveAll(q, MemberOf(u)) by {
      forall j | 0 <= j < |q| && !Has(q[j], u) ensures q[j] in RemoveAll(q, MemberOf(u)) {
        RemoveAllKeeps(q, MemberOf(u), j);
      }
    }
    RemoveAll(q, MemberOf(u))
  }

  /** `pairingStart`. */
  function Start(q: seq<Exchange>, u: User): Outcome
  {
    var q0 := Unqueue(q, u);
    match Find(q0, Waiting)
    case Some(i) =>
      var ex := q0[i].(b := Some(u));
      Outcome(q0[i := ex],
              SendTo(ex.a, Message(PARTNER_FOUND, Some(GO_FIRST))) + SendTo(ex.b, Message(PARTNER_FOUND, None)))
    case None =>
      Outcome(q0 + [Exchange(Some(u), None, 0)], [])
  }

  /** The SDP branch of `onMessage`: forward the message unchanged to the partner of a complete pair. */
  function Relay(q: seq<Exchange>, u: User, m: Message): Outcome
  {
    match Find(q, MemberOf(u))
    case None => Outcome(q, [])
    case Some(i) =>
      if q[i].a.None? || q[i].b.None? then Outcome(q, [])
      else Outcome(q, SendTo(OtherUser(q[i], u), m))
  }

  /** `pairingAbort`, which also handles a closed connection. */
  function Abort(q: seq<Exchange>, u: User): Outcome
  {
    match Find(q, MemberOf(u))
    case None => Outcome(q, [])
    case Some(i) => Outcome(Remove(q, q[i]), SendTo(OtherUser(q[i], u), Message(PARTNER_LEFT, None)))
  }

  /** `pairingDone`. */
  function Done(q: seq<Exchange>, u: User): Outcome
  {
    var counted := match Find(q, MemberOf(u))
      case None => q
      case Some(i) => q[i := q[i].(doneCount := q[i].doneCount + 1)];
    Outcome(RemoveAll(counted, Finished), [])
  }

  /** The `when (message.name)` dispatch of `onMessage`. */
  function Dispatch(q: seq<Exchange>, u: User, m: Message): Outcome
  {
    if m.name == PAIRING_START then Start(q, u)
    else if m.name == PAIRING_ABORT then Abort(q, u)
    else if m.name == PAIRING_DONE then Done(q, u)
    else if IsRelayed(m.name) then Relay(q, u, m)
    else Outcome(q, [])
  }

  // ---------------------------------------------------------------------------
  // The queue invariant

  /** A first user is always present, nobody is paired with themself, the count is not negative. */
  predicate Shaped(e: Exchange)
  {
    e.a.Some? && e.a != e.b && e.doneCount >= 0
  }

  /** What holds of every exchange left in the queue between events. */
  predicate Queued(e: Exchange)
  {
    Shaped(e) && e.doneCount < 2
  }

  /** A user is in at most one exchange. */
  predicate Disjoint(q: seq<Exchange>)
  {
    forall i, j :: 0 <= i < j < |q| ==> Users(q[i]) !! Users(q[j])
  }

  predicate Inv(q: seq<Exchange>)
  {
    (forall i :: 0 <= i < |q| ==> Queued(q[i])) && Disjoint(q)
  }

  lemma DisjointCons(x: Exchange, r: seq<Exchange>)
    ensures Disjoint([x] + r) <==> Disjoint(r) && forall j :: 0 <= j < |r| ==> Users(x) !! Users(r[j])
  {
    var s := [x] + r;
    assert forall k :: 0 <= k < |r| ==> s[k + 1] == r[k];
    if Disjoint(r) && forall j :: 0 <= j < |r| ==> Users(x) !! Users(r[j]) {
      forall i, j | 0 <= i < j < |s| ensures Users(s[i]) !! Users(s[j]) {
        if i > 0 {
          assert s[i] == r[i - 1] && s[j] == r[j - 1];
        }
      }
    }
    if Disjoint(s) {
      forall i, j | 0 <= i < j < |r| ensures Users(r[i]) !! Users(r[j]) {
        assert s[i + 1] == r[i] && s[j + 1] == r[j];
      }
      forall j | 0 <= j < |r| ensures Users(x) !! Users(r[j]) {
        assert s[0] == x && s[j + 1] == r[j];
      }
    }
  }

  /** A user in an exchange of a disjoint queue is in no other exchange. */
  lemma DisjointUnique(q: seq<Exchange>, u: User, i: nat, j: nat)
    requires Disjoint(q) && i < |q| && j < |q|
    requires Has(q[i], u) && Has(q[j], u)
    ensures i == j
  {
  }

  lemma {:induction false} RemoveAllKeepsDisjoint(q: seq<Exchange>, p: Exchange -> bool)
    requires Disjoint(q)
    ensures Disjoint(RemoveAll(q, p))
  {
    if q != [] {
      assert q == [q[0]] + q[1..];
      DisjointCons(q[0], q[1..]);
      RemoveAllKeepsDisjoint(q[1..], p);
      RemoveAllMembers(q[1..], p);
      if !p(q[0]) {
        var rest := RemoveAll(q[1..], p);
        forall j | 0 <= j < |rest| ensures Users(q[0]) !! Users(rest[j]) {
          var k :| 0 <= k < |q[1..]| && q[1..][k] == rest[j];
        }
        DisjointCons(q[0], rest);
      }
    }
  }

  lemma {:induction false} RemoveKeepsDisjoint(q: seq<Exchange>, x: Exchange)
    requires Disjoint(q)
    ensures Disjoint(Remove(q, x))
  {
    if q != [] {
      assert q == [q[0]] + q[1..];
      DisjointCons(q[0], q[1..]);
      if q[0] != x {
        RemoveKeepsDisjoint(q[1..], x);
        var rest := Remove(q[1..], x);
        forall j | 0 <= j < |rest| ensures Users(q[0]) !! Users(rest[j]) {
          var k :| 0 <= k < |q[1..]| && q[1..][k] == rest[j];
        }
        DisjointCons(q[0], rest);
      }
    }
  }

  /** Removing stale memberships keeps the invariant and leaves no exchange holding the user. */
  lemma UnqueueKeepsInv(q: seq<Exchange>, u: User)
    requires Inv(q)
    ensures Inv(Unqueue(q, u))
  {
    RemoveAllKeepsDisjoint(q, MemberOf(u));
  }

  // ---------------------------------------------------------------------------
  // PAIRING_START

  /** `pairingStart` keeps the queue invariant. */
  lemma StartKeepsInv(q: seq<Exchange>, u: User)
    requires Inv(q)
    ensures Inv(Start(q, u).queue)
  {
    var q0 := Unqueue(q, u);
    UnqueueKeepsInv(q, u);
    match Find(q0, Waiting)
    case Some(i) =>
      var ex := q0[i].(b := Some(u));
      var r := q0[i := ex];
      assert Users(ex) == Users(q0[i]) + {u};
      forall k | 0 <= k < |q0| ensures u !in Users(q0[k]) {
        assert !Has(q0[k], u);
      }
      forall j, k | 0 <= j < k < |r| ensures Users(r[j]) !! Users(r[k]) {
        assert Users(q0[j]) !! Users(q0[k]);
      }
    case None =>
      var r := q0 + [Exchange(Some(u), None, 0)];
      forall k | 0 <= k < |q0| ensures u !in Users(q0[k]) {
        assert !Has(q0[k], u);
      }
      forall j, k | 0 <= j < k < |r| ensures Users(r[j]) !! Users(r[k]) {
        if k < |q0| {
          assert Users(q0[j]) !! Users(q0[k]);
        }
      }
  }

  /**
   * After `pairingStart(u)` the user is in exactly one exchange, in exactly one
   * of its slots: a repeated start never queues a user twice, and never pairs
   * a user with themself. This holds of any queue.
   */
  lemma StartPlacesUserOnce(q: seq<Exchange>, u: User)
    ensures exists i :: 0 <= i < |Start(q, u).queue| && Has(Start(q, u).queue[i], u)
    ensures forall i, j :: 0 <= i < j < |Start(q, u).queue| ==>
              !(Has(Start(q, u).queue[i], u) && Has(Start(q, u).queue[j], u))
    ensures forall i :: 0 <= i < |Start(q, u).queue| && Has(Start(q, u).queue[i], u) ==>
              Start(q, u).queue[i].a != Start(q, u).queue[i].b
  {
    var q0 := Unqueue(q, u);
    var r := Start(q, u).queue;
    match Find(q0, Waiting)
    case Some(i) =>
      assert !Has(q0[i], u);
      assert Has(r[i], u);
      forall j | 0 <= j < |r| && j != i ensures !Has(r[j], u) {
        assert r[j] == q0[j];
      }
    case None =>
      assert Has(r[|q0|], u);
      forall j | 0 <= j < |q0| ensures !Has(r[j], u) {
        assert r[j] == q0[j];
      }
  }

  /**
   * When, after the stale memberships are removed, the exchange at `i` is the
   * first one waiting, `pairingStart(u)` puts `u` in its second slot, adds no
   * exchange, and sends PARTNER_FOUND with GO_FIRST to the first user, then
   * PARTNER_FOUND without data to `u`.
   */
  lemma StartPairsFirstWaiting(q: seq<Exchange>, u: User, i: nat)
    requires Inv(q)
    requires i < |Unqueue(q, u)| && Unqueue(q, u)[i].b.None?
    requires forall j :: 0 <= j < i ==> Unqueue(q, u)[j].b.Some?
    ensures var q0 := Unqueue(q, u);
            Start(q, u).queue == q0[i := Exchange(q0[i].a, Some(u), q0[i].doneCount)]
    ensures Start(q, u).sent ==
              [Send(Unqueue(q, u)[i].a.value, Message(PARTNER_FOUND, Some(GO_FIRST))),
               Send(u, Message(PARTNER_FOUND, None))]
    ensures Unqueue(q, u)[i].a != Some(u)
  {
    var q0 := Unqueue(q, u);
    assert Queued(q0[i]);
  }

  /** With nobody waiting, `pairingStart(u)` appends a fresh exchange holding only `u` and sends nothing. */
  lemma StartQueuesWhenNoneWaiting(q: seq<Exchange>, u: User)
    requires forall j :: 0 <= j < |Unqueue(q, u)| ==> Unqueue(q, u)[j].b.Some?
    ensures Start(q, u) == Outcome(Unqueue(q, u) + [Exchange(Some(u), None, 0)], [])
  {
  }

  /**
   * `pairingStart(u)` leaves every other user's complete pair in the queue, untouched:
   * only a waiting exchange can be changed, and only by filling its empty slot.
   */
  lemma StartKeepsOtherPairs(q: seq<Exchange>, u: User, j: nat)
    requires j < |q| && !Has(q[j], u) && q[j].b.Some?
    ensures q[j] in Start(q, u).queue
  {
    var q0 := Unqueue(q, u);
    assert q[j] in q0;
    var k :| 0 <= k < |q0| && q0[k] == q[j];
    match Find(q0, Waiting)
    case Some(i) =>
      assert i != k;
      assert Start(q, u).queue[k] == q[j];
    case None =>
      assert Start(q, u).queue[k] == q[j];
  }

  /** A second PAIRING_START while the user waits alone is the same as the first one. */
  lemma DuplicateStartIsIdempotent(q: seq<Exchange>, u: User)
    requires forall j :: 0 <= j < |Unqueue(q, u)| ==> Unqueue(q, u)[j].b.Some?
    ensures Start(Start(q, u).queue, u) == Start(q, u)
  {
    var q0 := Unqueue(q, u);
    var waiting := Exchange(Some(u), None, 0);
    StartQueuesWhenNoneWaiting(q, u);
    RemoveAllAppend(q0, [waiting], MemberOf(u));
    assert RemoveAll([waiting], MemberOf(u)) == [];
    RemoveAllNone(q0, MemberOf(u));
    assert Unqueue(q0 + [waiting], u) == q0;
    StartQueuesWhenNoneWaiting(q0 + [waiting], u);
  }

  /**
   * A user who starts again while paired leaves their partner out of the
   * queue, and the partner is sent nothing: only an abort or a close tells a
   * partner that the pair is gone.
   */
  lemma RestartDropsPartnerSilently(q: seq<Exchange>, u: User, i: nat)
    requires Inv(q) && i < |q| && Has(q[i], u) && Complete(q[i])
    ensures var v := OtherUser(q[i], u).value;
            v != u &&
            (forall k :: 0 <= k < |Start(q, u).queue| ==> !Has(Start(q, u).queue[k], v)) &&
            (forall k :: 0 <= k < |Start(q, u).sent| ==> Start(q, u).sent[k].to != v)
  {
    var v := OtherUser(q[i], u).value;
    var q0 := Unqueue(q, u);
    forall k | 0 <= k < |q0| ensures !Has(q0[k], v) {
      var j :| 0 <= j < |q| && q[j] == q0[k];
      if Has(q0[k], v) {
        DisjointUnique(q, v, i, j);
      }
    }
    match Find(q0, Waiting)
    case None =>
    case Some(w) =>
      assert q0[w].a.Some? && !Has(q0[w], v);
  }

  // ---------------------------------------------------------------------------
  // SDP relay

  /** In a queue that keeps the invariant, the first exchange holding `u` is the only one. */
  lemma FindMemberIsOnly(q: seq<Exchange>, u: User, i: nat)
    requires Disjoint(q) && i < |q| && Has(q[i], u)
    ensures Find(q, MemberOf(u)) == Some(i)
  {
    var k := Find(q, MemberOf(u)).value;
    DisjointUnique(q, u, i, k);
  }

  /**
   * An SDP message from a user in a complete pair goes, unchanged, to the
   * partner in that pair and to nobody else; the queue does not change.
   */
  lemma RelayForwardsToPartner(q: seq<Exchange>, u: User, m: Message, i: nat)
    requires Inv(q) && i < |q| && Has(q[i], u) && Complete(q[i])
    ensures var v := OtherUser(q[i], u).value;
            v != u && Has(q[i], v) && Relay(q, u, m) == Outcome(q, [Send(v, m)])
  {
    FindMemberIsOnly(q, u, i);
    assert Queued(q[i]);
  }

  /** An SDP message from a user in no exchange, or in one still waiting, is dropped. */
  lemma RelayFromUnpairedIsDropped(q: seq<Exchange>, u: User, m: Message)
    requires Inv(q)
    requires forall i :: 0 <= i < |q| && Has(q[i], u) ==> !Complete(q[i])
    ensures Relay(q, u, m) == Outcome(q, [])
  {
  }

  // ---------------------------------------------------------------------------
  // PAIRING_ABORT and close

  /**
   * `pairingAbort(u)` removes the first exchange holding `u`, keeps every other
   * exchange in order, and sends PARTNER_LEFT to the other slot when it is filled.
   */
  lemma {:induction false} AbortRemovesExchange(q: seq<Exchange>, u: User, i: nat)
    requires i < |q| && Has(q[i], u)
    requires forall j :: 0 <= j < i ==> !Has(q[j], u)
    ensures Abort(q, u).queue == q[..i] + q[i + 1..]
    ensures Abort(q, u).sent == SendTo(OtherUser(q[i], u), Message(PARTNER_LEFT, None))
  {
    assert Find(q, MemberOf(u)) == Some(i);
    RemoveFirstEqual(q, i);
  }

  /** `pairingAbort` from a user in no exchange changes nothing and sends nothing. */
  lemma AbortWithoutExchangeIsNoop(q: seq<Exchange>, u: User)
    requires forall j :: 0 <= j < |q| ==> !Has(q[j], u)
    ensures Abort(q, u) == Outcome(q, [])
  {
  }

  /**
   * After an abort, neither the user nor the partner is in the queue, and the
   * partner, if there was one, is the only one told: PARTNER_LEFT.
   */
  lemma AbortFreesBoth(q: seq<Exchange>, u: User, i: nat)
    requires Inv(q) && i < |q| && Has(q[i], u)
    ensures forall k :: 0 <= k < |Abort(q, u).queue| ==> Users(Abort(q, u).queue[k]) !! Users(q[i])
    ensures Complete(q[i]) ==>
              Abort(q, u).sent == [Send(OtherUser(q[i], u).value, Message(PARTNER_LEFT, None))] &&
              OtherUser(q[i], u).value != u
    ensures !Complete(q[i]) ==> Abort(q, u).sent == []
  {
    FindMemberIsOnly(q, u, i);
    assert forall j :: 0 <= j < i ==> !MemberOf(u)(q[j]);
    AbortRemovesExchange(q, u, i);
    var r := Abort(q, u).queue;
    forall k | 0 <= k < |r| ensures Users(r[k]) !! Users(q[i]) {
      if k < i {
        assert r[k] == q[k];
      } else {
        assert r[k] == q[k + 1];
      }
    }
    assert Queued(q[i]);
  }

  /** Abort keeps the queue invariant. */
  lemma AbortKeepsInv(q: seq<Exchange>, u: User)
    requires Inv(q)
    ensures Inv(Abort(q, u).queue)
  {
    match Find(q, MemberOf(u))
    case None =>
    case Some(i) => RemoveKeepsDisjoint(q, q[i]);
  }

  // ---------------------------------------------------------------------------
  // PAIRING_DONE

  /** No exchange of a queue that keeps the invariant has finished. */
  lemma NoneFinished(q: seq<Exchange>)
    requires forall j :: 0 <= j < |q| ==> Queued(q[j])
    ensures forall j :: 0 <= j < |q| ==> !Finished(q[j])
  {
  }

  /** Counting a PAIRING_DONE leaves the users of every exchange as they were. */
  lemma CountKeepsDisjoint(q: seq<Exchange>, i: nat)
    requires Disjoint(q) && i < |q|
    ensures Disjoint(q[i := q[i].(doneCount := q[i].doneCount + 1)])
  {
    var counted := q[i := q[i].(doneCount := q[i].doneCount + 1)];
    assert forall j :: 0 <= j < |counted| ==> Users(counted[j]) == Users(q[j]);
  }

  /** One more PAIRING_DONE for the exchange at `i`, then the finished exchanges removed. */
  lemma CountAt(q: seq<Exchange>, i: nat)
    requires i < |q| && forall j :: 0 <= j < |q| ==> Queued(q[j])
    ensures var counted := q[i := q[i].(doneCount := q[i].doneCount + 1)];
            RemoveAll(counted, Finished) == if q[i].doneCount == 0 then counted else q[..i] + q[i + 1..]
  {
    var counted := q[i := q[i].(doneCount := q[i].doneCount + 1)];
    assert Queued(q[i]);
    forall j | 0 <= j < |counted| && j != i ensures !Finished(counted[j]) {
      assert Queued(q[j]);
    }
    if q[i].doneCount == 1 {
      RemoveAllSingle(counted, Finished, i);
      assert counted[..i] == q[..i];
      assert counted[i + 1..] == q[i + 1..];
    } else {
      RemoveAllNone(counted, Finished);
    }
  }

  /**
   * `pairingDone(u)` adds one to the count of `u`'s exchange: an exchange at 0
   * stays queued at 1, one at 1 reaches 2 and is removed. No other exchange
   * changes and nothing is sent.
   */
  lemma DoneCountsOnce(q: seq<Exchange>, u: User, i: nat)
    requires Inv(q) && i < |q| && Has(q[i], u)
    ensures Done(q, u).sent == []
    ensures q[i].doneCount == 0 ==> Done(q, u).queue == q[i := q[i].(doneCount := 1)]
    ensures q[i].doneCount == 1 ==> Done(q, u).queue == q[..i] + q[i + 1..]
  {
    FindMemberIsOnly(q, u, i);
    var counted := q[i := q[i].(doneCount := q[i].doneCount + 1)];
    assert Done(q, u) == Outcome(RemoveAll(counted, Finished), []);
    CountAt(q, i);
  }

  /** `pairingDone` from a user in no exchange changes nothing. */
  lemma DoneWithoutExchangeIsNoop(q: seq<Exchange>, u: User)
    requires Inv(q)
    requires forall j :: 0 <= j < |q| ==> !Has(q[j], u)
    ensures Done(q, u) == Outcome(q, [])
  {
    NoneFinished(q);
    RemoveAllNone(q, Finished);
  }

  /** Once the finished exchanges are removed, the counts left are below 2. */
  lemma RemoveFinishedLeavesQueued(counted: seq<Exchange>)
    requires forall j :: 0 <= j < |counted| ==> Shaped(counted[j]) && counted[j].doneCount <= 2
    ensures forall k :: 0 <= k < |RemoveAll(counted, Finished)| ==> Queued(RemoveAll(counted, Finished)[k])
  {
    RemoveAllPreserves(counted, Finished, e => Shaped(e) && e.doneCount <= 2);
  }

  /** `pairingDone` keeps the invariant: in particular every queued exchange keeps `doneCount < 2`. */
  lemma DoneKeepsInv(q: seq<Exchange>, u: User)
    requires Inv(q)
    ensures Inv(Done(q, u).queue)
  {
    match Find(q, MemberOf(u))
    case None =>
      NoneFinished(q);
      RemoveAllNone(q, Finished);
    case Some(i) =>
      var counted := q[i := q[i].(doneCount := q[i].doneCount + 1)];
      assert Done(q, u).queue == RemoveAll(counted, Finished);
      CountKeepsDisjoint(q, i);
      RemoveAllKeepsDisjoint(counted, Finished);
      forall j | 0 <= j < |counted| ensures Shaped(counted[j]) && counted[j].doneCount <= 2 {
        assert Queued(q[j]);
      }
      RemoveFinishedLeavesQueued(counted);
  }

  /**
   * The count is of PAIRING_DONE events, not of users: the same user sending
   * PAIRING_DONE twice removes an exchange the partner has not finished.
   */
  lemma DoneTwiceBySameUserRemoves(q: seq<Exchange>, u: User, i: nat)
    requires Inv(q) && i < |q| && Has(q[i], u) && q[i].doneCount == 0
    ensures Done(Done(q, u).queue, u).queue == q[..i] + q[i + 1..]
  {
    DoneCountsOnce(q, u, i);
    var q1 := Done(q, u).queue;
    DoneKeepsInv(q, u);
    DoneCountsOnce(q1, u, i);
    assert q1[..i] == q[..i] && q1[i + 1..] == q[i + 1..];
  }

  // ---------------------------------------------------------------------------
  // Dispatch

  /** A message whose name is none of the six handled ones changes nothing and sends nothing. */
  lemma UnhandledNameIsIgnored(q: seq<Exchange>, u: User, m: Message)
    requires m.name !in {PAIRING_START, PAIRING_ABORT, PAIRING_DONE, SDP_OFFER, SDP_ANSWER, SDP_ICE_CANDIDATE}
    ensures Dispatch(q, u, m) == Outcome(q, [])
  {
  }

  /** Every message event keeps the queue invariant. */
  lemma DispatchKeepsInv(q: seq<Exchange>, u: User, m: Message)
    requires Inv(q)
    ensures Inv(Dispatch(q, u, m).queue)
  {
    if m.name == PAIRING_START {
      StartKeepsInv(q, u);
    } else if m.name == PAIRING_ABORT {
      AbortKeepsInv(q, u);
    } else if m.name == PAIRING_DONE {
      DoneKeepsInv(q, u);
    }
  }

  // ---------------------------------------------------------------------------
  // The broker object

  /** The singleton broker: the queue of exchanges and, in place of the connections, the log of sends. */
  class Matchmaker {
    var queue: seq<Exchange>
    var outbox: seq<Send>

    ghost predicate Valid()
      reads this
    {
      Inv(queue)
    }

    constructor ()
      ensures Valid() && queue == [] && outbox == []
    {
      queue := [];
      outbox := [];
    }

    /** `to?.send(message)`. */
    method Notify(to: Option<User>, message: Message)
      modifies this`outbox
      ensures outbox == old(outbox) + SendTo(to, message)
    {
      if to.Some? {
        outbox := outbox + [Send(to.value, message)];
      }
    }

    /** `onMessage`. */
    method OnMessage(user: User, message: Message)
      requires Valid()
      modifies this
      ensures Valid()
      ensures queue == Dispatch(old(queue), user, message).queue
      ensures outbox == old(outbox) + Dispatch(old(queue), user, message).sent
    {
      if message.name == PAIRING_START {
        PairingStart(user);
      } else if message.name == PAIRING_ABORT {
        PairingAbort(user);
      } else if message.name == PAIRING_DONE {
        PairingDone(user);
      } else if IsRelayed(message.name) {
        var found := Find(queue, MemberOf(user));
        if found.None? || queue[found.value].a.None? || queue[found.value].b.None? {
          return; // SDP message from an unpaired user
        }
        Notify(OtherUser(queue[found.value], user), message);
      }
    }

    /** `onClose`: handled as an abort. */
    method OnClose(user: User)
      requires Valid()
      modifies this
      ensures Valid()
      ensures queue == Abort(old(queue), user).queue
      ensures outbox == old(outbox) + Abort(old(queue), user).sent
    {
      PairingAbort(user);
    }

    method PairingStart(user: User)
      requires Valid()
      modifies this
      ensures Valid()
      ensures queue == Start(old(queue), user).queue
      ensures outbox == old(outbox) + Start(old(queue), user).sent
    {
      StartKeepsInv(queue, user);
      queue := Unqueue(queue, user);
      var waiting := Find(queue, Waiting);
      if waiting.Some? {
        var i := waiting.value;
        queue := queue[i := queue[i].(b := Some(user))];
        Notify(queue[i].a, Message(PARTNER_FOUND, Some(GO_FIRST)));
        Notify(queue[i].b, Message(PARTNER_FOUND, None));
      } else {
        queue := queue + [Exchange(Some(user), None, 0)];
      }
    }

    method PairingAbort(user: User)
      requires Valid()
      modifies this
      ensures Valid()
      ensures queue == Abort(old(queue), user).queue
      ensures outbox == old(outbox) + Abort(old(queue), user).sent
    {
      AbortKeepsInv(queue, user);
      var found := Find(queue, MemberOf(user));
      if found.Some? {
        var ex := queue[found.value];
        Notify(OtherUser(ex, user), Message(PARTNER_LEFT, None));
        queue := Remove(queue, ex);
      }
    }

    method PairingDone(user: User)
      requires Valid()
      modifies this
      ensures Valid()
      ensures queue == Done(old(queue), user).queue
      ensures outbox == old(outbox) + Done(old(queue), user).sent
    {
      ghost var q0 := queue;
      DoneKeepsInv(q0, user);
      var found := Find(queue, MemberOf(user));
      if found.Some? {
        var i := found.value;
        queue := queue[i := queue[i].(doneCount := queue[i].doneCount + 1)];
      }
      assert Done(q0, user).queue == RemoveAll(queue, Finished);
      queue := RemoveAll(queue, Finished); // both users are done
    }
  }
}
