/** Concrete runs of the broker, from an empty queue, with users 1 to 4. */
module Scenarios {
  import opened Wrappers
  import opened Signaling
  import opened Exchanges
  import opened Matchmaking

  // The four steps of the scenario below, one event each.

  lemma FirstStartWaits()
    ensures Start([], 1) == Outcome([Exchange(Some(1), None, 0)], [])
  {
    StartQueuesWhenNoneWaiting([], 1);
  }

  lemma SecondStartPairs()
    ensures Start([Exchange(Some(1), None, 0)], 2) ==
              Outcome([Exchange(Some(1), Some(2), 0)],
                      [Send(1, Message(PARTNER_FOUND, Some(GO_FIRST))), Send(2, Message(PARTNER_FOUND, None))])
  {
    var w1 := Exchange(Some(1), None, 0);
    assert Unqueue([w1], 2) == [w1];
    StartPairsFirstWaiting([w1], 2, 0);
  }

  lemma ThirdStartWaits()
    ensures Start([Exchange(Some(1), Some(2), 0)], 3) ==
              Outcome([Exchange(Some(1), Some(2), 0), Exchange(Some(3), None, 0)], [])
  {
    var p12 := Exchange(Some(1), Some(2), 0);
    assert Unqueue([p12], 3) == [p12];
    StartQueuesWhenNoneWaiting([p12], 3);
  }

  lemma FourthStartPairs()
    ensures Start([Exchange(Some(1), Some(2), 0), Exchange(Some(3), None, 0)], 4) ==
              Outcome([Exchange(Some(1), Some(2), 0), Exchange(Some(3), Some(4), 0)],
                      [Send(3, Message(PARTNER_FOUND, Some(GO_FIRST))), Send(4, Message(PARTNER_FOUND, None))])
  {
    var q := [Exchange(Some(1), Some(2), 0), Exchange(Some(3), None, 0)];
    assert Unqueue(q, 4) == q;
    StartPairsFirstWaiting(q, 4, 1);
  }

  /** Four users starting in order 1, 2, 3, 4 form the pairs (1, 2) and (3, 4); 1 and 3 go first. */
  lemma FourStartsFormTwoPairs()
    ensures var o1 := Start([], 1);
            var o2 := Start(o1.queue, 2);
            var o3 := Start(o2.queue, 3);
            var o4 := Start(o3.queue, 4);
            o4.queue == [Exchange(Some(1), Some(2), 0), Exchange(Some(3), Some(4), 0)] &&
            o1.sent + o2.sent + o3.sent + o4.sent ==
              [Send(1, Message(PARTNER_FOUND, Some(GO_FIRST))), Send(2, Message(PARTNER_FOUND, None)),
               Send(3, Message(PARTNER_FOUND, Some(GO_FIRST))), Send(4, Message(PARTNER_FOUND, None))]
  {
    FirstStartWaits();
    SecondStartPairs();
    ThirdStartWaits();
    FourthStartPairs();
  }

  /** When 1 aborts a pair with 2, only 2 hears of it, and a later SDP_ANSWER from 2 is dropped. */
  lemma AbortThenRelayIsDropped(answer: Message)
    requires answer.name == SDP_ANSWER
    ensures var paired := [Exchange(Some(1), Some(2), 0)];
            var left := Abort(paired, 1);
            left == Outcome([], [Send(2, Message(PARTNER_LEFT, None))]) &&
            Dispatch(left.queue, 2, answer) == Outcome([], [])
  {
  }

  /** The pair (1, 2) stays queued after one PAIRING_DONE and is removed after the partner's. */
  lemma BothDonesRemovePair()
    ensures var paired := [Exchange(Some(1), Some(2), 0)];
            var one := Done(paired, 1);
            one.queue == [Exchange(Some(1), Some(2), 1)] &&
            Done(one.queue, 2).queue == []
  {
  }
}
