/** The GitHub API records the contributor scripts read. */
module GitHub {
  /**
   * A contributor record of `/repos/{owner}/{repo}/contributors`; `kind` is the
   * record's `type` field ("User", "Bot", ...).
   */
  datatype Contributor = Contributor(login: string, avatarUrl: string, kind: string, contributions: int)

  /** A repository record of `/orgs/{org}/repos`, with the records its `contributors_url` returns. */
  datatype Repo = Repo(fork: bool, contributors: seq<Contributor>)

  /** `it.login == login` */
  function HasLogin(login: string): Contributor -> bool
  {
    (c: Contributor) => c.login == login
  }

  predicate Appears(cs: seq<Contributor>, login: string)
  {
    exists k :: 0 <= k < |cs| && cs[k].login == login
  }

  /** The sum of `contributions` over the records of `cs` with this login. */
  function SumFor(cs: seq<Contributor>, login: string): int
  {
    if cs == [] then 0
    else SumFor(cs[..|cs| - 1], login) + (if cs[|cs| - 1].login == login then cs[|cs| - 1].contributions else 0)
  }

  /** The records of several responses, one response after the other. */
  function Flatten(responses: seq<seq<Contributor>>): seq<Contributor>
  {
    if responses == [] then []
    else Flatten(responses[..|responses| - 1]) + responses[|responses| - 1]
  }

  /** A login is in the flattened records exactly when it is in one of the responses. */
  lemma {:induction false} FlattenAppears(responses: seq<seq<Contributor>>, l: string)
    ensures Appears(Flatten(responses), l) <==> exists i :: 0 <= i < |responses| && Appears(responses[i], l)
  {
    if responses != [] {
      var init := responses[..|responses| - 1];
      var last := responses[|responses| - 1];
      var f := Flatten(init);
      FlattenAppears(init, l);
      assert forall i :: 0 <= i < |init| ==> init[i] == responses[i];
      if Appears(f, l) {
        var k :| 0 <= k < |f| && f[k].login == l;
        assert (f + last)[k] == f[k];
      }
      if Appears(last, l) {
        var k :| 0 <= k < |last| && last[k].login == l;
        assert (f + last)[|f| + k] == last[k];
      }
      if Appears(f + last, l) {
        var k :| 0 <= k < |f + last| && (f + last)[k].login == l;
        if k >= |f| {
          assert last[k - |f|] == (f + last)[k];
        }
      }
    }
  }

  /** Sums split over concatenation: a login's total over several responses is the sum of its per-response totals. */
  lemma {:induction false} SumForAppend(a: seq<Contributor>, b: seq<Contributor>, login: string)
    ensures SumFor(a + b, login) == SumFor(a, login) + SumFor(b, login)
  {
    if b != [] {
      assert (a + b)[..|a + b| - 1] == a + b[..|b| - 1];
      SumForAppend(a, b[..|b| - 1], login);
    } else {
      assert a + b == a;
    }
  }

  /** A login that does not appear sums to zero. */
  lemma {:induction false} SumForAbsent(cs: seq<Contributor>, login: string)
    requires !Appears(cs, login)
    ensures SumFor(cs, login) == 0
  {
    if cs != [] {
      assert !Appears(cs[..|cs| - 1], login);
      SumForAbsent(cs[..|cs| - 1], login);
    }
  }

  /** A login is seen in `cs` when it is seen before the last record or is the last record's. */
  lemma AppearsSnoc(cs: seq<Contributor>)
    requires cs != []
    ensures forall l :: Appears(cs, l) <==> Appears(cs[..|cs| - 1], l) || l == cs[|cs| - 1].login
  {
    var init := cs[..|cs| - 1];
    forall l ensures Appears(cs, l) <==> Appears(init, l) || l == cs[|cs| - 1].login {
      if Appears(cs, l) {
        var k :| 0 <= k < |cs| && cs[k].login == l;
        if k < |init| {
          assert init[k] == cs[k];
        }
      }
      if Appears(init, l) {
        var k :| 0 <= k < |init| && init[k].login == l;
        assert cs[k] == init[k];
      }
    }
  }
}
