/**
 * `_data/update_contributors.py`: adds up the contributions of every user
 * (records of type "User") over the organisation's repositories that are not
 * forks, and keeps the 15 largest totals.
 *
 * The repository listing, with each repository's contributor records, is the
 * input; the list dumped to `contributors.json` is the result.
 */
module ContributorsPy {
  import opened Wrappers
  import opened Collections
  import opened GitHub
  import opened Dicts
  import opened Ranking

  const USER := "User"
  const TOP: nat := 15

  const ByContributions := (c: Contributor) => c.contributions
  const Login := (c: Contributor) => c.login

  /** The records of one repository whose type is "User", in order. */
  function UserRecords(rc: seq<Contributor>): seq<Contributor>
  {
    if rc == [] then []
    else UserRecords(rc[..|rc| - 1]) + (if rc[|rc| - 1].kind == USER then [rc[|rc| - 1]] else [])
  }

  /** `UserRecords` keeps exactly the "User" records. */
  lemma {:induction false} UserRecordsAreExact(rc: seq<Contributor>)
    ensures forall i :: 0 <= i < |UserRecords(rc)| ==> UserRecords(rc)[i] in rc && UserRecords(rc)[i].kind == USER
    ensures forall j :: 0 <= j < |rc| && rc[j].kind == USER ==> rc[j] in UserRecords(rc)
  {
    if rc != [] {
      var init := rc[..|rc| - 1];
      UserRecordsAreExact(init);
      assert forall j :: 0 <= j < |init| ==> init[j] == rc[j];
      assert rc == init + [rc[|rc| - 1]];
    }
  }

  /** The records that are counted, in order: those of type "User" from repositories that are not forks. */
  function Counted(repos: seq<Repo>): seq<Contributor>
  {
    if repos == [] then []
    else
      var repo := repos[|repos| - 1];
      Counted(repos[..|repos| - 1]) + (if repo.fork then [] else UserRecords(repo.contributors))
  }

  /** Every counted record is a "User" record of a repository that is not a fork. */
  lemma {:induction false} CountedFromUsersOfOwnRepos(repos: seq<Repo>)
    ensures forall i :: 0 <= i < |Counted(repos)| ==>
              Counted(repos)[i].kind == USER &&
              exists k :: 0 <= k < |repos| && !repos[k].fork && Counted(repos)[i] in repos[k].contributors
  {
    if repos != [] {
      var init := repos[..|repos| - 1];
      var repo := repos[|repos| - 1];
      CountedFromUsersOfOwnRepos(init);
      UserRecordsAreExact(repo.contributors);
      var before := Counted(init);
      var added := if repo.fork then [] else UserRecords(repo.contributors);
      forall i | 0 <= i < |Counted(repos)|
        ensures Counted(repos)[i].kind == USER &&
                exists k :: 0 <= k < |repos| && !repos[k].fork && Counted(repos)[i] in repos[k].contributors
      {
        if i < |before| {
          assert Counted(repos)[i] == before[i];
          var k :| 0 <= k < |init| && !init[k].fork && before[i] in init[k].contributors;
          assert repos[k] == init[k];
        } else {
          assert Counted(repos)[i] == added[i - |before|];
          assert repos[|repos| - 1] == repo;
        }
      }
    }
  }

  /** Every "User" record of a repository that is not a fork is counted. */
  lemma {:induction false} CountedKeepsUserRecords(repos: seq<Repo>, k: nat, j: nat)
    requires k < |repos| && !repos[k].fork
    requires j < |repos[k].contributors| && repos[k].contributors[j].kind == USER
    ensures repos[k].contributors[j] in Counted(repos)
  {
    var init := repos[..|repos| - 1];
    if k == |repos| - 1 {
      UserRecordsAreExact(repos[k].contributors);
    } else {
      assert init[k] == repos[k];
      CountedKeepsUserRecords(init, k, j);
    }
  }

  /** The `contributors` dict after the records `cs`, taken in order. */
  function Tally(cs: seq<Contributor>): Dict<Contributor>
  {
    if cs == [] then Empty()
    else
      var d := Tally(cs[..|cs| - 1]);
      var c := cs[|cs| - 1];
      if c.login in d.values
      then Put(d, c.login, d.values[c.login].(contributions := d.values[c.login].contributions + c.contributions))
      else Put(d, c.login, c)
  }

  /** A login seen before: its stored record's count goes up. */
  lemma TallyMerges(cs: seq<Contributor>, c: Contributor)
    requires c.login in Tally(cs).values
    ensures Tally(cs + [c]) ==
              Put(Tally(cs), c.login,
                  Tally(cs).values[c.login].(contributions := Tally(cs).values[c.login].contributions + c.contributions))
  {
    assert (cs + [c])[..|cs|] == cs;
  }

  /** A new login: the record itself is stored. */
  lemma TallyStores(cs: seq<Contributor>, c: Contributor)
    requires c.login !in Tally(cs).values
    ensures Tally(cs + [c]) == Put(Tally(cs), c.login, c)
  {
    assert (cs + [c])[..|cs|] == cs;
  }

  lemma {:induction false} TallyValid(cs: seq<Contributor>)
    ensures Valid(Tally(cs))
  {
    if cs != [] {
      var d := Tally(cs[..|cs| - 1]);
      var c := cs[|cs| - 1];
      TallyValid(cs[..|cs| - 1]);
      if c.login in d.values {
        PutKeepsValid(d, c.login, d.values[c.login].(contributions := d.values[c.login].contributions + c.contributions));
      } else {
        PutKeepsValid(d, c.login, c);
      }
    }
  }

  /** One login's entry in the tally: see `TallyKeepsFirstRecord`. */
  lemma {:induction false} TallyAt(cs: seq<Contributor>, l: string)
    ensures l in Tally(cs).values <==> Appears(cs, l)
    ensures l in Tally(cs).values ==>
              Find(cs, HasLogin(l)).Some? &&
              Tally(cs).values[l] == cs[Find(cs, HasLogin(l)).value].(contributions := SumFor(cs, l))
  {
    if cs != [] {
      var init := cs[..|cs| - 1];
      var c := cs[|cs| - 1];
      var d := Tally(init);
      TallyAt(init, l);
      AppearsSnoc(cs);
      assert cs == init + [c];
      FindSnoc(init, c, HasLogin(l));
      assert SumFor(cs, l) == SumFor(init, l) + (if c.login == l then c.contributions else 0);
      if c.login != l {
        assert Tally(cs).values == d.values[c.login := Tally(cs).values[c.login]];
        if l in d.values {
          var f := Find(init, HasLogin(l)).value;
          assert cs[f] == init[f];
        }
      } else if l in d.values {
        var f := Find(init, HasLogin(l)).value;
        assert cs[f] == init[f];
        assert Tally(cs).values[l] == d.values[l].(contributions := d.values[l].contributions + c.contributions);
      } else {
        SumForAbsent(init, l);
        assert Tally(cs).values[l] == c;
      }
    }
  }

  /**
   * Exactly the logins seen are stored; the stored record is the first record
   * seen for the login, its `contributions` raised to the login's total.
   */
  lemma TallyKeepsFirstRecord(cs: seq<Contributor>)
    ensures forall l :: l in Tally(cs).values <==> Appears(cs, l)
    ensures forall l :: l in Tally(cs).values ==>
              Find(cs, HasLogin(l)).Some? &&
              Tally(cs).values[l] == cs[Find(cs, HasLogin(l)).value].(contributions := SumFor(cs, l))
  {
    forall l ensures l in Tally(cs).values <==> Appears(cs, l) {
      TallyAt(cs, l);
    }
    forall l | l in Tally(cs).values
      ensures Find(cs, HasLogin(l)).Some? &&
              Tally(cs).values[l] == cs[Find(cs, HasLogin(l)).value].(contributions := SumFor(cs, l))
    {
      TallyAt(cs, l);
    }
  }

  /** One more repository, for the outer loop. */
  lemma CountedSnoc(repos: seq<Repo>, r: nat)
    requires r < |repos|
    ensures Counted(repos[..r + 1]) ==
              Counted(repos[..r]) + (if repos[r].fork then [] else UserRecords(repos[r].contributors))
  {
    assert repos[..r + 1][..r] == repos[..r];
  }

  /** One more contributor record, for the inner loop. */
  lemma UserRecordsSnoc(rc: seq<Contributor>, j: nat)
    requires j < |rc|
    ensures UserRecords(rc[..j + 1]) == UserRecords(rc[..j]) + (if rc[j].kind == USER then [rc[j]] else [])
  {
    assert rc[..j + 1][..j] == rc[..j];
  }

  /** The body of the inner loop for a "User" record: add to the stored count, or store the record. */
  method AddContributor(contributors: Dict<Contributor>, contributor: Contributor, ghost seen: seq<Contributor>)
    returns (updated: Dict<Contributor>)
    requires contributors == Tally(seen)
    ensures updated == Tally(seen + [contributor])
  {
    if contributor.login in contributors.values {
      var stored := contributors.values[contributor.login];
      TallyMerges(seen, contributor);
      updated := Put(contributors, contributor.login, stored.(contributions := stored.contributions + contributor.contributions));
    } else {
      TallyStores(seen, contributor);
      updated := Put(contributors, contributor.login, contributor);
    }
  }

  /** The inner loop: the records of one repository's contributor list, added into `contributors`. */
  method AddRepository(contributors: Dict<Contributor>, repoContributors: seq<Contributor>, ghost counted: seq<Contributor>)
    returns (updated: Dict<Contributor>)
    requires contributors == Tally(counted)
    ensures updated == Tally(counted + UserRecords(repoContributors))
  {
    updated := contributors;
    ghost var seen := counted;
    assert counted + UserRecords(repoContributors[..0]) == counted;
    for j := 0 to |repoContributors|
      invariant seen == counted + UserRecords(repoContributors[..j])
      invariant updated == Tally(seen)
    {
      var contributor := repoContributors[j];
      UserRecordsSnoc(repoContributors, j);
      if contributor.kind == USER {
        updated := AddContributor(updated, contributor, seen);
        seen := seen + [contributor];
      }
    }
    assert repoContributors[..|repoContributors|] == repoContributors;
  }

  /** The outer loop, over the repositories that are not forks. */
  method CollectContributors(repos: seq<Repo>) returns (contributors: Dict<Contributor>)
    ensures contributors == Tally(Counted(repos))
  {
    contributors := Empty();
    for r := 0 to |repos|
      invariant contributors == Tally(Counted(repos[..r]))
    {
      CountedSnoc(repos, r);
      if !repos[r].fork {
        contributors := AddRepository(contributors, repos[r].contributors, Counted(repos[..r]));
      } else {
        assert Counted(repos[..r]) + [] == Counted(repos[..r]);
      }
    }
    assert repos[..|repos|] == repos;
  }

  /** `contributors.values()`, in insertion order. */
  function Values(d: Dict<Contributor>): (r: seq<Contributor>)
    requires Valid(d)
    ensures |r| == |d.keys|
    ensures forall i :: 0 <= i < |r| ==> d.keys[i] in d.values && r[i] == d.values[d.keys[i]]
  {
    seq(|d.keys|, i requires 0 <= i < |d.keys| => d.values[d.keys[i]])
  }

  /** `sorted(contributors.values(), key=lambda c: c['contributions'], reverse=True)[:15]` */
  function TopContributors(d: Dict<Contributor>): seq<Contributor>
    requires Valid(d)
  {
    Take(SortDesc(Values(d), ByContributions), TOP)
  }

  /** Each stored record is keyed by its own login. */
  ghost predicate KeyedByLogin(d: Dict<Contributor>)
  {
    forall l :: l in d.values ==> d.values[l].login == l
  }

  /** The top list is sorted by contributions, non-increasing, at most 15 long, and names each login once. */
  lemma TopIsSorted(d: Dict<Contributor>)
    requires Valid(d) && KeyedByLogin(d)
    ensures |TopContributors(d)| <= TOP
    ensures SortedDesc(TopContributors(d), ByContributions)
    ensures DistinctBy(TopContributors(d), Login)
  {
    var values := Values(d);
    var sorted := SortDesc(values, ByContributions);
    SortDescSorted(values, ByContributions);
    assert DistinctBy(values, Login) by {
      forall i, j | 0 <= i < j < |values| ensures Login(values[i]) != Login(values[j]) {
        assert values[i].login == d.keys[i] && values[j].login == d.keys[j];
      }
    }
    PermutationKeepsDistinct(values, sorted, Login);
  }

  /** Every kept record is a stored record. */
  lemma TopFromStored(d: Dict<Contributor>)
    requires Valid(d) && KeyedByLogin(d)
    ensures forall i :: 0 <= i < |TopContributors(d)| ==>
              TopContributors(d)[i].login in d.values &&
              TopContributors(d)[i] == d.values[TopContributors(d)[i].login]
  {
    var values := Values(d);
    var sorted := SortDesc(values, ByContributions);
    var top := TopContributors(d);
    forall i | 0 <= i < |top| ensures top[i].login in d.values && top[i] == d.values[top[i].login] {
      assert top[i] == sorted[i];
      assert sorted[i] in multiset(values);
    }
  }

  /** No stored record left out has a higher count than a kept one, and one is left out only when 15 are kept. */
  lemma TopKeepsHighest(d: Dict<Contributor>, l: string)
    requires Valid(d) && l in d.values && d.values[l] !in TopContributors(d)
    ensures |TopContributors(d)| == TOP
    ensures forall i :: 0 <= i < |TopContributors(d)| ==>
              TopContributors(d)[i].contributions >= d.values[l].contributions
  {
    var values := Values(d);
    var sorted := SortDesc(values, ByContributions);
    SortDescSorted(values, ByContributions);
    var k :| 0 <= k < |d.keys| && d.keys[k] == l;
    assert values[k] == d.values[l];
    assert d.values[l] in multiset(sorted);
    TakeKeepsHighest(sorted, ByContributions, TOP, d.values[l]);
  }

  /** The tally keys every stored record by its own login. */
  lemma TallyKeyedByLogin(cs: seq<Contributor>)
    ensures Valid(Tally(cs)) && KeyedByLogin(Tally(cs))
  {
    TallyValid(cs);
    TallyKeepsFirstRecord(cs);
  }

  /** Each kept record is the first record of its login, carrying the login's total. */
  lemma TopAreFirstRecords(cs: seq<Contributor>)
    requires Valid(Tally(cs))
    ensures forall i :: 0 <= i < |TopContributors(Tally(cs))| ==>
              Appears(cs, TopContributors(Tally(cs))[i].login) &&
              Find(cs, HasLogin(TopContributors(Tally(cs))[i].login)).Some? &&
              TopContributors(Tally(cs))[i] ==
                cs[Find(cs, HasLogin(TopContributors(Tally(cs))[i].login)).value]
                  .(contributions := SumFor(cs, TopContributors(Tally(cs))[i].login))
  {
    TallyKeyedByLogin(cs);
    TallyKeepsFirstRecord(cs);
    TopFromStored(Tally(cs));
  }

  /** A login seen but not kept: 15 records are kept, none with a lower total. */
  lemma TopLeavesOutOnlyLower(cs: seq<Contributor>, l: string)
    requires Valid(Tally(cs))
    requires Appears(cs, l)
    requires forall i :: 0 <= i < |TopContributors(Tally(cs))| ==> TopContributors(Tally(cs))[i].login != l
    ensures |TopContributors(Tally(cs))| == TOP
    ensures forall i :: 0 <= i < |TopContributors(Tally(cs))| ==> TopContributors(Tally(cs))[i].contributions >= SumFor(cs, l)
  {
    TallyKeepsFirstRecord(cs);
    TallyKeyedByLogin(cs);
    assert Tally(cs).values[l].login == l;
    TopKeepsHighest(Tally(cs), l);
  }

  /** The whole script, with the repository listing as input and the dumped list as result. */
  method UpdateContributors(repos: seq<Repo>) returns (top: seq<Contributor>)
    ensures |top| <= TOP
    ensures forall i, j :: 0 <= i < j < |top| ==> top[i].contributions >= top[j].contributions
    ensures forall i, j :: 0 <= i < j < |top| ==> top[i].login != top[j].login
    ensures forall i :: 0 <= i < |top| ==>
              top[i].kind == USER && Appears(Counted(repos), top[i].login) &&
              Find(Counted(repos), HasLogin(top[i].login)).Some? &&
              top[i] == Counted(repos)[Find(Counted(repos), HasLogin(top[i].login)).value]
                          .(contributions := SumFor(Counted(repos), top[i].login))
    ensures forall l ::
              (Appears(Counted(repos), l) && forall i :: 0 <= i < |top| ==> top[i].login != l) ==>
              |top| == TOP && forall i :: 0 <= i < |top| ==> top[i].contributions >= SumFor(Counted(repos), l)
  {
    var contributors := CollectContributors(repos);
    ghost var counted := Counted(repos);
    TallyKeyedByLogin(counted);
    top := TopContributors(contributors);
    TopIsSorted(contributors);
    TopAreFirstRecords(counted);
    CountedFromUsersOfOwnRepos(repos);
    forall l | Appears(counted, l) && (forall i :: 0 <= i < |top| ==> top[i].login != l)
      ensures |top| == TOP && forall i :: 0 <= i < |top| ==> top[i].contributions >= SumFor(counted, l)
    {
      TopLeavesOutOnlyLower(counted, l);
    }
  }
}
