/**
 * `_data/update-contributors.js`: adds up each login's contributions over the
 * contributor lists of the listed repositories, remembers an avatar per login,
 * and keeps the 15 largest totals, leaving out dependabot.
 *
 * The fetched responses are the input, in the order of the repository list;
 * the array written to `contributors.json` is the result.
 */
module ContributorsJs {
  import opened Wrappers
  import opened Collections
  import opened GitHub
  import opened Dicts
  import opened Ranking

  /** One object of the output array. */
  datatype Entry = Entry(username: string, contributions: int, avatar: Option<string>)

  const DEPENDABOT := "dependabot[bot]"
  const TOP: nat := 15

  const ByContributions := (e: Entry) => e.contributions
  const Username := (e: Entry) => e.username
  const IsDependabot := (e: Entry) => e.username == DEPENDABOT

  /** The `contributions` Map after the records `cs`, taken in order. */
  function Counts(cs: seq<Contributor>): Dict<int>
  {
    if cs == [] then Empty()
    else
      var d := Counts(cs[..|cs| - 1]);
      var user := cs[|cs| - 1];
      if user.login in d.values then Put(d, user.login, d.values[user.login] + user.contributions)
      else Put(d, user.login, user.contributions)
  }

  /** The `avatars` Map after the records `cs`, taken in order. */
  function Avatars(cs: seq<Contributor>): Dict<string>
  {
    if cs == [] then Empty()
    else Put(Avatars(cs[..|cs| - 1]), cs[|cs| - 1].login, cs[|cs| - 1].avatarUrl)
  }

  lemma {:induction false} CountsValid(cs: seq<Contributor>)
    ensures Valid(Counts(cs))
  {
    if cs != [] {
      var d := Counts(cs[..|cs| - 1]);
      var user := cs[|cs| - 1];
      CountsValid(cs[..|cs| - 1]);
      if user.login in d.values {
        PutKeepsValid(d, user.login, d.values[user.login] + user.contributions);
      } else {
        PutKeepsValid(d, user.login, user.contributions);
      }
    }
  }

  /** Exactly the logins seen have a total, and the total is the sum of their contributions. */
  lemma {:induction false} CountsAreSums(cs: seq<Contributor>)
    ensures forall l :: l in Counts(cs).values <==> Appears(cs, l)
    ensures forall l :: l in Counts(cs).values ==> Counts(cs).values[l] == SumFor(cs, l)
  {
    if cs != [] {
      var init := cs[..|cs| - 1];
      var user := cs[|cs| - 1];
      CountsAreSums(init);
      AppearsSnoc(cs);
      forall l | l in Counts(cs).values ensures Counts(cs).values[l] == SumFor(cs, l) {
        if l == user.login && !Appears(init, l) {
          SumForAbsent(init, l);
        }
      }
    }
  }

  /** `avatars.set` on every record: the avatar kept for a login is that of its last record. */
  lemma {:induction false} AvatarsLastWins(cs: seq<Contributor>)
    ensures forall l :: l in Avatars(cs).values <==> Appears(cs, l)
    ensures forall l :: l in Avatars(cs).values ==>
              FindLast(cs, HasLogin(l)).Some? &&
              Avatars(cs).values[l] == cs[FindLast(cs, HasLogin(l)).value].avatarUrl
  {
    if cs != [] {
      var init := cs[..|cs| - 1];
      var user := cs[|cs| - 1];
      AvatarsLastWins(init);
      AppearsSnoc(cs);
      forall l | l in Avatars(cs).values
        ensures FindLast(cs, HasLogin(l)).Some? &&
                Avatars(cs).values[l] == cs[FindLast(cs, HasLogin(l)).value].avatarUrl
      {
        if l != user.login {
          assert FindLast(cs, HasLogin(l)) == FindLast(init, HasLogin(l));
          assert cs[FindLast(init, HasLogin(l)).value] == init[FindLast(init, HasLogin(l)).value];
        }
      }
    }
  }

  lemma CountsSnoc(cs: seq<Contributor>, user: Contributor)
    ensures Counts(cs + [user]) ==
              if user.login in Counts(cs).values
              then Put(Counts(cs), user.login, Counts(cs).values[user.login] + user.contributions)
              else Put(Counts(cs), user.login, user.contributions)
  {
    assert (cs + [user])[..|cs|] == cs;
  }

  lemma AvatarsSnoc(cs: seq<Contributor>, user: Contributor)
    ensures Avatars(cs + [user]) == Put(Avatars(cs), user.login, user.avatarUrl)
  {
    assert (cs + [user])[..|cs|] == cs;
  }

  /** The body of the inner loop: record the avatar, then add to the login's total or start it. */
  method AddUser(contributions: Dict<int>, avatars: Dict<string>, user: Contributor, ghost seen: seq<Contributor>)
    returns (newContributions: Dict<int>, newAvatars: Dict<string>)
    requires contributions == Counts(seen) && avatars == Avatars(seen)
    ensures newContributions == Counts(seen + [user])
    ensures newAvatars == Avatars(seen + [user])
  {
    CountsSnoc(seen, user);
    AvatarsSnoc(seen, user);
    newAvatars := Put(avatars, user.login, user.avatarUrl);
    if user.login in contributions.values {
      newContributions := Put(contributions, user.login, contributions.values[user.login] + user.contributions);
    } else {
      newContributions := Put(contributions, user.login, user.contributions);
    }
  }

  /** The inner `for` loop, over the records of one response. */
  method AddResponse(contributions: Dict<int>, avatars: Dict<string>, repoContributors: seq<Contributor>,
                     ghost before: seq<Contributor>)
    returns (newContributions: Dict<int>, newAvatars: Dict<string>)
    requires contributions == Counts(before) && avatars == Avatars(before)
    ensures newContributions == Counts(before + repoContributors)
    ensures newAvatars == Avatars(before + repoContributors)
  {
    newContributions, newAvatars := contributions, avatars;
    ghost var seen := before;
    assert before + repoContributors[..0] == before;
    for j := 0 to |repoContributors|
      invariant seen == before + repoContributors[..j]
      invariant newContributions == Counts(seen) && newAvatars == Avatars(seen)
    {
      var user := repoContributors[j];
      assert before + repoContributors[..j + 1] == seen + [user];
      newContributions, newAvatars := AddUser(newContributions, newAvatars, user, seen);
      seen := seen + [user];
    }
    assert repoContributors[..|repoContributors|] == repoContributors;
  }

  /** The outer `for` loop, over the responses in the order of the repository list. */
  method Accumulate(responses: seq<seq<Contributor>>) returns (contributions: Dict<int>, avatars: Dict<string>)
    ensures contributions == Counts(Flatten(responses))
    ensures avatars == Avatars(Flatten(responses))
  {
    contributions := Empty();
    avatars := Empty();
    for r := 0 to |responses|
      invariant contributions == Counts(Flatten(responses[..r]))
      invariant avatars == Avatars(Flatten(responses[..r]))
    {
      contributions, avatars := AddResponse(contributions, avatars, responses[r], Flatten(responses[..r]));
      assert responses[..r + 1][..r] == responses[..r];
    }
    assert responses[..|responses|] == responses;
  }

  /** `Array.from(contributions.keys()).map(...)`: one entry per key of `contributions`, in key order. */
  function ToEntries(contributions: Dict<int>, avatars: Dict<string>): (r: seq<Entry>)
    requires Valid(contributions)
    ensures DistinctBy(r, Username)
    ensures forall i :: 0 <= i < |r| ==>
              (r[i].username in contributions.values &&
               r[i].contributions == contributions.values[r[i].username] &&
               r[i].avatar == Get(avatars, r[i].username))
    ensures forall l :: l in contributions.values ==> exists i :: 0 <= i < |r| && r[i].username == l
  {
    var keys := contributions.keys;
    var r := seq(|keys|, i requires 0 <= i < |keys| => Entry(keys[i], contributions.values[keys[i]], Get(avatars, keys[i])));
    assert forall l :: l in contributions.values ==> exists i :: 0 <= i < |r| && r[i].username == l by {
      forall l | l in contributions.values ensures exists i :: 0 <= i < |r| && r[i].username == l {
        var i :| 0 <= i < |keys| && keys[i] == l;
        assert r[i].username == l;
      }
    }
    r
  }

  /** `.sort((a, b) => b.contributions - a.contributions).filter(...).slice(0, 15)` */
  function Ranked(entries: seq<Entry>): seq<Entry>
  {
    Take(RemoveAll(SortDesc(entries, ByContributions), IsDependabot), TOP)
  }

  /** The ranked array is non-increasing by contributions, at most 15 long, and names each user once. */
  lemma RankedIsSorted(entries: seq<Entry>)
    requires DistinctBy(entries, Username)
    ensures |Ranked(entries)| <= TOP
    ensures SortedDesc(Ranked(entries), ByContributions)
    ensures DistinctBy(Ranked(entries), Username)
  {
    var sorted := SortDesc(entries, ByContributions);
    SortDescSorted(entries, ByContributions);
    FilterKeepsSorted(sorted, IsDependabot, ByContributions);
    PermutationKeepsDistinct(entries, sorted, Username);
    FilterKeepsDistinct(sorted, IsDependabot, Username);
  }

  /** Every ranked entry is an input entry other than dependabot. */
  lemma RankedFromInput(entries: seq<Entry>)
    ensures forall i :: 0 <= i < |Ranked(entries)| ==>
              Ranked(entries)[i].username != DEPENDABOT && Ranked(entries)[i] in entries
  {
    var sorted := SortDesc(entries, ByContributions);
    var kept := RemoveAll(sorted, IsDependabot);
    var top := Take(kept, TOP);
    RemoveAllMembers(sorted, IsDependabot);
    forall i | 0 <= i < |top| ensures top[i].username != DEPENDABOT && top[i] in entries {
      assert top[i] == kept[i];
      assert kept[i] in multiset(sorted);
    }
  }

  /**
   * Filtering before slicing: an input entry other than dependabot is left out
   * only when 15 entries are kept, each with at least its count.
   */
  lemma RankedKeepsHighest(entries: seq<Entry>, k: nat)
    requires k < |entries| && entries[k].username != DEPENDABOT && entries[k] !in Ranked(entries)
    ensures |Ranked(entries)| == TOP
    ensures forall i :: 0 <= i < |Ranked(entries)| ==> Ranked(entries)[i].contributions >= entries[k].contributions
  {
    var sorted := SortDesc(entries, ByContributions);
    var kept := RemoveAll(sorted, IsDependabot);
    SortDescSorted(entries, ByContributions);
    FilterKeepsSorted(sorted, IsDependabot, ByContributions);
    var e := entries[k];
    assert e in multiset(sorted);
    var m :| 0 <= m < |sorted| && sorted[m] == e;
    RemoveAllKeeps(sorted, IsDependabot, m);
    TakeKeepsHighest(kept, ByContributions, TOP, e);
  }

  /** Each kept entry carries its login's total and the avatar of its login's last record. */
  lemma RankedEntriesAreTotals(flat: seq<Contributor>)
    requires Valid(Counts(flat))
    ensures var top := Ranked(ToEntries(Counts(flat), Avatars(flat)));
            forall i :: 0 <= i < |top| ==>
              Appears(flat, top[i].username) &&
              top[i].contributions == SumFor(flat, top[i].username) &&
              FindLast(flat, HasLogin(top[i].username)).Some? &&
              top[i].avatar == Some(flat[FindLast(flat, HasLogin(top[i].username)).value].avatarUrl)
  {
    var entries := ToEntries(Counts(flat), Avatars(flat));
    CountsAreSums(flat);
    AvatarsLastWins(flat);
    RankedFromInput(entries);
  }

  /** A login other than dependabot is left out only behind 15 logins with at least its total. */
  lemma RankedLeavesOutOnlyLower(flat: seq<Contributor>, l: string)
    requires Valid(Counts(flat))
    requires Appears(flat, l) && l != DEPENDABOT
    requires forall e :: e in Ranked(ToEntries(Counts(flat), Avatars(flat))) ==> e.username != l
    ensures var top := Ranked(ToEntries(Counts(flat), Avatars(flat)));
            |top| == TOP && forall i :: 0 <= i < |top| ==> top[i].contributions >= SumFor(flat, l)
  {
    var entries := ToEntries(Counts(flat), Avatars(flat));
    CountsAreSums(flat);
    var k :| 0 <= k < |entries| && entries[k].username == l;
    assert entries[k].contributions == Counts(flat).values[l] == SumFor(flat, l);
    RankedKeepsHighest(entries, k);
  }

  /** The whole script, with the fetched responses as input and the written array as result. */
  method UpdateContributors(responses: seq<seq<Contributor>>) returns (top: seq<Entry>)
    ensures |top| <= TOP
    ensures forall i, j :: 0 <= i < j < |top| ==> top[i].contributions >= top[j].contributions
    ensures forall i, j :: 0 <= i < j < |top| ==> top[i].username != top[j].username
    ensures forall i :: 0 <= i < |top| ==> top[i].username != DEPENDABOT
    ensures forall i :: 0 <= i < |top| ==>
              Appears(Flatten(responses), top[i].username) &&
              top[i].contributions == SumFor(Flatten(responses), top[i].username)
    ensures forall i :: 0 <= i < |top| ==>
              FindLast(Flatten(responses), HasLogin(top[i].username)).Some? &&
              top[i].avatar ==
                Some(Flatten(responses)[FindLast(Flatten(responses), HasLogin(top[i].username)).value].avatarUrl)
    ensures forall l ::
              (Appears(Flatten(responses), l) && l != DEPENDABOT && forall i :: 0 <= i < |top| ==> top[i].username != l) ==>
              |top| == TOP && forall i :: 0 <= i < |top| ==> top[i].contributions >= SumFor(Flatten(responses), l)
  {
    var contributions, avatars := Accumulate(responses);
    ghost var flat := Flatten(responses);
    CountsValid(flat);
    var contributorArray := ToEntries(contributions, avatars);
    top := Ranked(contributorArray);
    RankedIsSorted(contributorArray);
    RankedFromInput(contributorArray);
    RankedEntriesAreTotals(flat);
    forall l | Appears(flat, l) && l != DEPENDABOT && (forall i :: 0 <= i < |top| ==> top[i].username != l)
      ensures |top| == TOP && forall i :: 0 <= i < |top| ==> top[i].contributions >= SumFor(flat, l)
    {
      RankedLeavesOutOnlyLower(flat, l);
    }
  }
}
