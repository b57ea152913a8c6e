/** The leaderboard query of server/server.js:
    `User.find().sort({ donationsRaised: -1 }).limit(10)` mapped to
    `{ rank: index + 1, name, referralCode, donationsRaised }`.
    MongoDB does not promise a stable sort, so equal totals may come back in
    any order: the query is described by the predicate IsTopSelection, which
    every permitted answer satisfies, and SortByDonations is one answer. */
module Ranking {
  import opened Collections
  import opened Users

  const Limit: nat := 10

  /** One row of the leaderboard response. */
  datatype Entry = Entry(rank: nat, name: string, referralCode: string, donationsRaised: int)

  ghost predicate NonIncreasing(s: seq<User>) {
    forall i, j :: 0 <= i < j < |s| ==> s[i].donationsRaised >= s[j].donationsRaised
  }

  /** `sel` is a permitted answer to the query with limit `n` over `users`:
      the right number of distinct stored records, in non-increasing order of
      donations, and no record left out has more than a listed one. */
  ghost predicate IsTopSelection(users: seq<User>, sel: seq<User>, n: nat) {
    && |sel| == Min(n, |users|)
    && multiset(sel) <= multiset(users)
    && NonIncreasing(sel)
    && forall u, k :: u in multiset(users) - multiset(sel) && 0 <= k < |sel| ==>
         u.donationsRaised <= sel[k].donationsRaised
  }

  /** `users.map((user, index) => ({ rank: index + 1, ... }))`. */
  function Rank(sel: seq<User>): (board: seq<Entry>)
    ensures |board| == |sel|
    ensures forall i :: 0 <= i < |sel| ==>
      board[i] == Entry(i + 1, sel[i].name, sel[i].referralCode, sel[i].donationsRaised)
  {
    seq(|sel|, i requires 0 <= i < |sel| =>
      Entry(i + 1, sel[i].name, sel[i].referralCode, sel[i].donationsRaised))
  }

  /** Inserts `x` before the first record with a smaller total. */
  function InsertByDonations(x: User, s: seq<User>): (r: seq<User>)
    ensures multiset(r) == multiset(s) + multiset{x}
    ensures |r| == |s| + 1
  {
    if s == [] || x.donationsRaised >= s[0].donationsRaised then [x] + s
    else
      assert s == [s[0]] + s[1..];
      [s[0]] + InsertByDonations(x, s[1..])
  }

  /** A stable descending sort: one of the orders the query may return. */
  function SortByDonations(s: seq<User>): (r: seq<User>)
    ensures multiset(r) == multiset(s)
    ensures |r| == |s|
  {
    if s == [] then []
    else
      assert s == [s[0]] + s[1..];
      InsertByDonations(s[0], SortByDonations(s[1..]))
  }

  lemma {:induction false} InsertKeepsOrder(x: User, s: seq<User>)
    requires NonIncreasing(s)
    ensures NonIncreasing(InsertByDonations(x, s))
  {
    if s != [] && x.donationsRaised < s[0].donationsRaised {
      InsertKeepsOrder(x, s[1..]);
      var r := InsertByDonations(x, s);
      var t := InsertByDonations(x, s[1..]);
      assert r == [s[0]] + t;
      forall j | 0 <= j < |t|
        ensures s[0].donationsRaised >= t[j].donationsRaised
      {
        assert t[j] in multiset(t);
        assert t[j] in multiset(s[1..]) + multiset{x};
        if t[j] != x {
          assert t[j] in s[1..];
        }
      }
    }
  }

  lemma {:induction false} SortIsOrdered(s: seq<User>)
    ensures NonIncreasing(SortByDonations(s))
  {
    if s != [] {
      SortIsOrdered(s[1..]);
      InsertKeepsOrder(s[0], SortByDonations(s[1..]));
    }
  }

  /** The first `n` records of the sorted collection. */
  function TopByDonations(users: seq<User>, n: nat): (sel: seq<User>)
    ensures |sel| == Min(n, |users|)
  {
    SortByDonations(users)[..Min(n, |users|)]
  }

  /** In a non-increasing sequence nothing after position m exceeds anything before it. */
  lemma SuffixBelowPrefix(t: seq<User>, m: nat)
    requires NonIncreasing(t) && m <= |t|
    ensures forall u, k :: u in multiset(t[m..]) && 0 <= k < m ==>
      u.donationsRaised <= t[k].donationsRaised
  {
    forall u, k | u in multiset(t[m..]) && 0 <= k < m
      ensures u.donationsRaised <= t[k].donationsRaised
    {
      assert u in t[m..];
      var j :| 0 <= j < |t[m..]| && t[m..][j] == u;
      assert t[m + j] == u;
    }
  }

  /** Cutting a sequence in two splits its multiset in two. */
  lemma PrefixSuffixMultiset(t: seq<User>, m: nat)
    requires m <= |t|
    ensures multiset(t[..m]) <= multiset(t)
    ensures multiset(t) - multiset(t[..m]) == multiset(t[m..])
  {
    assert t == t[..m] + t[m..];
  }

  lemma TopSplitsSorted(users: seq<User>, n: nat)
    ensures multiset(TopByDonations(users, n)) <= multiset(users)
    ensures multiset(users) - multiset(TopByDonations(users, n)) ==
      multiset(SortByDonations(users)[Min(n, |users|)..])
  {
    PrefixSuffixMultiset(SortByDonations(users), Min(n, |users|));
  }

  lemma TopIsOrdered(users: seq<User>, n: nat)
    ensures NonIncreasing(TopByDonations(users, n))
  {
    SortIsOrdered(users);
  }

  /** The sorted prefix is a permitted answer, so the query always has one. */
  lemma TopIsTopSelection(users: seq<User>, n: nat)
    ensures IsTopSelection(users, TopByDonations(users, n), n)
  {
    TopSplitsSorted(users, n);
    TopIsOrdered(users, n);
    SortIsOrdered(users);
    SuffixBelowPrefix(SortByDonations(users), Min(n, |users|));
  }

  /** What every leaderboard the handler can return satisfies: at most ten rows
      and no more than there are users, non-increasing totals, rank i + 1 in
      row i, every row a distinct stored user, and every user left out with a
      total no larger than the last row's. */
  lemma LeaderboardProperties(users: seq<User>, sel: seq<User>)
    requires IsTopSelection(users, sel, Limit)
    ensures |Rank(sel)| <= Limit && |Rank(sel)| <= |users|
    ensures |Rank(sel)| < Limit ==> |Rank(sel)| == |users|
    ensures forall i :: 0 <= i < |Rank(sel)| ==> Rank(sel)[i].rank == i + 1
    ensures forall i, j :: 0 <= i < j < |Rank(sel)| ==>
      Rank(sel)[i].donationsRaised >= Rank(sel)[j].donationsRaised
    ensures forall i :: 0 <= i < |sel| ==>
      sel[i] in users &&
      Rank(sel)[i] == Entry(i + 1, sel[i].name, sel[i].referralCode, sel[i].donationsRaised)
    ensures forall u :: u in multiset(users) - multiset(sel) ==>
      |sel| > 0 && u.donationsRaised <= Rank(sel)[|sel| - 1].donationsRaised
  {
    forall i | 0 <= i < |sel|
      ensures sel[i] in users
    {
      assert sel[i] in multiset(sel);
    }
    forall u | u in multiset(users) - multiset(sel)
      ensures |sel| > 0 && u.donationsRaised <= Rank(sel)[|sel| - 1].donationsRaised
    {
      assert u in multiset(users);
      assert |multiset(sel)| < |multiset(users)| by {
        assert multiset(users) == multiset(sel) + (multiset(users) - multiset(sel));
      }
    }
  }
}
