/** Tie-aware ranking over a `Counter`: `most_common` (a stable sort by
    descending count), `_tied_rank` (`groupby` on the count, numbered by
    `enumerate` from 1), the lookup of one user and the top-N listing. */
module Ranking {
  import opened Wrappers
  import opened Text
  import opened Counters

  /** A `(user, count)` pair of `counter.items()`. */
  type Entry = (string, nat)

  /** Counts never increase along `s`. */
  ghost predicate SortedByCount(s: seq<Entry>)
  {
    forall i, j :: 0 <= i < j < |s| ==> s[i].1 >= s[j].1
  }

  /** No user appears twice in `s`. */
  ghost predicate DistinctUsers(s: seq<Entry>)
  {
    forall i, j :: 0 <= i < j < |s| ==> s[i].0 != s[j].0
  }

  /** The entries of `s` whose count is `c`, in their order in `s`. */
  function WithCount(s: seq<Entry>, c: nat): seq<Entry>
  {
    if s == [] then [] else (if s[0].1 == c then [s[0]] else []) + WithCount(s[1..], c)
  }

  /** Puts `x` in front of the first entry whose count is not larger than its own. */
  function Insert(x: Entry, s: seq<Entry>): seq<Entry>
  {
    if s == [] || x.1 >= s[0].1 then [x] + s else [s[0]] + Insert(x, s[1..])
  }

  /** Inserting adds `x` and loses nothing. */
  lemma {:induction false} InsertPerm(x: Entry, s: seq<Entry>)
    ensures multiset(Insert(x, s)) == multiset(s) + multiset{x}
  {
    if s != [] && x.1 < s[0].1 {
      InsertPerm(x, s[1..]);
      assert s == [s[0]] + s[1..];
    }
  }

  /** Inserting into a list in descending order keeps it in descending order. */
  lemma {:induction false} InsertSorted(x: Entry, s: seq<Entry>)
    requires SortedByCount(s)
    ensures SortedByCount(Insert(x, s))
  {
    if s != [] && x.1 < s[0].1 {
      var rest := Insert(x, s[1..]);
      InsertSorted(x, s[1..]);
      InsertPerm(x, s[1..]);
      forall k | 0 <= k < |rest| ensures rest[k].1 <= s[0].1 {
        assert rest[k] in multiset(rest);
        assert rest[k] == x || rest[k] in s[1..];
      }
      assert Insert(x, s) == [s[0]] + rest;
    }
  }

  /** Inserting `x` puts it ahead of every entry of the same count. */
  lemma {:induction false} InsertWithCount(x: Entry, s: seq<Entry>, c: nat)
    ensures WithCount(Insert(x, s), c) == (if x.1 == c then [x] else []) + WithCount(s, c)
    decreases |s|
  {
    var r := Insert(x, s);
    var mine: seq<Entry> := if x.1 == c then [x] else [];
    if s == [] || x.1 >= s[0].1 {
      assert r[0] == x && r[1..] == s;
    } else {
      var rest := Insert(x, s[1..]);
      var head: seq<Entry> := if s[0].1 == c then [s[0]] else [];
      var tail := WithCount(s[1..], c);
      assert r[0] == s[0] && r[1..] == rest;
      InsertWithCount(x, s[1..], c);
      assert WithCount(r, c) == head + (mine + tail);
      assert WithCount(s, c) == head + tail;
      assert head == [] || mine == [];
    }
  }

  /** `sorted(items, key=count, reverse=True)`: descending by count and a
      permutation of its input. */
  function SortByCount(s: seq<Entry>): (r: seq<Entry>)
    ensures SortedByCount(r)
    ensures multiset(r) == multiset(s)
  {
    if s == [] then []
    else
      var rest := SortByCount(s[1..]);
      InsertSorted(s[0], rest);
      InsertPerm(s[0], rest);
      assert s == [s[0]] + s[1..];
      Insert(s[0], rest)
  }

  /** The sort is stable: the entries sharing any one count keep their
      relative order. */
  lemma {:induction false} SortByCountStable(s: seq<Entry>, c: nat)
    ensures WithCount(SortByCount(s), c) == WithCount(s, c)
  {
    if s != [] {
      SortByCountStable(s[1..], c);
      InsertWithCount(s[0], SortByCount(s[1..]), c);
    }
  }

  /** `counter.most_common()`. */
  function MostCommon(total: Counter): seq<Entry>
    requires total.Valid()
  {
    SortByCount(total.Items())
  }

  /** `heapq.nlargest(n, ...)` keeps the first `n` of the sorted list, none for `n <= 0`. */
  function Take(s: seq<Entry>, n: int): (r: seq<Entry>)
    ensures |r| == if n <= 0 then 0 else if n < |s| then n else |s|
    ensures r == s[..|r|]
  {
    if n <= 0 then [] else if n < |s| then s[..n] else s
  }

  /** One group of `_tied_rank`: its rank, the shared count and the entries. */
  datatype Group = Group(rank: nat, count: nat, members: seq<Entry>)

  /** The entries of the groups, in order. */
  function Flatten(gs: seq<Group>): seq<Entry>
  {
    if gs == [] then [] else gs[0].members + Flatten(gs[1..])
  }

  /** The users of a group's entries, in order. */
  function Names(members: seq<Entry>): (r: seq<string>)
    ensures |r| == |members|
    ensures forall i :: 0 <= i < |r| ==> r[i] == members[i].0
  {
    if members == [] then [] else [members[0].0] + Names(members[1..])
  }

  /** How many leading entries share the first entry's count. */
  function RunLength(s: seq<Entry>, i: nat): (k: nat)
    requires 0 < i <= |s|
    requires forall j :: 0 <= j < i ==> s[j].1 == s[0].1
    ensures i <= k <= |s|
    ensures forall j :: 0 <= j < k ==> s[j].1 == s[0].1
    ensures k < |s| ==> s[k].1 != s[0].1
    decreases |s| - i
  {
    if i == |s| || s[i].1 != s[0].1 then i else RunLength(s, i + 1)
  }

  /** `enumerate(groupby(s, key=count), start)`: the maximal runs of equal
      count, numbered from `start` without gaps. */
  function TiedRankFrom(s: seq<Entry>, start: nat): seq<Group>
    decreases |s|
  {
    if s == [] then []
    else
      var k := RunLength(s, 1);
      [Group(start, s[0].1, s[..k])] + TiedRankFrom(s[k..], start + 1)
  }

  /** The groups hold the entries of `s`, in order: `groupby` loses and
      reorders nothing. */
  lemma {:induction false} TiedRankFlatten(s: seq<Entry>, start: nat)
    ensures Flatten(TiedRankFrom(s, start)) == s
    decreases |s|
  {
    if s != [] {
      var k := RunLength(s, 1);
      TiedRankFlatten(s[k..], start + 1);
      assert s == s[..k] + s[k..];
    }
  }

  /** The groups are numbered from `start` without gaps, none is empty and
      every entry of a group has the group's count. */
  lemma {:induction false} TiedRankGroups(s: seq<Entry>, start: nat)
    ensures var r := TiedRankFrom(s, start);
      |r| <= |s| && (r == [] <==> s == []) &&
      (forall i :: 0 <= i < |r| ==> r[i].rank == start + i && r[i].members != []) &&
      (forall i, e :: 0 <= i < |r| && e in r[i].members ==> e.1 == r[i].count)
    decreases |s|
  {
    if s != [] {
      var k := RunLength(s, 1);
      var rest := TiedRankFrom(s[k..], start + 1);
      TiedRankGroups(s[k..], start + 1);
      var r := TiedRankFrom(s, start);
      assert r[1..] == rest;
      forall i, e | 0 <= i < |r| && e in r[i].members ensures e.1 == r[i].count {
        if i > 0 {
          assert r[i] == rest[i - 1];
        }
      }
    }
  }

  /** The runs are maximal: neighbouring groups have different counts. */
  lemma {:induction false} TiedRankMaximal(s: seq<Entry>, start: nat)
    ensures var r := TiedRankFrom(s, start);
      forall i :: 0 <= i < |r| - 1 ==> r[i].count != r[i + 1].count
    decreases |s|
  {
    if s != [] {
      var k := RunLength(s, 1);
      var rest := TiedRankFrom(s[k..], start + 1);
      TiedRankMaximal(s[k..], start + 1);
      TiedRankGroups(s[k..], start + 1);
      var r := TiedRankFrom(s, start);
      assert r[1..] == rest;
      forall i | 0 <= i < |r| - 1 ensures r[i].count != r[i + 1].count {
        if i == 0 {
          assert r[1] == rest[0];
          assert k < |s|;
          assert s[k..][0] == s[k];
          assert rest[0].count == s[k].1;
        } else {
          assert r[i] == rest[i - 1] && r[i + 1] == rest[i];
        }
      }
    }
  }

  /** `_tied_rank(counts)`: ranks 1, 2, 3, ... */
  function TiedRank(s: seq<Entry>): seq<Group>
  {
    TiedRankFrom(s, 1)
  }

  /** The search of `_user_rank_by_line_type`: the rank and count of the first
      group holding `name`. */
  function FindUser(gs: seq<Group>, name: string): Option<(nat, nat)>
  {
    if gs == [] then None
    else if name in Names(gs[0].members) then Some((gs[0].rank, gs[0].count))
    else FindUser(gs[1..], name)
  }

  /** `_user_rank_by_line_type` once the totals are known. */
  function UserRank(total: Counter, username: string): Option<(nat, nat)>
    requires total.Valid()
  {
    FindUser(TiedRank(MostCommon(total)), Lower(username))
  }

  /** The groups `_top_n_rank_by_line_type` numbers: those of the first `n`
      entries of the sorted list, not whole tie groups. */
  function TopGroups(total: Counter, n: int): seq<Group>
    requires total.Valid()
  {
    TiedRank(Take(MostCommon(total), n))
  }

  /** `f'{rank}. {usernames} ({count})'`. */
  function FormatGroup(g: Group): string
  {
    NatToString(g.rank) + ". " + Join(Names(g.members), ", ") + " (" + NatToString(g.count) + ")"
  }

  /** The loop of `_top_n_rank_by_line_type` that builds `user_list`. */
  method FormatRanking(groups: seq<Group>) returns (userList: seq<string>)
    ensures |userList| == |groups|
    ensures forall i :: 0 <= i < |groups| ==> userList[i] == FormatGroup(groups[i])
  {
    userList := [];
    for i := 0 to |groups|
      invariant |userList| == i
      invariant forall j :: 0 <= j < i ==> userList[j] == FormatGroup(groups[j])
    {
      var usernames := Join(Names(groups[i].members), ", ");
      userList := userList + [NatToString(groups[i].rank) + ". " + usernames + " (" + NatToString(groups[i].count) + ")"];
    }
  }

  /** Inserting an entry whose user is new keeps the users distinct. */
  lemma {:induction false} InsertDistinct(x: Entry, s: seq<Entry>)
    requires DistinctUsers(s)
    requires forall e :: e in s ==> e.0 != x.0
    ensures DistinctUsers(Insert(x, s))
    decreases |s|
  {
    if s != [] && x.1 < s[0].1 {
      var rest := Insert(x, s[1..]);
      InsertDistinct(x, s[1..]);
      InsertPerm(x, s[1..]);
      assert Insert(x, s) == [s[0]] + rest;
      forall k | 0 <= k < |rest| ensures rest[k].0 != s[0].0 {
        assert rest[k] in multiset(rest);
        assert rest[k] == x || rest[k] in s[1..];
      }
    }
  }

  /** Sorting keeps the users distinct. */
  lemma {:induction false} SortByCountDistinct(s: seq<Entry>)
    requires DistinctUsers(s)
    ensures DistinctUsers(SortByCount(s))
  {
    if s != [] {
      SortByCountDistinct(s[1..]);
      var sorted := SortByCount(s[1..]);
      forall e | e in sorted ensures e.0 != s[0].0 {
        assert e in multiset(sorted);
      }
      InsertDistinct(s[0], sorted);
    }
  }

  /** `most_common()` lists every user of the counter once, with its count. */
  lemma MostCommonEntries(total: Counter)
    requires total.Valid()
    ensures DistinctUsers(MostCommon(total))
    ensures |MostCommon(total)| == |total.order|
    ensures forall e :: e in MostCommon(total) <==> e.0 in total.counts && e.1 == total.counts[e.0]
  {
    var items := total.Items();
    SortByCountDistinct(items);
    var s := MostCommon(total);
    assert |multiset(s)| == |multiset(items)|;
    forall e: Entry ensures e in s <==> e in items {
      assert e in s <==> e in multiset(s);
      assert e in items <==> e in multiset(items);
    }
    forall e: Entry | e.0 in total.counts && e.1 == total.counts[e.0] ensures e in items {
      var i :| 0 <= i < |total.order| && total.order[i] == e.0;
      assert items[i] == e;
    }
  }

  /** Over a list sorted by count, the groups' counts strictly decrease. */
  lemma {:induction false} TiedRankDecreasing(s: seq<Entry>, start: nat)
    requires SortedByCount(s)
    ensures forall i :: 0 < i < |TiedRankFrom(s, start)| ==>
      TiedRankFrom(s, start)[i - 1].count > TiedRankFrom(s, start)[i].count
    decreases |s|
  {
    if s != [] {
      var k := RunLength(s, 1);
      var next := start + 1;
      var rest := TiedRankFrom(s[k..], next);
      SortedSuffix(s, k);
      TiedRankDecreasing(s[k..], next);
      var r := TiedRankFrom(s, start);
      assert r == [Group(start, s[0].1, s[..k])] + rest;
      forall i | 0 < i < |r| ensures r[i - 1].count > r[i].count {
        if i == 1 {
          assert r[1] == rest[0];
          assert s[k..][0] == s[k];
          assert rest[0].count == s[k].1 != s[0].1;
          assert s[0].1 >= s[k].1;
          assert r[0].count == s[0].1;
        } else {
          assert r[i - 1] == rest[i - 2] && r[i] == rest[i - 1];
        }
      }
    }
  }

  /** The distinct counts in `s` larger than `c`. */
  ghost function CountsAbove(s: seq<Entry>, c: nat): set<nat>
  {
    set e | e in s && e.1 > c :: e.1
  }

  /** The user list of a concatenation is the concatenation of the user lists. */
  lemma NamesConcat(a: seq<Entry>, b: seq<Entry>)
    ensures Names(a + b) == Names(a) + Names(b)
  {
  }

  /** The search over the groups finds a user exactly when the grouped list holds it. */
  lemma {:induction false} FindUserIn(s: seq<Entry>, start: nat, name: string)
    ensures FindUser(TiedRankFrom(s, start), name).Some? <==> name in Names(s)
    decreases |s|
  {
    if s != [] {
      var k := RunLength(s, 1);
      var next := start + 1;
      FindUserIn(s[k..], next, name);
      if name in Names(s[..k]) {
        GroupHit(s, start, name);
      } else {
        GroupSkip(s, start, next, name);
      }
      NamesSplit(s, k);
    }
  }

  /** The users of `s` are those before `k` followed by those from `k` on. */
  lemma NamesSplit(s: seq<Entry>, k: nat)
    requires k <= |s|
    ensures Names(s) == Names(s[..k]) + Names(s[k..])
  {
    assert s == s[..k] + s[k..];
    NamesConcat(s[..k], s[k..]);
  }

  /** A user of the first group is found there. */
  lemma GroupHit(t: seq<Entry>, start: nat, name: string)
    requires t != [] && name in Names(t[..RunLength(t, 1)])
    ensures FindUser(TiedRankFrom(t, start), name) == Some((start, t[0].1))
  {
    var r := TiedRankFrom(t, start);
    assert r[0].members == t[..RunLength(t, 1)];
  }

  /** A user outside the first group is looked up among the remaining groups. */
  lemma GroupSkip(t: seq<Entry>, start: nat, next: nat, name: string)
    requires next == start + 1
    requires t != [] && name !in Names(t[..RunLength(t, 1)])
    ensures FindUser(TiedRankFrom(t, start), name) == FindUser(TiedRankFrom(t[RunLength(t, 1)..], next), name)
  {
    var r := TiedRankFrom(t, start);
    assert r[1..] == TiedRankFrom(t[RunLength(t, 1)..], next);
  }

  /** A suffix of a sorted list is sorted. */
  lemma SortedSuffix(s: seq<Entry>, k: nat)
    requires SortedByCount(s) && k <= |s|
    ensures SortedByCount(s[k..])
  {
  }

  /** A suffix of a list with distinct users has distinct users. */
  lemma DistinctSuffix(s: seq<Entry>, k: nat)
    requires DistinctUsers(s) && k <= |s|
    ensures DistinctUsers(s[k..])
  {
  }

  /** An entry of the first run gets the first rank, and no count is above its own. */
  lemma HitStep(s: seq<Entry>, start: nat, i: nat)
    requires SortedByCount(s)
    requires s != [] && i < RunLength(s, 1)
    ensures FindUser(TiedRankFrom(s, start), s[i].0).Some?
    ensures FindUser(TiedRankFrom(s, start), s[i].0).value.0 == start + |CountsAbove(s, s[i].1)|
    ensures FindUser(TiedRankFrom(s, start), s[i].0).value.1 == s[i].1
  {
    var k := RunLength(s, 1);
    assert Names(s[..k])[i] == s[i].0;
    GroupHit(s, start, s[i].0);
    assert CountsAbove(s, s[i].1) == {} by {
      forall e | e in s ensures e.1 <= s[i].1 {
        var j :| 0 <= j < |s| && s[j] == e;
      }
    }
  }

  /** An entry past the first run is searched for among the later groups. */
  lemma SkipFind(s: seq<Entry>, start: nat, next: nat, i: nat)
    requires next == start + 1
    requires DistinctUsers(s)
    requires s != [] && RunLength(s, 1) <= i < |s|
    ensures FindUser(TiedRankFrom(s, start), s[i].0) == FindUser(TiedRankFrom(s[RunLength(s, 1)..], next), s[i].0)
  {
    var k := RunLength(s, 1);
    assert forall j :: 0 <= j < k ==> Names(s[..k])[j] == s[j].0 != s[i].0;
    GroupSkip(s, start, next, s[i].0);
  }

  /** Above a count below the first run's, the counts are the first run's and those of the rest. */
  lemma AboveSplit(s: seq<Entry>, k: nat, c: nat)
    requires 0 < k <= |s| && c < s[0].1
    requires forall j :: 0 <= j < k ==> s[j].1 == s[0].1
    ensures CountsAbove(s, c) == CountsAbove(s[k..], c) + {s[0].1}
  {
    forall v | v in CountsAbove(s, c) ensures v in CountsAbove(s[k..], c) + {s[0].1} {
      var e :| e in s && e.1 > c && e.1 == v;
      var j :| 0 <= j < |s| && s[j] == e;
      if j >= k {
        assert s[k..][j - k] == e;
      }
    }
    assert s[0] in s;
  }

  /** The first run's count is above every count of the rest of a sorted list. */
  lemma AboveFresh(s: seq<Entry>, k: nat, c: nat)
    requires SortedByCount(s)
    requires 0 < k < |s| && s[k].1 != s[0].1
    ensures s[0].1 !in CountsAbove(s[k..], c)
  {
    forall e | e in s[k..] ensures e.1 < s[0].1 {
      var j :| 0 <= j < |s| - k && s[k..][j] == e;
      assert s[k + j].1 <= s[k].1;
    }
  }

  /** Past the first run, one more distinct count lies above an entry's. */
  lemma SkipAbove(s: seq<Entry>, i: nat)
    requires SortedByCount(s)
    requires s != [] && RunLength(s, 1) <= i < |s|
    ensures |CountsAbove(s, s[i].1)| == |CountsAbove(s[RunLength(s, 1)..], s[i].1)| + 1
  {
    var k := RunLength(s, 1);
    assert s[i].1 <= s[k].1 < s[0].1;
    AboveSplit(s, k, s[i].1);
    AboveFresh(s, k, s[i].1);
  }

  /** Over a sorted list with distinct users, the entry at `i` is found at
      rank `start` plus the number of distinct counts above its own. */
  lemma {:induction false} FindUserAt(s: seq<Entry>, start: nat, i: nat)
    requires SortedByCount(s) && DistinctUsers(s)
    requires i < |s|
    ensures FindUser(TiedRankFrom(s, start), s[i].0).Some?
    ensures FindUser(TiedRankFrom(s, start), s[i].0).value.0 == start + |CountsAbove(s, s[i].1)|
    ensures FindUser(TiedRankFrom(s, start), s[i].0).value.1 == s[i].1
    decreases |s|
  {
    var k := RunLength(s, 1);
    if i < k {
      HitStep(s, start, i);
    } else {
      var next := start + 1;
      var rest := s[k..];
      SkipFind(s, start, next, i);
      SkipAbove(s, i);
      SortedSuffix(s, k);
      DistinctSuffix(s, k);
      assert rest[i - k] == s[i];
      FindUserAt(rest, next, i - k);
    }
  }

  /** The distinct counts of `total` larger than `c`. */
  ghost function LargerCounts(total: Counter, c: nat): set<nat>
  {
    set k | k in total.counts && total.counts[k] > c :: total.counts[k]
  }

  /** A user is listed by `most_common()` exactly when it is a key of the counter. */
  lemma MostCommonNames(total: Counter, name: string)
    requires total.Valid()
    ensures name in Names(MostCommon(total)) <==> name in total.counts
  {
    MostCommonEntries(total);
    if name in Names(MostCommon(total)) {
      ListedIsKey(total, name);
    }
    if name in total.counts {
      KeyIsListed(total, name);
    }
  }

  /** A listed user is a key of the counter. */
  lemma ListedIsKey(total: Counter, name: string)
    requires total.Valid()
    requires name in Names(MostCommon(total))
    ensures name in total.counts
  {
    var s := MostCommon(total);
    MostCommonEntries(total);
    var i :| 0 <= i < |s| && Names(s)[i] == name;
    assert s[i] in s;
  }

  /** A key of the counter is listed. */
  lemma KeyIsListed(total: Counter, name: string)
    requires total.Valid()
    requires name in total.counts
    ensures name in Names(MostCommon(total))
  {
    var s := MostCommon(total);
    MostCommonEntries(total);
    assert (name, total.counts[name]) in s;
    var i :| 0 <= i < |s| && s[i] == (name, total.counts[name]);
    assert Names(s)[i] == name;
  }

  /** The distinct counts above `c` are the same in the counter and in `most_common()`. */
  lemma MostCommonAbove(total: Counter, c: nat)
    requires total.Valid()
    ensures CountsAbove(MostCommon(total), c) == LargerCounts(total, c)
  {
    var s := MostCommon(total);
    MostCommonEntries(total);
    forall v | v in LargerCounts(total, c) ensures v in CountsAbove(s, c) {
      var k :| k in total.counts && total.counts[k] > c && total.counts[k] == v;
      assert (k, v) in s;
    }
  }

  /** `_user_rank_by_line_type` reports a rank and count exactly for the
      users of the totals, compared lower-cased; the count is the user's total
      and the rank is one more than the number of distinct counts above it
      (dense ranking). */
  lemma UserRankCorrect(total: Counter, username: string)
    requires total.Valid()
    ensures UserRank(total, username).Some? <==> Lower(username) in total.counts
    ensures Lower(username) in total.counts ==>
      UserRank(total, username).value.1 == total.counts[Lower(username)] &&
      UserRank(total, username).value.0 == 1 + |LargerCounts(total, total.counts[Lower(username)])|
  {
    var name := Lower(username);
    FindUserIn(MostCommon(total), 1, name);
    MostCommonNames(total, name);
    if name in total.counts {
      KeyRank(total, name);
    }
  }

  /** A key of the counter is found with its count, ranked one past the
      distinct counts above it. */
  lemma KeyRank(total: Counter, name: string)
    requires total.Valid() && name in total.counts
    ensures FindUser(TiedRank(MostCommon(total)), name) ==
      Some((1 + |LargerCounts(total, total.counts[name])|, total.counts[name]))
  {
    var s := MostCommon(total);
    var c := total.counts[name];
    MostCommonIndex(total, name);
    MostCommonDistinct(total);
    var i :| 0 <= i < |s| && s[i] == (name, c);
    FindUserAt(s, 1, i);
    MostCommonAbove(total, c);
    var found := FindUser(TiedRankFrom(s, 1), name);
    var above := CountsAbove(s, c);
    assert s[i].1 == c && s[i].0 == name;
    assert found.value.0 == 1 + |above| && found.value.1 == c;
    assert above == LargerCounts(total, c);
    assert found == Some((1 + |above|, c));
    assert TiedRank(s) == TiedRankFrom(s, 1);
  }

  /** A key of the counter sits somewhere in `most_common()` with its count. */
  lemma MostCommonIndex(total: Counter, name: string)
    requires total.Valid() && name in total.counts
    ensures exists i :: 0 <= i < |MostCommon(total)| && MostCommon(total)[i] == (name, total.counts[name])
  {
    MostCommonEntries(total);
    assert (name, total.counts[name]) in MostCommon(total);
  }

  /** `most_common()` lists no user twice. */
  lemma MostCommonDistinct(total: Counter)
    requires total.Valid()
    ensures DistinctUsers(MostCommon(total))
  {
    MostCommonEntries(total);
  }

  /** A user found by the search belongs to a group with the reported rank and count. */
  lemma {:induction false} FindUserFound(gs: seq<Group>, name: string)
    requires FindUser(gs, name).Some?
    ensures exists i :: (0 <= i < |gs| && name in Names(gs[i].members) &&
      FindUser(gs, name).value == (gs[i].rank, gs[i].count))
  {
    if name !in Names(gs[0].members) {
      FindUserFound(gs[1..], name);
      var i :| 0 <= i < |gs| - 1 && name in Names(gs[1..][i].members) &&
        FindUser(gs[1..], name).value == (gs[1..][i].rank, gs[1..][i].count);
      assert gs[i + 1] == gs[1..][i];
    }
  }

  /** With `n` at least the number of users, the top-N groups are the full grouping. */
  lemma TopGroupsAll(total: Counter, n: int)
    requires total.Valid() && n >= |total.order|
    ensures TopGroups(total, n) == TiedRank(MostCommon(total))
  {
    MostCommonEntries(total);
    assert Take(MostCommon(total), n) == MostCommon(total);
  }

  /** The rank a lookup reports is that of the group holding the user in the
      listing of every user. */
  lemma UserRankInTopGroups(total: Counter, username: string, n: int)
    requires total.Valid() && n >= |total.order|
    requires UserRank(total, username).Some?
    ensures exists i :: (0 <= i < |TopGroups(total, n)| &&
      Lower(username) in Names(TopGroups(total, n)[i].members) &&
      UserRank(total, username).value == (TopGroups(total, n)[i].rank, TopGroups(total, n)[i].count))
  {
    TopGroupsAll(total, n);
    FindUserFound(TiedRank(MostCommon(total)), Lower(username));
  }

  /** `most_common(n)` keeps at most `n` users: the top-N groups hold exactly
      the first `min(n, number of users)` entries of the sorted list. */
  lemma TopGroupsEntries(total: Counter, n: int)
    requires total.Valid()
    ensures var m := if n <= 0 then 0 else if n < |total.order| then n else |total.order|;
      |MostCommon(total)| == |total.order| && Flatten(TopGroups(total, n)) == MostCommon(total)[..m]
  {
    MostCommonEntries(total);
    TiedRankFlatten(Take(MostCommon(total), n), 1);
  }

  /** The rank can be read back from a formatted line: its head up to the
      first '.' spells the rank. */
  lemma FormatGroupRank(g: Group)
    ensures DigitsValue(Stem(FormatGroup(g))) == g.rank
  {
    var digits := NatToString(g.rank);
    assert '.' !in digits by {
      forall i | 0 <= i < |digits| ensures digits[i] != '.' {
        assert IsDigit(digits[i]);
      }
    }
    var rest := " " + Join(Names(g.members), ", ") + " (" + NatToString(g.count) + ")";
    assert FormatGroup(g) == digits + "." + rest;
    StemOfDotted(digits, rest);
    NatToStringValue(g.rank);
  }

  /** `sorted` leaves a list already in descending order as it is. */
  lemma {:induction false} SortByCountSorted(s: seq<Entry>)
    requires SortedByCount(s)
    ensures SortByCount(s) == s
  {
    if s != [] {
      SortedSuffix(s, 1);
      SortByCountSorted(s[1..]);
      assert s == [s[0]] + s[1..];
    }
  }

  /** A run that ends at `k` has length `k`, counted from any point inside it. */
  lemma {:induction false} RunLengthExact(s: seq<Entry>, i: nat, k: nat)
    requires 0 < i <= k <= |s| && (k == |s| || s[k].1 != s[0].1)
    requires forall j :: 0 <= j < k ==> s[j].1 == s[0].1
    ensures RunLength(s, i) == k
    decreases k - i
  {
    if i < k {
      RunLengthExact(s, i + 1, k);
    }
  }

  /** One step of `groupby`: the first run becomes a group, the rest is
      grouped from the next rank on. */
  lemma {:induction false} TiedRankStep(s: seq<Entry>, start: nat, next: nat, k: nat)
    requires s != [] && next == start + 1
    requires 0 < k <= |s| && (k == |s| || s[k].1 != s[0].1)
    requires forall j :: 0 <= j < k ==> s[j].1 == s[0].1
    ensures TiedRankFrom(s, start) == [Group(start, s[0].1, s[..k])] + TiedRankFrom(s[k..], next)
  {
    RunLengthExact(s, 1, k);
  }

  /** A list made of two runs of equal counts forms two groups, ranked 1 and 2. */
  lemma TiedRankTwoRuns(s: seq<Entry>, k: nat)
    requires 0 < k < |s| && s[k].1 != s[0].1
    requires forall j :: 0 <= j < k ==> s[j].1 == s[0].1
    requires forall j :: k <= j < |s| ==> s[j].1 == s[k].1
    ensures TiedRank(s) == [Group(1, s[0].1, s[..k]), Group(2, s[k].1, s[k..])]
  {
    var rest := s[k..];
    TiedRankStep(rest, 2, 3, |rest|);
    assert rest[..|rest|] == rest;
    assert TiedRankFrom(rest[|rest|..], 3) == [];
    TiedRankStep(s, 1, 2, k);
  }

  /** A counter whose items are already in descending order lists them as they are. */
  lemma MostCommonOfSorted(total: Counter)
    requires total.Valid() && SortedByCount(total.Items())
    ensures MostCommon(total) == total.Items()
  {
    SortByCountSorted(total.Items());
  }

  /** The counter `{a: hi, b: hi, c: lo}` built in that order. */
  lemma ThreeUsers(a: string, b: string, c: string, hi: nat, lo: nat)
    requires a != b && b != c && a != c
    ensures var total := Counter([a, b, c], map[a := hi, b := hi, c := lo]);
      total.Valid() && total.Items() == [(a, hi), (b, hi), (c, lo)]
  {
  }

  /** With `hi > lo` the counter `{a: hi, b: hi, c: lo}` is listed as it is. */
  lemma ThreeUsersMostCommon(a: string, b: string, c: string, hi: nat, lo: nat)
    requires a != b && b != c && a != c && hi > lo
    ensures var total := Counter([a, b, c], map[a := hi, b := hi, c := lo]);
      total.Valid() && MostCommon(total) == [(a, hi), (b, hi), (c, lo)]
  {
    ThreeUsers(a, b, c, hi, lo);
    MostCommonOfSorted(Counter([a, b, c], map[a := hi, b := hi, c := lo]));
  }

  /** Two runs of counts give two groups with ranks 1 and 2. */
  lemma ThreeUsersGroups(a: string, b: string, c: string, hi: nat, lo: nat)
    requires hi > lo
    ensures TiedRank([(a, hi), (b, hi), (c, lo)]) == [Group(1, hi, [(a, hi), (b, hi)]), Group(2, lo, [(c, lo)])]
  {
    var s: seq<Entry> := [(a, hi), (b, hi), (c, lo)];
    TiedRankTwoRuns(s, 2);
    assert s[..2] == [(a, hi), (b, hi)] && s[2..] == [(c, lo)];
  }

  /** Users `a`, `b`, `c` with counts `{a: hi, b: hi, c: lo}`, `hi > lo`, rank
      `a` and `b` together first and `c` second (for example 5, 5, 3). */
  lemma TieExample(a: string, b: string, c: string, hi: nat, lo: nat)
    requires a != b && b != c && a != c && hi > lo
    ensures var total := Counter([a, b, c], map[a := hi, b := hi, c := lo]);
      total.Valid() &&
      TiedRank(MostCommon(total)) == [Group(1, hi, [(a, hi), (b, hi)]), Group(2, lo, [(c, lo)])]
  {
    ThreeUsersMostCommon(a, b, c, hi, lo);
    ThreeUsersGroups(a, b, c, hi, lo);
  }

  /** The counter `{a: hi, b: hi, c: hi, d: lo}` built in that order. */
  lemma FourUsers(a: string, b: string, c: string, d: string, hi: nat, lo: nat)
    requires a != b && a != c && a != d && b != c && b != d && c != d
    ensures var total := Counter([a, b, c, d], map[a := hi, b := hi, c := hi, d := lo]);
      total.Valid() && total.Items() == [(a, hi), (b, hi), (c, hi), (d, lo)]
  {
  }

  /** With `hi > lo` the counter `{a: hi, b: hi, c: hi, d: lo}` is listed as it is. */
  lemma FourUsersMostCommon(a: string, b: string, c: string, d: string, hi: nat, lo: nat)
    requires a != b && a != c && a != d && b != c && b != d && c != d && hi > lo
    ensures var total := Counter([a, b, c, d], map[a := hi, b := hi, c := hi, d := lo]);
      total.Valid() && MostCommon(total) == [(a, hi), (b, hi), (c, hi), (d, lo)]
  {
    FourUsers(a, b, c, d, hi, lo);
    MostCommonOfSorted(Counter([a, b, c, d], map[a := hi, b := hi, c := hi, d := lo]));
  }

  /** The first two of four entries with equal leading counts form one group. */
  lemma FourUsersTopTwo(a: string, b: string, c: string, d: string, hi: nat, lo: nat)
    ensures TiedRank(Take([(a, hi), (b, hi), (c, hi), (d, lo)], 2)) == [Group(1, hi, [(a, hi), (b, hi)])]
  {
    var top := Take([(a, hi), (b, hi), (c, hi), (d, lo)], 2);
    assert top == [(a, hi), (b, hi)];
    TiedRankOneRun(top);
  }

  /** Counts `[hi, hi, hi, lo]` with `n = 2` keep the first two tied users as a
      single rank-1 group: the list is cut before it is grouped (for example
      5, 5, 5, 3). */
  lemma TopNCutsTies(a: string, b: string, c: string, d: string, hi: nat, lo: nat)
    requires a != b && a != c && a != d && b != c && b != d && c != d && hi > lo
    ensures var total := Counter([a, b, c, d], map[a := hi, b := hi, c := hi, d := lo]);
      total.Valid() &&
      TopGroups(total, 2) == [Group(1, hi, [(a, hi), (b, hi)])]
  {
    FourUsersMostCommon(a, b, c, d, hi, lo);
    FourUsersTopTwo(a, b, c, d, hi, lo);
  }

  /** A list whose counts are all equal forms a single rank-1 group. */
  lemma TiedRankOneRun(s: seq<Entry>)
    requires s != []
    requires forall j :: 0 <= j < |s| ==> s[j].1 == s[0].1
    ensures TiedRank(s) == [Group(1, s[0].1, s)]
  {
    TiedRankStep(s, 1, 2, |s|);
    assert s[..|s|] == s;
    assert TiedRankFrom(s[|s|..], 2) == [];
  }
}
