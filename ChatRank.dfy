/** The log-ranking engine: the counts of every log file, kept in a cache for
    the life of the process, added up over the `logs` directory; the rank and
    top-n queries over those totals; the start date of the logs; and the
    series of daily counts behind the chat plot. */
module ChatRank {
  import opened Wrappers
  import opened Text
  import opened LineMatch
  import opened Counters
  import opened FileCount
  import opened Ranking
  import opened Calendar

  /** The `logs` directory: the names `os.listdir` returns, in its order, and
      the lines of each file. */
  datatype LogDir = LogDir(names: seq<string>, files: map<string, seq<string>>)

  /** `os.listdir` names each file once, and every listed file can be read. */
  predicate ValidDir(dir: LogDir)
  {
    && (forall i, j :: 0 <= i < j < |dir.names| ==> dir.names[i] != dir.names[j])
    && (forall n :: n in dir.names ==> n in dir.files)
  }

  /** `f'{datetime.date.today()}.log'`: the log still being written. */
  function TodayLog(today: Date): string
  {
    FormatIsoDate(today) + ".log"
  }

  // ---------------------------------------------------------------------
  // Adding up the counts of every file
  // ---------------------------------------------------------------------

  /** What counting each file of `names` gives, in order. */
  function FileTallies(dir: LogDir, names: seq<string>, lt: LineType): (r: seq<Result<Counter, CountError>>)
    requires forall n :: n in names ==> n in dir.files
    ensures |r| == |names|
    ensures forall i :: 0 <= i < |r| ==> r[i] == FileTally(dir.files[names[i]], lt)
  {
    seq(|names|, i requires 0 <= i < |names| => FileTally(dir.files[names[i]], lt))
  }

  /** Every successful count is a well-formed counter. */
  ghost predicate ValidTallies(ts: seq<Result<Counter, CountError>>)
  {
    forall i :: 0 <= i < |ts| && ts[i].Success? ==> ts[i].value.Valid()
  }

  /** The counts `ts` added up with `Counter.update` in order, or the failure
      of the first one that failed. */
  function AddUp(ts: seq<Result<Counter, CountError>>): (r: Result<Counter, CountError>)
    requires ValidTallies(ts)
    ensures r.Success? ==> r.value.Valid()
  {
    if ts == [] then Success(Empty())
    else
      match AddUp(ts[..|ts| - 1])
      case Failure(e) => Failure(e)
      case Success(total) =>
        match ts[|ts| - 1]
        case Failure(e) => Failure(e)
        case Success(c) => Success(Update(total, c))
  }

  /** What `_chat_rank_counts` returns: the counts of the listed files added
      up in listing order, or the failure of the first file that fails. */
  function RankTotals(dir: LogDir, lt: LineType): Result<Counter, CountError>
    requires ValidDir(dir)
  {
    AddUp(FileTallies(dir, dir.names, lt))
  }

  /** The sum over `ts` of the count of `u`. */
  ghost function GetSum(ts: seq<Result<Counter, CountError>>, u: string): nat
  {
    if ts == [] then 0
    else GetSum(ts[..|ts| - 1], u) + (if ts[|ts| - 1].Success? then ts[|ts| - 1].value.Get(u) else 0)
  }

  /** A counter built by counting lines holds no zero count. */
  ghost predicate Positive(c: Counter)
  {
    forall k :: k in c.counts ==> c.counts[k] > 0
  }

  /** The lines of the files `names` whose user lowers to `u`, over all of them. */
  ghost function LinesAcross(dir: LogDir, names: seq<string>, lt: LineType, u: string): nat
    requires forall n :: n in names ==> n in dir.files
  {
    if names == [] then 0
    else LinesAcross(dir, names[..|names| - 1], lt, u) + |LinesOf(dir.files[names[|names| - 1]], lt, u)|
  }

  /** The lines of the files `names` that the pattern matches. */
  ghost function MatchesAcross(dir: LogDir, names: seq<string>, lt: LineType): nat
    requires forall n :: n in names ==> n in dir.files
  {
    if names == [] then 0
    else MatchesAcross(dir, names[..|names| - 1], lt) + |MatchingLines(dir.files[names[|names| - 1]], lt)|
  }

  lemma FileTalliesValid(dir: LogDir, names: seq<string>, lt: LineType)
    requires forall n :: n in names ==> n in dir.files
    ensures ValidTallies(FileTallies(dir, names, lt))
  {
  }

  /** One more count: it is added to the totals so far. */
  lemma AddUpStep(ts: seq<Result<Counter, CountError>>, i: nat, total: Counter, c: Counter)
    requires i < |ts| && ValidTallies(ts)
    requires AddUp(ts[..i]) == Success(total) && ts[i] == Success(c)
    ensures AddUp(ts[..i + 1]) == Success(Update(total, c))
  {
    assert ts[..i + 1][..i] == ts[..i];
  }

  /** Once a count fails, the counts after it do not change the outcome. */
  lemma {:induction false} AddUpFailed(ts: seq<Result<Counter, CountError>>, k: nat)
    requires k <= |ts| && ValidTallies(ts)
    requires AddUp(ts[..k]).Failure?
    ensures AddUp(ts) == AddUp(ts[..k])
  {
    if k < |ts| {
      var prefix := ts[..|ts| - 1];
      assert prefix[..k] == ts[..k];
      AddUpFailed(prefix, k);
    } else {
      assert ts[..k] == ts;
    }
  }

  /** A count that fails makes the whole sum fail with its error. */
  lemma AddUpStops(ts: seq<Result<Counter, CountError>>, i: nat)
    requires i < |ts| && ValidTallies(ts)
    requires AddUp(ts[..i]).Success? && ts[i].Failure?
    ensures AddUp(ts) == Failure(ts[i].error)
  {
    assert ts[..i + 1][..i] == ts[..i];
    AddUpFailed(ts, i + 1);
  }

  /** Every count succeeded. */
  ghost predicate AllCounted(ts: seq<Result<Counter, CountError>>)
  {
    forall i :: 0 <= i < |ts| ==> ts[i].Success?
  }

  /** Adding up fails exactly when one of the counts failed. */
  lemma {:induction false} AddUpOutcome(ts: seq<Result<Counter, CountError>>)
    requires ValidTallies(ts)
    ensures AddUp(ts).Success? <==> AllCounted(ts)
  {
    if ts != [] {
      var prefix := ts[..|ts| - 1];
      AddUpOutcome(prefix);
      AddUpLast(ts);
      AllSucceedLast(ts, prefix);
    }
  }

  lemma AddUpLast(ts: seq<Result<Counter, CountError>>)
    requires ValidTallies(ts) && ts != []
    ensures AddUp(ts).Success? <==> AddUp(ts[..|ts| - 1]).Success? && ts[|ts| - 1].Success?
  {
  }

  lemma AllSucceedLast(ts: seq<Result<Counter, CountError>>, prefix: seq<Result<Counter, CountError>>)
    requires ts != [] && prefix == ts[..|ts| - 1]
    ensures AllCounted(ts) <==> AllCounted(prefix) && ts[|ts| - 1].Success?
  {
    assert forall i :: 0 <= i < |prefix| ==> prefix[i] == ts[i];
  }

  /** Each user's total is the sum of their counts. */
  lemma {:induction false} AddUpGet(ts: seq<Result<Counter, CountError>>, u: string)
    requires ValidTallies(ts) && AddUp(ts).Success?
    ensures AddUp(ts).value.Get(u) == GetSum(ts, u)
  {
    if ts != [] {
      var prefix := ts[..|ts| - 1];
      assert ValidTallies(prefix) by {
        forall i | 0 <= i < |prefix| ensures prefix[i] == ts[i] {
        }
      }
      AddUpGet(prefix, u);
      var last := ts[|ts| - 1];
      if last.Success? {
        assert AddUp(ts).value == Update(AddUp(prefix).value, last.value);
      }
    }
  }

  /** Adding up counters without zero counts gives no zero count. */
  lemma {:induction false} AddUpPositive(ts: seq<Result<Counter, CountError>>)
    requires ValidTallies(ts) && AddUp(ts).Success?
    requires forall i :: 0 <= i < |ts| && ts[i].Success? ==> Positive(ts[i].value)
    ensures Positive(AddUp(ts).value)
  {
    if ts != [] {
      var prefix := ts[..|ts| - 1];
      assert ValidTallies(prefix) && forall i :: 0 <= i < |prefix| && prefix[i].Success? ==> Positive(prefix[i].value) by {
        forall i | 0 <= i < |prefix| ensures prefix[i] == ts[i] {
        }
      }
      AddUpPositive(prefix);
      var last := ts[|ts| - 1];
      if last.Success? {
        var total := AddUp(prefix).value;
        var r := Update(total, last.value);
        assert AddUp(ts).value == r;
        forall k | k in r.counts ensures r.counts[k] > 0 {
          assert k in r.counts.Keys;
          assert k in total.counts || k in last.value.counts;
          assert r.counts[k] == r.Get(k) == total.Get(k) + last.value.Get(k);
        }
      }
    }
  }

  /** The totals of all users add up to the totals of the counts. */
  lemma {:induction false} AddUpTotal(ts: seq<Result<Counter, CountError>>)
    requires ValidTallies(ts) && AddUp(ts).Success?
    ensures Total(AddUp(ts).value) == TotalSum(ts)
  {
    if ts != [] {
      var prefix := ts[..|ts| - 1];
      AddUpTotal(prefix);
      UpdateTotal(AddUp(prefix).value, ts[|ts| - 1].value);
    }
  }

  /** The sum over `ts` of the totals of the counts. */
  ghost function TotalSum(ts: seq<Result<Counter, CountError>>): nat
  {
    if ts == [] then 0
    else TotalSum(ts[..|ts| - 1]) + (if ts[|ts| - 1].Success? then Total(ts[|ts| - 1].value) else 0)
  }

  lemma FileTalliesPrefix(dir: LogDir, names: seq<string>, lt: LineType, k: nat)
    requires k <= |names| && forall n :: n in names ==> n in dir.files
    ensures FileTallies(dir, names, lt)[..k] == FileTallies(dir, names[..k], lt)
  {
  }

  /** Summed over the files, the counts of `u` are the lines of `u`. */
  lemma {:induction false} FileTalliesLines(dir: LogDir, names: seq<string>, lt: LineType, u: string)
    requires forall n :: n in names ==> n in dir.files
    requires AllCounted(FileTallies(dir, names, lt))
    ensures GetSum(FileTallies(dir, names, lt), u) == LinesAcross(dir, names, lt, u)
  {
    if names != [] {
      var k := |names| - 1;
      var ts := FileTallies(dir, names, lt);
      FileTalliesPrefix(dir, names, lt, k);
      var prefix := FileTallies(dir, names[..k], lt);
      assert AllCounted(prefix) by {
        forall i | 0 <= i < k ensures prefix[i].Success? {
          assert prefix[i] == ts[i];
        }
      }
      FileTalliesLines(dir, names[..k], lt, u);
      FileTallyCounts(dir.files[names[k]], lt, u);
      assert ts[..k] == prefix;
      assert GetSum(ts, u) == GetSum(prefix, u) + ts[k].value.Get(u);
    }
  }

  /** Every count of every file is positive. */
  lemma FileTalliesPositive(dir: LogDir, names: seq<string>, lt: LineType)
    requires forall n :: n in names ==> n in dir.files
    ensures forall i :: 0 <= i < |names| && FileTallies(dir, names, lt)[i].Success? ==>
      Positive(FileTallies(dir, names, lt)[i].value)
  {
    var ts := FileTallies(dir, names, lt);
    forall i | 0 <= i < |names| && ts[i].Success? ensures Positive(ts[i].value) {
      FileTallyPositive(dir.files[names[i]], lt);
    }
  }

  /** Summed over the files, the totals are the matching lines. */
  lemma {:induction false} FileTalliesMatches(dir: LogDir, names: seq<string>, lt: LineType)
    requires forall n :: n in names ==> n in dir.files
    requires AllCounted(FileTallies(dir, names, lt))
    ensures TotalSum(FileTallies(dir, names, lt)) == MatchesAcross(dir, names, lt)
  {
    if names != [] {
      var k := |names| - 1;
      FileTalliesPrefix(dir, names, lt, k);
      FileTalliesMatches(dir, names[..k], lt);
      FileTallyTotal(dir.files[names[k]], lt);
    }
  }

  /** Adding up fails exactly when counting one of the files fails. */
  lemma RankTotalsOutcome(dir: LogDir, lt: LineType)
    requires ValidDir(dir)
    ensures RankTotals(dir, lt).Success? <==>
      forall i :: 0 <= i < |dir.names| ==> FileTally(dir.files[dir.names[i]], lt).Success?
  {
    var ts := FileTallies(dir, dir.names, lt);
    FileTalliesValid(dir, dir.names, lt);
    AddUpOutcome(ts);
    assert AllCounted(ts) <==>
      forall i :: 0 <= i < |dir.names| ==> FileTally(dir.files[dir.names[i]], lt).Success?;
  }

  /** A user's total is the number of their lines over all the logs, and they
      have a total exactly when they have such a line. */
  lemma RankTotalsCounts(dir: LogDir, lt: LineType, u: string)
    requires ValidDir(dir) && RankTotals(dir, lt).Success?
    ensures RankTotals(dir, lt).value.Get(u) == LinesAcross(dir, dir.names, lt, u)
    ensures u in RankTotals(dir, lt).value.counts <==> LinesAcross(dir, dir.names, lt, u) > 0
  {
    var ts := FileTallies(dir, dir.names, lt);
    FileTalliesValid(dir, dir.names, lt);
    AddUpOutcome(ts);
    FileTalliesLines(dir, dir.names, lt, u);
    FileTalliesPositive(dir, dir.names, lt);
    AddUpGet(ts, u);
    AddUpPositive(ts);
  }

  /** The counts of all users add up to the number of matching lines. */
  lemma RankTotalsTotal(dir: LogDir, lt: LineType)
    requires ValidDir(dir) && RankTotals(dir, lt).Success?
    ensures Total(RankTotals(dir, lt).value) == MatchesAcross(dir, dir.names, lt)
  {
    var ts := FileTallies(dir, dir.names, lt);
    FileTalliesValid(dir, dir.names, lt);
    AddUpOutcome(ts);
    FileTalliesMatches(dir, dir.names, lt);
    AddUpTotal(ts);
  }

  // ---------------------------------------------------------------------
  // The cache of `_counts_per_file`
  // ---------------------------------------------------------------------

  /** The stored counters of the cache, by file name and pattern. */
  type Entries = map<(string, LineType), Counter>

  /** Every counter of `m0` is still in `m1`, unchanged. */
  ghost predicate Extends(m0: Entries, m1: Entries)
  {
    forall key :: key in m0 ==> key in m1 && m1[key] == m0[key]
  }

  /** Every counter of `m1` that `m0` lacks is for `lt` and for a name of
      `names` other than `skip`. */
  ghost predicate AddsOnly(m0: Entries, m1: Entries, names: seq<string>, lt: LineType, skip: string)
  {
    forall key :: key in m1 && key !in m0 ==> key.0 in names && key.0 != skip && key.1 == lt
  }

  /** Every name of `names` other than `skip` has a counter for `lt` in `m`. */
  ghost predicate Stored(m: Entries, names: seq<string>, lt: LineType, skip: string)
  {
    forall n :: n in names && n != skip ==> (n, lt) in m
  }

  /** A step that keeps every counter and adds one only for `names[i]` keeps
      the counters of the whole loop so far, and adds only names of `names`. */
  lemma CacheGrows(m0: Entries, before: Entries, after: Entries, names: seq<string>, i: nat, lt: LineType, skip: string)
    requires i < |names|
    requires Extends(m0, before) && AddsOnly(m0, before, names, lt, skip)
    requires Extends(before, after) && AddsOnly(before, after, [names[i]], lt, skip)
    ensures Extends(m0, after) && AddsOnly(m0, after, names, lt, skip)
  {
  }

  /** Every name of `names` before index `i`, other than `skip`, has a counter
      for `lt` in `m`. */
  ghost predicate StoredUpTo(m: Entries, names: seq<string>, i: nat, lt: LineType, skip: string)
  {
    forall j :: 0 <= j < i && j < |names| && names[j] != skip ==> (names[j], lt) in m
  }

  /** When the names before `i` are stored and the step keeps them and stores
      `names[i]`, the names up to and including `i` are stored. */
  lemma StoredStep(before: Entries, after: Entries, names: seq<string>, i: nat, lt: LineType, skip: string)
    requires i < |names|
    requires StoredUpTo(before, names, i, lt, skip) && Extends(before, after)
    requires Stored(after, [names[i]], lt, skip)
    ensures StoredUpTo(after, names, i + 1, lt, skip)
  {
    forall j | 0 <= j < i + 1 && names[j] != skip ensures (names[j], lt) in after {
      if j < i {
        assert (names[j], lt) in before;
      } else {
        assert names[j] in [names[i]];
      }
    }
  }

  /** Names stored up to the end of the list are all stored. */
  lemma StoredAll(m: Entries, names: seq<string>, lt: LineType, skip: string)
    requires StoredUpTo(m, names, |names|, lt, skip)
    ensures Stored(m, names, lt, skip)
  {
    forall n | n in names && n != skip ensures (n, lt) in m {
      var j :| 0 <= j < |names| && names[j] == n;
    }
  }

  /** Counters added only for names of `a` are added only for names of any
      list `b` with the same names. */
  lemma SameNames(m0: Entries, m1: Entries, a: seq<string>, b: seq<string>, lt: LineType, skip: string)
    requires forall n :: n in a <==> n in b
    requires AddsOnly(m0, m1, a, lt, skip)
    ensures AddsOnly(m0, m1, b, lt, skip)
  {
  }

  /** `functools.lru_cache(maxsize=None)` around `_counts_per_file`: one counter
      per file name and pattern, kept for the life of the process. */
  class CountCache {
    var entries: Entries

    /** Every stored counter of a file still present, other than the file
        `skip`, is what counting that file gives now. Nothing is assumed of an
        entry for `skip`: it may be stale. */
    ghost predicate AgreesBut(dir: LogDir, skip: string)
      reads this
    {
      forall key :: key in entries && key.0 in dir.files && key.0 != skip ==>
        FileTally(dir.files[key.0], key.1) == Success(entries[key])
    }

    constructor()
      ensures entries == map[]
    {
      entries := map[];
    }

    /** `_counts_per_file(filename, reg)`: a hit returns the stored counter; a
        miss counts the file and stores the counter, but stores nothing when
        counting fails, as the cache does not keep exceptions. */
    method CountsPerFileCached(dir: LogDir, name: string, lt: LineType) returns (r: Result<Counter, CountError>)
      requires name in dir.files
      modifies this
      ensures (name, lt) in old(entries) ==> r == Success(old(entries)[(name, lt)]) && entries == old(entries)
      ensures (name, lt) !in old(entries) ==> r == FileTally(dir.files[name], lt)
      ensures (name, lt) !in old(entries) ==>
        entries == if r.Success? then old(entries)[(name, lt) := r.value] else old(entries)
      ensures forall skip :: old(AgreesBut(dir, skip)) && name != skip ==>
        r == FileTally(dir.files[name], lt) && AgreesBut(dir, skip)
    {
      if (name, lt) in entries {
        r := Success(entries[(name, lt)]);
      } else {
        r := CountsPerFile(dir.files[name], lt);
        if r.Success? {
          entries := entries[(name, lt) := r.value];
        }
      }
    }
  }

  /** One file of `_chat_rank_counts`: counted through the cache, or afresh
      and without touching the cache when it is today's log. */
  method CountLogFile(cache: CountCache, dir: LogDir, name: string, lt: LineType, today: Date)
    returns (counts: Result<Counter, CountError>)
    requires name in dir.files && cache.AgreesBut(dir, TodayLog(today))
    modifies cache
    ensures counts == FileTally(dir.files[name], lt)
    ensures cache.AgreesBut(dir, TodayLog(today))
    ensures Extends(old(cache.entries), cache.entries)
    ensures AddsOnly(old(cache.entries), cache.entries, [name], lt, TodayLog(today))
    ensures counts.Success? ==> Stored(cache.entries, [name], lt, TodayLog(today))
  {
    if name != TodayLog(today) {
      counts := cache.CountsPerFileCached(dir, name, lt);
    } else {
      counts := CountsPerFile(dir.files[name], lt);
    }
  }

  /** `_chat_rank_counts(reg)`: every file of the directory counted, through the
      cache except for today's log, which is counted afresh and never stored.
      A file whose count fails stops the loop with that failure. */
  method ChatRankCounts(cache: CountCache, dir: LogDir, lt: LineType, today: Date) returns (r: Result<Counter, CountError>)
    requires ValidDir(dir) && cache.AgreesBut(dir, TodayLog(today))
    modifies cache
    ensures r == RankTotals(dir, lt)
    ensures cache.AgreesBut(dir, TodayLog(today))
    ensures Extends(old(cache.entries), cache.entries)
    ensures AddsOnly(old(cache.entries), cache.entries, dir.names, lt, TodayLog(today))
    ensures r.Success? ==> Stored(cache.entries, dir.names, lt, TodayLog(today))
  {
    ghost var ts := FileTallies(dir, dir.names, lt);
    FileTalliesValid(dir, dir.names, lt);
    var total := Empty();
    var i := 0;
    while i < |dir.names|
      invariant 0 <= i <= |dir.names|
      invariant AddUp(ts[..i]) == Success(total)
      invariant cache.AgreesBut(dir, TodayLog(today))
      invariant Extends(old(cache.entries), cache.entries)
      invariant AddsOnly(old(cache.entries), cache.entries, dir.names, lt, TodayLog(today))
      invariant StoredUpTo(cache.entries, dir.names, i, lt, TodayLog(today))
    {
      ghost var before := cache.entries;
      var counts := CountLogFile(cache, dir, dir.names[i], lt, today);
      CacheGrows(old(cache.entries), before, cache.entries, dir.names, i, lt, TodayLog(today));
      if counts.Failure? {
        AddUpStops(ts, i);
        return Failure(counts.error);
      }
      AddUpStep(ts, i, total, counts.value);
      total := Update(total, counts.value);
      StoredStep(before, cache.entries, dir.names, i, lt, TodayLog(today));
      i := i + 1;
    }
    assert ts[..i] == ts;
    StoredAll(cache.entries, dir.names, lt, TodayLog(today));
    r := Success(total);
  }

  /** `_user_rank_by_line_type(username, reg)`: the rank and count of the user
      in the totals, `None` when they have no line, or the failure of counting. */
  method UserRankByLineType(cache: CountCache, dir: LogDir, username: string, lt: LineType, today: Date)
    returns (r: Result<Option<(nat, nat)>, CountError>)
    requires ValidDir(dir) && cache.AgreesBut(dir, TodayLog(today))
    modifies cache
    ensures cache.AgreesBut(dir, TodayLog(today))
    ensures Extends(old(cache.entries), cache.entries)
    ensures AddsOnly(old(cache.entries), cache.entries, dir.names, lt, TodayLog(today))
    ensures RankTotals(dir, lt).Success? ==> Stored(cache.entries, dir.names, lt, TodayLog(today))
    ensures RankTotals(dir, lt).Failure? ==> r == Failure(RankTotals(dir, lt).error)
    ensures RankTotals(dir, lt).Success? ==>
      r == Success(UserRank(RankTotals(dir, lt).value, username))
  {
    var total := ChatRankCounts(cache, dir, lt, today);
    if total.Failure? {
      return Failure(total.error);
    }
    r := Success(UserRank(total.value, username));
  }

  /** `_top_n_rank_by_line_type(reg, n)`: one line `rank. names (count)` for each
      group of the `n` largest totals, or the failure of counting. */
  method TopNRankByLineType(cache: CountCache, dir: LogDir, lt: LineType, n: int, today: Date)
    returns (r: Result<seq<string>, CountError>)
    requires ValidDir(dir) && cache.AgreesBut(dir, TodayLog(today))
    modifies cache
    ensures cache.AgreesBut(dir, TodayLog(today))
    ensures Extends(old(cache.entries), cache.entries)
    ensures AddsOnly(old(cache.entries), cache.entries, dir.names, lt, TodayLog(today))
    ensures RankTotals(dir, lt).Success? ==> Stored(cache.entries, dir.names, lt, TodayLog(today))
    ensures RankTotals(dir, lt).Failure? ==> r == Failure(RankTotals(dir, lt).error)
    ensures RankTotals(dir, lt).Success? ==>
      var groups := TopGroups(RankTotals(dir, lt).value, n);
      r.Success? && |r.value| == |groups| &&
      forall i :: 0 <= i < |groups| ==> r.value[i] == FormatGroup(groups[i])
  {
    var total := ChatRankCounts(cache, dir, lt, today);
    if total.Failure? {
      return Failure(total.error);
    }
    var userList := FormatRanking(TopGroups(total.value, n));
    r := Success(userList);
  }

  /** Over the whole directory, a user is ranked one more than the number of
      distinct larger totals, with the number of their lines in all the logs as
      their count; a user without a line is not found. */
  lemma UserRankOfLogs(dir: LogDir, username: string, lt: LineType)
    requires ValidDir(dir) && RankTotals(dir, lt).Success?
    ensures var total := RankTotals(dir, lt).value;
      && (UserRank(total, username).Some? <==> LinesAcross(dir, dir.names, lt, Lower(username)) > 0)
      && (UserRank(total, username).Some? ==>
            && UserRank(total, username).value.1 == LinesAcross(dir, dir.names, lt, Lower(username))
            && UserRank(total, username).value.0 == 1 + |LargerCounts(total, UserRank(total, username).value.1)|)
  {
    var total := RankTotals(dir, lt).value;
    RankTotalsCounts(dir, lt, Lower(username));
    UserRankCorrect(total, username);
  }

  // ---------------------------------------------------------------------
  // The start of the logs
  // ---------------------------------------------------------------------

  /** `_log_start_date()`: the part before the first `.` of the least file name;
      `None` for the `ValueError` of `min` on an empty directory. */
  function LogStartDate(dir: LogDir): (r: Option<string>)
    ensures r.None? <==> dir.names == []
    ensures r.Some? ==> exists n :: (n in dir.names && r.value == Stem(n) &&
      forall m :: m in dir.names ==> LexLe(n, m))
  {
    match MinName(dir.names)
    case None => None
    case Some(first) => Some(Stem(first))
  }

  /** The start date is read off the first file name in sorted order. */
  lemma LogStartIsFirstSorted(dir: LogDir)
    requires dir.names != []
    ensures LogStartDate(dir) == Some(Stem(SortNames(dir.names)[0]))
  {
    MinIsFirstSorted(dir.names);
  }

  // ---------------------------------------------------------------------
  // The series of the chat plot
  // ---------------------------------------------------------------------

  /** Why `cmd_chatplot` draws no plot: `min` of an empty directory, a file
      name whose head `date.fromisoformat` refuses, a count that fails, or
      fewer than two days of data. */
  datatype PlotError = NoLogs | BadDate(text: string) | CountFailed(error: CountError) | NotEnoughData

  /** One day of the plot: the days since the start of the logs, and the
      user's lines in that day's log. */
  type Point = (int, nat)

  /** `date.fromisoformat(filename.split('.')[0])`. */
  function NameDate(name: string): (r: Option<Date>)
    ensures r.Some? ==> ValidDate(r.value)
  {
    ParseIsoDate(Stem(name))
  }

  /** The point of a log other than today's, or the error that stops the loop. */
  function DayPoint(dir: LogDir, name: string, u: string, start: Date): Result<Point, PlotError>
    requires name in dir.files && ValidDate(start)
  {
    match NameDate(name)
    case None => Failure(BadDate(Stem(name)))
    case Some(d) =>
      match FileTally(dir.files[name], ChatLine)
      case Failure(e) => Failure(CountFailed(e))
      case Success(c) => Success((DaysBetween(d, start), c.Get(u)))
  }

  /** What each of `names` gives the loop: nothing for today's log, which is
      skipped, and the day's point or error for the others. */
  function DayPoints(dir: LogDir, names: seq<string>, u: string, start: Date, today: Date)
    : (r: seq<Option<Result<Point, PlotError>>>)
    requires ValidDate(start) && forall n :: n in names ==> n in dir.files
    ensures |r| == |names|
    ensures forall i :: 0 <= i < |r| ==>
      r[i] == if names[i] == TodayLog(today) then None else Some(DayPoint(dir, names[i], u, start))
  {
    seq(|names|, i requires 0 <= i < |names| =>
      if names[i] == TodayLog(today) then None else Some(DayPoint(dir, names[i], u, start)))
  }

  /** The points in order, or the first error. */
  function Collect(ps: seq<Option<Result<Point, PlotError>>>): Result<seq<Point>, PlotError>
  {
    if ps == [] then Success([])
    else
      match Collect(ps[..|ps| - 1])
      case Failure(e) => Failure(e)
      case Success(rows) =>
        match ps[|ps| - 1]
        case None => Success(rows)
        case Some(Failure(e)) => Failure(e)
        case Some(Success(p)) => Success(rows + [p])
  }

  /** The position of the first point with a count, or `|rows|`. */
  function FirstCounted(rows: seq<Point>): (k: nat)
    ensures k <= |rows|
    ensures forall j :: 0 <= j < k ==> rows[j].1 == 0
    ensures k < |rows| ==> rows[k].1 != 0
  {
    if rows == [] || rows[0].1 != 0 then 0 else 1 + FirstCounted(rows[1..])
  }

  /** The points the loop keeps: `if x or counts[user]` drops the days before
      the user's first line. */
  function Kept(rows: seq<Point>): seq<Point>
  {
    rows[FirstCounted(rows)..]
  }

  /** `zip(x, y)`. */
  function Zip(x: seq<int>, y: seq<nat>): (r: seq<Point>)
    ensures |r| == if |x| < |y| then |x| else |y|
    ensures forall i :: 0 <= i < |r| ==> r[i] == (x[i], y[i])
  {
    var n := if |x| < |y| then |x| else |y|;
    seq(n, i requires 0 <= i < n => (x[i], y[i]))
  }

  /** The series `cmd_chatplot` plots for `user`: the start date is read off
      the least file name, every log but today's is taken in sorted order, and
      the days before the user's first line are dropped. */
  function PlotSeries(dir: LogDir, user: string, today: Date): Result<seq<Point>, PlotError>
    requires ValidDir(dir)
  {
    match LogStartDate(dir)
    case None => Failure(NoLogs)
    case Some(first) =>
      match ParseIsoDate(first)
      case None => Failure(BadDate(first))
      case Some(start) =>
        SortNamesMembers(dir.names);
        match Collect(DayPoints(dir, SortNames(dir.names), Lower(user), start, today))
        case Failure(e) => Failure(e)
        case Success(rows) =>
          if |Kept(rows)| < 2 then Failure(NotEnoughData) else Success(Kept(rows))
  }

  /** The data set of the scatter chart: the days on which the user chatted. */
  function Scatter(x: seq<int>, y: seq<nat>): (r: seq<Point>)
    ensures forall p :: p in r <==> p in Zip(x, y) && p.1 != 0
    decreases |x|
  {
    if x == [] || y == [] then []
    else
      assert Zip(x, y) == [(x[0], y[0])] + Zip(x[1..], y[1..]);
      (if y[0] != 0 then [(x[0], y[0])] else []) + Scatter(x[1..], y[1..])
  }

  /** `f` lists, in increasing order, one index of `z` per element of `r`,
      and each element of `r` is the point of `z` at its index. */
  ghost predicate Picks(r: seq<Point>, z: seq<Point>, f: seq<nat>)
  {
    |f| == |r|
    && (forall k :: 0 <= k < |f| ==> f[k] < |z| && r[k] == z[f[k]])
    && (forall k, l :: 0 <= k < l < |f| ==> f[k] < f[l])
  }

  /** Every point of `z` with a non-zero count has its index in `f`. */
  ghost predicate Covers(z: seq<Point>, f: seq<nat>)
  {
    forall i :: 0 <= i < |z| && z[i].1 != 0 ==> i in f
  }

  /** The indices `f` of the points kept from a zip with `p` put in front:
      index 0 when `p` is kept, then every index of `g` moved up by one. */
  function ConsIndices(p: Point, g: seq<nat>): (f: seq<nat>)
    ensures |f| == |g| + (if p.1 != 0 then 1 else 0)
  {
    (if p.1 != 0 then [0] else []) + seq(|g|, k requires 0 <= k < |g| => g[k] + 1)
  }

  /** Putting `p` in front of the zip and, when its count is non-zero, of the
      kept points keeps the kept points an ordered pick of the zip. */
  lemma PicksCons(p: Point, s: seq<Point>, tail: seq<Point>, g: seq<nat>)
    requires Picks(s, tail, g)
    ensures Picks((if p.1 != 0 then [p] else []) + s, [p] + tail, ConsIndices(p, g))
  {
    var f := ConsIndices(p, g);
    var r := (if p.1 != 0 then [p] else []) + s;
    var z := [p] + tail;
    var n := if p.1 != 0 then 1 else 0;
    assert |f| == |r|;
    forall k | 0 <= k < |f| ensures f[k] < |z| && r[k] == z[f[k]] {
      if k < n {
        assert f[k] == 0 && r[k] == p;
      } else {
        assert f[k] == g[k - n] + 1 && r[k] == s[k - n];
        assert z[g[k - n] + 1] == tail[g[k - n]];
      }
    }
    forall k, l | 0 <= k < l < |f| ensures f[k] < f[l] {
      assert f[l] == g[l - n] + 1;
      if k >= n {
        assert f[k] == g[k - n] + 1;
      } else {
        assert f[k] == 0;
      }
    }
  }

  /** Putting `p` in front of the zip keeps every point with a non-zero count
      picked. */
  lemma CoversCons(p: Point, tail: seq<Point>, g: seq<nat>)
    requires Covers(tail, g)
    ensures Covers([p] + tail, ConsIndices(p, g))
  {
    var z := [p] + tail;
    var f := ConsIndices(p, g);
    var h: seq<nat> := if p.1 != 0 then [0] else [];
    forall i | 0 <= i < |z| && z[i].1 != 0 ensures i in f {
      if i > 0 {
        assert tail[i - 1] == z[i];
        var k :| 0 <= k < |g| && g[k] == i - 1;
        assert f[|h| + k] == i;
      } else {
        assert f[0] == 0;
      }
    }
  }

  /** The chart keeps the days with a non-zero count in the order of the
      series and each of them once: it is the subsequence of the zip made of
      exactly those points. */
  lemma {:induction false} ScatterInOrder(x: seq<int>, y: seq<nat>)
    ensures exists f :: Picks(Scatter(x, y), Zip(x, y), f) && Covers(Zip(x, y), f)
    decreases |x|
  {
    if x == [] || y == [] {
      assert Picks(Scatter(x, y), Zip(x, y), []) && Covers(Zip(x, y), []);
    } else {
      var p := (x[0], y[0]);
      var tail := Zip(x[1..], y[1..]);
      assert Zip(x, y) == [p] + tail;
      assert Scatter(x, y) == (if p.1 != 0 then [p] else []) + Scatter(x[1..], y[1..]);
      ScatterInOrder(x[1..], y[1..]);
      var g :| Picks(Scatter(x[1..], y[1..]), tail, g) && Covers(tail, g);
      PicksCons(p, Scatter(x[1..], y[1..]), tail, g);
      CoversCons(p, tail, g);
    }
  }

  /** Appending to both lists appends their pair to the zip. */
  lemma ZipSnoc(x: seq<int>, y: seq<nat>, p: Point)
    requires |x| == |y|
    ensures Zip(x + [p.0], y + [p.1]) == Zip(x, y) + [p]
  {
  }

  lemma CollectSkip(ps: seq<Option<Result<Point, PlotError>>>, i: nat, rows: seq<Point>)
    requires i < |ps| && Collect(ps[..i]) == Success(rows) && ps[i].None?
    ensures Collect(ps[..i + 1]) == Success(rows)
  {
    assert ps[..i + 1][..i] == ps[..i];
  }

  lemma CollectStep(ps: seq<Option<Result<Point, PlotError>>>, i: nat, rows: seq<Point>, p: Point)
    requires i < |ps| && Collect(ps[..i]) == Success(rows) && ps[i] == Some(Success(p))
    ensures Collect(ps[..i + 1]) == Success(rows + [p])
  {
    assert ps[..i + 1][..i] == ps[..i];
  }

  /** Once a file fails, the files after it do not change the outcome. */
  lemma {:induction false} CollectFailed(ps: seq<Option<Result<Point, PlotError>>>, k: nat)
    requires k <= |ps| && Collect(ps[..k]).Failure?
    ensures Collect(ps) == Collect(ps[..k])
  {
    if k < |ps| {
      var prefix := ps[..|ps| - 1];
      assert prefix[..k] == ps[..k];
      CollectFailed(prefix, k);
    } else {
      assert ps[..k] == ps;
    }
  }

  lemma CollectStops(ps: seq<Option<Result<Point, PlotError>>>, i: nat)
    requires i < |ps| && Collect(ps[..i]).Success? && ps[i].Some? && ps[i].value.Failure?
    ensures Collect(ps) == Failure(ps[i].value.error)
  {
    assert ps[..i + 1][..i] == ps[..i];
    CollectFailed(ps, i + 1);
  }

  /** One more point: it is kept once a point has been kept, or when it has
      a count. */
  lemma KeptStep(rows: seq<Point>, p: Point)
    ensures Kept(rows + [p]) == if Kept(rows) != [] || p.1 != 0 then Kept(rows) + [p] else []
  {
    var k := FirstCounted(rows);
    var s := rows + [p];
    if k < |rows| {
      FirstCountedOf(s, k);
    } else if p.1 != 0 {
      FirstCountedOf(s, |rows|);
    } else {
      assert FirstCounted(s) == |s|;
    }
  }

  /** `FirstCounted` is the one position with no count before it and a
      count at it. */
  lemma FirstCountedOf(rows: seq<Point>, k: nat)
    requires k < |rows| && rows[k].1 != 0
    requires forall j :: 0 <= j < k ==> rows[j].1 == 0
    ensures FirstCounted(rows) == k
  {
  }

  /** What the loop keeps starts at the user's first line, and drops only
      days without one. */
  lemma KeptStartsCounted(rows: seq<Point>)
    ensures Kept(rows) != [] ==> Kept(rows)[0].1 != 0
    ensures forall j :: 0 <= j < |rows| - |Kept(rows)| ==> rows[j].1 == 0
    ensures Kept(rows) == rows[|rows| - |Kept(rows)|..]
  {
  }

  /** A point is the log's day counted from the start date, and the number
      of chat lines in it whose user lowers to `u`. */
  lemma DayPointMeaning(dir: LogDir, name: string, u: string, start: Date)
    requires name in dir.files && ValidDate(start) && DayPoint(dir, name, u, start).Success?
    ensures NameDate(name).Some?
    ensures DayPoint(dir, name, u, start).value ==
      (DaysBetween(NameDate(name).value, start), |LinesOf(dir.files[name], ChatLine, u)|)
  {
    FileTallyCounts(dir.files[name], ChatLine, u);
  }

  /** A name whose head parses as a date begins with that date written out. */
  lemma NameStartsWithDate(name: string)
    requires NameDate(name).Some?
    ensures name == FormatIsoDate(NameDate(name).value) + name[|Stem(name)|..]
  {
    FormatParse(Stem(name));
  }

  /** Log names in sorted order carry dates in order, so `sorted(os.listdir())`
      walks the days forward. */
  lemma NameDateOrder(n1: string, n2: string)
    requires NameDate(n1).Some? && NameDate(n2).Some?
    ensures LexLe(n1, n2) ==> Ordinal(NameDate(n1).value) <= Ordinal(NameDate(n2).value)
  {
    NameStartsWithDate(n1);
    NameStartsWithDate(n2);
    IsoOrder(NameDate(n1).value, NameDate(n2).value, n1[|Stem(n1)|..], n2[|Stem(n2)|..]);
  }

  /** The loop reaches `ps[i]` and it yields a point. */
  predicate Yields(ps: seq<Option<Result<Point, PlotError>>>, i: int)
  {
    0 <= i < |ps| && ps[i].Some? && ps[i].value.Success?
  }

  /** Every point collected is yielded by some file. */
  lemma {:induction false} CollectFrom(ps: seq<Option<Result<Point, PlotError>>>, k: nat)
    requires Collect(ps).Success? && k < |Collect(ps).value|
    ensures exists i :: Yields(ps, i) && ps[i].value.value == Collect(ps).value[k]
  {
    var m := |ps| - 1;
    var prefix := ps[..m];
    var rows := Collect(prefix).value;
    if k < |rows| {
      CollectFrom(prefix, k);
      var i :| Yields(prefix, i) && prefix[i].value.value == rows[k];
      assert Yields(ps, i);
    } else {
      assert Yields(ps, m);
    }
  }

  /** Every point a file yields is collected. */
  lemma {:induction false} CollectTo(ps: seq<Option<Result<Point, PlotError>>>, i: nat)
    requires Collect(ps).Success? && Yields(ps, i)
    ensures ps[i].value.value in Collect(ps).value
  {
    var m := |ps| - 1;
    var prefix := ps[..m];
    if i < m {
      assert Yields(prefix, i);
      CollectTo(prefix, i);
    }
  }

  /** Points yielded later never have an earlier day. */
  ghost predicate DaysForward(ps: seq<Option<Result<Point, PlotError>>>)
  {
    forall i, j :: i < j && Yields(ps, i) && Yields(ps, j) ==> ps[i].value.value.0 <= ps[j].value.value.0
  }

  /** Collecting keeps the days in order. */
  lemma {:induction false} CollectForward(ps: seq<Option<Result<Point, PlotError>>>)
    requires Collect(ps).Success? && DaysForward(ps)
    ensures forall k, l :: 0 <= k < l < |Collect(ps).value| ==> Collect(ps).value[k].0 <= Collect(ps).value[l].0
  {
    if ps != [] {
      var m := |ps| - 1;
      var prefix := ps[..m];
      var rows := Collect(prefix).value;
      assert DaysForward(prefix) by {
        forall i, j | i < j && Yields(prefix, i) && Yields(prefix, j)
          ensures prefix[i].value.value.0 <= prefix[j].value.value.0
        {
          assert Yields(ps, i) && Yields(ps, j);
        }
      }
      CollectForward(prefix);
      if Yields(ps, m) {
        forall k | 0 <= k < |rows| ensures rows[k].0 <= ps[m].value.value.0 {
          CollectFrom(prefix, k);
          var i :| Yields(prefix, i) && prefix[i].value.value == rows[k];
          assert Yields(ps, i);
        }
      }
    }
  }

  /** Over sorted names, the days of the points go forward. */
  lemma DayPointsForward(dir: LogDir, names: seq<string>, u: string, start: Date, today: Date)
    requires ValidDate(start) && (forall n :: n in names ==> n in dir.files) && SortedNames(names)
    ensures DaysForward(DayPoints(dir, names, u, start, today))
  {
    var ps := DayPoints(dir, names, u, start, today);
    forall i, j | i < j && Yields(ps, i) && Yields(ps, j) ensures ps[i].value.value.0 <= ps[j].value.value.0 {
      DayPointMeaning(dir, names[i], u, start);
      DayPointMeaning(dir, names[j], u, start);
      NameDateOrder(names[i], names[j]);
    }
  }

  /** When the start date is read off a name that sorts first, no point lies
      before it. */
  lemma DayPointsAfterStart(dir: LogDir, names: seq<string>, u: string, first: string, start: Date, today: Date)
    requires ValidDate(start) && (forall n :: n in names ==> n in dir.files)
    requires NameDate(first) == Some(start) && forall n :: n in names ==> LexLe(first, n)
    ensures forall i :: Yields(DayPoints(dir, names, u, start, today), i) ==>
      DayPoints(dir, names, u, start, today)[i].value.value.0 >= 0
  {
    var ps := DayPoints(dir, names, u, start, today);
    forall i | Yields(ps, i) ensures ps[i].value.value.0 >= 0 {
      DayPointMeaning(dir, names[i], u, start);
      NameDateOrder(first, names[i]);
    }
  }

  /** A file the loop reaches either yields its point or stops the loop. */
  lemma {:induction false} CollectNoFailure(ps: seq<Option<Result<Point, PlotError>>>, i: nat)
    requires Collect(ps).Success? && i < |ps| && ps[i].Some?
    ensures ps[i].value.Success?
  {
    var m := |ps| - 1;
    if i < m {
      CollectNoFailure(ps[..m], i);
    }
  }

  /** Collecting yields no day before the start when no file does. */
  lemma CollectAfterStart(ps: seq<Option<Result<Point, PlotError>>>)
    requires Collect(ps).Success? && forall i :: Yields(ps, i) ==> ps[i].value.value.0 >= 0
    ensures forall k :: 0 <= k < |Collect(ps).value| ==> Collect(ps).value[k].0 >= 0
  {
    forall k | 0 <= k < |Collect(ps).value| ensures Collect(ps).value[k].0 >= 0 {
      CollectFrom(ps, k);
    }
  }

  /** A day with a count is never dropped. */
  lemma KeptHas(rows: seq<Point>, p: Point)
    requires p in rows && p.1 != 0
    ensures p in Kept(rows)
  {
    KeptStartsCounted(rows);
    var j :| 0 <= j < |rows| && rows[j] == p;
    var d := |rows| - |Kept(rows)|;
    assert Kept(rows)[j - d] == p;
  }

  /** `PlotSeries` once its start date is known: the points kept from the
      sorted logs. */
  lemma PlotSeriesUnfold(dir: LogDir, user: string, today: Date, start: Date)
    requires ValidDir(dir) && PlotSeries(dir, user, today).Success?
    requires LogStartDate(dir).Some? && ParseIsoDate(LogStartDate(dir).value) == Some(start)
    ensures ValidDate(start) && forall n :: n in SortNames(dir.names) ==> n in dir.files
    ensures Collect(DayPoints(dir, SortNames(dir.names), Lower(user), start, today)).Success?
    ensures PlotSeries(dir, user, today).value ==
      Kept(Collect(DayPoints(dir, SortNames(dir.names), Lower(user), start, today)).value)
  {
    SortNamesMembers(dir.names);
  }

  /** What the loop keeps goes forward in days when the files do. */
  lemma KeptForward(rows: seq<Point>)
    requires forall k, l :: 0 <= k < l < |rows| ==> rows[k].0 <= rows[l].0
    ensures forall k, l :: 0 <= k < l < |Kept(rows)| ==> Kept(rows)[k].0 <= Kept(rows)[l].0
  {
    var d := FirstCounted(rows);
    forall k, l | 0 <= k < l < |Kept(rows)| ensures Kept(rows)[k].0 <= Kept(rows)[l].0 {
      assert Kept(rows)[k] == rows[d + k] && Kept(rows)[l] == rows[d + l];
    }
  }

  /** The series has at least two days, starts on a day the user chatted,
      and goes forward in days. */
  lemma PlotSeriesShape(dir: LogDir, user: string, today: Date)
    requires ValidDir(dir) && PlotSeries(dir, user, today).Success?
    ensures |PlotSeries(dir, user, today).value| >= 2 && PlotSeries(dir, user, today).value[0].1 != 0
    ensures forall k, l :: 0 <= k < l < |PlotSeries(dir, user, today).value| ==>
      PlotSeries(dir, user, today).value[k].0 <= PlotSeries(dir, user, today).value[l].0
  {
    var start := ParseIsoDate(LogStartDate(dir).value).value;
    PlotSeriesUnfold(dir, user, today, start);
    var names := SortNames(dir.names);
    SortNamesSorted(dir.names);
    var ps := DayPoints(dir, names, Lower(user), start, today);
    var rows := Collect(ps).value;
    KeptStartsCounted(rows);
    DayPointsForward(dir, names, Lower(user), start, today);
    CollectForward(ps);
    KeptForward(rows);
  }

  /** No day of the series lies before the start of the logs: the start date
      is read off the name that sorts first, and names sort by date. */
  lemma PlotSeriesAfterStart(dir: LogDir, user: string, today: Date)
    requires ValidDir(dir) && PlotSeries(dir, user, today).Success?
    ensures forall k :: 0 <= k < |PlotSeries(dir, user, today).value| ==> PlotSeries(dir, user, today).value[k].0 >= 0
  {
    var first :| first in dir.names && LogStartDate(dir).value == Stem(first) &&
      forall m :: m in dir.names ==> LexLe(first, m);
    var start := ParseIsoDate(Stem(first)).value;
    PlotSeriesUnfold(dir, user, today, start);
    var names := SortNames(dir.names);
    SortNamesMembers(dir.names);
    var ps := DayPoints(dir, names, Lower(user), start, today);
    var rows := Collect(ps).value;
    DayPointsAfterStart(dir, names, Lower(user), first, start, today);
    CollectAfterStart(ps);
    KeptStartsCounted(rows);
  }

  /** Every point of the series is a log other than today's, at its day
      counted from the start date, with the number of the user's chat lines
      in it. */
  lemma PlotSeriesSound(dir: LogDir, user: string, today: Date, start: Date)
    requires ValidDir(dir) && PlotSeries(dir, user, today).Success?
    requires LogStartDate(dir).Some? && ParseIsoDate(LogStartDate(dir).value) == Some(start)
    ensures forall p :: p in PlotSeries(dir, user, today).value ==>
      exists n :: (n in dir.names && n != TodayLog(today) && NameDate(n).Some? &&
        p == (DaysBetween(NameDate(n).value, start), |LinesOf(dir.files[n], ChatLine, Lower(user))|))
  {
    PlotSeriesUnfold(dir, user, today, start);
    var names := SortNames(dir.names);
    SortNamesMembers(dir.names);
    var u := Lower(user);
    var ps := DayPoints(dir, names, u, start, today);
    var rows := Collect(ps).value;
    var d := |rows| - |Kept(rows)|;
    KeptStartsCounted(rows);
    forall p | p in Kept(rows)
      ensures exists n :: (n in dir.names && n != TodayLog(today) && NameDate(n).Some? &&
        p == (DaysBetween(NameDate(n).value, start), |LinesOf(dir.files[n], ChatLine, u)|))
    {
      var k :| 0 <= k < |Kept(rows)| && Kept(rows)[k] == p;
      CollectFrom(ps, d + k);
      var i :| Yields(ps, i) && ps[i].value.value == rows[d + k];
      DayPointMeaning(dir, names[i], u, start);
      assert names[i] in dir.names;
    }
  }

  /** Every log other than today's with at least one chat line of the user
      is plotted, at its day counted from the start date. */
  lemma PlotSeriesComplete(dir: LogDir, user: string, today: Date, start: Date)
    requires ValidDir(dir) && PlotSeries(dir, user, today).Success?
    requires LogStartDate(dir).Some? && ParseIsoDate(LogStartDate(dir).value) == Some(start)
    ensures forall n :: n in dir.names && n != TodayLog(today) && LinesOf(dir.files[n], ChatLine, Lower(user)) != {} ==>
      NameDate(n).Some? &&
      (DaysBetween(NameDate(n).value, start), |LinesOf(dir.files[n], ChatLine, Lower(user))|) in PlotSeries(dir, user, today).value
  {
    PlotSeriesUnfold(dir, user, today, start);
    var names := SortNames(dir.names);
    SortNamesMembers(dir.names);
    var u := Lower(user);
    var ps := DayPoints(dir, names, u, start, today);
    var rows := Collect(ps).value;
    forall n | n in dir.names && n != TodayLog(today) && LinesOf(dir.files[n], ChatLine, u) != {}
      ensures NameDate(n).Some? &&
        (DaysBetween(NameDate(n).value, start), |LinesOf(dir.files[n], ChatLine, u)|) in Kept(rows)
    {
      var i :| 0 <= i < |names| && names[i] == n;
      CollectNoFailure(ps, i);
      DayPointMeaning(dir, n, u, start);
      CollectTo(ps, i);
      KeptHas(rows, ps[i].value.value);
    }
  }

  /** One log of the `cmd_chatplot` loop: its date read off its name, then
      its counts taken through the cache. */
  method ReadDay(cache: CountCache, dir: LogDir, filename: string, u: string, start: Date, today: Date)
    returns (res: Result<Point, PlotError>)
    requires filename in dir.files && filename != TodayLog(today) && ValidDate(start)
    requires cache.AgreesBut(dir, TodayLog(today))
    modifies cache
    ensures res == DayPoint(dir, filename, u, start)
    ensures cache.AgreesBut(dir, TodayLog(today))
    ensures Extends(old(cache.entries), cache.entries)
    ensures AddsOnly(old(cache.entries), cache.entries, [filename], ChatLine, TodayLog(today))
    ensures res.Success? ==> Stored(cache.entries, [filename], ChatLine, TodayLog(today))
  {
    var stem := Stem(filename);
    var filenameDate := ParseIsoDate(stem);
    if filenameDate.None? {
      return Failure(BadDate(stem));
    }
    var counts := cache.CountsPerFileCached(dir, filename, ChatLine);
    if counts.Failure? {
      return Failure(CountFailed(counts.error));
    }
    res := Success((DaysBetween(filenameDate.value, start), counts.value.Get(u)));
  }

  /** The loop of `cmd_chatplot` over `names`: the lists `x` and `y` zip to the
      points kept, or the loop stops at the first error. */
  method PlotLoop(cache: CountCache, dir: LogDir, names: seq<string>, u: string, start: Date, today: Date)
    returns (r: Result<(seq<int>, seq<nat>), PlotError>)
    requires ValidDate(start) && (forall n :: n in names ==> n in dir.files)
    requires cache.AgreesBut(dir, TodayLog(today))
    modifies cache
    ensures cache.AgreesBut(dir, TodayLog(today))
    ensures Extends(old(cache.entries), cache.entries)
    ensures AddsOnly(old(cache.entries), cache.entries, names, ChatLine, TodayLog(today))
    ensures Collect(DayPoints(dir, names, u, start, today)).Failure? ==>
      r == Failure(Collect(DayPoints(dir, names, u, start, today)).error)
    ensures Collect(DayPoints(dir, names, u, start, today)).Success? ==>
      r.Success? && |r.value.0| == |r.value.1| &&
      Zip(r.value.0, r.value.1) == Kept(Collect(DayPoints(dir, names, u, start, today)).value)
  {
    ghost var ps := DayPoints(dir, names, u, start, today);
    ghost var rows: seq<Point> := [];
    var x: seq<int> := [];
    var y: seq<nat> := [];
    var i := 0;
    while i < |names|
      invariant 0 <= i <= |names|
      invariant Collect(ps[..i]) == Success(rows)
      invariant |x| == |y| && Zip(x, y) == Kept(rows)
      invariant cache.AgreesBut(dir, TodayLog(today))
      invariant Extends(old(cache.entries), cache.entries)
      invariant AddsOnly(old(cache.entries), cache.entries, names, ChatLine, TodayLog(today))
    {
      var filename := names[i];
      if filename == TodayLog(today) {
        CollectSkip(ps, i, rows);
        i := i + 1;
        continue;
      }
      ghost var before := cache.entries;
      var day := ReadDay(cache, dir, filename, u, start, today);
      CacheGrows(old(cache.entries), before, cache.entries, names, i, ChatLine, TodayLog(today));
      if day.Failure? {
        CollectStops(ps, i);
        return Failure(day.error);
      }
      var p := day.value;
      CollectStep(ps, i, rows, p);
      KeptStep(rows, p);
      if |x| > 0 || p.1 != 0 {
        ZipSnoc(x, y, p);
        x := x + [p.0];
        y := y + [p.1];
      }
      rows := rows + [p];
      i := i + 1;
    }
    assert ps[..i] == ps;
    r := Success((x, y));
  }

  /** `cmd_chatplot` up to the chart: the user's name lowered, the start date
      from `_log_start_date`, the loop over the sorted logs, and the check that
      there are at least two days to plot. */
  method ChatPlotSeries(cache: CountCache, dir: LogDir, user: string, today: Date)
    returns (r: Result<(seq<int>, seq<nat>), PlotError>)
    requires ValidDir(dir) && cache.AgreesBut(dir, TodayLog(today))
    modifies cache
    ensures cache.AgreesBut(dir, TodayLog(today))
    ensures Extends(old(cache.entries), cache.entries)
    ensures AddsOnly(old(cache.entries), cache.entries, dir.names, ChatLine, TodayLog(today))
    ensures PlotSeries(dir, user, today).Failure? ==> r == Failure(PlotSeries(dir, user, today).error)
    ensures PlotSeries(dir, user, today).Success? ==>
      r.Success? && |r.value.0| == |r.value.1| && Zip(r.value.0, r.value.1) == PlotSeries(dir, user, today).value
  {
    var u := Lower(user);
    var first := LogStartDate(dir);
    if first.None? {
      return Failure(NoLogs);
    }
    var startDate := ParseIsoDate(first.value);
    if startDate.None? {
      return Failure(BadDate(first.value));
    }
    SortNamesMembers(dir.names);
    r := PlotLoop(cache, dir, SortNames(dir.names), u, startDate.value, today);
    SameNames(old(cache.entries), cache.entries, SortNames(dir.names), dir.names, ChatLine, TodayLog(today));
    if r.Success? && |r.value.0| < 2 {
      return Failure(NotEnoughData);
    }
  }
}
