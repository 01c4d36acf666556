/** `_counts_per_file` without its cache: one log file's lines counted with one
    pattern, keyed by the lower-cased user name. */
module FileCount {
  import opened Wrappers
  import opened Text
  import opened LineMatch
  import opened Counters

  /** `assert reg is not CHAT_LOG_RE`: under the chat pattern every line must match. */
  datatype CountError = UnmatchedChatLine(line: string)

  /** A compiled pattern as the loop uses it: `match['chat_user'] or
      match['action_user']` of `reg.match(line)`, or `None` when it does not
      match. */
  type Matcher = string -> Option<string>

  /** The pattern of `lt`. */
  function Pattern(lt: LineType): Matcher
  {
    line => MatchUser(lt, line)
  }

  /** The count key a line contributes under `reg`: its user, lower-cased. */
  function KeyOf(reg: Matcher, line: string): (r: Option<string>)
    ensures r.Some? <==> reg(line).Some?
    ensures r.Some? ==> IsLower(r.value)
  {
    match reg(line)
    case None => None
    case Some(u) => LowerIsLower(u); Some(Lower(u))
  }

  /** The count key of a line under the pattern of `lt`. */
  function LineKey(lt: LineType, line: string): (r: Option<string>)
    ensures r.Some? <==> MatchUser(lt, line).Some?
  {
    KeyOf(Pattern(lt), line)
  }

  /** The loop of `_counts_per_file` over `lines` with `reg`: each matching
      line adds one to its lower-cased user; a line that does not match is
      skipped, unless `strict` (`reg` is `CHAT_LOG_RE`), when its assertion
      fails. */
  function Tally(lines: seq<string>, reg: Matcher, strict: bool): (r: Result<Counter, CountError>)
    ensures r.Success? ==> r.value.Valid()
  {
    if lines == [] then Success(Empty())
    else
      match Tally(lines[..|lines| - 1], reg, strict)
      case Failure(e) => Failure(e)
      case Success(c) =>
        match KeyOf(reg, lines[|lines| - 1])
        case None => if strict then Failure(UnmatchedChatLine(lines[|lines| - 1])) else Success(c)
        case Some(k) => Success(AddTo(c, k, 1))
  }

  /** What `_counts_per_file` returns for a file holding `lines`, or the
      assertion it fails on the first line the chat pattern does not match. */
  function FileTally(lines: seq<string>, lt: LineType): (r: Result<Counter, CountError>)
    ensures r.Success? ==> r.value.Valid()
  {
    Tally(lines, Pattern(lt), lt == ChatLine)
  }

  /** `_counts_per_file.__wrapped__(filename, reg)`. */
  method CountsPerFile(lines: seq<string>, lt: LineType) returns (r: Result<Counter, CountError>)
    ensures r == FileTally(lines, lt)
  {
    r := CountLines(lines, Pattern(lt), lt == ChatLine);
  }

  /** The loop of `_counts_per_file` over the lines of the file. */
  method CountLines(lines: seq<string>, reg: Matcher, strict: bool) returns (r: Result<Counter, CountError>)
    ensures r == Tally(lines, reg, strict)
  {
    var counts := Empty();
    var i := 0;
    while i < |lines|
      invariant 0 <= i <= |lines|
      invariant Tally(lines[..i], reg, strict) == Success(counts)
    {
      TallyStep(lines, reg, strict, i, counts);
      match reg(lines[i]) {
        case None =>
          if strict {
            TallyFailed(lines, i + 1);
            return Failure(UnmatchedChatLine(lines[i]));
          }
        case Some(user) =>
          counts := AddTo(counts, Lower(user), 1);
      }
      i := i + 1;
    }
    assert lines[..i] == lines;
    r := Success(counts);
  }

  lemma TallyStep(lines: seq<string>, reg: Matcher, strict: bool, i: nat, c: Counter)
    requires i < |lines| && Tally(lines[..i], reg, strict) == Success(c)
    ensures Tally(lines[..i + 1], reg, strict) ==
      match KeyOf(reg, lines[i])
      case None => if strict then Failure(UnmatchedChatLine(lines[i])) else Success(c)
      case Some(k) => Success(AddTo(c, k, 1))
  {
    assert lines[..i + 1][..i] == lines[..i];
  }

  /** Once a line fails the assertion, the lines after it are never read. */
  lemma {:induction false} TallyFailed(lines: seq<string>, k: nat)
    requires k <= |lines|
    ensures forall reg: Matcher, strict: bool :: Tally(lines[..k], reg, strict).Failure? ==>
      Tally(lines, reg, strict) == Tally(lines[..k], reg, strict)
    decreases |lines|
  {
    if k < |lines| {
      var prefix := lines[..|lines| - 1];
      assert prefix[..k] == lines[..k];
      TallyFailed(prefix, k);
    } else {
      assert lines[..k] == lines;
    }
  }

  /** The lines whose key under `reg` is `u`. */
  ghost function LinesWith(lines: seq<string>, reg: Matcher, u: string): set<nat>
  {
    set i: nat | i < |lines| && KeyOf(reg, lines[i]) == Some(u)
  }

  /** The lines `reg` matches. */
  ghost function Matched(lines: seq<string>, reg: Matcher): set<nat>
  {
    set i: nat | i < |lines| && reg(lines[i]).Some?
  }

  lemma LinesWithSnoc(lines: seq<string>, reg: Matcher, u: string)
    requires lines != []
    ensures var m := |lines| - 1;
      LinesWith(lines, reg, u) ==
        LinesWith(lines[..m], reg, u) + (if KeyOf(reg, lines[m]) == Some(u) then {m} else {})
    ensures |lines| - 1 !in LinesWith(lines[..|lines| - 1], reg, u)
  {
  }

  lemma MatchedSnoc(lines: seq<string>, reg: Matcher)
    requires lines != []
    ensures var m := |lines| - 1;
      Matched(lines, reg) == Matched(lines[..m], reg) + (if reg(lines[m]).Some? then {m} else {})
    ensures |lines| - 1 !in Matched(lines[..|lines| - 1], reg)
  {
  }

  /** Each matching line adds exactly one to its lower-cased user: the count
      of `u` is the number of lines whose user lowers to `u`, and `u` is a key
      exactly when there is such a line. */
  lemma {:induction false} TallyCounts(lines: seq<string>, reg: Matcher, strict: bool, u: string)
    requires Tally(lines, reg, strict).Success?
    ensures Tally(lines, reg, strict).value.Get(u) == |LinesWith(lines, reg, u)|
    ensures u in Tally(lines, reg, strict).value.counts <==> LinesWith(lines, reg, u) != {}
  {
    if lines == [] {
      assert LinesWith(lines, reg, u) == {};
    } else {
      var m := |lines| - 1;
      TallyCounts(lines[..m], reg, strict, u);
      LinesWithSnoc(lines, reg, u);
    }
  }

  /** The counts add up to the number of matching lines. */
  lemma {:induction false} TallyTotal(lines: seq<string>, reg: Matcher, strict: bool)
    requires Tally(lines, reg, strict).Success?
    ensures Total(Tally(lines, reg, strict).value) == |Matched(lines, reg)|
  {
    if lines == [] {
      assert Matched(lines, reg) == {};
    } else {
      var m := |lines| - 1;
      var c := Tally(lines[..m], reg, strict).value;
      TallyTotal(lines[..m], reg, strict);
      MatchedSnoc(lines, reg);
      if reg(lines[m]).Some? {
        AddToTotal(c, KeyOf(reg, lines[m]).value, 1);
      }
    }
  }

  /** Every key is lower case. */
  lemma {:induction false} TallyKeysLower(lines: seq<string>, reg: Matcher, strict: bool)
    requires Tally(lines, reg, strict).Success?
    ensures forall k :: k in Tally(lines, reg, strict).value.counts ==> IsLower(k)
  {
    if lines != [] {
      TallyKeysLower(lines[..|lines| - 1], reg, strict);
    }
  }

  /** `reg` matches every one of `lines`. */
  ghost predicate AllMatched(lines: seq<string>, reg: Matcher)
  {
    forall i :: 0 <= i < |lines| ==> reg(lines[i]).Some?
  }

  /** Counting succeeds exactly when no line is refused: always when not
      `strict`, and when `strict` exactly when `reg` matches every line. */
  lemma {:induction false} TallySucceeds(lines: seq<string>, reg: Matcher, strict: bool)
    ensures Tally(lines, reg, strict).Success? <==> (strict ==> AllMatched(lines, reg))
  {
    if lines != [] {
      var m := |lines| - 1;
      var prefix := lines[..m];
      TallySucceeds(prefix, reg, strict);
      TallyLast(lines, reg, strict);
      AllMatchedLast(lines, prefix, reg);
    }
  }

  /** The last line decides the outcome once the lines before it are counted. */
  lemma TallyLast(lines: seq<string>, reg: Matcher, strict: bool)
    requires lines != []
    ensures Tally(lines, reg, strict).Success? <==>
      Tally(lines[..|lines| - 1], reg, strict).Success? && (strict ==> reg(lines[|lines| - 1]).Some?)
  {
  }

  lemma AllMatchedLast(lines: seq<string>, prefix: seq<string>, reg: Matcher)
    requires lines != [] && prefix == lines[..|lines| - 1]
    ensures AllMatched(lines, reg) <==> AllMatched(prefix, reg) && reg(lines[|lines| - 1]).Some?
  {
    assert forall i :: 0 <= i < |prefix| ==> prefix[i] == lines[i];
  }

  /** A failure names the first line `reg` does not match. */
  lemma {:induction false} TallyFailsAt(lines: seq<string>, reg: Matcher, strict: bool)
    requires Tally(lines, reg, strict).Failure?
    ensures exists i :: (0 <= i < |lines| && Tally(lines, reg, strict).error == UnmatchedChatLine(lines[i])
      && reg(lines[i]).None? && forall j :: 0 <= j < i ==> reg(lines[j]).Some?)
  {
    var m := |lines| - 1;
    var prefix := lines[..m];
    if Tally(prefix, reg, strict).Failure? {
      TallyFailsAt(prefix, reg, strict);
      var i :| 0 <= i < |prefix| && Tally(prefix, reg, strict).error == UnmatchedChatLine(prefix[i])
        && reg(prefix[i]).None? && forall j :: 0 <= j < i ==> reg(prefix[j]).Some?;
      assert Tally(lines, reg, strict) == Tally(prefix, reg, strict);
      assert lines[i] == prefix[i];
      forall j | 0 <= j < i ensures reg(lines[j]).Some? {
        assert lines[j] == prefix[j];
      }
    } else {
      TallySucceeds(prefix, reg, strict);
      assert strict && reg(lines[m]).None?;
      assert Tally(lines, reg, strict).error == UnmatchedChatLine(lines[m]);
      forall j | 0 <= j < m ensures reg(lines[j]).Some? {
        assert lines[j] == prefix[j];
      }
    }
  }

  /** The lines of the file whose user lowers to `u`. */
  ghost function LinesOf(lines: seq<string>, lt: LineType, u: string): set<nat>
  {
    LinesWith(lines, Pattern(lt), u)
  }

  /** Each matching line adds exactly one to its lower-cased user: the count of
      `u` is the number of lines whose user lowers to `u`, and `u` is a key
      exactly when there is such a line. */
  lemma FileTallyCounts(lines: seq<string>, lt: LineType, u: string)
    requires FileTally(lines, lt).Success?
    ensures FileTally(lines, lt).value.Get(u) == |LinesOf(lines, lt, u)|
    ensures u in FileTally(lines, lt).value.counts <==> LinesOf(lines, lt, u) != {}
  {
    TallyCounts(lines, Pattern(lt), lt == ChatLine, u);
  }

  /** A counted user has at least one line: no count is zero. */
  lemma FileTallyPositive(lines: seq<string>, lt: LineType)
    requires FileTally(lines, lt).Success?
    ensures forall k :: k in FileTally(lines, lt).value.counts ==> FileTally(lines, lt).value.counts[k] > 0
  {
    forall k | k in FileTally(lines, lt).value.counts ensures FileTally(lines, lt).value.counts[k] > 0 {
      FileTallyCounts(lines, lt, k);
    }
  }

  /** The lines of the file that `lt`'s pattern matches. */
  ghost function MatchingLines(lines: seq<string>, lt: LineType): set<nat>
  {
    Matched(lines, Pattern(lt))
  }

  /** The counts of a file add up to the number of its matching lines. */
  lemma FileTallyTotal(lines: seq<string>, lt: LineType)
    requires FileTally(lines, lt).Success?
    ensures Total(FileTally(lines, lt).value) == |MatchingLines(lines, lt)|
  {
    TallyTotal(lines, Pattern(lt), lt == ChatLine);
  }

  /** Every key is lower case, so `Foo` and `foo` share one count. */
  lemma FileTallyKeysLower(lines: seq<string>, lt: LineType)
    requires FileTally(lines, lt).Success?
    ensures forall k :: k in FileTally(lines, lt).value.counts ==> IsLower(k)
  {
    TallyKeysLower(lines, Pattern(lt), lt == ChatLine);
  }

  /** Counting with the chat pattern succeeds exactly when every line is a chat
      line; the other two patterns skip what they do not match and never fail.
      A failure names the first line the chat pattern does not match. */
  lemma FileTallyOutcome(lines: seq<string>, lt: LineType)
    ensures FileTally(lines, lt).Success? <==>
      (lt == ChatLine ==> forall i :: 0 <= i < |lines| ==> ChatUser(lines[i]).Some?)
    ensures FileTally(lines, lt).Failure? ==>
      exists i :: 0 <= i < |lines| && FileTally(lines, lt).error == UnmatchedChatLine(lines[i])
        && ChatUser(lines[i]).None? && (forall j :: 0 <= j < i ==> ChatUser(lines[j]).Some?)
  {
    TallySucceeds(lines, Pattern(lt), lt == ChatLine);
    if FileTally(lines, lt).Failure? {
      TallyFailsAt(lines, Pattern(lt), lt == ChatLine);
    }
  }
}
