/** The three line patterns of the ranking engine, `CHAT_LOG_RE`, `BONKER_RE`
    and `BONKED_RE`, as hand-written recognisers that return the `chat_user`
    (or `action_user`) group of `re.match`, and, beside each, the pattern's
    meaning written as a decomposition of the line at explicit positions. */
module LineMatch {
  import opened Wrappers
  import opened Text

  /** Which pattern a count is taken with; also the matcher half of the cache key. */
  datatype LineType = ChatLine | Bonker | Bonked

  /** Scanning a run of `[^...]`: the first index at or after `i` holding a
      character of `stop`, or `|s|` when there is none. */
  function SkipUntil(s: string, i: nat, stop: set<char>): (r: nat)
    requires i <= |s|
    ensures i <= r <= |s|
    ensures r < |s| ==> s[r] in stop
    decreases |s| - i
  {
    if i == |s| || s[i] in stop then i else SkipUntil(s, i + 1, stop)
  }

  /** Nothing `SkipUntil` passes over is a stop character. */
  lemma {:induction false} SkipUntilSkips(s: string, i: nat, stop: set<char>)
    requires i <= |s|
    ensures forall m :: i <= m < SkipUntil(s, i, stop) ==> s[m] !in stop
    decreases |s| - i
  {
    if i < |s| && s[i] !in stop {
      SkipUntilSkips(s, i + 1, stop);
    }
  }

  /** `SkipUntil` stops at the first stop character. */
  lemma SkipUntilIs(s: string, i: nat, stop: set<char>, r: nat)
    requires i <= r <= |s| && (forall m :: i <= m < r ==> s[m] !in stop) && (r < |s| ==> s[r] in stop)
    ensures SkipUntil(s, i, stop) == r
  {
    SkipUntilSkips(s, i, stop);
  }

  /** Scanning a run of `\w`: the first index at or after `i` that is not a word
      character, or `|s|`. */
  function WordEnd(s: string, i: nat): (r: nat)
    requires i <= |s|
    ensures i <= r <= |s|
    ensures r < |s| ==> !IsWordChar(s[r])
    decreases |s| - i
  {
    if i == |s| || !IsWordChar(s[i]) then i else WordEnd(s, i + 1)
  }

  /** Everything `WordEnd` passes over is a word character. */
  lemma {:induction false} WordEndWords(s: string, i: nat)
    requires i <= |s|
    ensures forall m :: i <= m < WordEnd(s, i) ==> IsWordChar(s[m])
    decreases |s| - i
  {
    if i < |s| && IsWordChar(s[i]) {
      WordEndWords(s, i + 1);
    }
  }

  /** `WordEnd` stops at the first character that is not a word character. */
  lemma WordEndIs(s: string, i: nat, r: nat)
    requires i <= r <= |s| && (forall m :: i <= m < r ==> IsWordChar(s[m])) && (r < |s| ==> !IsWordChar(s[r]))
    ensures WordEnd(s, i) == r
  {
    WordEndWords(s, i);
  }

  /** `s[i:]` starts with `w`. */
  predicate HasAt(s: string, i: nat, w: string)
  {
    i + |w| <= |s| && s[i..i + |w|] == w
  }

  /** `^\[[^]]+\][^<*]*`: the position of the first `<` or `*` after the
      bracketed timestamp, where the user part of every pattern begins. */
  function SpeakerAt(line: string): (r: Option<nat>)
    ensures r.Some? ==> r.value < |line| && (line[r.value] == '<' || line[r.value] == '*')
  {
    if |line| > 0 && line[0] == '[' then
      var t := SkipUntil(line, 1, {']'});
      if 1 < t < |line| then
        var p := SkipUntil(line, t + 1, {'<', '*'});
        if p < |line| then Some(p) else None
      else None
    else None
  }

  /** `<(?P<chat_user>[^>]+)>` at `p`: the nick and the position after its `>`. */
  function NickAt(line: string, p: nat): (r: Option<(string, nat)>)
    requires p < |line|
    ensures r.Some? ==> p + 2 < r.value.1 <= |line| && r.value.0 == line[p + 1..r.value.1 - 1]
  {
    if line[p] != '<' then None
    else
      var q := SkipUntil(line, p + 1, {'>'});
      if p + 1 < q < |line| then Some((line[p + 1..q], q + 1)) else None
  }

  /** `CHAT_LOG_RE`: `<nick>` gives `chat_user`, `* nick` gives `action_user`. */
  function ChatUser(line: string): (r: Option<string>)
    ensures r.Some? ==> |r.value| > 0
  {
    match SpeakerAt(line)
    case None => None
    case Some(p) =>
      if line[p] == '<' then
        match NickAt(line, p)
        case None => None
        case Some((u, _)) => Some(u)
      else if p + 1 < |line| && line[p + 1] == ' ' then
        var e := SkipUntil(line, p + 2, {' '});
        if e > p + 2 then Some(line[p + 2..e]) else None
      else None
  }

  /** `BONKER_RE`: the poster of a `!bonk` message; `\b` after `!bonk` means the
      line ends there or a non-word character follows. */
  function BonkerUser(line: string): (r: Option<string>)
    ensures r.Some? ==> |r.value| > 0
  {
    match SpeakerAt(line)
    case None => None
    case Some(p) =>
      match NickAt(line, p)
      case None => None
      case Some((u, k)) =>
        if HasAt(line, k, " !bonk") && (k + 6 == |line| || !IsWordChar(line[k + 6])) then Some(u) else None
  }

  /** `BONKED_RE`: the target word of `!bonk target` or `!bonk @target`. */
  function BonkedUser(line: string): (r: Option<string>)
  {
    match SpeakerAt(line)
    case None => None
    case Some(p) =>
      match NickAt(line, p)
      case None => None
      case Some((_, k)) =>
        if HasAt(line, k, " !bonk ") then
          var a := if k + 7 < |line| && line[k + 7] == '@' then k + 8 else k + 7;
          var e := WordEnd(line, a);
          if e > a then Some(line[a..e]) else None
        else None
  }

  /** `match['chat_user'] or match['action_user']` for the pattern of `lt`. */
  function MatchUser(lt: LineType, line: string): Option<string>
  {
    match lt
    case ChatLine => ChatUser(line)
    case Bonker => BonkerUser(line)
    case Bonked => BonkedUser(line)
  }

  // ---------------------------------------------------------------------------
  // What the patterns mean, as decompositions of the line at explicit positions.

  /** `^\[[^]]+\][^<*]*` covers `line[..p]`, the timestamp's `]` sitting at `t`. */
  ghost predicate Preamble(line: string, t: nat, p: nat)
  {
    && 2 <= t < p <= |line|
    && line[0] == '[' && line[t] == ']'
    && (forall m :: 1 <= m < t ==> line[m] != ']')
    && (forall m :: t < m < p ==> line[m] != '<' && line[m] != '*')
  }

  /** `<[^>]+>` covers `line[p..q + 1]`. */
  ghost predicate NickShape(line: string, p: nat, q: nat)
  {
    && p + 1 < q < |line|
    && line[p] == '<' && line[q] == '>'
    && (forall m :: p < m < q ==> line[m] != '>')
  }

  /** `\* [^ ]+` covers `line[p..e]`, taken greedily: the run ends at a space or
      at the end of the line. */
  ghost predicate ActionShape(line: string, p: nat, e: nat)
  {
    && p + 2 < e <= |line|
    && line[p] == '*' && line[p + 1] == ' '
    && (forall m :: p + 2 <= m < e ==> line[m] != ' ')
    && (e == |line| || line[e] == ' ')
  }

  /** `line` matches `CHAT_LOG_RE` with `u` as the non-empty user group. */
  ghost predicate ChatShape(line: string, u: string)
  {
    || (exists t: nat, p: nat, q: nat :: Preamble(line, t, p) && NickShape(line, p, q) && u == line[p + 1..q])
    || (exists t: nat, p: nat, e: nat :: Preamble(line, t, p) && ActionShape(line, p, e) && u == line[p + 2..e])
  }

  /** ` !bonk` then `\b` right after the nick's `>` at `q`. */
  ghost predicate BonkCommand(line: string, q: nat)
  {
    && HasAt(line, q + 1, " !bonk")
    && (q + 7 == |line| || !IsWordChar(line[q + 7]))
  }

  /** `line` matches `BONKER_RE` with `u` as `chat_user`. */
  ghost predicate BonkerShape(line: string, u: string)
  {
    exists t: nat, p: nat, q: nat :: Preamble(line, t, p) && NickShape(line, p, q) && BonkCommand(line, q) && u == line[p + 1..q]
  }

  /** ` !bonk @?\w+` after the nick's `>` at `q`, the word being `line[a..e]`,
      taken greedily. */
  ghost predicate BonkTarget(line: string, q: nat, a: nat, e: nat)
  {
    && HasAt(line, q + 1, " !bonk ")
    && (a == q + 8 || (a == q + 9 && q + 8 < |line| && line[q + 8] == '@'))
    && a < e <= |line|
    && (forall m :: a <= m < e ==> IsWordChar(line[m]))
    && (e == |line| || !IsWordChar(line[e]))
  }

  /** `line` matches `BONKED_RE` with `u` as `chat_user`. */
  ghost predicate BonkedShape(line: string, u: string)
  {
    exists t: nat, p: nat, q: nat, a: nat, e: nat :: Preamble(line, t, p) && NickShape(line, p, q) && BonkTarget(line, q, a, e) && u == line[a..e]
  }

  /** Where a preamble is, `SpeakerAt` finds it. */
  lemma PreambleFound(line: string, t: nat, p: nat)
    requires Preamble(line, t, p) && p < |line| && (line[p] == '<' || line[p] == '*')
    ensures SpeakerAt(line) == Some(p)
  {
    SkipUntilIs(line, 1, {']'}, t);
    SkipUntilIs(line, t + 1, {'<', '*'}, p);
  }

  /** What `SpeakerAt` finds is a preamble. */
  lemma SpeakerIsPreamble(line: string) returns (t: nat)
    requires SpeakerAt(line).Some?
    ensures Preamble(line, t, SpeakerAt(line).value)
  {
    t := SkipUntil(line, 1, {']'});
    SkipUntilSkips(line, 1, {']'});
    SkipUntilSkips(line, t + 1, {'<', '*'});
  }

  lemma NickFound(line: string, p: nat, q: nat)
    requires NickShape(line, p, q)
    ensures NickAt(line, p) == Some((line[p + 1..q], q + 1))
  {
    SkipUntilIs(line, p + 1, {'>'}, q);
  }

  lemma ChatUserSound(line: string)
    requires ChatUser(line).Some?
    ensures ChatShape(line, ChatUser(line).value)
  {
    var u := ChatUser(line).value;
    var p := SpeakerAt(line).value;
    var t := SpeakerIsPreamble(line);
    if line[p] == '<' {
      var q := SkipUntil(line, p + 1, {'>'});
      SkipUntilSkips(line, p + 1, {'>'});
      assert NickShape(line, p, q) && u == line[p + 1..q];
    } else {
      var e := SkipUntil(line, p + 2, {' '});
      SkipUntilSkips(line, p + 2, {' '});
      assert ActionShape(line, p, e) && u == line[p + 2..e];
    }
  }

  lemma ChatNickComplete(line: string, t: nat, p: nat, q: nat)
    requires Preamble(line, t, p) && NickShape(line, p, q)
    ensures ChatUser(line) == Some(line[p + 1..q])
  {
    PreambleFound(line, t, p);
    NickFound(line, p, q);
  }

  lemma ChatActionComplete(line: string, t: nat, p: nat, e: nat)
    requires Preamble(line, t, p) && ActionShape(line, p, e)
    ensures ChatUser(line) == Some(line[p + 2..e])
  {
    PreambleFound(line, t, p);
    SkipUntilIs(line, p + 2, {' '}, e);
  }

  /** `ChatUser` returns exactly the user group of a `CHAT_LOG_RE` match. */
  lemma ChatUserCorrect(line: string, u: string)
    ensures ChatUser(line) == Some(u) <==> ChatShape(line, u)
  {
    if ChatUser(line) == Some(u) {
      ChatUserSound(line);
    }
    if ChatShape(line, u) {
      if exists t: nat, p: nat, q: nat :: Preamble(line, t, p) && NickShape(line, p, q) && u == line[p + 1..q] {
        var t: nat, p: nat, q: nat :| Preamble(line, t, p) && NickShape(line, p, q) && u == line[p + 1..q];
        ChatNickComplete(line, t, p, q);
      } else {
        var t: nat, p: nat, e: nat :| Preamble(line, t, p) && ActionShape(line, p, e) && u == line[p + 2..e];
        ChatActionComplete(line, t, p, e);
      }
    }
  }

  lemma BonkerUserSound(line: string)
    requires BonkerUser(line).Some?
    ensures BonkerShape(line, BonkerUser(line).value)
  {
    var u := BonkerUser(line).value;
    var p := SpeakerAt(line).value;
    var t := SpeakerIsPreamble(line);
    var q := SkipUntil(line, p + 1, {'>'});
    SkipUntilSkips(line, p + 1, {'>'});
    assert NickShape(line, p, q) && BonkCommand(line, q) && u == line[p + 1..q];
  }

  lemma BonkerUserComplete(line: string, t: nat, p: nat, q: nat)
    requires Preamble(line, t, p) && NickShape(line, p, q) && BonkCommand(line, q)
    ensures BonkerUser(line) == Some(line[p + 1..q])
  {
    PreambleFound(line, t, p);
    NickFound(line, p, q);
  }

  /** `BonkerUser` returns exactly the user group of a `BONKER_RE` match. */
  lemma BonkerUserCorrect(line: string, u: string)
    ensures BonkerUser(line) == Some(u) <==> BonkerShape(line, u)
  {
    if BonkerUser(line) == Some(u) {
      BonkerUserSound(line);
    }
    if BonkerShape(line, u) {
      var t: nat, p: nat, q: nat :| Preamble(line, t, p) && NickShape(line, p, q) && BonkCommand(line, q) && u == line[p + 1..q];
      BonkerUserComplete(line, t, p, q);
    }
  }

  lemma BonkedUserSound(line: string)
    requires BonkedUser(line).Some?
    ensures BonkedShape(line, BonkedUser(line).value)
  {
    var u := BonkedUser(line).value;
    var p := SpeakerAt(line).value;
    var t := SpeakerIsPreamble(line);
    var k := NickAt(line, p).value.1;
    var q := k - 1;
    assert q == SkipUntil(line, p + 1, {'>'});
    SkipUntilSkips(line, p + 1, {'>'});
    assert NickShape(line, p, q);
    assert HasAt(line, k, " !bonk ");
    var a := if k + 7 < |line| && line[k + 7] == '@' then k + 8 else k + 7;
    var e := WordEnd(line, a);
    assert u == line[a..e];
    WordEndWords(line, a);
    assert BonkTarget(line, q, a, e);
  }

  lemma BonkedUserComplete(line: string, t: nat, p: nat, q: nat, a: nat, e: nat)
    requires Preamble(line, t, p) && NickShape(line, p, q) && BonkTarget(line, q, a, e)
    ensures BonkedUser(line) == Some(line[a..e])
  {
    PreambleFound(line, t, p);
    NickFound(line, p, q);
    WordEndIs(line, a, e);
  }

  /** `BonkedUser` returns exactly the user group of a `BONKED_RE` match. */
  lemma BonkedUserCorrect(line: string, u: string)
    ensures BonkedUser(line) == Some(u) <==> BonkedShape(line, u)
  {
    if BonkedUser(line) == Some(u) {
      BonkedUserSound(line);
    }
    if BonkedShape(line, u) {
      var t: nat, p: nat, q: nat, a: nat, e: nat :| Preamble(line, t, p) && NickShape(line, p, q) && BonkTarget(line, q, a, e) && u == line[a..e];
      BonkedUserComplete(line, t, p, q, a, e);
    }
  }

  /** A `!bonk` line is also a chat line, and both patterns report the same user. */
  lemma BonkerIsChat(line: string)
    requires BonkerUser(line).Some?
    ensures ChatUser(line) == BonkerUser(line)
  {
  }

  /** A chat user is never empty; one written `<nick>` holds no `>`, one written
      `* nick` holds no space. */
  lemma ChatUserShape(line: string)
    requires ChatUser(line).Some?
    ensures var u := ChatUser(line).value;
      |u| > 0 && (('>' !in u) || (' ' !in u))
  {
    var p := SpeakerAt(line).value;
    if line[p] == '<' {
      RunAvoids(line, p + 1, '>');
    } else {
      RunAvoids(line, p + 2, ' ');
    }
  }

  /** The run `SkipUntil` passes over holds no stop character. */
  lemma RunAvoids(line: string, i: nat, c: char)
    requires i <= |line|
    ensures c !in line[i..SkipUntil(line, i, {c})]
  {
    var e := SkipUntil(line, i, {c});
    SkipUntilSkips(line, i, {c});
    var u := line[i..e];
    assert forall m :: 0 <= m < |u| ==> u[m] == line[i + m];
  }

  /** `[^ ]+` also takes the line terminator: a bare action line `* alice`
      gives the user `alice` followed by the newline. */
  lemma ActionUserKeepsNewline()
    ensures ChatUser("[t] * alice\n") == Some("alice\n")
  {
    var line := "[t] * alice\n";
    SkipUntilIs(line, 1, {']'}, 2);
    SkipUntilIs(line, 3, {'<', '*'}, 4);
    SkipUntilIs(line, 6, {' '}, 12);
    assert line[6..12] == "alice\n";
  }

  /** The same nick followed by a message gives the user `alice`, so the bare
      action line of `ActionUserKeepsNewline` counts under a different key. */
  lemma ActionUserBeforeSpace()
    ensures ChatUser("[t] * alice waves\n") == Some("alice")
  {
    var line := "[t] * alice waves\n";
    SkipUntilIs(line, 1, {']'}, 2);
    SkipUntilIs(line, 3, {'<', '*'}, 4);
    SkipUntilIs(line, 6, {' '}, 11);
    assert line[6..11] == "alice";
  }

  /** A bonk target is a non-empty run of word characters. */
  lemma BonkedUserShape(line: string)
    requires BonkedUser(line).Some?
    ensures var u := BonkedUser(line).value;
      |u| > 0 && forall i :: 0 <= i < |u| ==> IsWordChar(u[i])
  {
    var p := SpeakerAt(line).value;
    var k := NickAt(line, p).value.1;
    var a := if k + 7 < |line| && line[k + 7] == '@' then k + 8 else k + 7;
    WordEndWords(line, a);
  }

  /** `assert user` in the counter never fires: every pattern's user group is
      non-empty whenever the pattern matches. */
  lemma MatchUserNonEmpty(lt: LineType, line: string)
    requires MatchUser(lt, line).Some?
    ensures |MatchUser(lt, line).value| > 0
  {
    if lt == Bonked {
      BonkedUserShape(line);
    }
  }
}
