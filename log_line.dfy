/**
 * One line of an access log in the NCSA Common Log Format variant accepted by
 * `LogAnalyzer.parse_logs`:
 *
 *   address user-id username [timestamp] "request" status size
 *
 * The source matches each line against a regular expression anchored at the
 * start of the line only. This module recognises the same lines by hand:
 * `MatchesAt` says when a set of split points fits the pattern, `Match` is the
 * backtracking matcher, and the lemmas prove that `Match` finds a fit exactly
 * when one exists and picks the same fit as the regular expression engine.
 */
module LogLine {
  import opened Wrappers

  // ---------------------------------------------------------------- characters

  /** Characters that `\s` matches (the ASCII ones; `\S` is everything else). */
  predicate IsSpace(c: char) {
    c == ' ' || c == '\t' || c == '\n' || c == '\r' || c == '\U{0B}' || c == '\U{0C}'
    || ('\U{1C}' <= c <= '\U{1F}')
  }

  /** Characters that `\d` matches. */
  predicate IsDigit(c: char) {
    '0' <= c <= '9'
  }

  /** `\S+` over `line[i..j]`: a non-empty run of non-whitespace characters. */
  predicate TokenIn(line: string, i: nat, j: nat) {
    i < j <= |line| && forall p {:trigger IsSpace(line[p])} :: i <= p < j ==> !IsSpace(line[p])
  }

  /** `.*` over `line[i..j]`: characters that `.` matches, i.e. anything but a newline. */
  predicate NoNewlineIn(line: string, i: nat, j: nat) {
    i <= j <= |line| && forall p :: i <= p < j ==> line[p] != '\n'
  }

  /** `\d+` over `line[i..j]`: a non-empty run of decimal digits. */
  predicate DigitsIn(line: string, i: nat, j: nat) {
    i < j <= |line| && forall p {:trigger IsDigit(line[p])} :: i <= p < j ==> IsDigit(line[p])
  }

  /** `(\d+|-)` over `line[i..j]`: the size field. */
  predicate SizeTokenIn(line: string, i: nat, j: nat) {
    DigitsIn(line, i, j) || (j == i + 1 <= |line| && line[i] == '-')
  }

  /** A string made of decimal digits only (what `str.isdigit` accepts, restricted to ASCII). */
  predicate IsDigits(s: string) {
    |s| > 0 && forall i :: 0 <= i < |s| ==> IsDigit(s[i])
  }

  // ---------------------------------------------------------------- numbers

  function Pow10(n: nat): (p: nat)
    ensures p >= 1
  {
    if n == 0 then 1 else 10 * Pow10(n - 1)
  }

  /** `int(s)` for a string of ASCII digits. */
  function DecimalValue(s: string): (n: nat)
    requires forall i :: 0 <= i < |s| ==> IsDigit(s[i])
    ensures n < Pow10(|s|)
  {
    if s == [] then 0
    else
      var last := s[|s| - 1];
      assert IsDigit(last);
      DecimalValue(s[..|s| - 1]) * 10 + (last as int - '0' as int)
  }

  /** `int(s) if s.isdigit() else 0`: the size field, with `-` counting as 0. */
  function SizeValue(s: string): (n: nat)
    ensures !IsDigits(s) ==> n == 0
  {
    if IsDigits(s) then DecimalValue(s) else 0
  }

  // ---------------------------------------------------------------- entries

  /** A parsed log line: the seven groups of the pattern, status and size as integers. */
  datatype LogEntry = LogEntry(
    ip: string,
    userId: string,
    username: string,
    timestamp: string,
    request: string,
    status: int,
    size: int)

  /**
   * Split points of a line: the end of each of the three leading tokens, the
   * position of the `]` closing the timestamp, of the `"` closing the request
   * and the end of the size field. Everything after `sizeEnd` is ignored.
   */
  datatype Cut = Cut(ipEnd: nat, userEnd: nat, nameEnd: nat, stampEnd: nat, requestEnd: nat, sizeEnd: nat)

  /** `(\S+) (\S+) (\S+) \[` with the three tokens ending at `a`, `b` and `c`. */
  predicate HeadAt(line: string, a: nat, b: nat, c: nat) {
    0 < a && a + 1 < b && b + 1 < c && c + 1 < |line|
    && TokenIn(line, 0, a) && line[a] == ' '
    && TokenIn(line, a + 1, b) && line[b] == ' '
    && TokenIn(line, b + 1, c) && line[c] == ' ' && line[c + 1] == '['
  }

  /** `(\d{3}) (\d+|-)` starting at `s`, the size field ending at `e`. */
  predicate StatusSizeAt(line: string, s: nat, e: nat) {
    s + 4 < e <= |line|
    && DigitsIn(line, s, s + 3) && line[s + 3] == ' '
    && SizeTokenIn(line, s + 4, e)
  }

  /** The line fits the pattern with split points `k`. */
  predicate MatchesAt(line: string, k: Cut) {
    HeadAt(line, k.ipEnd, k.userEnd, k.nameEnd)
    // (.*?)\] \"
    && NoNewlineIn(line, k.nameEnd + 2, k.stampEnd) && k.stampEnd + 2 < |line|
    && line[k.stampEnd] == ']' && line[k.stampEnd + 1] == ' ' && line[k.stampEnd + 2] == '"'
    // (.*?)\" followed by a space
    && NoNewlineIn(line, k.stampEnd + 3, k.requestEnd) && k.requestEnd + 1 < |line|
    && line[k.requestEnd] == '"' && line[k.requestEnd + 1] == ' '
    && StatusSizeAt(line, k.requestEnd + 2, k.sizeEnd)
  }

  /**
   * The order in which the regular expression engine tries split points: the
   * lazy timestamp first (shorter first), then the lazy request (shorter
   * first), then the greedy size run (longer first).
   */
  predicate TriedBefore(k: Cut, k2: Cut) {
    k.stampEnd < k2.stampEnd
    || (k.stampEnd == k2.stampEnd
        && (k.requestEnd < k2.requestEnd || (k.requestEnd == k2.requestEnd && k.sizeEnd >= k2.sizeEnd)))
  }

  /** `k` is the fit the regular expression engine reports: the first one it tries. */
  ghost predicate IsChosen(line: string, k: Cut) {
    MatchesAt(line, k) && forall k2 :: MatchesAt(line, k2) ==> TriedBefore(k, k2)
  }

  /** The entry built from the groups delimited by `k`. */
  function EntryAt(line: string, k: Cut): (e: LogEntry)
    requires MatchesAt(line, k)
    ensures 0 <= e.status <= 999 && e.size >= 0
  {
    var s := k.requestEnd + 2;
    var statusDigits := line[s..s + 3];
    assert forall i :: 0 <= i < 3 ==> statusDigits[i] == line[s + i];
    assert Pow10(3) == 1000;
    LogEntry(
      line[..k.ipEnd],
      line[k.ipEnd + 1..k.userEnd],
      line[k.userEnd + 1..k.nameEnd],
      line[k.nameEnd + 2..k.stampEnd],
      line[k.stampEnd + 3..k.requestEnd],
      DecimalValue(statusDigits),
      SizeValue(line[s + 4..k.sizeEnd]))
  }

  // ---------------------------------------------------------------- the matcher

  /** End of the `\S+` run starting at `i` (greedy). */
  function TokenEnd(line: string, i: nat): (j: nat)
    requires i <= |line|
    ensures i <= j <= |line|
    ensures forall p {:trigger IsSpace(line[p])} :: i <= p < j ==> !IsSpace(line[p])
    ensures j == |line| || IsSpace(line[j])
    decreases |line| - i
  {
    if i == |line| || IsSpace(line[i]) then i else TokenEnd(line, i + 1)
  }

  /** End of the `\d+` run starting at `i` (greedy). */
  function DigitsEnd(line: string, i: nat): (j: nat)
    requires i <= |line|
    ensures i <= j <= |line|
    ensures forall p {:trigger IsDigit(line[p])} :: i <= p < j ==> IsDigit(line[p])
    ensures j == |line| || !IsDigit(line[j])
    decreases |line| - i
  {
    if i == |line| || !IsDigit(line[i]) then i else DigitsEnd(line, i + 1)
  }

  /** `(\d{3}) (\d+|-)` at position `s`: the end of the size field. */
  function MatchStatusSize(line: string, s: nat): (r: Option<nat>)
    requires s <= |line|
    ensures r.Some? ==> StatusSizeAt(line, s, r.value)
  {
    if s + 5 <= |line| && IsDigit(line[s]) && IsDigit(line[s + 1]) && IsDigit(line[s + 2]) && line[s + 3] == ' ' then
      if IsDigit(line[s + 4]) then Some(DigitsEnd(line, s + 4))
      else if line[s + 4] == '-' then Some(s + 5)
      else None
    else None
  }

  /**
   * `(.*?)\" ` followed by status and size, the request group starting at
   * `start` and extended lazily to `q` so far: the closing quote and the end of
   * the size field of the first fit.
   */
  function MatchRequest(line: string, start: nat, q: nat): (r: Option<(nat, nat)>)
    requires NoNewlineIn(line, start, q)
    ensures r.Some? ==>
      q <= r.value.0 && NoNewlineIn(line, start, r.value.0) && r.value.0 + 1 < |line|
      && line[r.value.0] == '"' && line[r.value.0 + 1] == ' '
      && StatusSizeAt(line, r.value.0 + 2, r.value.1)
    decreases |line| - q
  {
    if q == |line| then None
    else if q + 1 < |line| && line[q] == '"' && line[q + 1] == ' ' && MatchStatusSize(line, q + 2).Some? then
      Some((q, MatchStatusSize(line, q + 2).value))
    else if line[q] == '\n' then None
    else MatchRequest(line, start, q + 1)
  }

  /**
   * `(.*?)\] \"` followed by the rest of the pattern, the timestamp group
   * starting at `start` and extended lazily to `t` so far.
   */
  function MatchStamp(line: string, start: nat, t: nat): (r: Option<(nat, nat, nat)>)
    requires NoNewlineIn(line, start, t)
    ensures r.Some? ==>
      t <= r.value.0 && NoNewlineIn(line, start, r.value.0) && r.value.0 + 2 < |line|
      && line[r.value.0] == ']' && line[r.value.0 + 1] == ' ' && line[r.value.0 + 2] == '"'
      && NoNewlineIn(line, r.value.0 + 3, r.value.1) && r.value.1 + 1 < |line|
      && line[r.value.1] == '"' && line[r.value.1 + 1] == ' '
      && StatusSizeAt(line, r.value.1 + 2, r.value.2)
    decreases |line| - t
  {
    if t == |line| then None
    else if t + 2 < |line| && line[t] == ']' && line[t + 1] == ' ' && line[t + 2] == '"'
            && MatchRequest(line, t + 3, t + 3).Some? then
      var r := MatchRequest(line, t + 3, t + 3).value;
      Some((t, r.0, r.1))
    else if line[t] == '\n' then None
    else MatchStamp(line, start, t + 1)
  }

  /** `(\S+) (\S+) (\S+) \[`: the ends of the three leading tokens. */
  function MatchHead(line: string): (r: Option<(nat, nat, nat)>)
    ensures r.Some? ==> HeadAt(line, r.value.0, r.value.1, r.value.2)
  {
    var a := TokenEnd(line, 0);
    if a == 0 || a == |line| || line[a] != ' ' then None
    else
      var b := TokenEnd(line, a + 1);
      if b == a + 1 || b == |line| || line[b] != ' ' then None
      else
        var c := TokenEnd(line, b + 1);
        if c == b + 1 || c + 1 >= |line| || line[c] != ' ' || line[c + 1] != '[' then None
        else Some((a, b, c))
  }

  /** The backtracking match of the whole pattern at the start of the line. */
  function Match(line: string): (r: Option<Cut>)
    ensures r.Some? ==> MatchesAt(line, r.value)
  {
    var h := MatchHead(line);
    if h.None? then None
    else
      var c := h.value.2;
      var m := MatchStamp(line, c + 2, c + 2);
      if m.None? then None
      else Some(Cut(h.value.0, h.value.1, c, m.value.0, m.value.1, m.value.2))
  }

  /** `parse_logs` on one line: the entry, or None for a line that does not match. */
  function ParseLine(line: string): (r: Option<LogEntry>)
    ensures r.Some? ==> 0 <= r.value.status <= 999 && r.value.size >= 0
  {
    var m := Match(line);
    if m.None? then None else Some(EntryAt(line, m.value))
  }

  // ---------------------------------------------------------------- completeness

  /** The three leading tokens are forced: a `\S+` run followed by whitespace ends there. */
  lemma {:induction false} TokenEndForced(line: string, i: nat, j: nat)
    requires i <= j < |line| && IsSpace(line[j])
    requires forall p {:trigger IsSpace(line[p])} :: i <= p < j ==> !IsSpace(line[p])
    ensures TokenEnd(line, i) == j
    decreases j - i
  {
    if i < j {
      TokenEndForced(line, i + 1, j);
    }
  }

  lemma HeadComplete(line: string, a: nat, b: nat, c: nat)
    requires HeadAt(line, a, b, c)
    ensures MatchHead(line) == Some((a, b, c))
  {
    TokenEndForced(line, 0, a);
    TokenEndForced(line, a + 1, b);
    TokenEndForced(line, b + 1, c);
  }

  /** A run of digits from `i` to `e` is matched greedily up to `e` at least. */
  lemma {:induction false} DigitsEndReaches(line: string, i: nat, e: nat)
    requires DigitsIn(line, i, e)
    ensures DigitsEnd(line, i) >= e
    decreases e - i
  {
    assert IsDigit(line[i]);
    if i + 1 < e {
      DigitsEndReaches(line, i + 1, e);
    }
  }

  /** The status and size fields are recognised, the size run no shorter than any that fits. */
  lemma StatusSizeComplete(line: string, s: nat, e: nat)
    requires StatusSizeAt(line, s, e)
    ensures MatchStatusSize(line, s).Some? && MatchStatusSize(line, s).value >= e
  {
    assert IsDigit(line[s]) && IsDigit(line[s + 1]) && IsDigit(line[s + 2]);
    if IsDigit(line[s + 4]) {
      assert DigitsIn(line, s + 4, e);
      DigitsEndReaches(line, s + 4, e);
    }
  }

  /**
   * When `" ` at `e` is followed by status and size ending at `z`,
   * `MatchRequest` from any `q <= e` stops before `e`, or at `e` with a size
   * field no shorter.
   */
  lemma {:induction false} RequestReaches(line: string, start: nat, q: nat, e: nat, z: nat)
    requires start <= q <= e && NoNewlineIn(line, start, e) && e + 1 < |line|
    requires line[e] == '"' && line[e + 1] == ' ' && StatusSizeAt(line, e + 2, z)
    ensures MatchRequest(line, start, q).Some?
    ensures var r := MatchRequest(line, start, q).value;
      r.0 < e || (r.0 == e && r.1 >= z)
    decreases e - q
  {
    assert NoNewlineIn(line, start, q);
    if q == e {
      StatusSizeComplete(line, e + 2, z);
    } else if !(q + 1 < |line| && line[q] == '"' && line[q + 1] == ' ' && MatchStatusSize(line, q + 2).Some?) {
      assert line[q] != '\n';
      RequestReaches(line, start, q + 1, e, z);
    }
  }

  /** `MatchStamp` stops at the first `] "` followed by a matching rest. */
  lemma StampHere(line: string, start: nat, t: nat)
    requires NoNewlineIn(line, start, t) && t + 2 < |line|
    requires line[t] == ']' && line[t + 1] == ' ' && line[t + 2] == '"'
    requires MatchRequest(line, t + 3, t + 3).Some?
    ensures MatchStamp(line, start, t).Some? && MatchStamp(line, start, t).value.0 == t
    ensures MatchStamp(line, start, t).value.1 == MatchRequest(line, t + 3, t + 3).value.0
    ensures MatchStamp(line, start, t).value.2 == MatchRequest(line, t + 3, t + 3).value.1
  {
  }

  /** Elsewhere it extends the timestamp by one character other than a newline. */
  lemma StampSkip(line: string, start: nat, t: nat)
    requires NoNewlineIn(line, start, t) && t < |line| && line[t] != '\n'
    requires !(t + 2 < |line| && line[t] == ']' && line[t + 1] == ' ' && line[t + 2] == '"'
               && MatchRequest(line, t + 3, t + 3).Some?)
    ensures NoNewlineIn(line, start, t + 1)
    ensures MatchStamp(line, start, t) == MatchStamp(line, start, t + 1)
  {
  }

  /**
   * When `] "` at `s` is followed by a matching rest, `MatchStamp` from any
   * `t <= s` stops at `s` or earlier, and at `s` with the same rest.
   */
  lemma {:induction false} StampReaches(line: string, start: nat, t: nat, s: nat)
    requires start <= t <= s && NoNewlineIn(line, start, s) && s + 2 < |line|
    requires line[s] == ']' && line[s + 1] == ' ' && line[s + 2] == '"'
    requires MatchRequest(line, s + 3, s + 3).Some?
    ensures MatchStamp(line, start, t).Some? && MatchStamp(line, start, t).value.0 <= s
    ensures MatchStamp(line, start, t).value.0 == s ==>
      MatchStamp(line, start, t).value.1 == MatchRequest(line, s + 3, s + 3).value.0
      && MatchStamp(line, start, t).value.2 == MatchRequest(line, s + 3, s + 3).value.1
    decreases s - t
  {
    assert NoNewlineIn(line, start, t);
    if t == s || (t + 2 < |line| && line[t] == ']' && line[t + 1] == ' ' && line[t + 2] == '"'
                  && MatchRequest(line, t + 3, t + 3).Some?) {
      StampHere(line, start, t);
    } else {
      StampSkip(line, start, t);
      StampReaches(line, start, t + 1, s);
    }
  }

  /** `Match` combines the leading tokens with the rest found after the `[`. */
  lemma MatchOfParts(line: string, a: nat, b: nat, c: nat)
    requires MatchHead(line) == Some((a, b, c))
    requires MatchStamp(line, c + 2, c + 2).Some?
    ensures var m := MatchStamp(line, c + 2, c + 2).value;
      Match(line) == Some(Cut(a, b, c, m.0, m.1, m.2))
  {
    var h, m := MatchHead(line), MatchStamp(line, c + 2, c + 2);
    assert h.value.0 == a && h.value.1 == b && h.value.2 == c;
    assert Match(line) == Some(Cut(h.value.0, h.value.1, h.value.2, m.value.0, m.value.1, m.value.2));
  }


  /**
   * After the `[`, the timestamp and request groups and the size field are
   * found no later, in the engine's order, than any fit ending at `s`, `e`
   * and `z`.
   */
  lemma RestComplete(line: string, start: nat, s: nat, e: nat, z: nat)
    requires start <= s && NoNewlineIn(line, start, s) && s + 2 < |line|
    requires line[s] == ']' && line[s + 1] == ' ' && line[s + 2] == '"'
    requires s + 3 <= e && NoNewlineIn(line, s + 3, e) && e + 1 < |line|
    requires line[e] == '"' && line[e + 1] == ' ' && StatusSizeAt(line, e + 2, z)
    ensures MatchStamp(line, start, start).Some?
    ensures var r := MatchStamp(line, start, start).value;
      r.0 < s || (r.0 == s && (r.1 < e || (r.1 == e && r.2 >= z)))
  {
    RequestReaches(line, s + 3, s + 3, e, z);
    StampReaches(line, start, start, s);
  }

  /** The leading tokens are found, and the rest is found no later than the one of `k`. */
  lemma PartsComplete(line: string, k: Cut)
    requires MatchesAt(line, k)
    ensures MatchHead(line) == Some((k.ipEnd, k.userEnd, k.nameEnd))
    ensures MatchStamp(line, k.nameEnd + 2, k.nameEnd + 2).Some?
    ensures var r := MatchStamp(line, k.nameEnd + 2, k.nameEnd + 2).value;
      TriedBefore(Cut(k.ipEnd, k.userEnd, k.nameEnd, r.0, r.1, r.2), k)
  {
    HeadComplete(line, k.ipEnd, k.userEnd, k.nameEnd);
    RestComplete(line, k.nameEnd + 2, k.stampEnd, k.requestEnd, k.sizeEnd);
  }

  /** Whenever the line fits the pattern at all, `Match` finds a fit no later than that one. */
  lemma MatchComplete(line: string, k: Cut)
    requires MatchesAt(line, k)
    ensures Match(line).Some? && TriedBefore(Match(line).value, k)
  {
    PartsComplete(line, k);
    MatchOfParts(line, k.ipEnd, k.userEnd, k.nameEnd);
  }

  // ---------------------------------------------------------------- what ParseLine accepts

  /** `Match` returns exactly the fit the regular expression engine reports. */
  lemma MatchIsChosen(line: string)
    ensures Match(line).Some? <==> exists k :: MatchesAt(line, k)
    ensures Match(line).Some? ==> IsChosen(line, Match(line).value)
  {
    if exists k :: MatchesAt(line, k) {
      var k :| MatchesAt(line, k);
      MatchComplete(line, k);
      forall k2 | MatchesAt(line, k2) ensures TriedBefore(Match(line).value, k2) {
        MatchComplete(line, k2);
      }
    }
  }

  /** Two fits that both come first are the same fit. */
  lemma ChosenUnique(line: string, k1: Cut, k2: Cut)
    requires IsChosen(line, k1) && IsChosen(line, k2)
    ensures k1 == k2
  {
    HeadComplete(line, k1.ipEnd, k1.userEnd, k1.nameEnd);
    HeadComplete(line, k2.ipEnd, k2.userEnd, k2.nameEnd);
  }

  /**
   * A line yields an entry exactly when it fits the pattern, and the entry is
   * made of the groups of the fit the regular expression engine reports.
   */
  lemma ParseLineSpec(line: string)
    ensures ParseLine(line).Some? <==> exists k :: MatchesAt(line, k)
    ensures forall k :: IsChosen(line, k) ==> ParseLine(line) == Some(EntryAt(line, k))
  {
    MatchIsChosen(line);
    forall k | IsChosen(line, k) ensures ParseLine(line) == Some(EntryAt(line, k)) {
      ChosenUnique(line, k, Match(line).value);
    }
  }

  /**
   * Lenient parsing: a line with no `" ` closing a request, such as a line cut
   * off in the middle of the request, yields no entry.
   */
  lemma UnclosedRequestRejected(line: string)
    requires forall i :: 0 <= i < |line| - 1 ==> !(line[i] == '"' && line[i + 1] == ' ')
    ensures ParseLine(line) == None
  {
    MatchIsChosen(line);
  }

  /**
   * The usual case: in a fit whose timestamp holds no `]`, whose request holds
   * no `"` and whose size field is followed by a non-digit (or the end of the
   * line), the groups are those of the entry the line yields.
   */
  lemma PlainFitIsChosen(line: string, k: Cut)
    requires MatchesAt(line, k)
    requires forall p :: k.nameEnd + 2 <= p < k.stampEnd ==> line[p] != ']'
    requires forall p :: k.stampEnd + 3 <= p < k.requestEnd ==> line[p] != '"'
    requires k.sizeEnd == |line| || !IsDigit(line[k.sizeEnd])
    ensures IsChosen(line, k)
    ensures ParseLine(line) == Some(EntryAt(line, k))
  {
    forall k2 | MatchesAt(line, k2) ensures TriedBefore(k, k2) {
      HeadComplete(line, k.ipEnd, k.userEnd, k.nameEnd);
      HeadComplete(line, k2.ipEnd, k2.userEnd, k2.nameEnd);
    }
    ParseLineSpec(line);
  }

  /** `1234` gives 1234 and `-` gives 0. */
  lemma SizeExamples()
    ensures SizeValue("1234") == 1234
    ensures SizeValue("-") == 0
  {
    assert IsDigits("1234");
    assert "1234"[..3] == "123" && "123"[..2] == "12" && "12"[..1] == "1" && "1"[..0] == "";
  }

  // ---------------------------------------------------------------- writing a line

  /** The seven fields of a log line as the server writes them. */
  datatype RawLine = RawLine(
    ip: string,
    userId: string,
    username: string,
    timestamp: string,
    request: string,
    status: string,
    size: string)
  {
    /** The text of the line. */
    function Text(): string {
      ip + " " + userId + " " + username + " [" + timestamp + "] \"" + request + "\" " + status + " " + size
    }

    /**
     * Fields the server writes: three tokens, a timestamp without `]` and a
     * request without `"` (neither with a newline), three status digits and a
     * size that is a digit run or `-`.
     */
    predicate WellFormed() {
      IsToken(ip) && IsToken(userId) && IsToken(username)
      && (forall i :: 0 <= i < |timestamp| ==> timestamp[i] != ']' && timestamp[i] != '\n')
      && (forall i :: 0 <= i < |request| ==> request[i] != '"' && request[i] != '\n')
      && |status| == 3 && IsDigits(status)
      && (IsDigits(size) || size == "-")
    }
  }

  predicate IsToken(s: string) {
    |s| > 0 && forall i :: 0 <= i < |s| ==> !IsSpace(s[i])
  }

  /**
   * Reading back what the server wrote: a well-formed line, followed by
   * nothing or by text that does not start with a digit (such as the newline
   * kept by line iteration), yields the entry made of its fields.
   */
  lemma ParseWritten(r: RawLine, rest: string)
    requires r.WellFormed()
    requires rest == [] || !IsDigit(rest[0])
    ensures ParseLine(r.Text() + rest)
      == Some(LogEntry(r.ip, r.userId, r.username, r.timestamp, r.request, DecimalValue(r.status), SizeValue(r.size)))
  {
    var line, k := r.Text() + rest, WrittenCut(r);
    WrittenFields(r, rest);
    FieldsArePlainFit(line, r, rest, k);
    PlainFitIsChosen(line, k);
  }

  /** Where the fields of `r` sit in `line`. */
  predicate FieldsAt(line: string, r: RawLine, rest: string, k: Cut) {
    k.ipEnd + 1 <= k.userEnd && k.userEnd + 1 <= k.nameEnd && k.nameEnd + 2 <= k.stampEnd
    && k.stampEnd + 3 <= k.requestEnd && k.requestEnd + 6 <= k.sizeEnd <= |line|
    && line[..k.ipEnd] == r.ip && line[k.ipEnd] == ' '
    && line[k.ipEnd + 1..k.userEnd] == r.userId && line[k.userEnd] == ' '
    && line[k.userEnd + 1..k.nameEnd] == r.username && line[k.nameEnd] == ' ' && line[k.nameEnd + 1] == '['
    && line[k.nameEnd + 2..k.stampEnd] == r.timestamp
    && line[k.stampEnd] == ']' && line[k.stampEnd + 1] == ' ' && line[k.stampEnd + 2] == '"'
    && line[k.stampEnd + 3..k.requestEnd] == r.request
    && line[k.requestEnd] == '"' && line[k.requestEnd + 1] == ' '
    && line[k.requestEnd + 2..k.requestEnd + 5] == r.status && line[k.requestEnd + 5] == ' '
    && line[k.requestEnd + 6..k.sizeEnd] == r.size
    && line[k.sizeEnd..] == rest
  }

  /** Well-formed fields at their places make a fit of the kind `PlainFitIsChosen` describes. */
  lemma FieldsArePlainFit(line: string, r: RawLine, rest: string, k: Cut)
    requires r.WellFormed() && FieldsAt(line, r, rest, k)
    requires rest == [] || !IsDigit(rest[0])
    ensures MatchesAt(line, k)
    ensures forall p :: k.nameEnd + 2 <= p < k.stampEnd ==> line[p] != ']'
    ensures forall p :: k.stampEnd + 3 <= p < k.requestEnd ==> line[p] != '"'
    ensures k.sizeEnd == |line| || !IsDigit(line[k.sizeEnd])
  {
    FieldsHead(line, r, rest, k);
    SliceChars(line, k.nameEnd + 2, k.stampEnd, r.timestamp);
    SliceChars(line, k.stampEnd + 3, k.requestEnd, r.request);
    FieldsStatusSize(line, r, rest, k);
    assert k.sizeEnd < |line| ==> line[k.sizeEnd] == line[k.sizeEnd..][0] == rest[0];
  }

  lemma FieldsHead(line: string, r: RawLine, rest: string, k: Cut)
    requires r.WellFormed() && FieldsAt(line, r, rest, k)
    ensures HeadAt(line, k.ipEnd, k.userEnd, k.nameEnd)
  {
    SliceChars(line, 0, k.ipEnd, r.ip);
    SliceChars(line, k.ipEnd + 1, k.userEnd, r.userId);
    SliceChars(line, k.userEnd + 1, k.nameEnd, r.username);
  }

  lemma FieldsStatusSize(line: string, r: RawLine, rest: string, k: Cut)
    requires r.WellFormed() && FieldsAt(line, r, rest, k)
    ensures StatusSizeAt(line, k.requestEnd + 2, k.sizeEnd)
  {
    SliceChars(line, k.requestEnd + 2, k.requestEnd + 5, r.status);
    SliceChars(line, k.requestEnd + 6, k.sizeEnd, r.size);
  }

  lemma SliceChars(line: string, i: nat, j: nat, s: string)
    requires i <= j <= |line| && line[i..j] == s
    ensures forall p :: i <= p < j ==> line[p] == s[p - i]
  {
    forall p | i <= p < j ensures line[p] == s[p - i] {
      assert line[i..j][p - i] == line[p];
    }
  }

  /** Where the fields of a written line end. */
  function WrittenCut(r: RawLine): (k: Cut)
    ensures k.sizeEnd == |r.Text()|
  {
    var a := |r.ip|;
    var b := a + 1 + |r.userId|;
    var c := b + 1 + |r.username|;
    var t := c + 2 + |r.timestamp|;
    var q := t + 3 + |r.request|;
    Cut(a, b, c, t, q, q + 3 + |r.status| + |r.size|)
  }

  lemma WrittenFields(r: RawLine, rest: string)
    requires |r.status| == 3
    ensures FieldsAt(r.Text() + rest, r, rest, WrittenCut(r))
  {
    var line, k := r.Text() + rest, WrittenCut(r);
    WrittenSlices(r, rest);
  }

  /** A prefix of `line` made of `pre`, `field` and `sep` places each of them. */
  lemma Piece(line: string, pre: string, field: string, sep: string)
    requires |pre| + |field| + |sep| <= |line|
    requires line[..|pre| + |field| + |sep|] == pre + field + sep
    ensures line[..|pre|] == pre
    ensures line[|pre|..|pre| + |field|] == field
    ensures |sep| >= 1 ==> line[|pre| + |field|] == sep[0]
    ensures |sep| >= 2 ==> line[|pre| + |field| + 1] == sep[1]
    ensures |sep| >= 3 ==> line[|pre| + |field| + 2] == sep[2]
  {
    var n := |pre| + |field| + |sep|;
    assert forall p :: 0 <= p < n ==> line[p] == (pre + field + sep)[p];
  }

  lemma SplitAt(a: string, b: string)
    ensures (a + b)[..|a|] == a && (a + b)[|a|..] == b
  {
  }

  lemma WrittenSlices(r: RawLine, rest: string)
    requires |r.status| == 3
    ensures var line, k := r.Text() + rest, WrittenCut(r);
      line[..k.ipEnd] == r.ip && line[k.ipEnd] == ' '
      && line[k.ipEnd + 1..k.userEnd] == r.userId && line[k.userEnd] == ' '
      && line[k.userEnd + 1..k.nameEnd] == r.username && line[k.nameEnd] == ' ' && line[k.nameEnd + 1] == '['
      && line[k.nameEnd + 2..k.stampEnd] == r.timestamp
      && line[k.stampEnd] == ']' && line[k.stampEnd + 1] == ' ' && line[k.stampEnd + 2] == '"'
      && line[k.stampEnd + 3..k.requestEnd] == r.request
      && line[k.requestEnd] == '"' && line[k.requestEnd + 1] == ' '
      && line[k.requestEnd + 2..k.requestEnd + 5] == r.status && line[k.requestEnd + 5] == ' '
      && line[k.requestEnd + 6..k.sizeEnd] == r.size
      && line[k.sizeEnd..] == rest
  {
    var line := r.Text() + rest;
    var s1 := r.ip + " ";
    var s2 := s1 + r.userId + " ";
    var s3 := s2 + r.username + " [";
    var s4 := s3 + r.timestamp + "] \"";
    var s5 := s4 + r.request + "\" ";
    var s6 := s5 + r.status + " ";
    var s7 := s6 + r.size;
    var k := WrittenCut(r);
    assert |s1| == k.ipEnd + 1 && |s2| == k.userEnd + 1 && |s3| == k.nameEnd + 2;
    assert |s4| == k.stampEnd + 3 && |s5| == k.requestEnd + 2 && |s6| == k.requestEnd + 6;
    assert |s7| == k.sizeEnd;
    assert r.Text() == s7;
    SplitAt(s7, rest);
    Piece(line, s6, r.size, "");
    Piece(line, s5, r.status, " ");
    Piece(line, s4, r.request, "\" ");
    Piece(line, s3, r.timestamp, "] \"");
    Piece(line, s2, r.username, " [");
    Piece(line, s1, r.userId, " ");
    assert [] + r.ip + " " == s1;
    Piece(line, [], r.ip, " ");
  }
}
