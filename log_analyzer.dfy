/**
 * `LogAnalyzer.parse_logs` and `LogAnalyzer.analyze_logs`: read the lines of
 * an access log, keep the ones that match the line pattern, and summarise
 * them by status code, bytes sent and most frequent client address.
 *
 * The log file is given as the sequence of its lines together with a flag
 * saying whether the file exists.
 */
module LogAnalyzer {
  import opened Wrappers
  import opened LogLine
  import opened Counting

  /** The one error the analyzer reports: the log file does not exist. */
  datatype Error = SourceNotFound

  /** The dictionary `analyze_logs` returns. */
  datatype Summary = Summary(
    totalRequests: int,
    statusCount: Tally<int>,
    totalDataTransferred: int,
    mostFrequentIp: Option<string>,
    mostFrequentIpCount: int)

  // ---------------------------------------------------------------- reference definitions

  /** The entries of the lines that match, in the order of the lines. */
  function ParsedEntries(lines: seq<string>): seq<LogEntry>
  {
    if lines == [] then []
    else
      var last := ParseLine(lines[|lines| - 1]);
      ParsedEntries(lines[..|lines| - 1]) + (if last.Some? then [last.value] else [])
  }

  /** The status code of each entry. */
  function Statuses(entries: seq<LogEntry>): (s: seq<int>)
    ensures |s| == |entries| && forall i :: 0 <= i < |entries| ==> s[i] == entries[i].status
  {
    seq(|entries|, i requires 0 <= i < |entries| => entries[i].status)
  }

  /** The client address of each entry. */
  function Ips(entries: seq<LogEntry>): (s: seq<string>)
    ensures |s| == |entries| && forall i :: 0 <= i < |entries| ==> s[i] == entries[i].ip
  {
    seq(|entries|, i requires 0 <= i < |entries| => entries[i].ip)
  }

  /** The sum of the sizes of the entries. */
  function SumSizes(entries: seq<LogEntry>): int
  {
    if entries == [] then 0 else SumSizes(entries[..|entries| - 1]) + entries[|entries| - 1].size
  }

  /**
   * `s` is the summary of `entries`: the number of entries; the status codes
   * in the order they first occur, each with its number of occurrences; the
   * sum of the sizes; and the most frequent client address with its number of
   * occurrences, or none and 0 when there are no entries.
   */
  ghost predicate IsSummaryOf(entries: seq<LogEntry>, s: Summary) {
    var ips := Ips(entries);
    s.totalRequests == |entries|
    && s.statusCount == TallyOf(Statuses(entries))
    && s.totalDataTransferred == SumSizes(entries)
    && match s.mostFrequentIp
       case None => entries == [] && s.mostFrequentIpCount == 0
       case Some(ip) => IsMostFrequent(ips, ip) && s.mostFrequentIpCount == Count(ips, ip)
  }

  // ---------------------------------------------------------------- the methods

  /**
   * `parse_logs`: fails before reading anything when the file does not exist,
   * otherwise keeps the entry of every line that matches, in order.
   */
  method ParseLogs(sourceExists: bool, lines: seq<string>) returns (r: Result<seq<LogEntry>, Error>)
    ensures !sourceExists ==> r == Failure(SourceNotFound)
    ensures sourceExists ==> r == Success(ParsedEntries(lines))
  {
    if !sourceExists {
      return Failure(SourceNotFound);
    }
    var logs := [];
    var i := 0;
    while i < |lines|
      invariant 0 <= i <= |lines|
      invariant logs == ParsedEntries(lines[..i])
    {
      assert lines[..i + 1][..i] == lines[..i];
      var entry := ParseLine(lines[i]);
      if entry.Some? {
        logs := logs + [entry.value];
      }
      i := i + 1;
    }
    assert lines[..|lines|] == lines;
    return Success(logs);
  }

  /**
   * `max(d, key=d.get, default=None)`: the first key, in insertion order,
   * whose value no other key exceeds, or None for an empty dictionary.
   */
  method MostFrequent(t: Tally<string>) returns (best: Option<string>)
    requires t.Valid()
    ensures best.None? <==> t.order == []
    ensures best.Some? ==> t.IsFirstMax(best.value)
  {
    best := None;
    var bestCount := 0;
    ghost var bestIndex := 0;
    var i := 0;
    while i < |t.order|
      invariant 0 <= i <= |t.order|
      invariant best.None? <==> i == 0
      invariant best.Some? ==>
        bestIndex < i && best.value == t.order[bestIndex] && bestCount == t.count[best.value]
        && (forall j :: 0 <= j < i ==> t.count[t.order[j]] <= bestCount)
        && (forall j :: 0 <= j < bestIndex ==> t.count[t.order[j]] < bestCount)
    {
      var key := t.order[i];
      if best.None? || t.count[key] > bestCount {
        best, bestCount := Some(key), t.count[key];
        bestIndex := i;
      }
      i := i + 1;
    }
  }

  /**
   * The counting part of `analyze_logs`: one pass over the entries updating
   * the status dictionary, the byte total and the address dictionary, then
   * the most frequent address and its count.
   */
  method Summarize(entries: seq<LogEntry>) returns (s: Summary)
    ensures IsSummaryOf(entries, s)
  {
    var statusCount: Tally<int> := Tally([], map[]);
    var totalSize := 0;
    var ipAccessCount: Tally<string> := Tally([], map[]);
    var i := 0;
    while i < |entries|
      invariant 0 <= i <= |entries|
      invariant statusCount == TallyOf(Statuses(entries[..i]))
      invariant totalSize == SumSizes(entries[..i])
      invariant ipAccessCount == TallyOf(Ips(entries[..i]))
    {
      var log := entries[i];
      SummarizeStep(entries, i);
      statusCount := statusCount.Add(log.status);
      totalSize := totalSize + log.size;
      ipAccessCount := ipAccessCount.Add(log.ip);
      i := i + 1;
    }
    assert entries[..|entries|] == entries;
    TallyOfValid(Ips(entries));
    var mostFrequentIp := MostFrequent(ipAccessCount);
    var mostFrequentIpCount := if mostFrequentIp.Some? then ipAccessCount.count[mostFrequentIp.value] else 0;
    if mostFrequentIp.Some? {
      FirstMaxIsMostFrequent(Ips(entries), mostFrequentIp.value);
    }
    s := Summary(|entries|, statusCount, totalSize, mostFrequentIp, mostFrequentIpCount);
  }

  /** One more entry is one more `+= 1` in each dictionary and its size added to the total. */
  lemma SummarizeStep(entries: seq<LogEntry>, i: nat)
    requires i < |entries|
    ensures TallyOf(Statuses(entries[..i + 1])) == TallyOf(Statuses(entries[..i])).Add(entries[i].status)
    ensures TallyOf(Ips(entries[..i + 1])) == TallyOf(Ips(entries[..i])).Add(entries[i].ip)
    ensures SumSizes(entries[..i + 1]) == SumSizes(entries[..i]) + entries[i].size
  {
    assert entries[..i + 1][..i] == entries[..i];
    assert Statuses(entries[..i + 1]) == Statuses(entries[..i]) + [entries[i].status];
    assert Ips(entries[..i + 1]) == Ips(entries[..i]) + [entries[i].ip];
    TallyOfSnoc(Statuses(entries[..i]), entries[i].status);
    TallyOfSnoc(Ips(entries[..i]), entries[i].ip);
  }

  /** `analyze_logs`: the summary of the entries `parse_logs` keeps, or its error. */
  method AnalyzeLogs(sourceExists: bool, lines: seq<string>) returns (r: Result<Summary, Error>)
    ensures !sourceExists ==> r == Failure(SourceNotFound)
    ensures sourceExists ==> r.Success? && IsSummaryOf(ParsedEntries(lines), r.value)
  {
    var logs := ParseLogs(sourceExists, lines);
    if logs.Failure? {
      return Failure(logs.error);
    }
    var summary := Summarize(logs.value);
    return Success(summary);
  }

  // ---------------------------------------------------------------- properties of parse_logs

  /** Reading two parts of a file one after the other gives the entries of both, in order. */
  lemma {:induction false} ParsedEntriesAppend(a: seq<string>, b: seq<string>)
    ensures ParsedEntries(a + b) == ParsedEntries(a) + ParsedEntries(b)
    decreases |b|
  {
    if b != [] {
      var b' := b[..|b| - 1];
      assert (a + b)[..|a + b| - 1] == a + b';
      ParsedEntriesAppend(a, b');
    } else {
      assert a + b == a;
    }
  }

  /**
   * A malformed line, such as a last line cut off inside the request, adds no
   * entry and leaves the entries of the lines before it as they are.
   */
  lemma RejectedLastLine(lines: seq<string>, last: string)
    requires ParseLine(last) == None
    ensures ParsedEntries(lines + [last]) == ParsedEntries(lines)
  {
    ParsedEntriesAppend(lines, [last]);
    assert [last][..0] == [];
  }

  /** A line that matches adds its entry after the entries of the lines before it. */
  lemma AcceptedLastLine(lines: seq<string>, last: string, e: LogEntry)
    requires ParseLine(last) == Some(e)
    ensures ParsedEntries(lines + [last]) == ParsedEntries(lines) + [e]
  {
    assert (lines + [last])[..|lines|] == lines;
  }

  /** Every entry comes from a line that matches, and there are no more entries than lines. */
  lemma {:induction false} ParsedEntriesFromLines(lines: seq<string>)
    ensures |ParsedEntries(lines)| <= |lines|
    ensures forall e :: e in ParsedEntries(lines) ==> exists l :: l in lines && ParseLine(l) == Some(e)
  {
    if lines != [] {
      var init := lines[..|lines| - 1];
      assert lines == init + [lines[|lines| - 1]];
      ParsedEntriesFromLines(init);
    }
  }

  /** When every line matches, there is one entry per line, in the order of the lines. */
  lemma {:induction false} AllLinesMatch(lines: seq<string>, entries: seq<LogEntry>)
    requires |lines| == |entries|
    requires forall i {:trigger lines[i]} :: 0 <= i < |lines| ==> ParseLine(lines[i]) == Some(entries[i])
    ensures ParsedEntries(lines) == entries
  {
    if lines != [] {
      var n := |lines| - 1;
      var front, last := lines[..n], lines[n];
      assert entries == entries[..n] + [entries[n]];
      assert ParseLine(last) == Some(entries[n]);
      assert ParsedEntries(lines) == ParsedEntries(front) + [entries[n]];
      forall i | 0 <= i < n
        ensures ParseLine(front[i]) == Some(entries[..n][i])
      {
        assert front[i] == lines[i];
      }
      AllLinesMatch(front, entries[..n]);
    }
  }

  /** Every entry has a status of at most three digits and a size that is not negative. */
  lemma ParsedEntriesBounds(lines: seq<string>)
    ensures forall e :: e in ParsedEntries(lines) ==> 0 <= e.status <= 999 && e.size >= 0
  {
    ParsedEntriesFromLines(lines);
  }

  // ---------------------------------------------------------------- properties of analyze_logs

  lemma {:induction false} SumSizesNonNegative(entries: seq<LogEntry>)
    requires forall e :: e in entries ==> e.size >= 0
    ensures SumSizes(entries) >= 0
  {
    if entries != [] {
      var init := entries[..|entries| - 1];
      assert forall e :: e in init ==> e in entries;
      SumSizesNonNegative(init);
    }
  }

  /** The bytes transferred, summed over the entries of a log, are never negative. */
  lemma TotalDataNonNegative(lines: seq<string>, s: Summary)
    requires IsSummaryOf(ParsedEntries(lines), s)
    ensures s.totalDataTransferred >= 0
  {
    ParsedEntriesBounds(lines);
    SumSizesNonNegative(ParsedEntries(lines));
  }

  /**
   * The number of requests is the sum of the status counts and also the sum
   * of the per-address counts.
   */
  lemma CountsAddUp(entries: seq<LogEntry>, s: Summary)
    requires IsSummaryOf(entries, s)
    ensures s.statusCount.Valid() && s.statusCount.Total() == s.totalRequests
    ensures TallyOf(Ips(entries)).Valid() && TallyOf(Ips(entries)).Total() == s.totalRequests
  {
    TotalIsLength(Statuses(entries));
    TotalIsLength(Ips(entries));
  }

  /**
   * The status dictionary holds exactly the status codes that occur, each
   * with its number of occurrences (at least one), in the order in which the
   * codes first occur.
   */
  lemma StatusCountExact(entries: seq<LogEntry>, s: Summary)
    requires IsSummaryOf(entries, s)
    ensures forall st :: st in s.statusCount.count <==> exists i :: 0 <= i < |entries| && entries[i].status == st
    ensures forall st :: st in s.statusCount.count ==>
      s.statusCount.count[st] == Count(Statuses(entries), st) >= 1
    ensures var order := s.statusCount.order;
      forall i, j :: 0 <= i < j < |order| ==>
        FirstPos(Statuses(entries), order[i]) < FirstPos(Statuses(entries), order[j])
  {
    var statuses := Statuses(entries);
    TallyOfValid(statuses);
    forall st | st in s.statusCount.count
      ensures exists i :: 0 <= i < |entries| && entries[i].status == st
    {
      var i :| 0 <= i < |statuses| && statuses[i] == st;
    }
    forall i, j | 0 <= i < j < |s.statusCount.order|
      ensures FirstPos(statuses, s.statusCount.order[i]) < FirstPos(statuses, s.statusCount.order[j])
    {
      DistinctInFirstOccurrenceOrder(statuses, i, j);
    }
  }

  /**
   * There is a most frequent address exactly when there are entries; it is an
   * address of some entry, no address occurs more often, and of the addresses
   * that occur as often it is the one whose first occurrence comes first.
   */
  lemma MostFrequentIpSpec(entries: seq<LogEntry>, s: Summary)
    requires IsSummaryOf(entries, s)
    ensures s.mostFrequentIp.None? <==> entries == []
    ensures s.mostFrequentIp.None? ==> s.mostFrequentIpCount == 0
    ensures s.mostFrequentIp.Some? ==>
      var ips, ip := Ips(entries), s.mostFrequentIp.value;
      (exists i :: 0 <= i < |entries| && entries[i].ip == ip)
      && s.mostFrequentIpCount == Count(ips, ip)
      && (forall i :: 0 <= i < |entries| ==> Count(ips, entries[i].ip) <= s.mostFrequentIpCount)
      && (forall i :: 0 <= i < |entries| && Count(ips, entries[i].ip) == s.mostFrequentIpCount ==>
            FirstPos(ips, ip) <= FirstPos(ips, entries[i].ip))
  {
    var ips := Ips(entries);
    if s.mostFrequentIp.Some? {
      var ip := s.mostFrequentIp.value;
      var i :| 0 <= i < |ips| && ips[i] == ip;
      forall i | 0 <= i < |entries| ensures ips[i] in ips {
      }
    }
  }

  /** An empty or entirely malformed log gives zero counts and no most frequent address. */
  lemma EmptySummary(s: Summary)
    requires IsSummaryOf([], s)
    ensures s == Summary(0, Tally([], map[]), 0, None, 0)
  {
    assert Statuses([]) == [];
  }

  /** The summary is a function of the entries: analysing the same log twice gives the same result. */
  lemma SummaryDetermined(entries: seq<LogEntry>, s1: Summary, s2: Summary)
    requires IsSummaryOf(entries, s1) && IsSummaryOf(entries, s2)
    ensures s1 == s2
  {
    if s1.mostFrequentIp.Some? && s2.mostFrequentIp.Some? {
      MostFrequentUnique(Ips(entries), s1.mostFrequentIp.value, s2.mostFrequentIp.value);
    }
  }
}
