/**
 * The worked example of an access log with three lines, and the tie between
 * two addresses, checked against the model.
 */
module LogExamples {
  import opened Wrappers
  import opened LogLine
  import opened Counting
  import opened LogAnalyzer

  function Line1(): RawLine {
    RawLine("10.0.0.1", "-", "-", "10/Oct/2020:13:55:36", "GET /a HTTP/1.1", "200", "512")
  }

  function Line2(): RawLine {
    RawLine("10.0.0.2", "-", "-", "10/Oct/2020:13:55:37", "GET /b HTTP/1.1", "404", "-")
  }

  function Line3(): RawLine {
    RawLine("10.0.0.1", "-", "-", "10/Oct/2020:13:55:38", "GET /c HTTP/1.1", "200", "256")
  }

  /** The file as line iteration yields it: every line keeps its newline. */
  function ExampleLog(): seq<string> {
    [Line1().Text() + "\n", Line2().Text() + "\n", Line3().Text() + "\n"]
  }

  function Entry1(): LogEntry {
    LogEntry("10.0.0.1", "-", "-", "10/Oct/2020:13:55:36", "GET /a HTTP/1.1", 200, 512)
  }

  function Entry2(): LogEntry {
    LogEntry("10.0.0.2", "-", "-", "10/Oct/2020:13:55:37", "GET /b HTTP/1.1", 404, 0)
  }

  function Entry3(): LogEntry {
    LogEntry("10.0.0.1", "-", "-", "10/Oct/2020:13:55:38", "GET /c HTTP/1.1", 200, 256)
  }

  lemma ExampleNumbers()
    ensures DecimalValue("200") == 200 && DecimalValue("404") == 404
    ensures SizeValue("512") == 512 && SizeValue("256") == 256 && SizeValue("-") == 0
  {
    assert "200"[..2] == "20" && "20"[..1] == "2" && "2"[..0] == "";
    assert "404"[..2] == "40" && "40"[..1] == "4" && "4"[..0] == "";
    assert IsDigits("512") && IsDigits("256");
    assert "-"[0] == '-';
    assert "512"[..2] == "51" && "51"[..1] == "5" && "5"[..0] == "";
    assert "256"[..2] == "25" && "25"[..1] == "2";
  }

  /** `s` has no character that would end the timestamp group early. */
  predicate StampText(s: string) {
    forall i :: 0 <= i < |s| ==> s[i] != ']' && s[i] != '\n'
  }

  /** `s` has no character that would end the request group early. */
  predicate RequestText(s: string) {
    forall i :: 0 <= i < |s| ==> s[i] != '"' && s[i] != '\n'
  }

  lemma Stamps()
    ensures StampText("10/Oct/2020:13:55:36") && StampText("10/Oct/2020:13:55:37")
    ensures StampText("10/Oct/2020:13:55:38")
  {
  }

  lemma Requests()
    ensures RequestText("GET /a HTTP/1.1") && RequestText("GET /b HTTP/1.1") && RequestText("GET /c HTTP/1.1")
  {
  }

  lemma Tokens()
    ensures IsToken("10.0.0.1") && IsToken("10.0.0.2") && IsToken("-")
    ensures IsDigits("200") && IsDigits("404") && IsDigits("512") && IsDigits("256")
  {
  }

  lemma WellFormed1()
    ensures Line1().WellFormed()
  {
    Stamps();
    Requests();
    Tokens();
  }

  lemma ParseLine1()
    ensures ParseLine(Line1().Text() + "\n") == Some(Entry1())
  {
    WellFormed1();
    ParseWritten(Line1(), "\n");
    ExampleNumbers();
  }

  lemma WellFormed2()
    ensures Line2().WellFormed()
  {
    Stamps();
    Requests();
    Tokens();
  }

  lemma ParseLine2()
    ensures ParseLine(Line2().Text() + "\n") == Some(Entry2())
  {
    WellFormed2();
    ParseWritten(Line2(), "\n");
    ExampleNumbers();
  }

  lemma WellFormed3()
    ensures Line3().WellFormed()
  {
    Stamps();
    Requests();
    Tokens();
  }

  lemma ParseLine3()
    ensures ParseLine(Line3().Text() + "\n") == Some(Entry3())
  {
    WellFormed3();
    ParseWritten(Line3(), "\n");
    ExampleNumbers();
  }

  /** A three-element sequence built one element at a time. */
  lemma Snoc3<T>(a: T, b: T, c: T)
    ensures [] + [a] == [a] && [a] + [b] == [a, b] && [a, b] + [c] == [a, b, c]
  {
  }

  /** Three lines that each match are parsed to their three entries, in order. */
  lemma EntriesOfLines(l1: string, l2: string, l3: string, e1: LogEntry, e2: LogEntry, e3: LogEntry)
    requires ParseLine(l1) == Some(e1) && ParseLine(l2) == Some(e2) && ParseLine(l3) == Some(e3)
    ensures ParsedEntries([l1, l2, l3]) == [e1, e2, e3]
  {
    Snoc3(l1, l2, l3);
    Snoc3(e1, e2, e3);
    AcceptedLastLine([], l1, e1);
    AcceptedLastLine([l1], l2, e2);
    AcceptedLastLine([l1, l2], l3, e3);
  }

  /** Each line of the example yields the entry made of its fields; the `-` size gives 0. */
  lemma ExampleEntries()
    ensures ParsedEntries(ExampleLog()) == [Entry1(), Entry2(), Entry3()]
  {
    ParseLine1();
    ParseLine2();
    ParseLine3();
    EntriesOfLines(Line1().Text() + "\n", Line2().Text() + "\n", Line3().Text() + "\n", Entry1(), Entry2(), Entry3());
  }

  lemma ExampleStatusSeq()
    ensures Statuses([Entry1(), Entry2(), Entry3()]) == [200, 404, 200]
  {
  }

  /** Counting a, b gives each one occurrence, in that order. */
  lemma TallyOfAB<K(!new)>(a: K, b: K)
    requires a != b
    ensures TallyOf([a, b]) == Tally([a, b], map[a := 1, b := 1])
  {
    var s1, s2 := [a], [a, b];
    assert [] + [a] == s1 && s1 + [b] == s2;
    TallyOfEmpty<K>();
    TallyOfSnoc([], a);
    TallyOfSnoc(s1, b);
  }

  /** Counting a key again raises its count and keeps the order. */
  lemma AddAgain<K(!new)>(a: K, b: K)
    requires a != b
    ensures Tally([a, b], map[a := 1, b := 1]).Add(a) == Tally([a, b], map[a := 2, b := 1])
  {
    var m := map[a := 1, b := 1];
    assert a in m;
    assert m[a := 2] == map[a := 2, b := 1];
  }

  /** Counting a, b, a keeps a first and counts it twice. */
  lemma TallyOfABA<K(!new)>(a: K, b: K)
    requires a != b
    ensures TallyOf([a, b, a]) == Tally([a, b], map[a := 2, b := 1])
  {
    TallyOfAB(a, b);
    AddAgain(a, b);
    TallyOfSnoc([a, b], a);
    assert [a, b] + [a] == [a, b, a];
  }

  lemma ExampleStatuses()
    ensures TallyOf(Statuses([Entry1(), Entry2(), Entry3()])) == Tally([200, 404], map[200 := 2, 404 := 1])
  {
    ExampleStatusSeq();
    TallyOfABA(200, 404);
  }

  lemma ExampleSizes()
    ensures SumSizes([Entry1(), Entry2(), Entry3()]) == 768
  {
    var e1, e2, entries := [Entry1()], [Entry1(), Entry2()], [Entry1(), Entry2(), Entry3()];
    assert e1[..0] == [] && e2[..1] == e1 && entries[..2] == e2;
    assert SumSizes(e1) == 512 && SumSizes(e2) == 512;
  }

  lemma ExampleMostFrequent()
    ensures IsMostFrequent(Ips([Entry1(), Entry2(), Entry3()]), "10.0.0.1")
    ensures Count(Ips([Entry1(), Entry2(), Entry3()]), "10.0.0.1") == 2
  {
    var a, b := "10.0.0.1", "10.0.0.2";
    var s1, s2, ips := [a], [a, b], [a, b, a];
    assert Ips([Entry1(), Entry2(), Entry3()]) == ips;
    assert s1[..0] == [] && s2[..1] == s1 && ips[..2] == s2;
    assert Count(s1, a) == 1 && Count(s1, b) == 0;
    assert Count(s2, a) == 1 && Count(s2, b) == 1;
    assert Count(ips, a) == 2 && Count(ips, b) == 1;
    assert FirstPos(ips, "10.0.0.1") == 0;
  }

  /**
   * Three requests: status 200 twice and 404 once, in that order of first
   * occurrence; 512 + 0 + 256 = 768 bytes; 10.0.0.1 is the most frequent
   * address, with two requests.
   */
  lemma ExampleSummary(s: Summary)
    requires IsSummaryOf(ParsedEntries(ExampleLog()), s)
    ensures s == Summary(3, Tally([200, 404], map[200 := 2, 404 := 1]), 768, Some("10.0.0.1"), 2)
  {
    ExampleEntries();
    ExampleStatuses();
    ExampleSizes();
    ExampleMostFrequent();
    var entries := [Entry1(), Entry2(), Entry3()];
    if s.mostFrequentIp.Some? {
      MostFrequentUnique(Ips(entries), s.mostFrequentIp.value, "10.0.0.1");
    }
  }

  /**
   * For the addresses B, A, A, B both occur twice; A reaches two first, but
   * B occurs first, and B is the most frequent address.
   */
  lemma TieGoesToFirstOccurrence(ip: string)
    requires IsMostFrequent(["B", "A", "A", "B"], ip)
    ensures ip == "B"
  {
    var s1, s2, s3, ips := ["B"], ["B", "A"], ["B", "A", "A"], ["B", "A", "A", "B"];
    assert s1[..0] == [] && s2[..1] == s1 && s3[..2] == s2 && ips[..3] == s3;
    assert Count(s1, "A") == 0 && Count(s1, "B") == 1;
    assert Count(s2, "A") == 1 && Count(s2, "B") == 1;
    assert Count(s3, "A") == 2 && Count(s3, "B") == 1;
    assert Count(ips, "A") == 2 && Count(ips, "B") == 2;
    assert FirstPos(ips, "B") == 0;
  }
}
