# Access-log analyzer, modelled in Dafny

This project models `LogAnalyzer` from `loganalyzer.py`, a small tool that
reads a web-server access log. It does two things:

* `parse_logs` matches every line against the pattern
  `^(\S+) (\S+) (\S+) \[(.*?)\] "(.*?)" (\d{3}) (\d+|-)`. It keeps the seven
  groups of each line that matches and converts the status and the size to
  integers; a size of `-` becomes 0. Lines that do not match are skipped
  without error.
* `analyze_logs` counts the kept entries, counts each status code, sums the
  sizes, and reports the most frequent client address with its count.

The model has four modules:

| file | module | what it holds |
|---|---|---|
| `wrappers.dfy` | `Wrappers` | `Option` and `Result` |
| `log_line.dfy` | `LogLine` | the line pattern and `ParseLine`, a hand-written backtracking matcher |
| `counting.dfy` | `Counting` | `Tally`, the `defaultdict(int)` whose keys iterate in insertion order |
| `log_analyzer.dfy` | `LogAnalyzer` | `ParseLogs`, `Summarize`, `MostFrequent` and `AnalyzeLogs` |
| `examples.dfy` | `LogExamples` | a three-line log and an address tie, worked through the model |

How the line parser is specified:

* `MatchesAt(line, k)` says that the split points `k` fit the pattern.
* `TriedBefore` is the order in which the regular expression engine tries
  fits:
  * the lazy timestamp shortest first;
  * then the lazy request shortest first;
  * then the greedy size field longest first.
* `IsChosen` is the first fit in that order.
* The main theorem is `MatchIsChosen`. The matcher finds a fit exactly when
  one exists, and it returns the chosen fit. So `ParseLine` yields exactly
  the groups that `re.match` would report.

How the aggregation is specified:

* `Summarize` is one loop over the entries, as in the source.
  * Its invariant ties the two dictionaries and the byte total to reference
    definitions on the entries seen so far: `TallyOf`, `Count`, `Distinct`
    and `SumSizes`.
* `MostFrequent` is Python's `max(d, key=d.get, default=None)`. It returns
  the first key in iteration order whose count no other key exceeds.
  `FirstMaxIsMostFrequent` proves what this means for the entries:
  * the reported address occurs at least as often as every other address;
  * among the addresses that occur equally often, it is the one whose
    *first occurrence* comes earliest.
  * For the addresses B, A, A, B the answer is B, although A reaches two
    first. This is `TieGoesToFirstOccurrence`.
  * A prose description of the tool says "the first address to reach the
    maximum count". The code does not do that, and the model follows the
    code.

## Model

| member | source | states |
|---|---|---|
| `LogLine.DecimalValue` | loganalyzer.py:40 | `int()` of a run of n ASCII digits is a natural number below 10^n |
| `LogLine.SizeValue` | loganalyzer.py:41 | a size field that is not all digits, such as `-`, gives 0 |
| `LogLine.SizeExamples` | loganalyzer.py:41 | `1234` gives 1234 and `-` gives 0 |
| `LogLine.TokenEnd` | loganalyzer.py:28 | greedy `\S+`: every character up to the result is non-whitespace, and the result is the end of the line or a whitespace character |
| `LogLine.DigitsEnd` | loganalyzer.py:28 | greedy `\d+`: every character up to the result is a digit, and the result is the end of the line or a non-digit |
| `LogLine.MatchHead` | loganalyzer.py:28 | a found head is three whitespace-free tokens, each followed by a space, then `[` |
| `LogLine.MatchStatusSize` | loganalyzer.py:28 | a found end delimits three digits, a space, and then a digit run or `-` |
| `LogLine.MatchRequest` | loganalyzer.py:28 | a found request has no newline, ends at `" `, and is followed by status and size |
| `LogLine.MatchStamp` | loganalyzer.py:28 | a found timestamp has no newline, ends at `] "`, and is followed by a valid request, status and size |
| `LogLine.Match` | loganalyzer.py:28-32 | a returned cut fits the whole pattern at the start of the line |
| `LogLine.TokenEndForced` | loganalyzer.py:28 | a `\S+` run followed by whitespace can end only there, so the three leading tokens are forced |
| `LogLine.HeadComplete` | loganalyzer.py:28 | every head that fits is the one `MatchHead` finds |
| `LogLine.DigitsEndReaches` | loganalyzer.py:28 | the greedy digit run reaches at least as far as any digit run from the same start |
| `LogLine.StatusSizeComplete` | loganalyzer.py:28 | whenever status and size fit, `MatchStatusSize` succeeds with the longest size field |
| `LogLine.RequestReaches` | loganalyzer.py:28 | the lazy request search stops at or before any closing quote that fits, and at that quote takes the longest size |
| `LogLine.StampReaches` | loganalyzer.py:28 | the lazy timestamp search stops at or before any closing bracket that fits |
| `LogLine.MatchComplete` | loganalyzer.py:28-32 | for every fit of the line, `Match` succeeds and its result comes no later in the engine's order |
| `LogLine.MatchIsChosen` | loganalyzer.py:28-32 | `Match` succeeds exactly when some fit exists, and it returns the first fit the engine tries |
| `LogLine.ChosenUnique` | loganalyzer.py:28 | the engine's first fit is unique |
| `LogLine.EntryAt` | loganalyzer.py:34-42 | the entry of a fit has a status between 0 and 999 and a size that is not negative |
| `LogLine.ParseLine` | loganalyzer.py:32-42 | a line that matches yields a status of three digits and a size that is not negative |
| `LogLine.ParseLineSpec` | loganalyzer.py:32-42 | a line yields an entry exactly when it fits the pattern, and the entry holds the groups of the engine's fit |
| `LogLine.UnclosedRequestRejected` | loganalyzer.py:32-33 | a line with no `" ` anywhere, such as one cut off inside the request, yields no entry |
| `LogLine.PlainFitIsChosen` | loganalyzer.py:28-42 | a fit with no `]` in the timestamp, no `"` in the request and no digit after the size is the engine's fit, and its groups are the entry |
| `LogLine.ParseWritten` | loganalyzer.py:28-42 | a well-formed line, optionally followed by its newline, parses back to the entry made of its own fields |
| `Counting.Distinct` | loganalyzer.py:54-61 | the keys of a counting dictionary are exactly the counted elements, each listed once |
| `Counting.Tally.Add` | loganalyzer.py:59 | `d[k] += 1`: a missing key is appended to the key order with value 1, a present key is raised by one, and other keys are unchanged |
| `Counting.TallyOfSnoc` | loganalyzer.py:58-61 | counting one more element is one `Add` on the dictionary built from the elements before it |
| `Counting.TallyOfValid` | loganalyzer.py:54-61 | a dictionary built by counting lists each key once, and every count is at least 1 |
| `Counting.AddTotal` | loganalyzer.py:59-61 | one increment keeps the dictionary valid and raises the sum of its values by one |
| `Counting.TotalIsLength` | loganalyzer.py:58-61 | the values of a dictionary counting a sequence add up to the length of the sequence |
| `Counting.DistinctInFirstOccurrenceOrder` | loganalyzer.py:67 | the keys of a counting dictionary iterate in the order of each key's first occurrence |
| `Counting.FirstMaxIsMostFrequent` | loganalyzer.py:63 | the key that `max` picks from the dictionary counting a sequence occurs most often, with ties going to the earliest first occurrence |
| `Counting.MostFrequentUnique` | loganalyzer.py:63 | there is at most one most frequent element |
| `LogAnalyzer.ParseLogs` | loganalyzer.py:23-43 | a missing file is an error; otherwise the result is the entries of the lines that match, in line order |
| `LogAnalyzer.ParsedEntriesAppend` | loganalyzer.py:31-43 | parsing two parts of a file one after the other gives the entries of both, in order |
| `LogAnalyzer.RejectedLastLine` | loganalyzer.py:32-33 | a line that does not match adds no entry and does not disturb the entries before it |
| `LogAnalyzer.AcceptedLastLine` | loganalyzer.py:32-42 | a line that matches appends its entry after the entries before it |
| `LogAnalyzer.AllLinesMatch` | loganalyzer.py:31-43 | when every line matches there is exactly one entry per line, in line order |
| `LogAnalyzer.ParsedEntriesFromLines` | loganalyzer.py:31-43 | there are no more entries than lines, and every entry is the parse of one of the lines |
| `LogAnalyzer.ParsedEntriesBounds` | loganalyzer.py:40-41 | every parsed status lies between 0 and 999, and every size is not negative |
| `LogAnalyzer.MostFrequent` | loganalyzer.py:63 | returns None exactly for an empty dictionary; otherwise the first key whose count no key exceeds |
| `LogAnalyzer.SummarizeStep` | loganalyzer.py:58-61 | one loop iteration is one increment in each dictionary plus the entry's size added to the total |
| `LogAnalyzer.Summarize` | loganalyzer.py:54-71 | the result is the summary of the entries: their number, the status dictionary, the byte total, and the most frequent address with its count |
| `LogAnalyzer.AnalyzeLogs` | loganalyzer.py:52-72 | a missing file is an error; otherwise the result is the summary of the entries of the lines that match |
| `LogAnalyzer.SumSizesNonNegative` | loganalyzer.py:60 | a sum of sizes that are not negative is not negative |
| `LogAnalyzer.TotalDataNonNegative` | loganalyzer.py:68 | the total data transferred of any log is not negative |
| `LogAnalyzer.CountsAddUp` | loganalyzer.py:58-66 | the total number of requests equals the sum of the status counts, and also the sum of the per-address counts |
| `LogAnalyzer.StatusCountExact` | loganalyzer.py:54-67 | the status dictionary holds exactly the codes that occur, each with its number of occurrences, in order of first occurrence |
| `LogAnalyzer.MostFrequentIpSpec` | loganalyzer.py:63-70 | there is a most frequent address exactly when there are entries; its count is its number of occurrences, no address occurs more often, and ties go to the earliest first occurrence; with no entries the count is 0 |
| `LogAnalyzer.EmptySummary` | loganalyzer.py:63-70 | with no entries: zero requests, an empty status dictionary, zero bytes, no address and a count of 0 |
| `LogAnalyzer.SummaryDetermined` | loganalyzer.py:52-72 | the summary of a log is unique, so the result does not depend on how ties would be broken |
| `LogExamples.ParseLine2` | loganalyzer.py:41 | a line whose size is `-` yields an entry of size 0 |
| `LogExamples.ExampleEntries` | loganalyzer.py:30-43 | a three-line log, newlines included, yields its three entries in order |
| `LogExamples.ExampleStatuses` | loganalyzer.py:59 | statuses 200, 404, 200 give the dictionary {200: 2, 404: 1} in that key order |
| `LogExamples.ExampleSummary` | loganalyzer.py:52-72 | the three-line log gives 3 requests, {200: 2, 404: 1}, 768 bytes, and 10.0.0.1 with 2 requests |
| `LogExamples.TieGoesToFirstOccurrence` | loganalyzer.py:63 | for the addresses B, A, A, B the most frequent address is B |

## Left out

- File access: `os.path.exists` and `open` are not modelled. Whether the file exists is the parameter `sourceExists`. Its content is a sequence of lines as Python's line iteration yields them, each keeping its final newline. Newline translation of text mode happens before that and is not modelled.
- The `FileNotFoundError` message text: the error is the single value `SourceNotFound`.
- `display_analysis` and the `__main__` block only print; they are not modelled.
- `LogAnalyzer.__init__` only stores the path, which the model replaces with its inputs.
- The `LogAnalyzer` object is not a class in the model, because the analysis keeps no state in it.
- The two `defaultdict`s are local variables of `analyze_logs`. They are modelled as `Tally` values that the loop reassigns, not as objects updated in place. Nothing else refers to them, so no aliasing is lost.
- `LogLine.IsSpace`, `LogLine.IsDigit`: `\s`, `\S` and `\d` are modelled for ASCII only. Python's Unicode whitespace (such as U+0085 and U+00A0) and Unicode digits are not modelled. Neither are `str.isdigit` and `int()` on non-ASCII digits.
- The internals of Python's `re` module are not modelled. The matcher is specified by the order in which the engine tries fits, not by its backtracking stack.
- `LogLine.ParseLine`: its own contract states only the bounds on status and size. What the parsed entry is, is stated by `LogLine.ParseLineSpec` and `LogLine.MatchIsChosen`.
