/** The interaction and feedback log. The JSONL file is modelled as its
    sequence of lines, each either a record that parses or a garbled line;
    a missing file is `None`. Identifiers and timestamps are parameters. */
module Feedback {

  import opened Common
  import Constrained

  /** The `user_feedback` dict: its "helpful" entry, if any, and its other
      entries (string or null values). */
  datatype UserFeedback = UserFeedback(helpful: Option<bool>, others: map<string, Option<string>>)
  {
    /** `{}`, falsy in Python. */
    predicate IsEmpty()
    {
      helpful.None? && others == map[]
    }
  }

  const NoFeedback: UserFeedback := UserFeedback(None, map[])

  /** The answer dict `log_interaction` reads; `None` marks a missing key
      (for "answer", a missing key and a null value read alike). */
  datatype AnswerDict = AnswerDict(answer: Option<string>, citations: Option<seq<string>>,
                                   confidence: Option<real>, refused: Option<bool>)

  /** The dict the reasoning layer returns, as `log_interaction` sees it. */
  function FromAnswer(a: Constrained.Answer): (r: AnswerDict)
    ensures r.answer == a.answer && r.citations == Some(a.citations)
    ensures r.confidence == Some(a.confidence) && r.refused == Some(a.refused)
  {
    AnswerDict(a.answer, Some(a.citations), Some(a.confidence), Some(a.refused))
  }

  datatype Record = Record(interactionId: string, timestamp: string, query: string,
                           answer: Option<string>, citations: seq<string>, confidence: real,
                           refused: bool, userFeedback: UserFeedback)

  datatype LogLine = Parsed(record: Record) | Garbled

  /** The record `log_interaction` writes: answer fields copied, with the
      defaults [] for citations, 0.0 for confidence, False for refused and
      {} for the user feedback. */
  function MakeRecord(id: string, now: string, query: string, answer: AnswerDict,
                      userFeedback: Option<UserFeedback>): (r: Record)
    ensures r.interactionId == id && r.timestamp == now && r.query == query
    ensures r.answer == answer.answer
    ensures answer.citations.None? ==> r.citations == []
    ensures answer.citations.Some? ==> r.citations == answer.citations.value
    ensures answer.confidence.None? ==> r.confidence == 0.0
    ensures answer.confidence.Some? ==> r.confidence == answer.confidence.value
    ensures r.refused <==> answer.refused == Some(true)
    ensures userFeedback.None? ==> r.userFeedback.IsEmpty()
    ensures userFeedback.Some? ==> r.userFeedback == userFeedback.value
  {
    Record(id, now, query, answer.answer, answer.citations.GetOr([]), answer.confidence.GetOr(0.0),
           answer.refused.GetOr(false), userFeedback.GetOr(NoFeedback))
  }

  /** A refused answer is logged as refused and without answer text; an
      answered one is logged with its text. */
  lemma RefusedInteractionHasNoAnswer(id: string, now: string, query: string, context: seq<Candidate>,
                                      threshold: real, maxTokens: int, userFeedback: Option<UserFeedback>)
    ensures var a := Constrained.Synthesize(query, context, threshold, maxTokens);
      var rec := MakeRecord(id, now, query, FromAnswer(a), userFeedback);
      && (rec.refused <==> a.refused)
      && (rec.answer.None? <==> rec.refused)
  {
  }

  /** The records of the lines that parse, in file order. */
  function ParsedRecords(lines: seq<LogLine>): (r: seq<Record>)
    ensures |r| <= |lines|
    ensures forall x :: x in r ==> Parsed(x) in lines
  {
    if lines == [] then []
    else
      var n := |lines| - 1;
      var prev := ParsedRecords(lines[..n]);
      assert forall l :: l in lines[..n] ==> l in lines;
      match lines[n]
      case Parsed(x) => prev + [x]
      case Garbled => prev
  }

  /** Parsing goes line by line: it distributes over concatenation, a
      garbled line yields nothing and a parsed line yields its record. */
  lemma {:induction false} ParsedRecordsAppend(a: seq<LogLine>, b: seq<LogLine>)
    ensures ParsedRecords(a + b) == ParsedRecords(a) + ParsedRecords(b)
    decreases |b|
  {
    if b == [] {
      assert a + b == a;
    } else {
      var n := |b| - 1;
      assert b == b[..n] + [b[n]];
      assert a + b == (a + b[..n]) + [b[n]];
      ParsedRecordsAppend(a, b[..n]);
      ParsedRecordsSnoc(a + b[..n], b[n]);
      ParsedRecordsSnoc(b[..n], b[n]);
    }
  }

  /** One more line adds its record when it parses, and nothing otherwise. */
  lemma ParsedRecordsSnoc(lines: seq<LogLine>, l: LogLine)
    ensures ParsedRecords(lines + [l]) == ParsedRecords(lines) + (if l.Parsed? then [l.record] else [])
  {
    assert (lines + [l])[..|lines|] == lines;
  }

  lemma ParsedRecordsLaws(a: seq<LogLine>, b: seq<LogLine>, x: Record)
    ensures ParsedRecords([]) == []
    ensures ParsedRecords(a + b) == ParsedRecords(a) + ParsedRecords(b)
    ensures ParsedRecords([Garbled]) == []
    ensures ParsedRecords([Parsed(x)]) == [x]
  {
    ParsedRecordsAppend(a, b);
    assert [Garbled][..0] == [] && [Parsed(x)][..0] == [];
  }

  /** How many lines `load_feedback_logs(limit)` reads: it stops at line
      number `limit`, so a limit of 0 or less reads none. */
  function LinesRead(n: nat, limit: int): (r: nat)
    ensures r <= n
    ensures limit <= 0 ==> r == 0
    ensures limit > 0 ==> r == MinInt(limit, n)
  {
    if limit <= 0 then 0 else MinInt(limit, n)
  }

  /** What `load_feedback_logs(limit)` returns for a file. */
  function Loaded(file: Option<seq<LogLine>>, limit: int): (r: seq<Record>)
    ensures file.None? ==> r == []
    ensures |r| <= LinesRead(|file.GetOr([])|, limit)
    ensures file.Some? ==> r <= ParsedRecords(file.value)
    ensures file.Some? && limit >= |file.value| ==> r == ParsedRecords(file.value)
    ensures file.Some? ==> r == ParsedRecords(file.value[..LinesRead(|file.value|, limit)])
  {
    match file
    case None => []
    case Some(lines) =>
      var n := LinesRead(|lines|, limit);
      assert lines == lines[..n] + lines[n..];
      ParsedRecordsAppend(lines[..n], lines[n..]);
      ParsedRecords(lines[..n])
  }

  function AsLines(logs: seq<Record>): (r: seq<LogLine>)
    ensures |r| == |logs| && forall i :: 0 <= i < |r| ==> r[i] == Parsed(logs[i])
  {
    seq(|logs|, i requires 0 <= i < |logs| => Parsed(logs[i]))
  }

  /** Rewritten lines read back as the records that were written. */
  lemma {:induction false} ParsedRecordsOfAsLines(logs: seq<Record>)
    ensures ParsedRecords(AsLines(logs)) == logs
  {
    if logs != [] {
      var n := |logs| - 1;
      assert AsLines(logs) == AsLines(logs[..n]) + [Parsed(logs[n])];
      ParsedRecordsOfAsLines(logs[..n]);
      ParsedRecordsSnoc(AsLines(logs[..n]), Parsed(logs[n]));
      assert logs == logs[..n] + [logs[n]];
    }
  }

  /** The position of the first record with the given id. */
  function FirstMatch(logs: seq<Record>, id: string): (r: Option<nat>)
    ensures r.None? ==> forall j :: 0 <= j < |logs| ==> logs[j].interactionId != id
    ensures r.Some? ==> (r.value < |logs| && logs[r.value].interactionId == id
      && forall j :: 0 <= j < r.value ==> logs[j].interactionId != id)
  {
    if logs == [] then None
    else if logs[0].interactionId == id then Some(0)
    else
      match FirstMatch(logs[1..], id)
      case None => None
      case Some(k) => Some(k + 1)
  }

  /** The feedback `log_feedback` stores. */
  function FeedbackEntry(helpful: bool, note: Option<string>, now: string): (r: UserFeedback)
    ensures r.helpful == Some(helpful) && !r.IsEmpty()
  {
    UserFeedback(Some(helpful), map["feedback" := note, "feedback_timestamp" := Some(now)])
  }

  datatype FeedbackStats =
    | NoInteractions
    | Stats(total: nat, refusedRate: real, feedbackRate: real, helpfulRate: real, avgConfidence: real)

  /** `sum(1 for l in logs if l.get("refused", False))`. */
  function CountRefused(logs: seq<Record>): (r: nat)
    ensures r <= |logs|
  {
    if logs == [] then 0 else CountRefused(logs[1..]) + (if logs[0].refused then 1 else 0)
  }

  /** `sum(1 for l in logs if l.get("user_feedback", {}))`. */
  function CountWithFeedback(logs: seq<Record>): (r: nat)
    ensures r <= |logs|
  {
    if logs == [] then 0 else CountWithFeedback(logs[1..]) + (if logs[0].userFeedback.IsEmpty() then 0 else 1)
  }

  /** `sum(1 for l in logs if l.get("user_feedback", {}).get("helpful", False))`. */
  function CountHelpful(logs: seq<Record>): (r: nat)
    ensures r <= |logs|
  {
    if logs == [] then 0 else CountHelpful(logs[1..]) + (if logs[0].userFeedback.helpful == Some(true) then 1 else 0)
  }

  /** The three counts go record by record: they add up over concatenation. */
  lemma {:induction false} CountsAppend(a: seq<Record>, b: seq<Record>)
    ensures CountRefused(a + b) == CountRefused(a) + CountRefused(b)
    ensures CountWithFeedback(a + b) == CountWithFeedback(a) + CountWithFeedback(b)
    ensures CountHelpful(a + b) == CountHelpful(a) + CountHelpful(b)
    decreases |a|
  {
    if a == [] {
      assert a + b == b;
    } else {
      assert (a + b)[0] == a[0] && (a + b)[1..] == a[1..] + b;
      CountsAppend(a[1..], b);
    }
  }

  /** The counts laws: nothing in no records, additive over concatenation,
      and a single record counted exactly when it is refused, carries
      feedback, or is marked helpful. */
  lemma CountsLaws(a: seq<Record>, b: seq<Record>, x: Record)
    ensures CountRefused([]) == 0 && CountWithFeedback([]) == 0 && CountHelpful([]) == 0
    ensures CountRefused(a + b) == CountRefused(a) + CountRefused(b)
    ensures CountWithFeedback(a + b) == CountWithFeedback(a) + CountWithFeedback(b)
    ensures CountHelpful(a + b) == CountHelpful(a) + CountHelpful(b)
    ensures CountRefused([x]) == if x.refused then 1 else 0
    ensures CountWithFeedback([x]) == if x.userFeedback.IsEmpty() then 0 else 1
    ensures CountHelpful([x]) == if x.userFeedback.helpful == Some(true) then 1 else 0
  {
    CountsAppend(a, b);
    assert [x][1..] == [];
  }

  /** A record marked helpful always has non-empty feedback. */
  lemma {:induction false} HelpfulAtMostWithFeedback(logs: seq<Record>)
    ensures CountHelpful(logs) <= CountWithFeedback(logs)
  {
    if logs != [] {
      HelpfulAtMostWithFeedback(logs[1..]);
    }
  }

  function Confidences(logs: seq<Record>): (r: seq<real>)
    ensures |r| == |logs| && forall i :: 0 <= i < |r| ==> r[i] == logs[i].confidence
  {
    seq(|logs|, i requires 0 <= i < |logs| => logs[i].confidence)
  }

  /** `get_feedback_stats` over a list of records. */
  function StatsOf(logs: seq<Record>): (r: FeedbackStats)
    ensures r.NoInteractions? <==> logs == []
    ensures r.Stats? ==>
      && r.total == |logs|
      && 0.0 <= r.refusedRate <= 1.0
      && 0.0 <= r.feedbackRate <= 1.0
      && 0.0 <= r.helpfulRate <= 1.0
      && (CountWithFeedback(logs) == 0 ==> r.helpfulRate == 0.0)
      && ((forall i :: 0 <= i < |logs| ==> 0.0 <= logs[i].confidence <= 1.0) ==> 0.0 <= r.avgConfidence <= 1.0)
    ensures r.Stats? ==>
      && IsRatio(r.refusedRate, CountRefused(logs), |logs|)
      && IsRatio(r.feedbackRate, CountWithFeedback(logs), |logs|)
      && (CountWithFeedback(logs) > 0 ==> IsRatio(r.helpfulRate, CountHelpful(logs), CountWithFeedback(logs)))
      && IsMean(r.avgConfidence, Confidences(logs))
  {
    if logs == [] then NoInteractions
    else
      var total := |logs|;
      var withFeedback := CountWithFeedback(logs);
      HelpfulAtMostWithFeedback(logs);
      var helpfulRate := if withFeedback > 0 then Ratio(CountHelpful(logs), withFeedback) else 0.0;
      AverageConfidenceBounds(logs);
      Stats(total, Ratio(CountRefused(logs), total), Ratio(withFeedback, total), helpfulRate, Mean(Confidences(logs)))
  }

  /** Confidences in [0, 1] average to a value in [0, 1]. */
  lemma AverageConfidenceBounds(logs: seq<Record>)
    requires logs != []
    ensures (forall i :: 0 <= i < |logs| ==> 0.0 <= logs[i].confidence <= 1.0) ==>
      0.0 <= Mean(Confidences(logs)) <= 1.0
  {
    if forall i :: 0 <= i < |logs| ==> 0.0 <= logs[i].confidence <= 1.0 {
      SumBounds(Confidences(logs), 0.0, 1.0);
    }
  }

  const DefaultLimit: int := 1000
  const RewriteLimit: int := 10000

  class FeedbackCollector {
    const logPath: string
    /** The log file's lines, or None while it does not exist. */
    var file: Option<seq<LogLine>>

    constructor (logPath: string, existing: Option<seq<LogLine>>)
      ensures this.logPath == logPath && file == existing
    {
      this.logPath := logPath;
      file := existing;
    }

    /** `log_interaction`: appends one record (creating the file if
        needed) and returns its id. */
    method LogInteraction(query: string, answer: AnswerDict, userFeedback: Option<UserFeedback>,
                          id: string, now: string) returns (r: string)
      modifies this
      ensures r == id
      ensures file == Some(old(file).GetOr([]) + [Parsed(MakeRecord(id, now, query, answer, userFeedback))])
    {
      var record := MakeRecord(id, now, query, answer, userFeedback);
      file := Some(file.GetOr([]) + [Parsed(record)]);
      r := id;
    }

    /** `load_feedback_logs`: reads lines until line number `limit`,
        keeping those that parse. */
    method LoadFeedbackLogs(limit: int) returns (logs: seq<Record>)
      ensures logs == Loaded(file, limit)
    {
      logs := [];
      if file.None? {
        return;
      }
      var lines := file.value;
      var i := 0;
      while i < |lines|
        invariant 0 <= i <= |lines|
        invariant i <= LinesRead(|lines|, limit)
        invariant logs == ParsedRecords(lines[..i])
      {
        if i >= limit {
          break;
        }
        assert lines[..i + 1][..i] == lines[..i];
        if lines[i].Parsed? {
          logs := logs + [lines[i].record];
        }
        i := i + 1;
      }
      assert i == LinesRead(|lines|, limit);
    }

    /** `get_feedback_stats`: statistics over the first 1000 lines. */
    function GetFeedbackStats(): (r: FeedbackStats)
      reads this
      ensures r.NoInteractions? <==> Loaded(file, DefaultLimit) == []
      ensures r.Stats? ==> r.total <= 1000
      ensures r.Stats? ==> 0.0 <= r.refusedRate <= 1.0 && 0.0 <= r.feedbackRate <= 1.0 && 0.0 <= r.helpfulRate <= 1.0
      ensures r == StatsOf(Loaded(file, DefaultLimit))
    {
      StatsOf(Loaded(file, DefaultLimit))
    }

    /** `log_feedback`: the first record with the id gets the new feedback
        and the file is rewritten from the (at most 10000) records read; with
        no such record nothing is written. */
    method LogFeedback(id: string, helpful: bool, note: Option<string>, now: string)
      modifies this
      ensures var logs := Loaded(old(file), RewriteLimit);
        match FirstMatch(logs, id)
        case None => file == old(file)
        case Some(i) => file == Some(AsLines(logs[i := logs[i].(userFeedback := FeedbackEntry(helpful, note, now))]))
    {
      var logs := LoadFeedbackLogs(RewriteLimit);
      var updated := false;
      var i := 0;
      while i < |logs|
        invariant 0 <= i <= |logs|
        invariant forall j :: 0 <= j < i ==> logs[j].interactionId != id
        decreases |logs| - i
      {
        if logs[i].interactionId == id {
          updated := true;
          break;
        }
        i := i + 1;
      }
      if updated {
        assert FirstMatch(logs, id) == Some(i);
        logs := logs[i := logs[i].(userFeedback := FeedbackEntry(helpful, note, now))];
        file := Some(AsLines(logs));
      }
    }
  }

  /** Updating the first match leaves every other record as it was and the
      count unchanged; the rewritten file reads back as the updated list. */
  lemma UpdateTouchesOnlyFirstMatch(logs: seq<Record>, id: string, fb: UserFeedback)
    requires FirstMatch(logs, id).Some?
    ensures var i := FirstMatch(logs, id).value;
      var updated := logs[i := logs[i].(userFeedback := fb)];
      && |updated| == |logs|
      && updated[i].userFeedback == fb
      && updated[i].interactionId == id
      && (forall j :: 0 <= j < |logs| && j != i ==> updated[j] == logs[j])
      && (forall j :: 0 <= j < i ==> updated[j].interactionId != id)
      && ParsedRecords(AsLines(updated)) == updated
  {
    var i := FirstMatch(logs, id).value;
    ParsedRecordsOfAsLines(logs[i := logs[i].(userFeedback := fb)]);
  }
}
