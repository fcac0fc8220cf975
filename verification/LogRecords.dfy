/**
 Log lines folded into records (`records`, and the level part of `_keep`).

 The regular expressions are the fields of `Grammar`: any recognisers at all.
 */
module LogRecords {
  import opened ByteStrings

  datatype Journal = Journal(time: string, service: string, message: string)

  datatype Written = Written(when: string, level: string, logger: string, said: string)

  datatype Grammar = Grammar(
    blank: string -> bool,
    journal: string -> Option<Journal>,
    traceback: string -> bool,
    continues: string -> bool,
    written: string -> Option<Written>,
    level: string -> string,   // the level word near the start of a message, "" when there is none
    stamp: string -> string)   // the stamp it starts with, "" when there is none

  datatype Record = Record(time: string, service: string, level: string, logger: string, text: string)

  function Service(g: Grammar, line: string): string {
    match g.journal(line)
    case Some(j) => j.service
    case None => ""
  }

  function Message(g: Grammar, line: string): string {
    match g.journal(line)
    case Some(j) => j.message
    case None => line
  }

  function Time(g: Grammar, line: string): string {
    match g.journal(line)
    case Some(j) => j.time
    case None => ""
  }

  /** `{"WARN": "WARNING"}.get(level, level)` */
  function LevelName(word: string): string {
    if word == "WARN" then "WARNING" else word
  }

  /** The record a line begins. */
  function Begun(g: Grammar, line: string): Record {
    var service, message, time := Service(g, line), Message(g, line), Time(g, line);
    if g.traceback(message) then Record(time, service, "ERROR", "", message)
    else match g.written(message)
      case Some(w) => Record(if time != "" then time else w.when, service, LevelName(w.level), w.logger, w.said)
      case None => Record(if time != "" then time else g.stamp(message), service, LevelName(g.level(message)), "", message)
  }

  predicate Grave(level: string) {
    level == "ERROR" || level == "CRITICAL"
  }

  /** Whether a line goes on the record before it. */
  predicate Joins(g: Grammar, last: Record, line: string) {
    var message := Message(g, line);
    last.service == Service(g, line)
    && if g.traceback(message) then Grave(last.level) else g.continues(message)
  }

  function Extended(g: Grammar, r: Record, line: string): Record {
    r.(text := r.text + "\n" + Message(g, line))
  }

  /** The record a group of lines makes: begun by the first, extended by each of the others. */
  function RecordOf(g: Grammar, group: seq<string>): Record
    requires group != []
  {
    if |group| == 1 then Begun(g, group[0])
    else Extended(g, RecordOf(g, group[..|group| - 1]), group[|group| - 1])
  }

  function NonBlank(g: Grammar, lines: seq<string>): seq<string> {
    if lines == [] then []
    else NonBlank(g, lines[..|lines| - 1]) + if g.blank(lines[|lines| - 1]) then [] else [lines[|lines| - 1]]
  }

  function Flat(groups: seq<seq<string>>): seq<string> {
    if groups == [] then [] else Flat(groups[..|groups| - 1]) + groups[|groups| - 1]
  }

  /** Every line of the group but the first belonged to the record as it stood before it. */
  predicate GroupShape(g: Grammar, group: seq<string>)
    decreases |group|
  {
    group != [] &&
    (var m := |group| - 1;
     m > 0 ==> GroupShape(g, group[..m]) && Joins(g, RecordOf(g, group[..m]), group[m]))
  }

  /** Each group is one record's lines, and begins where its first line did not belong to the record before. */
  predicate Parted(g: Grammar, groups: seq<seq<string>>)
    decreases |groups|
  {
    groups == [] ||
    (var n := |groups| - 1;
     && Parted(g, groups[..n])
     && GroupShape(g, groups[n])
     && (n > 0 ==> groups[n - 1] != [] && !Joins(g, RecordOf(g, groups[n - 1]), groups[n][0])))
  }

  predicate Partition(g: Grammar, lines: seq<string>, groups: seq<seq<string>>) {
    Flat(groups) == lines && Parted(g, groups)
  }

  /** Each record is what its group makes. */
  predicate Made(g: Grammar, found: seq<Record>, groups: seq<seq<string>>) {
    && |found| == |groups|
    && forall i :: 0 <= i < |found| ==> groups[i] != [] && found[i] == RecordOf(g, groups[i])
  }

  /** These are the records found in these lines, and the lines each of them came from. */
  predicate Found(g: Grammar, lines: seq<string>, found: seq<Record>, groups: seq<seq<string>>) {
    Partition(g, NonBlank(g, lines), groups) && Made(g, found, groups)
  }

  method Records(g: Grammar, lines: seq<string>) returns (found: seq<Record>)
    ensures exists groups :: Found(g, lines, found, groups)
  {
    found := [];
    ghost var groups: seq<seq<string>> := [];
    for n := 0 to |lines|
      invariant Partition(g, NonBlank(g, lines[..n]), groups)
      invariant Made(g, found, groups)
    {
      ghost var before, last := found, |found| - 1;
      var line := lines[n];
      NonBlankNext(g, lines, n);
      if g.blank(line) {
        continue;
      }
      var service, message, time := Service(g, line), Message(g, line), Time(g, line);
      var sameService := found != [] && found[|found| - 1].service == service;
      var joined := false;
      if g.traceback(message) && sameService && Grave(found[|found| - 1].level) {
        joined := true;
      } else if g.traceback(message) {
        found := found + [Record(time, service, "ERROR", "", message)];
      } else if sameService && g.continues(message) {
        joined := true;
      } else {
        match g.written(message)
        case Some(w) =>
          found := found + [Record(if time != "" then time else w.when, service, LevelName(w.level), w.logger, w.said)];
        case None =>
          found := found + [Record(if time != "" then time else g.stamp(message), service, LevelName(g.level(message)), "", message)];
      }
      if joined {
        found := found[|found| - 1 := Extended(g, found[|found| - 1], line)];
      }
      assert joined <==> before != [] && Joins(g, before[last], line);
      assert found == if joined then before[last := Extended(g, before[last], line)] else before + [Begun(g, line)];
      if joined {
        GrowLast(g, NonBlank(g, lines[..n]), before, groups, line);
        groups := groups[last := groups[last] + [line]];
      } else {
        AddGroup(g, NonBlank(g, lines[..n]), before, groups, line);
        groups := groups + [[line]];
      }
    }
    assert lines[..|lines|] == lines;
    assert Found(g, lines, found, groups);
  }

  lemma NonBlankNext(g: Grammar, lines: seq<string>, n: nat)
    requires n < |lines|
    ensures NonBlank(g, lines[..n + 1])
         == if g.blank(lines[n]) then NonBlank(g, lines[..n]) else NonBlank(g, lines[..n]) + [lines[n]]
  {
    assert lines[..n + 1][..n] == lines[..n];
  }

  lemma GrowLast(g: Grammar, lines: seq<string>, found: seq<Record>, groups: seq<seq<string>>, line: string)
    requires Partition(g, lines, groups) && Made(g, found, groups) && found != []
    requires Joins(g, found[|found| - 1], line)
    ensures var n := |groups| - 1;
            var grown := groups[n := groups[n] + [line]];
            && Partition(g, lines + [line], grown)
            && Made(g, found[n := Extended(g, found[n], line)], grown)
  {
    var n := |groups| - 1;
    var group := groups[n] + [line];
    assert group[..|groups[n]|] == groups[n];
    assert groups[n := group][..n] == groups[..n];
    Assoc(Flat(groups[..n]), groups[n], [line]);
  }

  lemma AddGroup(g: Grammar, lines: seq<string>, found: seq<Record>, groups: seq<seq<string>>, line: string)
    requires Partition(g, lines, groups) && Made(g, found, groups)
    requires found != [] ==> !Joins(g, found[|found| - 1], line)
    ensures Partition(g, lines + [line], groups + [[line]])
    ensures Made(g, found + [Begun(g, line)], groups + [[line]])
  {
    assert (groups + [[line]])[..|groups|] == groups;
  }

  // ----- what the fold guarantees

  /** The payload of a line inside its record: a record's own first line may have its fields read off. */
  function Payloads(g: Grammar, group: seq<string>): seq<string>
    requires group != []
  {
    [Begun(g, group[0]).text] + seq(|group| - 1, i requires 0 <= i < |group| - 1 => Message(g, group[i + 1]))
  }

  function Lined(texts: seq<string>): string {
    if texts == [] then "" else if |texts| == 1 then texts[0]
    else Lined(texts[..|texts| - 1]) + "\n" + texts[|texts| - 1]
  }

  lemma PayloadsNext(g: Grammar, group: seq<string>)
    requires |group| > 1
    ensures var n := |group| - 1; Payloads(g, group) == Payloads(g, group[..n]) + [Message(g, group[n])]
  {
  }

  lemma LinedNext(texts: seq<string>, text: string)
    requires texts != []
    ensures Lined(texts + [text]) == Lined(texts) + "\n" + text
  {
    assert (texts + [text])[..|texts|] == texts;
  }

  /** A record's text is its lines' payloads, all of them, in order; its other fields are its first line's. */
  lemma {:induction false} RecordHoldsItsLines(g: Grammar, group: seq<string>)
    requires group != []
    ensures RecordOf(g, group) == Begun(g, group[0]).(text := Lined(Payloads(g, group)))
  {
    var n := |group| - 1;
    if n > 0 {
      RecordHoldsItsLines(g, group[..n]);
      PayloadsNext(g, group);
      LinedNext(Payloads(g, group[..n]), Message(g, group[n]));
    }
  }

  /** The lines that are folded are those that are not blank, in order: `places` is where they stood. */
  lemma {:induction false} NonBlankIs(g: Grammar, lines: seq<string>) returns (places: seq<nat>)
    ensures |places| == |NonBlank(g, lines)|
    ensures forall i :: 0 <= i < |places| ==> places[i] < |lines| && lines[places[i]] == NonBlank(g, lines)[i]
    ensures forall i, j :: 0 <= i < j < |places| ==> places[i] < places[j]
    ensures forall k :: 0 <= k < |lines| ==> (k in places <==> !g.blank(lines[k]))
  {
    if lines == [] {
      places := [];
    } else {
      var n := |lines| - 1;
      var before := NonBlankIs(g, lines[..n]);
      places := before + if g.blank(lines[n]) then [] else [n];
      forall k | 0 <= k < |lines| ensures k in places <==> !g.blank(lines[k]) {
        assert k < n ==> lines[..n][k] == lines[k];
        assert k == n ==> k !in before;
      }
    }
  }

  /** Inside a group, each line belonged to the record as it stood; its level and service are those of the whole. */
  lemma {:induction false} JoinsInside(g: Grammar, group: seq<string>, m: nat)
    requires GroupShape(g, group) && 0 < m < |group|
    ensures Joins(g, RecordOf(g, group), group[m])
    decreases |group|
  {
    var n := |group| - 1;
    if m < n {
      JoinsInside(g, group[..n], m);
    }
  }

  lemma {:induction false} BreaksBetween(g: Grammar, groups: seq<seq<string>>, n: nat)
    requires Parted(g, groups) && 0 < n < |groups|
    ensures groups[n - 1] != [] && groups[n] != [] && !Joins(g, RecordOf(g, groups[n - 1]), groups[n][0])
    decreases |groups|
  {
    if n < |groups| - 1 {
      BreaksBetween(g, groups[..|groups| - 1], n);
    }
  }

  /**
   A line goes on the record before it exactly if that is of the same service and the line continues
   it: a traceback's start, a record of level ERROR or CRITICAL; any other line, whatever record is
   there. Every other line begins a record of its own.
   */
  lemma GoesOnIff(g: Grammar, lines: seq<string>, found: seq<Record>, groups: seq<seq<string>>, k: nat, n: nat, m: nat)
    requires Found(g, lines, found, groups) && Place(groups, k, n, m) && k > 0
    ensures m == 0 ==> n > 0
    ensures var last := found[if m > 0 then n else n - 1];
            var (service, message) :=
              match g.journal(groups[n][m]) case Some(j) => (j.service, j.message) case None => ("", groups[n][m]);
            m > 0 <==> last.service == service
                       && if g.traceback(message) then last.level == "ERROR" || last.level == "CRITICAL" else g.continues(message)
  {
    PartsHaveShape(g, groups, n);
    if m > 0 {
      JoinsInside(g, groups[n], m);
    } else {
      assert groups[..0] == [];
      BreaksBetween(g, groups, n);
    }
  }

  /**
   What a record says: its service and time are the journal's, or none and what the line says; its
   level is ERROR where it begins with a traceback, else what Dispatcharr wrote or the line mentions;
   its text is the messages of its lines, less what was read off the first.
   */
  lemma RecordSays(g: Grammar, lines: seq<string>, found: seq<Record>, groups: seq<seq<string>>, i: nat)
    requires Found(g, lines, found, groups) && i < |found|
    ensures var r, payloads := found[i], Payloads(g, groups[i]);
            var (time, service, message) :=
              match g.journal(groups[i][0]) case Some(j) => (j.time, j.service, j.message) case None => ("", "", groups[i][0]);
            && r.service == service && r.text == Lined(payloads) && |payloads| == |groups[i]|
            && (if g.traceback(message) then r == Record(time, service, "ERROR", "", r.text) && payloads[0] == message
                else match g.written(message)
                  case Some(w) =>
                    && r.time == (if time != "" then time else w.when) && r.logger == w.logger && payloads[0] == w.said
                    && r.level == (if w.level == "WARN" then "WARNING" else w.level)
                  case None =>
                    && r.time == (if time != "" then time else g.stamp(message)) && r.logger == "" && payloads[0] == message
                    && r.level == (if g.level(message) == "WARN" then "WARNING" else g.level(message)))
            && forall m :: 0 < m < |groups[i]| ==>
                 payloads[m] == match g.journal(groups[i][m]) case Some(j) => j.message case None => groups[i][m]
  {
    RecordHoldsItsLines(g, groups[i]);
  }

  /** The groups of a partition are groups of one record each. */
  lemma {:induction false} PartsHaveShape(g: Grammar, groups: seq<seq<string>>, i: nat)
    requires Parted(g, groups) && i < |groups|
    ensures GroupShape(g, groups[i])
    decreases |groups|
  {
    var n := |groups| - 1;
    if i < n {
      PartsHaveShape(g, groups[..n], i);
    }
  }

  /** Every line has its place in some group: `n` is its group, `m` where it stands in it. */
  predicate Place(groups: seq<seq<string>>, k: nat, n: nat, m: nat) {
    n < |groups| && m < |groups[n]| && k == |Flat(groups[..n])| + m
  }

  lemma {:induction false} PlaceOf(groups: seq<seq<string>>, k: nat) returns (n: nat, m: nat)
    requires k < |Flat(groups)|
    ensures Place(groups, k, n, m) && groups[n][m] == Flat(groups)[k]
    decreases |groups|
  {
    var last := |groups| - 1;
    var before := |Flat(groups[..last])|;
    if k < before {
      n, m := PlaceOf(groups[..last], k);
      assert groups[..last][..n] == groups[..n];
    } else {
      n, m := last, k - before;
    }
  }

  lemma {:induction false} OneServiceInGroup(g: Grammar, group: seq<string>, k: nat)
    requires GroupShape(g, group) && k < |group|
    ensures Service(g, group[k]) == RecordOf(g, group).service
    decreases |group|
  {
    var m := |group| - 1;
    if m > 0 {
      OneServiceInGroup(g, group[..m], if k < m then k else 0);
    }
  }

  /** No record holds lines of two services. */
  lemma OneServiceEach(g: Grammar, lines: seq<string>, found: seq<Record>, groups: seq<seq<string>>, i: nat, k: nat)
    requires Found(g, lines, found, groups) && i < |found| && k < |groups[i]|
    ensures Service(g, groups[i][k]) == found[i].service
  {
    PartsHaveShape(g, groups, i);
    OneServiceInGroup(g, groups[i], k);
  }

  const LEVELS: seq<string> := ["DEBUG", "INFO", "WARNING", "ERROR", "CRITICAL"]

  /** `LEVELS.index(level)`, -1 for none. */
  function Rank(level: string): int {
    if level == "DEBUG" then 0 else if level == "INFO" then 1 else if level == "WARNING" then 2
    else if level == "ERROR" then 3 else if level == "CRITICAL" then 4 else -1
  }

  /** What `_keep` lets through for a level asked for. */
  predicate KeepsLevel(r: Record, level: string)
    requires level == "" || level == "ALL" || level in LEVELS
  {
    level == "" || level == "ALL" || Rank(r.level) >= Rank(level)
  }

  /** A level asked for shows the records of that level and above; one without a level is shown only when all are. */
  lemma KeepsLevelIff(r: Record, level: string)
    requires level in LEVELS
    ensures KeepsLevel(r, level) <==> exists i, j :: 0 <= i <= j < |LEVELS| && LEVELS[i] == level && LEVELS[j] == r.level
    ensures KeepsLevel(r, "") && KeepsLevel(r, "ALL")
  {
    var i :| 0 <= i < |LEVELS| && LEVELS[i] == level;
    assert Rank(level) == i;
    if KeepsLevel(r, level) {
      assert LEVELS[Rank(r.level)] == r.level;
    }
  }

  lemma {:induction false} TracebackMakesGrave(g: Grammar, group: seq<string>, k: nat)
    requires GroupShape(g, group) && k < |group| && g.traceback(Message(g, group[k]))
    ensures Grave(RecordOf(g, group).level)
    decreases |group|
  {
    var m := |group| - 1;
    if k < m {
      TracebackMakesGrave(g, group[..m], k);
    }
  }

  /**
   Every line that starts a traceback is in a record of level ERROR or CRITICAL: asking for errors
   shows it. (`n` is that record, `m` the line's place in it.)
   */
  lemma TracebacksSurviveTheErrorFilter(g: Grammar, lines: seq<string>, found: seq<Record>, groups: seq<seq<string>>, k: nat)
    returns (n: nat, m: nat)
    requires Found(g, lines, found, groups)
    requires k < |NonBlank(g, lines)| && g.traceback(Message(g, NonBlank(g, lines)[k]))
    ensures n < |found| && Place(groups, k, n, m) && groups[n][m] == NonBlank(g, lines)[k]
    ensures Grave(found[n].level) && KeepsLevel(found[n], "ERROR")
  {
    n, m := PlaceOf(groups, k);
    PartsHaveShape(g, groups, n);
    TracebackMakesGrave(g, groups[n], m);
  }

  /** The partition is the only one: what the records are is settled by the lines. */
  lemma {:induction false} PartitionUnique(g: Grammar, lines: seq<string>, a: seq<seq<string>>, b: seq<seq<string>>)
    requires Partition(g, lines, a) && Partition(g, lines, b)
    ensures a == b
    decreases |lines|
  {
    if lines != [] {
      var a' := WithoutLastLine(g, lines, a);
      var b' := WithoutLastLine(g, lines, b);
      PartitionUnique(g, lines[..|lines| - 1], a', b');
    }
  }

  /** What a line does to the groups so far. */
  function Placed(g: Grammar, groups: seq<seq<string>>, line: string): seq<seq<string>> {
    var n := |groups| - 1;
    if groups != [] && groups[n] != [] && Joins(g, RecordOf(g, groups[n]), line)
    then groups[..n] + [groups[n] + [line]]
    else groups + [[line]]
  }

  /** The groups before the last line came: it had begun a group ... */
  lemma WithoutNewGroup(g: Grammar, lines: seq<string>, a: seq<seq<string>>)
    requires Partition(g, lines, a) && lines != [] && |a[|a| - 1]| == 1
    ensures var n, line := |a| - 1, lines[|lines| - 1];
            Partition(g, lines[..|lines| - 1], a[..n]) && a == Placed(g, a[..n], line)
  {
    var n, line := |a| - 1, lines[|lines| - 1];
    assert a[n] == [line];
    assert lines[..|lines| - 1] == Flat(a[..n]);
    assert a == a[..n] + [a[n]];
  }

  /** ... or gone on the last one. */
  lemma WithoutLastOfGroup(g: Grammar, lines: seq<string>, a: seq<seq<string>>)
    requires Partition(g, lines, a) && lines != [] && |a[|a| - 1]| > 1
    ensures var n, line := |a| - 1, lines[|lines| - 1];
            var before := a[..n] + [a[n][..|a[n]| - 1]];
            Partition(g, lines[..|lines| - 1], before) && a == Placed(g, before, line)
  {
    var n, line := |a| - 1, lines[|lines| - 1];
    var group := a[n];
    var m := |group| - 1;
    var before := a[..n] + [group[..m]];
    assert group[m] == line && group[..m] + [line] == group;
    assert before[..n] == a[..n] && before[n] == group[..m];
    assert lines[..|lines| - 1] == Flat(a[..n]) + group[..m];
    assert Parted(g, before) by {
      assert group[..m][0] == group[0];
    }
    assert a == a[..n] + [group];
  }

  lemma WithoutLastLine(g: Grammar, lines: seq<string>, a: seq<seq<string>>) returns (before: seq<seq<string>>)
    requires Partition(g, lines, a) && lines != []
    ensures Partition(g, lines[..|lines| - 1], before) && a == Placed(g, before, lines[|lines| - 1])
  {
    var n := |a| - 1;
    if |a[n]| == 1 {
      WithoutNewGroup(g, lines, a);
      before := a[..n];
    } else {
      WithoutLastOfGroup(g, lines, a);
      before := a[..n] + [a[n][..|a[n]| - 1]];
    }
  }
}
