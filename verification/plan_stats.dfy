/** Yesterday's note and its checklist statistics, as the minimal daily-plan
    generator finds and reads them. */
module PlanStats {
  import opened Wrappers
  import opened Text
  import opened Calendar

  // ---------------------------------------------------------------------
  // find_yesterday_file

  /** Whether a file name matches the glob pattern "<day> *.md". */
  predicate MatchesDay(name: string, day: string) {
    |name| >= |day| + 4 && StartsWith(name, day + " ") && EndsWith(name, ".md")
  }

  /** "<day> <anything>.md" matches the pattern for `day`. */
  lemma NameOfDay(day: string, rest: string)
    ensures MatchesDay(day + " " + rest + ".md", day)
  {
    Affixes(day + " ", rest, ".md");
  }

  /** The glob "<day> *.md": the day, a space, any text, then ".md". */
  lemma MatchesDayShape(name: string, day: string)
    ensures MatchesDay(name, day) <==> exists rest :: name == day + " " + rest + ".md"
  {
    if MatchesDay(name, day) {
      var rest := name[|day| + 1..|name| - 3];
      assert name == name[..|day| + 1] + rest + name[|name| - 3..];
      assert name == day + " " + rest + ".md";
    }
    if exists rest :: name == day + " " + rest + ".md" {
      var rest :| name == day + " " + rest + ".md";
      NameOfDay(day, rest);
    }
  }

  /** The lexicographically smallest name in `names` that matches the
      pattern for `day`. */
  function SmallestMatch(names: seq<string>, day: string): (r: Option<string>)
    ensures r.None? <==> forall n :: n in names ==> !MatchesDay(n, day)
    ensures r.Some? ==> r.value in names && MatchesDay(r.value, day)
    ensures r.Some? ==> forall n :: n in names && MatchesDay(n, day) ==> LexLe(r.value, n)
  {
    if |names| == 0 then None
    else
      var head := names[0];
      var rest := SmallestMatch(names[1..], day);
      assert forall n :: n in names ==> n == head || n in names[1..];
      if !MatchesDay(head, day) then rest
      else
        match rest
        case None => Some(head)
        case Some(m) =>
          LexTotal(m, head);
          if LexLess(m, head) then
            assert forall n :: n in names[1..] && MatchesDay(n, day) ==> LexLe(head, n) ==> LexLe(m, n) by {
              forall n | n in names[1..] && MatchesDay(n, day) && LexLe(head, n) ensures LexLe(m, n) {
                LexLeTransitive(m, head, n);
              }
            }
            Some(m)
          else
            assert forall n :: n in names[1..] && MatchesDay(n, day) ==> LexLe(head, n) by {
              forall n | n in names[1..] && MatchesDay(n, day) ensures LexLe(head, n) {
                LexLeTransitive(head, m, n);
              }
            }
            Some(head)
  }

  /** `find_yesterday_file` over the names in the plan directory: the first
      of the sorted names matching "<yesterday> *.md", or none. */
  function FindYesterdayFile(names: seq<string>, today: int): (r: Option<string>)
    requires IsOrdinal(today - 1)
    ensures r.None? <==> forall n :: n in names ==> !MatchesDay(n, Iso(today - 1))
    ensures r.Some? ==> r.value in names && MatchesDay(r.value, Iso(today - 1))
    ensures r.Some? ==> forall n :: n in names && MatchesDay(n, Iso(today - 1)) ==> LexLe(r.value, n)
  {
    SmallestMatch(names, Iso(today - 1))
  }

  /** The choice depends only on which names exist, not on the order in
      which the directory lists them. */
  lemma YesterdayFileIgnoresListingOrder(names1: seq<string>, names2: seq<string>, today: int)
    requires IsOrdinal(today - 1)
    requires forall n :: n in names1 <==> n in names2
    ensures FindYesterdayFile(names1, today) == FindYesterdayFile(names2, today)
  {
    var r1, r2 := FindYesterdayFile(names1, today), FindYesterdayFile(names2, today);
    if r1.Some? && r2.Some? {
      LexLeAntisymmetric(r1.value, r2.value);
    }
  }

  // ---------------------------------------------------------------------
  // parse_yesterday_stats

  const Unchecked: string := "- [ ]"

  /** A line matching `^- \[[xX]\]\s*(.+)$`: a checked box followed by at
      least one character. */
  predicate IsChecked(line: string) {
    |line| > 5 && (StartsWith(line, "- [x]") || StartsWith(line, "- [X]"))
  }

  /** `DONE_RE` on one line: "- [", an "x" or "X", "]", and at least one
      more character for `(.+)` to take. */
  lemma CheckedLineShape(line: string)
    ensures IsChecked(line) <==>
              && |line| >= 6
              && line[0] == '-' && line[1] == ' ' && line[2] == '['
              && (line[3] == 'x' || line[3] == 'X') && line[4] == ']'
  {
    if |line| >= 6 {
      assert line[..5] == [line[0], line[1], line[2], line[3], line[4]];
    }
  }

  /** The stripped task text of a line matching `^- \[ \]\s*(.+)$`, when it
      is not blank. */
  function PendingText(line: string): (r: Option<string>)
    ensures r.Some? ==> StartsWith(line, Unchecked) && r.value != "" && IsStripped(r.value)
    ensures r.Some? ==> r.value == Strip(line[5..])
    ensures StartsWith(line, Unchecked) && !AllSpace(line[5..]) ==> r.Some?
  {
    if StartsWith(line, Unchecked) && Strip(line[5..]) != "" then Some(Strip(line[5..])) else None
  }

  /** The unfinished tasks of a note, in file order. */
  function PendingTasks(lines: seq<string>): (r: seq<string>)
    ensures |r| <= |lines|
    ensures forall k :: 0 <= k < |r| ==> r[k] != "" && IsStripped(r[k])
  {
    if |lines| == 0 then []
    else
      match PendingText(lines[0])
      case Some(t) => [t] + PendingTasks(lines[1..])
      case None => PendingTasks(lines[1..])
  }

  lemma PendingTasksCons(x: string, s: seq<string>)
    ensures PendingTasks([x] + s) == (if PendingText(x).Some? then [PendingText(x).value] else []) + PendingTasks(s)
  {
    assert ([x] + s)[0] == x;
    assert ([x] + s)[1..] == s;
  }

  lemma CheckedCountCons(x: string, s: seq<string>)
    ensures CheckedCount([x] + s) == (if IsChecked(x) then 1 else 0) + CheckedCount(s)
  {
    assert ([x] + s)[0] == x;
    assert ([x] + s)[1..] == s;
  }

  /** The number of finished tasks of a note. */
  function CheckedCount(lines: seq<string>): (n: nat)
    ensures n <= |lines|
    ensures n == 0 <==> forall k :: 0 <= k < |lines| ==> !IsChecked(lines[k])
  {
    if |lines| == 0 then 0
    else (if IsChecked(lines[0]) then 1 else 0) + CheckedCount(lines[1..])
  }

  /** Each line contributes on its own: the statistics of a note are those
      of its parts, concatenated in file order. */
  lemma {:induction false} StatsOfConcatenation(a: seq<string>, b: seq<string>)
    ensures PendingTasks(a + b) == PendingTasks(a) + PendingTasks(b)
    ensures CheckedCount(a + b) == CheckedCount(a) + CheckedCount(b)
  {
    if |a| > 0 {
      assert a + b == [a[0]] + (a[1..] + b);
      assert a == [a[0]] + a[1..];
      StatsOfConcatenation(a[1..], b);
      PendingTasksCons(a[0], a[1..] + b);
      PendingTasksCons(a[0], a[1..]);
      CheckedCountCons(a[0], a[1..] + b);
      CheckedCountCons(a[0], a[1..]);
    } else {
      assert a + b == b;
    }
  }

  /** A line is a pending task, a finished task, or neither; never both. */
  lemma {:induction false} MarkersExclusive(lines: seq<string>)
    ensures |PendingTasks(lines)| + CheckedCount(lines) <= |lines|
  {
    if |lines| > 0 {
      MarkersExclusive(lines[1..]);
      NotBoth(lines[0]);
    }
  }

  /** An unchecked box is not a checked one. */
  lemma NotBoth(line: string)
    ensures !(PendingText(line).Some? && IsChecked(line))
  {
    if PendingText(line).Some? {
      assert line[3] == Unchecked[3];
    }
  }

  /** `task` is the stripped text after the unchecked box of `line`. */
  predicate TaskOfLine(line: string, task: string) {
    StartsWith(line, Unchecked) && task == Strip(line[5..])
  }

  /** Every pending task is the stripped text of an unchecked-box line of the
      note. */
  lemma {:induction false} PendingTasksFromLines(lines: seq<string>, k: nat)
    requires k < |PendingTasks(lines)|
    ensures exists i :: 0 <= i < |lines| && TaskOfLine(lines[i], PendingTasks(lines)[k])
  {
    var t := PendingText(lines[0]);
    assert lines == [lines[0]] + lines[1..];
    PendingTasksCons(lines[0], lines[1..]);
    if t.Some? && k == 0 {
      assert TaskOfLine(lines[0], PendingTasks(lines)[k]);
    } else {
      var k' := if t.Some? then k - 1 else k;
      assert PendingTasks(lines)[k] == PendingTasks(lines[1..])[k'];
      PendingTasksFromLines(lines[1..], k');
      var i :| 0 <= i < |lines[1..]| && TaskOfLine(lines[1..][i], PendingTasks(lines[1..])[k']);
      assert lines[i + 1] == lines[1..][i];
    }
  }

  /** Tasks read from single lines are single lines. */
  lemma {:induction false} PendingTasksSingleLine(lines: seq<string>)
    requires forall k :: 0 <= k < |lines| ==> '\n' !in lines[k]
    ensures forall k :: 0 <= k < |PendingTasks(lines)| ==> '\n' !in PendingTasks(lines)[k]
  {
    if |lines| > 0 {
      assert lines == [lines[0]] + lines[1..];
      PendingTasksCons(lines[0], lines[1..]);
      PendingTasksSingleLine(lines[1..]);
      if PendingText(lines[0]).Some? {
        assert forall c :: c in lines[0][5..] ==> c in lines[0];
        StripKeepsOut(lines[0][5..], '\n');
      }
    }
  }

  /** What the generator keeps of yesterday: up to `carry_limit` unfinished
      tasks and the completion rate. */
  datatype DayStats = DayStats(carry: seq<string>, rate: real)

  /** What `parse_yesterday_stats` promises about a note's lines: the carry
      list is a prefix of the pending tasks cut as `todo[:carry_limit]` cuts
      it, holds no blank or unstripped text, and the rate is the finished
      share of all markers (0.0 without markers). */
  predicate Summarises(r: DayStats, lines: seq<string>, carryLimit: int) {
    var pending := PendingTasks(lines);
    var total := |pending| + CheckedCount(lines);
    && 0.0 <= r.rate <= 1.0
    && r.carry <= pending
    && (carryLimit >= 0 ==> |r.carry| == Min(carryLimit, |pending|))
    && (carryLimit < 0 ==> |r.carry| == Max(|pending| + carryLimit, 0))
    && (total == 0 ==> r.rate == 0.0)
    && (total > 0 ==> r.rate == CheckedCount(lines) as real / total as real)
    && (forall k :: 0 <= k < |r.carry| ==> r.carry[k] != "" && IsStripped(r.carry[k]))
  }

  /** The statistics of a note given as lines. */
  function StatsOfLines(lines: seq<string>, carryLimit: int): (r: DayStats)
    ensures Summarises(r, lines, carryLimit)
  {
    var pending := PendingTasks(lines);
    var done := CheckedCount(lines);
    MarkersExclusive(lines);
    var carry := PyPrefix(pending, carryLimit);
    var total := |pending| + done;
    var rate := Ratio(done, total);
    assert forall k :: 0 <= k < |carry| ==> carry[k] == pending[k];
    DayStats(carry, rate)
  }

  /** `parse_yesterday_stats`; `text` is the content of yesterday's note, or
      `None` when there is none. */
  function ParseYesterdayStats(text: Option<string>, carryLimit: int): (r: DayStats)
    ensures text.None? ==> r == DayStats([], 0.0)
    ensures text.Some? ==> Summarises(r, Lines(text.value), carryLimit)
  {
    match text
    case None => DayStats([], 0.0)
    case Some(t) => StatsOfLines(Lines(t), carryLimit)
  }

  /** `done / total` as a fraction, or 0.0 when there is nothing to count. */
  function Ratio(done: nat, total: nat): (r: real)
    requires done <= total
    ensures 0.0 <= r <= 1.0
    ensures total == 0 ==> r == 0.0
    ensures total > 0 ==> r == done as real / total as real
  {
    if total > 0 then done as real / total as real else 0.0
  }
}
