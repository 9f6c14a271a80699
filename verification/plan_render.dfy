/** The Markdown note the minimal daily-plan generator writes
    (`render_markdown`), and the weekday names it uses. */
module PlanRender {
  import opened Wrappers
  import opened Text
  import opened Calendar
  import opened PlanBlocks
  import opened PlanPhase

  const DefaultWeekdayNames: seq<string> := ["周一", "周二", "周三", "周四", "周五", "周六", "周日"]

  /** `get_weekday_name`: an absent or empty configured list means the
      default names; a configured list too short for the day raises
      `IndexError`, here `None`. */
  function WeekdayName(day: int, names: seq<string>): (r: Option<string>)
    ensures |names| == 0 ==> r == Some(DefaultWeekdayNames[Weekday(day)])
    ensures |names| > 0 ==> (r.Some? <==> Weekday(day) < |names|)
    ensures |names| > 0 && r.Some? ==> r.value == names[Weekday(day)]
  {
    var table := if |names| == 0 then DefaultWeekdayNames else names;
    if Weekday(day) < |table| then Some(table[Weekday(day)]) else None
  }

  /** The link label of another day's note: ISO date and default weekday
      name, whatever names the configuration uses. */
  function DayLabel(day: int): (r: string)
    requires IsOrdinal(day)
    ensures '\n' !in r
  {
    DefaultNamesSingle();
    assert DefaultWeekdayNames[Weekday(day)] in DefaultWeekdayNames;
    Iso(day) + " " + DefaultWeekdayNames[Weekday(day)]
  }

  /** The date texts of a note: today's ISO date and `%m.%d` form, and the
      link labels of the previous and next day. */
  datatype NoteDates = NoteDates(iso: string, monthDot: string, prev: string, next: string)

  /** The date texts `render_markdown` derives from `today`. */
  function NoteDatesOf(today: int): (r: NoteDates)
    requires IsOrdinal(today - 1) && IsOrdinal(today + 1)
    ensures SingleLineDates(r)
  {
    NoteDates(Iso(today), MonthDot(today), DayLabel(today - 1), DayLabel(today + 1))
  }

  predicate SingleLineDates(d: NoteDates) {
    NoBreak(d.iso) && NoBreak(d.monthDot) && NoBreak(d.prev) && NoBreak(d.next)
  }

  const NoCarryLine: string := "- [ ] 无昨日未完成任务"

  /** The carry-over section: one unchecked line per task, or the placeholder
      line when there is nothing to carry. */
  function CarryLines(carry: seq<string>): (r: seq<string>)
    ensures |carry| == 0 ==> r == [NoCarryLine]
    ensures |carry| > 0 ==> |r| == |carry| && forall k :: 0 <= k < |r| ==> r[k] == "- [ ] " + carry[k]
  {
    if |carry| == 0 then [NoCarryLine]
    else seq(|carry|, k requires 0 <= k < |carry| => "- [ ] " + carry[k])
  }

  function BlockLine(b: TimeBlock): string {
    "- [ ] " + b.start + " - " + b.end + " | " + b.emoji + " " + b.name + " | " + b.task
  }

  /** `block_lines`: one line per block. Joining no lines gives the empty
      text, which still fills one line of the note. */
  function BlockLines(blocks: seq<TimeBlock>): (r: seq<string>)
    ensures |r| == BlockSize(blocks)
    ensures forall k :: 0 <= k < |blocks| ==> r[k] == BlockLine(blocks[k])
    ensures |blocks| == 0 ==> r == [""]
  {
    if |blocks| == 0 then [""]
    else seq(|blocks|, k requires 0 <= k < |blocks| => BlockLine(blocks[k]))
  }

  /** The number of lines of the time-block section. */
  function BlockSize(blocks: seq<TimeBlock>): nat {
    if |blocks| == 0 then 1 else |blocks|
  }

  /** The fixed lines of the note's frontmatter after the phase line. */
  const FrontMatterTail: seq<string> :=
    ["type: daily-plan", "status: pending", "tags:", "  - kaoyan", "  - daily-plan", "---", ""]

  /** The tip callout and the heading of the carry-over section. */
  const TipAndCarryHeading: seq<string> :=
    ["", "> [!tip] 今日重点", "> 先完成数学和专业课主任务，晚间统一复盘并回收错题。", "", "## 昨日延续"]

  const BlocksHeading: seq<string> := ["", "## 时间块任务"]

  /** The evening review table and the heading of the links section. */
  const ReviewTable: seq<string> :=
    ["", "## 晚间复盘", "| 指标 | 计划 | 实际 |", "| --- | --- | --- |", "| 总完成率 | >= 80% | |",
     "| 数学专注时长 | >= 3h | |", "| 今日新增错题 | <= 5题 | |", "", "## 关联"]

  function RateLine(rateText: string): string {
    "- 昨日完成率：" + rateText
  }

  function PrevLink(d: NoteDates): string {
    "- 上一日：[[" + d.prev + "]]"
  }

  function NextLink(d: NoteDates): string {
    "- 下一日：[[" + d.next + "]]"
  }

  /** Frontmatter, title, tip callout and the completion-rate line. */
  function HeadLines(d: NoteDates, weekdayName: string, phase: Phase, rateText: string): (r: seq<string>)
    ensures |r| == HeadSize
    ensures r[1] == "date: " + d.iso && r[2] == "weekday: " + weekdayName
    ensures r[HeadSize - 1] == RateLine(rateText)
  {
    ["---", "date: " + d.iso, "weekday: " + weekdayName,
     "phase: \"Phase " + phase.id + " - " + phase.name + "\""]
    + FrontMatterTail
    + ["# 📝 " + d.monthDot + " " + weekdayName + " · 社区版学习计划"]
    + TipAndCarryHeading
    + [RateLine(rateText)]
  }

  const HeadSize: nat := 18

  /** Review table and links to the previous and next day's notes. */
  function TailLines(d: NoteDates): (r: seq<string>)
    ensures |r| == 11
    ensures r[9] == PrevLink(d) && r[10] == NextLink(d)
  {
    ReviewTable + [PrevLink(d), NextLink(d)]
  }

  /** The number of lines of the carry-over section. */
  function CarrySize(carry: seq<string>): nat {
    if |carry| == 0 then 1 else |carry|
  }

  /** The carry-over section, the heading of the time blocks and one line
      per block. */
  function BodyLines(carry: seq<string>, blocks: seq<TimeBlock>): (lines: seq<string>)
    ensures |lines| == CarrySize(carry) + 2 + BlockSize(blocks)
    ensures |carry| == 0 ==> lines[0] == NoCarryLine
    ensures forall k :: 0 <= k < |carry| ==> lines[k] == "- [ ] " + carry[k]
    ensures lines[CarrySize(carry) + 1] == BlocksHeading[1]
    ensures forall k :: 0 <= k < |blocks| ==> lines[CarrySize(carry) + 2 + k] == BlockLine(blocks[k])
    ensures |blocks| == 0 ==> lines[CarrySize(carry) + 2] == ""
  {
    var cl := CarryLines(carry);
    var bl := BlockLines(blocks);
    ThreeParts(cl, BlocksHeading, bl);
    cl + BlocksHeading + bl
  }

  /** The note as a list of lines: the f-string of `render_markdown` is these
      lines joined by "\n", with the closing "\n" after the last. */
  function RenderLines(d: NoteDates, weekdayName: string, phase: Phase, carry: seq<string>,
                       rateText: string, blocks: seq<TimeBlock>): (lines: seq<string>)
    ensures |lines| == HeadSize + CarrySize(carry) + 2 + BlockSize(blocks) + 11
    ensures lines[1] == "date: " + d.iso && lines[2] == "weekday: " + weekdayName
    ensures lines[HeadSize - 1] == RateLine(rateText)
    ensures |carry| == 0 ==> lines[HeadSize] == NoCarryLine
    ensures forall k :: 0 <= k < |carry| ==> lines[HeadSize + k] == "- [ ] " + carry[k]
    ensures lines[HeadSize + CarrySize(carry) + 1] == BlocksHeading[1]
    ensures forall k :: 0 <= k < |blocks| ==> lines[HeadSize + CarrySize(carry) + 2 + k] == BlockLine(blocks[k])
    ensures |blocks| == 0 ==> lines[HeadSize + CarrySize(carry) + 2] == ""
    ensures lines[|lines| - 2] == PrevLink(d) && lines[|lines| - 1] == NextLink(d)
  {
    var head := HeadLines(d, weekdayName, phase, rateText);
    var body := BodyLines(carry, blocks);
    var tail := TailLines(d);
    Placed(d, weekdayName, rateText, carry, blocks, head, body, tail);
    head + body + tail
  }

  /** Where the head's, the body's and the tail's lines land once the three
      are put one after the other. */
  lemma Placed(d: NoteDates, weekdayName: string, rateText: string, carry: seq<string>, blocks: seq<TimeBlock>,
               head: seq<string>, body: seq<string>, tail: seq<string>)
    requires |head| == HeadSize
    requires head[1] == "date: " + d.iso && head[2] == "weekday: " + weekdayName
    requires head[HeadSize - 1] == RateLine(rateText)
    requires |body| == CarrySize(carry) + 2 + BlockSize(blocks)
    requires |carry| == 0 ==> body[0] == NoCarryLine
    requires forall k :: 0 <= k < |carry| ==> body[k] == "- [ ] " + carry[k]
    requires body[CarrySize(carry) + 1] == BlocksHeading[1]
    requires forall k :: 0 <= k < |blocks| ==> body[CarrySize(carry) + 2 + k] == BlockLine(blocks[k])
    requires |blocks| == 0 ==> body[CarrySize(carry) + 2] == ""
    requires |tail| == 11 && tail[9] == PrevLink(d) && tail[10] == NextLink(d)
    ensures var s := head + body + tail;
            && |s| == HeadSize + CarrySize(carry) + 2 + BlockSize(blocks) + 11
            && s[1] == "date: " + d.iso && s[2] == "weekday: " + weekdayName
            && s[HeadSize - 1] == RateLine(rateText)
            && (|carry| == 0 ==> s[HeadSize] == NoCarryLine)
            && (forall k :: 0 <= k < |carry| ==> s[HeadSize + k] == "- [ ] " + carry[k])
            && s[HeadSize + CarrySize(carry) + 1] == BlocksHeading[1]
            && (forall k :: 0 <= k < |blocks| ==> s[HeadSize + CarrySize(carry) + 2 + k] == BlockLine(blocks[k]))
            && (|blocks| == 0 ==> s[HeadSize + CarrySize(carry) + 2] == "")
            && s[|s| - 2] == PrevLink(d) && s[|s| - 1] == NextLink(d)
  {
    var s := head + body + tail;
    assert forall i :: 0 <= i < |body| ==> s[HeadSize + i] == body[i];
    assert s[|s| - 2] == tail[9] && s[|s| - 1] == tail[10];
  }

  /** Where each part of a three-part concatenation lands. */
  lemma ThreeParts<T>(a: seq<T>, b: seq<T>, c: seq<T>)
    ensures var s := a + b + c;
            && |s| == |a| + |b| + |c|
            && (forall k :: 0 <= k < |a| ==> s[k] == a[k])
            && (forall k :: 0 <= k < |b| ==> s[|a| + k] == b[k])
            && (forall k :: 0 <= k < |c| ==> s[|a| + |b| + k] == c[k])
  {
  }

  /** `render_markdown`. The dates arrive as their texts (`NoteDatesOf`),
      the completion rate already formatted (`{yesterday_rate:.1%}`). */
  function Render(d: NoteDates, weekdayName: string, phase: Phase, carry: seq<string>,
                  rateText: string, blocks: seq<TimeBlock>): (text: string)
    ensures EndsWith(text, "\n")
  {
    Join(RenderLines(d, weekdayName, phase, carry, rateText, blocks), "\n") + "\n"
  }

  predicate NoBreak(s: string) {
    '\n' !in s
  }

  /** Every line of `lines` is a single line of text. */
  predicate AllSingle(lines: seq<string>) {
    forall x :: x in lines ==> NoBreak(x)
  }

  /** None of the texts that come from configuration or yesterday's note
      contains a line break. */
  predicate SingleLineInputs(weekdayName: string, phase: Phase, carry: seq<string>,
                             rateText: string, blocks: seq<TimeBlock>) {
    && NoBreak(weekdayName) && NoBreak(phase.id) && NoBreak(phase.name) && NoBreak(rateText)
    && AllSingle(carry)
    && (forall b :: b in blocks ==> NoBreak(b.start) && NoBreak(b.end) && NoBreak(b.emoji) && NoBreak(b.name) && NoBreak(b.task))
  }

  lemma DefaultNamesSingle()
    ensures forall x :: x in DefaultWeekdayNames ==> '\n' !in x
  {
  }

  lemma FrontMatterSingle()
    ensures AllSingle(FrontMatterTail)
  {
  }

  lemma TipSingle()
    ensures AllSingle(TipAndCarryHeading)
  {
  }

  lemma ReviewSingle()
    ensures AllSingle(ReviewTable) && AllSingle(BlocksHeading)
  {
  }

  lemma AllSingleConcat(a: seq<string>, b: seq<string>)
    requires AllSingle(a) && AllSingle(b)
    ensures AllSingle(a + b)
  {
  }

  lemma NoBreakConcat(a: string, b: string)
    requires NoBreak(a) && NoBreak(b)
    ensures NoBreak(a + b)
  {
  }

  lemma Join3Single(a: string, b: string, c: string)
    requires NoBreak(a) && NoBreak(b) && NoBreak(c)
    ensures NoBreak(a + b + c)
  {
  }

  lemma Display4Single(a: string, b: string, c: string, d: string)
    requires NoBreak(a) && NoBreak(b) && NoBreak(c) && NoBreak(d)
    ensures AllSingle([a, b, c, d])
  {
  }

  lemma Display2Single(a: string, b: string)
    requires NoBreak(a) && NoBreak(b)
    ensures AllSingle([a, b])
  {
  }

  lemma HeadLinesSingle(d: NoteDates, weekdayName: string, phase: Phase, rateText: string)
    requires SingleLineDates(d)
    requires NoBreak(weekdayName) && NoBreak(phase.id) && NoBreak(phase.name) && NoBreak(rateText)
    ensures AllSingle(HeadLines(d, weekdayName, phase, rateText))
  {
    var date, wd := "date: " + d.iso, "weekday: " + weekdayName;
    NoBreakConcat("date: ", d.iso);
    NoBreakConcat("weekday: ", weekdayName);
    Join3Single("phase: \"Phase ", phase.id, " - ");
    Join3Single("phase: \"Phase " + phase.id + " - ", phase.name, "\"");
    var ph := "phase: \"Phase " + phase.id + " - " + phase.name + "\"";
    Display4Single("---", date, wd, ph);
    Join3Single("# 📝 ", d.monthDot, " ");
    Join3Single("# 📝 " + d.monthDot + " ", weekdayName, " · 社区版学习计划");
    var title := "# 📝 " + d.monthDot + " " + weekdayName + " · 社区版学习计划";
    NoBreakConcat("- 昨日完成率：", rateText);
    Display2Single(title, RateLine(rateText));
    FrontMatterSingle();
    TipSingle();
    var top := ["---", date, wd, ph];
    AllSingleConcat(top, FrontMatterTail);
    AllSingleConcat(top + FrontMatterTail, [title]);
    AllSingleConcat(top + FrontMatterTail + [title], TipAndCarryHeading);
    AllSingleConcat(top + FrontMatterTail + [title] + TipAndCarryHeading, [RateLine(rateText)]);
  }

  lemma TailLinesSingle(d: NoteDates)
    requires SingleLineDates(d)
    ensures AllSingle(TailLines(d))
  {
    ReviewSingle();
    Join3Single("- 上一日：[[", d.prev, "]]");
    Join3Single("- 下一日：[[", d.next, "]]");
    Display2Single(PrevLink(d), NextLink(d));
    AllSingleConcat(ReviewTable, [PrevLink(d), NextLink(d)]);
  }

  lemma BodyLinesSingle(carry: seq<string>, blocks: seq<TimeBlock>)
    requires AllSingle(carry)
    requires forall b :: b in blocks ==> NoBreak(b.start) && NoBreak(b.end) && NoBreak(b.emoji) && NoBreak(b.name) && NoBreak(b.task)
    ensures AllSingle(BodyLines(carry, blocks))
  {
    var cl := CarryLines(carry);
    forall x | x in cl ensures NoBreak(x) {
      var k :| 0 <= k < |cl| && cl[k] == x;
      if |carry| > 0 {
        assert carry[k] in carry;
      }
    }
    var bl := BlockLines(blocks);
    forall x | x in bl ensures NoBreak(x) {
      var k :| 0 <= k < |bl| && bl[k] == x;
      if |blocks| > 0 {
        assert blocks[k] in blocks;
      }
    }
    ReviewSingle();
    AllSingleConcat(cl, BlocksHeading);
    AllSingleConcat(cl + BlocksHeading, bl);
  }

  /** When the inputs are single lines, so is every line of the note. */
  lemma RenderLinesSingle(d: NoteDates, weekdayName: string, phase: Phase, carry: seq<string>,
                          rateText: string, blocks: seq<TimeBlock>)
    requires SingleLineDates(d)
    requires SingleLineInputs(weekdayName, phase, carry, rateText, blocks)
    ensures AllSingle(RenderLines(d, weekdayName, phase, carry, rateText, blocks))
  {
    HeadLinesSingle(d, weekdayName, phase, rateText);
    TailLinesSingle(d);
    BodyLinesSingle(carry, blocks);
    var head := HeadLines(d, weekdayName, phase, rateText);
    var body := BodyLines(carry, blocks);
    AllSingleConcat(head, body);
    AllSingleConcat(head + body, TailLines(d));
  }

  /** Read back line by line, the written note gives its lines, in order,
      followed by the empty text after the closing line break. */
  lemma RenderReadsBack(d: NoteDates, weekdayName: string, phase: Phase, carry: seq<string>,
                        rateText: string, blocks: seq<TimeBlock>)
    requires SingleLineDates(d)
    requires SingleLineInputs(weekdayName, phase, carry, rateText, blocks)
    ensures Split(Render(d, weekdayName, phase, carry, rateText, blocks), '\n')
            == RenderLines(d, weekdayName, phase, carry, rateText, blocks) + [""]
  {
    var lines := RenderLines(d, weekdayName, phase, carry, rateText, blocks);
    RenderLinesSingle(d, weekdayName, phase, carry, rateText, blocks);
    assert forall k :: 0 <= k < |lines| ==> '\n' !in lines[k] by {
      forall k | 0 <= k < |lines| ensures '\n' !in lines[k] {
        assert lines[k] in lines;
      }
    }
    SplitTerminated(lines);
  }

  /** Read back line by line, a rendered note has the rate line, then the
      carried tasks as unchecked lines (or the placeholder). */
  lemma RenderedCarry(d: NoteDates, weekdayName: string, phase: Phase, carry: seq<string>,
                      rateText: string, blocks: seq<TimeBlock>)
    requires SingleLineDates(d)
    requires SingleLineInputs(weekdayName, phase, carry, rateText, blocks)
    ensures var ls := Split(Render(d, weekdayName, phase, carry, rateText, blocks), '\n');
            && |ls| > HeadSize + |carry|
            && ls[HeadSize - 1] == RateLine(rateText)
            && (carry == [] ==> ls[HeadSize] == NoCarryLine)
            && (forall k :: 0 <= k < |carry| ==> ls[HeadSize + k] == "- [ ] " + carry[k])
  {
    var lines := RenderLines(d, weekdayName, phase, carry, rateText, blocks);
    RenderReadsBack(d, weekdayName, phase, carry, rateText, blocks);
    var ls := lines + [""];
    assert forall k :: 0 <= k < |lines| ==> ls[k] == lines[k];
  }
}
