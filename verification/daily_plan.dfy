/** One run of the minimal daily-plan generator (`main`): choose the phase,
    name today's note, skip it when it exists, otherwise read yesterday's
    note, build the blocks and write today's note. */
module DailyPlan {
  import opened Wrappers
  import opened Text
  import opened Calendar
  import opened PlanBlocks
  import opened PlanPhase
  import opened PlanStats
  import opened PlanRender
  import opened Notes

  /** The command line once parsed: the target day as an ordinal,
      `--carry-limit` and `--force`. */
  datatype Args = Args(today: int, carryLimit: int, force: bool)

  /** The configuration file once parsed: the phases (an absent key is the
      empty list), the weekday names (absent, null or empty is the empty
      list) and the subject templates (absent is the empty map). */
  datatype Config = Config(phases: seq<Phase>, weekdayNames: seq<string>, templates: map<string, string>)

  const WeekdayNamesTooShort: string := "list index out of range"
  const DateOutOfRange: string := "date value out of range"

  /** "<ISO date> <weekday name>.md". */
  function OutputName(today: int, weekdayName: string): (name: string)
    requires IsOrdinal(today)
    ensures StartsWith(name, Iso(today) + " ") && EndsWith(name, ".md")
    ensures |name| == |Iso(today)| + 1 + |weekdayName| + 3
  {
    var prefix := Iso(today) + " ";
    Affixes(prefix, weekdayName, ".md");
    prefix + weekdayName + ".md"
  }

  /** The content of yesterday's note, when one is found. */
  function YesterdayText(dir: Dir, today: int): (r: Option<string>)
    requires WellFormed(dir) && IsOrdinal(today - 1)
    ensures r.None? <==> forall n :: n in dir.files ==> !MatchesDay(n, Iso(today - 1))
    ensures r.Some? ==> exists n :: && n in dir.files && MatchesDay(n, Iso(today - 1)) && r.value == dir.files[n]
                                    && forall m :: m in dir.files && MatchesDay(m, Iso(today - 1)) ==> LexLe(n, m)
  {
    match FindYesterdayFile(dir.listing, today)
    case None => None
    case Some(n) => Some(dir.files[n])
  }

  /** The note written for a day has a name the next day's run looks for. */
  lemma NoteNameMatchesDay(day: int, weekdayName: string)
    requires IsOrdinal(day)
    ensures MatchesDay(OutputName(day, weekdayName), Iso(day))
  {
    var iso := Iso(day);
    assert OutputName(day, weekdayName) == iso + " " + weekdayName + ".md";
    NameOfDay(iso, weekdayName);
  }

  /** When yesterday's note is in the directory, some note of yesterday is
      read. */
  lemma YesterdaysNoteIsRead(dir: Dir, today: int, weekdayName: string)
    requires WellFormed(dir) && IsOrdinal(today - 1)
    requires OutputName(today - 1, weekdayName) in dir.files
    ensures YesterdayText(dir, today).Some?
  {
    NoteNameMatchesDay(today - 1, weekdayName);
  }

  /** The note `main` writes once it has decided to write one. */
  function Note(args: Args, config: Config, phase: Phase, weekdayName: string, dir: Dir,
                formatRate: real -> string): string
    requires WellFormed(dir) && IsOrdinal(args.today - 1) && IsOrdinal(args.today + 1)
  {
    var stats := ParseYesterdayStats(YesterdayText(dir, args.today), args.carryLimit);
    var blocks := BuildPlanBlocks(phase.allocation, config.templates);
    Render(NoteDatesOf(args.today), weekdayName, phase, stats.carry, formatRate(stats.rate), blocks)
  }

  /** `main` after argument and configuration parsing. `formatRate` is
      Python's `{:.1%}` formatting. */
  function Run(args: Args, config: Config, dir: Dir, formatRate: real -> string): (o: Outcome)
    requires IsOrdinal(args.today) && WellFormed(dir)
    ensures |config.phases| == 0 ==> o == Failed(MissingPhases)
    ensures |config.phases| > 0 && WeekdayName(args.today, config.weekdayNames).None? ==> o == Failed(WeekdayNamesTooShort)
    ensures o.Skipped? <==>
              && |config.phases| > 0
              && WeekdayName(args.today, config.weekdayNames).Some?
              && OutputName(args.today, WeekdayName(args.today, config.weekdayNames).value) in dir.files
              && !args.force
    ensures o.Skipped? ==> o.name == OutputName(args.today, WeekdayName(args.today, config.weekdayNames).value)
    ensures o.Generated? ==>
              && WeekdayName(args.today, config.weekdayNames).Some?
              && o.name == OutputName(args.today, WeekdayName(args.today, config.weekdayNames).value)
              && IsOrdinal(args.today - 1) && IsOrdinal(args.today + 1)
              && EndsWith(o.content, "\n")
    ensures o.Failed? && o.error == DateOutOfRange ==> !IsOrdinal(args.today - 1) || !IsOrdinal(args.today + 1)
    ensures o.Failed? ==> o.error == MissingPhases || o.error == WeekdayNamesTooShort || o.error == DateOutOfRange
    ensures |config.phases| > 0 && WeekdayName(args.today, config.weekdayNames).Some? && !o.Skipped? ==>
              (o.Generated? <==> IsOrdinal(args.today - 1) && IsOrdinal(args.today + 1))
  {
    match ChoosePhase(args.today, config.phases)
    case Err(e) => Failed(e)
    case Ok(phase) =>
      match WeekdayName(args.today, config.weekdayNames)
      case None => Failed(WeekdayNamesTooShort)
      case Some(wd) =>
        var name := OutputName(args.today, wd);
        if name in dir.files && !args.force then Skipped(name)
        else if !IsOrdinal(args.today - 1) || !IsOrdinal(args.today + 1) then Failed(DateOutOfRange)
        else Generated(name, Note(args, config, phase, wd, dir, formatRate))
  }

  /** Running again for the same day without `--force` leaves the note just
      written alone and changes nothing. */
  lemma SecondRunSkips(args: Args, config: Config, dir: Dir, formatRate: real -> string)
    requires IsOrdinal(args.today) && WellFormed(dir)
    requires Run(args, config, dir, formatRate).Generated?
    ensures var o := Run(args, config, dir, formatRate);
            var dir' := Persist(dir, o);
            var again := Run(args.(force := false), config, dir', formatRate);
            && again == Skipped(o.name)
            && Persist(dir', again) == dir'
  {
  }

  /** The run does not depend on the order in which the directory lists its
      files. */
  lemma RunIgnoresListingOrder(args: Args, config: Config, files: map<string, string>,
                               listing1: seq<string>, listing2: seq<string>, formatRate: real -> string)
    requires IsOrdinal(args.today)
    requires WellFormed(Dir(files, listing1)) && WellFormed(Dir(files, listing2))
    ensures Run(args, config, Dir(files, listing1), formatRate) == Run(args, config, Dir(files, listing2), formatRate)
  {
    if IsOrdinal(args.today - 1) {
      YesterdayFileIgnoresListingOrder(listing1, listing2, args.today);
      assert YesterdayText(Dir(files, listing1), args.today) == YesterdayText(Dir(files, listing2), args.today);
    }
  }

  // ---------------------------------------------------------------------
  // Reading today's note back

  /** The configured texts that end up in the note are single lines. */
  predicate SingleLineConfig(config: Config) {
    && (forall n :: n in config.weekdayNames ==> NoBreak(n))
    && (forall p :: p in config.phases ==> NoBreak(p.id) && NoBreak(p.name))
    && (forall s :: s in config.templates ==> NoBreak(config.templates[s]))
  }

  lemma WindowsSingle()
    ensures forall w :: w in TimeBlocks ==> NoBreak(w.0) && NoBreak(w.1)
  {
  }

  lemma LabelsSingle()
    ensures forall s :: s in SubjectLabel ==> NoBreak(SubjectLabel[s]) && NoBreak(SubjectLabel[s] + TaskSuffix)
  {
  }

  lemma EmojiSingle()
    ensures forall s :: s in SubjectEmoji ==> NoBreak(SubjectEmoji[s])
  {
  }

  /** With single-line templates, every field of every block is a single
      line. */
  lemma BlocksSingle(a: Allocation, templates: map<string, string>)
    requires forall s :: s in templates ==> NoBreak(templates[s])
    ensures var blocks := BuildPlanBlocks(a, templates);
            forall b :: b in blocks ==> NoBreak(b.start) && NoBreak(b.end) && NoBreak(b.emoji) && NoBreak(b.name) && NoBreak(b.task)
  {
    var blocks := BuildPlanBlocks(a, templates);
    var subjects := BuildSubjectSequence(a);
    WindowsSingle();
    LabelsSingle();
    EmojiSingle();
    forall b | b in blocks
      ensures NoBreak(b.start) && NoBreak(b.end) && NoBreak(b.emoji) && NoBreak(b.name) && NoBreak(b.task)
    {
      var i :| 0 <= i < |blocks| && blocks[i] == b;
      assert TimeBlocks[i] in TimeBlocks;
      var s := if i == 5 && Review in subjects then Review else subjects[i % |subjects|];
      assert s in SubjectLabel && s in SubjectEmoji && Describes(b, s, templates);
    }
  }

  /** The texts a written note is made of are single lines when the
      configuration's are. */
  lemma NoteInputsSingle(args: Args, config: Config, dir: Dir, formatRate: real -> string)
    requires IsOrdinal(args.today) && WellFormed(dir)
    requires SingleLineConfig(config)
    requires forall x :: NoBreak(formatRate(x))
    requires |config.phases| > 0 && WeekdayName(args.today, config.weekdayNames).Some?
    requires IsOrdinal(args.today - 1)
    ensures var phase := ChoosePhase(args.today, config.phases).value;
            var stats := ParseYesterdayStats(YesterdayText(dir, args.today), args.carryLimit);
            SingleLineInputs(WeekdayName(args.today, config.weekdayNames).value, phase, stats.carry,
                             formatRate(stats.rate), BuildPlanBlocks(phase.allocation, config.templates))
  {
    var today := args.today;
    var phase := ChoosePhase(today, config.phases).value;
    var y := YesterdayText(dir, today);
    var stats := ParseYesterdayStats(y, args.carryLimit);
    if |config.weekdayNames| == 0 {
      DefaultNamesSingle();
      assert DefaultWeekdayNames[Weekday(today)] in DefaultWeekdayNames;
    } else {
      assert config.weekdayNames[Weekday(today)] in config.weekdayNames;
    }
    forall x | x in stats.carry ensures NoBreak(x) {
      if y.Some? {
        var lines := Lines(y.value);
        PendingTasksSingleLine(lines);
        var k :| 0 <= k < |stats.carry| && stats.carry[k] == x;
        assert x == PendingTasks(lines)[k];
      }
    }
    BlocksSingle(phase.allocation, config.templates);
  }

  /** Read back line by line, a note the run writes carries yesterday's first
      unfinished tasks (as many as the carry limit keeps) as unchecked lines
      right after the completion-rate line, and that line shows yesterday's
      finished share. */
  lemma NoteCarriesYesterday(args: Args, config: Config, dir: Dir, formatRate: real -> string)
    requires IsOrdinal(args.today) && WellFormed(dir)
    requires SingleLineConfig(config)
    requires forall x :: NoBreak(formatRate(x))
    requires Run(args, config, dir, formatRate).Generated?
    ensures var ls := Split(Run(args, config, dir, formatRate).content, '\n');
            var y := YesterdayText(dir, args.today);
            var stats := ParseYesterdayStats(y, args.carryLimit);
            && |ls| > HeadSize + |stats.carry|
            && ls[HeadSize - 1] == RateLine(formatRate(stats.rate))
            && (stats.carry == [] ==> ls[HeadSize] == NoCarryLine)
            && (forall k :: 0 <= k < |stats.carry| ==> ls[HeadSize + k] == "- [ ] " + stats.carry[k])
            && (y.Some? ==> stats.carry <= PendingTasks(Lines(y.value)))
  {
    var today := args.today;
    var phase := ChoosePhase(today, config.phases).value;
    var wd := WeekdayName(today, config.weekdayNames).value;
    var stats := ParseYesterdayStats(YesterdayText(dir, today), args.carryLimit);
    var blocks := BuildPlanBlocks(phase.allocation, config.templates);
    assert Run(args, config, dir, formatRate).content
        == Render(NoteDatesOf(today), wd, phase, stats.carry, formatRate(stats.rate), blocks);
    NoteInputsSingle(args, config, dir, formatRate);
    RenderedCarry(NoteDatesOf(today), wd, phase, stats.carry, formatRate(stats.rate), blocks);
  }

  /** The note a run writes splits into the lines it was rendered from. */
  lemma NoteReadsBack(args: Args, config: Config, dir: Dir, formatRate: real -> string)
    requires IsOrdinal(args.today) && WellFormed(dir)
    requires SingleLineConfig(config)
    requires forall x :: NoBreak(formatRate(x))
    requires Run(args, config, dir, formatRate).Generated?
    ensures var today := args.today;
            var phase := ChoosePhase(today, config.phases).value;
            var stats := ParseYesterdayStats(YesterdayText(dir, today), args.carryLimit);
            Split(Run(args, config, dir, formatRate).content, '\n')
            == RenderLines(NoteDatesOf(today), WeekdayName(today, config.weekdayNames).value, phase, stats.carry,
                           formatRate(stats.rate), BuildPlanBlocks(phase.allocation, config.templates)) + [""]
  {
    var today := args.today;
    var phase := ChoosePhase(today, config.phases).value;
    var wd := WeekdayName(today, config.weekdayNames).value;
    var stats := ParseYesterdayStats(YesterdayText(dir, today), args.carryLimit);
    var blocks := BuildPlanBlocks(phase.allocation, config.templates);
    assert Run(args, config, dir, formatRate).content
        == Render(NoteDatesOf(today), wd, phase, stats.carry, formatRate(stats.rate), blocks);
    NoteInputsSingle(args, config, dir, formatRate);
    RenderReadsBack(NoteDatesOf(today), wd, phase, stats.carry, formatRate(stats.rate), blocks);
  }
}
