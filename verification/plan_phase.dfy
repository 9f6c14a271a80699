/** Phase selection of the minimal daily-plan generator: the configured
    study phases are date ranges, each with a subject allocation. */
module PlanPhase {
  import opened Wrappers
  import opened PlanBlocks

  /** One configured phase; `start` and `end` are the parsed dates as day
      ordinals, both inclusive. */
  datatype Phase = Phase(id: string, name: string, start: int, end: int, allocation: Allocation)

  predicate Covers(p: Phase, today: int) {
    p.start <= today <= p.end
  }

  const MissingPhases: string := "config missing phases"

  /** The first phase, in configuration order, whose range contains
      `today`; when none does, the last phase of the list. An empty list is a
      configuration error. */
  function ChoosePhase(today: int, phases: seq<Phase>): (r: Result<Phase, string>)
    ensures r.Err? <==> |phases| == 0
    ensures r.Err? ==> r.error == MissingPhases
    ensures r.Ok? ==> r.value in phases
    ensures forall i :: 0 <= i < |phases| && Covers(phases[i], today)
                          && (forall j :: 0 <= j < i ==> !Covers(phases[j], today))
                        ==> r == Ok(phases[i])
    ensures |phases| > 0 && (forall i :: 0 <= i < |phases| ==> !Covers(phases[i], today))
            ==> r == Ok(phases[|phases| - 1])
  {
    if |phases| == 0 then Err(MissingPhases)
    else
      match FirstCovering(phases, today)
      case Some(i) => Ok(phases[i])
      case None => Ok(phases[|phases| - 1])
  }

  /** Index of the first phase that covers `today`, if any. */
  function FirstCovering(phases: seq<Phase>, today: int): (r: Option<nat>)
    ensures r.Some? ==> r.value < |phases| && Covers(phases[r.value], today)
    ensures r.Some? ==> forall j :: 0 <= j < r.value ==> !Covers(phases[j], today)
    ensures r.None? ==> forall j :: 0 <= j < |phases| ==> !Covers(phases[j], today)
  {
    if |phases| == 0 then None
    else if Covers(phases[0], today) then Some(0)
    else
      match FirstCovering(phases[1..], today)
      case None => None
      case Some(i) => Some(i + 1)
  }

  /** By convention the phases of a configuration do not overlap (nothing
      checks it). */
  predicate Disjoint(phases: seq<Phase>) {
    forall i, j :: 0 <= i < j < |phases| ==> phases[i].end < phases[j].start || phases[j].end < phases[i].start
  }

  /** With non-overlapping phases, a date inside a phase's range selects
      exactly that phase. */
  lemma ChosenPhaseCoversDate(today: int, phases: seq<Phase>, k: nat)
    requires Disjoint(phases)
    requires k < |phases| && Covers(phases[k], today)
    ensures ChoosePhase(today, phases) == Ok(phases[k])
  {
    forall j | 0 <= j < k ensures !Covers(phases[j], today) {
      assert phases[j].end < phases[k].start || phases[k].end < phases[j].start;
    }
  }

  /** A date before every phase falls back to the last phase of the list,
      not to the earliest one. */
  lemma EarlyDateFallsBackToLast(today: int, phases: seq<Phase>)
    requires |phases| > 0
    requires forall i :: 0 <= i < |phases| ==> today < phases[i].start
    ensures ChoosePhase(today, phases) == Ok(phases[|phases| - 1])
  {
  }
}
