/** Subject ordering and time-block allocation of the minimal daily-plan
    generator: the phase's allocation weights order the subjects, and the
    subjects are dealt round-robin over six fixed time windows, the last of
    which is kept for review. */
module PlanBlocks {

  /** A phase allocation: subject keys with their weights, in the order the
      configuration's JSON object lists them. */
  type Allocation = seq<(string, real)>

  const SubjectLabel: map<string, string> :=
    map["math" := "数学", "major" := "专业课", "english" := "英语", "politics" := "政治", "review" := "复盘"]

  const SubjectEmoji: map<string, string> :=
    map["math" := "🧮", "major" := "📡", "english" := "📝", "politics" := "📚", "review" := "📊"]

  /** Used when no allocation key is a known subject. */
  const DefaultSubjects: seq<string> := ["math", "major", "english", "review"]

  const Review: string := "review"
  const FallbackEmoji: string := "📌"
  const TaskSuffix: string := "重点任务"

  /** The fixed wall-clock windows, in order. */
  const TimeBlocks: seq<(string, string)> := [
    ("08:00", "10:00"),
    ("10:20", "12:00"),
    ("14:00", "16:00"),
    ("16:20", "18:00"),
    ("19:00", "21:00"),
    ("21:10", "21:40")
  ]

  /** One rendered block: window, emoji, subject label and task text. */
  datatype TimeBlock = TimeBlock(start: string, end: string, emoji: string, name: string, task: string)

  // ---------------------------------------------------------------------
  // Python's sorted(allocation.items(), key=weight, reverse=True)

  predicate NonIncreasing(a: Allocation) {
    forall i, j :: 0 <= i < j < |a| ==> a[i].1 >= a[j].1
  }

  /** The entries of `a` carrying weight `w`, in order. */
  function WithWeight(a: Allocation, w: real): Allocation
  {
    if |a| == 0 then []
    else (if a[0].1 == w then [a[0]] else []) + WithWeight(a[1..], w)
  }

  lemma WithWeightCons(x: (string, real), s: Allocation, w: real)
    ensures WithWeight([x] + s, w) == (if x.1 == w then [x] else []) + WithWeight(s, w)
  {
    assert ([x] + s)[0] == x;
    assert ([x] + s)[1..] == s;
  }

  /** Inserts `x` before the first entry whose weight is not larger, so that
      `x` stays ahead of the entries of equal weight that followed it. */
  function Insert(x: (string, real), s: Allocation): (r: Allocation)
    ensures multiset(r) == multiset(s) + multiset{x}
  {
    if |s| == 0 then [x]
    else if s[0].1 <= x.1 then [x] + s
    else
      assert s == [s[0]] + s[1..];
      [s[0]] + Insert(x, s[1..])
  }

  lemma {:induction false} InsertKeepsOrder(x: (string, real), s: Allocation)
    requires NonIncreasing(s)
    ensures NonIncreasing(Insert(x, s))
  {
    if |s| > 0 && s[0].1 > x.1 {
      var rest := Insert(x, s[1..]);
      InsertKeepsOrder(x, s[1..]);
      forall k | 0 <= k < |rest| ensures s[0].1 >= rest[k].1 {
        assert rest[k] in multiset(rest);
        if rest[k] != x {
          assert rest[k] in multiset(s[1..]);
          var j :| 0 <= j < |s[1..]| && s[1..][j] == rest[k];
          assert s[j + 1] == rest[k];
        }
      }
      var r := [s[0]] + rest;
      assert forall k :: 0 < k < |r| ==> r[k] == rest[k - 1];
    }
  }

  lemma {:induction false} InsertWithWeight(x: (string, real), s: Allocation, w: real)
    ensures WithWeight(Insert(x, s), w) == (if x.1 == w then [x] else []) + WithWeight(s, w)
  {
    if |s| == 0 {
      WithWeightCons(x, s, w);
    } else if s[0].1 <= x.1 {
      WithWeightCons(x, s, w);
    } else {
      InsertWithWeight(x, s[1..], w);
      WithWeightCons(s[0], Insert(x, s[1..]), w);
      assert s == [s[0]] + s[1..];
      WithWeightCons(s[0], s[1..], w);
    }
  }

  /** Python's stable sort by weight, descending: entries of equal weight keep
      their configuration order. */
  function SortByWeight(a: Allocation): (r: Allocation)
    ensures NonIncreasing(r)
    ensures multiset(r) == multiset(a)
    ensures forall w :: WithWeight(r, w) == WithWeight(a, w)
  {
    if |a| == 0 then []
    else
      var rest := SortByWeight(a[1..]);
      assert a == [a[0]] + a[1..];
      InsertKeepsOrder(a[0], rest);
      forall w ensures WithWeight(Insert(a[0], rest), w) == WithWeight(a, w) {
        InsertWithWeight(a[0], rest, w);
        WithWeightCons(a[0], a[1..], w);
      }
      Insert(a[0], rest)
  }

  lemma {:induction false} SortedHeadIsHeaviest(b: Allocation, w: real)
    requires NonIncreasing(b)
    requires |WithWeight(b, w)| > 0
    ensures |b| > 0 && b[0].1 >= w
  {
    if |b| > 0 && b[0].1 != w {
      assert b == [b[0]] + b[1..];
      WithWeightCons(b[0], b[1..], w);
      SortedHeadIsHeaviest(b[1..], w);
    }
  }

  lemma WithWeightHead(b: Allocation)
    requires |b| > 0
    ensures WithWeight(b, b[0].1) == [b[0]] + WithWeight(b[1..], b[0].1)
  {
    assert b == [b[0]] + b[1..];
    WithWeightCons(b[0], b[1..], b[0].1);
  }

  /** Reference characterisation of the stable descending sort: any
      arrangement that is non-increasing in weight and keeps, weight by
      weight, the configuration order is the sort's result. */
  lemma {:induction false} StableSortUnique(a: Allocation, b: Allocation)
    requires NonIncreasing(a) && NonIncreasing(b)
    requires forall w :: WithWeight(a, w) == WithWeight(b, w)
    ensures a == b
    decreases |a|
  {
    if |a| == 0 {
      if |b| > 0 {
        WithWeightHead(b);
        assert false;
      }
    } else {
      WithWeightHead(a);
      SortedHeadIsHeaviest(b, a[0].1);
      WithWeightHead(b);
      SortedHeadIsHeaviest(a, b[0].1);
      assert a[0].1 == b[0].1;
      assert a[0] == WithWeight(a, a[0].1)[0] == b[0];
      forall w ensures WithWeight(a[1..], w) == WithWeight(b[1..], w) {
        assert a == [a[0]] + a[1..] && b == [b[0]] + b[1..];
        WithWeightCons(a[0], a[1..], w);
        WithWeightCons(b[0], b[1..], w);
        assert WithWeight(a, w) == WithWeight(b, w);
        if a[0].1 == w {
          var x, y := WithWeight(a[1..], w), WithWeight(b[1..], w);
          assert [a[0]] + x == [a[0]] + y;
          assert x == ([a[0]] + x)[1..];
          assert y == ([a[0]] + y)[1..];
        } else {
          assert b[0].1 != w;
          assert WithWeight(a, w) == WithWeight(a[1..], w);
          assert WithWeight(b, w) == WithWeight(b[1..], w);
        }
      }
      StableSortUnique(a[1..], b[1..]);
      assert a == [a[0]] + a[1..] && b == [b[0]] + b[1..];
    }
  }

  /** Python's sort is the one arrangement that is non-increasing in weight
      and stable. */
  lemma SortByWeightIsStableSort(a: Allocation, b: Allocation)
    requires NonIncreasing(b)
    requires forall w :: WithWeight(b, w) == WithWeight(a, w)
    ensures SortByWeight(a) == b
  {
    StableSortUnique(SortByWeight(a), b);
  }

  // ---------------------------------------------------------------------
  // build_subject_sequence

  /** The entries whose key is a known subject, in order. */
  function KnownOnly(a: Allocation): (r: Allocation)
    ensures forall k :: 0 <= k < |r| ==> r[k].0 in SubjectLabel
    ensures |r| == 0 <==> forall p :: p in a ==> p.0 !in SubjectLabel
  {
    if |a| == 0 then []
    else
      assert forall p :: p in a ==> p == a[0] || p in a[1..];
      (if a[0].0 in SubjectLabel then [a[0]] else []) + KnownOnly(a[1..])
  }

  function Keys(a: Allocation): (r: seq<string>)
    ensures |r| == |a|
    ensures forall k :: 0 <= k < |a| ==> r[k] == a[k].0
  {
    if |a| == 0 then [] else [a[0].0] + Keys(a[1..])
  }

  lemma KnownOnlyCons(x: (string, real), s: Allocation)
    ensures KnownOnly([x] + s) == (if x.0 in SubjectLabel then [x] else []) + KnownOnly(s)
  {
    assert ([x] + s)[0] == x;
    assert ([x] + s)[1..] == s;
  }

  lemma {:induction false} WithWeightKnownOnly(a: Allocation, w: real)
    ensures WithWeight(KnownOnly(a), w) == KnownOnly(WithWeight(a, w))
  {
    if |a| > 0 {
      var x, t := a[0], a[1..];
      assert a == [x] + t;
      WithWeightKnownOnly(t, w);
      KnownOnlyCons(x, t);
      WithWeightCons(x, t, w);
      if x.0 in SubjectLabel {
        WithWeightCons(x, KnownOnly(t), w);
        assert KnownOnly(a) == [x] + KnownOnly(t);
      } else {
        assert KnownOnly(a) == KnownOnly(t);
      }
      if x.1 == w {
        assert WithWeight(a, w) == [x] + WithWeight(t, w);
        KnownOnlyCons(x, WithWeight(t, w));
      } else {
        assert WithWeight(a, w) == WithWeight(t, w);
      }
    }
  }

  lemma {:induction false} KnownOnlyKeepsOrder(a: Allocation)
    requires NonIncreasing(a)
    ensures NonIncreasing(KnownOnly(a))
  {
    if |a| > 0 {
      KnownOnlyKeepsOrder(a[1..]);
      var r := KnownOnly(a[1..]);
      forall k | 0 <= k < |r| ensures a[0].1 >= r[k].1 {
        KnownOnlySubset(a[1..], k);
      }
    }
  }

  lemma {:induction false} KnownOnlySubset(a: Allocation, k: nat)
    requires k < |KnownOnly(a)|
    ensures KnownOnly(a)[k] in a
  {
    if |a| > 0 {
      if a[0].0 in SubjectLabel {
        if k > 0 {
          KnownOnlySubset(a[1..], k - 1);
        }
      } else {
        KnownOnlySubset(a[1..], k);
      }
    }
  }

  /** The known subjects of the allocation, heaviest first, ties in
      configuration order. */
  function Ranked(a: Allocation): (r: Allocation)
    ensures NonIncreasing(r)
    ensures forall k :: 0 <= k < |r| ==> r[k].0 in SubjectLabel && r[k] in a
    ensures forall w :: WithWeight(r, w) == WithWeight(KnownOnly(a), w)
    ensures |r| == 0 <==> forall p :: p in a ==> p.0 !in SubjectLabel
  {
    var sorted := SortByWeight(a);
    var r := KnownOnly(sorted);
    KnownOnlyKeepsOrder(sorted);
    forall w ensures WithWeight(r, w) == WithWeight(KnownOnly(a), w) {
      WithWeightKnownOnly(sorted, w);
      WithWeightKnownOnly(a, w);
    }
    forall k | 0 <= k < |r| ensures r[k] in a {
      KnownOnlySubset(sorted, k);
      assert r[k] in multiset(sorted);
    }
    assert forall p :: p in a <==> p in sorted by {
      assert forall p :: p in a <==> p in multiset(a);
      assert forall p :: p in sorted <==> p in multiset(sorted);
    }
    r
  }

  /** `build_subject_sequence`: the known subjects by weight, heaviest first,
      or the default list when the allocation names no known subject. */
  function BuildSubjectSequence(a: Allocation): (r: seq<string>)
    ensures |r| > 0
    ensures forall k :: 0 <= k < |r| ==> r[k] in SubjectLabel
    ensures (forall p :: p in a ==> p.0 !in SubjectLabel) ==> r == DefaultSubjects
    ensures (exists p :: p in a && p.0 in SubjectLabel) ==> r == Keys(Ranked(a))
  {
    var ranked := Ranked(a);
    if |ranked| == 0 then DefaultSubjects else Keys(ranked)
  }

  /** No two entries share a key (a JSON object's keys are distinct). */
  predicate DistinctKeys(a: Allocation) {
    forall i, j :: 0 <= i < j < |a| ==> a[i].0 != a[j].0
  }

  /** The configured weight of a key (the first entry carrying it). */
  function WeightOf(a: Allocation, key: string): real
  {
    if |a| == 0 then 0.0 else if a[0].0 == key then a[0].1 else WeightOf(a[1..], key)
  }

  lemma {:induction false} WeightOfEntry(a: Allocation, p: (string, real))
    requires DistinctKeys(a) && p in a
    ensures WeightOf(a, p.0) == p.1
  {
    if a[0] != p {
      assert p in a[1..];
      WeightOfEntry(a[1..], p);
    }
  }

  /** Along the subject sequence the configured weights never increase. */
  lemma SubjectWeightsNonIncreasing(a: Allocation)
    requires DistinctKeys(a)
    requires exists p :: p in a && p.0 in SubjectLabel
    ensures var r := BuildSubjectSequence(a);
            forall i, j :: 0 <= i < j < |r| ==> WeightOf(a, r[i]) >= WeightOf(a, r[j])
  {
    var ranked := Ranked(a);
    forall k | 0 <= k < |ranked| ensures WeightOf(a, ranked[k].0) == ranked[k].1 {
      WeightOfEntry(a, ranked[k]);
    }
  }

  /** The default list is not a sign that the allocation was ignored: an
      allocation that already ranks math, major, english and review in that
      order yields the same list. */
  lemma DefaultListAlsoFromAllocation(a: Allocation)
    requires NonIncreasing(a)
    requires Keys(a) == DefaultSubjects
    ensures BuildSubjectSequence(a) == DefaultSubjects
  {
    assert |a| == 4;
    forall k | 0 <= k < |a| ensures a[k].0 in SubjectLabel {
      assert a[k].0 == Keys(a)[k] == DefaultSubjects[k];
    }
    SortByWeightIsStableSort(a, a);
    KnownOnlyAllKnown(a);
    assert Ranked(a) == a;
  }

  lemma {:induction false} KnownOnlyAllKnown(a: Allocation)
    requires forall k :: 0 <= k < |a| ==> a[k].0 in SubjectLabel
    ensures KnownOnly(a) == a
  {
    if |a| > 0 {
      KnownOnlyAllKnown(a[1..]);
      assert a == [a[0]] + a[1..];
      KnownOnlyCons(a[0], a[1..]);
    }
  }

  // ---------------------------------------------------------------------
  // build_plan_blocks

  /** The subject of the `i`-th window: round-robin over `subjects`, except
      that the last window is review whenever review is among them. */
  function SlotSubject(subjects: seq<string>, i: nat): string
    requires |subjects| > 0
  {
    if i == |TimeBlocks| - 1 && Review in subjects then Review else subjects[i % |subjects|]
  }

  /** One block for a window and subject; unknown subjects would fall back
      to the key itself and a pin emoji. */
  function MakeBlock(window: (string, string), subject: string, templates: map<string, string>): TimeBlock
  {
    var shown := if subject in SubjectLabel then SubjectLabel[subject] else subject;
    var emoji := if subject in SubjectEmoji then SubjectEmoji[subject] else FallbackEmoji;
    var task := if subject in templates then templates[subject] else shown + TaskSuffix;
    TimeBlock(window.0, window.1, emoji, shown, task)
  }

  /** The block shows `subject` with its label and emoji from the fixed
      tables and the configured template, or "<label>重点任务" without one. */
  predicate Describes(b: TimeBlock, subject: string, templates: map<string, string>)
    requires subject in SubjectLabel && subject in SubjectEmoji
  {
    && b.name == SubjectLabel[subject]
    && b.emoji == SubjectEmoji[subject]
    && b.task == (if subject in templates then templates[subject] else SubjectLabel[subject] + TaskSuffix)
  }

  /** `build_plan_blocks`: one block per fixed window, in order. */
  function BuildPlanBlocks(a: Allocation, templates: map<string, string>): (r: seq<TimeBlock>)
    ensures |r| == |TimeBlocks| == 6
    ensures forall i :: 0 <= i < |r| ==> r[i].start == TimeBlocks[i].0 && r[i].end == TimeBlocks[i].1
    ensures var subjects := BuildSubjectSequence(a);
            Review in subjects ==> Describes(r[5], Review, templates)
    ensures var subjects := BuildSubjectSequence(a);
            forall i :: 0 <= i < |r| && !(i == 5 && Review in subjects) ==>
              subjects[i % |subjects|] in SubjectEmoji && Describes(r[i], subjects[i % |subjects|], templates)
  {
    var subjects := BuildSubjectSequence(a);
    assert SubjectEmoji.Keys == SubjectLabel.Keys;
    seq(|TimeBlocks|, i requires 0 <= i < |TimeBlocks| => MakeBlock(TimeBlocks[i], SlotSubject(subjects, i), templates))
  }

  /** No subject is starved: each of the first five subjects of the
      sequence has the window of its own position, and review, when in the
      sequence, has the last one. */
  lemma SubjectsScheduled(a: Allocation, templates: map<string, string>)
    ensures var subjects := BuildSubjectSequence(a);
            var r := BuildPlanBlocks(a, templates);
            && (forall k :: 0 <= k < |subjects| && k < 5 ==>
                  subjects[k] in SubjectEmoji && Describes(r[k], subjects[k], templates))
            && (Review in subjects ==> Describes(r[5], Review, templates))
  {
    OwnWindows(BuildSubjectSequence(a), BuildPlanBlocks(a, templates), templates);
  }

  lemma OwnWindows(subjects: seq<string>, r: seq<TimeBlock>, templates: map<string, string>)
    requires |subjects| > 0 && |r| == 6
    requires forall i :: 0 <= i < |r| && !(i == 5 && Review in subjects) ==>
               subjects[i % |subjects|] in SubjectEmoji && Describes(r[i], subjects[i % |subjects|], templates)
    ensures forall k :: 0 <= k < |subjects| && k < 5 ==> subjects[k] in SubjectEmoji && Describes(r[k], subjects[k], templates)
  {
    forall k | 0 <= k < |subjects| && k < 5
      ensures subjects[k] in SubjectEmoji && Describes(r[k], subjects[k], templates)
    {
      assert k % |subjects| == k;
    }
  }
}
