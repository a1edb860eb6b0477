/**
 * Traffic selection over the active experiments: every allocation entry of every experiment
 * is walked in order while one running percentage is accumulated across all of them; the
 * first entry whose running total reaches the random draw decides.
 */
module Traffic {
  import opened Wrappers
  import opened Records

  /** One allocation entry with the experiment it belongs to, in walk order. */
  datatype Slot = Slot(experiment: ExperimentData, variation: TrafficVariation)

  /** A decision to apply an experiment: its id, and the experiment data with the chosen
      variation recorded in `selectedVariation`. */
  datatype Selection = Selection(id: Id, experiment: ExperimentData)

  /** The entries one experiment contributes; none when it has no allocation. */
  function SlotsOf(x: ExperimentData): seq<Slot> {
    match x.allocation
    case None => []
    case Some(vs) => seq(|vs|, k requires 0 <= k < |vs| => Slot(x, vs[k]))
  }

  /** All entries, in experiment order and then in allocation order. */
  function Slots(xs: seq<ExperimentData>): seq<Slot> {
    if xs == [] then [] else Slots(xs[..|xs| - 1]) + SlotsOf(xs[|xs| - 1])
  }

  /** Sum of the percentages of some entries. */
  function Total(s: seq<Slot>): int {
    if s == [] then 0 else Total(s[..|s| - 1]) + s[|s| - 1].variation.percentage
  }

  /** The running percentage right after entry k has been added. */
  function RunningTotal(s: seq<Slot>, k: nat): int
    requires k < |s|
  {
    Total(s[..k + 1])
  }

  /** Entry k is hit by the draw r. */
  predicate Reaches(s: seq<Slot>, r: real, k: nat)
    requires k < |s|
  {
    r <= RunningTotal(s, k) as real
  }

  /** The draw reaches none of the first n entries. */
  predicate Missed(s: seq<Slot>, r: real, n: nat)
    requires n <= |s|
  {
    forall m :: 0 <= m < n ==> !Reaches(s, r, m)
  }

  /** The first entry hit by the draw, if any. */
  function FirstHit(s: seq<Slot>, r: real): (k: Option<nat>)
    ensures k.Some? ==> k.value < |s| && Reaches(s, r, k.value)
    ensures k.Some? ==> forall j :: 0 <= j < k.value ==> !Reaches(s, r, j)
    ensures k.None? <==> forall j :: 0 <= j < |s| ==> !Reaches(s, r, j)
  {
    FirstHitFrom(s, r, 0)
  }

  function FirstHitFrom(s: seq<Slot>, r: real, i: nat): (k: Option<nat>)
    requires i <= |s|
    ensures k.Some? ==> i <= k.value < |s| && Reaches(s, r, k.value)
    ensures k.Some? ==> forall j :: i <= j < k.value ==> !Reaches(s, r, j)
    ensures k.None? ==> forall j :: i <= j < |s| ==> !Reaches(s, r, j)
    decreases |s| - i
  {
    if i == |s| then None
    else if Reaches(s, r, i) then Some(i)
    else FirstHitFrom(s, r, i + 1)
  }

  /** What the selector decides for a list of experiments and a draw r. */
  function Decision(experiments: Option<seq<ExperimentData>>, r: real): Option<Selection> {
    if experiments.None? || |experiments.value| == 0 then None
    else
      var s := Slots(experiments.value);
      match FirstHit(s, r)
      case None => None
      case Some(k) =>
        if s[k].variation.isControl then None
        else Some(Selection(s[k].experiment.id,
                            s[k].experiment.(selectedVariation := s[k].variation.id)))
  }

  /**
   * The selector itself: `r` is the draw `Math.random() * 100`. Returns None (default
   * content) when there is nothing to choose from, when no running total reaches the draw,
   * and when the entry hit is a control.
   */
  method SelectExperimentByTraffic(experiments: Option<seq<ExperimentData>>, r: real)
    returns (sel: Option<Selection>)
    ensures sel == Decision(experiments, r)
  {
    if experiments.None? || |experiments.value| == 0 {
      return None;
    }
    var xs := experiments.value;
    var cumulative := 0;
    var i := 0;
    ghost var n := 0;
    while i < |xs|
      invariant 0 <= i <= |xs|
      invariant n == |Slots(xs[..i])| <= |Slots(xs)|
      invariant cumulative == Total(Slots(xs)[..n])
      invariant Missed(Slots(xs), r, n)
    {
      NextExperiment(xs, i);
      var decided;
      decided, sel, cumulative := VisitExperiment(xs, i, cumulative, r, n);
      if decided {
        return;
      }
      n := n + if xs[i].allocation.Some? then |xs[i].allocation.value| else 0;
      i := i + 1;
    }
    assert xs[..i] == xs;
    assert FirstHit(Slots(xs), r).None?;
    return None;
  }

  /** One experiment of the walk: its allocation entries, if any, continue the running
      percentage; the first one the draw reaches decides. */
  method VisitExperiment(xs: seq<ExperimentData>, i: nat, cumulative: int, r: real, ghost n: nat)
    returns (decided: bool, sel: Option<Selection>, total: int)
    requires i < |xs| && n == |Slots(xs[..i])| <= |Slots(xs)|
    requires cumulative == Total(Slots(xs)[..n]) && Missed(Slots(xs), r, n)
    ensures decided ==> sel == Decision(Some(xs), r)
    ensures !decided ==> var next := n + if xs[i].allocation.Some? then |xs[i].allocation.value| else 0;
      && next <= |Slots(xs)|
      && total == Total(Slots(xs)[..next])
      && Missed(Slots(xs), r, next)
  {
    var x := xs[i];
    if x.allocation.None? {
      return false, None, cumulative;
    }
    var vs := x.allocation.value;
    EntriesAt(xs, i, n);
    var hit;
    hit, total := WalkAllocation(vs, cumulative, r, Slots(xs), n);
    if hit.None? {
      return false, None, total;
    }
    var v := vs[hit.value];
    HitIn(xs, i, n, r, hit.value);
    if v.isControl {
      return true, None, total;
    }
    return true, Some(Selection(x.id, x.(selectedVariation := v.id))), total;
  }

  /** The inner walk over one experiment's allocation entries (at positions n.. of the whole
      walk s), continuing the running percentage; stops at the first entry the draw reaches. */
  method WalkAllocation(vs: seq<TrafficVariation>, cumulative: int, r: real,
                        ghost s: seq<Slot>, ghost n: nat)
    returns (hit: Option<nat>, total: int)
    requires n + |vs| <= |s|
    requires forall j :: 0 <= j < |vs| ==> s[n + j].variation == vs[j]
    requires cumulative == Total(s[..n])
    requires Missed(s, r, n)
    ensures hit.Some? ==> hit.value < |vs| && FirstHit(s, r) == Some(n + hit.value)
    ensures hit.None? ==> total == Total(s[..n + |vs|])
    ensures hit.None? ==> Missed(s, r, n + |vs|)
  {
    total := cumulative;
    var j := 0;
    while j < |vs|
      invariant 0 <= j <= |vs|
      invariant total == Total(s[..n + j])
      invariant Missed(s, r, n + j)
    {
      var p := n + j;
      TotalStep(s, p);
      total := total + vs[j].percentage;
      if r <= total as real {
        FirstHitAt(s, r, p);
        return Some(j), total;
      }
      MissExtends(s, r, p);
      j := j + 1;
    }
    return None, total;
  }

  /** The decision once the first entry the draw reaches is known. */
  lemma DecisionAt(xs: seq<ExperimentData>, r: real, p: nat)
    requires xs != [] && p < |Slots(xs)| && FirstHit(Slots(xs), r) == Some(p)
    ensures var slot := Slots(xs)[p];
      Decision(Some(xs), r) == if slot.variation.isControl then None
        else Some(Selection(slot.experiment.id, slot.experiment.(selectedVariation := slot.variation.id)))
  {
  }

  /** Moving on to experiment i appends exactly its own entries. */
  lemma NextExperiment(xs: seq<ExperimentData>, i: nat)
    requires i < |xs|
    ensures Slots(xs[..i + 1]) == Slots(xs[..i]) + SlotsOf(xs[i])
    ensures |Slots(xs[..i])| + |SlotsOf(xs[i])| <= |Slots(xs)|
    ensures |SlotsOf(xs[i])| == if xs[i].allocation.Some? then |xs[i].allocation.value| else 0
  {
    assert xs[..i + 1][..i] == xs[..i];
    SlotsPrefix(xs, i + 1);
  }

  /** Entry j of experiment i sits right after the entries of the experiments before it. */
  lemma EntryAt(xs: seq<ExperimentData>, i: nat, j: nat)
    requires i < |xs| && xs[i].allocation.Some? && j < |xs[i].allocation.value|
    ensures |Slots(xs[..i])| + j < |Slots(xs)|
    ensures Slots(xs)[|Slots(xs[..i])| + j] == Slot(xs[i], xs[i].allocation.value[j])
  {
    NextExperiment(xs, i);
    SlotsPrefix(xs, i + 1);
    var n := |Slots(xs[..i])|;
    assert Slots(xs)[n + j] == Slots(xs[..i + 1])[n + j];
    assert SlotsOf(xs[i])[j] == Slot(xs[i], xs[i].allocation.value[j]);
  }

  /** The entries of experiment i, in allocation order, right after those before it. */
  lemma EntriesAt(xs: seq<ExperimentData>, i: nat, n: nat)
    requires i < |xs| && xs[i].allocation.Some? && n == |Slots(xs[..i])|
    ensures n + |xs[i].allocation.value| <= |Slots(xs)|
    ensures forall j :: 0 <= j < |xs[i].allocation.value| ==>
      Slots(xs)[n + j].variation == xs[i].allocation.value[j]
  {
    NextExperiment(xs, i);
    forall j | 0 <= j < |xs[i].allocation.value|
      ensures Slots(xs)[n + j].variation == xs[i].allocation.value[j]
    {
      EntryAt(xs, i, j);
    }
  }

  /** The decision when the first entry reached is entry j of experiment i. */
  lemma HitIn(xs: seq<ExperimentData>, i: nat, n: nat, r: real, j: nat)
    requires i < |xs| && xs[i].allocation.Some? && j < |xs[i].allocation.value|
    requires n == |Slots(xs[..i])| && FirstHit(Slots(xs), r) == Some(n + j)
    ensures var v := xs[i].allocation.value[j];
      Decision(Some(xs), r) == if v.isControl then None
        else Some(Selection(xs[i].id, xs[i].(selectedVariation := v.id)))
  {
    EntryAt(xs, i, j);
    DecisionAt(xs, r, n + j);
  }

  lemma TotalStep(s: seq<Slot>, p: nat)
    requires p < |s|
    ensures Total(s[..p + 1]) == Total(s[..p]) + s[p].variation.percentage
  {
    assert s[..p + 1][..p] == s[..p];
  }

  lemma MissExtends(s: seq<Slot>, r: real, p: nat)
    requires p < |s| && r > RunningTotal(s, p) as real
    requires Missed(s, r, p)
    ensures Missed(s, r, p + 1)
  {
  }

  lemma FirstHitAt(s: seq<Slot>, r: real, p: nat)
    requires p < |s| && Reaches(s, r, p)
    requires Missed(s, r, p)
    ensures FirstHit(s, r) == Some(p)
  {
  }

  lemma {:induction false} SlotsConcat(a: seq<ExperimentData>, b: seq<ExperimentData>)
    ensures Slots(a + b) == Slots(a) + Slots(b)
    decreases |b|
  {
    if b == [] {
      assert a + b == a;
    } else {
      var b', last := b[..|b| - 1], b[|b| - 1];
      assert (a + b)[..|a + b| - 1] == a + b';
      assert (a + b)[|a + b| - 1] == last;
      SlotsConcat(a, b');
      calc {
        Slots(a + b);
        Slots(a + b') + SlotsOf(last);
        (Slots(a) + Slots(b')) + SlotsOf(last);
        Slots(a) + (Slots(b') + SlotsOf(last));
        Slots(a) + Slots(b);
      }
    }
  }

  lemma SlotsPrefix(xs: seq<ExperimentData>, i: nat)
    requires i <= |xs|
    ensures |Slots(xs[..i])| <= |Slots(xs)|
    ensures Slots(xs)[..|Slots(xs[..i])|] == Slots(xs[..i])
  {
    assert xs == xs[..i] + xs[i..];
    SlotsConcat(xs[..i], xs[i..]);
  }

  /** Every entry walked belongs to one of the experiments and is one of its own allocation
      entries: experiments without an allocation contribute nothing. */
  lemma {:induction false} SlotsComeFromAllocations(xs: seq<ExperimentData>)
    ensures forall k :: 0 <= k < |Slots(xs)| ==>
      && Slots(xs)[k].experiment in xs
      && Slots(xs)[k].experiment.allocation.Some?
      && Slots(xs)[k].variation in Slots(xs)[k].experiment.allocation.value
    decreases |xs|
  {
    if xs != [] {
      var xs' := xs[..|xs| - 1];
      SlotsComeFromAllocations(xs');
      var last := xs[|xs| - 1];
      forall k | 0 <= k < |Slots(xs)|
        ensures Slots(xs)[k].experiment in xs
        ensures Slots(xs)[k].experiment.allocation.Some?
        ensures Slots(xs)[k].variation in Slots(xs)[k].experiment.allocation.value
      {
        if k < |Slots(xs')| {
          assert Slots(xs)[k] == Slots(xs')[k];
          assert Slots(xs')[k].experiment in xs';
        } else {
          assert Slots(xs)[k] == SlotsOf(last)[k - |Slots(xs')|];
        }
      }
    }
  }

  /** An experiment without an allocation is skipped: removing it changes nothing. */
  lemma SkipsUnallocated(a: seq<ExperimentData>, x: ExperimentData, b: seq<ExperimentData>)
    requires x.allocation.None?
    ensures Slots(a + [x] + b) == Slots(a + b)
  {
    assert [x][..0] == [];
    assert Slots([x]) == [];
    SlotsConcat(a, [x]);
    assert Slots(a + [x]) == Slots(a);
    SlotsConcat(a + [x], b);
    SlotsConcat(a, b);
  }

  lemma {:induction false} TotalConcat(a: seq<Slot>, b: seq<Slot>)
    ensures Total(a + b) == Total(a) + Total(b)
    decreases |b|
  {
    if b == [] {
      assert a + b == a;
    } else {
      assert (a + b)[..|a + b| - 1] == a + b[..|b| - 1];
      TotalConcat(a, b[..|b| - 1]);
    }
  }

  /** The running percentage is never reset between experiments: inside a later experiment
      it starts from the total of all earlier ones. */
  lemma RunningTotalNeverReset(xs: seq<ExperimentData>, ys: seq<ExperimentData>, j: nat)
    requires j < |Slots(ys)|
    ensures |Slots(xs)| + j < |Slots(xs + ys)|
    ensures RunningTotal(Slots(xs + ys), |Slots(xs)| + j)
         == Total(Slots(xs)) + RunningTotal(Slots(ys), j)
  {
    SlotsConcat(xs, ys);
    RunningTotalAcross(Slots(xs), Slots(ys), j);
  }

  lemma RunningTotalAcross(a: seq<Slot>, b: seq<Slot>, j: nat)
    requires j < |b|
    ensures RunningTotal(a + b, |a| + j) == Total(a) + RunningTotal(b, j)
  {
    assert (a + b)[..|a| + j + 1] == a + b[..j + 1];
    TotalConcat(a, b[..j + 1]);
  }

  /** With non-negative percentages no running total exceeds the overall total. */
  lemma {:induction false} RunningTotalBounded(s: seq<Slot>, k: nat)
    requires k < |s|
    requires forall m :: 0 <= m < |s| ==> s[m].variation.percentage >= 0
    ensures RunningTotal(s, k) <= Total(s)
    decreases |s|
  {
    if k + 1 < |s| {
      var s' := s[..|s| - 1];
      assert s'[..k + 1] == s[..k + 1];
      RunningTotalBounded(s', k);
    } else {
      assert s[..k + 1] == s;
    }
  }

  /** A draw past the sum of all (non-negative) percentages selects nothing. */
  lemma BeyondTotalSelectsNothing(xs: seq<ExperimentData>, r: real)
    requires forall m :: 0 <= m < |Slots(xs)| ==> Slots(xs)[m].variation.percentage >= 0
    requires r > Total(Slots(xs)) as real
    ensures Decision(Some(xs), r).None?
  {
    var s := Slots(xs);
    forall j | 0 <= j < |s| ensures !Reaches(s, r, j) {
      RunningTotalBounded(s, j);
    }
  }

  /** On a tie between running totals the earlier entry wins: a later entry whose running
      total equals an earlier one's is never the one hit. */
  lemma EarlierEntryWinsTies(s: seq<Slot>, r: real, j: nat, k: nat)
    requires j < k < |s| && RunningTotal(s, j) == RunningTotal(s, k)
    ensures FirstHit(s, r) != Some(k)
  {
    assert Reaches(s, r, k) ==> Reaches(s, r, j);
  }

  /** What a selection means: a non-control entry was the first hit, the selection carries its
      experiment's id, and the experiment is passed on unchanged except for the chosen
      variation id. */
  lemma DecisionMeaning(xs: seq<ExperimentData>, r: real)
    ensures Decision(Some(xs), r).Some? <==>
      FirstHit(Slots(xs), r).Some? && !Slots(xs)[FirstHit(Slots(xs), r).value].variation.isControl
    ensures Decision(Some(xs), r).Some? ==>
      var slot := Slots(xs)[FirstHit(Slots(xs), r).value];
      var sel := Decision(Some(xs), r).value;
      && sel.experiment.id == sel.id == slot.experiment.id
      && slot.experiment in xs
      && sel.experiment.selectedVariation == slot.variation.id
      && slot.experiment.allocation.Some?
      && slot.variation in slot.experiment.allocation.value
      && sel.experiment.(selectedVariation := slot.experiment.selectedVariation) == slot.experiment
  {
    SlotsComeFromAllocations(xs);
  }
}
