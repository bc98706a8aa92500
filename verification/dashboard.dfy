/**
 * The dashboard: the summary cards computed from the caller's roadmap list,
 * the two chart series, the list kept after a delete, and the technology
 * chips on each roadmap card.
 */
module Dashboard {
  import opened Optional
  import opened RoadmapModel
  import Seqs
  import RoadmapRoutes

  // ---------------------------------------------------------------------------
  // Summary cards
  // ---------------------------------------------------------------------------

  /** `data.reduce((sum, roadmap) => sum + f(roadmap), 0)` */
  function SumOf(rs: seq<Roadmap>, f: Roadmap -> nat): nat {
    if |rs| == 0 then 0 else SumOf(rs[..|rs| - 1], f) + f(rs[|rs| - 1])
  }

  /** A sum of terms each at most `b` is at most `b` times their number. */
  lemma {:induction false} SumBounded(rs: seq<Roadmap>, f: Roadmap -> nat, b: nat)
    requires forall i :: 0 <= i < |rs| ==> f(rs[i]) <= b
    ensures SumOf(rs, f) <= b * |rs|
  {
    if |rs| > 0 {
      SumBounded(rs[..|rs| - 1], f, b);
    }
  }

  /** Summing a pointwise smaller quantity gives a smaller sum. */
  lemma {:induction false} SumMonotone(rs: seq<Roadmap>, f: Roadmap -> nat, g: Roadmap -> nat)
    requires forall i :: 0 <= i < |rs| ==> f(rs[i]) <= g(rs[i])
    ensures SumOf(rs, f) <= SumOf(rs, g)
  {
    if |rs| > 0 {
      SumMonotone(rs[..|rs| - 1], f, g);
    }
  }

  datatype Stats = Stats(totalRoadmaps: nat, avgProgress: nat, totalTopics: nat, completedTopics: nat)

  /** `fetchRoadmaps`' four cards. The average is the total progress divided
      by the number of roadmaps, rounded to the nearest integer (halves up),
      and 0 for an empty list. */
  function ComputeStats(rs: seq<Roadmap>): (st: Stats)
    ensures st.totalRoadmaps == |rs|
    ensures |rs| == 0 ==> st == Stats(0, 0, 0, 0)
    ensures |rs| > 0 ==> |rs| * (2 * st.avgProgress - 1) <= 2 * SumOf(rs, (r: Roadmap) => r.progress) < |rs| * (2 * st.avgProgress + 1)
    ensures st.totalTopics == SumOf(rs, (r: Roadmap) => r.totalTopics)
    ensures st.completedTopics == SumOf(rs, (r: Roadmap) => r.completedTopics)
  {
    var n := |rs|;
    var avg := if n > 0 then RoundDiv(SumOf(rs, (r: Roadmap) => r.progress), n) else 0;
    Stats(n, avg, SumOf(rs, (r: Roadmap) => r.totalTopics), SumOf(rs, (r: Roadmap) => r.completedTopics))
  }

  /** Every list the server sends holds saved, hence consistent, roadmaps. */
  predicate AllConsistent(rs: seq<Roadmap>) {
    forall i :: 0 <= i < |rs| ==> Consistent(rs[i])
  }

  /** Over saved roadmaps the average is a percentage and no more topics are
      completed than exist. */
  lemma StatsInRange(rs: seq<Roadmap>)
    requires AllConsistent(rs)
    ensures ComputeStats(rs).avgProgress <= 100
    ensures ComputeStats(rs).completedTopics <= ComputeStats(rs).totalTopics
  {
    var n := |rs|;
    SumMonotone(rs, (r: Roadmap) => r.completedTopics, (r: Roadmap) => r.totalTopics);
    if n > 0 {
      var total := SumOf(rs, (r: Roadmap) => r.progress);
      SumBounded(rs, (r: Roadmap) => r.progress, 100);
      RoundDivMonotone(total, 100 * n, n);
      RoundDivUnique(100 * n, n, 100);
    }
  }

  /** A non-empty list whose roadmaps have all reached 100% averages 100. */
  lemma {:induction false} FullAverageWhenAllDone(rs: seq<Roadmap>)
    requires AllConsistent(rs)
    requires |rs| > 0 && forall i :: 0 <= i < |rs| ==> rs[i].progress == 100
    ensures ComputeStats(rs).avgProgress == 100
  {
    SumExact(rs);
    RoundDivUnique(100 * |rs|, |rs|, 100);
  }

  /** The converse fails because the average is rounded: roadmaps at 100%
      and 99% average 99.5, shown as 100. */
  lemma FullAverageWithUnfinished(a: Roadmap, b: Roadmap)
    requires a.progress == 100 && b.progress == 99
    ensures ComputeStats([a, b]).avgProgress == 100
  {
    var f := (r: Roadmap) => r.progress;
    assert [a, b][..1] == [a] && [a][..0] == [];
    assert SumOf([a], f) == 100;
    assert SumOf([a, b], f) == 199;
    RoundDivUnique(199, 2, 100);
  }

  lemma {:induction false} SumExact(rs: seq<Roadmap>)
    requires forall i :: 0 <= i < |rs| ==> rs[i].progress == 100
    ensures SumOf(rs, (r: Roadmap) => r.progress) == 100 * |rs|
  {
    if |rs| > 0 {
      SumExact(rs[..|rs| - 1]);
    }
  }

  // ---------------------------------------------------------------------------
  // Charts
  // ---------------------------------------------------------------------------

  datatype Slice = Slice(name: string, value: int)

  /** The pie chart: completed topics, and the rest of the topic total. */
  function PieData(st: Stats): (pie: seq<Slice>)
    ensures |pie| == 2 && pie[0].name == "Completed" && pie[1].name == "Remaining"
    ensures pie[0].value + pie[1].value == st.totalTopics
    ensures pie[0].value == st.completedTopics
  {
    [Slice("Completed", st.completedTopics), Slice("Remaining", st.totalTopics - st.completedTopics)]
  }

  /** For a list of saved roadmaps neither slice is negative. */
  lemma PieSlicesNonNegative(rs: seq<Roadmap>)
    requires AllConsistent(rs)
    ensures forall k :: 0 <= k < 2 ==> PieData(ComputeStats(rs))[k].value >= 0
  {
    StatsInRange(rs);
  }

  /** The bar chart's category name: titles over 20 characters keep their
      first 20 and gain "...". */
  function ChartName(title: string): (name: string)
    ensures |name| <= 23
    ensures |title| <= 20 ==> name == title
    ensures |title| > 20 ==> |name| == 23 && name[..20] == title[..20] && name[20..] == "..."
  {
    if |title| > 20 then title[..20] + "..." else title
  }

  datatype Bar = Bar(name: string, progress: nat)

  /** `progressData`: one bar per roadmap, in list order. */
  function ProgressBars(rs: seq<Roadmap>): (bars: seq<Bar>)
    ensures |bars| == |rs|
    ensures forall i :: 0 <= i < |rs| ==> bars[i] == Bar(ChartName(rs[i].title), rs[i].progress)
  {
    seq(|rs|, i requires 0 <= i < |rs| => Bar(ChartName(rs[i].title), rs[i].progress))
  }

  // ---------------------------------------------------------------------------
  // Deleting from the list
  // ---------------------------------------------------------------------------

  /** `roadmaps.filter((r: Roadmap) => r._id !== roadmapId)` after a successful delete. */
  function DeleteLocal(rs: seq<Roadmap>, id: RoadmapId): (r: seq<Roadmap>)
    ensures forall x :: x in r <==> x in rs && x.id != id
    ensures forall x :: multiset(r)[x] == if x.id == id then 0 else multiset(rs)[x]
    ensures |r| <= |rs|
  {
    Seqs.FilterMembers(rs, (x: Roadmap) => x.id != id);
    Seqs.FilterMultiset(rs, (x: Roadmap) => x.id != id);
    Seqs.Filter(rs, (x: Roadmap) => x.id != id)
  }

  /** The filter works piecewise, so the kept roadmaps stay in list order:
      a one-roadmap list loses its roadmap exactly when it has the deleted id,
      and deleting from a concatenation concatenates the deletions. */
  lemma DeleteLocalSplit(xs: seq<Roadmap>, ys: seq<Roadmap>, id: RoadmapId)
    ensures DeleteLocal(xs + ys, id) == DeleteLocal(xs, id) + DeleteLocal(ys, id)
    ensures forall x :: DeleteLocal([x], id) == if x.id == id then [] else [x]
  {
    Seqs.FilterAppend(xs, ys, (x: Roadmap) => x.id != id);
    forall x {
      Seqs.FilterSingle(x, (y: Roadmap) => y.id != id);
    }
  }

  /** Filtering keeps the server's order: deleting from a newest-first list
      leaves a newest-first list. */
  lemma {:induction false} DeleteLocalKeepsOrder(rs: seq<Roadmap>, id: RoadmapId)
    requires RoadmapRoutes.NewestFirst(rs)
    ensures RoadmapRoutes.NewestFirst(DeleteLocal(rs, id))
  {
    if |rs| > 0 {
      DeleteLocalKeepsOrder(rs[1..], id);
      var rest := DeleteLocal(rs[1..], id);
      assert forall j :: 0 <= j < |rest| ==> rest[j] in rs[1..];
    }
  }

  /** The list the page keeps after a delete holds the same roadmaps as a
      refreshed request to the server would return: the local filter and the
      server-side delete agree. */
  method DeleteThenRefresh(s: RoadmapRoutes.Store, caller: UserId, id: RoadmapId)
    returns (local: seq<Roadmap>, refreshed: seq<Roadmap>)
    requires RoadmapRoutes.Valid(s)
    requires RoadmapRoutes.OwnedBy(s, caller, id)
    ensures forall x :: x in local <==> x in refreshed
    ensures RoadmapRoutes.NewestFirst(local) && RoadmapRoutes.NewestFirst(refreshed)
  {
    var before := RoadmapRoutes.List(s, caller);
    ListedExactly(s, caller, before);
    local := DeleteLocal(before, id);
    DeleteLocalKeepsOrder(before, id);
    var s' := RoadmapRoutes.Delete(s, caller, id).0;
    refreshed := RoadmapRoutes.List(s', caller);
    ListedExactly(s', caller, refreshed);
    ListedAfterDelete(s, s', caller, id);
  }

  /** Deleting `id` leaves every other stored roadmap of the caller listed. */
  lemma ListedAfterDelete(s: RoadmapRoutes.Store, s': RoadmapRoutes.Store, caller: UserId, id: RoadmapId)
    requires s'.roadmaps == s.roadmaps - {id}
    ensures forall x :: Listed(s', caller, x) <==> Listed(s, caller, x) && x.id != id
  {
  }

  /** `x` is one of `caller`'s stored roadmaps, as stored. */
  predicate Listed(s: RoadmapRoutes.Store, caller: UserId, x: Roadmap) {
    RoadmapRoutes.OwnedBy(s, caller, x.id) && s.roadmaps[x.id] == x
  }

  /** What the list route's contract says, read as membership: a roadmap is in
      the list exactly when it is one of the caller's stored roadmaps. */
  lemma ListedExactly(s: RoadmapRoutes.Store, caller: UserId, r: seq<Roadmap>)
    requires forall i :: 0 <= i < |r| ==> RoadmapRoutes.OwnedBy(s, caller, r[i].id) && s.roadmaps[r[i].id] == r[i]
    requires forall k :: RoadmapRoutes.OwnedBy(s, caller, k) ==> s.roadmaps[k] in r
    ensures forall x :: x in r <==> Listed(s, caller, x)
  {
    forall x | Listed(s, caller, x)
      ensures x in r
    {
      assert s.roadmaps[x.id] in r;
    }
  }

  /** The summary cards are not recomputed after a local delete: they keep
      the counts of the list as fetched, which include the deleted roadmap. */
  lemma StaleStatsAfterDelete(rs: seq<Roadmap>, id: RoadmapId, k: nat)
    requires 0 <= k < |rs| && rs[k].id == id
    ensures ComputeStats(DeleteLocal(rs, id)).totalRoadmaps < ComputeStats(rs).totalRoadmaps
  {
    Seqs.FilterCount(rs, (x: Roadmap) => x.id != id, rs[k]);
    assert rs[k] in multiset(rs);
    assert |DeleteLocal(rs, id)| < |rs| by {
      DropOneShorter(rs, (x: Roadmap) => x.id != id, rs[k]);
    }
  }

  lemma {:induction false} DropOneShorter(xs: seq<Roadmap>, p: Roadmap -> bool, y: Roadmap)
    requires y in xs && !p(y)
    ensures |Seqs.Filter(xs, p)| < |xs|
  {
    if xs[0] != y {
      DropOneShorter(xs[1..], p, y);
    }
  }

  // ---------------------------------------------------------------------------
  // Technology chips on a roadmap card
  // ---------------------------------------------------------------------------

  /** `xs.slice(0, n)` */
  function Take(xs: seq<string>, n: nat): (r: seq<string>)
    ensures |r| == if |xs| <= n then |xs| else n
    ensures r == xs[..|r|]
  {
    if |xs| <= n then xs else xs[..n]
  }

  /** `xs.slice(n)` */
  function Drop(xs: seq<string>, n: nat): (r: seq<string>)
    ensures Take(xs, n) + r == xs
  {
    if |xs| <= n then [] else xs[n..]
  }

  /** The chips shown: at most two languages, then at most two frameworks. */
  function Chips(ts: TechStack): (chips: seq<string>)
    ensures |chips| <= 4
    ensures var nl := if |ts.languages| < 2 then |ts.languages| else 2;
            var nf := if |ts.frameworks| < 2 then |ts.frameworks| else 2;
            chips == ts.languages[..nl] + ts.frameworks[..nf]
  {
    Take(ts.languages, 2) + Take(ts.frameworks, 2)
  }

  /** The languages and frameworks that have no chip. */
  function Hidden(ts: TechStack): seq<string> {
    Drop(ts.languages, 2) + Drop(ts.frameworks, 2)
  }

  /** The "+N more" badge as written: shown when languages and frameworks
      together number more than four, with N their number minus four. */
  function MoreBadgeAsWritten(ts: TechStack): (badge: Option<int>)
    ensures badge.Some? <==> |ts.languages| + |ts.frameworks| > 4
    ensures badge.Some? ==> badge.value + 4 == |ts.languages| + |ts.frameworks|
  {
    var n := |ts.languages| + |ts.frameworks|;
    if n > 4 then Some(n - 4) else None
  }

  /** The badge as intended: it counts the languages and frameworks that got
      no chip, and is shown exactly when there is one. */
  function MoreBadge(ts: TechStack): (badge: Option<nat>)
    ensures badge.Some? <==> |Hidden(ts)| > 0
    ensures badge.Some? ==> badge.value == |Hidden(ts)|
  {
    var hidden := |ts.languages| + |ts.frameworks| - |Chips(ts)|;
    assert hidden == |Hidden(ts)| by {
      assert Take(ts.languages, 2) + Drop(ts.languages, 2) == ts.languages;
      assert Take(ts.frameworks, 2) + Drop(ts.frameworks, 2) == ts.frameworks;
    }
    if hidden > 0 then Some(hidden) else None
  }

  /** The chips and the hidden items together are exactly the languages and
      frameworks, each once; so chips plus the badge count add up to them. */
  lemma ChipsAndBadgeCoverAll(ts: TechStack)
    ensures multiset(Chips(ts)) + multiset(Hidden(ts)) == multiset(ts.languages + ts.frameworks)
    ensures |Chips(ts)| + MoreBadge(ts).GetOr(0) == |ts.languages| + |ts.frameworks|
  {
    var l, f := ts.languages, ts.frameworks;
    assert Take(l, 2) + Drop(l, 2) == l;
    assert Take(f, 2) + Drop(f, 2) == f;
    calc {
      multiset(Chips(ts)) + multiset(Hidden(ts));
      multiset(Take(l, 2)) + multiset(Take(f, 2)) + multiset(Drop(l, 2)) + multiset(Drop(f, 2));
      multiset(Take(l, 2) + Drop(l, 2)) + multiset(Take(f, 2) + Drop(f, 2));
      multiset(l + f);
    }
  }

  /** The written badge agrees with the intended one exactly when both lists
      fill their two chips or neither overflows them; otherwise it misses
      hidden items. */
  lemma BadgeAgreesIff(ts: TechStack)
    ensures MoreBadgeAsWritten(ts) == (match MoreBadge(ts) case None => None case Some(n) => Some(n as int))
            <==> (|ts.languages| >= 2 && |ts.frameworks| >= 2) || (|ts.languages| <= 2 && |ts.frameworks| <= 2)
  {
  }

  /** Five languages and no frameworks: two chips and "+1 more", while three
      languages are hidden. */
  lemma BadgeUndercounts()
    ensures var ts := TechStack(["a", "b", "c", "d", "e"], [], [], [], [], []);
            && Chips(ts) == ["a", "b"]
            && MoreBadgeAsWritten(ts) == Some(1)
            && Hidden(ts) == ["c", "d", "e"]
            && MoreBadge(ts) == Some(3)
  {
    var ts := TechStack(["a", "b", "c", "d", "e"], [], [], [], [], []);
    assert Take(ts.languages, 2) == ["a", "b"];
    assert Drop(ts.languages, 2) == ["c", "d", "e"];
  }

  /** Three languages and no frameworks: one language is hidden and no badge
      is shown at all. */
  lemma BadgeMissing()
    ensures var ts := TechStack(["a", "b", "c"], [], [], [], [], []);
            && MoreBadgeAsWritten(ts) == None
            && MoreBadge(ts) == Some(1)
  {
    var ts := TechStack(["a", "b", "c"], [], [], [], [], []);
    assert Drop(ts.languages, 2) == ["c"];
  }
}
