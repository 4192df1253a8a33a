/** The scheduler output as overlay/glm_draft_trunc.py edits it in place: every drafted request cut to one common
length, and the token counts with it. */
module DraftSchedule {
  import opened Basics

  function Sum(order: seq<nat>, num: map<nat, int>): (total: int)
    requires forall i :: 0 <= i < |order| ==> order[i] in num
  {
    if order == [] then 0 else num[order[0]] + Sum(order[1..], num)
  }

  /** The parts of a scheduler output that truncation reads or edits; drafted and order are the keys of spec and num. */
  datatype Schedule = Schedule(order: seq<nat>, drafted: seq<nat>, spec: map<nat, seq<int>>, num: map<nat, int>,
      total: int,
                               structured: bool)
  {
    ghost predicate Valid()
    {
      && NoDup(order) && (forall r :: r in num <==> r in order)
      && NoDup(drafted) && (forall r :: r in spec <==> r in drafted)
      && (forall r :: r in spec ==> r in num)
      && total == Sum(order, num)
    }
  }

  /** The requests that really have drafts, in the scheduler's order. */
  function Live(s: Schedule, drafted: seq<nat>): (live: seq<nat>)
    requires forall i :: 0 <= i < |drafted| ==> drafted[i] in s.spec
    ensures forall r :: r in live <==> r in drafted && s.spec[r] != []
  {
    if drafted == [] then []
    else (if s.spec[drafted[0]] != [] then [drafted[0]] else []) + Live(s, drafted[1..])
  }

  lemma {:induction false} LiveNoDup(s: Schedule, drafted: seq<nat>)
    requires NoDup(drafted) && forall i :: 0 <= i < |drafted| ==> drafted[i] in s.spec
    ensures NoDup(Live(s, drafted))
    decreases |drafted|
  {
    if drafted != [] { LiveNoDup(s, drafted[1..]); }
  }

  /** eligible: the common number of drafts of the live requests when truncation may act on this schedule. */
  function Eligible(s: Schedule, known: set<nat>): (k: Option<nat>)
    requires forall r :: r in s.drafted ==> r in s.spec
    ensures k.Some? <==> !s.structured && Live(s, s.drafted) != []
                         && (forall r :: r in Live(s, s.drafted) ==> r in known)
                         && forall r, q :: r in Live(s, s.drafted) && q in Live(s, s.drafted) ==>
                              |s.spec[r]| == |s.spec[q]|
    ensures k.Some? ==> k.value > 0 && forall r :: r in Live(s, s.drafted) ==> |s.spec[r]| == k.value
  {
    var live := Live(s, s.drafted);
    if s.structured || live == [] || (exists r :: r in live && r !in known) then None
    else
      var k := |s.spec[live[0]]|;
      if exists r :: r in live && |s.spec[r]| != k then None else Some(k)
  }

  /** Each request of cut keeps its first L drafts, and loses the rest from its token count and from the total. */
  ghost predicate IsTruncated(before: Schedule, after: Schedule, cut: seq<nat>, kmax: nat, L: nat)
  {
    && after.order == before.order && after.drafted == before.drafted && after.structured == before.structured
    && after.spec.Keys == before.spec.Keys && after.num.Keys == before.num.Keys
    && (forall r :: r in before.spec ==>
        after.spec[r] == if r in cut then before.spec[r][..Min(L, |before.spec[r]|)] else before.spec[r])
    && (forall r :: r in before.num ==> after.num[r] == before.num[r] - if r in cut then kmax - L else 0)
  }

  lemma {:induction false} SumUpdate(order: seq<nat>, num: map<nat, int>, r: nat, v: int)
    requires NoDup(order) && (forall i :: 0 <= i < |order| ==> order[i] in num) && r in num
    ensures Sum(order, num[r := v]) == Sum(order, num) + if r in order then v - num[r] else 0
    decreases |order|
  {
    if order != [] { SumUpdate(order[1..], num, r, v); }
  }

  /** The first n requests of live, as a set. */
  function First(live: seq<nat>, n: nat): (e: set<nat>)
    requires n <= |live|
  {
    if n == 0 then {} else First(live, n - 1) + {live[n - 1]}
  }

  lemma {:induction false} FirstHolds(live: seq<nat>, n: nat, r: nat)
    requires n <= |live|
    ensures r in First(live, n) <==> exists k :: 0 <= k < n && live[k] == r
  {
    if n > 0 { FirstHolds(live, n - 1, r); }
  }

  lemma {:induction false} FirstIsAll(live: seq<nat>)
    ensures forall r: nat :: r in First(live, |live|) <==> r in live
  {
    forall r: nat
      ensures r in First(live, |live|) <==> r in live
    {
      FirstHolds(live, |live|, r);
    }
  }

  /** The drafts and token counts with the requests of cut shortened to L. */
  function Shortened(spec: map<nat, seq<int>>, cut: set<nat>, L: nat): (after: map<nat, seq<int>>)
  {
    map r | r in spec :: if r in cut then spec[r][..Min(L, |spec[r]|)] else spec[r]
  }

  function Reduced(num: map<nat, int>, cut: set<nat>, d: int): (after: map<nat, int>)
  {
    map r | r in num :: if r in cut then num[r] - d else num[r]
  }

  lemma OneMore(spec: map<nat, seq<int>>, num: map<nat, int>, cut: set<nat>, L: nat, d: int, r: nat)
    requires r in spec && r in num && r !in cut && L <= |spec[r]|
    ensures Shortened(spec, cut, L)[r] == spec[r] && Reduced(num, cut, d)[r] == num[r]
    ensures Shortened(spec, cut + {r}, L) == Shortened(spec, cut, L)[r := spec[r][..L]]
    ensures Reduced(num, cut + {r}, d) == Reduced(num, cut, d)[r := num[r] - d]
  {
  }

  lemma FinallyTruncated(before: Schedule, after: Schedule, live: seq<nat>, kmax: nat, L: nat, cut: int)
    requires IsCut(before, live, |live|, kmax, L, cut, after.spec, after.num)
    requires after.order == before.order && after.drafted == before.drafted && after.structured == before.structured
    ensures IsTruncated(before, after, live, kmax, L)
  {
    FirstIsAll(live);
  }

  ghost predicate Cuttable(s: Schedule, live: seq<nat>, kmax: nat, L: nat)
  {
    && NoDup(live) && L <= kmax
    && forall i :: 0 <= i < |live| ==>
         live[i] in s.spec && live[i] in s.order && live[i] in s.num && |s.spec[live[i]]| == kmax
  }

  ghost predicate Counted(order: seq<nat>, num: map<nat, int>)
  {
    NoDup(order) && forall i :: 0 <= i < |order| ==> order[i] in num
  }

  /** The scheduler output, edited in place. */
  class SchedulerOutput {
    var order: seq<nat>
    var drafted: seq<nat>
    var spec: map<nat, seq<int>>
    var num: map<nat, int>
    var total: int
    var structured: bool

    function State(): Schedule
      reads this
    {
      Schedule(order, drafted, spec, num, total, structured)
    }

    constructor (s: Schedule)
      ensures State() == s
    {
      order, drafted, spec, num, total, structured := s.order, s.drafted, s.spec, s.num, s.total, s.structured;
    }

    /** truncate's edit: the live requests cut, and the total with them. */
    method CutTo(live: seq<nat>, kmax: nat, L: nat)
      requires Counted(order, num) && Cuttable(State(), live, kmax, L)
      modifies this`spec, this`num, this`total
      ensures Counted(order, num) && IsTruncated(old(State()), State(), live, kmax, L)
      ensures total - Sum(order, num) == old(total - Sum(order, num))
    {
      ghost var before := State();
      var cut := CutEach(live, kmax, L);
      total := total - cut;
      FinallyTruncated(before, State(), live, kmax, L, cut);
    }

    /** The loop over the live requests, counting what it cuts. */
    method CutEach(live: seq<nat>, kmax: nat, L: nat) returns (cut: int)
      requires Counted(order, num) && Cuttable(State(), live, kmax, L)
      modifies this`spec, this`num
      ensures IsCut(old(State()), live, |live|, kmax, L, cut, spec, num)
    {
      hide IsCut, Cuttable, Counted;
      ghost var before := State();
      cut := 0;
      var i := 0;
      NothingCut(before, live, kmax, L);
      while i < |live|
        invariant 0 <= i <= |live| && IsCut(before, live, i, kmax, L, cut, spec, num)
      {
        CutStep(before, live, i, kmax, L, cut, spec, num);
        var d := |spec[live[i]]| - L;
        spec, num := spec[live[i] := spec[live[i]][..L]], num[live[i] := num[live[i]] - d];
        cut := cut + d;
        i := i + 1;
      }
    }
  }

  /** The first n live requests are cut, by `cut` tokens in all. */
  ghost predicate IsCut(before: Schedule, live: seq<nat>, n: nat, kmax: nat, L: nat, cut: int, spec: map<nat,
      seq<int>>, num: map<nat, int>)
  {
    && n <= |live| && L <= kmax
    && spec == Shortened(before.spec, First(live, n), L) && num == Reduced(before.num, First(live, n), kmax - L)
    && Counted(before.order, before.num) && Counted(before.order, num) &&
        Sum(before.order, num) == Sum(before.order, before.num) - cut
  }

  lemma NothingCut(before: Schedule, live: seq<nat>, kmax: nat, L: nat)
    requires Counted(before.order, before.num) && Cuttable(before, live, kmax, L)
    ensures IsCut(before, live, 0, kmax, L, 0, before.spec, before.num)
  {
    assert Shortened(before.spec, {}, L) == before.spec;
    assert Reduced(before.num, {}, kmax - L) == before.num;
  }

  lemma {:induction false} CutStep(before: Schedule, live: seq<nat>, i: nat, kmax: nat, L: nat, cut: int,
      spec: map<nat, seq<int>>, num: map<nat, int>)
    requires Cuttable(before, live, kmax, L) && i < |live| && IsCut(before, live, i, kmax, L, cut, spec, num)
    ensures var r := live[i];
            r in spec && r in num && L <= |spec[r]| &&
            IsCut(before, live, i + 1, kmax, L, cut + (|spec[r]| - L), spec[r := spec[r][..L]],
                num[r := num[r] - (|spec[r]| - L)])
  {
    var r := live[i];
    FirstHolds(live, i, r);
    OneMore(before.spec, before.num, First(live, i), L, kmax - L, r);
    SumUpdate(before.order, num, r, num[r] - (kmax - L));
  }

  /** What truncation to L does to a schedule whose live requests have kmax drafts each. */
  ghost predicate TruncatedTo(before: Schedule, after: Schedule, kmax: nat, L: nat)
    requires forall r :: r in before.drafted ==> r in before.spec
  {
    after.Valid() && 1 <= L <= kmax && IsTruncated(before, after, Live(before, before.drafted), kmax, L)
  }

  lemma {:induction false} FullLengthKept(s: Schedule, known: set<nat>)
    requires s.Valid() && Eligible(s, known).Some?
    ensures TruncatedTo(s, s, Eligible(s, known).value, Eligible(s, known).value)
  {
  }

  lemma {:induction false} LiveIsCuttable(s: Schedule, known: set<nat>, L: nat)
    requires s.Valid() && Eligible(s, known).Some? && L <= Eligible(s, known).value
    ensures Counted(s.order, s.num) && Cuttable(s, Live(s, s.drafted), Eligible(s, known).value, L)
  {
    LiveNoDup(s, s.drafted);
    var live := Live(s, s.drafted);
    forall i | 0 <= i < |live|
      ensures live[i] in s.spec && live[i] in s.order && live[i] in s.num &&
              |s.spec[live[i]]| == Eligible(s, known).value
    {
      assert live[i] in live;
    }
  }

  lemma {:induction false} CutIsTruncated(before: Schedule, after: Schedule, known: set<nat>, L: nat)
    requires before.Valid() && Eligible(before, known).Some? && 1 <= L <= Eligible(before, known).value
    requires Counted(after.order, after.num) &&
             after.total - Sum(after.order, after.num) == before.total - Sum(before.order, before.num)
    requires IsTruncated(before, after, Live(before, before.drafted), Eligible(before, known).value, L)
    ensures TruncatedTo(before, after, Eligible(before, known).value, L)
  {
  }
}
